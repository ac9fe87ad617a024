/** The response shaping of the search service (app.py): raw Google Books
    volume records become book records, with defaults for missing fields, and
    three statistics are computed over them. */
module BookData {
  import opened Options
  import opened Strings

  /** The `volumeInfo` object of a raw item; a field is `None` when the key is absent. */
  datatype VolumeInfo = VolumeInfo(
    authors: Option<seq<string>>,
    title: Option<string>,
    description: Option<string>,
    publishedDate: Option<string>)

  /** One element of the API's `items` list; `volumeInfo` may itself be absent. */
  datatype Item = Item(volumeInfo: Option<VolumeInfo>)

  /** The book record sent to the browser. */
  datatype Book = Book(authors: string, title: string, description: string, publishedDate: string)

  const UnknownAuthor := "Unknown Author"
  const NoTitle := "No Title"
  const NoDescription := "No description available."
  const UnknownDate := "Unknown Date"
  const NoAuthor := "No Author"
  const NoDate := "N/A"

  /** `sep.join(parts)`: the parts in order, with `sep` between neighbours. The
      join starts with the first part and ends with the last. */
  function Join(sep: string, parts: seq<string>): (r: string)
    ensures |parts| > 0 ==> |parts[0]| <= |r| && r[..|parts[0]|] == parts[0]
    ensures |parts| > 0 ==> |parts[|parts| - 1]| <= |r| && r[|r| - |parts[|parts| - 1]|..] == parts[|parts| - 1]
  {
    if |parts| == 0 then ""
    else if |parts| == 1 then parts[0]
    else parts[0] + sep + Join(sep, parts[1..])
  }

  /** Joining two non-empty lists puts exactly one separator between their joins. */
  lemma {:induction false} JoinAppend(sep: string, xs: seq<string>, ys: seq<string>)
    requires |xs| > 0 && |ys| > 0
    ensures Join(sep, xs + ys) == Join(sep, xs) + sep + Join(sep, ys)
  {
    if |xs| == 1 {
      assert (xs + ys)[1..] == ys;
    } else {
      assert (xs + ys)[1..] == xs[1..] + ys;
      JoinAppend(sep, xs[1..], ys);
    }
  }

  /** The summed lengths of a list of strings. */
  function TotalLength(parts: seq<string>): nat
  {
    if parts == [] then 0 else |parts[0]| + TotalLength(parts[1..])
  }

  /** The join holds every part and one separator between each neighbouring pair. */
  lemma {:induction false} JoinLength(sep: string, parts: seq<string>)
    requires |parts| > 0
    ensures |Join(sep, parts)| == TotalLength(parts) + |sep| * (|parts| - 1)
  {
    if |parts| > 1 {
      JoinLength(sep, parts[1..]);
      assert Join(sep, parts) == parts[0] + sep + Join(sep, parts[1..]);
      assert TotalLength(parts) == |parts[0]| + TotalLength(parts[1..]);
    }
  }

  /** format_authors: the comma-separated authors, or a placeholder when the
      list is absent or empty (both are falsy in Python). */
  function FormatAuthors(authors: Option<seq<string>>): (r: string)
    ensures authors == None || authors == Some([]) ==> r == UnknownAuthor
    ensures authors.Some? && |authors.value| > 0 ==> r == Join(", ", authors.value)
  {
    if authors.Some? && |authors.value| > 0 then Join(", ", authors.value) else UnknownAuthor
  }

  /** A single author is reported as just that name; two are separated by ", ". */
  lemma FormatAuthorsFew(a: string, b: string)
    ensures FormatAuthors(Some([a])) == a
    ensures FormatAuthors(Some([a, b])) == a + ", " + b
  {
    assert [a, b][1..] == [b];
    assert Join(", ", [b]) == b;
    assert Join(", ", [a, b]) == a + ", " + Join(", ", [b]);
  }

  /** `item.get('volumeInfo', {})`: a missing object reads as one with no keys. */
  function Info(item: Item): (v: VolumeInfo)
    ensures item.volumeInfo.Some? ==> v == item.volumeInfo.value
    ensures item.volumeInfo == None ==> v.authors == None && v.title == None && v.description == None && v.publishedDate == None
  {
    item.volumeInfo.GetOr(VolumeInfo(None, None, None, None))
  }

  /** `volume_info.get('authors', [])`. */
  function AuthorsOf(item: Item): (a: seq<string>)
    ensures Info(item).authors.Some? ==> a == Info(item).authors.value
    ensures Info(item).authors == None ==> a == []
  {
    Info(item).authors.GetOr([])
  }

  /** `volume_info.get('publishedDate', 'Unknown Date')`. */
  function DateOf(item: Item): (d: string)
    ensures Info(item).publishedDate.Some? ==> d == Info(item).publishedDate.value
    ensures Info(item).publishedDate == None ==> d == UnknownDate
  {
    Info(item).publishedDate.GetOr(UnknownDate)
  }

  /** The book record built for one item (app.py, the dictionary appended in the loop). */
  function ToBook(item: Item): (b: Book)
    ensures b.authors == FormatAuthors(Some(AuthorsOf(item)))
    ensures Info(item).title == None ==> b.title == NoTitle
    ensures Info(item).title.Some? ==> b.title == Info(item).title.value
    ensures Info(item).description == None ==> b.description == NoDescription
    ensures Info(item).description.Some? ==> b.description == Info(item).description.value
    ensures Info(item).publishedDate == None ==> b.publishedDate == UnknownDate
    ensures Info(item).publishedDate.Some? ==> b.publishedDate == Info(item).publishedDate.value
  {
    var info := Info(item);
    Book(FormatAuthors(Some(AuthorsOf(item))),
         info.title.GetOr(NoTitle),
         info.description.GetOr(NoDescription),
         DateOf(item))
  }

  /** The `books` list after the loop has seen `items`: one book per item. */
  function BooksOf(items: seq<Item>): (r: seq<Book>)
    ensures |r| == |items|
  {
    if items == [] then [] else BooksOf(items[..|items| - 1]) + [ToBook(items[|items| - 1])]
  }

  /** The `all_authors` list after the loop has seen `items`: every author
      of every item is counted, as often as that item lists it. */
  function AllAuthors(items: seq<Item>): (r: seq<string>)
    ensures forall i :: 0 <= i < |items| ==> multiset(AuthorsOf(items[i])) <= multiset(r)
  {
    if items == [] then []
    else
      var init := items[..|items| - 1];
      var r := AllAuthors(init) + AuthorsOf(items[|items| - 1]);
      assert forall i :: 0 <= i < |init| ==> init[i] == items[i];
      assert multiset(r) == multiset(AllAuthors(init)) + multiset(AuthorsOf(items[|items| - 1]));
      r
  }

  /** The `pub_dates` list after the loop has seen `items`: at most one date
      per item, and never the placeholder. */
  function KnownDates(items: seq<Item>): (r: seq<string>)
    ensures |r| <= |items|
    ensures forall d :: d in r ==> d != UnknownDate
  {
    if items == [] then []
    else
      var d := DateOf(items[|items| - 1]);
      KnownDates(items[..|items| - 1]) + (if d != UnknownDate then [d] else [])
  }

  /** One book per item, in input order, each built from its own item. */
  lemma {:induction false} BooksOfPointwise(items: seq<Item>)
    ensures |BooksOf(items)| == |items|
    ensures forall i :: 0 <= i < |items| ==> BooksOf(items)[i] == ToBook(items[i])
  {
    if items != [] {
      BooksOfPointwise(items[..|items| - 1]);
    }
  }

  /** The combined author list holds exactly the authors of the items. */
  lemma {:induction false} AllAuthorsMembers(items: seq<Item>, a: string)
    ensures a in AllAuthors(items) <==> exists i :: 0 <= i < |items| && a in AuthorsOf(items[i])
  {
    if exists i :: 0 <= i < |items| && a in AuthorsOf(items[i]) {
      var i :| 0 <= i < |items| && a in AuthorsOf(items[i]);
      assert multiset(AuthorsOf(items[i]))[a] > 0;
    }
    if items != [] && a in AllAuthors(items) {
      var init := items[..|items| - 1];
      var last := |items| - 1;
      assert AllAuthors(items) == AllAuthors(init) + AuthorsOf(items[last]);
      if a in AllAuthors(init) {
        AllAuthorsMembers(init, a);
        var i :| 0 <= i < |init| && a in AuthorsOf(init[i]);
        assert init[i] == items[i];
      } else {
        assert a in AuthorsOf(items[last]);
      }
    }
  }

  /** The date list holds exactly the items' dates other than "Unknown Date". */
  lemma {:induction false} KnownDatesMembers(items: seq<Item>, d: string)
    ensures d in KnownDates(items) <==>
      d != UnknownDate && exists i :: 0 <= i < |items| && DateOf(items[i]) == d
  {
    if items != [] {
      var init := items[..|items| - 1];
      KnownDatesMembers(init, d);
      assert forall i :: 0 <= i < |init| ==> init[i] == items[i];
      if d != UnknownDate && DateOf(items[|items| - 1]) == d {
        assert d in KnownDates(items);
      }
    }
  }

  /** How often `a` occurs in `xs` (a `Counter` entry); positive exactly for the elements. */
  function Count(xs: seq<string>, a: string): (n: nat)
    ensures n > 0 <==> a in xs
  {
    multiset(xs)[a]
  }

  /** An element of `candidates` whose count in `xs` is at least that of every candidate. */
  function MostFrequentOf(xs: seq<string>, candidates: seq<string>): (r: string)
    requires |candidates| > 0
    ensures r in candidates
    ensures forall c :: c in candidates ==> Count(xs, c) <= Count(xs, r)
  {
    if |candidates| == 1 then candidates[0]
    else
      var m := MostFrequentOf(xs, candidates[1..]);
      assert candidates == [candidates[0]] + candidates[1..];
      if Count(xs, candidates[0]) >= Count(xs, m) then candidates[0] else m
  }

  /** `Counter(xs).most_common(1)`, read as in app.py: some author of the
      greatest count, or "No Author" when there is none. Which one of several
      equally frequent authors Python picks is not modelled. */
  function MostCommon(xs: seq<string>): (r: string)
    ensures xs == [] ==> r == NoAuthor
    ensures xs != [] ==> r in xs && forall a :: Count(xs, a) <= Count(xs, r)
  {
    if xs == [] then NoAuthor
    else
      var r := MostFrequentOf(xs, xs);
      forall a ensures Count(xs, a) <= Count(xs, r) {
        if a !in xs {
          assert Count(xs, a) == 0;
        }
      }
      r
  }

  /** The placeholder comes back exactly when there are no authors, provided
      no author is literally called "No Author". */
  lemma MostCommonPlaceholder(xs: seq<string>)
    requires NoAuthor !in xs
    ensures MostCommon(xs) == NoAuthor <==> xs == []
  {
  }

  /** process_books_data: the loop builds the book list and the two auxiliary
      lists; the statistics are then taken over those lists. */
  method ProcessBooksData(items: seq<Item>)
    returns (books: seq<Book>, mostCommonAuthor: string, earliestPubDate: string, latestPubDate: string)
    ensures books == BooksOf(items)
    ensures |books| == |items|
    ensures forall i :: 0 <= i < |items| ==> books[i] == ToBook(items[i])
    ensures mostCommonAuthor == MostCommon(AllAuthors(items))
    ensures AllAuthors(items) == [] ==> mostCommonAuthor == NoAuthor
    ensures AllAuthors(items) != [] ==>
      mostCommonAuthor in AllAuthors(items) &&
      forall a :: Count(AllAuthors(items), a) <= Count(AllAuthors(items), mostCommonAuthor)
    ensures earliestPubDate == MinOr(KnownDates(items), NoDate)
    ensures latestPubDate == MaxOr(KnownDates(items), NoDate)
    ensures KnownDates(items) == [] ==> earliestPubDate == NoDate && latestPubDate == NoDate
    ensures KnownDates(items) != [] ==>
      earliestPubDate in KnownDates(items) && latestPubDate in KnownDates(items) &&
      StrLe(earliestPubDate, latestPubDate) &&
      forall d :: d in KnownDates(items) ==> StrLe(earliestPubDate, d) && StrLe(d, latestPubDate)
  {
    books := [];
    var allAuthors: seq<string> := [];
    var pubDates: seq<string> := [];
    var i := 0;
    while i < |items|
      invariant 0 <= i <= |items|
      invariant books == BooksOf(items[..i])
      invariant allAuthors == AllAuthors(items[..i])
      invariant pubDates == KnownDates(items[..i])
    {
      var item := items[i];
      var authors := AuthorsOf(item);
      var publishedDate := DateOf(item);
      assert items[..i + 1][..i] == items[..i];
      allAuthors := allAuthors + authors;
      if publishedDate != UnknownDate {
        pubDates := pubDates + [publishedDate];
      }
      books := books + [ToBook(item)];
      i := i + 1;
    }
    assert items[..i] == items;
    BooksOfPointwise(items);
    mostCommonAuthor := MostCommon(allAuthors);
    earliestPubDate := MinOr(pubDates, NoDate);
    latestPubDate := MaxOr(pubDates, NoDate);
    if pubDates != [] {
      LeastBeforeGreatest(pubDates);
    }
  }
}
