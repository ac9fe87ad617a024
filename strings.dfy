/** Python's ordering of `str` values: lexicographic by code point, a proper
    prefix sorting first; and the built-ins `min` and `max` over a list of them. */
module Strings {

  /** `a <= b` on Python strings. A string sorts no later than any extension
      of it ("2020" before "2020-05-01"). */
  predicate StrLe(a: string, b: string)
    ensures a <= b ==> StrLe(a, b)
  {
    if a == [] then true
    else if b == [] then false
    else if a[0] != b[0] then a[0] < b[0]
    else StrLe(a[1..], b[1..])
  }

  /** `a < b` on Python strings: exactly when `b <= a` fails. */
  predicate StrLt(a: string, b: string)
    ensures StrLt(a, b) <==> !StrLe(b, a)
  {
    StrLeTotal(a, b);
    if StrLe(a, b) && StrLe(b, a) then
      StrLeAntisymmetric(a, b);
      false
    else
      StrLe(a, b) && a != b
  }

  lemma {:induction false} StrLeReflexive(a: string)
    ensures StrLe(a, a)
  {
    if a != [] {
      StrLeReflexive(a[1..]);
    }
  }

  lemma {:induction false} StrLeTotal(a: string, b: string)
    ensures StrLe(a, b) || StrLe(b, a)
  {
    if a != [] && b != [] && a[0] == b[0] {
      StrLeTotal(a[1..], b[1..]);
    }
  }

  lemma {:induction false} StrLeAntisymmetric(a: string, b: string)
    requires StrLe(a, b) && StrLe(b, a)
    ensures a == b
  {
    if a != [] && b != [] {
      StrLeAntisymmetric(a[1..], b[1..]);
      assert a == [a[0]] + a[1..] && b == [b[0]] + b[1..];
    }
  }

  lemma {:induction false} StrLeTransitive(a: string, b: string, c: string)
    requires StrLe(a, b) && StrLe(b, c)
    ensures StrLe(a, c)
  {
    if a != [] && b != [] && c != [] && a[0] == b[0] && b[0] == c[0] {
      StrLeTransitive(a[1..], b[1..], c[1..]);
    }
  }

  /** Exactly one of `a < b`, `a == b`, `b < a` holds. */
  lemma StrLtTrichotomy(a: string, b: string)
    ensures StrLt(a, b) || a == b || StrLt(b, a)
    ensures !(StrLt(a, b) && StrLt(b, a))
  {
    StrLeTotal(a, b);
    if StrLe(a, b) && StrLe(b, a) {
      StrLeAntisymmetric(a, b);
    }
  }

  /** Python's `min(ds)`: walk the list, replacing the candidate by any item
      strictly smaller than it. The result is an element no larger than any. */
  function Least(ds: seq<string>): (r: string)
    requires |ds| > 0
    ensures r in ds
    ensures forall d :: d in ds ==> StrLe(r, d)
  {
    if |ds| == 1 then
      StrLeReflexive(ds[0]);
      ds[0]
    else
      var m := Least(ds[..|ds| - 1]);
      var last := ds[|ds| - 1];
      assert ds == ds[..|ds| - 1] + [last];
      if StrLt(last, m) then
        forall d | d in ds[..|ds| - 1] ensures StrLe(last, d) {
          StrLeTransitive(last, m, d);
        }
        StrLeReflexive(last);
        last
      else
        StrLeTotal(last, m);
        StrLeReflexive(m);
        m
  }

  /** Python's `max(ds)`: walk the list, replacing the candidate by any item
      strictly larger than it. The result is an element no smaller than any. */
  function Greatest(ds: seq<string>): (r: string)
    requires |ds| > 0
    ensures r in ds
    ensures forall d :: d in ds ==> StrLe(d, r)
  {
    if |ds| == 1 then
      StrLeReflexive(ds[0]);
      ds[0]
    else
      var m := Greatest(ds[..|ds| - 1]);
      var last := ds[|ds| - 1];
      assert ds == ds[..|ds| - 1] + [last];
      if StrLt(m, last) then
        forall d | d in ds[..|ds| - 1] ensures StrLe(d, last) {
          StrLeTransitive(d, m, last);
        }
        StrLeReflexive(last);
        last
      else
        StrLeTotal(last, m);
        StrLeReflexive(m);
        m
  }

  /** `min(ds, default=dflt)`. */
  function MinOr(ds: seq<string>, dflt: string): (r: string)
    ensures ds == [] ==> r == dflt
    ensures ds != [] ==> r in ds && forall d :: d in ds ==> StrLe(r, d)
  {
    if ds == [] then dflt else Least(ds)
  }

  /** `max(ds, default=dflt)`. */
  function MaxOr(ds: seq<string>, dflt: string): (r: string)
    ensures ds == [] ==> r == dflt
    ensures ds != [] ==> r in ds && forall d :: d in ds ==> StrLe(d, r)
  {
    if ds == [] then dflt else Greatest(ds)
  }

  /** The minimum never sorts after the maximum. */
  lemma LeastBeforeGreatest(ds: seq<string>)
    requires |ds| > 0
    ensures StrLe(Least(ds), Greatest(ds))
  {
    assert Greatest(ds) in ds;
  }
}
