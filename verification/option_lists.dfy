/** The option lists built from the ticket set: distinct truthy values, optionally sorted. */
module OptionLists {
  import opened Values
  import opened Text
  import opened Seqs

  /**
   * `[...new Set(xs.filter(Boolean))]`: the truthy values, each once, in order of first
   * occurrence.
   */
  function Distinct(xs: seq<Nullable>): (r: seq<string>)
    ensures NoDup(r)
    ensures forall v :: v in r <==> Some(v) in xs && v != ""
  {
    if xs == [] then []
    else
      var r := Distinct(xs[..|xs| - 1]);
      var x := xs[|xs| - 1];
      assert xs == xs[..|xs| - 1] + [x];
      if Truthy(x) && x.value !in r then r + [x.value] else r
  }

  /** Strictly increasing in the default sort order (hence free of duplicates). */
  predicate StrictlySorted(s: seq<string>) {
    forall i, j :: 0 <= i < j < |s| ==> StrLess(s[i], s[j])
  }

  /** Insert into a strictly sorted list, skipping a value already present. */
  function Insert(x: string, s: seq<string>): (r: seq<string>)
    requires StrictlySorted(s)
    ensures StrictlySorted(r)
    ensures forall y :: y in r <==> y == x || y in s
  {
    if s == [] then [x]
    else if x == s[0] then s
    else if StrLess(x, s[0]) then
      forall j | 0 < j < |s| ensures StrLess(x, s[j]) {
        StrLessTransitive(x, s[0], s[j]);
      }
      [x] + s
    else
      StrLessTotal(x, s[0]);
      var t := Insert(x, s[1..]);
      assert forall y :: y in t ==> StrLess(s[0], y) by {
        forall y | y in t ensures StrLess(s[0], y) {
          if y != x {
            var j :| 0 <= j < |s[1..]| && s[1..][j] == y;
            assert s[j + 1] == y;
          }
        }
      }
      [s[0]] + t
  }

  /** Sort a list of strings with `Insert`. */
  function SortStrings(s: seq<string>): (r: seq<string>)
    ensures StrictlySorted(r)
    ensures forall y :: y in r <==> y in s
  {
    if s == [] then [] else Insert(s[0], SortStrings(s[1..]))
  }

  /** `[...new Set(...filter(Boolean))].sort()`: the option list of a dashboard filter. */
  function SortedOptions(xs: seq<Nullable>): (r: seq<string>)
    ensures StrictlySorted(r) && NoDup(r)
    ensures forall v :: v in r <==> Some(v) in xs && v != ""
  {
    var r := SortStrings(Distinct(xs));
    forall i, j | 0 <= i < j < |r| ensures r[i] != r[j] {
      StrLessIrreflexive(r[i]);
    }
    r
  }

  /** The head of a strictly sorted list precedes every other element. */
  lemma SortedHeadLeast(s: seq<string>, y: string)
    requires StrictlySorted(s) && y in s
    ensures y == s[0] || StrLess(s[0], y)
  {
    var j :| 0 <= j < |s| && s[j] == y;
    if j > 0 {
      assert StrLess(s[0], s[j]);
    }
  }

  /** A list with an element shares it with any list of the same elements, so neither is empty. */
  lemma SameElementsNonEmpty(a: seq<string>, b: seq<string>)
    requires a != [] && forall y :: y in a <==> y in b
    ensures b != []
  {
    assert a[0] in a;
  }

  /**
   * Two strictly sorted lists with the same elements are equal, so `SortedOptions` is
   * the one sorted arrangement of the distinct values, whatever sort produced it.
   */
  lemma {:induction false} SortedUnique(a: seq<string>, b: seq<string>)
    requires StrictlySorted(a) && StrictlySorted(b)
    requires forall y :: y in a <==> y in b
    ensures a == b
  {
    if a != [] {
      SameElementsNonEmpty(a, b);
    }
    if b != [] {
      SameElementsNonEmpty(b, a);
    }
    if a != [] {
      SortedHeadLeast(b, a[0]);
      SortedHeadLeast(a, b[0]);
      StrLessNotBoth(a[0], b[0]);
      assert a[0] == b[0];
      assert a == [a[0]] + a[1..] && b == [b[0]] + b[1..];
      forall y ensures y in a[1..] <==> y in b[1..] {
        StrLessIrreflexive(y);
        if y in a[1..] {
          var i :| 0 <= i < |a[1..]| && a[1..][i] == y;
          assert StrLess(a[0], a[i + 1]);
          assert y in b && y != b[0];
        }
        if y in b[1..] {
          var i :| 0 <= i < |b[1..]| && b[1..][i] == y;
          assert StrLess(b[0], b[i + 1]);
          assert y in a && y != a[0];
        }
      }
      SortedUnique(a[1..], b[1..]);
    }
  }

  lemma StrLessNotBoth(x: string, y: string)
    ensures !(StrLess(x, y) && StrLess(y, x))
  {
    if StrLess(x, y) {
      StrLessAsymmetric(x, y);
    }
  }
}
