/** The category drop-down's option list (dom-manipulation/script.js, line 158):
    `[...new Set(quotes.map(q => q.category))].sort()`. */
module Roster {
  import opened Quotes
  import opened Text

  /** `quotes.map(q => q.category)`: the values it holds are the categories that occur
      in the list. */
  function Categories(qs: seq<Quote>): (cs: seq<string>)
    ensures forall c :: c in cs <==> exists q :: q in qs && q.category == c
  {
    var cs := seq(|qs|, i requires 0 <= i < |qs| => qs[i].category);
    assert forall c :: c in cs ==> exists q :: q in qs && q.category == c by {
      forall c | c in cs ensures exists q :: q in qs && q.category == c {
        var i :| 0 <= i < |qs| && cs[i] == c;
        assert qs[i] in qs;
      }
    }
    assert forall q :: q in qs ==> q.category in cs by {
      forall q | q in qs ensures q.category in cs {
        var i :| 0 <= i < |qs| && qs[i] == q;
        assert cs[i] == q.category;
      }
    }
    cs
  }

  predicate Distinct(s: seq<string>) {
    forall i, j :: 0 <= i < j < |s| ==> s[i] != s[j]
  }

  predicate StrictlySorted(s: seq<string>) {
    forall i, j :: 0 <= i < j < |s| ==> LexLess(s[i], s[j])
  }

  /** `[...new Set(s)]`: each value once, at its first occurrence. */
  function Dedup(s: seq<string>): (r: seq<string>)
    ensures Distinct(r)
    ensures forall x :: x in r <==> x in s
  {
    if s == [] then []
    else
      var d := Dedup(s[..|s| - 1]);
      assert s == s[..|s| - 1] + [s[|s| - 1]];
      if s[|s| - 1] in d then d else d + [s[|s| - 1]]
  }

  lemma SortedCons(h: string, t: seq<string>)
    requires StrictlySorted(t)
    requires forall y :: y in t ==> LexLess(h, y)
    ensures StrictlySorted([h] + t)
  {
    forall i, j | 0 <= i < j < |[h] + t| ensures LexLess(([h] + t)[i], ([h] + t)[j]) {
      if i == 0 {
        assert ([h] + t)[j] == t[j - 1];
      } else {
        assert ([h] + t)[i] == t[i - 1] && ([h] + t)[j] == t[j - 1];
      }
    }
  }

  /** `sort` places a new value: before the first element it precedes. */
  function Insert(x: string, s: seq<string>): (r: seq<string>)
    requires StrictlySorted(s) && x !in s
    ensures StrictlySorted(r) && |r| == |s| + 1
    ensures forall y :: y in r <==> y == x || y in s
  {
    if s == [] then [x]
    else if LexLess(x, s[0]) then
      assert forall y :: y in s ==> LexLess(x, y) by {
        forall y | y in s ensures LexLess(x, y) {
          if y != s[0] {
            var k :| 0 <= k < |s| && s[k] == y;
            LexLessTransitive(x, s[0], y);
          }
        }
      }
      SortedCons(x, s);
      [x] + s
    else
      LexLessTotal(x, s[0]);
      assert s == [s[0]] + s[1..];
      var rest := Insert(x, s[1..]);
      SortedCons(s[0], rest);
      [s[0]] + rest
  }

  /** The sorted arrangement of a list of distinct values. */
  function Sort(s: seq<string>): (r: seq<string>)
    requires Distinct(s)
    ensures StrictlySorted(r)
    ensures forall y :: y in r <==> y in s
  {
    if s == [] then []
    else
      assert s == [s[0]] + s[1..];
      Insert(s[0], Sort(s[1..]))
  }

  /** The drop-down's categories: strictly ascending, so each appears once, and they
      are exactly the categories that occur in the list. */
  function CategoryRoster(qs: seq<Quote>): (r: seq<string>)
    ensures StrictlySorted(r) && Distinct(r)
    ensures forall c :: c in r <==> exists q :: q in qs && q.category == c
  {
    var r := Sort(Dedup(Categories(qs)));
    StrictlySortedDistinct(r);
    r
  }

  lemma StrictlySortedDistinct(s: seq<string>)
    requires StrictlySorted(s)
    ensures Distinct(s)
  {
    forall i, j | 0 <= i < j < |s| ensures s[i] != s[j] {
      if s[i] == s[j] { LexLessIrreflexive(s[i]); }
    }
  }

  lemma FirstIsMember(s: seq<string>)
    ensures s != [] ==> s[0] in s
  {
  }

  /** Two ascending lists with the same values are the same list. */
  lemma {:induction false} StrictlySortedUnique(a: seq<string>, b: seq<string>)
    requires StrictlySorted(a) && StrictlySorted(b)
    requires forall x :: x in a <==> x in b
    ensures a == b
  {
    if a == [] {
      FirstIsMember(b);
    } else {
      assert b != [] by { assert a[0] in b; }
      if a[0] != b[0] {
        assert a[0] in b && b[0] in a;
        var i :| 0 <= i < |b| && b[i] == a[0];
        var j :| 0 <= j < |a| && a[j] == b[0];
        assert LexLess(b[0], a[0]);
        assert LexLess(a[0], b[0]);
        LexLessAsymmetric(a[0], b[0]);
      }
      forall x ensures x in a[1..] <==> x in b[1..] {
        if x in a[1..] {
          var i :| 0 <= i < |a[1..]| && a[1..][i] == x;
          assert LexLess(a[0], x);
          LexLessIrreflexive(x);
          assert x in b;
        }
        if x in b[1..] {
          var i :| 0 <= i < |b[1..]| && b[1..][i] == x;
          assert LexLess(b[0], x);
          LexLessIrreflexive(x);
          assert x in a;
        }
      }
      StrictlySortedUnique(a[1..], b[1..]);
      assert a == [a[0]] + a[1..] && b == [b[0]] + b[1..];
    }
  }

  /** The roster does not depend on how it is computed: it is the one ascending list of
      the categories in the quote list. */
  lemma RosterIsSortedCategorySet(qs: seq<Quote>, r: seq<string>)
    requires StrictlySorted(r)
    requires forall c :: c in r <==> exists q :: q in qs && q.category == c
    ensures r == CategoryRoster(qs)
  {
    StrictlySortedUnique(r, CategoryRoster(qs));
  }
}
