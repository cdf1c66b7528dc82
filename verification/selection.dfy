/** Which quotes the category filter shows (dom-manipulation/script.js, line 179), and
    where each of them sits in the full list (the index `quotes.indexOf(q)` stores at
    line 195). */
module Selection {
  import opened Quotes

  /** The value of the drop-down's first option, "All Categories". */
  const AllCategories := "all"

  /** `quotes.filter(q => q.category === c)` */
  function ByCategory(qs: seq<Quote>, c: string): (r: seq<Quote>)
    ensures |r| <= |qs|
  {
    if qs == [] then []
    else
      var last := qs[|qs| - 1];
      var p := ByCategory(qs[..|qs| - 1], c);
      if last.category == c then p + [last] else p
  }

  /** The filtered list holds exactly the quotes with that category. */
  lemma {:induction false} ByCategoryMembers(qs: seq<Quote>, c: string)
    ensures forall q :: q in ByCategory(qs, c) <==> q in qs && q.category == c
  {
    if qs != [] {
      var init, last := qs[..|qs| - 1], qs[|qs| - 1];
      ByCategoryMembers(init, c);
      assert qs == init + [last];
    }
  }

  /** The list the filter shows for the drop-down value `selected`. */
  function Matching(qs: seq<Quote>, selected: string): seq<Quote> {
    if selected == AllCategories then qs else ByCategory(qs, selected)
  }

  /** Whether the filter lets the quote at this position through. */
  predicate Shown(q: Quote, selected: string) {
    selected == AllCategories || q.category == selected
  }

  /** The positions in the full list of the quotes the filter shows. */
  function Positions(qs: seq<Quote>, selected: string): (ps: seq<nat>)
    ensures forall k :: 0 <= k < |ps| ==> ps[k] < |qs| && Shown(qs[ps[k]], selected)
  {
    if qs == [] then []
    else
      var p := Positions(qs[..|qs| - 1], selected);
      if Shown(qs[|qs| - 1], selected) then p + [|qs| - 1] else p
  }

  /** The positions are increasing and include every position whose quote passes. */
  lemma {:induction false} PositionsExact(qs: seq<Quote>, selected: string)
    ensures var ps := Positions(qs, selected);
      && (forall k, l :: 0 <= k < l < |ps| ==> ps[k] < ps[l])
      && (forall i :: 0 <= i < |qs| && Shown(qs[i], selected) ==> i in ps)
  {
    if qs != [] {
      var n := |qs|;
      var init := qs[..n - 1];
      PositionsExact(init, selected);
      var p0 := Positions(init, selected);
      forall i | 0 <= i < n - 1 && Shown(qs[i], selected) ensures i in p0 {
        assert qs[i] == init[i];
      }
    }
  }

  /** The filtered list is the full list read at those positions: so it keeps exactly
      the quotes that pass, in their original order, and "all" keeps everything. */
  lemma {:induction false} MatchingAtPositions(qs: seq<Quote>, selected: string)
    ensures |Matching(qs, selected)| == |Positions(qs, selected)|
    ensures forall k :: 0 <= k < |Positions(qs, selected)| ==>
      Matching(qs, selected)[k] == qs[Positions(qs, selected)[k]]
  {
    if qs != [] {
      var n := |qs|;
      var init, last := qs[..n - 1], qs[n - 1];
      MatchingAtPositions(init, selected);
      var m0, p0 := Matching(init, selected), Positions(init, selected);
      var m, p := Matching(qs, selected), Positions(qs, selected);
      assert qs == init + [last];
      if Shown(last, selected) {
        assert p == p0 + [n - 1];
        assert m == m0 + [last];
        forall k | 0 <= k < |p| ensures m[k] == qs[p[k]] {
          if k < |p0| {
            assert m[k] == m0[k] == init[p0[k]];
          }
        }
      } else {
        assert p == p0 && m == m0;
        forall k | 0 <= k < |p| ensures m[k] == qs[p[k]] {
          assert m[k] == m0[k] == init[p0[k]];
        }
      }
    }
  }

  /** With "all" selected the filter shows the whole list in order. */
  lemma MatchingAll(qs: seq<Quote>)
    ensures Matching(qs, AllCategories) == qs
    ensures Positions(qs, AllCategories) == seq(|qs|, i => i)
  {
    var ps := Positions(qs, AllCategories);
    MatchingAtPositions(qs, AllCategories);
    PositionsExact(qs, AllCategories);
    IncreasingCover(ps, |qs|);
  }

  lemma FirstIsBelow(ps: seq<nat>, n: nat)
    requires forall k :: 0 <= k < |ps| ==> ps[k] < n
    ensures ps != [] ==> ps[0] < n
  {
  }

  /** An increasing list of positions below n that contains every one of them is
      0, 1, ..., n-1. */
  lemma {:induction false} IncreasingCover(ps: seq<nat>, n: nat)
    requires forall k :: 0 <= k < |ps| ==> ps[k] < n
    requires forall k, l :: 0 <= k < l < |ps| ==> ps[k] < ps[l]
    requires forall i :: 0 <= i < n ==> i in ps
    ensures ps == seq(n, i => i)
  {
    if n == 0 {
      FirstIsBelow(ps, n);
    } else {
      assert n - 1 in ps;
      var last := ps[|ps| - 1];
      assert last == n - 1 by {
        var k :| 0 <= k < |ps| && ps[k] == n - 1;
      }
      var init := ps[..|ps| - 1];
      forall i | 0 <= i < n - 1 ensures i in init {
        assert i in ps;
        var k :| 0 <= k < |ps| && ps[k] == i;
        assert k < |ps| - 1;
        assert init[k] == i;
      }
      IncreasingCover(init, n - 1);
      assert ps == init + [last];
    }
  }
}
