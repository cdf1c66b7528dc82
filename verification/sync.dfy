/** The server-sync merge (dom-manipulation/script.js, lines 221-243): what the fetched
    posts become, and the list the `forEach` loop leaves behind. The loop itself is
    `Store.QuoteApp.SyncQuotes`; `MergeAll` is its specification. */
module Sync {
  import opened Json
  import opened Quotes

  /** The category every fetched quote gets. */
  const ServerCategory := "Server"

  /** `data.map(d => ({ text: d.title, category: "Server" }))`, or `[]` when the fetch
      failed (None). */
  function ServerQuotes(fetched: Option<seq<string>>): seq<Quote> {
    match fetched
    case None => []
    case Some(titles) => seq(|titles|, i requires 0 <= i < |titles| => Quote(titles[i], ServerCategory))
  }

  /** `quotes.some(lq => lq.text === sq.text && lq.category === sq.category)` */
  predicate HasQuote(qs: seq<Quote>, sq: Quote) {
    exists lq :: lq in qs && lq.text == sq.text && lq.category == sq.category
  }

  /** Comparing both fields is the same as looking the quote up. */
  lemma HasQuoteIsMembership(qs: seq<Quote>, sq: Quote)
    ensures HasQuote(qs, sq) <==> sq in qs
  {
    if sq in qs {
      assert sq.text == sq.text && sq.category == sq.category;
    }
  }

  /** One turn of the loop: push the server quote unless an equal one is present. */
  function MergeOne(qs: seq<Quote>, sq: Quote): seq<Quote> {
    if HasQuote(qs, sq) then qs else qs + [sq]
  }

  /** The whole loop: every server quote is checked against the list as it has grown
      so far. */
  function MergeAll(qs: seq<Quote>, batch: seq<Quote>): seq<Quote>
    decreases |batch|
  {
    if batch == [] then qs else MergeAll(MergeOne(qs, batch[0]), batch[1..])
  }

  /** Merging never removes or reorders: the old list is a prefix of the new one. */
  lemma {:induction false} MergeKeepsPrefix(qs: seq<Quote>, batch: seq<Quote>)
    ensures |qs| <= |MergeAll(qs, batch)|
    ensures MergeAll(qs, batch)[..|qs|] == qs
    decreases |batch|
  {
    if batch != [] {
      var next := MergeOne(qs, batch[0]);
      MergeKeepsPrefix(next, batch[1..]);
      assert next[..|qs|] == qs;
    }
  }

  /** Every server quote ends up in the list. */
  lemma {:induction false} MergeCovers(qs: seq<Quote>, batch: seq<Quote>)
    ensures forall q :: q in batch ==> q in MergeAll(qs, batch)
    decreases |batch|
  {
    if batch != [] {
      var next := MergeOne(qs, batch[0]);
      MergeCovers(next, batch[1..]);
      HasQuoteIsMembership(qs, batch[0]);
      assert batch[0] in next;
      MergeKeepsPrefix(next, batch[1..]);
      var r := MergeAll(next, batch[1..]);
      forall q | q in next ensures q in r {
        var i :| 0 <= i < |next| && next[i] == q;
        assert r[..|next|][i] == q;
      }
      assert batch == [batch[0]] + batch[1..];
    }
  }

  /** Nothing but server quotes is added. */
  lemma {:induction false} MergeOnlyAddsBatch(qs: seq<Quote>, batch: seq<Quote>)
    ensures forall q :: q in MergeAll(qs, batch) ==> q in qs || q in batch
    decreases |batch|
  {
    if batch != [] {
      var next := MergeOne(qs, batch[0]);
      MergeOnlyAddsBatch(next, batch[1..]);
      assert forall q :: q in next ==> q in qs || q == batch[0];
      assert forall q :: q in batch[1..] ==> q in batch;
    }
  }

  /** A quote is appended only if no equal quote is already in the list, counting
      those appended earlier in the same batch. */
  lemma {:induction false} MergeAppendsOnlyNew(qs: seq<Quote>, batch: seq<Quote>)
    ensures var r := MergeAll(qs, batch);
      forall i, j :: 0 <= j < i < |r| && |qs| <= i ==> r[j] != r[i]
    decreases |batch|
  {
    if batch != [] {
      var next := MergeOne(qs, batch[0]);
      MergeAppendsOnlyNew(next, batch[1..]);
      MergeKeepsPrefix(next, batch[1..]);
      var r := MergeAll(qs, batch);
      if !HasQuote(qs, batch[0]) {
        HasQuoteIsMembership(qs, batch[0]);
        forall j | 0 <= j < |qs| ensures r[j] != r[|qs|] {
          assert r[|qs|] == r[..|next|][|qs|] == batch[0];
          assert r[j] == r[..|next|][j] == qs[j];
        }
      }
    }
  }

  /** When the list already holds every quote of the batch, merging changes nothing. */
  lemma {:induction false} MergeOfPresent(qs: seq<Quote>, batch: seq<Quote>)
    requires forall q :: q in batch ==> q in qs
    ensures MergeAll(qs, batch) == qs
    decreases |batch|
  {
    if batch != [] {
      HasQuoteIsMembership(qs, batch[0]);
      assert batch[0] in batch;
      assert forall q :: q in batch[1..] ==> q in batch;
      MergeOfPresent(qs, batch[1..]);
    }
  }

  /** Syncing the same batch twice adds nothing the second time. */
  lemma MergeIdempotent(qs: seq<Quote>, batch: seq<Quote>)
    ensures MergeAll(MergeAll(qs, batch), batch) == MergeAll(qs, batch)
  {
    MergeCovers(qs, batch);
    MergeOfPresent(MergeAll(qs, batch), batch);
  }

  /** What a sync does with the fetched posts: a failed fetch leaves the list as it
      was; otherwise every fetched title ends up in the list as a "Server" quote, and
      every quote in the list is an old one or a "Server" quote with a fetched title. */
  lemma SyncOfFetched(qs: seq<Quote>, fetched: Option<seq<string>>)
    ensures fetched.None? ==> MergeAll(qs, ServerQuotes(fetched)) == qs
    ensures fetched.Some? ==> forall t :: t in fetched.value ==>
      Quote(t, ServerCategory) in MergeAll(qs, ServerQuotes(fetched))
    ensures forall q :: q in MergeAll(qs, ServerQuotes(fetched)) ==>
      || q in qs
      || (fetched.Some? && q.text in fetched.value && q.category == ServerCategory)
  {
    var batch := ServerQuotes(fetched);
    MergeCovers(qs, batch);
    MergeOnlyAddsBatch(qs, batch);
    if fetched.Some? {
      var titles := fetched.value;
      forall t | t in titles ensures Quote(t, ServerCategory) in batch {
        var i :| 0 <= i < |titles| && titles[i] == t;
        assert batch[i] == Quote(t, ServerCategory);
      }
      forall q | q in batch ensures q.text in titles && q.category == ServerCategory {
        var i :| 0 <= i < |batch| && batch[i] == q;
        assert titles[i] == q.text;
      }
    }
  }

  predicate NoDuplicates(qs: seq<Quote>) {
    forall i, j :: 0 <= j < i < |qs| ==> qs[j] != qs[i]
  }

  /** A list without duplicates stays without duplicates. */
  lemma MergeKeepsNoDuplicates(qs: seq<Quote>, batch: seq<Quote>)
    requires NoDuplicates(qs)
    ensures NoDuplicates(MergeAll(qs, batch))
  {
    MergeKeepsPrefix(qs, batch);
    MergeAppendsOnlyNew(qs, batch);
    var r := MergeAll(qs, batch);
    forall i, j | 0 <= j < i < |r| ensures r[j] != r[i] {
      if i < |qs| {
        assert r[j] == r[..|qs|][j] && r[i] == r[..|qs|][i];
      }
    }
  }
}
