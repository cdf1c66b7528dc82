/** Quote records, how they look as JSON, and the shape check the store applies to
    JSON it did not write itself (dom-manipulation/script.js, lines 11-15, 48, 133). */
module Quotes {
  import opened Json

  datatype Quote = Quote(text: string, category: string)

  /** The three quotes the store falls back to. */
  const DefaultQuotes: seq<Quote> := [
    Quote("The best way to predict the future is to create it.", "Motivation"),
    Quote("Life is what happens when you're busy making other plans.", "Life"),
    Quote("In the middle of every difficulty lies opportunity.", "Inspiration")
  ]

  /** `q && typeof q.text === "string" && typeof q.category === "string"`: only an
      object can carry the two properties, and both must hold strings. */
  predicate IsQuoteJson(j: Json) {
    && j.JObject?
    && "text" in j.fields && j.fields["text"].JString?
    && "category" in j.fields && j.fields["category"].JString?
  }

  /** `parsed.every(...)` with the check above. */
  predicate AllQuotes(items: seq<Json>) {
    forall i :: 0 <= i < |items| ==> IsQuoteJson(items[i])
  }

  function FromJson(j: Json): Quote
    requires IsQuoteJson(j)
  {
    Quote(j.fields["text"].str, j.fields["category"].str)
  }

  /** The object `{ text, category }` as the store builds and serialises it. */
  function ToJson(q: Quote): (j: Json)
    ensures IsQuoteJson(j) && FromJson(j) == q
  {
    JObject(map["text" := JString(q.text), "category" := JString(q.category)])
  }

  /** A quote list as the JSON array that is written to storage or exported. */
  function Encode(qs: seq<Quote>): (j: Json)
    ensures j.JArray? && |j.items| == |qs| && AllQuotes(j.items)
    ensures forall i :: 0 <= i < |qs| ==> FromJson(j.items[i]) == qs[i]
  {
    JArray(seq(|qs|, i requires 0 <= i < |qs| => ToJson(qs[i])))
  }

  /** The quotes held by an array that passed the shape check. */
  function Decode(items: seq<Json>): seq<Quote>
    requires AllQuotes(items)
  {
    seq(|items|, i requires 0 <= i < |items| => FromJson(items[i]))
  }

  /** What the store relies on from the JSON library: both ways of writing a quote
      list's array parse back to that array, and the compact form is never empty. Only
      these arrays are needed; they hold no JSON numbers, which do not all survive a
      round trip. */
  ghost predicate RoundTrips(c: Codec) {
    forall qs: seq<Quote> ::
      && c.parse(c.stringify(Encode(qs))) == Some(Encode(qs))
      && c.parse(c.stringifyIndented(Encode(qs))) == Some(Encode(qs))
      && c.stringify(Encode(qs)) != []
  }

  /** Decoding what was encoded gives the list back. */
  lemma DecodeEncode(qs: seq<Quote>)
    ensures Decode(Encode(qs).items) == qs
  {
  }

  /** `parsed.filter(...)`: the well-formed elements, in their original order. */
  function ValidQuotes(items: seq<Json>): (r: seq<Quote>)
    ensures |r| <= |items|
  {
    if items == [] then []
    else (if IsQuoteJson(items[0]) then [FromJson(items[0])] else []) + ValidQuotes(items[1..])
  }

  /** Filtering a concatenation filters each part and keeps them in order. */
  lemma {:induction false} ValidQuotesAppend(a: seq<Json>, b: seq<Json>)
    ensures ValidQuotes(a + b) == ValidQuotes(a) + ValidQuotes(b)
  {
    if a == [] {
      assert a + b == b;
    } else {
      var head := if IsQuoteJson(a[0]) then [FromJson(a[0])] else [];
      assert (a + b)[0] == a[0];
      assert (a + b)[1..] == a[1..] + b;
      assert ValidQuotes(a + b) == head + ValidQuotes(a[1..] + b);
      ValidQuotesAppend(a[1..], b);
      assert ValidQuotes(a) == head + ValidQuotes(a[1..]);
    }
  }

  /** The filter keeps nothing exactly when no element is well formed. */
  lemma {:induction false} ValidQuotesEmpty(items: seq<Json>)
    ensures ValidQuotes(items) == [] <==> forall i :: 0 <= i < |items| ==> !IsQuoteJson(items[i])
  {
    if items != [] {
      ValidQuotesEmpty(items[1..]);
      assert forall i :: 1 <= i < |items| ==> items[i] == items[1..][i - 1];
    }
  }

  /** When every element is well formed, nothing is dropped. */
  lemma {:induction false} ValidQuotesOfAllQuotes(items: seq<Json>)
    requires AllQuotes(items)
    ensures ValidQuotes(items) == Decode(items)
  {
    if items != [] {
      ValidQuotesOfAllQuotes(items[1..]);
    }
  }

  /** Every quote kept comes from an element of the input. */
  lemma {:induction false} ValidQuotesFromItems(items: seq<Json>, q: Quote)
    requires q in ValidQuotes(items)
    ensures exists i :: 0 <= i < |items| && IsQuoteJson(items[i]) && FromJson(items[i]) == q
  {
    if !(IsQuoteJson(items[0]) && FromJson(items[0]) == q) {
      ValidQuotesFromItems(items[1..], q);
      var i :| 0 <= i < |items[1..]| && IsQuoteJson(items[1..][i]) && FromJson(items[1..][i]) == q;
      assert items[i + 1] == items[1..][i];
    }
  }
}
