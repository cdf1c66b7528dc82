/** The quote store of dom-manipulation/script.js: the module-level `quotes` array, the
    two browser storages it writes, and the category drop-down's current value, with
    one method per function of the script and per event handler. */
module Store {
  import opened Json
  import opened Quotes
  import opened Text
  import opened Roster
  import opened Selection
  import opened Sync

  /** localStorage / sessionStorage: string keys to string values. */
  type Storage = map<string, string>

  const QuotesKey := "quotes"
  const LastIndexKey := "lastQuoteIndex"
  const FilterKey := "lastSelectedCategory"

  /** The list a page load keeps from local storage, or None when it falls back to the
      defaults: it keeps the stored text only when it is present and non-empty, parses,
      and is an array whose every element passes the shape check, and it then holds
      exactly the quotes of that array, in order. */
  function StoredList(c: Codec, local: Storage): (r: Option<seq<Quote>>)
    ensures r.Some? <==>
      && QuotesKey in local && local[QuotesKey] != ""
      && c.parse(local[QuotesKey]).Some?
      && c.parse(local[QuotesKey]).value.JArray?
      && AllQuotes(c.parse(local[QuotesKey]).value.items)
    ensures r.Some? ==>
      var items := c.parse(local[QuotesKey]).value.items;
      |r.value| == |items| && forall i :: 0 <= i < |items| ==> r.value[i] == FromJson(items[i])
  {
    if QuotesKey !in local || local[QuotesKey] == "" then None
    else match c.parse(local[QuotesKey])
      case None => None
      case Some(j) => if j.JArray? && AllQuotes(j.items) then Some(Decode(j.items)) else None
  }

  /** The list after a page load. */
  function LoadedQuotes(c: Codec, local: Storage): seq<Quote> {
    match StoredList(c, local)
    case Some(qs) => qs
    case None => DefaultQuotes
  }

  /** Local storage after a page load: untouched when the stored list was kept, else
      holding the defaults. */
  function LocalAfterLoad(c: Codec, local: Storage): Storage {
    if StoredList(c, local).Some? then local
    else local[QuotesKey := c.stringify(Encode(DefaultQuotes))]
  }

  /** `localStorage.getItem(FILTER_KEY) || "all"`: a missing or empty value reads as "all". */
  function LastFilter(local: Storage): string {
    if FilterKey in local && local[FilterKey] != "" then local[FilterKey] else AllCategories
  }

  /** The drop-down's value after `categoryFilterEl.value = value` when its options are
      "all" followed by `options`: a value no option carries leaves nothing selected,
      which reads back as "". */
  function Reselect(options: seq<string>, value: string): string {
    if value == AllCategories || value in options then value else ""
  }

  /** What an imported file contributes: None when `JSON.parse` throws or the top-level
      value is not an array (so `.filter` throws); otherwise the well-formed elements. */
  function ImportedQuotes(c: Codec, text: string): Option<seq<Quote>> {
    match c.parse(text)
    case None => None
    case Some(j) => if j.JArray? then Some(ValidQuotes(j.items)) else None
  }

  /** The alert an import ends with, which the chosen file alone decides. */
  function ImportOutcome(c: Codec, file: Option<string>): ImportReport {
    if file.None? then NoFile
    else match ImportedQuotes(c, file.value)
      case None => ParseFailed
      case Some(valid) => if valid == [] then NoValidQuotes else Imported(|valid|)
  }

  /** Reloading after any save restores the saved list exactly. */
  lemma LoadAfterSave(c: Codec, qs: seq<Quote>, local: Storage)
    requires RoundTrips(c)
    ensures StoredList(c, local[QuotesKey := c.stringify(Encode(qs))]) == Some(qs)
    ensures LoadedQuotes(c, local[QuotesKey := c.stringify(Encode(qs))]) == qs
  {
    var text := c.stringify(Encode(qs));
    assert c.parse(text) == Some(Encode(qs));
    DecodeEncode(qs);
  }

  /** Importing an exported file yields the exported list, so the import appends a
      second copy of it and reports its length (and an empty export imports nothing). */
  lemma ImportOfExport(c: Codec, qs: seq<Quote>)
    requires RoundTrips(c)
    ensures ImportedQuotes(c, c.stringifyIndented(Encode(qs))) == Some(qs)
    ensures ImportOutcome(c, Some(c.stringifyIndented(Encode(qs)))) ==
      if qs == [] then NoValidQuotes else Imported(|qs|)
  {
    assert c.parse(c.stringifyIndented(Encode(qs))) == Some(Encode(qs));
    ValidQuotesOfAllQuotes(Encode(qs).items);
    DecodeEncode(qs);
  }

  datatype ImportReport =
    | NoFile                 // no file was chosen
    | ParseFailed            // "Failed to parse JSON file."
    | NoValidQuotes          // "No valid quotes found in file."
    | Imported(count: nat)   // "Imported <count> quote(s) successfully."

  class QuoteApp {
    /** JSON.parse and JSON.stringify. */
    const codec: Codec
    /** The `quotes` array. */
    var quotes: seq<Quote>
    var local: Storage
    var session: Storage
    /** `categoryFilterEl.value` */
    var selection: string

    /** Local storage holds the current list as written by the last save. */
    ghost predicate Persisted()
      reads this
    {
      QuotesKey in local && local[QuotesKey] == codec.stringify(Encode(quotes))
    }

    /** After a filter pass starting from `session0`: when nothing passes the filter no
        index is stored; otherwise `shown` is the position in the full list of a quote
        that passes, and that position is stored in session storage. */
    ghost predicate ShownFrom(session0: Storage, shown: Option<nat>)
      reads this
    {
      var ps := Positions(quotes, selection);
      if ps == [] then shown == None && session == session0
      else
        && shown.Some? && shown.value in ps
        && session == session0[LastIndexKey := DecimalString(shown.value)]
    }

    /** After `populateCategories(); filterQuotes();` starting from `local0`, `session0`. */
    ghost predicate Refreshed(local0: Storage, session0: Storage, shown: Option<nat>)
      reads this
    {
      && selection == Reselect(CategoryRoster(quotes), LastFilter(local0))
      && local == local0[FilterKey := selection]
      && ShownFrom(session0, shown)
    }

    /** The script's state before the page has loaded: `let quotes = [];`. */
    constructor (codec: Codec, local: Storage, session: Storage, selection: string)
      ensures this.codec == codec && quotes == []
      ensures this.local == local && this.session == session && this.selection == selection
    {
      this.codec := codec;
      quotes := [];
      this.local := local;
      this.session := session;
      this.selection := selection;
    }

    /** `saveQuotesToLocalStorage` */
    method Save()
      modifies this`local
      ensures local == old(local)[QuotesKey := codec.stringify(Encode(quotes))]
      ensures Persisted()
    {
      local := local[QuotesKey := codec.stringify(Encode(quotes))];
    }

    /** `loadQuotesFromLocalStorage` */
    method Load()
      modifies this`quotes, this`local
      ensures quotes == LoadedQuotes(codec, old(local))
      ensures local == LocalAfterLoad(codec, old(local))
      ensures StoredList(codec, old(local)).None? ==> Persisted()
    {
      if QuotesKey !in local || local[QuotesKey] == "" {
        quotes := DefaultQuotes;
        Save();
        return;
      }
      var parsed := codec.parse(local[QuotesKey]);
      if parsed.None? {
        // JSON.parse threw: the catch block
        quotes := DefaultQuotes;
        Save();
        return;
      }
      var j := parsed.value;
      if j.JArray? && AllQuotes(j.items) {
        quotes := Decode(j.items);
      } else {
        quotes := DefaultQuotes;
        Save();
      }
    }

    /** `displayRandomQuote` (and its alias `showRandomQuote`): the random draw is any
        valid index. */
    method DisplayRandomQuote() returns (shown: Option<nat>)
      modifies this`session
      ensures quotes == [] ==> shown == None && session == old(session)
      ensures quotes != [] ==>
        && shown.Some? && shown.value < |quotes|
        && session == old(session)[LastIndexKey := DecimalString(shown.value)]
    {
      if |quotes| == 0 {
        shown := None;
        return;
      }
      var index :| 0 <= index < |quotes|;
      session := session[LastIndexKey := DecimalString(index)];
      shown := Some(index);
    }

    /** `populateCategories`: rebuilds the options and restores the last selection. */
    method PopulateCategories() returns (options: seq<string>)
      modifies this`selection
      ensures options == CategoryRoster(quotes)
      ensures selection == Reselect(options, LastFilter(local))
    {
      options := CategoryRoster(quotes);
      var last := LastFilter(local);
      selection := Reselect(options, last);
    }

    /** `filterQuotes`: remembers the selection and shows a random quote that passes
        the filter, storing its position in the full list. */
    method FilterQuotes() returns (shown: Option<nat>)
      modifies this`local, this`session
      ensures local == old(local)[FilterKey := selection]
      ensures ShownFrom(old(session), shown)
      ensures shown.Some? ==> shown.value < |quotes| && Shown(quotes[shown.value], selection)
    {
      local := local[FilterKey := selection];
      var filtered := Matching(quotes, selection);
      var ps := Positions(quotes, selection);
      MatchingAtPositions(quotes, selection);
      if |filtered| == 0 {
        shown := None;
        return;
      }
      var k :| 0 <= k < |filtered|;
      // quotes.indexOf(filtered[k]): every element of `quotes` is a distinct object
      var position := ps[k];
      assert position in ps && position < |quotes|;
      session := session[LastIndexKey := DecimalString(position)];
      shown := Some(position);
    }

    /** The `populateCategories(); filterQuotes();` pair every handler ends with. */
    method Refresh() returns (shown: Option<nat>)
      modifies this`selection, this`local, this`session
      ensures Refreshed(old(local), old(session), shown)
    {
      var options := PopulateCategories();
      shown := FilterQuotes();
    }

    /** `quotes.push(...); saveQuotesToLocalStorage(); populateCategories();
        filterQuotes();`, the tail that adding and importing share. */
    method Append(more: seq<Quote>) returns (shown: Option<nat>)
      modifies this
      ensures quotes == old(quotes) + more
      ensures Persisted()
      ensures Refreshed(old(local)[QuotesKey := codec.stringify(Encode(quotes))], old(session), shown)
    {
      quotes := quotes + more;
      Save();
      shown := Refresh();
    }

    /** `addQuote`, given the two input fields' values. */
    method AddQuote(textInput: string, categoryInput: string) returns (added: bool, shown: Option<nat>)
      modifies this
      ensures added <==> Trim(textInput) != [] && Trim(categoryInput) != []
      ensures !added ==>
        && quotes == old(quotes) && local == old(local)
        && session == old(session) && selection == old(selection) && shown == None
      ensures added ==> quotes == old(quotes) + [Quote(Trim(textInput), Trim(categoryInput))]
      ensures added ==>
        && Persisted()
        && Refreshed(old(local)[QuotesKey := codec.stringify(Encode(quotes))], old(session), shown)
    {
      var text := Trim(textInput);
      var category := Trim(categoryInput);
      if text == [] || category == [] {
        // alert("Please fill in both fields.")
        return false, None;
      }
      shown := Append([Quote(text, category)]);
      added := true;
    }

    /** `exportToJsonFile`: the text of the downloaded quotes.json. */
    method Export() returns (file: string)
      ensures file == codec.stringifyIndented(Encode(quotes))
      ensures RoundTrips(codec) ==> codec.parse(file) == Some(Encode(quotes))
    {
      file := codec.stringifyIndented(Encode(quotes));
    }

    /** `importFromJsonFile`, given the chosen file's text (None: no file chosen). */
    method ImportFile(file: Option<string>) returns (report: ImportReport, shown: Option<nat>)
      modifies this
      ensures report == ImportOutcome(codec, file)
      ensures file.None? ==> report == NoFile
      ensures file.Some? && ImportedQuotes(codec, file.value).None? ==> report == ParseFailed
      ensures file.Some? && ImportedQuotes(codec, file.value) == Some([]) ==> report == NoValidQuotes
      ensures (file.Some? && ImportedQuotes(codec, file.value).Some?
               && ImportedQuotes(codec, file.value).value != []) ==>
        report == Imported(|ImportedQuotes(codec, file.value).value|)
      ensures !report.Imported? ==>
        && quotes == old(quotes) && local == old(local)
        && session == old(session) && selection == old(selection) && shown == None
      ensures report.Imported? ==> file.Some? && ImportedQuotes(codec, file.value).Some?
      ensures report.Imported? ==>
        var valid := ImportedQuotes(codec, file.value).value;
        && valid != [] && report.count == |valid|
        && quotes == old(quotes) + valid
        && Persisted()
        && Refreshed(old(local)[QuotesKey := codec.stringify(Encode(quotes))], old(session), shown)
    {
      if file.None? {
        return NoFile, None;
      }
      var parsed := codec.parse(file.value);
      if parsed.None? || !parsed.value.JArray? {
        // JSON.parse or .filter threw: the catch block
        return ParseFailed, None;
      }
      var valid := ValidQuotes(parsed.value.items);
      if |valid| == 0 {
        return NoValidQuotes, None;
      }
      shown := Append(valid);
      report := Imported(|valid|);
    }

    /** `syncQuotes`, given what `fetchQuotesFromServer` received: the posts' titles, or
        None when the request failed. */
    method SyncQuotes(fetched: Option<seq<string>>) returns (shown: Option<nat>)
      modifies this
      ensures quotes == MergeAll(old(quotes), ServerQuotes(fetched))
      ensures Persisted()
      ensures Refreshed(old(local)[QuotesKey := codec.stringify(Encode(quotes))], old(session), shown)
    {
      var serverQuotes := ServerQuotes(fetched);
      var i := 0;
      while i < |serverQuotes|
        invariant 0 <= i <= |serverQuotes|
        invariant MergeAll(quotes, serverQuotes[i..]) == MergeAll(old(quotes), serverQuotes)
        invariant local == old(local) && session == old(session) && selection == old(selection)
      {
        var sq := serverQuotes[i];
        assert serverQuotes[i..] == [sq] + serverQuotes[i + 1..];
        if !HasQuote(quotes, sq) {
          quotes := quotes + [sq];
        }
        i := i + 1;
      }
      Save();
      shown := Refresh();
    }

    /** The DOMContentLoaded handler up to its first sync (a separate `SyncQuotes`). */
    method Start() returns (shown: Option<nat>)
      modifies this
      ensures quotes == LoadedQuotes(codec, old(local))
      ensures Refreshed(LocalAfterLoad(codec, old(local)), old(session), shown)
    {
      Load();
      var options := PopulateCategories();
      // categoryFilterEl.value = localStorage.getItem(FILTER_KEY) || "all"
      selection := Reselect(options, LastFilter(local));
      shown := FilterQuotes();
    }
  }
}
