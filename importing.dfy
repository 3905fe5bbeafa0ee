/**
 * Bulk import (`importFromJsonFile`): the parsed file is checked to be an
 * array, entries without non-empty string text and category are dropped,
 * and the batch fails when nothing is left.
 */
module Importing {
  import opened Wrappers
  import opened Quotes
  import opened Seqs

  /** What a parsed entry holds under `text` or `category`. */
  datatype Field =
    | Absent               // the key is missing (`undefined`)
    | Str(value: string)   // a JSON string
    | OtherType            // a number, boolean, null, array or object

  /**
   * One element of the parsed array. Anything that is not a JSON object
   * (null, a number, a string, a boolean, an array) has no `text` or
   * `category` and is `NotAnObject`.
   */
  datatype Entry =
    | NotAnObject
    | Object(id: int, text: Field, category: Field,
             timestamp: Option<string>, source: Option<string>)

  /** The result of `JSON.parse` on the file's contents. */
  datatype Payload =
    | Unparsable                   // `JSON.parse` threw
    | NotAnArray                   // valid JSON, but not an array
    | Entries(items: seq<Entry>)   // a JSON array

  /** Why an import was refused; each ends in the "Import failed" notice. */
  datatype ImportError = ParseFailed | NotAnArrayError | NoValidQuotes

  /**
   * `q && q.text && q.category && typeof q.text === 'string' &&
   * typeof q.category === 'string'`: both fields are strings and neither is
   * empty. Unlike `addQuote`, nothing is trimmed, so "   " passes.
   */
  predicate IsValidEntry(e: Entry)
  {
    e.Object? && e.text.Str? && e.text.value != [] && e.category.Str? && e.category.value != []
  }

  /** The record an entry becomes once pushed onto the store. */
  function AsQuote(e: Entry): (q: Quote)
    requires IsValidEntry(e)
    ensures q.id == e.id && q.text == e.text.value && q.category == e.category.value
    ensures q.timestamp == e.timestamp && q.source == e.source
  {
    Quote(e.id, e.text.value, e.category.value, e.timestamp, e.source)
  }

  /** `importedQuotes.filter(...)`, each survivor taken as a record. */
  function ValidQuotes(entries: seq<Entry>): seq<Quote>
  {
    var kept := Filter(entries, IsValidEntry);
    FilterMembers(entries, IsValidEntry);
    seq(|kept|, i requires 0 <= i < |kept| => assert kept[i] in kept; AsQuote(kept[i]))
  }

  /**
   * A record is imported exactly when some valid entry gives it; every
   * imported record has non-empty text and category; nothing is imported
   * exactly when no entry is valid.
   */
  lemma ValidQuotesSpec(entries: seq<Entry>)
    ensures |ValidQuotes(entries)| <= |entries|
    ensures forall q :: q in ValidQuotes(entries) <==>
      exists e :: e in entries && IsValidEntry(e) && AsQuote(e) == q
    ensures forall q :: q in ValidQuotes(entries) ==> q.text != [] && q.category != []
    ensures ValidQuotes(entries) == [] <==> forall i :: 0 <= i < |entries| ==> !IsValidEntry(entries[i])
  {
    var kept := Filter(entries, IsValidEntry);
    FilterMembers(entries, IsValidEntry);
    var r := ValidQuotes(entries);
    forall q | q in r ensures exists e :: e in entries && IsValidEntry(e) && AsQuote(e) == q {
      var i :| 0 <= i < |r| && r[i] == q;
      assert kept[i] in kept;
    }
    forall e | e in entries && IsValidEntry(e) ensures AsQuote(e) in r {
      assert e in kept;
      var i :| 0 <= i < |kept| && kept[i] == e;
      assert r[i] == AsQuote(e);
    }
    if forall i :: 0 <= i < |entries| ==> !IsValidEntry(entries[i]) {
      FilterDropsAll(entries, IsValidEntry);
    } else {
      var i :| 0 <= i < |entries| && IsValidEntry(entries[i]);
      assert entries[i] in entries;
      assert AsQuote(entries[i]) in r;
    }
  }

  /** The valid entries keep their original order: importing a concatenation concatenates. */
  lemma ValidQuotesConcat(a: seq<Entry>, b: seq<Entry>)
    ensures ValidQuotes(a + b) == ValidQuotes(a) + ValidQuotes(b)
  {
    FilterConcat(a, b, IsValidEntry);
  }

  /**
   * The batch `importFromJsonFile` appends, or why it appends nothing: a
   * parse failure, a non-array, or an array with no valid entry.
   */
  function ImportBatch(p: Payload): (r: Result<seq<Quote>, ImportError>)
    ensures r.Ok? <==> p.Entries? && exists i :: 0 <= i < |p.items| && IsValidEntry(p.items[i])
    ensures r.Ok? ==> r.value != [] && r.value == ValidQuotes(p.items)
    ensures p.Unparsable? ==> r == Err(ParseFailed)
    ensures p.NotAnArray? ==> r == Err(NotAnArrayError)
    ensures p.Entries? && (forall i :: 0 <= i < |p.items| ==> !IsValidEntry(p.items[i])) ==>
      r == Err(NoValidQuotes)
  {
    match p
    case Unparsable => Err(ParseFailed)
    case NotAnArray => Err(NotAnArrayError)
    case Entries(items) =>
      ValidQuotesSpec(items);
      var valid := ValidQuotes(items);
      if valid == [] then Err(NoValidQuotes) else Ok(valid)
  }
}
