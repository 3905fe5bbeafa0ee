/**
 * The page's global state — the `quotes` array and `selectedCategory` — as
 * one object, with the operations that change it.
 */
module QuoteStore {
  import opened Wrappers
  import opened Quotes
  import opened Filtering
  import opened Importing
  import opened Reconciliation

  class Store {
    /** The records, in insertion order; ids may repeat. */
    var quotes: seq<Quote>
    /** The category filter: the sentinel "all" or a category name. */
    var selectedCategory: string

    /** Start-up with nothing stored yet: the built-in quotes and no filter. */
    constructor ()
      ensures quotes == DefaultQuotes() && selectedCategory == AllCategories
    {
      quotes := DefaultQuotes();
      selectedCategory := AllCategories;
    }

    /**
     * `addQuote`: both inputs are trimmed; if either is then empty nothing is
     * stored, otherwise one local record with the trimmed fields is appended.
     * `id` and `now` are the clock readings `Date.now()` and the ISO time.
     */
    method AddQuote(rawText: string, rawCategory: string, id: int, now: string) returns (added: bool)
      modifies this`quotes
      ensures added <==> !AllWhitespace(rawText) && !AllWhitespace(rawCategory)
      ensures added ==>
        quotes == old(quotes) + [Quote(id, Trim(rawText), Trim(rawCategory), Some(now), Some("local"))]
      ensures !added ==> quotes == old(quotes)
    {
      TrimSpec(rawText);
      TrimSpec(rawCategory);
      var text := Trim(rawText);
      var category := Trim(rawCategory);
      if text == [] || category == [] {
        return false;
      }
      quotes := quotes + [Quote(id, text, category, Some(now), Some("local"))];
      added := true;
    }

    /**
     * `importFromJsonFile` once the file has been read and parsed: on success
     * the valid entries are appended in file order and their number returned;
     * on failure the store is untouched.
     */
    method ImportFromJson(payload: Payload) returns (outcome: Result<nat, ImportError>)
      modifies this`quotes
      ensures outcome.Ok? <==>
        payload.Entries? && exists i :: 0 <= i < |payload.items| && IsValidEntry(payload.items[i])
      ensures outcome.Ok? ==>
        quotes == old(quotes) + ValidQuotes(payload.items) && outcome.value == |ValidQuotes(payload.items)| > 0
      ensures outcome.Err? ==> quotes == old(quotes) && outcome == Err(ImportBatch(payload).error)
    {
      match ImportBatch(payload)
      case Err(e) =>
        outcome := Err(e);
      case Ok(batch) =>
        quotes := quotes + batch;
        outcome := Ok(|batch|);
    }

    /** `filterQuotes`: remember the chosen category. */
    method FilterQuotes(category: string)
      modifies this`selectedCategory
      ensures selectedCategory == category
    {
      selectedCategory := category;
    }

    /** `clearFilter`: back to the sentinel. */
    method ClearFilter()
      modifies this`selectedCategory
      ensures selectedCategory == AllCategories
    {
      selectedCategory := AllCategories;
    }

    /**
     * `syncQuotesWithServerData`: each server quote in turn is appended when
     * its id is new, overwrites the first record with its id when text or
     * category differ (recording a conflict stamped `now`), and is ignored
     * otherwise. The result is the pass Reconcile describes.
     */
    method SyncQuotesWithServerData(serverQuotes: seq<Quote>, now: string)
      returns (conflicts: seq<Conflict>)
      modifies this`quotes
      ensures Reconcile(old(quotes), serverQuotes, now) == SyncOutcome(quotes, conflicts)
    {
      conflicts := [];
      var i := 0;
      while i < |serverQuotes|
        invariant 0 <= i <= |serverQuotes|
        invariant Reconcile(old(quotes), serverQuotes[..i], now) == SyncOutcome(quotes, conflicts)
      {
        var serverQuote := serverQuotes[i];
        assert serverQuotes[..i + 1][..i] == serverQuotes[..i];
        var existingIndex := FindIndex(quotes, serverQuote.id);
        match existingIndex {
          case None =>
            quotes := quotes + [serverQuote];
          case Some(k) =>
            var localQuote := quotes[k];
            if localQuote.text != serverQuote.text || localQuote.category != serverQuote.category {
              conflicts := conflicts + [Conflict(serverQuote.id, localQuote, serverQuote, now)];
              quotes := quotes[k := serverQuote];
            }
        }
        i := i + 1;
      }
      assert serverQuotes[..i] == serverQuotes;
    }
  }

  /** A quote accepted by `addQuote` is among the local records `postDataToServer` selects, after all earlier ones. */
  lemma AddedQuoteIsPosted(qs: seq<Quote>, rawText: string, rawCategory: string, id: int, now: string)
    ensures var q := Quote(id, Trim(rawText), Trim(rawCategory), Some(now), Some("local"));
      LocalQuotes(qs + [q]) == LocalQuotes(qs) + [q]
  {
    var q := Quote(id, Trim(rawText), Trim(rawCategory), Some(now), Some("local"));
    LocalQuotesConcat(qs, [q]);
    assert [q][..0] == [];
  }
}
