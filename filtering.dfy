/**
 * The read-only views of the store: the category filter (`getFilteredQuotes`),
 * the random pick of `showRandomQuote`, the category options of
 * `populateCategories` and the selection of local records that
 * `postDataToServer` reports.
 */
module Filtering {
  import opened Wrappers
  import opened Quotes
  import opened Seqs

  /** The filter value that selects every record. */
  const AllCategories: string := "all"

  /** The test `quote.category === category`. */
  function HasCategory(category: string): Quote -> bool
  {
    (q: Quote) => q.category == category
  }

  /**
   * `getFilteredQuotes()`: the whole store for the sentinel, otherwise the
   * records whose category equals the selected one exactly, in store order.
   */
  function Filtered(qs: seq<Quote>, selected: string): seq<Quote>
  {
    if selected == AllCategories then qs else Filter(qs, HasCategory(selected))
  }

  /**
   * The sentinel returns the store itself; any other value returns exactly
   * the records of that category, and nothing when no record has it.
   */
  lemma FilteredSpec(qs: seq<Quote>, selected: string)
    ensures selected == AllCategories ==> Filtered(qs, selected) == qs
    ensures selected != AllCategories ==>
      forall q :: q in Filtered(qs, selected) <==> q in qs && q.category == selected
    ensures selected != AllCategories && (forall i :: 0 <= i < |qs| ==> qs[i].category != selected)
      ==> Filtered(qs, selected) == []
    ensures (forall i :: 0 <= i < |qs| ==> qs[i].category == selected)
      ==> Filtered(qs, selected) == qs
  {
    if selected != AllCategories {
      var keep := HasCategory(selected);
      FilterMembers(qs, keep);
      if forall i :: 0 <= i < |qs| ==> qs[i].category == selected {
        FilterKeepsAll(qs, keep);
      }
      if forall i :: 0 <= i < |qs| ==> qs[i].category != selected {
        FilterDropsAll(qs, keep);
      }
    }
  }

  /** The filter keeps store order: filtering a concatenation concatenates the results. */
  lemma FilteredConcat(a: seq<Quote>, b: seq<Quote>, selected: string)
    ensures Filtered(a + b, selected) == Filtered(a, selected) + Filtered(b, selected)
  {
    if selected != AllCategories {
      FilterConcat(a, b, HasCategory(selected));
    }
  }

  // ---------------------------------------------------------------------
  // showRandomQuote

  /**
   * `Math.floor(u * n)` for a draw `u` of `Math.random()`, with the empty
   * guard in front: no index at all when there is nothing to choose from.
   */
  function PickIndex(n: nat, u: real): (r: Option<nat>)
    requires 0.0 <= u < 1.0
    ensures r.None? <==> n == 0
    ensures r.Some? ==> r.value < n
  {
    if n == 0 then None
    else
      var x := u * n as real;
      assert 0.0 <= x < n as real;
      Some(x.Floor as nat)
  }

  /** Every position can be drawn: the draw `k / n` picks position `k`. */
  lemma PickIndexReaches(n: nat, k: nat)
    requires k < n
    ensures 0.0 <= k as real / n as real < 1.0
    ensures PickIndex(n, k as real / n as real) == Some(k)
  {
    var u := k as real / n as real;
    assert u * n as real == k as real;
    assert k as real < n as real;
  }

  /**
   * The quote `showRandomQuote` displays for draw `u`: nothing exactly when
   * the filtered view is empty, otherwise a member of that view.
   */
  function RandomQuote(qs: seq<Quote>, selected: string, u: real): (r: Option<Quote>)
    requires 0.0 <= u < 1.0
    ensures r.None? <==> Filtered(qs, selected) == []
    ensures r.Some? ==> r.value in Filtered(qs, selected)
  {
    var view := Filtered(qs, selected);
    match PickIndex(|view|, u)
    case None => None
    case Some(k) => Some(view[k])
  }

  /** A shown quote comes from the store and matches the selected category unless it is the sentinel. */
  lemma RandomQuoteFromStore(qs: seq<Quote>, selected: string, u: real)
    requires 0.0 <= u < 1.0
    ensures RandomQuote(qs, selected, u).None? <==>
      (selected == AllCategories && qs == []) ||
      (selected != AllCategories && forall i :: 0 <= i < |qs| ==> qs[i].category != selected)
    ensures RandomQuote(qs, selected, u).Some? ==>
      RandomQuote(qs, selected, u).value in qs &&
      (selected == AllCategories || RandomQuote(qs, selected, u).value.category == selected)
  {
    FilteredSpec(qs, selected);
  }

  // ---------------------------------------------------------------------
  // populateCategories

  /** Position of the first record with category `c`. */
  function FirstOfCategory(qs: seq<Quote>, c: string): (r: Option<nat>)
    ensures r.Some? ==> r.value < |qs| && qs[r.value].category == c
    ensures r.Some? ==> forall j :: 0 <= j < r.value ==> qs[j].category != c
    ensures r.None? <==> forall j :: 0 <= j < |qs| ==> qs[j].category != c
  {
    if qs == [] then None
    else match FirstOfCategory(qs[..|qs| - 1], c)
      case Some(k) => Some(k)
      case None => if qs[|qs| - 1].category == c then Some(|qs| - 1) else None
  }

  /**
   * The options `populateCategories` adds after "All Categories":
   * `['all', ...new Set(quotes.map(q => q.category))]` without `'all'`, that
   * is the distinct categories in order of first appearance, "all" skipped.
   */
  function CategoryOptions(qs: seq<Quote>): seq<string>
  {
    if qs == [] then []
    else
      var prior := CategoryOptions(qs[..|qs| - 1]);
      var c := qs[|qs| - 1].category;
      if c == AllCategories || c in prior then prior else prior + [c]
  }

  /**
   * The options are exactly the categories present other than "all", each
   * once, ordered by where each category first appears in the store.
   */
  lemma {:induction false} CategoryOptionsSpec(qs: seq<Quote>)
    ensures forall c :: c in CategoryOptions(qs) <==>
      c != AllCategories && FirstOfCategory(qs, c).Some?
    ensures forall i, j :: 0 <= i < j < |CategoryOptions(qs)| ==>
      CategoryOptions(qs)[i] != CategoryOptions(qs)[j]
    ensures forall i, j :: 0 <= i < j < |CategoryOptions(qs)| ==>
      FirstOfCategory(qs, CategoryOptions(qs)[i]).Some? &&
      FirstOfCategory(qs, CategoryOptions(qs)[j]).Some? &&
      FirstOfCategory(qs, CategoryOptions(qs)[i]).value < FirstOfCategory(qs, CategoryOptions(qs)[j]).value
  {
    if qs == [] {
      assert CategoryOptions(qs) == [];
    } else {
      var p := qs[..|qs| - 1];
      CategoryOptionsSpec(p);
      var prior := CategoryOptions(p);
      var r := CategoryOptions(qs);
      var c := qs[|qs| - 1].category;
      forall x | x in prior ensures FirstOfCategory(qs, x) == FirstOfCategory(p, x) {}
      forall i, j | 0 <= i < j < |prior|
        ensures FirstOfCategory(qs, prior[i]).value < FirstOfCategory(qs, prior[j]).value
      {
        assert prior[i] in prior && prior[j] in prior;
      }
      if !(c == AllCategories || c in prior) {
        assert FirstOfCategory(p, c).None?;
        assert r == prior + [c];
        forall i | 0 <= i < |prior|
          ensures FirstOfCategory(qs, r[i]).Some? && FirstOfCategory(qs, r[i]).value < |qs| - 1
        {
          assert r[i] == prior[i] && prior[i] in prior;
        }
      }
      forall i, j | 0 <= i < j < |r|
        ensures FirstOfCategory(qs, r[i]).Some? && FirstOfCategory(qs, r[j]).Some?
        ensures FirstOfCategory(qs, r[i]).value < FirstOfCategory(qs, r[j]).value
      {
        if j < |prior| {
          assert r[i] == prior[i] && r[j] == prior[j];
        }
      }
    }
  }

  // ---------------------------------------------------------------------
  // postDataToServer

  /** The test `q.source === 'local'`. */
  predicate IsLocal(q: Quote)
  {
    q.source == Some("local")
  }

  /** The records `postDataToServer` would send: those created on this page, in store order. */
  function LocalQuotes(qs: seq<Quote>): seq<Quote>
  {
    Filter(qs, IsLocal)
  }

  /** Exactly the records tagged local are selected, in store order. */
  lemma LocalQuotesSpec(qs: seq<Quote>)
    ensures forall q :: q in LocalQuotes(qs) <==> q in qs && q.source == Some("local")
    ensures (forall i :: 0 <= i < |qs| ==> qs[i].source != Some("local")) ==> LocalQuotes(qs) == []
  {
    FilterMembers(qs, IsLocal);
    if forall i :: 0 <= i < |qs| ==> qs[i].source != Some("local") {
      FilterDropsAll(qs, IsLocal);
    }
  }

  /** Selecting local records keeps store order. */
  lemma LocalQuotesConcat(a: seq<Quote>, b: seq<Quote>)
    ensures LocalQuotes(a + b) == LocalQuotes(a) + LocalQuotes(b)
  {
    FilterConcat(a, b, IsLocal);
  }
}
