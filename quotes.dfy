/**
 * The quote record kept by the page, lookup by id with `findIndex` semantics,
 * `String.prototype.trim`, and the built-in starting collection.
 */
module Quotes {
  import opened Wrappers

  /**
   * One stored quote. `timestamp` and `source` are optional because the
   * built-in and server records carry no timestamp and the built-in ones
   * carry no source; user-added records carry `Some("local")`, server
   * records `Some("server")`.
   */
  datatype Quote = Quote(id: int, text: string, category: string,
                         timestamp: Option<string>, source: Option<string>)

  /** A detected conflict: the id, both versions, and when it was detected. */
  datatype Conflict = Conflict(id: int, local: Quote, server: Quote, detectedAt: string)

  /** The content comparison used by reconciliation: text and category only. */
  predicate SameContent(a: Quote, b: Quote)
  {
    a.text == b.text && a.category == b.category
  }

  /** No two records of `qs` share an id. */
  predicate DistinctIds(qs: seq<Quote>)
  {
    forall i, j :: 0 <= i < j < |qs| ==> qs[i].id != qs[j].id
  }

  /**
   * `qs.findIndex(q => q.id === id)`: the position of the FIRST record with
   * that id, `None` standing for the source's -1.
   */
  function FindIndex(qs: seq<Quote>, id: int): (r: Option<nat>)
    ensures r.Some? ==> r.value < |qs| && qs[r.value].id == id
    ensures r.Some? ==> forall j :: 0 <= j < r.value ==> qs[j].id != id
    ensures r.None? <==> forall j :: 0 <= j < |qs| ==> qs[j].id != id
  {
    if qs == [] then None
    else if qs[0].id == id then Some(0)
    else match FindIndex(qs[1..], id)
      case Some(k) => Some(k + 1)
      case None => None
  }

  /** A first-match position stated by its defining property is the one FindIndex returns. */
  lemma FindIndexIs(qs: seq<Quote>, id: int, k: nat)
    requires k < |qs| && qs[k].id == id
    requires forall j :: 0 <= j < k ==> qs[j].id != id
    ensures FindIndex(qs, id) == Some(k)
  {
  }

  /** Lookup in a concatenation: the first part is searched first, then the second. */
  lemma FindIndexConcat(a: seq<Quote>, b: seq<Quote>, id: int)
    ensures FindIndex(a + b, id) ==
      match FindIndex(a, id)
      case Some(k) => Some(k)
      case None => match FindIndex(b, id)
        case Some(t) => Some(|a| + t)
        case None => None
  {
    match FindIndex(a, id)
    case Some(k) =>
      FindIndexIs(a + b, id, k);
    case None =>
      match FindIndex(b, id)
      case Some(t) =>
        forall j | 0 <= j < |a| + t ensures (a + b)[j].id != id {
          if j >= |a| { assert (a + b)[j] == b[j - |a|]; }
        }
        FindIndexIs(a + b, id, |a| + t);
      case None =>
        forall j | 0 <= j < |a + b| ensures (a + b)[j].id != id {
          if j >= |a| { assert (a + b)[j] == b[j - |a|]; }
        }
  }

  /** Lookup by id depends only on the ids, position by position. */
  lemma FindIndexSameIds(a: seq<Quote>, b: seq<Quote>, id: int)
    requires |a| == |b| && forall i :: 0 <= i < |a| ==> a[i].id == b[i].id
    ensures FindIndex(a, id) == FindIndex(b, id)
  {
    match FindIndex(a, id)
    case Some(k) => FindIndexIs(b, id, k);
    case None =>
  }

  // ---------------------------------------------------------------------
  // String.prototype.trim

  /** The characters `trim` removes: ECMAScript WhiteSpace and LineTerminator. */
  predicate IsWhitespace(c: char)
  {
    c as int in {0x09, 0x0A, 0x0B, 0x0C, 0x0D, 0x20, 0xA0, 0x1680,
                 0x2028, 0x2029, 0x202F, 0x205F, 0x3000, 0xFEFF}
    || 0x2000 <= c as int <= 0x200A
  }

  /** Every character of `s` is whitespace (vacuously so for the empty string). */
  predicate AllWhitespace(s: string)
  {
    forall k :: 0 <= k < |s| ==> IsWhitespace(s[k])
  }

  /** Where the content of `s` starts when scanning from `i`: the first non-whitespace position, or |s|. */
  function SkipLeading(s: string, i: nat): (a: nat)
    requires i <= |s|
    ensures i <= a <= |s|
    ensures forall k :: i <= k < a ==> IsWhitespace(s[k])
    ensures a < |s| ==> !IsWhitespace(s[a])
    decreases |s| - i
  {
    if i < |s| && IsWhitespace(s[i]) then SkipLeading(s, i + 1) else i
  }

  /** Where the content of `s[lo..j]` ends: just after its last non-whitespace position, or `lo`. */
  function SkipTrailing(s: string, lo: nat, j: nat): (b: nat)
    requires lo <= j <= |s|
    ensures lo <= b <= j
    ensures forall k :: b <= k < j ==> IsWhitespace(s[k])
    ensures b > lo ==> !IsWhitespace(s[b - 1])
  {
    if j > lo && IsWhitespace(s[j - 1]) then SkipTrailing(s, lo, j - 1) else j
  }

  /** `s.trim()`: leading whitespace skipped, then trailing whitespace dropped. */
  function Trim(s: string): string
  {
    var a := SkipLeading(s, 0);
    s[a..SkipTrailing(s, a, |s|)]
  }

  /**
   * What `trim` promises: the result is a contiguous piece of `s`, everything
   * around it is whitespace, neither of its ends is whitespace, and it is
   * empty exactly when `s` is all whitespace.
   */
  lemma TrimSpec(s: string)
    ensures exists i, j ::
      (0 <= i <= j <= |s| && Trim(s) == s[i..j]
       && (forall k :: 0 <= k < i ==> IsWhitespace(s[k]))
       && (forall k :: j <= k < |s| ==> IsWhitespace(s[k])))
    ensures Trim(s) != [] ==> !IsWhitespace(Trim(s)[0]) && !IsWhitespace(Trim(s)[|Trim(s)| - 1])
    ensures Trim(s) == [] <==> AllWhitespace(s)
  {
    var a := SkipLeading(s, 0);
    var b := SkipTrailing(s, a, |s|);
    var r := s[a..b];
    assert Trim(s) == r;
    if a < b {
      assert r[0] == s[a] && r[|r| - 1] == s[b - 1];
      assert !AllWhitespace(s) by { assert !IsWhitespace(s[a]); }
    } else {
      assert a == |s|;
      assert AllWhitespace(s);
    }
  }

  // ---------------------------------------------------------------------
  // The starting collection

  /** `getDefaultQuotes()`: five records with ids 1 to 5, no timestamp, no source. */
  function DefaultQuotes(): (r: seq<Quote>)
    ensures |r| == 5 && DistinctIds(r)
    ensures forall i :: 0 <= i < |r| ==>
      r[i].id == i + 1 && r[i].text != [] && r[i].category != []
      && r[i].timestamp.None? && r[i].source.None?
  {
    [ Quote(1, Text1, "Motivation", None, None),
      Quote(2, Text2, "Life", None, None),
      Quote(3, Text3, "Dreams", None, None),
      Quote(4, Text4, "Inspiration", None, None),
      Quote(5, Text5, "Happiness", None, None) ]
  }

  // The texts of the built-in quotes.
  const Text1: string := "The only way to do great work is to love what you do."
  const Text2: string := "Life is what happens to you while you're busy making other plans."
  const Text3: string := "The future belongs to those who believe in the beauty of their dreams."
  const Text4: string := "It is during our darkest moments that we must focus to see the light."
  const Text5: string := "Whoever is happy will make others happy too."
}
