/**
 * Server reconciliation (`syncQuotesWithServerData`) as a function of the
 * store before the pass and the server's list, with what the pass
 * guarantees proved about it.
 */
module Reconciliation {
  import opened Wrappers
  import opened Quotes

  /** The store after a pass and the conflicts it reported, in detection order. */
  datatype SyncOutcome = SyncOutcome(store: seq<Quote>, conflicts: seq<Conflict>)

  /**
   * One turn of the `forEach`: look up the first local record with the
   * server quote's id; append when there is none, overwrite it and report a
   * conflict when its text or category differs, leave everything alone
   * otherwise.
   */
  function Apply(store: seq<Quote>, server: Quote, now: string): SyncOutcome
  {
    match FindIndex(store, server.id)
    case None => SyncOutcome(store + [server], [])
    case Some(k) =>
      if SameContent(store[k], server) then SyncOutcome(store, [])
      else SyncOutcome(store[k := server], [Conflict(server.id, store[k], server, now)])
  }

  /** The whole pass: the server quotes applied in the order received. */
  function Reconcile(local: seq<Quote>, server: seq<Quote>, now: string): SyncOutcome
  {
    if server == [] then SyncOutcome(local, [])
    else
      var prior := Reconcile(local, server[..|server| - 1], now);
      var step := Apply(prior.store, server[|server| - 1], now);
      SyncOutcome(step.store, prior.conflicts + step.conflicts)
  }

  // ---------------------------------------------------------------------
  // One server quote

  /** A server quote whose id the store lacks is appended at the end and reports no conflict. */
  lemma ReconcileOneAbsent(local: seq<Quote>, s: Quote, now: string)
    requires forall j :: 0 <= j < |local| ==> local[j].id != s.id
    ensures Reconcile(local, [s], now) == SyncOutcome(local + [s], [])
  {
    assert [s][..0] == [];
  }

  /**
   * A server quote whose id first appears at slot `k` with different text or
   * category reports exactly one conflict carrying both versions and
   * overwrites that slot, and only that slot.
   */
  lemma ReconcileOneConflict(local: seq<Quote>, s: Quote, k: nat, now: string)
    requires k < |local| && local[k].id == s.id
    requires forall j :: 0 <= j < k ==> local[j].id != s.id
    requires !SameContent(local[k], s)
    ensures Reconcile(local, [s], now) ==
      SyncOutcome(local[k := s], [Conflict(s.id, local[k], s, now)])
  {
    assert [s][..0] == [];
    FindIndexIs(local, s.id, k);
  }

  /** A server quote whose first same-id record has the same text and category changes nothing. */
  lemma ReconcileOneIdentical(local: seq<Quote>, s: Quote, k: nat, now: string)
    requires k < |local| && local[k].id == s.id
    requires forall j :: 0 <= j < k ==> local[j].id != s.id
    requires SameContent(local[k], s)
    ensures Reconcile(local, [s], now) == SyncOutcome(local, [])
  {
    assert [s][..0] == [];
    FindIndexIs(local, s.id, k);
  }

  // ---------------------------------------------------------------------
  // Any server list

  /**
   * Nothing is removed or reordered: every slot the store had keeps its id
   * and holds either its old record or a server quote; the store only grows,
   * by at most one record per server quote, and what it grows by comes from
   * the server.
   */
  lemma {:induction false} ReconcileKeepsSlots(local: seq<Quote>, server: seq<Quote>, now: string)
    ensures var r := Reconcile(local, server, now);
      |local| <= |r.store| <= |local| + |server|
      && (forall i :: 0 <= i < |local| ==>
            r.store[i].id == local[i].id && (r.store[i] == local[i] || r.store[i] in server))
      && (forall i :: |local| <= i < |r.store| ==> r.store[i] in server)
  {
    if server != [] {
      var p := server[..|server| - 1];
      var s := server[|server| - 1];
      ReconcileKeepsSlots(local, p, now);
      var prior := Reconcile(local, p, now);
      var r := Reconcile(local, server, now);
      assert r.store == Apply(prior.store, s, now).store;
      forall x | x in p ensures x in server {
        var j :| 0 <= j < |p| && p[j] == x;
        assert server[j] == x;
      }
      assert s in server;
    }
  }

  /**
   * Every reported conflict carries one id for both versions, versions that
   * really differ in text or category, a server version taken from the
   * list, and the detection time; there is at most one per server quote.
   */
  lemma {:induction false} ReconcileConflictsWellFormed(local: seq<Quote>, server: seq<Quote>, now: string)
    ensures var cs := Reconcile(local, server, now).conflicts;
      |cs| <= |server|
      && forall c :: c in cs ==>
           c.id == c.local.id == c.server.id && !SameContent(c.local, c.server)
           && c.server in server && c.detectedAt == now
  {
    if server != [] {
      var p := server[..|server| - 1];
      ReconcileConflictsWellFormed(local, p, now);
      forall x | x in p ensures x in server {
        var j :| 0 <= j < |p| && p[j] == x;
        assert server[j] == x;
      }
      assert server[|server| - 1] in server;
    }
  }

  // ---------------------------------------------------------------------
  // A reference definition in terms of the original store only

  /**
   * What finally occupies local slot `i`: when `i` is the first slot with
   * its id and the server sends that id with different content, the server
   * quote; otherwise the record that was there.
   */
  function Overlay(local: seq<Quote>, server: seq<Quote>, i: nat): (q: Quote)
    requires i < |local|
    ensures q.id == local[i].id
  {
    if FindIndex(local, local[i].id) != Some(i) then local[i]
    else match FindIndex(server, local[i].id)
      case None => local[i]
      case Some(j) => if SameContent(local[i], server[j]) then local[i] else server[j]
  }

  /** The server quotes whose id the original store does not have, in server order. */
  function Unseen(local: seq<Quote>, server: seq<Quote>): seq<Quote>
  {
    if server == [] then []
    else
      var s := server[|server| - 1];
      Unseen(local, server[..|server| - 1]) + (if FindIndex(local, s.id).None? then [s] else [])
  }

  /** The original slots, each overlaid. */
  function Overlaid(local: seq<Quote>, server: seq<Quote>): (r: seq<Quote>)
    ensures |r| == |local| && forall i :: 0 <= i < |local| ==> r[i] == Overlay(local, server, i)
  {
    seq(|local|, i requires 0 <= i < |local| => Overlay(local, server, i))
  }

  /** The store a pass should produce: every original slot overlaid, the unseen quotes appended. */
  function ExpectedStore(local: seq<Quote>, server: seq<Quote>): seq<Quote>
  {
    Overlaid(local, server) + Unseen(local, server)
  }

  /** One conflict per server quote whose id the original store has with different content. */
  function ExpectedConflicts(local: seq<Quote>, server: seq<Quote>, now: string): seq<Conflict>
  {
    if server == [] then []
    else
      var s := server[|server| - 1];
      ExpectedConflicts(local, server[..|server| - 1], now) +
        match FindIndex(local, s.id)
        case None => []
        case Some(k) => if SameContent(local[k], s) then [] else [Conflict(s.id, local[k], s, now)]
  }

  /** Every unseen quote comes from the server list and has an id the original store lacks. */
  lemma {:induction false} UnseenMembers(local: seq<Quote>, server: seq<Quote>)
    ensures forall x :: x in Unseen(local, server) <==> x in server && FindIndex(local, x.id).None?
  {
    if server != [] {
      var p := server[..|server| - 1];
      UnseenMembers(local, p);
      assert server == p + [server[|server| - 1]];
    }
  }

  /** With distinct server ids, a server quote is the only record of the list with its id. */
  lemma DistinctIdsUnique(server: seq<Quote>, x: Quote, y: Quote)
    requires DistinctIds(server) && x in server && y in server && x.id == y.id
    ensures x == y
  {
    var a :| 0 <= a < |server| && server[a] == x;
    var b :| 0 <= b < |server| && server[b] == y;
  }

  /** Appending one more server quote changes the overlay only at that quote's first local slot. */
  lemma OverlayStep(local: seq<Quote>, p: seq<Quote>, s: Quote, i: nat)
    requires i < |local|
    requires forall j :: 0 <= j < |p| ==> p[j].id != s.id
    ensures Overlay(local, p + [s], i) ==
      if FindIndex(local, s.id) == Some(i) && !SameContent(local[i], s) then s
      else Overlay(local, p, i)
  {
    FindIndexConcat(p, [s], local[i].id);
    if local[i].id == s.id {
      assert FindIndex(p, s.id).None?;
      assert FindIndex([s], s.id) == Some(0);
    } else {
      assert FindIndex([s], local[i].id).None?;
      match FindIndex(p, local[i].id)
      case Some(j) => assert (p + [s])[j] == p[j];
      case None =>
    }
  }

  /**
   * Where a new server quote lands in the store reached so far: the slot the
   * original store has for its id, which still holds the original record.
   */
  lemma ExpectedLanding(local: seq<Quote>, p: seq<Quote>, s: Quote)
    requires forall j :: 0 <= j < |p| ==> p[j].id != s.id
    ensures FindIndex(ExpectedStore(local, p), s.id) == FindIndex(local, s.id)
    ensures FindIndex(local, s.id).Some? ==>
      ExpectedStore(local, p)[FindIndex(local, s.id).value] == local[FindIndex(local, s.id).value]
  {
    var m := Overlaid(local, p);
    var u := Unseen(local, p);
    assert ExpectedStore(local, p) == m + u;
    FindIndexSameIds(m, local, s.id);
    UnseenMembers(local, p);
    forall t | 0 <= t < |u| ensures u[t].id != s.id {
      assert u[t] in u;
      var j :| 0 <= j < |p| && p[j] == u[t];
    }
    FindIndexConcat(m, u, s.id);
    if FindIndex(local, s.id).Some? {
      assert FindIndex(p, s.id).None?;
    }
  }

  /** One more server quote is unseen exactly when the original store lacks its id. */
  lemma UnseenStep(local: seq<Quote>, p: seq<Quote>, s: Quote)
    ensures Unseen(local, p + [s]) == Unseen(local, p) + (if FindIndex(local, s.id).None? then [s] else [])
  {
    assert (p + [s])[..|p|] == p;
  }

  /** A server quote that changes no original slot leaves the overlay as it was. */
  lemma OverlaidUnchanged(local: seq<Quote>, p: seq<Quote>, s: Quote)
    requires forall j :: 0 <= j < |p| ==> p[j].id != s.id
    requires FindIndex(local, s.id).Some? ==> SameContent(local[FindIndex(local, s.id).value], s)
    ensures Overlaid(local, p + [s]) == Overlaid(local, p)
  {
    forall i | 0 <= i < |local| ensures Overlay(local, p + [s], i) == Overlay(local, p, i) {
      OverlayStep(local, p, s, i);
    }
  }

  /** A differing server quote overwrites, in the overlay, its first original slot only. */
  lemma OverlaidOverwritten(local: seq<Quote>, p: seq<Quote>, s: Quote, k: nat)
    requires forall j :: 0 <= j < |p| ==> p[j].id != s.id
    requires FindIndex(local, s.id) == Some(k) && !SameContent(local[k], s)
    ensures Overlaid(local, p + [s]) == Overlaid(local, p)[k := s]
  {
    forall i | 0 <= i < |local| ensures Overlay(local, p + [s], i) == Overlaid(local, p)[k := s][i] {
      OverlayStep(local, p, s, i);
    }
  }

  /** A server quote with an unseen id: the expected store gains it at the end. */
  lemma ExpectedStoreNew(local: seq<Quote>, p: seq<Quote>, s: Quote)
    requires forall j :: 0 <= j < |p| ==> p[j].id != s.id
    requires FindIndex(local, s.id).None?
    ensures ExpectedStore(local, p + [s]) == ExpectedStore(local, p) + [s]
  {
    UnseenStep(local, p, s);
    OverlaidUnchanged(local, p, s);
    var m := Overlaid(local, p);
    var u := Unseen(local, p);
    assert (m + u) + [s] == m + (u + [s]);
  }

  /** A server quote matching its first slot's content: the expected store is unchanged. */
  lemma ExpectedStoreSame(local: seq<Quote>, p: seq<Quote>, s: Quote, k: nat)
    requires forall j :: 0 <= j < |p| ==> p[j].id != s.id
    requires FindIndex(local, s.id) == Some(k) && SameContent(local[k], s)
    ensures ExpectedStore(local, p + [s]) == ExpectedStore(local, p)
  {
    UnseenStep(local, p, s);
    OverlaidUnchanged(local, p, s);
  }

  /** A server quote differing from its first slot: the expected store has it in that slot. */
  lemma ExpectedStoreDiffers(local: seq<Quote>, p: seq<Quote>, s: Quote, k: nat)
    requires forall j :: 0 <= j < |p| ==> p[j].id != s.id
    requires FindIndex(local, s.id) == Some(k) && !SameContent(local[k], s)
    ensures ExpectedStore(local, p + [s]) == ExpectedStore(local, p)[k := s]
  {
    UnseenStep(local, p, s);
    OverlaidOverwritten(local, p, s, k);
    var m := Overlaid(local, p);
    var u := Unseen(local, p);
    var before := ExpectedStore(local, p);
    var after := ExpectedStore(local, p + [s]);
    assert before == m + u;
    assert after == m[k := s] + u;
    forall i | 0 <= i < |after| ensures after[i] == before[k := s][i] {
      if i >= |m| {
        assert after[i] == u[i - |m|] == before[i];
      }
    }
  }

  /** The store reached so far, after one more server quote, is the expected store for the longer list. */
  lemma ApplyExpectedStore(local: seq<Quote>, p: seq<Quote>, s: Quote, now: string)
    requires forall j :: 0 <= j < |p| ==> p[j].id != s.id
    ensures Apply(ExpectedStore(local, p), s, now).store == ExpectedStore(local, p + [s])
  {
    ExpectedLanding(local, p, s);
    var e := ExpectedStore(local, p);
    match FindIndex(local, s.id)
    case None =>
      ApplyNew(e, s, now);
      ExpectedStoreNew(local, p, s);
    case Some(k) =>
      if SameContent(local[k], s) {
        ApplySame(e, s, k, now);
        ExpectedStoreSame(local, p, s, k);
      } else {
        ApplyDiffers(e, s, k, now);
        ExpectedStoreDiffers(local, p, s, k);
      }
  }

  /** Apply when the id is missing from the store. */
  lemma ApplyNew(store: seq<Quote>, s: Quote, now: string)
    requires FindIndex(store, s.id).None?
    ensures Apply(store, s, now).store == store + [s]
  {
  }

  /** Apply when the id's first record has the same content. */
  lemma ApplySame(store: seq<Quote>, s: Quote, k: nat, now: string)
    requires FindIndex(store, s.id) == Some(k) && SameContent(store[k], s)
    ensures Apply(store, s, now).store == store
  {
  }

  /** Apply when the id's first record differs. */
  lemma ApplyDiffers(store: seq<Quote>, s: Quote, k: nat, now: string)
    requires FindIndex(store, s.id) == Some(k) && !SameContent(store[k], s)
    ensures Apply(store, s, now).store == store[k := s]
  {
  }

  /** The conflict one more server quote reports is the one the reference adds for it. */
  lemma ApplyExpectedConflicts(local: seq<Quote>, p: seq<Quote>, s: Quote, now: string)
    requires forall j :: 0 <= j < |p| ==> p[j].id != s.id
    ensures ExpectedConflicts(local, p, now) + Apply(ExpectedStore(local, p), s, now).conflicts
            == ExpectedConflicts(local, p + [s], now)
  {
    var server := p + [s];
    assert server[..|server| - 1] == p;
    ExpectedLanding(local, p, s);
  }

  /**
   * With distinct server ids the pass is described by the original store
   * alone: the store becomes ExpectedStore and the conflicts are
   * ExpectedConflicts, whatever earlier server quotes did.
   */
  lemma {:induction false} ReconcileIsExpected(local: seq<Quote>, server: seq<Quote>, now: string)
    requires DistinctIds(server)
    ensures Reconcile(local, server, now) ==
      SyncOutcome(ExpectedStore(local, server), ExpectedConflicts(local, server, now))
  {
    if server == [] {
      assert ExpectedStore(local, server) == local;
    } else {
      var p := server[..|server| - 1];
      var s := server[|server| - 1];
      assert server == p + [s];
      forall j | 0 <= j < |p| ensures p[j].id != s.id {
        assert server[j] == p[j];
      }
      ReconcileIsExpected(local, p, now);
      ApplyExpectedStore(local, p, s, now);
      ApplyExpectedConflicts(local, p, s, now);
    }
  }

  /**
   * Growth: with distinct server ids the store grows by exactly the server
   * quotes whose id it did not have, appended in server order after the
   * original slots.
   */
  lemma ReconcileGrowth(local: seq<Quote>, server: seq<Quote>, now: string)
    requires DistinctIds(server)
    ensures var r := Reconcile(local, server, now);
      |r.store| == |local| + |Unseen(local, server)|
      && r.store[|local|..] == Unseen(local, server)
  {
    ReconcileIsExpected(local, server, now);
    assert ExpectedStore(local, server)[|local|..] == Unseen(local, server);
  }

  // ---------------------------------------------------------------------
  // Convergence and idempotence

  /** Every server quote's id resolves, by first match, to a record with that quote's text and category. */
  ghost predicate Agrees(store: seq<Quote>, server: seq<Quote>)
  {
    forall j :: 0 <= j < |server| ==>
      FindIndex(store, server[j].id).Some? &&
      SameContent(store[FindIndex(store, server[j].id).value], server[j])
  }

  /** In the expected store, a server quote's id resolves to a record with that quote's content. */
  lemma ExpectedAgreesAt(local: seq<Quote>, server: seq<Quote>, j: nat)
    requires DistinctIds(server) && j < |server|
    ensures var e := ExpectedStore(local, server);
      FindIndex(e, server[j].id).Some? && SameContent(e[FindIndex(e, server[j].id).value], server[j])
  {
    var m := Overlaid(local, server);
    var u := Unseen(local, server);
    var s := server[j];
    FindIndexSameIds(m, local, s.id);
    FindIndexConcat(m, u, s.id);
    match FindIndex(local, s.id)
    case Some(k) =>
      FindIndexIs(server, s.id, j);
    case None =>
      UnseenMembers(local, server);
      assert s in u;
      var t := FindIndex(u, s.id);
      assert t.Some? by {
        var t0 :| 0 <= t0 < |u| && u[t0] == s;
      }
      assert u[t.value] in u;
      DistinctIdsUnique(server, u[t.value], s);
      assert (m + u)[|m| + t.value] == u[t.value];
  }

  /** Server wins: after a pass with distinct server ids, the store agrees with every server quote. */
  lemma ReconcileConverges(local: seq<Quote>, server: seq<Quote>, now: string)
    requires DistinctIds(server)
    ensures Agrees(Reconcile(local, server, now).store, server)
  {
    ReconcileIsExpected(local, server, now);
    forall j | 0 <= j < |server|
      ensures var e := ExpectedStore(local, server);
        FindIndex(e, server[j].id).Some? && SameContent(e[FindIndex(e, server[j].id).value], server[j])
    {
      ExpectedAgreesAt(local, server, j);
    }
  }

  /** A store that already agrees with the server list is left as it is, with no conflict. */
  lemma {:induction false} ReconcileAgreeing(store: seq<Quote>, server: seq<Quote>, now: string)
    requires Agrees(store, server)
    ensures Reconcile(store, server, now) == SyncOutcome(store, [])
  {
    if server != [] {
      var p := server[..|server| - 1];
      assert Agrees(store, p) by {
        forall j | 0 <= j < |p| ensures p[j] == server[j] {}
      }
      ReconcileAgreeing(store, p, now);
      assert 0 <= |server| - 1 < |server|;
    }
  }

  /**
   * Idempotence: with distinct server ids, running the pass again with the
   * same server list reports no conflict and leaves the store unchanged.
   */
  lemma ReconcileIdempotent(local: seq<Quote>, server: seq<Quote>, now: string, later: string)
    requires DistinctIds(server)
    ensures var first := Reconcile(local, server, now);
      Reconcile(first.store, server, later) == SyncOutcome(first.store, [])
  {
    ReconcileConverges(local, server, now);
    ReconcileAgreeing(Reconcile(local, server, now).store, server, later);
  }

  // ---------------------------------------------------------------------
  // Worked examples

  /** Local `{id: 5, text: "A", category: "X"}` against server `{id: 5, text: "B", category: "X"}`: one conflict, server version kept. */
  lemma ExampleConflict(now: string)
    ensures var local := Quote(5, "A", "X", None, None);
      var remote := Quote(5, "B", "X", None, Some("server"));
      Reconcile([local], [remote], now) == SyncOutcome([remote], [Conflict(5, local, remote, now)])
  {
    var local := Quote(5, "A", "X", None, None);
    var remote := Quote(5, "B", "X", None, Some("server"));
    ReconcileOneConflict([local], remote, 0, now);
    assert [local][0 := remote] == [remote];
  }

  /** A server quote with id 1001 against the built-in quotes is appended with no conflict. */
  lemma ExampleNewId(text: string, now: string)
    ensures var remote := Quote(1001, text, "Programming", None, Some("server"));
      Reconcile(DefaultQuotes(), [remote], now) == SyncOutcome(DefaultQuotes() + [remote], [])
  {
    var remote := Quote(1001, text, "Programming", None, Some("server"));
    ReconcileOneAbsent(DefaultQuotes(), remote, now);
  }
}
