/**
 Rebuilding an account from its published events. Publication happens after commit, client by client,
 so the events of one account may be published in another order than the one they took effect in.
 */
module EventStore {
  import opened Prelude
  import opened Ledger
  import opened LedgerSessions

  datatype Event =
    | BalanceUpdated(update: BalanceUpdate, version: int)
    | OtherEvent(version: int)

  /** The event a balance update publishes: its base part is never filled in, so its version is 0. */
  function Published(u: BalanceUpdate): Event { BalanceUpdated(u, 0) }

  function BalanceTotal(events: seq<Event>): int {
    if events == [] then 0
    else
      var e := events[|events| - 1];
      BalanceTotal(events[..|events| - 1]) + if e.BalanceUpdated? then e.update.balanceDelta else 0
  }

  function LockedTotal(events: seq<Event>): int {
    if events == [] then 0
    else
      var e := events[|events| - 1];
      LockedTotal(events[..|events| - 1]) + if e.BalanceUpdated? then e.update.lockedDelta else 0
  }

  /** Only balance updates count in the totals. */
  lemma TotalsStep(events: seq<Event>, e: Event)
    ensures var more := events + [e];
      match e
      case BalanceUpdated(u, _) =>
        BalanceTotal(more) == BalanceTotal(events) + u.balanceDelta &&
        LockedTotal(more) == LockedTotal(events) + u.lockedDelta
      case OtherEvent(_) => BalanceTotal(more) == BalanceTotal(events) && LockedTotal(more) == LockedTotal(events)
  {
    assert (events + [e])[..|events|] == events;
  }

  ghost predicate IsLastUpdate(events: seq<Event>, i: int) {
    0 <= i < |events| && events[i].BalanceUpdated? && forall j :: i < j < |events| ==> !events[j].BalanceUpdated?
  }

  /** Folds the balance updates into a fresh account; other events are skipped, none at all gives no account. */
  method ReconstructAccountAggregate(events: seq<Event>) returns (account: Option<Account>)
    ensures account.Some? <==> exists i :: IsLastUpdate(events, i)
    ensures account.Some? ==>
      account.value.balance == BalanceTotal(events) &&
      account.value.locked == LockedTotal(events) &&
      account.value.available == account.value.balance - account.value.locked
    ensures account.Some? ==> exists i :: IsLastUpdate(events, i) && account.value.version == events[i].version
  {
    account := None;
    ghost var last := 0;
    for n := 0 to |events|
      invariant account.None? ==> forall i :: 0 <= i < n ==> !events[i].BalanceUpdated?
      invariant account.None? ==> BalanceTotal(events[..n]) == 0 && LockedTotal(events[..n]) == 0
      invariant account.Some? ==>
        account.value.balance == BalanceTotal(events[..n]) &&
        account.value.locked == LockedTotal(events[..n]) &&
        account.value.available == account.value.balance - account.value.locked &&
        IsLastUpdate(events[..n], last) && account.value.version == events[last].version
    {
      assert events[..n + 1][..n] == events[..n];
      match events[n]
      case BalanceUpdated(u, version) =>
        var a := if account.None? then Account(0, 0, 0, 1) else account.value;
        var balance, locked := a.balance + u.balanceDelta, a.locked + u.lockedDelta;
        account := Some(Account(balance, balance - locked, locked, version));
        last := n;
      case OtherEvent(_) =>
    }
    assert events[..|events|] == events;
  }

  /** The published events of one account, in publication order. */
  function EventsFor(us: seq<BalanceUpdate>, key: Key): seq<Event> {
    if us == [] then []
    else
      var earlier := EventsFor(us[..|us| - 1], key);
      if us[|us| - 1].key == key then earlier + [Published(us[|us| - 1])] else earlier
  }

  function Totals(us: seq<BalanceUpdate>, key: Key): (int, int) {
    if us == [] then (0, 0)
    else
      var t := Totals(us[..|us| - 1], key);
      var u := us[|us| - 1];
      if u.key == key then (t.0 + u.balanceDelta, t.1 + u.lockedDelta) else t
  }

  lemma {:induction false} EventTotals(us: seq<BalanceUpdate>, key: Key)
    ensures (BalanceTotal(EventsFor(us, key)), LockedTotal(EventsFor(us, key))) == Totals(us, key)
  {
    if us != [] {
      EventTotals(us[..|us| - 1], key);
      var earlier := EventsFor(us[..|us| - 1], key);
      assert (earlier + [Published(us[|us| - 1])])[..|earlier|] == earlier;
    }
  }

  /** All events of an account are its updates, and none carries a version; so neither does an account rebuilt. */
  lemma {:induction false} EventsCarryNoVersion(us: seq<BalanceUpdate>, key: Key)
    ensures forall i :: 0 <= i < |EventsFor(us, key)| ==>
      var e := EventsFor(us, key)[i]; e.BalanceUpdated? && e.update.key == key && e.update in us && e.version == 0
  {
    if us != [] {
      EventsCarryNoVersion(us[..|us| - 1], key);
      assert us == us[..|us| - 1] + [us[|us| - 1]];
    }
  }

  lemma {:induction false} TotalsWithout(us: seq<BalanceUpdate>, i: nat, key: Key)
    requires i < |us|
    ensures var rest := Totals(Without(us, i), key);
      Totals(us, key) == if us[i].key == key then (rest.0 + us[i].balanceDelta, rest.1 + us[i].lockedDelta) else rest
  {
    var n := |us| - 1;
    if i == n {
      assert Without(us, i) == us[..n];
    } else {
      TotalsWithout(us[..n], i, key);
      assert Without(us, i)[..n - 1] == Without(us[..n], i);
    }
  }

  lemma PositionIn(us: seq<BalanceUpdate>, u: BalanceUpdate) returns (i: nat)
    requires u in multiset(us)
    ensures i < |us| && us[i] == u
  {
    assert u in us;
    i :| 0 <= i < |us| && us[i] == u;
  }

  lemma FindSame(xs: seq<BalanceUpdate>, ys: seq<BalanceUpdate>) returns (i: nat)
    requires multiset(xs) == multiset(ys) && xs != []
    ensures i < |ys| && ys[i] == xs[|xs| - 1] && multiset(Without(ys, i)) == multiset(xs[..|xs| - 1])
  {
    var n := |xs| - 1;
    i := PositionIn(ys, xs[n]) by { assert xs[n] in multiset(xs); }
    WithoutMultiset(ys, i);
    WithoutMultiset(xs, n);
    assert Without(xs, n) == xs[..n] + [] == xs[..n];
  }

  /** Totals do not depend on the order of publication. */
  lemma {:induction false} TotalsPermute(xs: seq<BalanceUpdate>, ys: seq<BalanceUpdate>, key: Key)
    requires multiset(xs) == multiset(ys)
    ensures Totals(xs, key) == Totals(ys, key)
    decreases |xs|
  {
    if xs == [] {
      assert |multiset(ys)| == 0;
    } else {
      var i := FindSame(xs, ys);
      TotalsPermute(xs[..|xs| - 1], Without(ys, i), key);
      TotalsWithout(ys, i, key);
    }
  }

  lemma TotalsSnoc(us: seq<BalanceUpdate>, u: BalanceUpdate, key: Key)
    ensures Totals(us + [u], key) ==
      if u.key == key then (Totals(us, key).0 + u.balanceDelta, Totals(us, key).1 + u.lockedDelta) else Totals(us, key)
  {
    assert (us + [u])[..|us|] == us;
  }

  lemma {:induction false} PlainTotalsAreTotals(db: Db, log: seq<Tx>, key: Key)
    requires Succeeds(db, log)
    ensures PlainTotals(db, log, key) == Totals(UpdatesOf(log), key)
  {
    if log != [] {
      var n := |log| - 1;
      PlainTotalsAreTotals(db, log[..n], key);
      if log[n].Update? {
        TotalsSnoc(UpdatesOf(log[..n]), log[n].update, key);
        assert UpdatesOf(log) == UpdatesOf(log[..n]) + [log[n].update];
      } else {
        assert UpdatesOf(log) == UpdatesOf(log[..n]);
      }
    }
  }

  /**
   Once every committed update has been published, in whatever order, the events of an account rebuild
   exactly how far its balance has moved; their locked total differs from the row's by the change in held
   reservations, which publish nothing the rebuild reads. What is missing is what is still to be published,
   and for good what took effect under a commit that was reported as failed.
   */
  lemma EventsRebuildTheRow(db: Db, steps: seq<Step>, key: Key)
    requires key in db.rows && SoundRows(db)
    ensures var w := Run(Begin(db), steps);
      var events := EventsFor(w.published, key);
      key in w.db.rows &&
      BalanceTotal(events) + Totals(w.pending, key).0 + Totals(w.silent, key).0 ==
        w.db.rows[key].balance - db.rows[key].balance &&
      LockedTotal(events) + Totals(w.pending, key).1 + Totals(w.silent, key).1 == Slack(w.db, key) - Slack(db, key)
  {
    var w := Run(Begin(db), steps);
    RunKeepsInv(db, steps);
    NoLostUpdates(db, steps, key);
    PlainTotalsAreTotals(db, w.log, key);
    TotalsPermute(w.published + w.pending + w.silent, UpdatesOf(w.log), key);
    TotalsConcat(w.published, w.pending, key);
    TotalsConcat(w.published + w.pending, w.silent, key);
    EventTotals(w.published, key);
  }

  lemma {:induction false} TotalsConcat(xs: seq<BalanceUpdate>, ys: seq<BalanceUpdate>, key: Key)
    ensures Totals(xs + ys, key) == (Totals(xs, key).0 + Totals(ys, key).0, Totals(xs, key).1 + Totals(ys, key).1)
  {
    if ys == [] {
      assert xs + ys == xs;
    } else {
      TotalsConcat(xs, ys[..|ys| - 1], key);
      assert (xs + ys)[..|xs + ys| - 1] == xs + ys[..|ys| - 1];
    }
  }

  // ---------- Storing events ----------

  /** What an event comes back as: a base event, whatever it was when it was stored. */
  function ReadBack(e: Event): Event { OtherEvent(e.version) }

  /** Everything published is stored, lost or waiting, and as long as nothing was lost it is in order. */
  ghost predicate Accounted(published: seq<Event>, stored: seq<Event>, lost: seq<Event>, batch: seq<Event>) {
    multiset(published) == multiset(stored) + multiset(lost) + multiset(batch) &&
    (lost == [] ==> published == stored + batch)
  }

  lemma OneMore(published: seq<Event>, stored: seq<Event>, lost: seq<Event>, batch: seq<Event>, e: Event)
    requires Accounted(published, stored, lost, batch)
    ensures Accounted(published + [e], stored, lost, batch + [e])
  {
    if lost == [] { assert stored + batch + [e] == stored + (batch + [e]); }
  }

  lemma Regroup(lost: seq<Event>, batch: seq<Event>, e: Event)
    ensures lost + (batch + [e]) == lost + batch + [e]
  {
  }

  /** The whole batch goes to the store, or is lost. */
  lemma Moved(published: seq<Event>, stored: seq<Event>, lost: seq<Event>, batch: seq<Event>)
    requires Accounted(published, stored, lost, batch)
    ensures Accounted(published, stored + batch, lost, [])
    ensures batch != [] ==> Accounted(published, stored, lost + batch, [])
  {
    assert stored + batch + [] == stored + batch;
  }

  class Store {
    var eventBatch: seq<Event>
    var stored: seq<Event>
    const batchSize: int
    ghost var published: seq<Event>
    ghost var lost: seq<Event>

    ghost predicate Valid()
      reads this
    {
      Accounted(published, stored, lost, eventBatch) && (eventBatch != [] ==> |eventBatch| < batchSize)
    }

    constructor (batchSize: int)
      ensures Valid() && published == [] && lost == [] && this.batchSize == batchSize
    {
      this.batchSize := batchSize;
      eventBatch, stored, published, lost := [], [], [], [];
    }

    /** A full batch is written at once. If that fails its events are lost, the one just published included. */
    method PublishEvent(event: Event, fails: bool) returns (ok: bool)
      requires Valid()
      modifies this
      ensures Valid() && published == old(published) + [event]
      ensures ok <==> !(fails && |old(eventBatch)| + 1 >= batchSize)
      ensures lost == if ok then old(lost) else old(lost) + old(eventBatch) + [event]
      ensures var full := |old(eventBatch)| + 1 >= batchSize;
        eventBatch == (if full then [] else old(eventBatch) + [event]) &&
        stored == if full && ok then old(stored) + (old(eventBatch) + [event]) else old(stored)
    {
      OneMore(published, stored, lost, eventBatch, event);
      eventBatch := eventBatch + [event];
      published := published + [event];
      if |eventBatch| < batchSize { return true; }
      Regroup(lost, old(eventBatch), event);
      ok := FlushEvents(fails);
    }

    /** Takes the batch, then inserts it in one transaction; what it took is not put back when that fails. */
    method FlushEvents(fails: bool) returns (ok: bool)
      requires Accounted(published, stored, lost, eventBatch)
      modifies this`eventBatch, this`stored, this`lost
      ensures Valid() && eventBatch == []
      ensures ok <==> !fails || old(eventBatch) == []
      ensures lost == if ok then old(lost) else old(lost) + old(eventBatch)
      ensures stored == if ok then old(stored) + old(eventBatch) else old(stored)
    {
      Moved(published, stored, lost, eventBatch);
      var events := eventBatch;
      eventBatch := [];
      if events == [] { return true; }
      if fails {
        lost := lost + events;
        return false;
      }
      stored := stored + events;
      return true;
    }

    /** Events read back never rebuild an account, so no snapshot is ever made of one. */
    method RebuildFromStore() returns (account: Option<Account>)
      ensures account == None
    {
      var events := seq(|stored|, i requires 0 <= i < |stored| reads this => ReadBack(stored[i]));
      account := ReconstructAccountAggregate(events);
    }
  }
}
