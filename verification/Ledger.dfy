/**
 The account ledger as its database sees it: rows of the account table, the reservations table and
 the journal, with every transaction executed on its own. Amounts are exact (decimal columns), so
 they are integers counted in the smallest unit. A reservation's identity is its position in the
 table, since identifiers are freshly generated on insert and rows are never deleted.
 */
module Ledger {
  import opened Prelude

  datatype Key = Key(userId: string, currency: string)

  datatype Account = Account(balance: int, available: int, locked: int, version: int) {
    /** What the guarded UPDATE statements keep true of every row. */
    ghost predicate Sound() {
      available == balance - locked && balance >= 0 && available >= 0 && locked >= 0
    }
  }

  datatype BalanceUpdate = BalanceUpdate(key: Key, balanceDelta: int, lockedDelta: int, expectedVersion: int)

  datatype Status = Active | Released | Expired

  datatype Reservation = Reservation(key: Key, amount: int, status: Status, expiresAt: Option<int>, version: int)

  datatype JournalEntry = JournalEntry(
    key: Key, amount: int,
    balanceBefore: int, balanceAfter: int,
    availableBefore: int, availableAfter: int,
    lockedBefore: int, lockedAfter: int)

  datatype Db = Db(rows: map<Key, Account>, reservations: seq<Reservation>, journal: seq<JournalEntry>)

  datatype Error =
    | AccountNotFound | VersionMismatch | InsufficientFunds | NoRowsAffected
    | ReservationNotFound | ReservationNotActive | ReservationConflict | InvalidAmount | CommitFailed

  /** The transactions that reach the database. */
  datatype Tx =
    | Update(update: BalanceUpdate)
    | Create(key: Key, amount: int, expiresAt: Option<int>)
    | Release(id: nat)
    | Expire(now: int)

  /** Attempts a plain update makes before it gives up on a lost race. */
  const MAX_RETRIES := 3

  /** New column values computed from the row that was read, or the insufficient-funds branch. */
  function Apply(row: Account, balanceDelta: int, lockedDelta: int): (r: Result<Account, Error>)
    ensures r.Ok? ==> r.value.Sound() && r.value.version == row.version + 1
    ensures r.Ok? ==> r.value.balance == row.balance + balanceDelta && r.value.locked == row.locked + lockedDelta
  {
    var newBalance := row.balance + balanceDelta;
    var newLocked := row.locked + lockedDelta;
    var newAvailable := newBalance - newLocked;
    if newBalance < 0 || newAvailable < 0 || newLocked < 0 then Err(InsufficientFunds)
    else Ok(Account(newBalance, newAvailable, newLocked, row.version + 1))
  }

  function Entry(u: BalanceUpdate, before: Account, after: Account): JournalEntry {
    JournalEntry(u.key, u.balanceDelta, before.balance, after.balance,
                 before.available, after.available, before.locked, after.locked)
  }

  /** Checks made on the row read at the start of a plain update. */
  function CheckUpdate(u: BalanceUpdate, row: Account): Result<Account, Error> {
    if u.expectedVersion > 0 && row.version != u.expectedVersion then Err(VersionMismatch)
    else Apply(row, u.balanceDelta, u.lockedDelta)
  }

  predicate Due(r: Reservation, now: int) {
    r.status.Active? && r.expiresAt.Some? && r.expiresAt.value < now
  }

  function ExpireAll(rs: seq<Reservation>, now: int): (r: seq<Reservation>)
    ensures |r| == |rs|
    ensures forall i :: 0 <= i < |rs| ==> r[i] == if Due(rs[i], now) then rs[i].(status := Expired) else rs[i]
  {
    seq(|rs|, i requires 0 <= i < |rs| => if Due(rs[i], now) then rs[i].(status := Expired) else rs[i])
  }

  /** Funds locked and the reservation inserted; that the amount is positive is for the caller to check. */
  function Reserve(db: Db, key: Key, amount: int, expiresAt: Option<int>): Result<Db, Error> {
    if key !in db.rows then Err(AccountNotFound) else
    var applied := Apply(db.rows[key], 0, amount);
    if applied.Err? then Err(applied.error)
    else Ok(db.(rows := db.rows[key := applied.value],
                reservations := db.reservations + [Reservation(key, amount, Active, expiresAt, 0)]))
  }

  /** One transaction executed with nothing in between its statements. */
  function Exec(db: Db, tx: Tx): Result<Db, Error> {
    match tx
    case Update(u) =>
      if u.key !in db.rows then Err(AccountNotFound) else
      var row := db.rows[u.key];
      var checked := CheckUpdate(u, row);
      if checked.Err? then Err(checked.error)
      else Ok(db.(rows := db.rows[u.key := checked.value], journal := db.journal + [Entry(u, row, checked.value)]))
    case Create(key, amount, expiresAt) =>
      if amount <= 0 then Err(InvalidAmount) else Reserve(db, key, amount, expiresAt)
    case Release(id) =>
      if id >= |db.reservations| then Err(ReservationNotFound) else
      var r := db.reservations[id];
      if !r.status.Active? then Err(ReservationNotActive) else
      if r.key !in db.rows then Err(AccountNotFound) else
      var applied := Apply(db.rows[r.key], 0, -r.amount);
      if applied.Err? then Err(applied.error)
      else Ok(db.(rows := db.rows[r.key := applied.value],
                  reservations := db.reservations[id := r.(status := Released, version := r.version + 1)]))
    case Expire(now) => Ok(db.(reservations := ExpireAll(db.reservations, now)))
  }

  /** Transactions one after another; one that fails is rolled back. */
  function Serial(db: Db, log: seq<Tx>): Db {
    if log == [] then db
    else
      var before := Serial(db, log[..|log| - 1]);
      var r := Exec(before, log[|log| - 1]);
      if r.Ok? then r.value else before
  }

  // ---------- What a transaction comes to ----------

  /** Whether an account can take a change: the balance, the locked and the available funds stay non-negative. */
  predicate Affords(row: Account, balanceDelta: int, lockedDelta: int) {
    row.balance + balanceDelta >= 0 && row.locked + lockedDelta >= 0 &&
    row.balance + balanceDelta >= row.locked + lockedDelta
  }

  /** A row changed by so much, to the next version. */
  predicate MovedBy(row: Account, now: Account, balanceDelta: int, lockedDelta: int) {
    now.balance == row.balance + balanceDelta && now.locked == row.locked + lockedDelta &&
    now.available == now.balance - now.locked && now.version == row.version + 1
  }

  /** One row moved, and no other changed. */
  ghost predicate OnlyMoves(before: Db, after: Db, key: Key, balanceDelta: int, lockedDelta: int) {
    key in before.rows && after.rows.Keys == before.rows.Keys &&
    (forall k :: k in before.rows && k != key ==> after.rows[k] == before.rows[k]) &&
    MovedBy(before.rows[key], after.rows[key], balanceDelta, lockedDelta)
  }

  /** One more entry, with all columns of the row before and after. */
  ghost predicate Journals(before: Db, after: Db, u: BalanceUpdate)
    requires u.key in before.rows && u.key in after.rows
  {
    var n, row, now := |before.journal|, before.rows[u.key], after.rows[u.key];
    |after.journal| == n + 1 && after.journal[..n] == before.journal &&
    var e := after.journal[n];
    e.key == u.key && e.amount == u.balanceDelta &&
    e.balanceBefore == row.balance && e.balanceAfter == now.balance &&
    e.availableBefore == row.available && e.availableAfter == now.available &&
    e.lockedBefore == row.locked && e.lockedAfter == now.locked
  }

  /**
   A plain update succeeds exactly for a known account at the version expected, if any, that can afford it; it
   moves that row and journals it, and its errors come in this order.
   */
  lemma UpdateOutcome(db: Db, u: BalanceUpdate)
    ensures var r := Exec(db, Update(u));
      if u.key !in db.rows then r == Err(AccountNotFound)
      else if u.expectedVersion > 0 && u.expectedVersion != db.rows[u.key].version then r == Err(VersionMismatch)
      else if !Affords(db.rows[u.key], u.balanceDelta, u.lockedDelta) then r == Err(InsufficientFunds)
      else
        r.Ok? && OnlyMoves(db, r.value, u.key, u.balanceDelta, u.lockedDelta) && Journals(db, r.value, u) &&
        r.value.reservations == db.reservations
  {
  }

  /** A reservation locks its amount and is inserted as active, in one; nothing is journalled. */
  lemma CreateOutcome(db: Db, key: Key, amount: int, expiresAt: Option<int>)
    ensures Exec(db, Create(key, amount, expiresAt)) ==
      if amount <= 0 then Err(InvalidAmount) else Reserve(db, key, amount, expiresAt)
    ensures var r := Reserve(db, key, amount, expiresAt);
      if key !in db.rows then r == Err(AccountNotFound)
      else if !Affords(db.rows[key], 0, amount) then r == Err(InsufficientFunds)
      else
        r.Ok? && OnlyMoves(db, r.value, key, 0, amount) && r.value.journal == db.journal &&
        r.value.reservations == db.reservations + [Reservation(key, amount, Active, expiresAt, 0)]
  {
  }

  /** A release unlocks the reserved amount and ends the reservation, which must be active, in one. */
  lemma ReleaseOutcome(db: Db, id: nat)
    ensures var r := Exec(db, Release(id));
      if id >= |db.reservations| then r == Err(ReservationNotFound) else
      var held := db.reservations[id];
      if held.status != Active then r == Err(ReservationNotActive)
      else if held.key !in db.rows then r == Err(AccountNotFound)
      else if !Affords(db.rows[held.key], 0, -held.amount) then r == Err(InsufficientFunds)
      else
        r.Ok? && OnlyMoves(db, r.value, held.key, 0, -held.amount) && r.value.journal == db.journal &&
        r.value.reservations ==
          db.reservations[id := Reservation(held.key, held.amount, Released, held.expiresAt, held.version + 1)]
  {
  }

  /** The cleanup ends exactly the active reservations whose time is past, and touches nothing else. */
  lemma ExpireOutcome(db: Db, now: int)
    ensures Exec(db, Expire(now)).Ok?
    ensures var after := Exec(db, Expire(now)).value;
      after.rows == db.rows && after.journal == db.journal && |after.reservations| == |db.reservations| &&
      forall i :: 0 <= i < |db.reservations| ==> Expires(db.reservations[i], after.reservations[i], now)
  {
  }

  /** A reservation before and after a cleanup. */
  ghost predicate Expires(before: Reservation, after: Reservation, now: int) {
    if before.status == Active && before.expiresAt.Some? && before.expiresAt.value < now
    then after == before.(status := Expired) else after == before
  }

  // ---------- What every transaction keeps ----------

  ghost predicate SoundRows(db: Db) {
    forall k :: k in db.rows ==> db.rows[k].Sound()
  }

  /** A row only ever changes together with its version, which rises by one. */
  ghost predicate RowsAdvance(a: Db, b: Db) {
    a.rows.Keys == b.rows.Keys &&
    forall k :: k in a.rows ==> b.rows[k] == a.rows[k] || b.rows[k].version > a.rows[k].version
  }

  /** A reservation keeps its owner, amount and expiry, and never leaves `released` or `expired`. */
  ghost predicate ReservationsAdvance(a: Db, b: Db) {
    |a.reservations| <= |b.reservations| &&
    forall i :: 0 <= i < |a.reservations| ==>
      b.reservations[i].key == a.reservations[i].key &&
      b.reservations[i].amount == a.reservations[i].amount &&
      b.reservations[i].expiresAt == a.reservations[i].expiresAt &&
      (!a.reservations[i].status.Active? ==> b.reservations[i] == a.reservations[i])
  }

  lemma ExecAdvances(db: Db, tx: Tx)
    ensures Exec(db, tx).Ok? ==> RowsAdvance(db, Exec(db, tx).value) && ReservationsAdvance(db, Exec(db, tx).value)
  {
  }

  lemma {:induction false} SerialAdvances(db: Db, log: seq<Tx>)
    ensures RowsAdvance(db, Serial(db, log)) && ReservationsAdvance(db, Serial(db, log))
    ensures SoundRows(db) ==> SoundRows(Serial(db, log))
  {
    if log != [] {
      SerialAdvances(db, log[..|log| - 1]);
      ExecAdvances(Serial(db, log[..|log| - 1]), log[|log| - 1]);
    }
  }

  // ---------- Accounting totals ----------

  /** Funds held for one account: reservations still active or expired but never released. */
  function Held(rs: seq<Reservation>, key: Key): int {
    if rs == [] then 0
    else
      var r := rs[|rs| - 1];
      Held(rs[..|rs| - 1], key) + if r.key == key && !r.status.Released? then r.amount else 0
  }

  lemma {:induction false} HeldUpdate(rs: seq<Reservation>, id: nat, r: Reservation, key: Key)
    requires id < |rs|
    ensures Held(rs[id := r], key) == Held(rs, key)
      - (if rs[id].key == key && !rs[id].status.Released? then rs[id].amount else 0)
      + (if r.key == key && !r.status.Released? then r.amount else 0)
  {
    var n := |rs| - 1;
    if id == n {
      assert rs[id := r][..n] == rs[..n];
    } else {
      HeldUpdate(rs[..n], id, r, key);
      assert rs[id := r][..n] == rs[..n][id := r];
    }
  }

  lemma {:induction false} HeldExpire(rs: seq<Reservation>, now: int, key: Key)
    ensures Held(ExpireAll(rs, now), key) == Held(rs, key)
  {
    if rs != [] {
      var n := |rs| - 1;
      HeldExpire(rs[..n], now, key);
      assert ExpireAll(rs, now)[..n] == ExpireAll(rs[..n], now);
    }
  }

  lemma {:induction false} HeldNonNegative(rs: seq<Reservation>, key: Key)
    requires forall i :: 0 <= i < |rs| ==> rs[i].amount >= 0
    ensures Held(rs, key) >= 0
    ensures (forall i :: 0 <= i < |rs| ==> rs[i].key != key || rs[i].status.Released?) ==> Held(rs, key) == 0
  {
    if rs != [] { HeldNonNegative(rs[..|rs| - 1], key); }
  }

  /** Locked funds of an account that no reservation accounts for. */
  function Slack(db: Db, key: Key): int
    requires key in db.rows
  {
    db.rows[key].locked - Held(db.reservations, key)
  }

  /** Total balance and locked deltas of the plain updates on one account that took effect. */
  function PlainTotals(db: Db, log: seq<Tx>, key: Key): (int, int) {
    if log == [] then (0, 0)
    else
      var before := log[..|log| - 1];
      var tx := log[|log| - 1];
      var t := PlainTotals(db, before, key);
      if tx.Update? && tx.update.key == key && Exec(Serial(db, before), tx).Ok?
      then (t.0 + tx.update.balanceDelta, t.1 + tx.update.lockedDelta)
      else t
  }

  /** Number of transactions that wrote the row of one account. */
  function Commits(db: Db, log: seq<Tx>, key: Key): nat {
    if log == [] then 0
    else
      var before := Serial(db, log[..|log| - 1]);
      var tx := log[|log| - 1];
      Commits(db, log[..|log| - 1], key) +
      if Exec(before, tx).Ok? && Touches(before, tx, key) then 1 else 0
  }

  predicate Touches(db: Db, tx: Tx, key: Key) {
    match tx
    case Update(u) => u.key == key
    case Create(k, _, _) => k == key
    case Release(id) => id < |db.reservations| && db.reservations[id].key == key
    case Expire(_) => false
  }

  /** What one transaction does to the totals of an account. */
  lemma ExecTotals(db: Db, tx: Tx, key: Key)
    requires key in db.rows && Exec(db, tx).Ok?
    ensures var after := Exec(db, tx).value; var plain := tx.Update? && tx.update.key == key;
      key in after.rows &&
      after.rows[key].balance == db.rows[key].balance + (if plain then tx.update.balanceDelta else 0) &&
      after.rows[key].version == db.rows[key].version + (if Touches(db, tx, key) then 1 else 0) &&
      Slack(after, key) == Slack(db, key) + if plain then tx.update.lockedDelta else 0
  {
    match tx
    case Update(_) =>
    case Create(k, amount, e) =>
      assert (db.reservations + [Reservation(k, amount, Active, e, 0)])[..|db.reservations|] == db.reservations;
    case Release(id) =>
      var r := db.reservations[id];
      HeldUpdate(db.reservations, id, r.(status := Released, version := r.version + 1), key);
    case Expire(now) => HeldExpire(db.reservations, now, key);
  }

  /**
   Conservation over a whole run. The balance moves by the plain updates alone, the version counts
   the commits, and what is locked beyond held reservations moves by the plain locked deltas alone.
   */
  lemma {:induction false} Conservation(db: Db, log: seq<Tx>, key: Key)
    requires key in db.rows
    ensures var end := Serial(db, log);
      key in end.rows &&
      end.rows[key].balance == db.rows[key].balance + PlainTotals(db, log, key).0 &&
      end.rows[key].version == db.rows[key].version + Commits(db, log, key) &&
      Slack(end, key) == Slack(db, key) + PlainTotals(db, log, key).1
  {
    if log != [] {
      var n := |log| - 1;
      Conservation(db, log[..n], key);
      if Exec(Serial(db, log[..n]), log[n]).Ok? { ExecTotals(Serial(db, log[..n]), log[n], key); }
    }
  }

  /** Every reservation made in a run has a positive amount if the earlier ones had. */
  ghost predicate PositiveAmounts(db: Db) {
    forall i :: 0 <= i < |db.reservations| ==> db.reservations[i].amount > 0
  }

  lemma {:induction false} AmountsStayPositive(db: Db, log: seq<Tx>)
    requires PositiveAmounts(db)
    ensures PositiveAmounts(Serial(db, log))
  {
    if log != [] { AmountsStayPositive(db, log[..|log| - 1]); }
  }

  /**
   Exactly when releasing an active reservation takes the insufficient-funds branch: the locked
   funds outside reservations are so negative that the other reservations do not make up for them.
   */
  lemma ReleaseFailsExactlyWhen(db: Db, id: nat)
    requires id < |db.reservations| && db.reservations[id].status.Active?
    requires db.reservations[id].key in db.rows && db.rows[db.reservations[id].key].Sound()
    requires db.reservations[id].amount > 0
    ensures var r := db.reservations[id];
      (Exec(db, Release(id)) == Err(InsufficientFunds) <==>
        Slack(db, r.key) + Held(db.reservations[id := r.(status := Released)], r.key) < 0) &&
      (Exec(db, Release(id)).Ok? <==> Exec(db, Release(id)) != Err(InsufficientFunds))
  {
    var r := db.reservations[id];
    HeldUpdate(db.reservations, id, r.(status := Released), r.key);
  }

  lemma {:induction false} HeldOthersNonNegative(db: Db, id: nat)
    requires id < |db.reservations| && PositiveAmounts(db)
    ensures Held(db.reservations[id := db.reservations[id].(status := Released)], db.reservations[id].key) >= 0
  {
    HeldNonNegative(db.reservations[id := db.reservations[id].(status := Released)], db.reservations[id].key);
  }

  /**
   In every run whose plain updates leave the locked total of the account alone or raise it, an
   active reservation can be released: the insufficient-funds branch is not reached.
   */
  lemma ReleaseSucceeds(db: Db, log: seq<Tx>, id: nat)
    requires SoundRows(db) && PositiveAmounts(db)
    requires id < |Serial(db, log).reservations| && Serial(db, log).reservations[id].status.Active?
    requires var key := Serial(db, log).reservations[id].key;
      key in db.rows && Slack(db, key) + PlainTotals(db, log, key).1 >= 0
    ensures Exec(Serial(db, log), Release(id)).Ok?
  {
    var end := Serial(db, log);
    SerialAdvances(db, log);
    AmountsStayPositive(db, log);
    Conservation(db, log, end.reservations[id].key);
    HeldOthersNonNegative(end, id);
    ReleaseFailsExactlyWhen(end, id);
  }

  // ---------- The journal ----------

  function JournalOf(journal: seq<JournalEntry>, key: Key): seq<JournalEntry> {
    if journal == [] then []
    else
      var e := journal[|journal| - 1];
      var earlier := JournalOf(journal[..|journal| - 1], key);
      if e.key == key then earlier + [e] else earlier
  }

  /** Each entry starts at the balance the previous one ended with and moves it by its amount. */
  ghost predicate Chains(entries: seq<JournalEntry>, from: int, to: int) {
    if entries == [] then from == to
    else
      var e := entries[|entries| - 1];
      e.balanceAfter == to && e.balanceBefore + e.amount == e.balanceAfter &&
      Chains(entries[..|entries| - 1], from, e.balanceBefore)
  }

  lemma ChainsExtends(entries: seq<JournalEntry>, e: JournalEntry, from: int)
    requires Chains(entries, from, e.balanceBefore) && e.balanceBefore + e.amount == e.balanceAfter
    ensures Chains(entries + [e], from, e.balanceAfter)
  {
    assert (entries + [e])[..|entries|] == entries;
  }

  lemma {:induction false} ExecChains(db: Db, tx: Tx, key: Key, from: int)
    requires key in db.rows && Exec(db, tx).Ok?
    requires Chains(JournalOf(db.journal, key), from, db.rows[key].balance)
    ensures Chains(JournalOf(Exec(db, tx).value.journal, key), from, Exec(db, tx).value.rows[key].balance)
  {
    if tx.Update? {
      var u := tx.update;
      var e := Entry(u, db.rows[u.key], CheckUpdate(u, db.rows[u.key]).value);
      assert (db.journal + [e])[..|db.journal|] == db.journal;
      if u.key == key { ChainsExtends(JournalOf(db.journal, key), e, from); }
    }
  }

  /** Although reservations write the row without a journal entry, the journal has no gap in the balance. */
  lemma {:induction false} JournalChains(db: Db, log: seq<Tx>, key: Key)
    requires key in db.rows && db.journal == []
    ensures key in Serial(db, log).rows
    ensures Chains(JournalOf(Serial(db, log).journal, key), db.rows[key].balance, Serial(db, log).rows[key].balance)
  {
    if log != [] {
      var n := |log| - 1;
      JournalChains(db, log[..n], key);
      if Exec(Serial(db, log[..n]), log[n]).Ok? {
        ExecChains(Serial(db, log[..n]), log[n], key, db.rows[key].balance);
      }
    }
  }

  /** Both sides of an entry are rows that can be. */
  ghost predicate EntrySound(e: JournalEntry) {
    e.availableBefore == e.balanceBefore - e.lockedBefore && e.availableAfter == e.balanceAfter - e.lockedAfter &&
    e.balanceBefore >= 0 && e.availableBefore >= 0 && e.lockedBefore >= 0 &&
    e.balanceAfter >= 0 && e.availableAfter >= 0 && e.lockedAfter >= 0
  }

  ghost predicate EntriesSound(journal: seq<JournalEntry>) {
    forall i :: 0 <= i < |journal| ==> EntrySound(journal[i])
  }

  lemma NewEntrySound(db: Db, tx: Tx)
    requires SoundRows(db) && EntriesSound(db.journal)
    ensures Exec(db, tx).Ok? ==> EntriesSound(Exec(db, tx).value.journal)
  {
    if tx.Update? && Exec(db, tx).Ok? {
      UpdateOutcome(db, tx.update);
      var journal := Exec(db, tx).value.journal;
      forall i | 0 <= i < |db.journal| ensures journal[i] == db.journal[i] {
        assert journal[..|db.journal|][i] == db.journal[i];
      }
      assert db.rows[tx.update.key].Sound();
    }
  }

  /** In every run each entry records two sound rows of the account. */
  lemma {:induction false} JournalSound(db: Db, log: seq<Tx>)
    requires SoundRows(db) && db.journal == []
    ensures EntriesSound(Serial(db, log).journal)
  {
    if log != [] {
      var n := |log| - 1;
      JournalSound(db, log[..n]);
      SerialAdvances(db, log[..n]);
      NewEntrySound(Serial(db, log[..n]), log[n]);
    }
  }

  function AmountTotal(entries: seq<JournalEntry>): int {
    if entries == [] then 0 else AmountTotal(entries[..|entries| - 1]) + entries[|entries| - 1].amount
  }

  lemma {:induction false} ChainsSum(entries: seq<JournalEntry>, from: int, to: int)
    requires Chains(entries, from, to)
    ensures AmountTotal(entries) == to - from
  {
    if entries != [] { ChainsSum(entries[..|entries| - 1], from, entries[|entries| - 1].balanceBefore); }
  }

  /** So the amounts journalled for an account add up to how far its balance has moved. */
  lemma JournalSums(db: Db, log: seq<Tx>, key: Key)
    requires key in db.rows && db.journal == []
    ensures var end := Serial(db, log);
      key in end.rows && AmountTotal(JournalOf(end.journal, key)) == end.rows[key].balance - db.rows[key].balance
  {
    JournalChains(db, log, key);
    ChainsSum(JournalOf(Serial(db, log).journal, key), db.rows[key].balance, Serial(db, log).rows[key].balance);
  }
}
