/**
 Many clients on the ledger at once. A client reads (step one), then writes under the version guard
 (step two); a release first reads the reservation outside its transaction. Any other step may come
 in between: neither the redis mutex nor the row lock is modelled, so what is proved here rests on the
 guards alone. A commit may also fail, or take effect and be reported as failed; such an update is never
 published. `log`, `commits` and `silent` are history: what took effect, in order, for whom, and unpublished.
 */
module LedgerSessions {
  import opened Prelude
  import opened Ledger

  datatype Session =
    | Ready(tx: Tx, attempt: nat)
    | ReservationRead(id: nat, seen: Reservation)
    | RowRead(tx: Tx, attempt: nat, amount: int, key: Key, snapshot: Account)
    | Done(tx: Tx, result: Result<(), Error>)

  datatype World = World(
    db: Db,
    sessions: map<nat, Session>,
    log: seq<Tx>,
    commits: multiset<nat>,
    pending: seq<BalanceUpdate>,
    silent: seq<BalanceUpdate>,
    published: seq<BalanceUpdate>)

  /** How a commit can go: the third took effect although it is reported as failed. */
  datatype Commit = Acknowledged | RolledBack | Unacknowledged

  datatype Step =
    | Start(client: nat, tx: Tx)
    | Advance(client: nat, commit: Commit)
    | RunExpiry(now: int)
    | Publish(index: nat)

  function Begin(db: Db): World {
    World(db, map[], [], multiset{}, [], [], [])
  }

  function Without(us: seq<BalanceUpdate>, i: nat): seq<BalanceUpdate>
    requires i < |us|
  {
    us[..i] + us[i + 1..]
  }

  lemma WithoutMultiset(us: seq<BalanceUpdate>, i: nat)
    requires i < |us|
    ensures multiset(Without(us, i)) == multiset(us) - multiset{us[i]} && us[i] in multiset(us)
  {
    assert us == us[..i] + [us[i]] + us[i + 1..];
    assert multiset(us) == multiset(Without(us, i)) + multiset{us[i]};
  }

  function Next(w: World, step: Step): World {
    match step
    case Start(a, tx) => if a in w.sessions || tx.Expire? then w else Move(w, a, Ready(tx, 0))
    case Advance(a, commit) => if a in w.sessions then Advanced(w, a, w.sessions[a], commit) else w
    case RunExpiry(now) => w.(db := Exec(w.db, Expire(now)).value, log := w.log + [Expire(now)])
    case Publish(i) =>
      if i >= |w.pending| then w
      else w.(published := w.published + [w.pending[i]], pending := Without(w.pending, i))
  }

  function Advanced(w: World, a: nat, s: Session, commit: Commit): World {
    match s
    case Ready(tx, attempt) => Move(w, a, Read(w.db, tx, attempt))
    case ReservationRead(id, seen) => Move(w, a, LockReservation(w.db, id, seen))
    case RowRead(_, _, _, _, _) =>
      var r := Write(w.db, s);
      if r.Err? then Move(w, a, r.error)
      else if commit.RolledBack? then Move(w, a, Done(s.tx, Err(CommitFailed)))
      else Committed(w, a, s.tx, r.value, commit.Acknowledged?)
    case Done(_, _) => w
  }

  function Move(w: World, a: nat, s: Session): World { w.(sessions := w.sessions[a := s]) }

  /** Only an acknowledged update is published. */
  function Committed(w: World, a: nat, tx: Tx, db: Db, acknowledged: bool): World {
    var updates := if tx.Update? then [tx.update] else [];
    w.(db := db, log := w.log + [tx], commits := w.commits + multiset{a},
       sessions := w.sessions[a := Done(tx, if acknowledged then Ok(()) else Err(CommitFailed))],
       pending := if acknowledged then w.pending + updates else w.pending,
       silent := if acknowledged then w.silent else w.silent + updates)
  }

  /** The first read of a command, with the checks made on it. */
  function Read(db: Db, tx: Tx, attempt: nat): Session {
    match tx
    case Update(u) =>
      if u.key !in db.rows then Done(tx, Err(AccountNotFound)) else
      var checked := CheckUpdate(u, db.rows[u.key]);
      if checked.Err? then Done(tx, Err(checked.error)) else RowRead(tx, attempt, 0, u.key, db.rows[u.key])
    case Create(key, amount, _) =>
      if amount <= 0 then Done(tx, Err(InvalidAmount)) else
      if key !in db.rows then Done(tx, Err(AccountNotFound)) else
      var applied := Apply(db.rows[key], 0, amount);
      if applied.Err? then Done(tx, Err(applied.error)) else RowRead(tx, attempt, amount, key, db.rows[key])
    case Release(id) =>
      if id >= |db.reservations| then Done(tx, Err(ReservationNotFound)) else
      if !db.reservations[id].status.Active? then Done(tx, Err(ReservationNotActive))
      else ReservationRead(id, db.reservations[id])
    case Expire(_) => Done(tx, Err(InvalidAmount))
  }

  predicate StillActive(db: Db, id: nat, version: int) {
    id < |db.reservations| && db.reservations[id].status.Active? && db.reservations[id].version == version
  }

  /** Inside the release transaction: the guarded status update is tried, then the account row is read. */
  function LockReservation(db: Db, id: nat, seen: Reservation): Session {
    var tx := Release(id);
    if !StillActive(db, id, seen.version) then Done(tx, Err(ReservationConflict)) else
    if seen.key !in db.rows then Done(tx, Err(AccountNotFound)) else
    var applied := Apply(db.rows[seen.key], 0, -seen.amount);
    if applied.Err? then Done(tx, Err(applied.error)) else RowRead(tx, 0, seen.amount, seen.key, db.rows[seen.key])
  }

  /** The guarded write. All values come from the snapshot, none is read again. A plain update may retry. */
  function Write(db: Db, s: Session): Result<Db, Session>
    requires s.RowRead?
  {
    var RowRead(tx, attempt, amount, key, snapshot) := s;
    if key !in db.rows || db.rows[key].version != snapshot.version then
      Err(if tx.Update? && attempt < MAX_RETRIES - 1 then Ready(tx, attempt + 1) else Done(tx, Err(NoRowsAffected)))
    else
      match tx
      case Update(u) =>
        var checked := CheckUpdate(u, snapshot);
        if checked.Err? then Err(Done(tx, Err(checked.error)))
        else Ok(db.(rows := db.rows[key := checked.value], journal := db.journal + [Entry(u, snapshot, checked.value)]))
      case Create(_, _, expiresAt) =>
        var applied := Apply(snapshot, 0, amount);
        if applied.Err? then Err(Done(tx, Err(applied.error)))
        else Ok(db.(rows := db.rows[key := applied.value],
                    reservations := db.reservations + [Reservation(key, amount, Active, expiresAt, 0)]))
      case Release(id) =>
        var applied := Apply(snapshot, 0, -amount);
        if id >= |db.reservations| || !db.reservations[id].status.Active? then Err(Done(tx, Err(ReservationConflict)))
        else if applied.Err? then Err(Done(tx, Err(applied.error)))
        else
          var r := db.reservations[id];
          Ok(db.(rows := db.rows[key := applied.value],
                 reservations := db.reservations[id := r.(status := Released, version := r.version + 1)]))
      case Expire(_) => Err(Done(tx, Err(InvalidAmount)))
  }

  function Run(w: World, steps: seq<Step>): World {
    if steps == [] then w else Next(Run(w, steps[..|steps| - 1]), steps[|steps| - 1])
  }

  // ---------- The invariant of the protocol ----------

  /** A snapshot is never ahead of the row, and a snapshot of the current version is the current row. */
  ghost predicate Behind(db: Db, key: Key, snapshot: Account) {
    key in db.rows && snapshot.version <= db.rows[key].version &&
    (snapshot.version == db.rows[key].version ==> snapshot == db.rows[key])
  }

  ghost predicate Known(db: Db, id: nat, key: Key, amount: int) {
    id < |db.reservations| && db.reservations[id].key == key && db.reservations[id].amount == amount
  }

  ghost predicate SessionOk(db: Db, s: Session) {
    match s
    case Ready(_, attempt) => attempt < MAX_RETRIES
    case ReservationRead(id, seen) => Known(db, id, seen.key, seen.amount)
    case RowRead(tx, attempt, amount, key, snapshot) =>
      attempt < MAX_RETRIES && Behind(db, key, snapshot) &&
      (match tx
       case Update(u) => key == u.key && CheckUpdate(u, snapshot).Ok?
       case Create(k, n, _) => key == k && amount == n && amount > 0 && Apply(snapshot, 0, amount).Ok?
       case Release(id) => Known(db, id, key, amount) && Apply(snapshot, 0, -amount).Ok?
       case Expire(_) => false)
    case Done(_, _) => true
  }

  function UpdatesOf(log: seq<Tx>): seq<BalanceUpdate> {
    if log == [] then []
    else
      var earlier := UpdatesOf(log[..|log| - 1]);
      if log[|log| - 1].Update? then earlier + [log[|log| - 1].update] else earlier
  }

  /** Each transaction succeeds where its turn comes. */
  ghost predicate Succeeds(db: Db, log: seq<Tx>) {
    log == [] ||
    (Succeeds(db, log[..|log| - 1]) && Exec(Serial(db, log[..|log| - 1]), log[|log| - 1]).Ok?)
  }

  predicate Succeeded(w: World, client: nat) {
    client in w.sessions && w.sessions[client].Done? && w.sessions[client].result.Ok?
  }

  /** Its commit was reported as failed, whether it took effect or not. */
  predicate Uncertain(w: World, client: nat) {
    client in w.sessions && w.sessions[client].Done? && w.sessions[client].result == Err(CommitFailed)
  }

  predicate Finished(w: World, client: nat) { client in w.sessions && w.sessions[client].Done? }

  ghost predicate Counted(w: World, a: nat) {
    w.commits[a] <= 1 && (Succeeded(w, a) ==> w.commits[a] == 1) &&
    (w.commits[a] == 1 ==> Succeeded(w, a) || Uncertain(w, a))
  }

  ghost predicate Replayed(db: Db, w: World) {
    w.db == Serial(db, w.log) && Succeeds(db, w.log)
  }

  ghost predicate SessionsOk(w: World) {
    (forall a :: a in w.sessions ==> SessionOk(w.db, w.sessions[a])) &&
    forall a :: Counted(w, a)
  }

  ghost predicate AllPublished(w: World) {
    multiset(w.published) + multiset(w.pending) + multiset(w.silent) == multiset(UpdatesOf(w.log))
  }

  ghost predicate Inv(db: Db, w: World) {
    Replayed(db, w) && SessionsOk(w) && AllPublished(w)
  }

  lemma UpdatesSnoc(log: seq<Tx>, tx: Tx)
    ensures UpdatesOf(log + [tx]) == if tx.Update? then UpdatesOf(log) + [tx.update] else UpdatesOf(log)
  {
    assert (log + [tx])[..|log|] == log;
  }

  lemma SerialSnoc(db: Db, log: seq<Tx>, tx: Tx)
    requires Succeeds(db, log) && Exec(Serial(db, log), tx).Ok?
    ensures Serial(db, log + [tx]) == Exec(Serial(db, log), tx).value && Succeeds(db, log + [tx])
  {
    assert (log + [tx])[..|log|] == log;
  }

  lemma SessionOkAdvances(before: Db, after: Db, s: Session)
    requires SessionOk(before, s) && RowsAdvance(before, after) && ReservationsAdvance(before, after)
    ensures SessionOk(after, s)
  {
  }

  ghost predicate NoSuccess(s: Session) { s.Done? ==> s.result.Err? }

  lemma ReadOk(db: Db, tx: Tx, attempt: nat)
    requires attempt < MAX_RETRIES
    ensures SessionOk(db, Read(db, tx, attempt)) && NoSuccess(Read(db, tx, attempt))
  {
  }

  lemma LockOk(db: Db, id: nat, seen: Reservation)
    requires Known(db, id, seen.key, seen.amount)
    ensures SessionOk(db, LockReservation(db, id, seen)) && NoSuccess(LockReservation(db, id, seen))
  {
  }

  /**
   The heart of the matter: a write that passes its guards is the whole transaction executed atomically
   at that moment, whatever happened since the snapshot was taken.
   */
  lemma WriteIsExec(db: Db, s: Session)
    requires s.RowRead? && SessionOk(db, s)
    ensures Write(db, s).Ok? ==> Exec(db, s.tx) == Ok(Write(db, s).value)
    ensures Write(db, s).Err? ==> SessionOk(db, Write(db, s).error) && NoSuccess(Write(db, s).error)
  {
    if s.snapshot.version == db.rows[s.key].version { assert s.snapshot == db.rows[s.key]; }
  }

  lemma MoveKeepsInv(db: Db, w: World, a: nat, s: Session)
    requires Inv(db, w) && !Finished(w, a) && SessionOk(w.db, s) && NoSuccess(s)
    ensures Inv(db, Move(w, a, s))
  {
    forall b ensures Counted(Move(w, a, s), b) {
      assert Counted(w, b);
    }
  }

  lemma CommitKeepsInv(db: Db, w: World, a: nat, tx: Tx, acknowledged: bool)
    requires Inv(db, w) && !Finished(w, a) && Exec(w.db, tx).Ok?
    ensures Inv(db, Committed(w, a, tx, Exec(w.db, tx).value, acknowledged))
  {
    var w' := Committed(w, a, tx, Exec(w.db, tx).value, acknowledged);
    assert Replayed(db, w') by { SerialSnoc(db, w.log, tx); }
    assert AllPublished(w') by { UpdatesSnoc(w.log, tx); }
    CommitKeepsSessions(w, a, tx, acknowledged);
  }

  lemma CommitKeepsSessions(w: World, a: nat, tx: Tx, acknowledged: bool)
    requires SessionsOk(w) && !Finished(w, a) && Exec(w.db, tx).Ok?
    ensures SessionsOk(Committed(w, a, tx, Exec(w.db, tx).value, acknowledged))
  {
    var w' := Committed(w, a, tx, Exec(w.db, tx).value, acknowledged);
    ExecAdvances(w.db, tx);
    forall b | b in w'.sessions ensures SessionOk(w'.db, w'.sessions[b]) {
      if b != a { SessionOkAdvances(w.db, w'.db, w.sessions[b]); }
    }
    forall b ensures Counted(w', b) {
      assert Counted(w, b);
    }
  }

  lemma AdvanceKeepsInv(db: Db, w: World, a: nat, commit: Commit)
    requires Inv(db, w) && a in w.sessions && !w.sessions[a].Done?
    ensures Inv(db, Next(w, Advance(a, commit)))
  {
    var s := w.sessions[a];
    assert SessionOk(w.db, s);
    match s
    case Ready(tx, attempt) =>
      ReadOk(w.db, tx, attempt);
      MoveKeepsInv(db, w, a, Read(w.db, tx, attempt));
    case ReservationRead(id, seen) =>
      LockOk(w.db, id, seen);
      MoveKeepsInv(db, w, a, LockReservation(w.db, id, seen));
    case RowRead(_, _, _, _, _) =>
      WriteIsExec(w.db, s);
      if Write(w.db, s).Err? {
        MoveKeepsInv(db, w, a, Write(w.db, s).error);
      } else if commit.RolledBack? {
        MoveKeepsInv(db, w, a, Done(s.tx, Err(CommitFailed)));
      } else {
        CommitKeepsInv(db, w, a, s.tx, commit.Acknowledged?);
      }
  }

  lemma PublishKeepsInv(db: Db, w: World, i: nat)
    requires Inv(db, w) && i < |w.pending|
    ensures Inv(db, Next(w, Publish(i)))
  {
    var w' := Next(w, Publish(i));
    assert AllPublished(w') by { WithoutMultiset(w.pending, i); }
    forall b ensures Counted(w', b) {
      assert Counted(w, b);
    }
  }

  lemma ExpiryKeepsInv(db: Db, w: World, now: int)
    requires Inv(db, w)
    ensures Inv(db, Next(w, RunExpiry(now)))
  {
    var w' := Next(w, RunExpiry(now));
    assert Replayed(db, w') by { SerialSnoc(db, w.log, Expire(now)); }
    assert AllPublished(w') by { UpdatesSnoc(w.log, Expire(now)); }
    ExecAdvances(w.db, Expire(now));
    forall b | b in w.sessions ensures SessionOk(w'.db, w.sessions[b]) {
      SessionOkAdvances(w.db, w'.db, w.sessions[b]);
    }
    forall b ensures Counted(w', b) {
      assert Counted(w, b);
    }
  }

  lemma NextKeepsInv(db: Db, w: World, step: Step)
    requires Inv(db, w)
    ensures Inv(db, Next(w, step))
  {
    match step
    case Advance(a, commit) => if a in w.sessions && !w.sessions[a].Done? { AdvanceKeepsInv(db, w, a, commit); }
    case RunExpiry(now) => ExpiryKeepsInv(db, w, now);
    case Publish(i) => if i < |w.pending| { PublishKeepsInv(db, w, i); }
    case Start(a, tx) => if a !in w.sessions && !tx.Expire? { MoveKeepsInv(db, w, a, Ready(tx, 0)); }
  }

  lemma {:induction false} RunKeepsInv(db: Db, steps: seq<Step>)
    ensures Inv(db, Run(Begin(db), steps))
  {
    if steps != [] {
      RunKeepsInv(db, steps[..|steps| - 1]);
      NextKeepsInv(db, Run(Begin(db), steps[..|steps| - 1]), steps[|steps| - 1]);
    }
  }

  // ---------- What every interleaving guarantees ----------

  /**
   Serializability: whatever the interleaving, the database is the one that the committed
   transactions produce when executed one after another in commit order, and each of them succeeds there.
   */
  lemma Serializable(db: Db, steps: seq<Step>)
    ensures var w := Run(Begin(db), steps);
      w.db == Serial(db, w.log) && Succeeds(db, w.log)
  {
    RunKeepsInv(db, steps);
  }

  /**
   No command takes effect twice, retries included; one that reports success has taken effect, and one that has
   and does not is one whose commit was reported as failed. An error of any other kind means no effect.
   */
  lemma ExactlyOnce(db: Db, steps: seq<Step>, client: nat)
    ensures var w := Run(Begin(db), steps);
      w.commits[client] <= 1 && (Succeeded(w, client) ==> w.commits[client] == 1) &&
      (w.commits[client] == 1 ==> Succeeded(w, client) || Uncertain(w, client))
  {
    RunKeepsInv(db, steps);
    assert Counted(Run(Begin(db), steps), client);
  }

  /** No update is lost: every row is its first value plus all committed deltas, in every interleaving. */
  lemma NoLostUpdates(db: Db, steps: seq<Step>, key: Key)
    requires key in db.rows && SoundRows(db)
    ensures var w := Run(Begin(db), steps);
      key in w.db.rows && w.db.rows[key].Sound() &&
      w.db.rows[key].balance == db.rows[key].balance + PlainTotals(db, w.log, key).0 &&
      w.db.rows[key].version == db.rows[key].version + Commits(db, w.log, key) &&
      Slack(w.db, key) == Slack(db, key) + PlainTotals(db, w.log, key).1
  {
    Serializable(db, steps);
    SerialAdvances(db, Run(Begin(db), steps).log);
    Conservation(db, Run(Begin(db), steps).log, key);
  }

  // ---------- Releases ----------

  ghost predicate LocksOnlyUp(steps: seq<Step>) {
    forall i :: 0 <= i < |steps| && steps[i].Start? && steps[i].tx.Update? ==> steps[i].tx.update.lockedDelta >= 0
  }

  ghost predicate UpdateLocksUp(tx: Tx) {
    tx.Update? ==> tx.update.lockedDelta >= 0
  }

  ghost predicate ReleasesFunded(w: World) {
    (forall i :: 0 <= i < |w.log| ==> UpdateLocksUp(w.log[i])) &&
    forall a :: a in w.sessions ==> SessionFunded(w.sessions[a])
  }

  ghost predicate SessionFunded(s: Session) {
    (s.Ready? || s.RowRead? ==> UpdateLocksUp(s.tx)) &&
    (s.Done? && s.tx.Release? ==> s.result != Err(InsufficientFunds))
  }

  lemma {:induction false} PlainLocksNonNegative(db: Db, log: seq<Tx>, key: Key)
    requires forall i :: 0 <= i < |log| ==> UpdateLocksUp(log[i])
    ensures PlainTotals(db, log, key).1 >= 0
  {
    if log != [] { PlainLocksNonNegative(db, log[..|log| - 1], key); }
  }

  lemma LockFunded(db: Db, log: seq<Tx>, id: nat, seen: Reservation)
    requires SoundRows(db) && PositiveAmounts(db) && forall k :: k in db.rows ==> Slack(db, k) >= 0
    requires forall i :: 0 <= i < |log| ==> UpdateLocksUp(log[i])
    requires Known(Serial(db, log), id, seen.key, seen.amount)
    ensures SessionFunded(LockReservation(Serial(db, log), id, seen))
  {
    var now := Serial(db, log);
    SerialAdvances(db, log);
    if StillActive(now, id, seen.version) && seen.key in now.rows {
      PlainLocksNonNegative(db, log, seen.key);
      ReleaseSucceeds(db, log, id);
    }
  }

  lemma WriteFunded(db: Db, s: Session)
    requires s.RowRead? && SessionOk(db, s) && SessionFunded(s)
    ensures Write(db, s).Err? ==> SessionFunded(Write(db, s).error)
  {
  }

  lemma ReadFunded(db: Db, tx: Tx, attempt: nat)
    requires UpdateLocksUp(tx)
    ensures SessionFunded(Read(db, tx, attempt))
  {
  }

  lemma MoveFunded(w: World, a: nat, s: Session)
    requires ReleasesFunded(w) && SessionFunded(s)
    ensures ReleasesFunded(Move(w, a, s))
  {
  }

  lemma CommittedFunded(w: World, a: nat, tx: Tx, db': Db, acknowledged: bool)
    requires ReleasesFunded(w) && UpdateLocksUp(tx)
    ensures ReleasesFunded(Committed(w, a, tx, db', acknowledged))
  {
  }

  lemma AdvanceKeepsFunded(db: Db, w: World, a: nat, commit: Commit)
    requires Inv(db, w) && SoundRows(db) && PositiveAmounts(db) && forall k :: k in db.rows ==> Slack(db, k) >= 0
    requires ReleasesFunded(w) && a in w.sessions
    ensures ReleasesFunded(Advanced(w, a, w.sessions[a], commit))
  {
    var s := w.sessions[a];
    assert SessionFunded(s) && SessionOk(w.db, s);
    match s
    case Ready(tx, attempt) =>
      ReadFunded(w.db, tx, attempt);
      MoveFunded(w, a, Read(w.db, tx, attempt));
    case ReservationRead(id, seen) =>
      LockFunded(db, w.log, id, seen);
      MoveFunded(w, a, LockReservation(w.db, id, seen));
    case RowRead(tx, _, _, _, _) =>
      WriteFunded(w.db, s);
      var r := Write(w.db, s);
      if r.Err? {
        MoveFunded(w, a, r.error);
      } else if commit.RolledBack? {
        MoveFunded(w, a, Done(tx, Err(CommitFailed)));
      } else {
        CommittedFunded(w, a, tx, r.value, commit.Acknowledged?);
      }
    case Done(_, _) =>
  }

  /**
   Starting from rows whose locked funds cover their reservations, and with plain updates that never
   lower the locked total, no release in any interleaving is refused for insufficient funds.
   */
  lemma {:induction false} ReleaseNeverShort(db: Db, steps: seq<Step>)
    requires SoundRows(db) && PositiveAmounts(db) && LocksOnlyUp(steps)
    requires forall k :: k in db.rows ==> Slack(db, k) >= 0
    ensures ReleasesFunded(Run(Begin(db), steps))
  {
    if steps != [] {
      var n := |steps| - 1;
      ReleaseNeverShort(db, steps[..n]);
      RunKeepsInv(db, steps[..n]);
      var w := Run(Begin(db), steps[..n]);
      if steps[n].Advance? && steps[n].client in w.sessions {
        AdvanceKeepsFunded(db, w, steps[n].client, steps[n].commit);
      }
    }
  }

  // ---------- Reservations ----------

  lemma StepAdvances(db: Db, w: World, step: Step)
    requires Inv(db, w)
    ensures ReservationsAdvance(w.db, Next(w, step).db)
  {
    match step
    case Advance(a, _) =>
      if a in w.sessions && w.sessions[a].RowRead? {
        var s := w.sessions[a];
        assert SessionOk(w.db, s);
        WriteIsExec(w.db, s);
        ExecAdvances(w.db, s.tx);
      }
    case RunExpiry(now) => ExecAdvances(w.db, Expire(now));
    case _ =>
  }

  /**
   From any point of a run on, a reservation that has left `active` stays as it is, and no owner or amount
   changes.
   */
  lemma {:induction false} ReservationsOnlyEnd(db: Db, w: World, steps: seq<Step>)
    requires Inv(db, w)
    ensures ReservationsAdvance(w.db, Run(w, steps).db) && Inv(db, Run(w, steps))
  {
    if steps != [] {
      var n := |steps| - 1;
      ReservationsOnlyEnd(db, w, steps[..n]);
      NextKeepsInv(db, Run(w, steps[..n]), steps[n]);
      StepAdvances(db, Run(w, steps[..n]), steps[n]);
    }
  }

  // ---------- Expiry ----------

  /** This step of the run ends the reservation, since its time is past. */
  ghost predicate ExpiresAt(db: Db, steps: seq<Step>, k: nat, i: nat) {
    k < |steps| && steps[k].RunExpiry? &&
    var rs := Run(Begin(db), steps[..k]).db.reservations;
    i < |rs| && rs[i].status == Active && rs[i].expiresAt.Some? && rs[i].expiresAt.value < steps[k].now
  }

  predicate IsExpired(db: Db, i: nat) { i < |db.reservations| && db.reservations[i].status == Status.Expired }

  /** Only a cleanup ends a reservation that way. */
  lemma OthersNeverExpire(w: World, step: Step, i: nat)
    requires !step.RunExpiry?
    ensures IsExpired(Next(w, step).db, i) ==> IsExpired(w.db, i)
  {
    if step.Advance? && step.client in w.sessions && w.sessions[step.client].RowRead? {
      WriteNeverExpires(w.db, w.sessions[step.client], i);
    }
  }

  lemma WriteNeverExpires(db: Db, s: Session, i: nat)
    requires s.RowRead?
    ensures Write(db, s).Ok? && IsExpired(Write(db, s).value, i) ==> IsExpired(db, i)
  {
  }

  lemma RunExpires(w: World, now: int, i: nat)
    ensures IsExpired(Next(w, RunExpiry(now)).db, i) <==>
      IsExpired(w.db, i) ||
      (i < |w.db.reservations| &&
       var r := w.db.reservations[i]; r.status == Active && r.expiresAt.Some? && r.expiresAt.value < now)
  {
    ExpireOutcome(w.db, now);
    if i < |w.db.reservations| {
      assert Expires(w.db.reservations[i], Exec(w.db, Expire(now)).value.reservations[i], now);
    }
  }

  lemma StepExpires(db: Db, steps: seq<Step>, i: nat)
    requires steps != []
    ensures var n := |steps| - 1;
      IsExpired(Run(Begin(db), steps).db, i) <==>
        IsExpired(Run(Begin(db), steps[..n]).db, i) || ExpiresAt(db, steps, n, i)
  {
    var n := |steps| - 1;
    var w := Run(Begin(db), steps[..n]);
    if steps[n].RunExpiry? {
      RunExpires(w, steps[n].now, i);
    } else {
      OthersNeverExpire(w, steps[n], i);
      RunKeepsInv(db, steps[..n]);
      StepAdvances(db, w, steps[n]);
    }
  }

  /**
   In every interleaving a reservation ends as expired exactly if it was so from the beginning or some cleanup
   found it active with its time past; a release, or a claim on it, never makes it so.
   */
  lemma {:induction false} ExpiredExactlyWhen(db: Db, steps: seq<Step>, i: nat)
    ensures IsExpired(Run(Begin(db), steps).db, i) <==> IsExpired(db, i) || exists k :: ExpiresAt(db, steps, k, i)
  {
    if steps != [] {
      var n := |steps| - 1;
      ExpiredExactlyWhen(db, steps[..n], i);
      StepExpires(db, steps, i);
      forall k: nat | k < n ensures ExpiresAt(db, steps[..n], k, i) == ExpiresAt(db, steps, k, i) {
        assert steps[..n][..k] == steps[..k];
      }
      if k :| ExpiresAt(db, steps[..n], k, i) { assert ExpiresAt(db, steps, k, i); }
      if k :| ExpiresAt(db, steps, k, i) { assert k == n || ExpiresAt(db, steps[..n], k, i); }
    }
  }

  /** Right after a cleanup no active reservation is past its time. */
  lemma NoneOverdue(db: Db, steps: seq<Step>, now: int)
    ensures var rs := Run(Begin(db), steps + [RunExpiry(now)]).db.reservations;
      forall i :: 0 <= i < |rs| && rs[i].status == Active && rs[i].expiresAt.Some? ==> rs[i].expiresAt.value >= now
  {
    assert (steps + [RunExpiry(now)])[..|steps|] == steps;
    var before := Run(Begin(db), steps).db;
    ExpireOutcome(before, now);
    var rs := Exec(before, Expire(now)).value.reservations;
    forall i | 0 <= i < |rs| && rs[i].status == Active && rs[i].expiresAt.Some? ensures rs[i].expiresAt.value >= now {
      assert Expires(before.reservations[i], rs[i], now);
    }
  }

  // ---------- A client on its own ----------

  /** A command from its start to its end, with nothing in between. */
  function Alone(w: World, a: nat, tx: Tx): World {
    var go := Advance(a, Acknowledged);
    Next(Next(Next(Next(w, Start(a, tx)), go), go), go)
  }

  /** A session that has the row as it is and will commit, or has ended as its transaction would. */
  ghost predicate OnCourse(db: Db, tx: Tx, s: Session) {
    match s
    case RowRead(t, _, _, key, snapshot) => t == tx && SessionOk(db, s) && db.rows[key] == snapshot && Exec(db, tx).Ok?
    case Done(t, r) => t == tx && r.Err? && Exec(db, tx) == Err(r.error)
    case _ => false
  }

  lemma ReadAlone(db: Db, tx: Tx)
    requires !tx.Expire?
    ensures match Read(db, tx, 0)
      case ReservationRead(id, seen) =>
        tx == Release(id) && id < |db.reservations| && seen == db.reservations[id] && seen.status.Active?
      case s => OnCourse(db, tx, s)
  {
  }

  lemma LockAlone(db: Db, id: nat)
    requires id < |db.reservations| && db.reservations[id].status.Active?
    ensures OnCourse(db, Release(id), LockReservation(db, id, db.reservations[id]))
  {
  }

  lemma WriteAlone(w: World, a: nat, tx: Tx)
    requires a in w.sessions && OnCourse(w.db, tx, w.sessions[a])
    ensures var t := Next(w, Advance(a, Acknowledged)); var r := Exec(w.db, tx);
      a in t.sessions && t.sessions[a] == Done(tx, if r.Ok? then Ok(()) else Err(r.error)) &&
      t.db == if r.Ok? then r.value else w.db
  {
    var s := w.sessions[a];
    if s.RowRead? {
      WriteIsExec(w.db, s);
      WriteGoesThrough(w.db, s);
    }
  }

  /** With the row as it was read and the reservation still active, nothing refuses the write. */
  lemma WriteGoesThrough(db: Db, s: Session)
    requires s.RowRead? && SessionOk(db, s) && db.rows[s.key] == s.snapshot && Exec(db, s.tx).Ok?
    ensures Write(db, s).Ok?
  {
  }

  /** Undisturbed, a client ends as the transaction does that is executed at once, errors included. */
  lemma AloneIsExec(w: World, a: nat, tx: Tx)
    requires a !in w.sessions && !tx.Expire?
    ensures var end := Alone(w, a, tx); var r := Exec(w.db, tx);
      a in end.sessions && end.sessions[a] == Done(tx, if r.Ok? then Ok(()) else Err(r.error)) &&
      end.db == if r.Ok? then r.value else w.db
  {
    var go := Advance(a, Acknowledged);
    var started := Next(w, Start(a, tx));
    var read := Next(started, go);
    ReadAlone(w.db, tx);
    assert read.db == w.db && read.sessions[a] == Read(w.db, tx, 0);
    if read.sessions[a].ReservationRead? {
      LockAlone(w.db, tx.id);
      WriteAlone(Next(read, go), a, tx);
    } else {
      WriteAlone(read, a, tx);
    }
  }

  /**
   A commit changes the database unless it is rolled back; it is reported as a success exactly if it is
   acknowledged, and only then is an update left to be published.
   */
  lemma CommitReports(w: World, a: nat, commit: Commit)
    requires a in w.sessions && w.sessions[a].RowRead? && Write(w.db, w.sessions[a]).Ok?
    ensures var s, t := w.sessions[a], Next(w, Advance(a, commit));
      t.db == (if commit == RolledBack then w.db else Write(w.db, s).value) &&
      t.sessions[a] == Done(s.tx, if commit == Acknowledged then Ok(()) else Err(CommitFailed)) &&
      t.log == (if commit == RolledBack then w.log else w.log + [s.tx]) &&
      t.published == w.published &&
      t.pending == (if commit == Acknowledged && s.tx.Update? then w.pending + [s.tx.update] else w.pending) &&
      t.silent == (if commit == Unacknowledged && s.tx.Update? then w.silent + [s.tx.update] else w.silent)
  {
  }

  /** An update that waits is published once, whichever of them is next. */
  lemma PublishMoves(w: World, i: nat)
    requires i < |w.pending|
    ensures var t := Next(w, Publish(i));
      t.published == w.published + [w.pending[i]] && t.pending == w.pending[..i] + w.pending[i + 1..] &&
      t == w.(published := t.published, pending := t.pending)
  {
  }

  /** A release goes on to its account only if the reservation is still active, at the version first seen. */
  lemma LockRefuses(db: Db, id: nat, seen: Reservation)
    ensures LockReservation(db, id, seen) == Done(Release(id), Err(ReservationConflict)) <==>
      !(id < |db.reservations| && db.reservations[id].status == Active && db.reservations[id].version == seen.version)
  {
  }

  // ---------- Retries ----------

  /** The client is about to write, and the row is no longer the one it has read. */
  predicate Overtaken(w: World, a: nat) {
    a in w.sessions && w.sessions[a].RowRead? &&
    (w.sessions[a].key !in w.db.rows || w.db.rows[w.sessions[a].key].version != w.sessions[a].snapshot.version)
  }

  /** How many guarded writes of a client have met another version. */
  function RacesLost(db: Db, steps: seq<Step>, a: nat): nat {
    if steps == [] then 0
    else
      var n := |steps| - 1;
      RacesLost(db, steps[..n], a) +
      if steps[n].Advance? && steps[n].client == a && Overtaken(Run(Begin(db), steps[..n]), a) then 1 else 0
  }

  ghost predicate Tried(w: World, a: nat, races: nat) {
    if a !in w.sessions then races == 0
    else
      match w.sessions[a]
      case Ready(tx, attempt) => races == attempt && (tx.Update? || races == 0)
      case ReservationRead(_, _) => races == 0
      case RowRead(tx, attempt, _, _, _) => races == attempt && (tx.Update? || races == 0)
      case Done(tx, r) =>
        (r == Err(NoRowsAffected) <==> races == if tx.Update? then 3 else 1) && (tx.Update? ==> races <= 3) &&
        (!tx.Update? ==> races <= 1)
  }

  /** A lost race is tried again up to the third; and nothing else ends as one. */
  lemma WriteTried(db: Db, s: Session)
    requires s.RowRead? && SessionOk(db, s)
    ensures var lost := s.key !in db.rows || db.rows[s.key].version != s.snapshot.version; var r := Write(db, s);
      if !lost then r.Err? ==> r.error.Done? && r.error.tx == s.tx && r.error.result != Err(NoRowsAffected)
      else
        r == Err(if s.tx.Update? && s.attempt < 2 then Ready(s.tx, s.attempt + 1) else Done(s.tx, Err(NoRowsAffected)))
  {
  }

  lemma NextTried(w: World, step: Step, a: nat, races: nat)
    requires Tried(w, a, races) && (a in w.sessions ==> SessionOk(w.db, w.sessions[a]))
    ensures Tried(Next(w, step), a, races + if step.Advance? && step.client == a && Overtaken(w, a) then 1 else 0)
  {
    if step.Advance? && step.client == a && a in w.sessions {
      if w.sessions[a].RowRead? { WriteTried(w.db, w.sessions[a]); }
    } else {
      assert a in w.sessions ==> a in Next(w, step).sessions && Next(w, step).sessions[a] == w.sessions[a];
    }
  }

  lemma {:induction false} RunTried(db: Db, steps: seq<Step>, a: nat)
    ensures Tried(Run(Begin(db), steps), a, RacesLost(db, steps, a))
  {
    if steps != [] {
      var n := |steps| - 1;
      RunTried(db, steps[..n], a);
      RunKeepsInv(db, steps[..n]);
      NextTried(Run(Begin(db), steps[..n]), steps[n], a, RacesLost(db, steps[..n], a));
    }
  }

  /** A client ends with a lost race exactly if its plain update lost three, or its command of another kind one. */
  lemma GivesUpExactlyWhen(db: Db, steps: seq<Step>, a: nat)
    requires var w := Run(Begin(db), steps); Finished(w, a)
    ensures var s := Run(Begin(db), steps).sessions[a]; var races := RacesLost(db, steps, a);
      (s.result == Err(NoRowsAffected) <==> races == if s.tx.Update? then 3 else 1) && races <= 3
  {
    RunTried(db, steps, a);
  }
}
