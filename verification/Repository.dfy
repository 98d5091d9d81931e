/**
 The repository over its tables. Each method runs one client's statements; the statements other
 clients commit between its read and its guarded write are passed in as `rivals`.
 */
module AccountRepository {
  import opened Prelude
  import opened Ledger

  /** The transactions of several rounds, one after another. */
  function Flat(rounds: seq<seq<Tx>>): seq<Tx> {
    if rounds == [] then [] else Flat(rounds[..|rounds| - 1]) + rounds[|rounds| - 1]
  }

  lemma {:induction false} SerialConcat(db: Db, xs: seq<Tx>, ys: seq<Tx>)
    ensures Serial(db, xs + ys) == Serial(Serial(db, xs), ys)
  {
    if ys == [] {
      assert xs + ys == xs;
    } else {
      SerialConcat(db, xs, ys[..|ys| - 1]);
      assert (xs + ys)[..|xs + ys| - 1] == xs + ys[..|ys| - 1];
    }
  }

  lemma {:induction false} RoundWithinFlat(rounds: seq<seq<Tx>>, i: nat)
    requires i < |rounds|
    ensures |rounds[i]| <= |Flat(rounds)|
  {
    if i < |rounds| - 1 { RoundWithinFlat(rounds[..|rounds| - 1], i); }
  }

  lemma OneMoreRound(db: Db, rounds: seq<seq<Tx>>, n: nat)
    requires n < |rounds|
    ensures Serial(db, Flat(rounds[..n + 1])) == Serial(Serial(db, Flat(rounds[..n])), rounds[n])
  {
    assert rounds[..n + 1][..n] == rounds[..n];
    SerialConcat(db, Flat(rounds[..n]), rounds[n]);
  }

  /**
   What an attempt comes to when rivals commit between its read and its guarded write: the error the first read
   meets, or the update executed on the state they left, or a lost race that leaves only their work.
   */
  ghost predicate Attempted(start: Db, u: BalanceUpdate, rivals: seq<Tx>, r: Result<(), Error>, end: Db) {
    var mid := Serial(start, rivals);
    match Exec(start, Update(u))
    case Err(e) => r == Err(e) && end == start
    case Ok(_) =>
      if u.key in mid.rows && mid.rows[u.key] == start.rows[u.key]
      then r.Ok? && Exec(mid, Update(u)) == Ok(end)
      else r == Err(NoRowsAffected) && end == mid && rivals != []
  }

  /** The rivals of a round wrote the row. */
  ghost predicate Overtaken(start: Db, key: Key, rounds: seq<seq<Tx>>, i: nat)
    requires i < |rounds|
  {
    var before, after := Serial(start, Flat(rounds[..i])), Serial(start, Flat(rounds[..i + 1]));
    key in before.rows && key in after.rows && after.rows[key].version > before.rows[key].version
  }

  /** After n lost races only the rivals' work is left, and in every round they wrote the row. */
  ghost predicate LostRaces(start: Db, key: Key, rounds: seq<seq<Tx>>, n: nat, end: Db) {
    n <= |rounds| && end == Serial(start, Flat(rounds[..n])) &&
    forall i :: 0 <= i < n ==> Overtaken(start, key, rounds, i)
  }

  /**
   How an update ends that made n attempts, each after the first because rivals wrote the row in the one before.
   Success means that they did not in the last, and that the update took effect on the state that the rivals of
   these attempts left behind, as if it had run alone there. It gives up only when they wrote the row in every
   attempt, and leaves only their work; every other error is the one the update would meet on its own, and nothing
   of it remains.
   */
  ghost predicate Ended(start: Db, u: BalanceUpdate, rounds: seq<seq<Tx>>, n: nat, r: Result<(), Error>, end: Db) {
    1 <= n <= |rounds| && (forall i :: 0 <= i < n - 1 ==> Overtaken(start, u.key, rounds, i)) &&
    (r.Ok? ==>
      !Overtaken(start, u.key, rounds, n - 1) && Exec(Serial(start, Flat(rounds[..n])), Update(u)) == Ok(end)) &&
    (r == Err(NoRowsAffected) ==>
      n == |rounds| && Overtaken(start, u.key, rounds, n - 1) && end == Serial(start, Flat(rounds))) &&
    (r.Err? && r.error != NoRowsAffected ==>
      end == Serial(start, Flat(rounds[..n - 1])) && Exec(end, Update(u)) == Err(r.error))
  }

  /** One attempt more, after the rivals of the earlier ones. */
  lemma AttemptOutcome(start: Db, u: BalanceUpdate, rounds: seq<seq<Tx>>, n: nat,
                       before: Db, r: Result<(), Error>, end: Db)
    requires n < |rounds| && LostRaces(start, u.key, rounds, n, before) && Attempted(before, u, rounds[n], r, end)
    ensures if r == Err(NoRowsAffected) then LostRaces(start, u.key, rounds, n + 1, end)
      else Ended(start, u, rounds, n + 1, r, end)
  {
    AloneNeverLoses(before, u);
    OneMoreRound(start, rounds, n);
    SerialAdvances(before, rounds[n]);
  }

  lemma AllRacesLost(start: Db, u: BalanceUpdate, rounds: seq<seq<Tx>>, end: Db)
    requires rounds != [] && LostRaces(start, u.key, rounds, |rounds|, end)
    ensures Ended(start, u, rounds, |rounds|, Err(NoRowsAffected), end)
  {
    assert rounds[..|rounds|] == rounds;
  }

  lemma AloneNeverLoses(db: Db, u: BalanceUpdate)
    ensures Exec(db, Update(u)) != Err(NoRowsAffected)
  {
  }

  /** Three attempts with no rivals. */
  function NoRivals(): (r: seq<seq<Tx>>)
    ensures |r| == MAX_RETRIES && Flat(r) == [] && Flat(r[..1]) == [] && Flat(r[..0]) == []
    ensures forall n :: 0 <= n < MAX_RETRIES ==> r[n] == []
  {
    var r: seq<seq<Tx>> := [[], [], []];
    assert r[..2] == [[], []] && r[..2][..1] == [[]] && r[..2][..1][..0] == [];
    assert Flat([]) == [] && Flat(r[..2][..1]) == [] && Flat(r[..2]) == [] && r[..2][..1] == r[..1];
    r
  }

  /** The positions at which two tables differ. */
  ghost function Changed(before: seq<Reservation>, after: seq<Reservation>): set<int>
    requires |before| == |after|
  {
    set i | 0 <= i < |before| && before[i] != after[i]
  }

  lemma ChangedOne(before: seq<Reservation>, after: seq<Reservation>, i: nat, r: Reservation)
    requires |before| == |after| && i < |before| && after[i] == before[i] && r != before[i]
    ensures |Changed(before, after[i := r])| == |Changed(before, after)| + 1
  {
    assert Changed(before, after[i := r]) == Changed(before, after) + {i};
  }

  class Repository {
    var rows: map<Key, Account>
    var reservations: seq<Reservation>
    var journal: seq<JournalEntry>

    constructor (rows: map<Key, Account>)
      ensures View() == Db(rows, [], [])
    {
      this.rows, reservations, journal := rows, [], [];
    }

    ghost function View(): Db
      reads this
    {
      Db(rows, reservations, journal)
    }

    /** Read, check, compute, guarded write and journal entry; `rivals` commit before the guarded write. */
    method PerformBalanceUpdate(u: BalanceUpdate, rivals: seq<Tx>) returns (r: Result<(), Error>)
      modifies this
      ensures Attempted(old(View()), u, rivals, r, View())
      decreases |rivals|, 2
    {
      if u.key !in rows { return Err(AccountNotFound); }
      var account := rows[u.key];
      if u.expectedVersion > 0 && account.version != u.expectedVersion { return Err(VersionMismatch); }
      var newBalance := account.balance + u.balanceDelta;
      var newLocked := account.locked + u.lockedDelta;
      var newAvailable := newBalance - newLocked;
      if newBalance < 0 || newAvailable < 0 || newLocked < 0 { return Err(InsufficientFunds); }

      ExecuteAll(rivals);
      SerialAdvances(old(View()), rivals);

      if rows[u.key].version != account.version { return Err(NoRowsAffected); }
      rows := rows[u.key := Account(newBalance, newAvailable, newLocked, rows[u.key].version + 1)];
      journal := journal + [JournalEntry(u.key, u.balanceDelta, account.balance, newBalance,
                                         account.available, newAvailable, account.locked, newLocked)];
      return Ok(());
    }

    /** Up to three attempts. */
    method UpdateBalanceAtomic(u: BalanceUpdate, rivals: seq<seq<Tx>>)
      returns (r: Result<(), Error>, ghost attempts: nat)
      requires |rivals| == MAX_RETRIES
      modifies this
      ensures Ended(old(View()), u, rivals, attempts, r, View())
      decreases |Flat(rivals)|, 3
    {
      r, attempts := Err(NoRowsAffected), 0;
      ghost var start := View();
      assert rivals[..0] == [];
      for attempt := 0 to MAX_RETRIES
        invariant attempts == attempt && r == Err(NoRowsAffected)
        invariant LostRaces(start, u.key, rivals, attempt, View())
      {
        ghost var before := View();
        RoundWithinFlat(rivals, attempt);
        r := PerformBalanceUpdate(u, rivals[attempt]);
        attempts := attempts + 1;
        AttemptOutcome(start, u, rivals, attempt, before, r, View());
        if r != Err(NoRowsAffected) { return; }
      }
      AllRacesLost(start, u, rivals, View());
    }

    /** The same computation inside a caller's transaction, without a journal entry. */
    method PerformBalanceUpdateInTx(key: Key, balanceDelta: int, lockedDelta: int) returns (r: Result<(), Error>)
      modifies this`rows
      ensures key !in old(rows) ==> r == Err(AccountNotFound) && rows == old(rows)
      ensures key in old(rows) ==>
        match Apply(old(rows)[key], balanceDelta, lockedDelta)
        case Ok(row) => r.Ok? && rows == old(rows)[key := row]
        case Err(e) => r == Err(e) && rows == old(rows)
    {
      if key !in rows { return Err(AccountNotFound); }
      var account := rows[key];
      var newBalance := account.balance + balanceDelta;
      var newLocked := account.locked + lockedDelta;
      var newAvailable := newBalance - newLocked;
      if newBalance < 0 || newAvailable < 0 || newLocked < 0 { return Err(InsufficientFunds); }
      rows := rows[key := Account(newBalance, newAvailable, newLocked, account.version + 1)];
      return Ok(());
    }

    method CreateReservation(key: Key, amount: int, expiresAt: Option<int>) returns (r: Result<(), Error>)
      modifies this
      ensures match Reserve(old(View()), key, amount, expiresAt)
        case Ok(db) => r.Ok? && View() == db
        case Err(e) => r == Err(e) && View() == old(View())
    {
      r := PerformBalanceUpdateInTx(key, 0, amount);
      if r.Err? { return; }
      reservations := reservations + [Reservation(key, amount, Active, expiresAt, 0)];
    }

    /** Status first, then funds; a failed unlock rolls the status back. */
    method ReleaseReservation(id: nat) returns (r: Result<(), Error>)
      modifies this
      ensures match Exec(old(View()), Release(id))
        case Ok(db) => r.Ok? && View() == db
        case Err(e) => r == Err(e) && View() == old(View())
    {
      if id >= |reservations| { return Err(ReservationNotFound); }
      var reservation := reservations[id];
      if !reservation.status.Active? { return Err(ReservationNotActive); }
      var saved := reservations;
      reservations := reservations[id := reservation.(status := Released, version := reservation.version + 1)];
      r := PerformBalanceUpdateInTx(reservation.key, 0, -reservation.amount);
      if r.Err? { reservations := saved; }
    }

    /** One UPDATE over the table; funds stay locked. */
    method CleanupExpiredReservations(now: int) returns (expired: nat)
      modifies this`reservations
      ensures Ok(View()) == Exec(old(View()), Expire(now))
      ensures |reservations| == |old(reservations)|
      ensures forall i :: 0 <= i < |reservations| ==> Expires(old(reservations)[i], reservations[i], now)
      ensures expired == |Changed(old(reservations), reservations)|
    {
      expired := 0;
      ghost var before := reservations;
      assert Changed(before, before) == {};
      for i := 0 to |reservations|
        invariant |reservations| == |before|
        invariant forall j :: 0 <= j < |before| ==>
          reservations[j] == if j < i && Due(before[j], now) then before[j].(status := Expired) else before[j]
        invariant expired == |Changed(before, reservations)|
      {
        if Due(reservations[i], now) {
          ChangedOne(before, reservations, i, reservations[i].(status := Expired));
          reservations := reservations[i := reservations[i].(status := Expired)];
          expired := expired + 1;
        }
      }
      assert reservations == ExpireAll(before, now);
    }

    method ExecuteAll(txs: seq<Tx>)
      modifies this
      ensures View() == Serial(old(View()), txs)
      decreases |txs|, 1
    {
      for i := 0 to |txs|
        invariant View() == Serial(old(View()), txs[..i])
      {
        assert txs[..i + 1][..i] == txs[..i];
        var _ := ExecuteCommand(txs[i]);
      }
      assert txs[..|txs|] == txs;
    }

    /** A validated command, executed with nothing in between. */
    method ExecuteCommand(tx: Tx) returns (r: Result<(), Error>)
      modifies this
      ensures match Exec(old(View()), tx)
        case Ok(db) => r.Ok? && View() == db
        case Err(e) => r == Err(e) && View() == old(View())
      decreases 0, 4
    {
      match tx
      case Update(u) =>
        ghost var attempts;
        r, attempts := UpdateBalanceAtomic(u, NoRivals());
        assert !Overtaken(old(View()), u.key, NoRivals(), 0);
        assert attempts == 1;
      case Create(key, amount, expiresAt) =>
        if amount <= 0 { return Err(InvalidAmount); }
        r := CreateReservation(key, amount, expiresAt);
      case Release(id) => r := ReleaseReservation(id);
      case Expire(now) =>
        var _ := CleanupExpiredReservations(now);
        r := Ok(());
    }
  }
}
