/**
 Queries that fill the caches of one account while commands commit. A client that looks in a cache or
 reads the row holds what it found, and may store that in any cache later: a query does so after a miss,
 and a hit in Redis stores again what it has just read. A command commits, and only then clears the
 caches, one at a time. Anything may come in between. Clients may take their steps in any order, which
 covers the order the queries take them in. A value is told by its version, here the number of commits
 before it.
 */
module FillRace {
  import opened Prelude

  /** The Redis tiers, and the in-memory entries of the account and of its balance. */
  datatype Place = Hot | Warm | Cold | Entry | BalanceEntry

  datatype State = State(row: nat, slots: map<Place, nat>, held: map<nat, nat>)

  datatype Step =
    | LookIn(client: nat, place: Place)
    | ReadRow(client: nat)
    | Store(client: nat, place: Place)
    | Commit(release: bool)
    | Clear(place: Place)
    | Lose(place: Place)

  /** Whether a command clears a cache: a release names neither user nor currency, and misses the in-memory entries. */
  predicate Owes(release: bool, p: Place) { !release || p.Hot? || p.Warm? || p.Cold? }

  function Start(): State { State(0, map[], map[]) }

  function Next(s: State, step: Step): State {
    match step
    case LookIn(c, p) => if p in s.slots then s.(held := s.held[c := s.slots[p]]) else s
    case ReadRow(c) => s.(held := s.held[c := s.row])
    case Store(c, p) => if c in s.held then s.(slots := s.slots[p := s.held[c]]) else s
    case Commit(_) => s.(row := s.row + 1)
    case Clear(p) => s.(slots := s.slots - {p})
    case Lose(p) => s.(slots := s.slots - {p})
  }

  function Run(steps: seq<Step>): State {
    if steps == [] then Start() else Next(Run(steps[..|steps| - 1]), steps[|steps| - 1])
  }

  predicate Stale(s: State, p: Place) { p in s.slots && s.slots[p] != s.row }

  /** The step puts something into a cache, or takes it away. */
  predicate Fills(s: State, step: Step, p: Place) { step.Store? && step.place == p && step.client in s.held }

  predicate Empties(step: Step, p: Place) { step == Clear(p) || step == Lose(p) }

  function Content(s: State, p: Place): Option<nat> { if p in s.slots then Some(s.slots[p]) else None }

  function Holding(s: State, c: nat): Option<nat> { if c in s.held then Some(s.held[c]) else None }

  lemma NextContent(s: State, step: Step, p: Place)
    ensures Content(Next(s, step), p) ==
      if Fills(s, step, p) then Holding(s, step.client) else if Empties(step, p) then None else Content(s, p)
  {
  }

  /** The step makes a client hold what a cache has. */
  predicate Copies(s: State, step: Step, c: nat) { step.LookIn? && step.client == c && step.place in s.slots }

  lemma NextHolding(s: State, step: Step, c: nat)
    ensures Holding(Next(s, step), c) ==
      if Copies(s, step, c) then Content(s, step.place)
      else if step == ReadRow(c) then Some(s.row)
      else Holding(s, c)
  {
  }

  // ---------- Where a value comes from ----------

  /** The position of the read of the row behind what a client holds, through however many copies. */
  function HeldFrom(steps: seq<Step>, c: nat): Option<nat>
    decreases |steps|
  {
    if steps == [] then None
    else
      var n := |steps| - 1;
      if Copies(Run(steps[..n]), steps[n], c) then SlotFrom(steps[..n], steps[n].place)
      else if steps[n] == ReadRow(c) then Some(n)
      else HeldFrom(steps[..n], c)
  }

  /** The position of the read behind what a cache holds. */
  function SlotFrom(steps: seq<Step>, p: Place): Option<nat>
    decreases |steps|
  {
    if steps == [] then None
    else
      var n := |steps| - 1;
      if Fills(Run(steps[..n]), steps[n], p) then HeldFrom(steps[..n], steps[n].client)
      else if Empties(steps[n], p) then None
      else SlotFrom(steps[..n], p)
  }

  /** The position of the store that the cache still holds. */
  function StoredAt(steps: seq<Step>, p: Place): Option<nat> {
    if steps == [] then None
    else
      var n := |steps| - 1;
      if Fills(Run(steps[..n]), steps[n], p) then Some(n)
      else if Empties(steps[n], p) then None
      else StoredAt(steps[..n], p)
  }

  /** A value that comes from a read at some position is the row as it was there. */
  ghost predicate ComesFrom(steps: seq<Step>, from: Option<nat>, value: Option<nat>) {
    match from
    case None => value.None?
    case Some(r) => r < |steps| && steps[r].ReadRow? && value == Some(Run(steps[..r]).row)
  }

  lemma ComesFromEarlier(steps: seq<Step>, from: Option<nat>, value: Option<nat>)
    requires steps != [] && ComesFrom(steps[..|steps| - 1], from, value)
    ensures ComesFrom(steps, from, value)
  {
    if from.Some? { assert steps[..|steps| - 1][..from.value] == steps[..from.value]; }
  }

  lemma {:induction false} HeldMeans(steps: seq<Step>, c: nat)
    ensures ComesFrom(steps, HeldFrom(steps, c), Holding(Run(steps), c))
    decreases |steps|
  {
    if steps != [] {
      var n := |steps| - 1;
      var s, step := Run(steps[..n]), steps[n];
      NextHolding(s, step, c);
      if Copies(s, step, c) {
        SlotMeans(steps[..n], step.place);
        ComesFromEarlier(steps, SlotFrom(steps[..n], step.place), Content(s, step.place));
      } else if step != ReadRow(c) {
        HeldMeans(steps[..n], c);
        ComesFromEarlier(steps, HeldFrom(steps[..n], c), Holding(s, c));
      }
    }
  }

  lemma {:induction false} SlotMeans(steps: seq<Step>, p: Place)
    ensures ComesFrom(steps, SlotFrom(steps, p), Content(Run(steps), p))
    decreases |steps|
  {
    if steps != [] {
      var n := |steps| - 1;
      var s, step := Run(steps[..n]), steps[n];
      NextContent(s, step, p);
      if Fills(s, step, p) {
        HeldMeans(steps[..n], step.client);
        ComesFromEarlier(steps, HeldFrom(steps[..n], step.client), Holding(s, step.client));
      } else if !Empties(step, p) {
        SlotMeans(steps[..n], p);
        ComesFromEarlier(steps, SlotFrom(steps[..n], p), Content(s, p));
      }
    }
  }

  ghost predicate CommitsAt(steps: seq<Step>, k: nat) { k < |steps| && steps[k].Commit? }

  /** A command commits that clears the cache afterwards. */
  ghost predicate OwesAt(steps: seq<Step>, k: nat, p: Place) {
    k < |steps| && steps[k].Commit? && Owes(steps[k].release, p)
  }

  ghost predicate ClearsAt(steps: seq<Step>, i: nat, p: Place) { i < |steps| && steps[i] == Clear(p) }

  /** The row has moved since a position exactly if something committed from there on. */
  lemma {:induction false} RowMoves(steps: seq<Step>, r: nat)
    requires r <= |steps|
    ensures Run(steps[..r]).row <= Run(steps).row
    ensures Run(steps[..r]).row < Run(steps).row <==> exists k :: r <= k && CommitsAt(steps, k)
  {
    if r == |steps| {
      assert steps[..r] == steps;
    } else {
      var n := |steps| - 1;
      RowMoves(steps[..n], r);
      assert steps[..n][..r] == steps[..r];
      forall k: nat | k < n ensures CommitsAt(steps[..n], k) == CommitsAt(steps, k) {}
      if CommitsAt(steps, n) { assert r <= n; }
      if k: nat :| r <= k && CommitsAt(steps[..n], k) { assert CommitsAt(steps, k); }
    }
  }

  /**
   In every interleaving a cache is stale exactly if something committed after the row was read for it,
   through however many caches and clients the value has come since.
   */
  lemma StaleExactlyWhen(steps: seq<Step>, p: Place)
    ensures Stale(Run(steps), p) <==>
      SlotFrom(steps, p).Some? && exists k :: SlotFrom(steps, p).value < k && CommitsAt(steps, k)
  {
    SlotMeans(steps, p);
    if SlotFrom(steps, p).Some? {
      var r := SlotFrom(steps, p).value;
      RowMoves(steps, r);
      if k: nat :| r <= k && CommitsAt(steps, k) { assert k != r; }
    }
  }

  // ---------- When every command is done ----------

  /** Every command that owes a cache its clearing has made it. */
  ghost predicate Settled(steps: seq<Step>, p: Place) {
    forall k :: OwesAt(steps, k, p) ==> exists i :: k < i && ClearsAt(steps, i, p)
  }

  lemma {:induction false} StoredMeans(steps: seq<Step>, p: Place)
    ensures StoredAt(steps, p).Some? <==> Content(Run(steps), p).Some?
    ensures StoredAt(steps, p).Some? ==>
      var at := StoredAt(steps, p).value; at < |steps| && steps[at].Store? && steps[at].place == p
  {
    if steps != [] {
      var n := |steps| - 1;
      StoredMeans(steps[..n], p);
      NextContent(Run(steps[..n]), steps[n], p);
    }
  }

  lemma {:induction false} NoneClearsAfter(steps: seq<Step>, i: nat, p: Place)
    requires StoredAt(steps, p).Some? && ClearsAt(steps, i, p)
    ensures i < StoredAt(steps, p).value
  {
    var n := |steps| - 1;
    StoredMeans(steps, p);
    if StoredAt(steps, p).value < n {
      assert i < n;
      assert ClearsAt(steps[..n], i, p);
      NoneClearsAfter(steps[..n], i, p);
    }
  }

  /** After the read behind a cache, a command committed that never clears it. */
  ghost predicate Missed(steps: seq<Step>, p: Place)
    requires SlotFrom(steps, p).Some?
  {
    exists k :: SlotFrom(steps, p).value < k && CommitsAt(steps, k) && !OwesAt(steps, k, p)
  }

  /** Between the read behind a cache and the store into it, a command committed and cleared it. */
  ghost predicate Overtaken(steps: seq<Step>, p: Place)
    requires SlotFrom(steps, p).Some? && StoredAt(steps, p).Some?
  {
    exists k, i :: SlotFrom(steps, p).value < k < i < StoredAt(steps, p).value &&
      OwesAt(steps, k, p) && ClearsAt(steps, i, p)
  }

  /**
   Once every command has made the clearing it owes a cache, that cache is stale exactly if a command that does not
   clear it committed after the read, or a whole commit and a clearing fell between the read and the store:
   read, commit, clear, store. For the Redis tiers only the second can be, since every command clears those.
   */
  lemma StaleAtRestExactlyWhen(steps: seq<Step>, p: Place)
    requires Settled(steps, p)
    ensures SlotFrom(steps, p).Some? <==> StoredAt(steps, p).Some?
    ensures Stale(Run(steps), p) <==> SlotFrom(steps, p).Some? && (Missed(steps, p) || Overtaken(steps, p))
    ensures p in {Hot, Warm, Cold} && SlotFrom(steps, p).Some? ==> !Missed(steps, p)
  {
    StaleExactlyWhen(steps, p);
    SlotMeans(steps, p);
    StoredMeans(steps, p);
    if Stale(Run(steps), p) && !Missed(steps, p) {
      var k :| SlotFrom(steps, p).value < k && CommitsAt(steps, k);
      assert OwesAt(steps, k, p);
      var i :| k < i && ClearsAt(steps, i, p);
      NoneClearsAfter(steps, i, p);
    }
    if SlotFrom(steps, p).Some? && Overtaken(steps, p) {
      var k, i :| SlotFrom(steps, p).value < k < i < StoredAt(steps, p).value &&
        OwesAt(steps, k, p) && ClearsAt(steps, i, p);
      assert CommitsAt(steps, k);
    }
  }

  // ---------- It does happen ----------

  lemma RunSnoc(steps: seq<Step>, step: Step)
    ensures Run(steps + [step]) == Next(Run(steps), step)
  {
    assert (steps + [step])[..|steps|] == steps;
  }

  /** A whole command, and then a store by a client that still holds what it found before. */
  function CommandThenStore(c: nat, p: Place): seq<Step> {
    [Commit(false), Clear(Hot), Clear(Warm), Clear(Cold), Clear(Entry), Clear(BalanceEntry), Store(c, p)]
  }

  lemma ThenClear(steps: seq<Step>, p: Place) returns (more: seq<Step>)
    ensures more == steps + [Clear(p)] && Run(more).row == Run(steps).row && Run(more).held == Run(steps).held
  {
    RunSnoc(steps, Clear(p));
    more := steps + [Clear(p)];
  }

  lemma CommandKeepsHeld(steps: seq<Step>, c: nat, p: Place)
    ensures var s, t := Run(steps), Run(steps + CommandThenStore(c, p)[..6]);
      t.row == s.row + 1 && t.held == s.held
  {
    RunSnoc(steps, Commit(false));
    var more := steps + [Commit(false)];
    more := ThenClear(more, Hot);
    more := ThenClear(more, Warm);
    more := ThenClear(more, Cold);
    more := ThenClear(more, Entry);
    more := ThenClear(more, BalanceEntry);
    assert more == steps + CommandThenStore(c, p)[..6];
  }

  lemma CommandSettles(steps: seq<Step>, c: nat, p: Place)
    requires Settled(steps, p)
    ensures Settled(steps + CommandThenStore(c, p), p)
  {
    var n := |steps|;
    var more := steps + CommandThenStore(c, p);
    var clear := n + match p case Hot => 1 case Warm => 2 case Cold => 3 case Entry => 4 case BalanceEntry => 5;
    assert ClearsAt(more, clear, p);
    forall k: nat | OwesAt(more, k, p) ensures exists i :: k < i && ClearsAt(more, i, p) {
      if k < n {
        assert OwesAt(steps, k, p);
        var i :| k < i && ClearsAt(steps, i, p);
        assert ClearsAt(more, i, p);
      } else {
        assert k == n;
      }
    }
  }

  /**
   From any run, a client that holds the current value, wherever it found it, can make any cache stale at rest:
   a command commits and clears everything in between.
   */
  lemma CurrentGoesStale(steps: seq<Step>, c: nat, p: Place)
    requires Settled(steps, p) && Holding(Run(steps), c) == Some(Run(steps).row)
    ensures var more := steps + CommandThenStore(c, p); Settled(more, p) && Stale(Run(more), p)
  {
    CommandKeepsHeld(steps, c, p);
    CommandSettles(steps, c, p);
    var before := steps + CommandThenStore(c, p)[..6];
    RunSnoc(before, Store(c, p));
    assert before + [Store(c, p)] == steps + CommandThenStore(c, p);
  }

  /**
   So the in-memory entry goes stale by the same race when it is copied from a Redis entry that was current
   when read: here one client has filled that from the row, and another copies it.
   */
  lemma StaleIsReachable()
    ensures var copied := [ReadRow(0), Store(0, Hot), LookIn(1, Hot)]; var steps := copied + CommandThenStore(1, Entry);
      Content(Run(copied), Hot) == Some(Run(copied).row) && Settled(steps, Entry) && Stale(Run(steps), Entry)
  {
    RunSnoc([], ReadRow(0));
    RunSnoc([ReadRow(0)], Store(0, Hot));
    RunSnoc([ReadRow(0), Store(0, Hot)], LookIn(1, Hot));
    var copied := [ReadRow(0), Store(0, Hot), LookIn(1, Hot)];
    assert [] + [ReadRow(0)] == [ReadRow(0)] && [ReadRow(0)] + [Store(0, Hot)] == [ReadRow(0), Store(0, Hot)];
    assert [ReadRow(0), Store(0, Hot)] + [LookIn(1, Hot)] == copied;
    assert Settled(copied, Entry);
    CurrentGoesStale(copied, 1, Entry);
  }
}
