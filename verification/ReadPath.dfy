/**
 Reading one account through its caches: the in-memory cache (an account entry and a balance entry)
 over three Redis tiers over the row. Entries may disappear at any time, by expiry or eviction.
 A release clears the Redis tiers but, naming neither user nor currency, not the in-memory entries.
 */
module ReadPath {
  import opened Prelude
  import opened Ledger

  /** A Redis key holds nothing, an account as JSON, or the three balance fields as a hash. */
  datatype Slot = Empty | Blob(account: Account) | Hash(balance: int, available: int, version: int)

  datatype Tier = Hot | Warm | Cold

  /** `lag` is history: the funds released since the in-memory account entry was filled. */
  datatype State = State(
    row: Account,
    hot: Slot, warm: Slot, cold: Slot,
    memory: Option<Account>, memoryBalance: Option<int>,
    lag: int)

  datatype Op =
    | Change(balanceDelta: int, lockedDelta: int)
    | Reserve(amount: int)
    | Free(amount: int)
    | GetAccount(idle1: int, idle2: int)
    | GetBalance(idle1: int, idle2: int)
    | ReadBalance
    | LoseTier(tier: Tier)
    | LoseMemory
    | LoseMemoryBalance

  datatype Answer =
    | NoAnswer
    | AnAccount(account: Account)
    | ABalance(balance: int)
    | Fields(balance: int, available: int, version: int)

  const HOT_IDLE := 300
  const WARM_IDLE := 1800
  /** Both callers start the count at one, and storing adds one. */
  const ACCESS_COUNT := 2

  function DetermineTier(idle: int, accessCount: int): Tier {
    if idle < HOT_IDLE || accessCount > 100 then Hot
    else if idle < WARM_IDLE || accessCount > 10 then Warm
    else Cold
  }

  /** SetAccount: stamped as just accessed, then stored in the tier its idle time selects. */
  function SetAccount(s: State, a: Account, idle: int): State {
    match DetermineTier(idle, ACCESS_COUNT)
    case Hot => s.(hot := Blob(a))
    case Warm => s.(warm := Blob(a))
    case Cold => s.(cold := Blob(a))
  }

  /** The tiers in turn; a hash where an account is expected is an error, so the next tier is tried. */
  function FromTiers(s: State): Option<Account> {
    if s.hot.Blob? then Some(s.hot.account)
    else if s.warm.Blob? then Some(s.warm.account)
    else if s.cold.Blob? then Some(s.cold.account)
    else None
  }

  function Promoted(s: State): State {
    if s.hot.Blob? then s
    else if s.warm.Blob? then s.(hot := s.warm)
    else if s.cold.Blob? then s.(warm := s.cold)
    else s
  }

  function Fill(s: State, a: Account): State { s.(memory := Some(a), lag := 0) }

  function AfterGetAccount(s: State, idle1: int, idle2: int): State {
    if s.memory.Some? then s
    else if FromTiers(s).Some? then Fill(Promoted(s), FromTiers(s).value)
    else Fill(SetAccount(SetAccount(s, s.row, idle1), s.row, idle2), s.row)
  }

  function AccountAnswer(s: State): Account {
    if s.memory.Some? then s.memory.value else if FromTiers(s).Some? then FromTiers(s).value else s.row
  }

  function AfterGetBalance(s: State, idle1: int, idle2: int): State {
    if s.memoryBalance.Some? then s
    else AfterGetAccount(s, idle1, idle2).(memoryBalance := Some(AccountAnswer(s).balance))
  }

  function BalanceAnswer(s: State): int {
    if s.memoryBalance.Some? then s.memoryBalance.value else AccountAnswer(s).balance
  }

  /** Writing the hash over a stored account fails and changes nothing. */
  function SetAccountBalance(s: State, a: Account): State {
    if s.hot.Blob? then s else s.(hot := Hash(a.balance, a.available, a.version))
  }

  function InvalidateTiers(s: State): State { s.(hot := Empty, warm := Empty, cold := Empty) }

  function InvalidateMemory(s: State): State { s.(memory := None, memoryBalance := None, lag := 0) }

  function Next(s: State, op: Op): State {
    match op
    case Change(balanceDelta, lockedDelta) =>
      var r := Apply(s.row, balanceDelta, lockedDelta);
      if r.Err? then s
      else InvalidateMemory(InvalidateTiers(SetAccountBalance(s.(row := r.value), r.value)))
    case Reserve(amount) =>
      var r := Apply(s.row, 0, amount);
      if amount <= 0 || r.Err? then s else InvalidateMemory(InvalidateTiers(s.(row := r.value)))
    case Free(amount) =>
      var r := Apply(s.row, 0, -amount);
      if amount <= 0 || r.Err? then s
      else InvalidateTiers(s.(row := r.value, lag := if s.memory.Some? then s.lag + amount else 0))
    case GetAccount(idle1, idle2) => AfterGetAccount(s, idle1, idle2)
    case GetBalance(idle1, idle2) => AfterGetBalance(s, idle1, idle2)
    case ReadBalance => if s.hot.Hash? then s else SetAccountBalance(s, s.row)
    case LoseTier(Hot) => s.(hot := Empty)
    case LoseTier(Warm) => s.(warm := Empty)
    case LoseTier(Cold) => s.(cold := Empty)
    case LoseMemory => s.(memory := None, lag := 0)
    case LoseMemoryBalance => s.(memoryBalance := None)
  }

  function AnswerOf(s: State, op: Op): Answer {
    match op
    case GetAccount(_, _) => AnAccount(AccountAnswer(s))
    case GetBalance(_, _) => ABalance(BalanceAnswer(s))
    case ReadBalance =>
      if s.hot.Hash? then Fields(s.hot.balance, s.hot.available, s.hot.version)
      else Fields(s.row.balance, s.row.available, s.row.version)
    case _ => NoAnswer
  }

  function ColdStart(row: Account): State { State(row, Empty, Empty, Empty, None, None, 0) }

  function Run(row: Account, ops: seq<Op>): State {
    if ops == [] then ColdStart(row) else Next(Run(row, ops[..|ops| - 1]), ops[|ops| - 1])
  }

  // ---------- What commands and queries do ----------

  /** How a command means to change the balance and the locked funds. */
  function Deltas(op: Op): (int, int) {
    match op
    case Change(balanceDelta, lockedDelta) => (balanceDelta, lockedDelta)
    case Reserve(amount) => (0, amount)
    case Free(amount) => (0, -amount)
    case _ => (0, 0)
  }

  /** A command the account can afford, with a positive amount where it names one. */
  predicate Accepted(row: Account, op: Op) {
    match op
    case Change(balanceDelta, lockedDelta) => Affords(row, balanceDelta, lockedDelta)
    case Reserve(amount) => amount > 0 && Affords(row, 0, amount)
    case Free(amount) => amount > 0 && Affords(row, 0, -amount)
    case _ => false
  }

  /**
   An accepted command moves the row by what it says, and leaves nothing in the Redis tiers; a refused one changes
   nothing at all; and nothing else ever touches the row. The in-memory entries go too, but stay after a release.
   */
  lemma RowOutcome(s: State, op: Op)
    ensures var t := Next(s, op);
      if Accepted(s.row, op) then
        MovedBy(s.row, t.row, Deltas(op).0, Deltas(op).1) && t.hot == Empty && t.warm == Empty && t.cold == Empty &&
        (if op.Free? then t.memory == s.memory && t.memoryBalance == s.memoryBalance
         else t.memory == None && t.memoryBalance == None)
      else
        t.row == s.row && (op.Change? || op.Reserve? || op.Free? ==> t == s)
  {
  }

  /** The totals of the accepted commands of a run, and their number. */
  function AcceptedTotals(row: Account, ops: seq<Op>): (int, int, nat) {
    if ops == [] then (0, 0, 0)
    else
      var n := |ops| - 1;
      var t := AcceptedTotals(row, ops[..n]);
      if Accepted(Run(row, ops[..n]).row, ops[n])
      then (t.0 + Deltas(ops[n]).0, t.1 + Deltas(ops[n]).1, t.2 + 1)
      else t
  }

  /** After any run the row is its first value plus what the accepted commands add up to. */
  lemma {:induction false} RowConserved(row: Account, ops: seq<Op>)
    requires row.Sound()
    ensures var now, total := Run(row, ops).row, AcceptedTotals(row, ops);
      now.balance == row.balance + total.0 && now.locked == row.locked + total.1 &&
      now.available == now.balance - now.locked && now.version == row.version + total.2
  {
    if ops != [] {
      var n := |ops| - 1;
      RowConserved(row, ops[..n]);
      RowOutcome(Run(row, ops[..n]), ops[n]);
    }
  }

  /**
   A query leaves what it answers in memory, so that the next one is answered from there; on a miss in memory the
   Redis tiers have it afterwards as well.
   */
  lemma QueriesFill(s: State, idle1: int, idle2: int)
    ensures var t := Next(s, GetAccount(idle1, idle2));
      t.memory == Some(AccountAnswer(s)) && AccountAnswer(t) == AccountAnswer(s) &&
      (s.memory.None? ==> FromTiers(t) == Some(AccountAnswer(s)) && (FromTiers(s).None? ==> AccountAnswer(s) == s.row))
    ensures var t := Next(s, GetBalance(idle1, idle2));
      t.memoryBalance == Some(BalanceAnswer(s)) && BalanceAnswer(t) == BalanceAnswer(s)
  {
  }

  /**
   Hot is for what was accessed in the last five minutes or more than a hundred times, cold for what was not in the
   last half hour and at most ten times. With the access count that both callers store only the time decides.
   */
  lemma TierByUse(idle: int, accessCount: int, s: State, a: Account)
    ensures DetermineTier(idle, accessCount) == Hot <==> idle < 300 || accessCount >= 101
    ensures DetermineTier(idle, accessCount) == Cold <==> idle >= 1800 && accessCount <= 10
    ensures SetAccount(s, a, idle) ==
      if idle < 300 then s.(hot := Blob(a)) else if idle < 1800 then s.(warm := Blob(a)) else s.(cold := Blob(a))
  {
  }

  /** What a look finds below the hot tier is stored one tier up, so that a third look finds it hot. */
  lemma HitsMoveUp(s: State)
    ensures var t := Promoted(s);
      FromTiers(t) == FromTiers(s) && t == s.(hot := t.hot, warm := t.warm) &&
      (s.hot.Blob? || FromTiers(s).None? ==> t == s) &&
      (!s.hot.Blob? && s.warm.Blob? ==> t.hot == s.warm && t.warm == s.warm) &&
      (!s.hot.Blob? && !s.warm.Blob? ==> t.hot == s.hot && (s.cold.Blob? ==> t.warm == s.cold))
    ensures FromTiers(s).Some? ==> Promoted(Promoted(s)).hot == Blob(FromTiers(s).value)
  {
  }

  /** The short read leaves the row's figures as a hash, but never in place of a stored account, or of a hash. */
  lemma ShortReadFills(s: State)
    ensures var t := Next(s, ReadBalance);
      t == s.(hot := t.hot) &&
      t.hot == if s.hot.Empty? then Hash(s.row.balance, s.row.available, s.row.version) else s.hot
  {
  }

  /** An entry that is lost is gone, and nothing else changes. */
  lemma LossesLose(s: State)
    ensures Next(s, LoseTier(Hot)) == s.(hot := Empty) && Next(s, LoseTier(Warm)) == s.(warm := Empty)
    ensures Next(s, LoseTier(Cold)) == s.(cold := Empty) && Next(s, LoseMemoryBalance) == s.(memoryBalance := None)
    ensures Next(s, LoseMemory) == s.(memory := None, lag := 0)
  {
  }

  // ---------- Coherence ----------

  ghost predicate SlotCurrent(slot: Slot, row: Account) {
    match slot
    case Empty => true
    case Blob(a) => a == row
    case Hash(b, a, v) => b == row.balance && a == row.available && v == row.version
  }

  /** An account that shows `lag` too much locked and too little available, and is otherwise exact in funds. */
  ghost predicate Lags(a: Account, row: Account, lag: int) {
    a.balance == row.balance && a.locked == row.locked + lag && a.available == row.available - lag &&
    lag >= 0 && a.version <= row.version && (a == row <==> lag == 0)
  }

  ghost predicate Coherent(s: State) {
    s.row.Sound() &&
    SlotCurrent(s.hot, s.row) && SlotCurrent(s.warm, s.row) && SlotCurrent(s.cold, s.row) &&
    (if s.memory.Some? then Lags(s.memory.value, s.row, s.lag) else s.lag == 0) &&
    (s.memoryBalance.Some? ==> s.memoryBalance.value == s.row.balance)
  }

  /** What a query answers with and leaves in the caches. */
  lemma GetCoherent(s: State, idle1: int, idle2: int)
    requires Coherent(s)
    ensures Coherent(AfterGetAccount(s, idle1, idle2)) && AfterGetAccount(s, idle1, idle2).row == s.row
    ensures AccountAnswer(s).balance == s.row.balance
  {
  }

  lemma CommandCoherent(s: State, op: Op)
    requires Coherent(s) && (op.Change? || op.Reserve? || op.Free?)
    ensures Coherent(Next(s, op))
  {
  }

  lemma NextCoherent(s: State, op: Op)
    requires Coherent(s)
    ensures Coherent(Next(s, op))
  {
    match op
    case GetAccount(idle1, idle2) => GetCoherent(s, idle1, idle2);
    case GetBalance(idle1, idle2) => GetCoherent(s, idle1, idle2);
    case Change(_, _) | Reserve(_) | Free(_) => CommandCoherent(s, op);
    case _ =>
  }

  lemma {:induction false} RunCoherent(row: Account, ops: seq<Op>)
    requires row.Sound()
    ensures Coherent(Run(row, ops))
  {
    if ops != [] {
      RunCoherent(row, ops[..|ops| - 1]);
      NextCoherent(Run(row, ops[..|ops| - 1]), ops[|ops| - 1]);
    }
  }

  /**
   Whatever was done before and whichever cache answers: every balance returned is the row's. The locked
   and available amounts are off by exactly what was released since the in-memory entry was filled, so
   the account is the row itself exactly when nothing was.
   */
  lemma AnswersAgree(row: Account, ops: seq<Op>, op: Op)
    requires row.Sound()
    ensures var s := Run(row, ops);
      match AnswerOf(s, op)
      case AnAccount(a) => Lags(a, s.row, s.lag)
      case ABalance(b) => b == s.row.balance
      case Fields(b, a, v) => b == s.row.balance && a == s.row.available && v == s.row.version
      case NoAnswer => true
  {
    RunCoherent(row, ops);
  }

  /** A stale answer is reachable: fill the entry, then release. The next read of it is behind the row. */
  lemma StaleAfterRelease(row: Account, amount: int)
    requires row.Sound() && 0 < amount <= row.locked
    ensures var s := Run(row, [GetAccount(0, 0), Free(amount)]);
      s.lag == amount && AccountAnswer(s) != s.row
  {
    var ops := [GetAccount(0, 0), Free(amount)];
    assert ops[..1] == [GetAccount(0, 0)] && ops[..1][..0] == [];
    assert Run(row, []) == ColdStart(row);
    assert Run(row, ops[..1]) == AfterGetAccount(ColdStart(row), 0, 0);
    RunCoherent(row, ops);
  }

  ghost predicate Prompt(op: Op) {
    op.GetAccount? || op.GetBalance? ==> op.idle1 < HOT_IDLE && op.idle2 < HOT_IDLE
  }

  /**
   Storing stamps the account as accessed now, so unless a store is held up for five minutes the hot tier
   is always chosen: the warm and cold tiers stay empty through every run.
   */
  lemma {:induction false} LowerTiersUnused(row: Account, ops: seq<Op>)
    requires forall i :: 0 <= i < |ops| ==> Prompt(ops[i])
    ensures Run(row, ops).warm == Empty && Run(row, ops).cold == Empty
  {
    if ops != [] {
      LowerTiersUnused(row, ops[..|ops| - 1]);
      assert Prompt(ops[|ops| - 1]);
    }
  }
}
