/**
 The handlers over one account's row and caches, changing them in place. `idle1` and `idle2` are the
 times that pass between stamping an account and choosing its tier, in the two stores a miss makes.
 */
module QueryHandlers {
  import opened Prelude
  import opened Ledger
  import opened ReadPath

  class AccountHandler {
    var row: Account
    var hot: Slot
    var warm: Slot
    var cold: Slot
    var memory: Option<Account>
    var memoryBalance: Option<int>
    ghost var lag: int

    constructor (row: Account)
      ensures View() == ColdStart(row)
    {
      this.row, hot, warm, cold, memory, memoryBalance, lag := row, Empty, Empty, Empty, None, None, 0;
    }

    ghost function View(): State
      reads this
    {
      State(row, hot, warm, cold, memory, memoryBalance, lag)
    }

    /** Any history of operations leads to a coherent state, so this is what the handlers may rely on. */
    ghost predicate Valid()
      reads this
    {
      Coherent(View())
    }

    /** Whatever the tier, the account can be found afterwards; the caches stay coherent exactly if it is the row. */
    method StoreInTier(a: Account, idle: int)
      modifies this`hot, this`warm, this`cold
      ensures View() == SetAccount(old(View()), a, idle)
      ensures old(Valid()) ==> FromTiers(View()).Some? && (Valid() <==> a == row)
      ensures old(Valid()) && a == row ==> FromTiers(View()) == Some(row)
    {
      match DetermineTier(idle, ACCESS_COUNT)
      case Hot => hot := Blob(a);
      case Warm => warm := Blob(a);
      case Cold => cold := Blob(a);
    }

    /**
     Tier by tier, promoting what is found below the hot tier. What is found is the row; a miss means that
     no tier holds an account; and a second look finds the same.
     */
    method LookInTiers() returns (a: Option<Account>)
      modifies this`hot, this`warm
      ensures a == FromTiers(old(View())) && View() == Promoted(old(View()))
      ensures old(Valid()) ==> Valid() && (a.Some? ==> a.value == row)
      ensures a.None? <==> !hot.Blob? && !warm.Blob? && !cold.Blob?
      ensures FromTiers(View()) == a
    {
      if hot.Blob? { return Some(hot.account); }
      if warm.Blob? {
        hot := warm;
        return Some(warm.account);
      }
      if cold.Blob? {
        warm := cold;
        return Some(cold.account);
      }
      return None;
    }

    /** Afterwards the tiers are current whatever the row becomes, so only the in-memory entries can lag. */
    method InvalidateAccount()
      modifies this`hot, this`warm, this`cold
      ensures View() == InvalidateTiers(old(View()))
      ensures forall r: Account :: SlotCurrent(hot, r) && SlotCurrent(warm, r) && SlotCurrent(cold, r)
      ensures old(Valid()) ==> Valid()
    {
      hot, warm, cold := Empty, Empty, Empty;
    }

    /** Afterwards no answer lags: the caches are coherent exactly if the tiers are current. */
    method InvalidateAccountCache()
      modifies this`memory, this`memoryBalance, this`lag
      ensures View() == InvalidateMemory(old(View()))
      ensures Valid() <==> row.Sound() && SlotCurrent(hot, row) && SlotCurrent(warm, row) && SlotCurrent(cold, row)
      ensures Valid() ==> AccountAnswer(View()) == row && BalanceAnswer(View()) == row.balance
    {
      memory, memoryBalance, lag := None, None, 0;
    }

    method ExecuteGetAccount(idle1: int, idle2: int) returns (a: Account)
      requires Valid()
      modifies this
      ensures Valid() && View() == Next(old(View()), GetAccount(idle1, idle2))
      ensures AnAccount(a) == AnswerOf(old(View()), GetAccount(idle1, idle2))
      ensures a.balance == row.balance && row == old(row) && (lag == 0 ==> a == row)
    {
      NextCoherent(View(), GetAccount(idle1, idle2));
      if memory.Some? { return memory.value; }
      var found := LookInTiers();
      if found.Some? {
        memory, lag := found, 0;
        return found.value;
      }
      var again := LookInTiers();
      assert again == None;
      StoreInTier(row, idle1);
      StoreInTier(row, idle2);
      memory, lag := Some(row), 0;
      return row;
    }

    method ExecuteGetBalance(idle1: int, idle2: int) returns (balance: int)
      requires Valid()
      modifies this
      ensures Valid() && View() == Next(old(View()), GetBalance(idle1, idle2))
      ensures balance == row.balance && row == old(row)
    {
      NextCoherent(View(), GetBalance(idle1, idle2));
      if memoryBalance.Some? { return memoryBalance.value; }
      var a := ExecuteGetAccount(idle1, idle2);
      memoryBalance := Some(a.balance);
      return a.balance;
    }

    /** Commit, write the hash, clear the tiers, clear the in-memory entries. */
    method ExecuteUpdateBalance(balanceDelta: int, lockedDelta: int) returns (ok: bool)
      requires Valid()
      modifies this
      ensures Valid() && View() == Next(old(View()), Change(balanceDelta, lockedDelta))
      ensures ok <==> Affords(old(row), balanceDelta, lockedDelta)
      ensures if ok then MovedBy(old(row), row, balanceDelta, lockedDelta) else row == old(row)
    {
      NextCoherent(View(), Change(balanceDelta, lockedDelta));
      var r := Apply(row, balanceDelta, lockedDelta);
      if r.Err? { return false; }
      row := r.value;
      if !hot.Blob? { hot := Hash(row.balance, row.available, row.version); }
      InvalidateAccount();
      InvalidateAccountCache();
      return true;
    }

    method ExecuteCreateReservation(amount: int) returns (ok: bool)
      requires Valid()
      modifies this
      ensures Valid() && View() == Next(old(View()), Reserve(amount))
      ensures ok <==> amount > 0 && Affords(old(row), 0, amount)
      ensures if ok then MovedBy(old(row), row, 0, amount) else row == old(row)
    {
      NextCoherent(View(), Reserve(amount));
      if amount <= 0 { return false; }
      var r := Apply(row, 0, amount);
      if r.Err? { return false; }
      row := r.value;
      InvalidateAccount();
      InvalidateAccountCache();
      return true;
    }

    /** The in-memory entries it clears are those of no user, so this account's stay. */
    method ExecuteReleaseReservation(amount: int) returns (ok: bool)
      requires Valid() && amount > 0
      modifies this
      ensures Valid() && View() == Next(old(View()), Free(amount))
      ensures ok <==> Affords(old(row), 0, -amount)
      ensures if ok then MovedBy(old(row), row, 0, -amount) else row == old(row)
    {
      NextCoherent(View(), Free(amount));
      var r := Apply(row, 0, -amount);
      if r.Err? { return false; }
      row := r.value;
      InvalidateAccount();
      lag := if memory.Some? then lag + amount else 0;
      return true;
    }

    /** The repository's short read: the hash if there is one, else the row, written back as a hash. */
    method GetAccountBalance() returns (balance: int, available: int, version: int)
      requires Valid()
      modifies this`hot
      ensures Valid() && View() == Next(old(View()), ReadBalance)
      ensures balance == row.balance && available == row.available && version == row.version
    {
      NextCoherent(View(), ReadBalance);
      if hot.Hash? { return hot.balance, hot.available, hot.version; }
      balance, available, version := row.balance, row.available, row.version;
      if !hot.Blob? { hot := Hash(balance, available, version); }
    }
  }
}
