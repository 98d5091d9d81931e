/**
 Idempotency keys: a command is looked up by its key, executed, and only then is its key remembered, in a
 cache that may lose it at any time. Clients with the same key may be anywhere between these steps.
 `effects`, `losses` and `overlaps` are history, counted by key.
 */
module Idempotency {
  import opened Prelude
  import opened Ledger
  import opened AccountRepository

  datatype State = State(
    db: Db,
    keys: set<string>,
    cleared: multiset<string>,
    executed: multiset<string>,
    effects: multiset<string>,
    losses: multiset<string>,
    overlaps: multiset<string>)

  datatype Step =
    | Check(key: string)
    | Execute(key: string, tx: Tx)
    | Store(key: string)
    | Lose(key: string)

  function Begin(db: Db): State { State(db, {}, multiset{}, multiset{}, multiset{}, multiset{}, multiset{}) }

  /** Some client with this key has been let through and has not remembered it yet. */
  predicate Underway(s: State, key: string) { key in s.cleared || key in s.executed }

  function Next(s: State, step: Step): State {
    match step
    case Check(k) =>
      if k in s.keys then s
      else
        s.(cleared := s.cleared + multiset{k},
           overlaps := if Underway(s, k) then s.overlaps + multiset{k} else s.overlaps)
    case Execute(k, tx) =>
      if k !in s.cleared then s
      else
        var r := Exec(s.db, tx);
        if r.Err? then s.(cleared := s.cleared - multiset{k})
        else
          s.(db := r.value, cleared := s.cleared - multiset{k}, executed := s.executed + multiset{k},
             effects := s.effects + multiset{k})
    case Store(k) =>
      if k !in s.executed then s else s.(executed := s.executed - multiset{k}, keys := s.keys + {k})
    case Lose(k) =>
      if k !in s.keys then s else s.(keys := s.keys - {k}, losses := s.losses + multiset{k})
  }

  function Run(db: Db, steps: seq<Step>): State {
    if steps == [] then Begin(db) else Next(Run(db, steps[..|steps| - 1]), steps[|steps| - 1])
  }

  /** Clients let through but not finished count as effects already. */
  ghost predicate Bounded(s: State, k: string) {
    s.effects[k] + s.cleared[k] <= s.losses[k] + s.overlaps[k] + if k in s.keys || Underway(s, k) then 1 else 0
  }

  lemma NextBounded(s: State, step: Step, k: string)
    requires Bounded(s, k)
    ensures Bounded(Next(s, step), k)
  {
  }

  /**
   In every interleaving a key takes effect at most once, and once more for each time it was lost from the
   cache and each time a client was let through while another with the same key was underway.
   */
  lemma {:induction false} EffectsBounded(db: Db, steps: seq<Step>, k: string)
    ensures Bounded(Run(db, steps), k)
    ensures var s := Run(db, steps); s.effects[k] <= 1 + s.losses[k] + s.overlaps[k]
  {
    if steps != [] {
      EffectsBounded(db, steps[..|steps| - 1], k);
      NextBounded(Run(db, steps[..|steps| - 1]), steps[|steps| - 1], k);
    }
  }

  /** A client with this key is let through by the check. */
  predicate LetsThrough(s: State, step: Step, k: string) { step == Check(k) && k !in s.keys }

  /** Its command, once let through, is refused by the database. */
  predicate Refuses(s: State, step: Step, k: string) {
    step.Execute? && step.key == k && k in s.cleared && Exec(s.db, step.tx).Err?
  }

  /** No client is let through while another with the same key has been, and its key is not remembered. */
  ghost predicate ChecksHold(db: Db, steps: seq<Step>, k: string) {
    steps == [] ||
    (ChecksHold(db, steps[..|steps| - 1], k) &&
     var s := Run(db, steps[..|steps| - 1]);
     (LetsThrough(s, steps[|steps| - 1], k) ==> s.effects[k] + s.cleared[k] == 0))
  }

  ghost predicate NoneRefused(db: Db, steps: seq<Step>, k: string) {
    steps == [] ||
    (NoneRefused(db, steps[..|steps| - 1], k) && !Refuses(Run(db, steps[..|steps| - 1]), steps[|steps| - 1], k))
  }

  lemma StepCounts(s: State, step: Step, k: string)
    ensures var t := Next(s, step); var before, after := s.effects[k] + s.cleared[k], t.effects[k] + t.cleared[k];
      after == if LetsThrough(s, step, k) then before + 1 else if Refuses(s, step, k) then before - 1 else before
  {
  }

  /**
   If no command with this key that was let through is refused, the key has taken effect at most once, those
   underway counted in, exactly if no check let a client through after another.
   */
  lemma {:induction false} AtMostOnceExactlyWhen(db: Db, steps: seq<Step>, k: string)
    requires NoneRefused(db, steps, k)
    ensures var s := Run(db, steps); s.effects[k] + s.cleared[k] <= 1 <==> ChecksHold(db, steps, k)
  {
    if steps != [] {
      AtMostOnceExactlyWhen(db, steps[..|steps| - 1], k);
      StepCounts(Run(db, steps[..|steps| - 1]), steps[|steps| - 1], k);
    }
  }

  /** Even with commands refused, a key takes effect at most once if no check lets a client through after another. */
  lemma {:induction false} AtMostOnce(db: Db, steps: seq<Step>, k: string)
    requires ChecksHold(db, steps, k)
    ensures var s := Run(db, steps); s.effects[k] + s.cleared[k] <= 1
  {
    if steps != [] {
      AtMostOnce(db, steps[..|steps| - 1], k);
      StepCounts(Run(db, steps[..|steps| - 1]), steps[|steps| - 1], k);
    }
  }

  lemma RunSnoc(db: Db, steps: seq<Step>, step: Step)
    ensures Run(db, steps + [step]) == Next(Run(db, steps), step)
  {
    assert (steps + [step])[..|steps|] == steps;
  }

  /** Two clients that overlap do both take effect, with nothing lost: the check alone does not exclude it. */
  lemma OverlapTakesEffectTwice(db: Db, k: string, tx: Tx)
    requires Exec(db, tx).Ok? && Exec(Exec(db, tx).value, tx).Ok?
    ensures var s := Run(db, [Check(k)] + [Check(k)] + [Execute(k, tx)] + [Execute(k, tx)]);
      s.effects[k] == 2 && s.losses[k] == 0 && s.db == Exec(Exec(db, tx).value, tx).value
  {
    var checked := [] + [Check(k)] + [Check(k)];
    RunSnoc(db, [], Check(k));
    RunSnoc(db, [] + [Check(k)], Check(k));
    assert Run(db, checked).cleared[k] == 2 && Run(db, checked).db == db && Run(db, checked).effects[k] == 0 &&
      Run(db, checked).losses[k] == 0;
    RunSnoc(db, checked, Execute(k, tx));
    RunSnoc(db, checked + [Execute(k, tx)], Execute(k, tx));
    assert checked == [Check(k)] + [Check(k)];
  }

  /** Nor does it once the cache has lost the key: the same command, sent again, takes effect again. */
  lemma LostKeyTakesEffectTwice(db: Db, k: string, tx: Tx)
    requires Exec(db, tx).Ok? && Exec(Exec(db, tx).value, tx).Ok?
    ensures var s := Handle(Next(Handle(Begin(db), k, tx), Lose(k)), k, tx);
      s.effects[k] == 2 && s.losses[k] == 1 && s.overlaps[k] == 0 && s.db == Exec(Exec(db, tx).value, tx).value
  {
    HandleOnce(Begin(db), k, tx);
    var lost := Next(Handle(Begin(db), k, tx), Lose(k));
    HandleOnce(lost, k, tx);
  }

  /** One client's command from beginning to end. */
  function Handle(s: State, k: string, tx: Tx): State {
    Next(Next(Next(s, Check(k)), Execute(k, tx)), Store(k))
  }

  lemma HandleOnce(s: State, k: string, tx: Tx)
    requires s.cleared == multiset{} && s.executed == multiset{}
    ensures Handle(s, k, tx) ==
      if k in s.keys || Exec(s.db, tx).Err? then s
      else s.(db := Exec(s.db, tx).value, keys := s.keys + {k}, effects := s.effects + multiset{k})
  {
    assert multiset{} + multiset{k} - multiset{k} == multiset{};
  }

  /** One after the other, the same command again changes nothing: not the database, not the keys. */
  lemma HandleTwice(s: State, k: string, tx: Tx)
    requires s.cleared == multiset{} && s.executed == multiset{}
    ensures var once := Handle(s, k, tx); Handle(once, k, tx) == once
  {
    HandleOnce(s, k, tx);
    HandleOnce(Handle(s, k, tx), k, tx);
  }

  class CommandHandler {
    const repository: Repository
    var keys: set<string>

    constructor (repository: Repository)
      ensures this.repository == repository && keys == {}
    {
      this.repository, keys := repository, {};
    }

    /** A known key succeeds without effect; an error leaves neither an effect nor the key. */
    method ExecuteWithKey(key: string, tx: Tx) returns (r: Result<(), Error>)
      modifies this, repository
      ensures var s := Begin(old(repository.View())).(keys := old(keys)); var t := Handle(s, key, tx);
        repository.View() == t.db && keys == t.keys
      ensures r.Ok? <==> key in keys
    {
      HandleOnce(Begin(repository.View()).(keys := keys), key, tx);
      if key in keys { return Ok(()); }
      r := repository.ExecuteCommand(tx);
      if r.Err? { return; }
      keys := keys + {key};
    }
  }
}
