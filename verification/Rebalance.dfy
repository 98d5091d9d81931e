/**
 The rebalance planner, in exact arithmetic. The shards are listed in one arbitrary order, since the
 planner visits a map of them; the lists of overloaded and underloaded shards may come in any order too.
 */
module Rebalance {
  import opened Prelude

  datatype ShardInfo = ShardInfo(id: string, active: bool, loadFactor: real, recordCount: int)

  datatype Migration = Migration(from: nat, to: nat, recordCount: int)

  function Total(shards: seq<ShardInfo>): real {
    if shards == [] then 0.0
    else
      var s := shards[|shards| - 1];
      Total(shards[..|shards| - 1]) + if s.active then s.loadFactor else 0.0
  }

  function ActiveCount(shards: seq<ShardInfo>): nat {
    if shards == [] then 0
    else ActiveCount(shards[..|shards| - 1]) + if shards[|shards| - 1].active then 1 else 0
  }

  function Mean(total: real, count: nat): real {
    if count == 0 then 1.0 else total / (count as real)
  }

  function Average(shards: seq<ShardInfo>): real { Mean(Total(shards), ActiveCount(shards)) }

  /** Distances from a value, added up over the active shards. */
  function Deviation(shards: seq<ShardInfo>, from: real): real {
    if shards == [] then 0.0
    else
      var s := shards[|shards| - 1];
      Deviation(shards[..|shards| - 1], from) + if s.active then s.loadFactor - from else 0.0
  }

  lemma {:induction false} DeviationIs(shards: seq<ShardInfo>, from: real)
    ensures Deviation(shards, from) == Total(shards) - ActiveCount(shards) as real * from
  {
    if shards != [] { DeviationIs(shards[..|shards| - 1], from); }
  }

  lemma {:induction false} NoneActive(shards: seq<ShardInfo>)
    ensures ActiveCount(shards) == 0 <==> forall i :: 0 <= i < |shards| ==> !shards[i].active
  {
    if shards != [] { NoneActive(shards[..|shards| - 1]); }
  }

  /** The distances of the active shards from the average cancel out; without an active shard it counts as one. */
  lemma AverageBalances(shards: seq<ShardInfo>)
    ensures (forall i :: 0 <= i < |shards| ==> !shards[i].active) ==> Average(shards) == 1.0
    ensures (exists i :: 0 <= i < |shards| && shards[i].active) ==> Deviation(shards, Average(shards)) == 0.0
  {
    NoneActive(shards);
    if ActiveCount(shards) > 0 { DeviationCancels(shards); }
  }

  lemma DeviationCancels(shards: seq<ShardInfo>)
    requires ActiveCount(shards) > 0
    ensures Deviation(shards, Average(shards)) == 0.0
  {
    DeviationIs(shards, Average(shards));
    MeanTimes(Total(shards), ActiveCount(shards));
  }

  lemma MeanTimes(total: real, count: nat)
    requires count > 0
    ensures count as real * Mean(total, count) == total
  {
  }

  /** Records that would leave a shard, given its excess load. */
  function RecordsToMove(recordCount: int, excess: real): int {
    Truncate(recordCount as real * excess * 0.1)
  }

  /** A tenth of what the excess stands for, without a fraction: so there is something to move from ten on. */
  lemma RecordsMean(recordCount: int, excess: real)
    ensures var tenth := recordCount as real * excess * 0.1; var n := RecordsToMove(recordCount, excess);
      (tenth >= 0.0 ==> 0.0 <= n as real <= tenth < n as real + 1.0) &&
      (n > 0 <==> recordCount as real * excess >= 10.0)
  {
    TruncateMeans(recordCount as real * excess * 0.1);
  }

  function MigrationOf(s: ShardInfo, average: real, from: nat, to: nat): Migration {
    Migration(from, to, RecordsToMove(s.recordCount, s.loadFactor - average))
  }

  predicate Moves(s: ShardInfo, average: real) {
    s.loadFactor - average > 0.0 && RecordsToMove(s.recordCount, s.loadFactor - average) > 0
  }

  /** A shard has something to move exactly if it is above the average and ten or more records go with its excess. */
  lemma MovesExactlyWhen(s: ShardInfo, average: real)
    ensures Moves(s, average) <==>
      s.loadFactor > average && s.recordCount as real * (s.loadFactor - average) >= 10.0
  {
    RecordsMean(s.recordCount, s.loadFactor - average);
  }

  ghost predicate Indices(xs: seq<nat>, n: nat) {
    forall j :: 0 <= j < |xs| ==> xs[j] < n
  }

  ghost predicate NoRepeats(xs: seq<nat>) {
    forall i, j :: 0 <= i < j < |xs| ==> xs[i] != xs[j]
  }

  /** The overloaded shards that have records worth moving, in order. */
  ghost function Movers(shards: seq<ShardInfo>, average: real, overloaded: seq<nat>): (r: seq<nat>)
    requires Indices(overloaded, |shards|)
    ensures Indices(r, |shards|)
  {
    if overloaded == [] then []
    else
      var last := |overloaded| - 1;
      var earlier := Movers(shards, average, overloaded[..last]);
      if Moves(shards[overloaded[last]], average) then earlier + [overloaded[last]] else earlier
  }

  lemma {:induction false} MoversLaws(shards: seq<ShardInfo>, average: real, overloaded: seq<nat>)
    requires Indices(overloaded, |shards|)
    ensures forall i: nat :: i in Movers(shards, average, overloaded) <==>
      i in overloaded && i < |shards| && Moves(shards[i], average)
    ensures NoRepeats(overloaded) ==> NoRepeats(Movers(shards, average, overloaded))
  {
    if overloaded != [] {
      var last := |overloaded| - 1;
      MoversLaws(shards, average, overloaded[..last]);
      assert overloaded == overloaded[..last] + [overloaded[last]];
    }
  }

  /** One migration for each mover, all to the same target. */
  ghost function Plan(shards: seq<ShardInfo>, average: real, movers: seq<nat>, target: nat): seq<Migration>
    requires Indices(movers, |shards|)
  {
    seq(|movers|, j requires 0 <= j < |movers| =>
      MigrationOf(shards[movers[j]], average, movers[j], target))
  }

  /** A tenth of the excess carried from one shard to another. */
  function Shift(shards: seq<ShardInfo>, from: nat, to: nat, load: real): seq<ShardInfo>
    requires from < |shards| && to < |shards|
  {
    var s := shards[from := shards[from].(loadFactor := shards[from].loadFactor - load)];
    s[to := s[to].(loadFactor := s[to].loadFactor + load)]
  }

  /** A tenth of what a shard has above the average. */
  function Tenth(s: ShardInfo, average: real): real { (s.loadFactor - average) * 0.1 }

  /** One mover handled: a tenth of its excess goes to the target. */
  function Relieve(shards: seq<ShardInfo>, average: real, from: nat, target: nat): (r: seq<ShardInfo>)
    requires from < |shards| && target < |shards|
    ensures |r| == |shards|
  {
    Shift(shards, from, target, Tenth(shards[from], average))
  }

  /** The shards after the movers have been handled in turn. */
  ghost function Rebalanced(shards: seq<ShardInfo>, average: real, movers: seq<nat>, target: nat): (r: seq<ShardInfo>)
    requires Indices(movers, |shards|) && target < |shards|
    ensures |r| == |shards|
  {
    if movers == [] then shards
    else Relieve(Rebalanced(shards, average, movers[..|movers| - 1], target), average, movers[|movers| - 1], target)
  }

  lemma {:induction false} RebalancedActive(shards: seq<ShardInfo>, average: real, movers: seq<nat>, target: nat,
                                            i: nat)
    requires Indices(movers, |shards|) && target < |shards| && i < |shards|
    ensures Rebalanced(shards, average, movers, target)[i].active == shards[i].active
  {
    if movers != [] { RebalancedActive(shards, average, movers[..|movers| - 1], target, i); }
  }

  lemma {:induction false} TotalUpdate(shards: seq<ShardInfo>, i: nat, load: real)
    requires i < |shards| && shards[i].active
    ensures var s' := shards[i := shards[i].(loadFactor := load)];
      Total(s') == Total(shards) - shards[i].loadFactor + load && ActiveCount(s') == ActiveCount(shards)
  {
    var n := |shards| - 1;
    var s' := shards[i := shards[i].(loadFactor := load)];
    if i == n {
      assert s'[..n] == shards[..n];
    } else {
      TotalUpdate(shards[..n], i, load);
      assert s'[..n] == shards[..n][i := shards[i].(loadFactor := load)];
    }
  }

  lemma {:induction false} ShiftConserves(shards: seq<ShardInfo>, from: nat, to: nat, load: real)
    requires from < |shards| && to < |shards| && shards[from].active && shards[to].active
    ensures Total(Shift(shards, from, to, load)) == Total(shards)
    ensures ActiveCount(Shift(shards, from, to, load)) == ActiveCount(shards)
  {
    var s := shards[from := shards[from].(loadFactor := shards[from].loadFactor - load)];
    TotalUpdate(shards, from, shards[from].loadFactor - load);
    TotalUpdate(s, to, s[to].loadFactor + load);
  }

  lemma RelieveConserves(shards: seq<ShardInfo>, average: real, from: nat, target: nat)
    requires from < |shards| && target < |shards| && shards[from].active && shards[target].active
    ensures Total(Relieve(shards, average, from, target)) == Total(shards)
    ensures ActiveCount(Relieve(shards, average, from, target)) == ActiveCount(shards)
  {
    ShiftConserves(shards, from, target, Tenth(shards[from], average));
  }

  /** Rebalancing moves load about and creates none. */
  lemma {:induction false} RebalancedConserves(shards: seq<ShardInfo>, average: real, movers: seq<nat>, target: nat)
    requires Indices(movers, |shards|) && target < |shards| && shards[target].active
    requires forall j :: 0 <= j < |movers| ==> shards[movers[j]].active
    ensures var r := Rebalanced(shards, average, movers, target);
      Total(r) == Total(shards) && ActiveCount(r) == ActiveCount(shards) && Average(r) == Average(shards)
  {
    if movers != [] {
      var last := |movers| - 1;
      var s := Rebalanced(shards, average, movers[..last], target);
      RebalancedConserves(shards, average, movers[..last], target);
      RebalancedActive(shards, average, movers[..last], target, movers[last]);
      RebalancedActive(shards, average, movers[..last], target, target);
      RelieveConserves(s, average, movers[last], target);
    }
  }

  /** A shard left with nine tenths of its excess. */
  function Relieved(s: ShardInfo, average: real): ShardInfo {
    s.(loadFactor := average + 0.9 * (s.loadFactor - average))
  }

  lemma RelieveAt(shards: seq<ShardInfo>, average: real, from: nat, target: nat, i: nat)
    requires from < |shards| && target < |shards| && i < |shards| && i != target
    ensures Relieve(shards, average, from, target)[i] ==
      if i == from then Relieved(shards[i], average) else shards[i]
  {
  }

  /**
   A mover that is not itself the target ends at the average plus nine tenths of its excess, however many
   others move; a shard that is neither a mover nor the target is left alone.
   */
  lemma {:induction false} RebalancedShard(shards: seq<ShardInfo>, average: real, movers: seq<nat>, target: nat, i: nat)
    requires NoRepeats(movers) && Indices(movers, |shards|) && target < |shards| && i < |shards| && i != target
    ensures Rebalanced(shards, average, movers, target)[i] ==
      if i in movers then Relieved(shards[i], average) else shards[i]
  {
    if movers != [] {
      var last := |movers| - 1;
      RebalancedShard(shards, average, movers[..last], target, i);
      assert movers == movers[..last] + [movers[last]];
      if i == movers[last] { assert i !in movers[..last]; }
      RelieveAt(Rebalanced(shards, average, movers[..last], target), average, movers[last], target, i);
    }
  }

  // ---------- The loop over the sources ----------

  /**
   What one source comes to, with the average of the moment: the loads afterwards, and the migration if there is
   one.
   */
  ghost function LoadsAfter(shards: seq<ShardInfo>, from: nat, target: nat): (r: seq<ShardInfo>)
    requires from < |shards| && target < |shards|
    ensures |r| == |shards|
  {
    if Moves(shards[from], Average(shards)) then Relieve(shards, Average(shards), from, target) else shards
  }

  ghost function PlannedFrom(shards: seq<ShardInfo>, from: nat, target: nat): seq<Migration>
    requires from < |shards|
  {
    var s := shards[from];
    if Moves(s, Average(shards)) then [MigrationOf(s, Average(shards), from, target)] else []
  }

  /** All sources handled one after another, whatever shards they are. */
  ghost function Handled(shards: seq<ShardInfo>, overloaded: seq<nat>, target: nat)
    : (r: (seq<ShardInfo>, seq<Migration>))
    requires Indices(overloaded, |shards|) && target < |shards|
    ensures |r.0| == |shards|
  {
    if overloaded == [] then (shards, [])
    else
      var (loads, plan) := Handled(shards, overloaded[..|overloaded| - 1], target);
      var from := overloaded[|overloaded| - 1];
      (LoadsAfter(loads, from, target), plan + PlannedFrom(loads, from, target))
  }

  lemma HandledSnoc(shards: seq<ShardInfo>, overloaded: seq<nat>, k: nat, target: nat)
    requires Indices(overloaded, |shards|) && k < |overloaded| && target < |shards|
    ensures var (loads, plan) := Handled(shards, overloaded[..k], target); var from := overloaded[k];
      Handled(shards, overloaded[..k + 1], target) ==
        (LoadsAfter(loads, from, target), plan + PlannedFrom(loads, from, target))
  {
    assert overloaded[..k + 1][..k] == overloaded[..k];
  }

  /** The plan after k sources, as one of a fixed average. */
  ghost predicate At(start: seq<ShardInfo>, average: real, overloaded: seq<nat>, k: nat, target: nat,
                     shards: seq<ShardInfo>, migrations: seq<Migration>)
    requires Indices(overloaded, |start|) && k <= |overloaded| && target < |start|
  {
    var movers := Movers(start, average, overloaded[..k]);
    shards == Rebalanced(start, average, movers, target) && migrations == Plan(start, average, movers, target)
  }

  lemma MoversSnoc(start: seq<ShardInfo>, average: real, overloaded: seq<nat>, k: nat)
    requires Indices(overloaded, |start|) && k < |overloaded|
    ensures Movers(start, average, overloaded[..k + 1]) ==
      Movers(start, average, overloaded[..k]) + if Moves(start[overloaded[k]], average) then [overloaded[k]] else []
  {
    assert overloaded[..k + 1][..k] == overloaded[..k];
  }

  lemma RebalancedSnoc(start: seq<ShardInfo>, average: real, movers: seq<nat>, from: nat, target: nat)
    requires Indices(movers, |start|) && from < |start| && target < |start|
    ensures Rebalanced(start, average, movers + [from], target) ==
      Relieve(Rebalanced(start, average, movers, target), average, from, target)
  {
    assert (movers + [from])[..|movers|] == movers;
  }

  lemma PlanSnoc(start: seq<ShardInfo>, average: real, movers: seq<nat>, from: nat, target: nat)
    requires Indices(movers, |start|) && from < |start|
    ensures Plan(start, average, movers + [from], target) == Plan(start, average, movers, target)
      + [MigrationOf(start[from], average, from, target)]
  {
  }

  /** Before a source is handled it is untouched, and the average is the one at the beginning. */
  lemma AtUntouched(start: seq<ShardInfo>, overloaded: seq<nat>, k: nat, target: nat, shards: seq<ShardInfo>,
                    migrations: seq<Migration>)
    requires NoRepeats(overloaded) && Indices(overloaded, |start|) && k < |overloaded| && target < |start| &&
      target !in overloaded
    requires start[target].active && forall j :: 0 <= j < |overloaded| ==> start[overloaded[j]].active
    requires At(start, Average(start), overloaded, k, target, shards, migrations)
    ensures |shards| == |start| && Average(shards) == Average(start) && shards[overloaded[k]] == start[overloaded[k]]
  {
    var from := overloaded[k];
    var movers := Movers(start, Average(start), overloaded[..k]);
    MoversLaws(start, Average(start), overloaded[..k]);
    forall j | 0 <= j < |movers| ensures start[movers[j]].active {
      assert movers[j] in movers;
      assert movers[j] in overloaded[..k];
    }
    RebalancedConserves(start, Average(start), movers, target);
    assert from in overloaded && from !in overloaded[..k];
    RebalancedShard(start, Average(start), movers, target, from);
  }

  /** A source with nothing to move leaves the plan as it is. */
  lemma AtStill(start: seq<ShardInfo>, average: real, overloaded: seq<nat>, k: nat, target: nat,
                shards: seq<ShardInfo>, migrations: seq<Migration>)
    requires Indices(overloaded, |start|) && k < |overloaded| && target < |start|
    requires At(start, average, overloaded, k, target, shards, migrations)
    requires !Moves(start[overloaded[k]], average)
    ensures At(start, average, overloaded, k + 1, target, shards, migrations + [])
  {
    MoversSnoc(start, average, overloaded, k);
    assert migrations + [] == migrations;
    assert Movers(start, average, overloaded[..k + 1]) == Movers(start, average, overloaded[..k]);
  }

  /** A source that moves adds one shift and one migration. */
  lemma AtMoved(start: seq<ShardInfo>, average: real, overloaded: seq<nat>, k: nat, target: nat,
                shards: seq<ShardInfo>, migrations: seq<Migration>)
    requires Indices(overloaded, |start|) && k < |overloaded| && target < |start| && |shards| == |start|
    requires At(start, average, overloaded, k, target, shards, migrations)
    requires Moves(start[overloaded[k]], average)
    ensures var from := overloaded[k];
      At(start, average, overloaded, k + 1, target, Relieve(shards, average, from, target),
         migrations + [MigrationOf(start[from], average, from, target)])
  {
    var movers := Movers(start, average, overloaded[..k]);
    MoversSnoc(start, average, overloaded, k);
    assert Movers(start, average, overloaded[..k + 1]) == movers + [overloaded[k]];
    RebalancedSnoc(start, average, movers, overloaded[k], target);
    PlanSnoc(start, average, movers, overloaded[k], target);
  }

  /** A source handled adds what it plans, if anything. */
  lemma AtHandled(start: seq<ShardInfo>, average: real, overloaded: seq<nat>, k: nat, target: nat,
                  loads: seq<ShardInfo>, plan: seq<Migration>)
    requires Indices(overloaded, |start|) && k < |overloaded| && target < |start| && |loads| == |start|
    requires At(start, average, overloaded, k, target, loads, plan)
    requires Average(loads) == average && loads[overloaded[k]] == start[overloaded[k]]
    ensures var from := overloaded[k];
      At(start, average, overloaded, k + 1, target,
         LoadsAfter(loads, from, target), plan + PlannedFrom(loads, from, target))
  {
    var from := overloaded[k];
    if Moves(start[from], average) {
      AtMoved(start, average, overloaded, k, target, loads, plan);
      assert LoadsAfter(loads, from, target) == Relieve(loads, average, from, target);
      assert PlannedFrom(loads, from, target) == [MigrationOf(start[from], average, from, target)];
    } else {
      AtStill(start, average, overloaded, k, target, loads, plan);
    }
  }

  ghost predicate AllActive(shards: seq<ShardInfo>, xs: seq<nat>)
    requires Indices(xs, |shards|)
  {
    forall j :: 0 <= j < |xs| ==> shards[xs[j]].active
  }

  /**
   With different active sources and a target that is none of them the average stays what it was, so the
   result is the plan of one fixed average.
   */
  lemma {:induction false} HandledIsPlanned(shards: seq<ShardInfo>, overloaded: seq<nat>, k: nat, target: nat)
    requires NoRepeats(overloaded) && Indices(overloaded, |shards|) && k <= |overloaded|
    requires target < |shards| && target !in overloaded && shards[target].active && AllActive(shards, overloaded)
    ensures var r := Handled(shards, overloaded[..k], target);
      At(shards, Average(shards), overloaded, k, target, r.0, r.1)
  {
    if k > 0 {
      var j := k - 1;
      HandledIsPlanned(shards, overloaded, j, target);
      var (loads, plan) := Handled(shards, overloaded[..j], target);
      AtUntouched(shards, overloaded, j, target, loads, plan);
      AtHandled(shards, Average(shards), overloaded, j, target, loads, plan);
      HandledSnoc(shards, overloaded, j, target);
      assert j + 1 == k;
    } else {
      assert overloaded[..0] == [];
    }
  }

  ghost predicate SameActive(a: seq<ShardInfo>, b: seq<ShardInfo>) {
    |a| == |b| && forall i :: 0 <= i < |a| ==> a[i].active == b[i].active
  }

  /** Even when a shard is source and target, or source more than once, no load appears or vanishes. */
  lemma {:induction false} HandledConserves(shards: seq<ShardInfo>, overloaded: seq<nat>, target: nat)
    requires Indices(overloaded, |shards|) && target < |shards| && shards[target].active &&
      AllActive(shards, overloaded)
    ensures var r := Handled(shards, overloaded, target).0;
      SameActive(r, shards) &&
      Total(r) == Total(shards) && ActiveCount(r) == ActiveCount(shards) && Average(r) == Average(shards)
  {
    if overloaded != [] {
      var last := |overloaded| - 1;
      HandledConserves(shards, overloaded[..last], target);
      var before := Handled(shards, overloaded[..last], target).0;
      RelieveConserves(before, Average(before), overloaded[last], target);
    }
  }

  /** Whether some source has records worth moving as the loads are at first. */
  predicate SomeMoves(shards: seq<ShardInfo>, overloaded: seq<nat>)
    requires Indices(overloaded, |shards|)
  {
    overloaded != [] &&
    (SomeMoves(shards, overloaded[..|overloaded| - 1]) ||
     Moves(shards[overloaded[|overloaded| - 1]], Average(shards)))
  }

  lemma {:induction false} SomeMovesMeans(shards: seq<ShardInfo>, overloaded: seq<nat>)
    requires Indices(overloaded, |shards|)
    ensures SomeMoves(shards, overloaded) <==> exists i :: i in overloaded && Moves(shards[i], Average(shards))
  {
    if overloaded != [] {
      var last := |overloaded| - 1;
      SomeMovesMeans(shards, overloaded[..last]);
      assert overloaded == overloaded[..last] + [overloaded[last]];
    }
  }

  /** Without a migration nothing has moved; and there is none exactly if no source was worth moving to begin with. */
  lemma {:induction false} NoMigrationNoMove(shards: seq<ShardInfo>, overloaded: seq<nat>, target: nat)
    requires Indices(overloaded, |shards|) && target < |shards|
    ensures Handled(shards, overloaded, target).1 == [] ==> Handled(shards, overloaded, target).0 == shards
    ensures Handled(shards, overloaded, target).1 == [] <==> !SomeMoves(shards, overloaded)
  {
    if overloaded != [] { NoMigrationNoMove(shards, overloaded[..|overloaded| - 1], target); }
  }

  /** Some load is both overloaded and underloaded exactly if average and threshold differ in sign. */
  lemma OverAndUnderExactlyWhen(average: real, threshold: real)
    ensures (exists load: real :: Over(load, average, threshold) && Under(load, average, threshold)) <==>
      average * threshold < 0.0
  {
    assert average * (1.0 + threshold) == average + average * threshold;
    assert average * (1.0 - threshold) == average - average * threshold;
    if average * threshold < 0.0 {
      assert Over(average, average, threshold) && Under(average, average, threshold);
    }
  }

  predicate Over(load: real, average: real, threshold: real) { load > average * (1.0 + threshold) }

  predicate Under(load: real, average: real, threshold: real) { load < average * (1.0 - threshold) }

  ghost predicate IsOver(shards: seq<ShardInfo>, threshold: real, i: nat) {
    i < |shards| && shards[i].active && shards[i].loadFactor - Average(shards) > Average(shards) * threshold
  }

  ghost predicate IsUnder(shards: seq<ShardInfo>, threshold: real, i: nat) {
    i < |shards| && shards[i].active && Average(shards) - shards[i].loadFactor > Average(shards) * threshold
  }

  ghost predicate FoundOver(shards: seq<ShardInfo>, threshold: real, found: seq<nat>) {
    NoRepeats(found) && Indices(found, |shards|) && forall i :: i in found <==> IsOver(shards, threshold, i)
  }

  ghost predicate FoundUnder(shards: seq<ShardInfo>, threshold: real, found: seq<nat>) {
    NoRepeats(found) && Indices(found, |shards|) && forall i :: i in found <==> IsUnder(shards, threshold, i)
  }

  lemma AllOver(shards: seq<ShardInfo>, threshold: real, overloaded: seq<nat>)
    requires Indices(overloaded, |shards|) && forall i :: i in overloaded ==> IsOver(shards, threshold, i)
    ensures AllActive(shards, overloaded)
  {
    forall j | 0 <= j < |overloaded| ensures shards[overloaded[j]].active {
      assert overloaded[j] in overloaded;
    }
  }

  /** From an overloaded shard to another, underloaded one, which relieves the first of a tenth of its excess. */
  ghost predicate GoodMigration(before: seq<ShardInfo>, threshold: real, m: Migration, after: seq<ShardInfo>) {
    m.from != m.to && IsOver(before, threshold, m.from) && IsUnder(before, threshold, m.to) &&
    (var moved := before[m.from].recordCount as real * (before[m.from].loadFactor - Average(before)) * 0.1;
     0.0 < m.recordCount as real <= moved < m.recordCount as real + 1.0) &&
    m.from < |after| && after[m.from] == Relieved(before[m.from], Average(before))
  }

  /** Each overloaded source once, and all to one target. */
  ghost predicate GoodPlan(before: seq<ShardInfo>, threshold: real, plan: seq<Migration>, after: seq<ShardInfo>) {
    (forall i, j :: 0 <= i < j < |plan| ==> plan[i].from != plan[j].from) &&
    forall j :: 0 <= j < |plan| ==> plan[j].to == plan[0].to && GoodMigration(before, threshold, plan[j], after)
  }

  predicate SameSign(average: real, threshold: real) { average * threshold >= 0.0 }

  /**
   Whatever the threshold, no load appears or vanishes and the average stays; and the plan is a good one if
   threshold and average agree in sign.
   */
  ghost predicate Outcome(before: seq<ShardInfo>, threshold: real, plan: seq<Migration>, after: seq<ShardInfo>) {
    SameActive(after, before) && Total(after) == Total(before) && Average(after) == Average(before) &&
    (SameSign(Average(before), threshold) ==> GoodPlan(before, threshold, plan, after))
  }

  /** Some shard can take load, and some overloaded shard has records worth moving. */
  ghost predicate PlanExists(shards: seq<ShardInfo>, threshold: real) {
    (exists i: nat :: IsUnder(shards, threshold, i)) &&
    exists i: nat :: IsOver(shards, threshold, i) && Moves(shards[i], Average(shards))
  }

  lemma PlanExistsMeans(shards: seq<ShardInfo>, threshold: real, overloaded: seq<nat>, underloaded: seq<nat>)
    requires FoundOver(shards, threshold, overloaded) && FoundUnder(shards, threshold, underloaded)
    ensures PlanExists(shards, threshold) <==> underloaded != [] && SomeMoves(shards, overloaded)
  {
    SomeMovesMeans(shards, overloaded);
    if underloaded != [] { assert underloaded[0] in underloaded; }
  }

  lemma PlanOutcome(shards: seq<ShardInfo>, threshold: real, overloaded: seq<nat>, underloaded: seq<nat>)
    requires FoundOver(shards, threshold, overloaded) && FoundUnder(shards, threshold, underloaded) && underloaded != []
    ensures var r := Handled(shards, overloaded, underloaded[0]);
      Outcome(shards, threshold, r.1, r.0) && (r.1 == [] ==> r.0 == shards) &&
      (r.1 != [] <==> PlanExists(shards, threshold))
  {
    assert underloaded[0] in underloaded;
    AllOver(shards, threshold, overloaded);
    HandledConserves(shards, overloaded, underloaded[0]);
    NoMigrationNoMove(shards, overloaded, underloaded[0]);
    PlanExistsMeans(shards, threshold, overloaded, underloaded);
    if SameSign(Average(shards), threshold) { PlanIsGood(shards, threshold, overloaded, underloaded[0]); }
  }

  lemma MigrationIsGood(shards: seq<ShardInfo>, threshold: real, movers: seq<nat>, target: nat, from: nat)
    requires SameSign(Average(shards), threshold) && NoRepeats(movers) && Indices(movers, |shards|) && from in movers
    requires IsOver(shards, threshold, from) && IsUnder(shards, threshold, target)
    requires Moves(shards[from], Average(shards))
    ensures var average := Average(shards);
      GoodMigration(shards, threshold, MigrationOf(shards[from], average, from, target),
                    Rebalanced(shards, average, movers, target))
  {
    OverAndUnderExactlyWhen(Average(shards), threshold);
    RebalancedShard(shards, Average(shards), movers, target, from);
  }

  lemma PlanIsGood(shards: seq<ShardInfo>, threshold: real, overloaded: seq<nat>, target: nat)
    requires SameSign(Average(shards), threshold) && NoRepeats(overloaded) && Indices(overloaded, |shards|)
    requires (forall i :: i in overloaded ==> IsOver(shards, threshold, i)) && IsUnder(shards, threshold, target)
    ensures var r := Handled(shards, overloaded, target); GoodPlan(shards, threshold, r.1, r.0)
  {
    var average := Average(shards);
    OverAndUnderExactlyWhen(average, threshold);
    assert target !in overloaded;
    AllOver(shards, threshold, overloaded);
    HandledIsPlanned(shards, overloaded, |overloaded|, target);
    assert overloaded[..|overloaded|] == overloaded;
    var movers := Movers(shards, average, overloaded);
    var plan := Plan(shards, average, movers, target);
    MoversLaws(shards, average, overloaded);
    forall j | 0 <= j < |plan|
      ensures plan[j].from == movers[j] && plan[j].to == target
      ensures GoodMigration(shards, threshold, plan[j], Rebalanced(shards, average, movers, target))
    {
      assert movers[j] in movers;
      MigrationIsGood(shards, threshold, movers, target, movers[j]);
    }
  }

  class ShardManager {
    var shards: seq<ShardInfo>
    const threshold: real

    method CalculateAverageLoadFactor() returns (average: real)
      ensures average == Average(shards)
    {
      var total, count := 0.0, 0;
      for i := 0 to |shards|
        invariant total == Total(shards[..i]) && count == ActiveCount(shards[..i])
      {
        assert shards[..i + 1][..i] == shards[..i];
        if shards[i].active { total, count := total + shards[i].loadFactor, count + 1; }
      }
      assert shards[..|shards|] == shards;
      return Mean(total, count);
    }

    method FindOverloadedShards() returns (found: seq<nat>)
      ensures FoundOver(shards, threshold, found)
    {
      var average := CalculateAverageLoadFactor();
      found := [];
      for i := 0 to |shards|
        invariant NoRepeats(found) && Indices(found, i)
        invariant forall k: nat :: k in found <==>
          k < i && shards[k].active && Over(shards[k].loadFactor, average, threshold)
      {
        if shards[i].active && shards[i].loadFactor > average * (1.0 + threshold) { found := found + [i]; }
      }
    }

    method FindUnderloadedShards() returns (found: seq<nat>)
      ensures FoundUnder(shards, threshold, found)
    {
      var average := CalculateAverageLoadFactor();
      found := [];
      for i := 0 to |shards|
        invariant NoRepeats(found) && Indices(found, i)
        invariant forall k: nat :: k in found <==>
          k < i && shards[k].active && Under(shards[k].loadFactor, average, threshold)
      {
        if shards[i].active && shards[i].loadFactor < average * (1.0 - threshold) { found := found + [i]; }
      }
    }

    /** The inner loop: the first target is taken, since what would move does not depend on the target. */
    method MoveFrom(from: nat, underloaded: seq<nat>) returns (planned: seq<Migration>)
      requires from < |shards| && Indices(underloaded, |shards|)
      modifies this
      ensures underloaded == [] ==> shards == old(shards) && planned == []
      ensures underloaded != [] ==>
        shards == LoadsAfter(old(shards), from, underloaded[0]) &&
        planned == PlannedFrom(old(shards), from, underloaded[0])
    {
      planned := [];
      for j := 0 to |underloaded|
        invariant shards == old(shards)
        invariant j > 0 ==> !Moves(shards[from], Average(shards))
      {
        var to := underloaded[j];
        var average := CalculateAverageLoadFactor();
        var excess := shards[from].loadFactor - average;
        if excess <= 0.0 { continue; }
        var records := RecordsToMove(shards[from].recordCount, excess);
        if records > 0 {
          planned := [Migration(from, to, records)];
          shards := shards[from := shards[from].(loadFactor := shards[from].loadFactor - excess * 0.1)];
          shards := shards[to := shards[to].(loadFactor := shards[to].loadFactor + excess * 0.1)];
          return;
        }
      }
    }

    /** Every source in turn, with the average of the moment. All get the first underloaded shard as their target. */
    method CreateMigrations(overloaded: seq<nat>, underloaded: seq<nat>) returns (migrations: seq<Migration>)
      requires Indices(overloaded, |shards|) && Indices(underloaded, |shards|)
      modifies this
      ensures underloaded == [] ==> shards == old(shards) && migrations == []
      ensures underloaded != [] ==> (shards, migrations) == Handled(old(shards), overloaded, underloaded[0])
    {
      migrations := [];
      ghost var start := shards;
      for k := 0 to |overloaded|
        invariant |shards| == |start|
        invariant underloaded == [] ==> shards == start && migrations == []
        invariant underloaded != [] ==> (shards, migrations) == Handled(start, overloaded[..k], underloaded[0])
      {
        if underloaded != [] { HandledSnoc(start, overloaded, k, underloaded[0]); }
        var planned := MoveFrom(overloaded[k], underloaded);
        migrations := migrations + planned;
      }
      assert overloaded[..|overloaded|] == overloaded;
    }

    /**
     The plan: there is one exactly if it is needed, some shard is underloaded, and some overloaded shard has
     records worth moving at the average. Without it nothing has moved. If threshold and average agree in sign,
     no migration has its source as its target and no shard is a source twice.
     */
    method CreateRebalancePlan(needed: bool) returns (plan: Option<seq<Migration>>)
      modifies this
      ensures plan.Some? <==> needed && PlanExists(old(shards), threshold)
      ensures plan.None? ==> shards == old(shards)
      ensures plan.Some? ==> plan.value != [] && Outcome(old(shards), threshold, plan.value, shards)
    {
      if !needed { return None; }
      var overloaded := FindOverloadedShards();
      var underloaded := FindUnderloadedShards();
      PlanExistsMeans(shards, threshold, overloaded, underloaded);
      if |overloaded| == 0 || |underloaded| == 0 { return None; }
      PlanOutcome(shards, threshold, overloaded, underloaded);
      var migrations := CreateMigrations(overloaded, underloaded);
      if |migrations| == 0 { return None; }
      return Some(migrations);
    }
  }
}
