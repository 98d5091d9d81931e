/**
 The batch writer's circuit breaker, access by access. Neither the writer nor an operator who closes the
 circuit holds a lock, so a reset may fall between any two accesses of the error handler. Every load
 and every store of a field is taken as one step.

 `errors`, `loadedErrors` and `resetSinceTest` are history: the write errors that the stored backoff counts,
 those counted by the value last loaded, and whether a reset has stored its backoff since the backoff was
 last found to be at its maximum.
 */
module CircuitBreaker {
  import opened Prelude

  const FIRST_BACKOFF := 100
  const MAX_BACKOFF := 5000

  /** The backoff after a number of write errors in a row. */
  function Backoff(errors: nat): nat {
    if errors == 0 then FIRST_BACKOFF
    else
      var doubled := 2 * Backoff(errors - 1);
      if doubled > MAX_BACKOFF then MAX_BACKOFF else doubled
  }

  /** The sixth error in a row is the one that opens the circuit. */
  lemma {:induction false} OpensAtSix(errors: nat)
    ensures Backoff(errors) == MAX_BACKOFF <==> errors >= 6
  {
    if errors > 6 {
      OpensAtSix(errors - 1);
    } else {
      assert Backoff(1) == 200 && Backoff(2) == 400 && Backoff(3) == 800;
      assert Backoff(4) == 1600 && Backoff(5) == 3200 && Backoff(6) == 5000;
    }
  }

  /** Where the writer's goroutine is: the access it makes next. */
  datatype Point =
    | Resting    // takes the next batch
    | Holding    // loads the circuit
    | Writing    // writes to the database
    | Restoring  // stores the first backoff
    | Failing    // loads the backoff
    | Doubling   // stores it doubled
    | Clamping   // compares it with the maximum
    | Capping    // stores the maximum
    | Testing    // tests it for the maximum
    | Opening    // stores the open circuit

  datatype Breaker = Breaker(
    at: Point, loaded: nat, open: bool, backoff: nat, closing: nat,
    errors: nat, loadedErrors: nat, resetSinceTest: bool)

  /** The writer's next access, or one of the two stores of an operator's reset. */
  datatype Access =
    | Turn(took: bool, accepted: bool)
    | CloseFirst
    | CloseSecond

  function Begin(): Breaker { Breaker(Resting, 0, false, FIRST_BACKOFF, 0, 0, 0, false) }

  /** `took` and `accepted` say how taking a batch and writing it went, where that is the access. */
  function TakeTurn(b: Breaker, took: bool, accepted: bool): Breaker {
    match b.at
    case Resting => if took then b.(at := Holding) else b
    case Holding => b.(at := if b.open then Resting else Writing)
    case Writing => b.(at := if accepted then Restoring else Failing)
    case Restoring => b.(at := Resting, backoff := FIRST_BACKOFF, errors := 0)
    case Failing => b.(at := Doubling, loaded := b.backoff, loadedErrors := b.errors)
    case Doubling => b.(at := Clamping, backoff := 2 * b.loaded, errors := b.loadedErrors + 1)
    case Clamping => b.(at := if b.backoff > MAX_BACKOFF then Capping else Testing)
    case Capping => b.(at := Testing, backoff := MAX_BACKOFF, errors := b.loadedErrors + 1)
    case Testing => if b.backoff == MAX_BACKOFF then b.(at := Opening, resetSinceTest := false) else b.(at := Resting)
    case Opening => b.(at := Resting, open := true)
  }

  function Next(b: Breaker, access: Access): Breaker {
    match access
    case Turn(took, accepted) => TakeTurn(b, took, accepted)
    case CloseFirst => b.(open := false, closing := b.closing + 1)
    case CloseSecond =>
      if b.closing == 0 then b
      else b.(backoff := FIRST_BACKOFF, closing := b.closing - 1, errors := 0, resetSinceTest := true)
  }

  function Run(accesses: seq<Access>): Breaker {
    if accesses == [] then Begin() else Next(Run(accesses[..|accesses| - 1]), accesses[|accesses| - 1])
  }

  // ---------- What survives every interleaving ----------

  predicate InHandler(at: Point) {
    at in {Failing, Doubling, Clamping, Capping, Testing, Opening}
  }

  /** Between the doubling and the clamping the backoff may be above the maximum, unless a reset came in. */
  predicate JustDoubled(b: Breaker) {
    (b.backoff == 2 * Backoff(b.loadedErrors) && b.errors == b.loadedErrors + 1) ||
    (b.backoff == FIRST_BACKOFF && b.errors == 0)
  }

  /** The backoff is the one of the errors it counts; nothing else ever reaches the field for long. */
  predicate BackoffCounts(b: Breaker) {
    match b.at
    case Doubling => b.backoff == Backoff(b.errors) && b.loaded == Backoff(b.loadedErrors)
    case Clamping => JustDoubled(b)
    case Capping => JustDoubled(b) && 2 * Backoff(b.loadedErrors) > MAX_BACKOFF
    case _ => b.backoff == Backoff(b.errors)
  }

  predicate Sound(b: Breaker) {
    BackoffCounts(b) &&
    (InHandler(b.at) || b.at in {Writing, Restoring} ==> !b.open) &&
    (b.errors >= 6 && !b.open ==> b.closing > 0 || b.at in {Clamping, Capping, Testing, Opening}) &&
    (b.open || b.at == Opening ==> (b.errors >= 6 <==> !b.resetSinceTest))
  }

  lemma HandlerSound(b: Breaker, took: bool, accepted: bool)
    requires Sound(b) && InHandler(b.at)
    ensures Sound(TakeTurn(b, took, accepted))
  {
    OpensAtSix(b.errors);
    OpensAtSix(b.loadedErrors + 1);
  }

  lemma NextSound(b: Breaker, access: Access)
    requires Sound(b)
    ensures Sound(Next(b, access))
  {
    if access.Turn? && InHandler(b.at) { HandlerSound(b, access.took, access.accepted); }
  }

  lemma {:induction false} RunSound(accesses: seq<Access>)
    ensures Sound(Run(accesses))
  {
    if accesses != [] {
      RunSound(accesses[..|accesses| - 1]);
      NextSound(Run(accesses[..|accesses| - 1]), accesses[|accesses| - 1]);
    }
  }

  /** No reset is half done and no error is being handled. */
  predicate AtRest(b: Breaker) { b.closing == 0 && !InHandler(b.at) }

  /**
   In every interleaving, once things are at rest: the backoff counts the errors since the last success or
   reset it saw, and six of them have opened the circuit. The converse, that an open circuit has six
   errors to show, holds exactly if no reset stored its backoff after the test that opened the circuit.
   */
  lemma CircuitExactlyWhen(accesses: seq<Access>)
    requires AtRest(Run(accesses))
    ensures var b := Run(accesses);
      b.backoff == Backoff(b.errors) && (b.errors >= 6 ==> b.open) &&
      ((b.open <==> b.errors >= 6) <==> !(b.open && b.resetSinceTest))
  {
    RunSound(accesses);
  }

  /**
   The writer stores the open circuit at this position of a run, or passes its test, or a reset stores its
   backoff.
   */
  ghost predicate OpensAt(accesses: seq<Access>, i: nat) {
    i < |accesses| && accesses[i].Turn? && Run(accesses[..i]).at == Opening
  }

  ghost predicate PassesAt(accesses: seq<Access>, i: nat) {
    i < |accesses| && accesses[i].Turn? && Run(accesses[..i]).at == Testing && Run(accesses[..i]).backoff == MAX_BACKOFF
  }

  ghost predicate ResetsAt(accesses: seq<Access>, i: nat) {
    i < |accesses| && accesses[i].CloseSecond? && Run(accesses[..i]).closing > 0
  }

  /** An opening that no later reset begins to undo. */
  ghost predicate OpenedFrom(accesses: seq<Access>, o: nat) {
    OpensAt(accesses, o) && forall i :: o < i < |accesses| ==> !accesses[i].CloseFirst?
  }

  /** A reset's backoff that no later test has found at the maximum. */
  ghost predicate ResetFrom(accesses: seq<Access>, c: nat) {
    ResetsAt(accesses, c) && forall i :: c < i < |accesses| ==> !PassesAt(accesses, i)
  }

  lemma OpenedEarlier(accesses: seq<Access>, o: nat)
    requires o < |accesses| - 1
    ensures OpenedFrom(accesses, o) <==>
      OpenedFrom(accesses[..|accesses| - 1], o) && !accesses[|accesses| - 1].CloseFirst?
  {
    var n := |accesses| - 1;
    assert accesses[..n][..o] == accesses[..o];
    assert forall i :: o < i < n ==> accesses[..n][i] == accesses[i];
  }

  lemma OpenStep(accesses: seq<Access>)
    requires accesses != []
    ensures var n := |accesses| - 1;
      Run(accesses).open <==> OpensAt(accesses, n) || (Run(accesses[..n]).open && !accesses[n].CloseFirst?)
  {
  }

  lemma {:induction false} OpenMeans(accesses: seq<Access>)
    ensures Run(accesses).open <==> exists o :: OpenedFrom(accesses, o)
  {
    if accesses != [] {
      var n := |accesses| - 1;
      OpenMeans(accesses[..n]);
      OpenStep(accesses);
      if OpensAt(accesses, n) {
        assert OpenedFrom(accesses, n);
      } else if Run(accesses).open {
        var o :| OpenedFrom(accesses[..n], o);
        OpenedEarlier(accesses, o);
        assert OpenedFrom(accesses, o);
      } else if o :| OpenedFrom(accesses, o) {
        assert o != n;
        OpenedEarlier(accesses, o);
      }
    }
  }

  lemma ResetEarlier(accesses: seq<Access>, c: nat)
    requires c < |accesses| - 1
    ensures ResetFrom(accesses, c) <==>
      ResetFrom(accesses[..|accesses| - 1], c) && !PassesAt(accesses, |accesses| - 1)
  {
    var n := |accesses| - 1;
    forall i: nat | i < n ensures PassesAt(accesses[..n], i) == PassesAt(accesses, i) {
      assert accesses[..n][..i] == accesses[..i];
    }
    assert accesses[..n][..c] == accesses[..c];
  }

  lemma NextReset(b: Breaker, access: Access)
    ensures Next(b, access).resetSinceTest <==>
      (access.CloseSecond? && b.closing > 0) ||
      (b.resetSinceTest && !(access.Turn? && b.at == Testing && b.backoff == MAX_BACKOFF))
  {
  }

  lemma ResetStep(accesses: seq<Access>)
    requires accesses != []
    ensures var n := |accesses| - 1;
      Run(accesses).resetSinceTest <==>
        ResetsAt(accesses, n) || (Run(accesses[..n]).resetSinceTest && !PassesAt(accesses, n))
  {
    var n := |accesses| - 1;
    NextReset(Run(accesses[..n]), accesses[n]);
  }

  lemma {:induction false} ResetMeans(accesses: seq<Access>)
    ensures Run(accesses).resetSinceTest <==> exists c :: ResetFrom(accesses, c)
  {
    if accesses != [] {
      var n := |accesses| - 1;
      ResetMeans(accesses[..n]);
      ResetStep(accesses);
      if ResetsAt(accesses, n) {
        assert ResetFrom(accesses, n);
      } else if Run(accesses).resetSinceTest {
        var c :| ResetFrom(accesses[..n], c);
        ResetEarlier(accesses, c);
        assert ResetFrom(accesses, c);
      } else if c :| ResetFrom(accesses, c) {
        assert c != n;
        ResetEarlier(accesses, c);
      }
    }
  }

  /**
   At rest the circuit disagrees with the error count exactly when some reset stored its backoff after the
   last test the writer passed, and none began after the opening that followed: the reset was overrun.
   */
  lemma OverrunExactlyWhen(accesses: seq<Access>)
    requires AtRest(Run(accesses))
    ensures var b := Run(accesses);
      (b.open <==> b.errors >= 6) <==> !((exists o :: OpenedFrom(accesses, o)) && exists c :: ResetFrom(accesses, c))
  {
    CircuitExactlyWhen(accesses);
    OpenMeans(accesses);
    ResetMeans(accesses);
  }

  // ---------- Resets that keep apart ----------

  predicate NoOverlap(b: Breaker) { b.closing == 0 || !InHandler(b.at) }

  /** No reset is half done while an error is handled, at any point of the run. */
  predicate Apart(accesses: seq<Access>) {
    NoOverlap(Run(accesses)) && (accesses == [] || Apart(accesses[..|accesses| - 1]))
  }

  predicate NeverStale(b: Breaker) {
    (b.open ==> !b.resetSinceTest && b.closing == 0) && (b.at == Opening ==> !b.resetSinceTest)
  }

  lemma NextNeverStale(b: Breaker, access: Access)
    requires Sound(b) && NeverStale(b) && NoOverlap(b) && NoOverlap(Next(b, access))
    ensures NeverStale(Next(b, access))
  {
  }

  lemma {:induction false} ApartNeverStale(accesses: seq<Access>)
    requires Apart(accesses)
    ensures NeverStale(Run(accesses))
  {
    if accesses != [] {
      var n := |accesses| - 1;
      ApartNeverStale(accesses[..n]);
      RunSound(accesses[..n]);
      NextNeverStale(Run(accesses[..n]), accesses[n]);
    }
  }

  /** If resets and error handling never overlap, the circuit is open exactly from the sixth error in a row on. */
  lemma ResetsApart(accesses: seq<Access>)
    requires Apart(accesses) && AtRest(Run(accesses))
    ensures var b := Run(accesses); b.open <==> b.errors >= 6
  {
    ApartNeverStale(accesses);
    CircuitExactlyWhen(accesses);
  }

  // ---------- Turns in a row ----------

  lemma RunSnoc(accesses: seq<Access>, access: Access)
    ensures Run(accesses + [access]) == Next(Run(accesses), access)
  {
    assert (accesses + [access])[..|accesses|] == accesses;
  }

  /** How many accesses at most are left of a round. */
  function Left(at: Point): nat {
    match at
    case Resting => 0 case Opening => 1 case Testing => 2 case Capping => 3 case Clamping => 4
    case Doubling => 5 case Failing => 6 case Restoring => 1 case Writing => 7 case Holding => 8
  }

  /** The rest of the writer's round with nothing in between. */
  function Finish(b: Breaker, accepted: bool): (r: Breaker)
    ensures r.at == Resting && r.closing == b.closing
    decreases Left(b.at)
  {
    if b.at == Resting then b else Finish(TakeTurn(b, true, accepted), accepted)
  }

  lemma {:induction false} FinishIsRun(accesses: seq<Access>, accepted: bool) returns (more: seq<Access>)
    ensures Run(accesses + more) == Finish(Run(accesses), accepted)
    decreases Left(Run(accesses).at)
  {
    if Run(accesses).at == Resting {
      more := [];
      assert accesses + more == accesses;
    } else {
      var turn := Turn(true, accepted);
      RunSnoc(accesses, turn);
      var rest := FinishIsRun(accesses + [turn], accepted);
      more := [turn] + rest;
      ConsOnto(accesses, turn, rest);
    }
  }

  /** The error handler with nothing in between: one more error, and open from the sixth on. */
  lemma HandlerAlone(b: Breaker)
    requires b.at == Failing && b.backoff == Backoff(b.errors)
    ensures var a := Finish(b, false);
      a.errors == b.errors + 1 && a.backoff == Backoff(b.errors + 1) && a.open == (b.open || b.errors + 1 >= 6)
  {
    OpensAtSix(b.errors + 1);
    var clamping := TakeTurn(TakeTurn(b, true, false), true, false);
    assert Finish(b, false) == Finish(clamping, false);
    var clamped := TakeTurn(clamping, true, false);
    var testing := if clamped.at == Capping then TakeTurn(clamped, true, false) else clamped;
    assert Finish(clamping, false) == Finish(testing, false);
    var tested := TakeTurn(testing, true, false);
    assert Finish(testing, false) == Finish(tested, false);
    if tested.at == Opening {
      assert Finish(tested, false) == TakeTurn(tested, true, false);
    } else {
      assert Finish(tested, false) == tested;
    }
  }

  /** The next access, where whatever is tried fails. */
  function Failed(b: Breaker): Breaker { TakeTurn(b, true, false) }

  /** A batch taken and refused, up to its error handling. */
  function Refused(b: Breaker): Breaker { Failed(Failed(Failed(b))) }

  lemma FailureIsRun(accesses: seq<Access>) returns (more: seq<Access>)
    requires Run(accesses).at == Resting
    ensures Run(more) == Refused(Run(accesses)) && accesses <= more
  {
    var turn := Turn(true, false);
    RunSnoc(accesses, turn);
    RunSnoc(accesses + [turn], turn);
    RunSnoc(accesses + [turn] + [turn], turn);
    more := accesses + [turn] + [turn] + [turn];
  }

  /** A number of failed writes, one after another. */
  lemma {:induction false} FailuresInARow(errors: nat) returns (accesses: seq<Access>)
    requires errors <= 5
    ensures var b := Run(accesses);
      b.at == Resting && !b.open && b.closing == 0 && b.errors == errors && b.backoff == Backoff(errors)
  {
    accesses := [];
    if errors > 0 {
      accesses := FailuresInARow(errors - 1);
      accesses := FailureIsRun(accesses);
      HandlerAlone(Run(accesses));
      var more := FinishIsRun(accesses, false);
      accesses := accesses + more;
    }
  }

  /** The sixth failure up to the store that opens the circuit: four accesses of its handler and the test. */
  lemma SixthFailure(b: Breaker)
    requires b.at == Failing && b.errors == 5 && b.backoff == Backoff(5) && b.closing == 0
    ensures var t := Failed(Failed(Failed(Failed(Failed(b)))));
      t.at == Opening && t.closing == 0
  {
    OpensAtSix(5);
    OpensAtSix(6);
    assert Backoff(6) == MAX_BACKOFF && b.backoff == 3200 by {
      assert Backoff(1) == 200 && Backoff(2) == 400 && Backoff(3) == 800;
      assert Backoff(4) == 1600 && Backoff(5) == 3200;
    }
  }

  lemma TurnIsRun(accesses: seq<Access>) returns (more: seq<Access>)
    ensures Run(more) == Failed(Run(accesses))
  {
    RunSnoc(accesses, Turn(true, false));
    more := accesses + [Turn(true, false)];
  }

  /**
   A reset can be lost: when it falls between the test and the opening of the sixth error, the circuit is
   open afterwards with the first backoff and no error counted, and what is written next is dropped.
   */
  lemma CloseIsLost() returns (accesses: seq<Access>)
    ensures var b := Run(accesses);
      AtRest(b) && b.open && b.errors == 0 && b.backoff == FIRST_BACKOFF && CloseSecond in accesses
  {
    accesses := FailuresInARow(5);
    accesses := FailureIsRun(accesses);
    SixthFailure(Run(accesses));
    accesses := TurnIsRun(accesses);
    accesses := TurnIsRun(accesses);
    accesses := TurnIsRun(accesses);
    accesses := TurnIsRun(accesses);
    accesses := TurnIsRun(accesses);
    assert Run(accesses).at == Opening && Run(accesses).closing == 0;
    RunSnoc(accesses, CloseFirst);
    RunSnoc(accesses + [CloseFirst], CloseSecond);
    var closed := accesses + [CloseFirst] + [CloseSecond];
    RunSnoc(closed, Turn(true, false));
    accesses := closed + [Turn(true, false)];
    assert accesses[|closed| - 1] == CloseSecond;
  }
}
