/**
 Enqueuers, the buffer's own flushing loop, the batch writer and operators who reset its circuit, in any
 interleaving. The loop throws away what it flushes; the writer writes what it flushes, unless the circuit
 is open. Enqueuing and flushing hold the buffer's lock and are one step each; the loop takes a tick or a
 signal in one step and flushes in another; the writer and the resets take a step for every access of the
 fields they share. `history`, `flushed` and `lost` are history.
 */
module WritePipeline {
  import Circuit = CircuitBreaker
  import opened Prelude
  import opened Wal
  import opened WriteBuffers

  datatype Pipeline = Pipeline(
    seqNo: nat,
    written: seq<Request>,
    buffer: seq<Request>,
    flushPending: bool,
    flushing: bool,
    inFlight: seq<Request>,
    db: seq<Request>,
    breaker: Circuit.Breaker,
    history: seq<Request>,
    flushed: seq<seq<Request>>,
    lost: seq<Request>)

  /**
   The loop waits until it takes a tick or a signal, and then flushes. `result` is what the database answers,
   should the writer's next access be the write.
   */
  datatype Step =
    | Enqueue(request: Request, fault: Fault)
    | LoopTick
    | LoopSignal
    | LoopFlush
    | WriterTurn(result: WriteResult)
    | CloseFirst
    | CloseSecond

  function Start(): Pipeline {
    Pipeline(0, [], [], false, false, [], [], Circuit.Begin(), [], [], [])
  }

  function TakeAll(s: Pipeline): Pipeline {
    s.(buffer := [], flushed := s.flushed + [s.buffer])
  }

  function Discard(s: Pipeline): Pipeline {
    TakeAll(s).(lost := s.lost + s.buffer)
  }

  /** What the writer's next access does to the batches. */
  function MoveBatch(s: Pipeline, result: WriteResult): Pipeline {
    if s.breaker.at.Resting? then TakeAll(s).(inFlight := s.buffer)
    else if s.breaker.at.Holding? && s.breaker.open then s.(inFlight := [], lost := s.lost + s.inFlight)
    else if s.breaker.at.Writing? then
      var taken := Taken(s.inFlight, result);
      s.(inFlight := [], db := s.db + taken, lost := s.lost + s.inFlight[|taken|..])
    else s
  }

  function TakeTurn(s: Pipeline, result: WriteResult): Pipeline {
    MoveBatch(s, result).(breaker := Circuit.TakeTurn(s.breaker, s.buffer != [], result.Accepted?))
  }

  function Next(s: Pipeline, step: Step, maxSize: nat): Pipeline {
    match step
    case Enqueue(r, fault) =>
      var logged := s.(seqNo := s.seqNo + 1, written := AppendTo(s.written, r, s.seqNo + 1, fault));
      if !fault.NoFault? then logged
      else
        var record := r.(walSeq := s.seqNo + 1);
        logged.(buffer := s.buffer + [record], history := s.history + [record],
                flushPending := s.flushPending || |s.buffer| + 1 >= maxSize)
    case LoopTick => s.(flushing := true)
    case LoopSignal => if !s.flushing && s.flushPending then s.(flushing := true, flushPending := false) else s
    case LoopFlush => if s.flushing then Discard(s).(flushing := false) else s
    case WriterTurn(result) => TakeTurn(s, result)
    case CloseFirst => s.(breaker := Circuit.Next(s.breaker, Circuit.CloseFirst))
    case CloseSecond => s.(breaker := Circuit.Next(s.breaker, Circuit.CloseSecond))
  }

  function Run(steps: seq<Step>, maxSize: nat): Pipeline {
    if steps == [] then Start() else Next(Run(steps[..|steps| - 1], maxSize), steps[|steps| - 1], maxSize)
  }

  lemma RunSnoc(steps: seq<Step>, step: Step, maxSize: nat)
    ensures Run(steps + [step], maxSize) == Next(Run(steps, maxSize), step, maxSize)
  {
    assert (steps + [step])[..|steps|] == steps;
  }

  /** What an enqueue comes to. */
  lemma RunEnqueue(steps: seq<Step>, request: Request, fault: Fault, maxSize: nat)
    ensures var s, t := Run(steps, maxSize), Run(steps + [Enqueue(request, fault)], maxSize); var ok := fault.NoFault?;
      t.seqNo == s.seqNo + 1 && t.written == AppendTo(s.written, request, s.seqNo + 1, fault) &&
      t.buffer == (if ok then s.buffer + [request.(walSeq := s.seqNo + 1)] else s.buffer) &&
      t.flushPending == (s.flushPending || (ok && |t.buffer| >= maxSize)) && t.flushing == s.flushing &&
      t.inFlight == s.inFlight && t.db == s.db && t.breaker == s.breaker
  {
    RunSnoc(steps, Enqueue(request, fault), maxSize);
  }

  function Concat(batches: seq<seq<Request>>): seq<Request> {
    if batches == [] then [] else Concat(batches[..|batches| - 1]) + batches[|batches| - 1]
  }

  lemma ConcatSnoc(batches: seq<seq<Request>>, b: seq<Request>)
    ensures Concat(batches + [b]) == Concat(batches) + b
  {
    assert (batches + [b])[..|batches|] == batches;
  }

  // ---------- Order ----------

  ghost predicate Logged(history: seq<Request>, written: seq<Request>, seqNo: nat) {
    Increasing(history) && UpTo(history, seqNo) && Increasing(written) && UpTo(written, seqNo) &&
    forall r :: r in history ==> r in written
  }

  ghost predicate InOrder(s: Pipeline) {
    Concat(s.flushed) + s.buffer == s.history && Logged(s.history, s.written, s.seqNo)
  }

  lemma IncreasingSnoc(s: seq<Request>, r: Request, seqNo: nat)
    requires Increasing(s) && UpTo(s, seqNo) && r.walSeq == seqNo + 1
    ensures Increasing(s + [r]) && UpTo(s + [r], seqNo + 1)
  {
  }

  lemma LoggedSnoc(history: seq<Request>, written: seq<Request>, seqNo: nat, r: Request)
    requires Logged(history, written, seqNo) && r.walSeq == seqNo + 1
    ensures Logged(history + [r], written + [r], seqNo + 1) && Logged(history, written + [r], seqNo + 1)
    ensures Logged(history, written, seqNo + 1)
  {
    IncreasingSnoc(written, r, seqNo);
    IncreasingSnoc(history, r, seqNo);
  }

  lemma EnqueueInOrder(s: Pipeline, request: Request, fault: Fault, maxSize: nat)
    requires InOrder(s)
    ensures InOrder(Next(s, Enqueue(request, fault), maxSize))
  {
    var r := request.(walSeq := s.seqNo + 1);
    var t := Next(s, Enqueue(request, fault), maxSize);
    LoggedSnoc(s.history, s.written, s.seqNo, r);
    assert t.seqNo == s.seqNo + 1 && t.flushed == s.flushed;
    if fault.NoFault? {
      assert t.history == s.history + [r] && t.written == s.written + [r] && t.buffer == s.buffer + [r];
      assert Concat(s.flushed) + (s.buffer + [r]) == Concat(s.flushed) + s.buffer + [r];
    } else {
      assert t.history == s.history && t.buffer == s.buffer;
      assert t.written == if fault.AtSync? then s.written + [r] else s.written;
    }
  }

  lemma FlushInOrder(s: Pipeline)
    requires InOrder(s)
    ensures InOrder(TakeAll(s))
  {
    ConcatSnoc(s.flushed, s.buffer);
    assert Concat(s.flushed) + s.buffer + [] == Concat(s.flushed) + s.buffer;
  }

  /** The order does not depend on what the writer and the database hold. */
  lemma OrderElsewhere(s: Pipeline, t: Pipeline)
    requires InOrder(s) && t.flushed == s.flushed && t.buffer == s.buffer && t.history == s.history
    requires t.written == s.written && t.seqNo == s.seqNo
    ensures InOrder(t)
  {
  }

  lemma DiscardInOrder(s: Pipeline)
    requires InOrder(s)
    ensures InOrder(Discard(s).(flushing := false))
  {
    FlushInOrder(s);
    OrderElsewhere(TakeAll(s), Discard(s).(flushing := false));
  }

  /** A turn of the writer takes the buffer when it rests, and otherwise leaves all that the order is about. */
  lemma TurnLeaves(s: Pipeline, result: WriteResult)
    ensures var t := TakeTurn(s, result); var from := if s.breaker.at.Resting? then TakeAll(s) else s;
      t.flushed == from.flushed && t.buffer == from.buffer && t.history == from.history &&
      t.written == from.written && t.seqNo == from.seqNo
  {
  }

  lemma TurnInOrder(s: Pipeline, result: WriteResult)
    requires InOrder(s)
    ensures InOrder(TakeTurn(s, result))
  {
    TurnLeaves(s, result);
    FlushInOrder(s);
    OrderElsewhere(if s.breaker.at.Resting? then TakeAll(s) else s, TakeTurn(s, result));
  }

  lemma NextInOrder(s: Pipeline, step: Step, maxSize: nat)
    requires InOrder(s)
    ensures InOrder(Next(s, step, maxSize))
  {
    match step
    case Enqueue(request, fault) => EnqueueInOrder(s, request, fault, maxSize);
    case WriterTurn(result) => TurnInOrder(s, result);
    case LoopFlush => if s.flushing { DiscardInOrder(s); }
    case _ => OrderElsewhere(s, Next(s, step, maxSize));
  }

  /** What the database has comes before what the writer holds, and both come from flushed batches. */
  ghost predicate WriterBehind(s: Pipeline) {
    Increasing(s.db + s.inFlight) && (forall r :: r in s.db + s.inFlight ==> r in Concat(s.flushed)) &&
    (s.inFlight != [] <==> s.breaker.at in {Circuit.Holding, Circuit.Writing})
  }

  /** The database and a batch just taken are in order. */
  lemma {:induction false} DatabaseBeforeBatch(s: Pipeline)
    requires InOrder(s) && Increasing(s.db) && forall r :: r in s.db ==> r in Concat(s.flushed)
    ensures Increasing(s.db + s.buffer)
  {
    var all := s.db + s.buffer;
    var n := |Concat(s.flushed)|;
    forall i, j | 0 <= i < j < |all| ensures all[i].walSeq < all[j].walSeq {
      if i < |s.db| <= j {
        assert s.db[i] in Concat(s.flushed);
        var k :| 0 <= k < n && Concat(s.flushed)[k] == s.db[i];
        assert s.history[k] == s.db[i] && s.history[n + (j - |s.db|)] == s.buffer[j - |s.db|];
      } else if |s.db| <= i {
        assert s.history[n + (i - |s.db|)] == s.buffer[i - |s.db|] &&
          s.history[n + (j - |s.db|)] == s.buffer[j - |s.db|];
      } else {
        assert s.db[i].walSeq < s.db[j].walSeq;
      }
    }
  }

  lemma FlushKeepsBehind(s: Pipeline, result: WriteResult, maxSize: nat)
    requires InOrder(s) && WriterBehind(s) && s.breaker.at == Circuit.Resting
    ensures WriterBehind(Next(s, WriterTurn(result), maxSize))
  {
    ConcatSnoc(s.flushed, s.buffer);
    assert s.db + s.inFlight == s.db;
    DatabaseBeforeBatch(s);
  }

  /** Whatever part of its batch the database takes, it is behind what was flushed. */
  lemma WriteKeepsBehind(s: Pipeline, n: nat)
    requires WriterBehind(s) && n <= |s.inFlight|
    ensures Increasing(s.db + s.inFlight[..n]) && forall r :: r in s.db + s.inFlight[..n] ==> r in Concat(s.flushed)
  {
    var all := s.db + s.inFlight;
    assert s.db + s.inFlight[..n] == all[..|s.db| + n];
    forall r | r in all[..|s.db| + n] ensures r in Concat(s.flushed) {
      assert r in all;
    }
  }

  lemma BatchKeepsBehind(s: Pipeline, result: WriteResult, maxSize: nat)
    requires WriterBehind(s) && s.breaker.at in {Circuit.Holding, Circuit.Writing}
    ensures WriterBehind(Next(s, WriterTurn(result), maxSize))
  {
    var n := |Taken(s.inFlight, result)|;
    WriteKeepsBehind(s, 0);
    WriteKeepsBehind(s, n);
    assert s.db + [] == s.db + s.inFlight[..0];
    assert s.db + s.inFlight[..n] + [] == s.db + s.inFlight[..n];
  }

  /** A step that leaves the writer its batch and the database its records, and at most flushes once more. */
  lemma BehindElsewhere(s: Pipeline, t: Pipeline)
    requires WriterBehind(s) && t.db == s.db && t.inFlight == s.inFlight
    requires t.flushed == s.flushed || t.flushed == s.flushed + [s.buffer]
    requires t.breaker.at in {Circuit.Holding, Circuit.Writing} <==> s.breaker.at in {Circuit.Holding, Circuit.Writing}
    ensures WriterBehind(t)
  {
    ConcatSnoc(s.flushed, s.buffer);
  }

  lemma NextBehind(s: Pipeline, step: Step, maxSize: nat)
    requires InOrder(s) && WriterBehind(s)
    ensures WriterBehind(Next(s, step, maxSize))
  {
    match step
    case WriterTurn(result) =>
      if s.breaker.at == Circuit.Resting {
        FlushKeepsBehind(s, result, maxSize);
      } else if s.breaker.at in {Circuit.Holding, Circuit.Writing} {
        BatchKeepsBehind(s, result, maxSize);
      } else {
        BehindElsewhere(s, Next(s, step, maxSize));
      }
    case _ => BehindElsewhere(s, Next(s, step, maxSize));
  }

  // ---------- Nothing appears or vanishes ----------

  function Times(r: Request, rs: seq<Request>): nat {
    if rs == [] then 0 else Times(r, rs[..|rs| - 1]) + if rs[|rs| - 1] == r then 1 else 0
  }

  ghost predicate AccountedFor(s: Pipeline, r: Request) {
    Times(r, s.history) == Times(r, s.db) + Times(r, s.lost) + Times(r, s.inFlight) + Times(r, s.buffer)
  }

  /** Every enqueued record is, as often as it was enqueued, in the database, lost, with the writer or waiting. */
  ghost predicate Accounted(s: Pipeline) { forall r :: AccountedFor(s, r) }

  lemma {:induction false} TimesConcat(r: Request, a: seq<Request>, b: seq<Request>)
    ensures Times(r, a + b) == Times(r, a) + Times(r, b)
  {
    if b == [] {
      assert a + b == a;
    } else {
      TimesConcat(r, a, b[..|b| - 1]);
      assert (a + b)[..|a + b| - 1] == a + b[..|b| - 1];
    }
  }

  lemma EnqueueAccounted(s: Pipeline, request: Request, fault: Fault, maxSize: nat, r: Request)
    requires AccountedFor(s, r)
    ensures AccountedFor(Next(s, Enqueue(request, fault), maxSize), r)
  {
    var t := Next(s, Enqueue(request, fault), maxSize);
    assert t.db == s.db && t.lost == s.lost && t.inFlight == s.inFlight;
    if fault.NoFault? {
      var record := request.(walSeq := s.seqNo + 1);
      assert t.history == s.history + [record] && t.buffer == s.buffer + [record];
      TimesConcat(r, s.history, [record]);
      TimesConcat(r, s.buffer, [record]);
    } else {
      assert t.history == s.history && t.buffer == s.buffer;
    }
  }

  lemma TakenSplits(batch: seq<Request>, result: WriteResult, r: Request)
    ensures Times(r, batch) == Times(r, Taken(batch, result)) + Times(r, batch[|Taken(batch, result)|..])
  {
    var taken := Taken(batch, result);
    TimesConcat(r, taken, batch[|taken|..]);
    assert batch == taken + batch[|taken|..];
  }

  lemma TurnAccounted(s: Pipeline, result: WriteResult, r: Request)
    requires AccountedFor(s, r) && WriterBehind(s)
    ensures AccountedFor(MoveBatch(s, result), r)
  {
    if s.breaker.at.Writing? {
      var taken := Taken(s.inFlight, result);
      TakenSplits(s.inFlight, result, r);
      TimesConcat(r, s.db, taken);
      TimesConcat(r, s.lost, s.inFlight[|taken|..]);
    } else if s.breaker.at.Holding? {
      TimesConcat(r, s.lost, s.inFlight);
    }
  }

  lemma NextAccounted(s: Pipeline, step: Step, maxSize: nat)
    requires Accounted(s) && WriterBehind(s)
    ensures Accounted(Next(s, step, maxSize))
  {
    forall r
      ensures AccountedFor(Next(s, step, maxSize), r)
    {
      assert AccountedFor(s, r);
      match step
      case Enqueue(request, fault) => EnqueueAccounted(s, request, fault, maxSize, r);
      case WriterTurn(result) => TurnAccounted(s, result, r);
      case _ => TimesConcat(r, s.lost, s.buffer);
    }
  }

  lemma {:induction false} TimesCounts(r: Request, rs: seq<Request>)
    ensures Times(r, rs) == multiset(rs)[r]
  {
    if rs != [] {
      TimesCounts(r, rs[..|rs| - 1]);
      assert rs == rs[..|rs| - 1] + [rs[|rs| - 1]];
    }
  }

  /** So what was enqueued is, record for record, what the database, the losses, the writer and the buffer have. */
  lemma AccountedMeans(s: Pipeline)
    requires Accounted(s)
    ensures multiset(s.history) == multiset(s.db) + multiset(s.lost) + multiset(s.inFlight) + multiset(s.buffer)
  {
    forall r
      ensures multiset(s.history)[r] ==
        multiset(s.db)[r] + multiset(s.lost)[r] + multiset(s.inFlight)[r] + multiset(s.buffer)[r]
    {
      assert AccountedFor(s, r);
      TimesCounts(r, s.history);
      TimesCounts(r, s.db);
      TimesCounts(r, s.lost);
      TimesCounts(r, s.inFlight);
      TimesCounts(r, s.buffer);
    }
  }

  /**
   The buffer's loop: it takes one tick, or one signal if there is one, and does not take another before it has
   flushed; the flush empties the buffer, and what was in it is lost.
   */
  lemma LoopFlushesOnce(s: Pipeline, maxSize: nat)
    ensures Next(s, LoopTick, maxSize) == s.(flushing := true)
    ensures var t := Next(s, LoopSignal, maxSize);
      if s.flushPending && !s.flushing then t == s.(flushing := true, flushPending := false) else t == s
    ensures var t := Next(s, LoopFlush, maxSize);
      if s.flushing
      then t == s.(flushing := false, buffer := [], flushed := s.flushed + [s.buffer], lost := s.lost + s.buffer)
      else t == s
    ensures !s.flushing ==>
      var once := Next(Next(s, LoopSignal, maxSize), LoopFlush, maxSize);
      !once.flushPending && !once.flushing && Next(Next(once, LoopSignal, maxSize), LoopFlush, maxSize) == once
  {
  }

  // ---------- The circuit ----------

  /** The accesses of the circuit that a run makes. */
  function Accesses(steps: seq<Step>, maxSize: nat): seq<Circuit.Access> {
    if steps == [] then []
    else
      var earlier := steps[..|steps| - 1];
      match steps[|steps| - 1]
      case WriterTurn(result) =>
        Accesses(earlier, maxSize) + [Circuit.Turn(Run(earlier, maxSize).buffer != [], result.Accepted?)]
      case CloseFirst => Accesses(earlier, maxSize) + [Circuit.CloseFirst]
      case CloseSecond => Accesses(earlier, maxSize) + [Circuit.CloseSecond]
      case _ => Accesses(earlier, maxSize)
  }

  /** The circuit is driven by those accesses alone, so what holds of its runs holds here. */
  lemma {:induction false} BreakerRuns(steps: seq<Step>, maxSize: nat)
    ensures Run(steps, maxSize).breaker == Circuit.Run(Accesses(steps, maxSize))
  {
    if steps != [] {
      var n := |steps| - 1;
      BreakerRuns(steps[..n], maxSize);
      var earlier := Accesses(steps[..n], maxSize);
      match steps[n]
      case WriterTurn(result) =>
        Circuit.RunSnoc(earlier, Circuit.Turn(Run(steps[..n], maxSize).buffer != [], result.Accepted?));
      case CloseFirst => Circuit.RunSnoc(earlier, Circuit.CloseFirst);
      case CloseSecond => Circuit.RunSnoc(earlier, Circuit.CloseSecond);
      case _ =>
    }
  }

  // ---------- Every run ----------

  lemma {:induction false} EveryRun(steps: seq<Step>, maxSize: nat)
    ensures var s := Run(steps, maxSize);
      InOrder(s) && WriterBehind(s) && Accounted(s) && Circuit.Sound(s.breaker)
  {
    BreakerRuns(steps, maxSize);
    Circuit.RunSound(Accesses(steps, maxSize));
    if steps != [] {
      var n := |steps| - 1;
      EveryRun(steps[..n], maxSize);
      var s := Run(steps[..n], maxSize);
      NextInOrder(s, steps[n], maxSize);
      NextBehind(s, steps[n], maxSize);
      NextAccounted(s, steps[n], maxSize);
    }
  }

  /** At rest, six errors in a row have opened the circuit; it is open without them exactly if a reset was overrun. */
  lemma CircuitExactlyWhen(steps: seq<Step>, maxSize: nat)
    requires Circuit.AtRest(Run(steps, maxSize).breaker)
    ensures var b := Run(steps, maxSize).breaker; var accesses := Accesses(steps, maxSize);
      b.backoff == Circuit.Backoff(b.errors) && (b.errors >= 6 ==> b.open) &&
      ((b.open <==> b.errors >= 6) <==>
        !((exists o :: Circuit.OpenedFrom(accesses, o)) && exists c :: Circuit.ResetFrom(accesses, c)))
  {
    BreakerRuns(steps, maxSize);
    Circuit.CircuitExactlyWhen(Accesses(steps, maxSize));
    Circuit.OverrunExactlyWhen(Accesses(steps, maxSize));
  }

  // ---------- The writer's round with nothing in between ----------

  function Finish(s: Pipeline, result: WriteResult): Pipeline
    decreases Circuit.Left(s.breaker.at)
  {
    if s.breaker.at == Circuit.Resting then s else Finish(TakeTurn(s, result), result)
  }

  function Round(s: Pipeline, result: WriteResult): Pipeline { Finish(TakeTurn(s, result), result) }

  lemma {:induction false} FinishIsRun(steps: seq<Step>, result: WriteResult, maxSize: nat) returns (more: seq<Step>)
    ensures Run(steps + more, maxSize) == Finish(Run(steps, maxSize), result)
    ensures forall i :: 0 <= i < |more| ==> more[i] == WriterTurn(result)
    decreases Circuit.Left(Run(steps, maxSize).breaker.at)
  {
    if Run(steps, maxSize).breaker.at == Circuit.Resting {
      more := [];
      assert steps + more == steps;
    } else {
      RunSnoc(steps, WriterTurn(result), maxSize);
      var rest := FinishIsRun(steps + [WriterTurn(result)], result, maxSize);
      more := [WriterTurn(result)] + rest;
      ConsOnto(steps, WriterTurn(result), rest);
    }
  }

  lemma HandlerTurn(s: Pipeline, result: WriteResult)
    requires Circuit.InHandler(s.breaker.at)
    ensures var c := Circuit.TakeTurn(s.breaker, true, result.Accepted?);
      TakeTurn(s, result) == s.(breaker := c) && (c.at == Circuit.Resting || Circuit.InHandler(c.at)) &&
      Circuit.Left(c.at) < Circuit.Left(s.breaker.at)
  {
    assert MoveBatch(s, result) == s;
  }

  /** While an error is handled only the circuit moves. */
  lemma {:induction false} HandlerMovesCircuit(s: Pipeline, result: WriteResult)
    requires Circuit.InHandler(s.breaker.at)
    ensures Finish(s, result) == s.(breaker := Circuit.Finish(s.breaker, result.Accepted?))
    decreases Circuit.Left(s.breaker.at)
  {
    var b := s.breaker;
    var c := Circuit.TakeTurn(b, true, result.Accepted?);
    var t := TakeTurn(s, result);
    HandlerTurn(s, result);
    assert Finish(s, result) == Finish(t, result);
    assert Circuit.Finish(b, result.Accepted?) == Circuit.Finish(c, result.Accepted?);
    if c.at != Circuit.Resting { HandlerMovesCircuit(t, result); }
  }

  /** What a round comes to: the whole buffer is taken, and written unless the circuit is open. */
  ghost predicate RoundOutcome(s: Pipeline, result: WriteResult, t: Pipeline) {
    var idle := s.buffer == [] || s.breaker.open;
    t.seqNo == s.seqNo && t.written == s.written &&
    t.buffer == [] && t.flushPending == s.flushPending && t.flushing == s.flushing && t.inFlight == [] &&
    t.db == (if idle then s.db
             else if result.Refused? && result.accepted < |s.buffer| then s.db + s.buffer[..result.accepted]
             else s.db + s.buffer) &&
    t.breaker.at == Circuit.Resting && t.breaker.closing == s.breaker.closing &&
    t.breaker.errors == (if idle then s.breaker.errors else if result.Accepted? then 0 else s.breaker.errors + 1) &&
    t.breaker.backoff == Circuit.Backoff(t.breaker.errors) &&
    t.breaker.open == (s.breaker.open || (!idle && result.Refused? && t.breaker.errors >= 6))
  }

  lemma RoundResult(s: Pipeline, result: WriteResult)
    requires s.breaker.at == Circuit.Resting && s.inFlight == [] &&
      s.breaker.backoff == Circuit.Backoff(s.breaker.errors)
    ensures RoundOutcome(s, result, Round(s, result))
  {
    var holding := TakeTurn(s, result);
    if s.buffer != [] {
      var writing := TakeTurn(holding, result);
      assert Finish(holding, result) == Finish(writing, result);
      if !s.breaker.open {
        var written := TakeTurn(writing, result);
        assert Finish(writing, result) == Finish(written, result);
        if result.Accepted? {
          assert Finish(written, result) == TakeTurn(written, result);
        } else {
          HandlerMovesCircuit(written, result);
          Circuit.HandlerAlone(written.breaker);
        }
      }
    }
  }

  lemma HoldsNothing(steps: seq<Step>, maxSize: nat)
    requires Run(steps, maxSize).breaker.at == Circuit.Resting
    ensures var s := Run(steps, maxSize); s.inFlight == [] && s.breaker.backoff == Circuit.Backoff(s.breaker.errors)
  {
    EveryRun(steps, maxSize);
  }

  /** So many turns in a row make a round. */
  lemma RoundIsRun(steps: seq<Step>, result: WriteResult, maxSize: nat) returns (turns: seq<Step>)
    requires var s := Run(steps, maxSize); s.breaker.at == Circuit.Resting
    ensures RoundOutcome(Run(steps, maxSize), result, Run(steps + turns, maxSize))
    ensures forall i :: 0 <= i < |turns| ==> turns[i] == WriterTurn(result)
  {
    RunSnoc(steps, WriterTurn(result), maxSize);
    var rest := FinishIsRun(steps + [WriterTurn(result)], result, maxSize);
    turns := [WriterTurn(result)] + rest;
    ConsOnto(steps, WriterTurn(result), rest);
    assert Run(steps + turns, maxSize) == Round(Run(steps, maxSize), result);
    HoldsNothing(steps, maxSize);
    RoundResult(Run(steps, maxSize), result);
  }

  // ---------- What every run guarantees ----------

  /** The batches in flush order, followed by the buffer, are what was enqueued, in order. */
  lemma FlushOrderIsHistory(steps: seq<Step>, maxSize: nat)
    ensures var s := Run(steps, maxSize);
      Concat(s.flushed) + s.buffer == s.history && Increasing(s.history)
  {
    EveryRun(steps, maxSize);
  }

  /** `sub` picks out elements of `whole` at rising positions. */
  ghost predicate Subsequence(sub: seq<Request>, whole: seq<Request>) {
    exists at: seq<nat> ::
      |at| == |sub| && (forall i :: 0 <= i < |at| ==> at[i] < |whole| && whole[at[i]] == sub[i]) &&
      forall i, j :: 0 <= i < j < |at| ==> at[i] < at[j]
  }

  lemma IncreasingSubsequence(sub: seq<Request>, whole: seq<Request>)
    requires Increasing(sub) && Increasing(whole) && forall r :: r in sub ==> r in whole
    ensures Subsequence(sub, whole)
  {
    var at := seq(|sub|, i requires 0 <= i < |sub| => PositionOf(whole, sub[i]));
    assert |at| == |sub| && (forall i :: 0 <= i < |at| ==> at[i] < |whole| && whole[at[i]] == sub[i]);
    forall i, j | 0 <= i < j < |at| ensures at[i] < at[j] {
      assert whole[at[i]] == sub[i] && whole[at[j]] == sub[j] && sub[i].walSeq < sub[j].walSeq;
    }
  }

  ghost function PositionOf(whole: seq<Request>, r: Request): (i: nat)
    requires r in whole
    ensures i < |whole| && whole[i] == r
  {
    var i :| 0 <= i < |whole| && whole[i] == r;
    i
  }

  /** The database only ever holds a subsequence of what was enqueued, each sequence number at most once. */
  lemma DatabaseIsSubsequence(steps: seq<Step>, maxSize: nat)
    ensures var s := Run(steps, maxSize);
      Increasing(s.db) && Subsequence(s.db, s.history)
  {
    EveryRun(steps, maxSize);
    var s := Run(steps, maxSize);
    assert s.db == (s.db + s.inFlight)[..|s.db|];
    forall r | r in s.db ensures r in s.history {
      assert r in s.db + s.inFlight;
      assert r in Concat(s.flushed) + s.buffer;
    }
    IncreasingSubsequence(s.db, s.history);
  }

  /** What the database holds comes before what is buffered, and all of it is in the log. */
  lemma DatabaseBeforeBuffer(s: Pipeline)
    requires InOrder(s) && WriterBehind(s)
    ensures Increasing(s.db + s.buffer) && forall r :: r in s.db + s.buffer ==> r in s.written
  {
    WriteKeepsBehind(s, 0);
    assert s.db + s.inFlight[..0] == s.db;
    DatabaseBeforeBatch(s);
    forall r | r in s.db + s.buffer ensures r in s.written {
      assert r in Concat(s.flushed) + s.buffer;
    }
  }

  predicate Signalled(s: Pipeline, maxSize: nat) {
    s.buffer != [] && |s.buffer| >= maxSize ==> s.flushPending || s.flushing
  }

  lemma StepSignals(s: Pipeline, step: Step, maxSize: nat)
    requires Signalled(s, maxSize)
    ensures Signalled(Next(s, step, maxSize), maxSize)
  {
    match step
    case Enqueue(request, fault) =>
      var t := Next(s, step, maxSize);
      assert t.flushing == s.flushing && if fault.NoFault? then |t.buffer| == |s.buffer| + 1 else t.buffer == s.buffer;
    case WriterTurn(result) =>
      var t := MoveBatch(s, result);
      assert t.flushing == s.flushing && t.flushPending == s.flushPending && (t.buffer == [] || t.buffer == s.buffer);
    case _ =>
  }

  /**
   A buffer that has reached its limit has a signal in the channel, or the loop has taken one and is about to
   flush; that holds although an enqueue may come between the two.
   */
  lemma {:induction false} FullIsSignalled(steps: seq<Step>, maxSize: nat)
    ensures Signalled(Run(steps, maxSize), maxSize)
  {
    if steps != [] {
      var n := |steps| - 1;
      FullIsSignalled(steps[..n], maxSize);
      StepSignals(Run(steps[..n], maxSize), steps[n], maxSize);
    }
  }

  // ---------- The log against the buffer ----------

  predicate FailsSync(step: Step) { step.Enqueue? && step.fault.AtSync? }

  predicate SyncsWork(steps: seq<Step>) {
    steps == [] || (SyncsWork(steps[..|steps| - 1]) && !FailsSync(steps[|steps| - 1]))
  }

  lemma StepLogs(s: Pipeline, step: Step, maxSize: nat)
    requires |s.history| <= |s.written|
    ensures var s' := Next(s, step, maxSize);
      |s'.history| <= |s'.written| &&
      (s'.written == s'.history <==> s.written == s.history && !FailsSync(step)) &&
      (|s'.history| < |s'.written| <==> |s.history| < |s.written| || FailsSync(step))
  {
    if step.Enqueue? {
      var r := step.request.(walSeq := s.seqNo + 1);
      SameAfterAppend(s.written, s.history, r);
    }
  }

  lemma SameAfterAppend(a: seq<Request>, b: seq<Request>, r: Request)
    ensures a + [r] == b + [r] <==> a == b
  {
    if a + [r] == b + [r] { assert a == (a + [r])[..|a|] && b == (b + [r])[..|b|]; }
  }

  /**
   The log holds exactly what went through the buffer exactly when no sync failed; a failed sync leaves
   a record in the log that no batch will ever carry.
   */
  lemma {:induction false} LogMatchesHistory(steps: seq<Step>, maxSize: nat)
    ensures var s := Run(steps, maxSize);
      |s.history| <= |s.written| && (s.written == s.history <==> SyncsWork(steps)) &&
      (!SyncsWork(steps) ==> |s.history| < |s.written|)
  {
    if steps != [] {
      var n := |steps| - 1;
      LogMatchesHistory(steps[..n], maxSize);
      StepLogs(Run(steps[..n], maxSize), steps[n], maxSize);
    }
  }

  /**
   What the database and the lost records become when the batch is written: all of it is stored and nothing lost
   if the database accepts it, and otherwise its first part is stored and the rest lost.
   */
  lemma WriteStores(s: Pipeline, result: WriteResult, maxSize: nat)
    requires s.breaker.at.Writing?
    ensures var t := Next(s, WriterTurn(result), maxSize);
      t.inFlight == [] && |t.db| - |s.db| + |t.lost| - |s.lost| == |s.inFlight| &&
      (result.Accepted? ==> t.db == s.db + s.inFlight && t.lost == s.lost) &&
      (result.Refused? ==>
        var n := if result.accepted < |s.inFlight| then result.accepted else |s.inFlight|;
        t.db == s.db + s.inFlight[..n] && t.lost == s.lost + s.inFlight[n..])
  {
    TakenMeans(s.inFlight, result);
    assert s.inFlight[..|s.inFlight|] == s.inFlight && s.lost + [] == s.lost;
  }

  /**
   The buffer's own loop finds nothing to flush, and the writer finds the circuit closed and the whole batch
   taken.
   */
  predicate HarmlessStep(s: Pipeline, step: Step) {
    match step
    case LoopFlush => s.flushing ==> s.buffer == []
    case WriterTurn(result) =>
      (s.breaker.at.Holding? ==> !s.breaker.open) &&
      (s.breaker.at.Writing? ==> result.Accepted? || result.accepted >= |s.inFlight|)
    case _ => true
  }

  ghost predicate Harmless(steps: seq<Step>, maxSize: nat) {
    steps == [] ||
    (Harmless(steps[..|steps| - 1], maxSize) && HarmlessStep(Run(steps[..|steps| - 1], maxSize), steps[|steps| - 1]))
  }

  lemma StepLoses(s: Pipeline, step: Step, maxSize: nat)
    requires WriterBehind(s)
    ensures s.lost <= Next(s, step, maxSize).lost
    ensures Next(s, step, maxSize).lost == s.lost <==> HarmlessStep(s, step)
  {
    if step.WriterTurn? && s.breaker.at.Writing? {
      WriteStores(s, step.result, maxSize);
    }
  }

  /** A record is lost exactly when a step of the run is not harmless. */
  lemma {:induction false} LostExactlyWhen(steps: seq<Step>, maxSize: nat)
    ensures Run(steps, maxSize).lost == [] <==> Harmless(steps, maxSize)
  {
    if steps != [] {
      var n := |steps| - 1;
      LostExactlyWhen(steps[..n], maxSize);
      EveryRun(steps[..n], maxSize);
      StepLoses(Run(steps[..n], maxSize), steps[n], maxSize);
    }
  }
}
