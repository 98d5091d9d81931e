/**
 The buffer, the writer and its circuit as objects, driven turn by turn. Each method is one turn of one of
 the goroutines, down to a single access where no lock is held, and is proved to take the step of the
 interleaved pipeline; so what holds of every run of the pipeline holds of the objects, whatever order
 their turns come in.
 */
module WriteService {
  import Circuit = CircuitBreaker
  import Wal
  import opened WriteBuffers
  import opened WritePipeline

  class Service {
    const buffer: AsyncWriteBuffer
    const writer: BatchWriter
    /** The writer's next access, the batch it holds and the backoff it has loaded; and the resets half done. */
    var at: Circuit.Point
    var batch: seq<Wal.Request>
    var loaded: nat
    var closing: nat
    /** Whether the buffer's loop has taken a tick or a signal and not flushed yet. */
    var flushing: bool
    ghost var loadedErrors: nat
    ghost var steps: seq<Step>

    ghost function State(): Pipeline
      reads this
    {
      Run(steps, buffer.maxSize)
    }

    /** The objects are where the run of `steps` leads. */
    ghost predicate Valid()
      reads this, buffer, buffer.wal, buffer.buffer, writer
    {
      writer.buffer == buffer && buffer.Valid() && MatchesBuffer(State()) && MatchesWriter(State())
    }

    ghost predicate MatchesBuffer(s: Pipeline)
      requires buffer.len <= buffer.buffer.Length
      reads this, buffer, buffer.wal, buffer.buffer
    {
      s.seqNo == buffer.wal.seqNo && s.written == buffer.wal.file &&
      s.buffer == buffer.Contents() && s.flushPending == buffer.flushPending &&
      s.flushing == flushing
    }

    ghost predicate MatchesWriter(s: Pipeline)
      reads this, writer
    {
      s.inFlight == batch && s.db == writer.db &&
      s.breaker.at == at && s.breaker.closing == closing &&
      s.breaker.open == writer.circuitOpen &&
      s.breaker.backoff == writer.backoff && s.breaker.errors == writer.errors &&
      (at in {Circuit.Doubling, Circuit.Clamping, Circuit.Capping} ==>
        s.breaker.loaded == loaded && s.breaker.loadedErrors == loadedErrors)
    }

    /** Started on an empty log. */
    constructor (buffer: AsyncWriteBuffer, writer: BatchWriter)
      requires buffer.Valid() && buffer.wal.file == [] && buffer.wal.seqNo == 0
      requires buffer.Contents() == [] && !buffer.flushPending
      requires writer.Valid() && writer.buffer == buffer && writer.db == [] && writer.errors == 0 && !writer.circuitOpen
      ensures Valid() && steps == [] && this.buffer == buffer && this.writer == writer
    {
      this.buffer, this.writer, steps := buffer, writer, [];
      at, batch, loaded, closing, flushing, loadedErrors := Circuit.Resting, [], 0, 0, false, 0;
    }

    method Enqueue(request: Wal.Request, fault: Wal.Fault) returns (ok: bool)
      requires Valid()
      modifies this`steps, buffer, buffer.buffer, buffer.wal
      ensures Valid() && steps == old(steps) + [Step.Enqueue(request, fault)]
      ensures ok <==> fault.NoFault?
    {
      RunEnqueue(steps, request, fault, buffer.maxSize);
      ok := buffer.Enqueue(request, fault);
      steps := steps + [Step.Enqueue(request, fault)];
    }

    /** The buffer's loop takes a tick. */
    method OnTick()
      requires Valid()
      modifies this`steps, this`flushing
      ensures Valid() && steps == old(steps) + [LoopTick] && flushing
    {
      RunSnoc(steps, LoopTick, buffer.maxSize);
      flushing := true;
      steps := steps + [LoopTick];
    }

    /** The waiting loop takes the signal out of the channel, if there is one; the next enqueue can signal again. */
    method OnSignal()
      requires Valid()
      modifies this`steps, this`flushing, buffer`flushPending
      ensures Valid() && steps == old(steps) + [LoopSignal]
      ensures var takes := old(buffer.flushPending) && !old(flushing);
        flushing == (old(flushing) || takes) && buffer.flushPending == (old(buffer.flushPending) && !takes)
    {
      RunSnoc(steps, LoopSignal, buffer.maxSize);
      if !flushing && buffer.flushPending {
        flushing, buffer.flushPending := true, false;
      }
      steps := steps + [LoopSignal];
    }

    /** The loop's flush after that: what is flushed goes nowhere. */
    method FlushFromLoop()
      requires Valid()
      modifies this`steps, this`flushing, buffer
      ensures Valid() && steps == old(steps) + [LoopFlush] && !flushing
      ensures buffer.Contents() == if old(flushing) then [] else old(buffer.Contents())
    {
      RunSnoc(steps, LoopFlush, buffer.maxSize);
      if flushing {
        var _ := buffer.Flush();
        flushing := false;
      }
      steps := steps + [LoopFlush];
    }

    /** The writer's turn to flush the buffer. */
    method TakeBatch(ghost result: WriteResult)
      requires Valid() && at == Circuit.Resting
      modifies this`at, this`batch, this`steps, buffer
      ensures Valid() && steps == old(steps) + [WriterTurn(result)]
    {
      RunSnoc(steps, WriterTurn(result), buffer.maxSize);
      var taken := buffer.Flush();
      batch := taken[..];
      if |batch| > 0 { at := Circuit.Holding; }
      steps := steps + [WriterTurn(result)];
    }

    /** The writer's accesses of a batch it holds, and the store that follows a success. */
    method BatchTurn(result: WriteResult)
      requires Valid() && at in {Circuit.Holding, Circuit.Writing, Circuit.Restoring}
      modifies this`at, this`batch, this`steps, writer`db, writer`backoff, writer`errors
      ensures Valid() && steps == old(steps) + [WriterTurn(result)]
    {
      RunSnoc(steps, WriterTurn(result), buffer.maxSize);
      if at == Circuit.Holding {
        if writer.circuitOpen { batch, at := [], Circuit.Resting; } else { at := Circuit.Writing; }
      } else if at == Circuit.Writing {
        writer.db := writer.db + Taken(batch, result);
        batch, at := [], if result.Accepted? then Circuit.Restoring else Circuit.Failing;
      } else {
        writer.backoff, writer.errors := Circuit.FIRST_BACKOFF, 0;
        at := Circuit.Resting;
      }
      steps := steps + [WriterTurn(result)];
    }

    /** The error handler's accesses of the backoff up to the doubling. */
    method DoublingTurn(result: WriteResult)
      requires Valid() && at in {Circuit.Failing, Circuit.Doubling}
      modifies this`at, this`loaded, this`loadedErrors, this`steps, writer`backoff, writer`errors
      ensures Valid() && steps == old(steps) + [WriterTurn(result)]
    {
      RunSnoc(steps, WriterTurn(result), buffer.maxSize);
      if at == Circuit.Failing {
        loaded, loadedErrors := writer.backoff, writer.errors;
        at := Circuit.Doubling;
      } else {
        writer.backoff, writer.errors := loaded * 2, loadedErrors + 1;
        at := Circuit.Clamping;
      }
      steps := steps + [WriterTurn(result)];
    }

    /** Its comparison with the maximum, and the store that brings it down. */
    method ClampingTurn(result: WriteResult)
      requires Valid() && at in {Circuit.Clamping, Circuit.Capping}
      modifies this`at, this`steps, writer`backoff, writer`errors
      ensures Valid() && steps == old(steps) + [WriterTurn(result)]
    {
      RunSnoc(steps, WriterTurn(result), buffer.maxSize);
      if at == Circuit.Clamping {
        at := if writer.backoff > Circuit.MAX_BACKOFF then Circuit.Capping else Circuit.Testing;
      } else {
        writer.backoff, writer.errors := Circuit.MAX_BACKOFF, loadedErrors + 1;
        at := Circuit.Testing;
      }
      steps := steps + [WriterTurn(result)];
    }

    /** Its test for the maximum, and the store that opens the circuit. */
    method OpeningTurn(result: WriteResult)
      requires Valid() && at in {Circuit.Testing, Circuit.Opening}
      modifies this`at, this`steps, writer`circuitOpen
      ensures Valid() && steps == old(steps) + [WriterTurn(result)]
    {
      RunSnoc(steps, WriterTurn(result), buffer.maxSize);
      if at == Circuit.Testing {
        at := if writer.backoff == Circuit.MAX_BACKOFF then Circuit.Opening else Circuit.Resting;
      } else {
        writer.circuitOpen := true;
        at := Circuit.Resting;
      }
      steps := steps + [WriterTurn(result)];
    }

    /** The writer's next access, wherever it is. */
    method Turn(result: WriteResult)
      requires Valid()
      modifies this, buffer, writer
      ensures Valid() && steps == old(steps) + [WriterTurn(result)]
    {
      match at
      case Resting => TakeBatch(result);
      case Holding | Writing | Restoring => BatchTurn(result);
      case Failing | Doubling => DoublingTurn(result);
      case Clamping | Capping => ClampingTurn(result);
      case Testing | Opening => OpeningTurn(result);
    }

    /** An operator's reset, one store at a time. */
    method BeginClose()
      requires Valid()
      modifies this, writer`circuitOpen
      ensures Valid() && steps == old(steps) + [CloseFirst] && closing == old(closing) + 1
    {
      RunSnoc(steps, CloseFirst, buffer.maxSize);
      writer.circuitOpen := false;
      closing := closing + 1;
      steps := steps + [CloseFirst];
    }

    method EndClose()
      requires Valid() && closing > 0
      modifies this, writer`backoff, writer`errors
      ensures Valid() && steps == old(steps) + [CloseSecond] && closing == old(closing) - 1
    {
      RunSnoc(steps, CloseSecond, buffer.maxSize);
      writer.backoff, writer.errors := Circuit.FIRST_BACKOFF, 0;
      closing := closing - 1;
      steps := steps + [CloseSecond];
    }

    lemma Rests()
      requires Valid() && at == Circuit.Resting
      ensures batch == [] && writer.Valid()
    {
      EveryRun(steps, buffer.maxSize);
    }

    /** A whole round of the writer with nothing in between is so many of its turns in a row. */
    method WriterRound(result: WriteResult) returns (ghost turns: seq<Step>)
      requires Valid() && at == Circuit.Resting
      modifies this, buffer, writer
      ensures Valid() && at == Circuit.Resting && steps == old(steps) + turns
      ensures forall i :: 0 <= i < |turns| ==> turns[i] == WriterTurn(result)
    {
      Rests();
      turns := RoundIsRun(steps, result, buffer.maxSize);
      ghost var s, t := State(), Run(steps + turns, buffer.maxSize);
      var taken := writer.Cycle(result);
      assert taken[..] == s.buffer;
      steps := steps + turns;
      assert MatchesBuffer(t) && MatchesWriter(t);
    }

    /** A whole reset with nothing in between. */
    method CloseCircuit()
      requires Valid()
      modifies this, writer
      ensures Valid() && !writer.circuitOpen && steps == old(steps) + [CloseFirst] + [CloseSecond]
    {
      RunSnoc(steps, CloseFirst, buffer.maxSize);
      RunSnoc(steps + [CloseFirst], CloseSecond, buffer.maxSize);
      writer.CloseCircuit();
      steps := steps + [CloseFirst] + [CloseSecond];
    }

    /**
     At rest the backoff counts the errors since the last success or reset it saw, and six of them have
     opened the circuit; it is open without them exactly if a reset was overrun.
     */
    lemma CircuitMatches()
      requires Valid() && closing == 0 && !Circuit.InHandler(at)
      ensures writer.Valid() && (writer.errors >= 6 ==> writer.circuitOpen)
      ensures var accesses := Accesses(steps, buffer.maxSize);
        (writer.circuitOpen <==> writer.errors >= 6) <==>
          !((exists o :: Circuit.OpenedFrom(accesses, o)) && exists c :: Circuit.ResetFrom(accesses, c))
    {
      CircuitExactlyWhen(steps, buffer.maxSize);
    }

    /**
     So whatever turns were taken: the database holds a subsequence of the log, in order, each number at
     most once, and all that is still buffered comes after it.
     */
    lemma DatabaseFollowsLog()
      requires Valid()
      ensures Wal.Increasing(writer.db + buffer.Contents())
      ensures Subsequence(writer.db + buffer.Contents(), buffer.wal.file)
    {
      var s := State();
      EveryRun(steps, buffer.maxSize);
      DatabaseBeforeBuffer(s);
      IncreasingSubsequence(s.db + s.buffer, s.written);
    }
  }
}
