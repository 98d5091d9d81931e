/**
 The asynchronous write buffer over an array, and the batch writer that drains it. A flushed batch is a
 fresh array, so that reusing the buffer's array never shows in a batch already handed out.
 */
module WriteBuffers {
  import opened CircuitBreaker
  import opened Wal

  class AsyncWriteBuffer {
    var buffer: array<Request>
    var len: nat
    var flushPending: bool
    const maxSize: nat
    const wal: FileWal

    ghost predicate Valid()
      reads this, wal, buffer
    {
      len <= buffer.Length && wal.Valid() && Increasing(Contents()) && UpTo(Contents(), wal.seqNo)
    }

    ghost function Contents(): seq<Request>
      requires len <= buffer.Length
      reads this, buffer
    {
      buffer[..len]
    }

    constructor (maxSize: nat, wal: FileWal)
      requires wal.Valid()
      ensures Valid() && fresh(buffer) && Contents() == [] && !flushPending && this.maxSize == maxSize &&
        this.wal == wal
    {
      this.maxSize, this.wal := maxSize, wal;
      buffer := new Request[maxSize](_ => Request("", "", 0));
      len, flushPending := 0, false;
    }

    /** Logged first, then buffered under the number the log gave; a full channel keeps its one signal. */
    method Enqueue(request: Request, fault: Fault) returns (ok: bool)
      requires Valid()
      modifies this, buffer, wal
      ensures Valid() && (buffer == old(buffer) || fresh(buffer))
      ensures wal.seqNo == old(wal.seqNo) + 1 && wal.file == AppendTo(old(wal.file), request, wal.seqNo, fault)
      ensures ok <==> fault.NoFault?
      ensures Contents() == if ok then old(Contents()) + [request.(walSeq := wal.seqNo)] else old(Contents())
      ensures flushPending == (old(flushPending) || (ok && |Contents()| >= maxSize))
    {
      var seq' := wal.Append(request, fault);
      if seq'.None? { return false; }
      ghost var before := Contents();
      if len == buffer.Length { Grow(); }
      buffer[len] := request.(walSeq := seq'.value);
      len := len + 1;
      assert Contents() == before + [request.(walSeq := seq'.value)];
      if len >= maxSize { flushPending := true; }
      return true;
    }

    /** Appending past the capacity moves the contents to a larger array. */
    method Grow()
      requires len == buffer.Length
      modifies this`buffer
      ensures fresh(buffer) && len < buffer.Length && Contents() == old(Contents())
    {
      var larger := new Request[2 * len + 1](_ => Request("", "", 0));
      for i := 0 to len
        invariant buffer == old(buffer) && larger.Length == 2 * len + 1 && larger[..i] == buffer[..i]
      {
        larger[i] := buffer[i];
      }
      buffer := larger;
    }

    /** Copies the contents out and starts over in the same array. */
    method Flush() returns (batch: array<Request>)
      requires Valid()
      modifies this`len
      ensures Valid() && fresh(batch) && batch[..] == old(Contents()) && Contents() == []
    {
      batch := new Request[len](_ => Request("", "", 0));
      for i := 0 to len
        invariant batch.Length == len == old(len) && batch[..i] == buffer[..i]
      {
        batch[i] := buffer[i];
      }
      len := 0;
    }
  }

  /** What may be done to the buffer after a flush. */
  datatype Use = Put(request: Request, fault: Fault) | TakeAway

  /** A batch that was handed out stays what it was, whatever is enqueued and flushed later. */
  method BatchIsNotDisturbed(b: AsyncWriteBuffer, later: seq<Use>) returns (first: array<Request>)
    requires b.Valid()
    modifies b, b.buffer, b.wal
    ensures b.Valid() && first[..] == old(b.Contents())
  {
    first := b.Flush();
    for i := 0 to |later|
      invariant b.Valid() && (b.buffer == old(b.buffer) || fresh(b.buffer))
      invariant fresh(first) && b.buffer != first && first[..] == old(b.Contents())
    {
      match later[i]
      case Put(request, fault) => var _ := b.Enqueue(request, fault);
      case TakeAway => var _ := b.Flush();
    }
  }

  // ---------- The batch writer ----------

  datatype WriteResult = Accepted | Refused(accepted: nat)

  function Prefix(batch: seq<Request>, n: nat): seq<Request> { if n < |batch| then batch[..n] else batch }

  /** What the database takes of a batch: all of it, or on an error some first part. */
  function Taken(batch: seq<Request>, result: WriteResult): seq<Request> {
    if result.Accepted? then batch else Prefix(batch, result.accepted)
  }

  /** An accepted batch is taken whole; a refused one up to where the database got, and no further than its end. */
  lemma TakenMeans(batch: seq<Request>, result: WriteResult)
    ensures result == Accepted ==> Taken(batch, result) == batch
    ensures result.Refused? && result.accepted < |batch| ==> Taken(batch, result) == batch[..result.accepted]
    ensures result.Refused? && result.accepted >= |batch| ==> Taken(batch, result) == batch
  {
  }

  /** Its methods run from beginning to end here; a reset that falls in between is the pipeline's business. */
  class BatchWriter {
    const buffer: AsyncWriteBuffer
    var db: seq<Request>
    var circuitOpen: bool
    var backoff: nat
    ghost var errors: nat

    ghost predicate Valid()
      reads this
    {
      backoff == Backoff(errors)
    }

    constructor (buffer: AsyncWriteBuffer)
      ensures Valid() && this.buffer == buffer && db == [] && errors == 0 && !circuitOpen
    {
      this.buffer, db, circuitOpen, backoff, errors := buffer, [], false, FIRST_BACKOFF, 0;
    }

    /** One round of the endless loop: take the buffer's contents, then write them unless the circuit is open. */
    method Cycle(result: WriteResult) returns (batch: array<Request>)
      requires Valid() && buffer.Valid()
      modifies this, buffer`len
      ensures Valid() && buffer.Valid() && buffer.Contents() == [] && batch[..] == old(buffer.Contents())
      ensures var idle := batch.Length == 0 || old(circuitOpen);
        db == (if idle then old(db) else old(db) + Taken(batch[..], result)) &&
        (!idle && result == Accepted ==> db == old(db) + batch[..]) &&
        (!idle && result.Refused? && result.accepted <= batch.Length ==>
          db == old(db) + batch[..result.accepted]) &&
        errors == (if idle then old(errors) else if result.Accepted? then 0 else old(errors) + 1) &&
        circuitOpen == (old(circuitOpen) || (!idle && result.Refused? && errors >= 6))
    {
      batch := buffer.Flush();
      if batch.Length == 0 { return; }
      if circuitOpen { return; }
      db := db + Taken(batch[..], result);
      if result.Refused? {
        HandleWriteError();
        return;
      }
      backoff, errors := FIRST_BACKOFF, 0;
    }

    method HandleWriteError()
      requires Valid()
      modifies this`backoff, this`circuitOpen, this`errors
      ensures Valid() && errors == old(errors) + 1
      ensures circuitOpen == (old(circuitOpen) || errors >= 6)
    {
      backoff := backoff * 2;
      if backoff > MAX_BACKOFF { backoff := MAX_BACKOFF; }
      if backoff == MAX_BACKOFF { circuitOpen := true; }
      errors := errors + 1;
      OpensAtSix(errors);
    }

    method CloseCircuit()
      modifies this`backoff, this`circuitOpen, this`errors
      ensures Valid() && !circuitOpen && errors == 0
    {
      circuitOpen := false;
      backoff, errors := FIRST_BACKOFF, 0;
    }
  }
}
