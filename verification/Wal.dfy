/**
 The write-ahead log: a file of records and the last sequence number given out. Encoding a record and
 decoding it again is the identity; what can fail while writing is passed in.
 */
module Wal {
  import opened Prelude

  datatype Request = Request(kind: string, data: string, walSeq: nat)

  /** An append may fail before anything is in the file, or at the sync, when the record already is. */
  datatype Fault = NoFault | BeforeWrite | AtSync

  ghost predicate Increasing(rs: seq<Request>) {
    forall i, j :: 0 <= i < j < |rs| ==> rs[i].walSeq < rs[j].walSeq
  }

  ghost predicate UpTo(rs: seq<Request>, bound: nat) {
    forall i :: 0 <= i < |rs| ==> rs[i].walSeq <= bound
  }

  /** Records above a sequence number, in order. */
  function Above(rs: seq<Request>, upto: nat): seq<Request> {
    if rs == [] then []
    else
      var front := Above(rs[..|rs| - 1], upto);
      if rs[|rs| - 1].walSeq > upto then front + [rs[|rs| - 1]] else front
  }

  function MaxSeq(rs: seq<Request>): nat {
    if rs == [] then 0
    else
      var m := MaxSeq(rs[..|rs| - 1]);
      if rs[|rs| - 1].walSeq > m then rs[|rs| - 1].walSeq else m
  }

  lemma {:induction false} AboveKeeps(rs: seq<Request>, upto: nat)
    requires Increasing(rs)
    ensures Increasing(Above(rs, upto))
    ensures forall r :: r in Above(rs, upto) <==> r in rs && r.walSeq > upto
  {
    if rs != [] {
      var n := |rs| - 1;
      AboveKeeps(rs[..n], upto);
      assert rs == rs[..n] + [rs[n]];
      var front := Above(rs[..n], upto);
      forall i | 0 <= i < |front| ensures front[i].walSeq < rs[n].walSeq { assert front[i] in rs[..n]; }
    }
  }

  /** Truncating twice is truncating once, at the higher of the two. */
  lemma {:induction false} TruncationsCompose(rs: seq<Request>, u: nat, v: nat)
    ensures Above(Above(rs, u), v) == Above(rs, if u > v then u else v)
  {
    if rs != [] {
      var n := |rs| - 1;
      TruncationsCompose(rs[..n], u, v);
      var front := Above(rs[..n], u);
      if rs[n].walSeq > u { assert (front + [rs[n]])[..|front|] == front; }
    }
  }

  lemma {:induction false} MaxIsLast(rs: seq<Request>)
    requires Increasing(rs)
    ensures MaxSeq(rs) == if rs == [] then 0 else rs[|rs| - 1].walSeq
  {
    if rs != [] { MaxIsLast(rs[..|rs| - 1]); }
  }

  // ---------- Runs ----------

  datatype Op =
    | Append(request: Request, fault: Fault)
    | Truncate(upto: nat, rewritten: Option<nat>)
    | Reopen

  /** `issued` is history: the numbers reported to callers, in order. */
  datatype State = State(file: seq<Request>, seqNo: nat, issued: seq<nat>)

  function AppendTo(file: seq<Request>, request: Request, seqNo: nat, fault: Fault): seq<Request> {
    if fault.BeforeWrite? then file else file + [request.(walSeq := seqNo)]
  }

  /** What a truncation leaves; when rewriting stops early, only the records rewritten so far. */
  function Truncated(file: seq<Request>, upto: nat, rewritten: Option<nat>): seq<Request> {
    var keep := Above(file, upto);
    if rewritten.Some? && rewritten.value < |keep| then keep[..rewritten.value] else keep
  }

  /** The records above the bound, and only those, in order. */
  ghost predicate Keeps(before: seq<Request>, after: seq<Request>, upto: nat) {
    Increasing(after) && forall r :: r in after <==> r in before && r.walSeq > upto
  }

  /** A truncation that gets through keeps exactly the records above the bound; one that stops, the first of them. */
  lemma TruncatedMeans(file: seq<Request>, upto: nat, rewritten: Option<nat>)
    requires Increasing(file)
    ensures var kept, all := Truncated(file, upto, rewritten), Truncated(file, upto, None);
      Keeps(file, all, upto) && kept <= all &&
      |kept| == if rewritten.Some? && rewritten.value < |all| then rewritten.value else |all|
  {
    AboveKeeps(file, upto);
  }

  function Next(s: State, op: Op): State {
    match op
    case Append(r, fault) =>
      State(AppendTo(s.file, r, s.seqNo + 1, fault), s.seqNo + 1,
            if fault.NoFault? then s.issued + [s.seqNo + 1] else s.issued)
    case Truncate(upto, rewritten) => s.(file := Truncated(s.file, upto, rewritten))
    case Reopen => s.(seqNo := MaxSeq(s.file))
  }

  function Run(s: State, ops: seq<Op>): State {
    if ops == [] then s else Next(Run(s, ops[..|ops| - 1]), ops[|ops| - 1])
  }

  lemma NextKeepsOrder(s: State, op: Op)
    requires Increasing(s.file) && UpTo(s.file, s.seqNo)
    ensures Increasing(Next(s, op).file) && UpTo(Next(s, op).file, Next(s, op).seqNo)
  {
    match op
    case Append(_, _) =>
    case Truncate(upto, _) =>
      AboveKeeps(s.file, upto);
      forall i | 0 <= i < |Above(s.file, upto)| ensures Above(s.file, upto)[i].walSeq <= s.seqNo {
        assert Above(s.file, upto)[i] in s.file;
      }
    case Reopen => MaxIsLast(s.file);
  }

  /**
   Through any appends, truncations and reopenings, faults included, the file stays strictly increasing and
   below the counter.
   */
  lemma {:induction false} FileStaysOrdered(ops: seq<Op>)
    ensures var s := Run(State([], 0, []), ops);
      Increasing(s.file) && UpTo(s.file, s.seqNo)
  {
    if ops != [] {
      FileStaysOrdered(ops[..|ops| - 1]);
      NextKeepsOrder(Run(State([], 0, []), ops[..|ops| - 1]), ops[|ops| - 1]);
    }
  }

  /**
   Reopening keeps the counter exactly when the newest number is still in the file (or none was given
   out). The next append is above every surviving record either way.
   */
  lemma ReopenKeepsCounter(ops: seq<Op>)
    ensures var s := Run(State([], 0, []), ops);
      (Next(s, Reopen).seqNo == s.seqNo <==>
        s.seqNo == 0 || exists i :: 0 <= i < |s.file| && s.file[i].walSeq == s.seqNo) &&
      forall i :: 0 <= i < |s.file| ==> s.file[i].walSeq < Next(s, Reopen).seqNo + 1
  {
    FileStaysOrdered(ops);
    MaxIsLast(Run(State([], 0, []), ops).file);
  }

  ghost predicate StrictlyRising(ns: seq<nat>) {
    forall i, j :: 0 <= i < j < |ns| ==> ns[i] < ns[j]
  }

  ghost predicate AtMost(ns: seq<nat>, bound: nat) {
    forall i :: 0 <= i < |ns| ==> ns[i] <= bound
  }

  ghost predicate Rising(ns: seq<nat>, bound: nat) { StrictlyRising(ns) && AtMost(ns, bound) }

  /** Reopening loses no number that was reported. */
  ghost predicate ReopensSafely(s: State) { AtMost(s.issued, MaxSeq(s.file)) }

  /**
   Reopening and appending goes on with new numbers exactly if no number reported so far is above every
   record that is still in the file.
   */
  lemma ReopenIsSafeExactlyWhen(s: State, r: Request)
    requires Rising(s.issued, s.seqNo)
    ensures StrictlyRising(Next(Next(s, Reopen), Append(r, NoFault)).issued) <==> ReopensSafely(s)
  {
    var after := Next(Next(s, Reopen), Append(r, NoFault)).issued;
    assert after == s.issued + [MaxSeq(s.file) + 1];
    if StrictlyRising(after) {
      forall i | 0 <= i < |s.issued| ensures s.issued[i] <= MaxSeq(s.file) {
        assert after[i] < after[|s.issued|];
      }
    }
  }

  ghost predicate SafeReopens(ops: seq<Op>) {
    ops == [] ||
    (SafeReopens(ops[..|ops| - 1]) &&
     (ops[|ops| - 1].Reopen? ==> ReopensSafely(Run(State([], 0, []), ops[..|ops| - 1]))))
  }

  /** As long as every reopening is of that kind, no number is reported twice, and all come in order. */
  lemma {:induction false} NumbersRise(ops: seq<Op>)
    requires SafeReopens(ops)
    ensures Rising(Run(State([], 0, []), ops).issued, Run(State([], 0, []), ops).seqNo)
  {
    if ops != [] {
      NumbersRise(ops[..|ops| - 1]);
    }
  }

  /**
   Whatever was done, faults and reopenings included: the numbers reported are strictly increasing exactly
   if no append succeeded while a number reported before was above the counter.
   */
  lemma {:induction false} NumbersRiseExactlyWhen(ops: seq<Op>)
    ensures StrictlyRising(Run(State([], 0, []), ops).issued) <==> NeverBehind(ops)
  {
    if ops != [] {
      var n := |ops| - 1;
      NumbersRiseExactlyWhen(ops[..n]);
      var s := Run(State([], 0, []), ops[..n]);
      if ops[n].Append? && ops[n].fault.NoFault? { AppendRises(s.issued, s.seqNo); }
    }
  }

  ghost predicate NeverBehind(ops: seq<Op>) {
    ops == [] ||
    (NeverBehind(ops[..|ops| - 1]) &&
     (ops[|ops| - 1].Append? && ops[|ops| - 1].fault.NoFault? ==>
       var s := Run(State([], 0, []), ops[..|ops| - 1]); AtMost(s.issued, s.seqNo)))
  }

  lemma AppendRises(ns: seq<nat>, seqNo: nat)
    ensures StrictlyRising(ns + [seqNo + 1]) <==> StrictlyRising(ns) && AtMost(ns, seqNo)
  {
    var after := ns + [seqNo + 1];
    if StrictlyRising(after) {
      forall i, j | 0 <= i < j < |ns| ensures ns[i] < ns[j] { assert after[i] < after[j]; }
      forall i | 0 <= i < |ns| ensures ns[i] <= seqNo { assert after[i] < after[|ns|]; }
    }
  }

  /** Truncating everything and reopening starts over: the number one is reported twice. */
  lemma NumbersRestart(r: Request)
    ensures Run(State([], 0, []), [Append(r, NoFault), Truncate(1, None), Reopen, Append(r, NoFault)]).issued == [1, 1]
  {
    var s, written := State([], 0, []), [r.(walSeq := 1)];
    var ops := [Append(r, NoFault), Truncate(1, None), Reopen, Append(r, NoFault)];
    assert [] + written == written && written[..0] == [] && Above(written, 1) == [];
    assert ops[..3] == [Append(r, NoFault), Truncate(1, None), Reopen];
    assert ops[..3][..2] == [Append(r, NoFault), Truncate(1, None)] && ops[..3][..2][..1] == [Append(r, NoFault)];
    assert ops[..3][..2][..1][..0] == [];
    assert Run(s, ops[..3][..2][..1]) == State(written, 1, [1]);
    assert Run(s, ops[..3][..2]) == State([], 1, [1]);
    assert Run(s, ops[..3]) == State([], 0, [1]);
  }

  class FileWal {
    var file: seq<Request>
    var seqNo: nat

    ghost predicate Valid()
      reads this
    {
      Increasing(file) && UpTo(file, seqNo)
    }

    /** Opening scans the file for the highest number. */
    constructor (file: seq<Request>)
      requires Increasing(file)
      ensures Valid() && this.file == file && seqNo == MaxSeq(file)
    {
      this.file := file;
      var highest := 0;
      for i := 0 to |file|
        invariant highest == MaxSeq(file[..i])
      {
        assert file[..i + 1][..i] == file[..i];
        if file[i].walSeq > highest { highest := file[i].walSeq; }
      }
      assert file[..|file|] == file;
      seqNo := highest;
      MaxIsLast(file);
    }

    /** The counter moves even when the append fails. */
    method Append(request: Request, fault: Fault) returns (seq': Option<nat>)
      requires Valid()
      modifies this
      ensures Valid() && seqNo == old(seqNo) + 1 && file == AppendTo(old(file), request, seqNo, fault)
      ensures seq' == if fault.NoFault? then Some(seqNo) else None
    {
      seqNo := seqNo + 1;
      if fault.BeforeWrite? { return None; }
      file := file + [request.(walSeq := seqNo)];
      if fault.AtSync? { return None; }
      return Some(seqNo);
    }

    /** Decodes the file and keeps what is above a sequence number. */
    method Survivors(upto: nat) returns (keep: seq<Request>)
      ensures keep == Above(file, upto)
    {
      keep := [];
      for i := 0 to |file|
        invariant keep == Above(file[..i], upto)
      {
        assert file[..i + 1][..i] == file[..i];
        if file[i].walSeq > upto { keep := keep + [file[i]]; }
      }
      assert file[..|file|] == file;
    }

    /** The file is emptied and written again, up to where that fails, if it does. */
    method Rewrite(keep: seq<Request>, rewritten: Option<nat>) returns (ok: bool)
      modifies this`file
      ensures ok <==> rewritten.None? || rewritten.value >= |keep|
      ensures file == if ok then keep else keep[..rewritten.value]
    {
      file := [];
      for i := 0 to |keep|
        invariant file == keep[..i] && (rewritten.Some? ==> i <= rewritten.value)
      {
        if rewritten == Some(i) { return false; }
        file := file + [keep[i]];
      }
      assert keep[..|keep|] == keep;
      return true;
    }

    method Truncate(upto: nat, rewritten: Option<nat>) returns (ok: bool)
      requires Valid()
      modifies this`file
      ensures Valid() && file == Truncated(old(file), upto, rewritten)
      ensures ok <==> rewritten.None? || rewritten.value >= |Above(old(file), upto)|
      ensures ok ==> Keeps(old(file), file, upto)
    {
      NextKeepsOrder(State(file, seqNo, []), Op.Truncate(upto, rewritten));
      TruncatedMeans(file, upto, rewritten);
      var keep := Survivors(upto);
      ok := Rewrite(keep, rewritten);
    }
  }
}
