/**
 Replaying a journal in batches. Handlers are arbitrary functions on an engine state of any type, so two
 replays that agree on that state for every choice made the same calls in the same order. Lines are
 given already parsed, or as blank or malformed.
 */
module EventReplay {
  import opened Prelude
  import opened EventMigrations

  datatype Line = Blank | Malformed | Parsed(event: VersionedEvent)

  datatype Config = Config(
    maxReplayEvents: int, batchSize: int, checkpointInterval: int,
    continueOnError: bool, skipCorruptedEvents: bool, validateEventSchemas: bool)

  /** A handler or error handler: the engine afterwards, and success, or the choice to continue. */
  type Handler<!E> = (E, VersionedEvent) -> (E, bool)

  datatype Setup<!E> = Setup(
    config: Config,
    valid: VersionedEvent -> bool,
    handlers: map<string, Handler<E>>,
    errorHandlers: map<string, Handler<E>>)

  datatype Machine<E> = Machine(
    engine: E,
    processed: int, skipped: int, errored: int,
    typeStats: map<string, int>, errorStats: map<string, int>,
    lastProcessed: string)

  function Bump(stats: map<string, int>, key: string): map<string, int> {
    stats[key := 1 + if key in stats then stats[key] else 0]
  }

  /** One event: validated, handed to its handler, and on failure to its error handler. */
  function Process<E>(p: Setup<E>, m: Machine<E>, e: VersionedEvent): (Machine<E>, bool) {
    if p.config.validateEventSchemas && !p.valid(e) then
      if p.config.skipCorruptedEvents then (m.(skipped := m.skipped + 1), true) else (m, false)
    else if e.eventType !in p.handlers then (m.(skipped := m.skipped + 1), true)
    else
      var r := p.handlers[e.eventType](m.engine, e);
      if r.1 then (m.(engine := r.0, lastProcessed := e.eventId), true)
      else if e.eventType in p.errorHandlers then
        var h := p.errorHandlers[e.eventType](r.0, e);
        (m.(engine := h.0), h.1)
      else (m.(engine := r.0), false)
  }

  /** The event gets as far as a handler: it is valid or not checked, and its type has one. */
  predicate Handled<E>(p: Setup<E>, e: VersionedEvent) {
    (p.config.validateEventSchemas ==> p.valid(e)) && e.eventType in p.handlers
  }

  /**
   An event that gets no handler leaves the engine alone, and is skipped exactly if that is not an error. One
   that does leaves the engine as its handler made it or, if that failed and there is one, as the error handler
   made it next; it is never skipped, is recorded as the last exactly if its own handler took it, and fails
   exactly if neither its handler nor an error handler for its type takes it.
   */
  lemma ProcessLaws<E>(p: Setup<E>, m: Machine<E>, e: VersionedEvent)
    ensures var (after, ok) := Process(p, m, e);
      after.processed == m.processed && after.errored == m.errored &&
      after.typeStats == m.typeStats && after.errorStats == m.errorStats &&
      after.skipped == m.skipped + (if ok && !Handled(p, e) then 1 else 0) &&
      (!Handled(p, e) ==> after.engine == m.engine && after.lastProcessed == m.lastProcessed) &&
      (!Handled(p, e) ==>
        (ok <==> !(p.config.validateEventSchemas && !p.valid(e) && !p.config.skipCorruptedEvents))) &&
      (Handled(p, e) ==>
        var first := p.handlers[e.eventType](m.engine, e);
        after.engine ==
          (if first.1 || e.eventType !in p.errorHandlers then first.0
           else p.errorHandlers[e.eventType](first.0, e).0) &&
        after.lastProcessed == (if first.1 then e.eventId else m.lastProcessed) &&
        (ok <==> first.1 || (e.eventType in p.errorHandlers && p.errorHandlers[e.eventType](first.0, e).1)))
  {
  }

  /** Every event counts as processed or as errored, a skipped one as processed. */
  function Account<E>(p: Setup<E>, m: Machine<E>, e: VersionedEvent): Machine<E> {
    var r := Process(p, m, e);
    if r.1 then r.0.(processed := r.0.processed + 1, typeStats := Bump(r.0.typeStats, e.eventType))
    else r.0.(errored := r.0.errored + 1, errorStats := Bump(r.0.errorStats, e.eventType))
  }

  function Count(stats: map<string, int>, key: string): int { if key in stats then stats[key] else 0 }

  /** Exactly one of the two counters goes up by one, and with it the count of the event's type beside it. */
  lemma AccountLaws<E>(p: Setup<E>, m: Machine<E>, e: VersionedEvent, t: string)
    ensures var (after, ok) := Process(p, m, e); var counted := Account(p, m, e);
      counted.engine == after.engine && counted.skipped == after.skipped &&
      counted.lastProcessed == after.lastProcessed &&
      (if ok
       then counted.processed == m.processed + 1 && counted.errored == m.errored && counted.errorStats == m.errorStats
       else counted.errored == m.errored + 1 && counted.processed == m.processed && counted.typeStats == m.typeStats) &&
      Count(if ok then counted.typeStats else counted.errorStats, t) ==
        Count(if ok then m.typeStats else m.errorStats, t) + if t == e.eventType then 1 else 0
  {
  }

  predicate Stops<E>(p: Setup<E>, m: Machine<E>, e: VersionedEvent) {
    !Process(p, m, e).1 && !p.config.continueOnError
  }

  /** `handled` events were replayed; if the run stopped, the one after them failed. */
  datatype Run<E> = Run(machine: Machine<E>, handled: nat, stopped: bool)

  /** One event at a time. */
  function Replay<E>(p: Setup<E>, m: Machine<E>, events: seq<VersionedEvent>): Run<E> {
    if events == [] then Run(m, 0, false)
    else
      var last := |events| - 1;
      var before := Replay(p, m, events[..last]);
      if before.stopped then before
      else
        var stops := Stops(p, before.machine, events[last]);
        Run(Account(p, before.machine, events[last]), if stops then last else last + 1, stops)
  }

  lemma {:induction false} ReplayBounds<E>(p: Setup<E>, m: Machine<E>, events: seq<VersionedEvent>)
    ensures var r := Replay(p, m, events); r.handled <= |events| && (r.stopped <==> r.handled < |events|)
  {
    if events != [] { ReplayBounds(p, m, events[..|events| - 1]); }
  }

  lemma {:induction false} ReplayConcat<E>(p: Setup<E>, m: Machine<E>, xs: seq<VersionedEvent>, ys: seq<VersionedEvent>)
    ensures var first := Replay(p, m, xs);
      Replay(p, m, xs + ys) ==
        if first.stopped then first
        else var second := Replay(p, first.machine, ys); second.(handled := |xs| + second.handled)
  {
    if ys == [] {
      assert xs + ys == xs;
    } else {
      var n := |ys| - 1;
      ReplayConcat(p, m, xs, ys[..n]);
      assert (xs + ys)[..|xs + ys| - 1] == xs + ys[..n];
    }
  }

  /** One event more. */
  lemma ReplayNext<E>(p: Setup<E>, m: Machine<E>, events: seq<VersionedEvent>, i: nat)
    requires i < |events| && !Replay(p, m, events[..i]).stopped
    ensures var before := Replay(p, m, events[..i]).machine; var stops := Stops(p, before, events[i]);
      Replay(p, m, events[..i + 1]) == Run(Account(p, before, events[i]), if stops then i else i + 1, stops)
  {
    assert events[..i + 1][..i] == events[..i];
  }

  /** The event at this position fails, after all those before it. */
  predicate FailsAt<E>(p: Setup<E>, m: Machine<E>, events: seq<VersionedEvent>, i: nat)
    requires i < |events|
  {
    !Process(p, Replay(p, m, events[..i]).machine, events[i]).1
  }

  /** A replay stops at the first event that fails, and never if it is to go on after errors. */
  lemma {:induction false} StopsExactlyWhen<E>(p: Setup<E>, m: Machine<E>, events: seq<VersionedEvent>)
    ensures var r := Replay(p, m, events);
      (r.stopped ==> !p.config.continueOnError && r.handled < |events| && FailsAt(p, m, events, r.handled)) &&
      (!p.config.continueOnError ==> forall i :: 0 <= i < r.handled && i < |events| ==> !FailsAt(p, m, events, i)) &&
      (!r.stopped ==> r.handled == |events|)
  {
    if events != [] {
      var last := |events| - 1;
      StopsExactlyWhen(p, m, events[..last]);
      ReplayBounds(p, m, events[..last]);
      forall i | 0 <= i < last ensures FailsAt(p, m, events, i) == FailsAt(p, m, events[..last], i) {
        assert events[..last][..i] == events[..i];
      }
    }
  }

  /** A run that has stopped is not changed by what would follow. */
  lemma StoppedStays<E>(p: Setup<E>, m: Machine<E>, part: seq<VersionedEvent>, whole: seq<VersionedEvent>)
    requires part <= whole && Replay(p, m, part).stopped
    ensures Replay(p, m, whole) == Replay(p, m, part)
  {
    ReplayConcat(p, m, part, whole[|part|..]);
    assert part + whole[|part|..] == whole;
  }

  lemma {:induction false} ReplayCounts<E>(p: Setup<E>, m: Machine<E>, events: seq<VersionedEvent>)
    ensures var r := Replay(p, m, events);
      r.machine.processed + r.machine.errored == m.processed + m.errored + r.handled + if r.stopped then 1 else 0
  {
    if events != [] { ReplayCounts(p, m, events[..|events| - 1]); }
  }

  /** How many events have a type. */
  function OfType(events: seq<VersionedEvent>, t: string): nat {
    if events == [] then 0
    else OfType(events[..|events| - 1], t) + if events[|events| - 1].eventType == t then 1 else 0
  }

  /** The two tables together count, for each type, the events handled and the one that stopped the run. */
  lemma {:induction false} TypesTally<E>(p: Setup<E>, m: Machine<E>, events: seq<VersionedEvent>, t: string)
    ensures var r := Replay(p, m, events); var met := if r.stopped then r.handled + 1 else r.handled;
      met <= |events| &&
      Count(r.machine.typeStats, t) + Count(r.machine.errorStats, t) ==
        Count(m.typeStats, t) + Count(m.errorStats, t) + OfType(events[..met], t)
  {
    if events == [] {
      assert events[..0] == [];
    } else {
      var last := |events| - 1;
      var before := Replay(p, m, events[..last]);
      TypesTally(p, m, events[..last], t);
      ReplayBounds(p, m, events[..last]);
      if before.stopped {
        assert events[..last][..before.handled + 1] == events[..before.handled + 1];
      } else {
        AccountLaws(p, before.machine, events[last], t);
        assert events[..last][..last] == events[..last] && events[..last + 1] == events;
      }
    }
  }

  /** Handlers that write down every event they are given, and take it. */
  ghost predicate Recording(p: Setup<seq<VersionedEvent>>) {
    forall t, s, e :: t in p.handlers ==> p.handlers[t](s, e) == (s + [e], true)
  }

  /** The events that get a handler, in order. */
  function Calls<E>(p: Setup<E>, events: seq<VersionedEvent>): seq<VersionedEvent> {
    if events == [] then []
    else
      var earlier := Calls(p, events[..|events| - 1]);
      if Handled(p, events[|events| - 1]) then earlier + [events[|events| - 1]] else earlier
  }

  /**
   What the handlers see: with handlers that record, and invalid events skipped or not checked, the engine holds
   afterwards exactly the events that have a handler, each once and in the order of the journal.
   */
  lemma {:induction false} HandlersSee(p: Setup<seq<VersionedEvent>>, m: Machine<seq<VersionedEvent>>,
                                       events: seq<VersionedEvent>)
    requires Recording(p) && (p.config.validateEventSchemas ==> p.config.skipCorruptedEvents)
    ensures var r := Replay(p, m, events); !r.stopped && r.machine.engine == m.engine + Calls(p, events)
  {
    if events != [] {
      var last := |events| - 1;
      HandlersSee(p, m, events[..last]);
      var before := Replay(p, m, events[..last]).machine;
      ProcessLaws(p, before, events[last]);
      if Handled(p, events[last]) {
        assert m.engine + (Calls(p, events[..last]) + [events[last]]) == before.engine + [events[last]];
      }
    }
  }

  // ---------- Reading the journal ----------

  datatype Halt = Running | LimitReached | ParseError

  datatype Scan = Scan(events: seq<VersionedEvent>, malformed: nat, halt: Halt)

  /** What reading some lines yields; the limit is only looked at after an event. */
  function ScanLines(c: Config, lines: seq<Line>): Scan {
    if lines == [] then Scan([], 0, Running)
    else
      var s := ScanLines(c, lines[..|lines| - 1]);
      if !s.halt.Running? then s else
      match lines[|lines| - 1]
      case Blank => s
      case Malformed => if c.skipCorruptedEvents then s.(malformed := s.malformed + 1) else s.(halt := ParseError)
      case Parsed(e) =>
        s.(events := s.events + [e], halt := if |s.events| + 1 >= c.maxReplayEvents then LimitReached else Running)
  }

  function EventsIn(lines: seq<Line>): seq<VersionedEvent> {
    if lines == [] then []
    else
      var earlier := EventsIn(lines[..|lines| - 1]);
      if lines[|lines| - 1].Parsed? then earlier + [lines[|lines| - 1].event] else earlier
  }

  function MalformedIn(lines: seq<Line>): nat {
    if lines == [] then 0 else MalformedIn(lines[..|lines| - 1]) + if lines[|lines| - 1].Malformed? then 1 else 0
  }

  /** The limit is looked at after an event, so one event is read even with a limit of none. */
  function Limit(c: Config): int { if c.maxReplayEvents < 1 then 1 else c.maxReplayEvents }

  /**
   How far reading comes: to the end, with fewer events than the limit and no malformed line that is not skipped;
   or to the event that makes the limit full; or to the first malformed line, if those are not skipped.
   */
  lemma {:induction false} ScanReads(c: Config, lines: seq<Line>) returns (k: nat)
    ensures k <= |lines|
    ensures var s := ScanLines(c, lines); var part := lines[..k];
      s.events == EventsIn(part) &&
      (c.skipCorruptedEvents ==> s.malformed == MalformedIn(part)) &&
      match s.halt
      case Running => k == |lines| && |s.events| < Limit(c) && (c.skipCorruptedEvents || MalformedIn(part) == 0)
      case LimitReached =>
        k > 0 && lines[k - 1].Parsed? && |s.events| == Limit(c) && (c.skipCorruptedEvents || MalformedIn(part) == 0)
      case ParseError =>
        k > 0 && lines[k - 1].Malformed? && !c.skipCorruptedEvents && MalformedIn(part) == 1 && |s.events| < Limit(c)
  {
    if lines == [] { return 0; }
    var n := |lines| - 1;
    k := ScanReads(c, lines[..n]);
    if ScanLines(c, lines[..n]).halt.Running? {
      assert lines[..n][..n] == lines[..n] && lines[..n + 1] == lines;
      k := n + 1;
    } else {
      assert lines[..n][..k] == lines[..k];
    }
  }

  lemma {:induction false} ScanGrows(c: Config, lines: seq<Line>, i: nat)
    requires i <= |lines|
    ensures var part, whole := ScanLines(c, lines[..i]), ScanLines(c, lines);
      part.events <= whole.events && (!part.halt.Running? ==> whole == part)
  {
    if i < |lines| {
      ScanGrows(c, lines[..|lines| - 1], i);
      assert lines[..|lines| - 1][..i] == lines[..i];
    } else {
      assert lines[..i] == lines;
    }
  }

  /** What one more line adds. */
  lemma ScanNext(c: Config, lines: seq<Line>, i: nat)
    requires i < |lines| && ScanLines(c, lines[..i]).halt.Running?
    ensures var s, next, whole := ScanLines(c, lines[..i]), ScanLines(c, lines[..i + 1]), ScanLines(c, lines);
      next.events <= whole.events && (!next.halt.Running? ==> whole == next) &&
      match lines[i]
      case Blank => next == s
      case Malformed => next.events == s.events && (next.halt == if c.skipCorruptedEvents then Running else ParseError)
      case Parsed(e) =>
        next.events == s.events + [e] &&
          (next.halt == if |next.events| >= c.maxReplayEvents then LimitReached else Running)
  {
    assert lines[..i + 1][..i] == lines[..i];
    ScanGrows(c, lines, i + 1);
  }

  /** A batch is full at its size; sizes below one act as one. */
  function Size(c: Config): nat { if c.batchSize < 1 then 1 else c.batchSize }

  /** The events among n that full batches cover. */
  function Full(c: Config, n: nat): (r: nat)
    ensures r <= n && n - r < Size(c)
  {
    if n == 0 then 0
    else
      var earlier := Full(c, n - 1);
      if n - earlier == Size(c) then n else earlier
  }

  lemma DivisionIsUnique(n: nat, q: int, r: nat, b: nat)
    requires r < b && n == q * b + r
    ensures n % b == r
  {
    var x := n / b - q;
    assert n == b * (n / b) + n % b;
    assert x * b == r - n % b;
    if x != 0 { MultipleIsFar(x, b); }
  }

  lemma MultipleIsFar(x: int, b: int)
    requires x != 0 && b > 0
    ensures x * b >= b || x * b <= -b
  {
    if x < 0 { assert (-x - 1) * b >= 0; } else { assert (x - 1) * b >= 0; }
  }

  lemma NextRemainder(n: nat, b: nat)
    requires b > 0
    ensures (n + 1) % b == if n % b + 1 == b then 0 else n % b + 1
  {
    var q, r := n / b, n % b;
    assert n == q * b + r;
    if r + 1 == b {
      assert n + 1 == (q + 1) * b + 0;
      DivisionIsUnique(n + 1, q + 1, 0, b);
    } else {
      DivisionIsUnique(n + 1, q, r + 1, b);
    }
  }

  /** The rest of a division by the batch size is the unfinished batch. */
  lemma {:induction false} FullIsDivision(c: Config, n: nat)
    ensures n % Size(c) == n - Full(c, n)
  {
    if n > 0 {
      FullIsDivision(c, n - 1);
      NextRemainder(n - 1, Size(c));
    }
  }

  lemma {:induction false} FullWithin(c: Config, from: nat, n: nat)
    requires Full(c, from) == from && from <= n < from + Size(c)
    ensures Full(c, n) == from
    decreases n
  {
    if from < n { FullWithin(c, from, n - 1); }
  }

  lemma {:induction false} FullGrows(c: Config, a: nat, b: nat)
    requires a <= b
    ensures Full(c, a) <= Full(c, b) && Full(c, Full(c, a)) == Full(c, a)
    decreases b
  {
    if a < b { FullGrows(c, a, b - 1); } else if a > 0 { FullGrows(c, a - 1, a - 1); }
  }

  /** The events that reach the handlers: a parse error throws the unfinished batch away. */
  function Todo(c: Config, lines: seq<Line>): seq<VersionedEvent> {
    var s := ScanLines(c, lines);
    if s.halt.ParseError? then s.events[..Full(c, |s.events|)] else s.events
  }

  datatype Ending = Completed | Failed | Unparsable

  /**
   Batched replay hands over the same events as replay one at a time exactly when no malformed line ends
   the reading in the middle of a batch. Otherwise the events of that batch are lost.
   */
  lemma BatchingIsInvisible(c: Config, lines: seq<Line>)
    ensures var one := c.(batchSize := 1); var s := ScanLines(c, lines);
      Todo(c, lines) <= Todo(one, lines) &&
      (Todo(c, lines) == Todo(one, lines) <==>
        !s.halt.ParseError? || c.batchSize <= 1 || |s.events| % c.batchSize == 0) &&
      |Todo(one, lines)| - |Todo(c, lines)| ==
        if s.halt.ParseError? && c.batchSize > 1 then |s.events| % c.batchSize else 0
  {
    ScanIgnoresBatchSize(c, c.(batchSize := 1), lines);
    FullIsDivision(c, |ScanLines(c, lines).events|);
  }

  lemma {:induction false} ScanIgnoresBatchSize(c: Config, d: Config, lines: seq<Line>)
    requires d == c.(batchSize := d.batchSize)
    ensures ScanLines(c, lines) == ScanLines(d, lines)
  {
    if lines != [] { ScanIgnoresBatchSize(c, d, lines[..|lines| - 1]); }
  }

  lemma {:induction false} SkippingNeverHalts(c: Config, lines: seq<Line>)
    requires c.skipCorruptedEvents || forall i :: 0 <= i < |lines| ==> !lines[i].Malformed?
    ensures !ScanLines(c, lines).halt.ParseError?
  {
    if lines != [] { SkippingNeverHalts(c, lines[..|lines| - 1]); }
  }

  /** With malformed lines skipped or absent, every batch size gives the same replay, failure and all. */
  lemma BatchedEqualsOneAtATime<E>(p: Setup<E>, m: Machine<E>, lines: seq<Line>)
    requires p.config.skipCorruptedEvents || forall i :: 0 <= i < |lines| ==> !lines[i].Malformed?
    ensures var one := p.(config := p.config.(batchSize := 1));
      Replay(p, m, Todo(p.config, lines)) == Replay(one, m, Todo(one.config, lines))
  {
    var one := p.(config := p.config.(batchSize := 1));
    SkippingNeverHalts(p.config, lines);
    BatchingIsInvisible(p.config, lines);
    ReplayIgnoresBatchSize(p, one, m, Todo(p.config, lines));
  }

  lemma {:induction false} ReplayIgnoresBatchSize<E>(p: Setup<E>, q: Setup<E>, m: Machine<E>,
                                                     events: seq<VersionedEvent>)
    requires q == p.(config := p.config.(batchSize := q.config.batchSize))
    ensures Replay(p, m, events) == Replay(q, m, events)
  {
    if events != [] {
      var last := |events| - 1;
      ReplayIgnoresBatchSize(p, q, m, events[..last]);
      StepIgnoresBatchSize(p, q, Replay(p, m, events[..last]).machine, events[last]);
    }
  }

  lemma StepIgnoresBatchSize<E>(p: Setup<E>, q: Setup<E>, m: Machine<E>, e: VersionedEvent)
    requires q == p.(config := p.config.(batchSize := q.config.batchSize))
    ensures Account(p, m, e) == Account(q, m, e) && Stops(p, m, e) == Stops(q, m, e)
  {
    assert Process(p, m, e) == Process(q, m, e);
  }

  // ---------- Checkpoints ----------

  datatype Checkpoint = Checkpoint(sequence: int, lastEventId: string, processed: int, skipped: int, errored: int)

  /** The event counts up to n at which a batch is full and the interval divides the count. */
  function Due(c: Config, n: nat): seq<nat>
    requires c.checkpointInterval != 0
  {
    if n == 0 then []
    else if Full(c, n) == n && n % c.checkpointInterval == 0 then Due(c, n - 1) + [n]
    else Due(c, n - 1)
  }

  /** These are exactly the common multiples of batch size and interval. */
  lemma {:induction false} DueAtCommonMultiples(c: Config, n: nat, k: nat)
    requires c.checkpointInterval != 0
    ensures k in Due(c, n) <==>
      0 < k <= n && (c.batchSize <= 1 || k % c.batchSize == 0) && k % c.checkpointInterval == 0
  {
    if n > 0 {
      DueAtCommonMultiples(c, n - 1, k);
      FullIsDivision(c, n);
    }
  }

  lemma {:induction false} NoneDueInside(c: Config, from: nat, n: nat)
    requires c.checkpointInterval != 0 && Full(c, n) == from
    ensures Due(c, n) == Due(c, from)
    decreases n
  {
    if from < n { NoneDueInside(c, from, n - 1); }
  }

  lemma DueAfterBatch(c: Config, full: nat, n: nat)
    requires c.checkpointInterval != 0 && Full(c, full) == full && n == full + Size(c)
    ensures Full(c, n) == n
    ensures Due(c, n) == if n % c.checkpointInterval == 0 then Due(c, full) + [n] else Due(c, full)
  {
    FullWithin(c, full, n - 1);
    NoneDueInside(c, full, n - 1);
  }

  /** What a checkpoint after so many events holds: the last of them, and the counters of the replay up to it. */
  ghost predicate Marks<E>(p: Setup<E>, m: Machine<E>, events: seq<VersionedEvent>, count: nat, c: Checkpoint) {
    0 < count <= |events| && c.sequence == count && c.lastEventId == events[count - 1].eventId &&
    var so := Replay(p, m, events[..count]).machine; c.processed == so.processed && c.errored == so.errored
  }

  /** Checkpoints attempted at the given counts. */
  ghost predicate AttemptedAt<E>(p: Setup<E>, m: Machine<E>, events: seq<VersionedEvent>, cs: seq<Checkpoint>,
                                 counts: seq<nat>) {
    |cs| == |counts| &&
    (cs == [] ||
     var n := |cs| - 1;
     (AttemptedAt(p, m, events, cs[..n], counts[..n]) && Marks(p, m, events, counts[n], cs[n])))
  }

  lemma AttemptedSnoc<E>(p: Setup<E>, m: Machine<E>, events: seq<VersionedEvent>, cs: seq<Checkpoint>,
                         counts: seq<nat>, c: Checkpoint, count: nat)
    requires AttemptedAt(p, m, events, cs, counts) && Marks(p, m, events, count, c)
    ensures AttemptedAt(p, m, events, cs + [c], counts + [count])
  {
    assert (cs + [c])[..|cs|] == cs && (counts + [count])[..|cs|] == counts;
  }

  lemma {:induction false} AttemptedBefore<E>(p: Setup<E>, m: Machine<E>, events: seq<VersionedEvent>, n: nat,
                                              cs: seq<Checkpoint>, counts: seq<nat>)
    requires n <= |events| && AttemptedAt(p, m, events, cs, counts) && forall j :: 0 <= j < |counts| ==> counts[j] <= n
    ensures AttemptedAt(p, m, events[..n], cs, counts)
  {
    if cs != [] {
      var last := |cs| - 1;
      AttemptedBefore(p, m, events, n, cs[..last], counts[..last]);
      assert events[..n][..counts[last]] == events[..counts[last]];
    }
  }

  lemma {:induction false} AttemptedGrows<E>(p: Setup<E>, m: Machine<E>, events: seq<VersionedEvent>,
                                             whole: seq<VersionedEvent>, cs: seq<Checkpoint>, counts: seq<nat>)
    requires events <= whole && AttemptedAt(p, m, events, cs, counts)
    ensures AttemptedAt(p, m, whole, cs, counts)
  {
    if cs != [] {
      var last := |cs| - 1;
      AttemptedGrows(p, m, events, whole, cs[..last], counts[..last]);
      assert whole[..counts[last]] == events[..counts[last]];
    }
  }

  /** How many attempted checkpoints the store accepted. */
  function Kept(cs: seq<Checkpoint>, store: Checkpoint -> bool): nat {
    if cs == [] then 0 else Kept(cs[..|cs| - 1], store) + if store(cs[|cs| - 1]) then 1 else 0
  }

  lemma KeptSnoc(cs: seq<Checkpoint>, c: Checkpoint, store: Checkpoint -> bool)
    ensures Kept(cs + [c], store) == Kept(cs, store) + if store(c) then 1 else 0
  {
    assert (cs + [c])[..|cs|] == cs;
  }

  // ---------- The reading loop ----------

  /** Between lines: the events read, `full` of them replayed in full batches, the rest waiting in `batch`. */
  ghost predicate Waiting<E>(p: Setup<E>, m: Machine<E>, events: seq<VersionedEvent>, full: nat,
                             batch: seq<VersionedEvent>, now: Machine<E>, made: seq<Checkpoint>)
    requires p.config.checkpointInterval != 0
  {
    full <= |events| && Full(p.config, full) == full && batch == events[full..] && |batch| <= Size(p.config) &&
    now == Replay(p, m, events[..full]).machine && !Replay(p, m, events[..full]).stopped &&
    AttemptedAt(p, m, events, made, Due(p.config, full))
  }

  /** The lines read so far, and what has become of their events. */
  ghost predicate ReadTo<E>(p: Setup<E>, m: Machine<E>, read: seq<Line>, halt: Halt, eventCount: nat, full: nat,
                            batch: seq<VersionedEvent>, now: Machine<E>, made: seq<Checkpoint>)
    requires p.config.checkpointInterval != 0
  {
    var s := ScanLines(p.config, read);
    s.halt == halt && eventCount == |s.events| && |batch| < Size(p.config) &&
    Waiting(p, m, s.events, full, batch, now, made)
  }

  ghost predicate Outcome<E>(p: Setup<E>, m: Machine<E>, lines: seq<Line>, now: Machine<E>,
                             made: seq<Checkpoint>, ending: Ending)
    requires p.config.checkpointInterval != 0
  {
    var r := Replay(p, m, Todo(p.config, lines));
    now == r.machine && (ending == Failed <==> r.stopped) &&
    (ending == Unparsable <==> !r.stopped && ScanLines(p.config, lines).halt == ParseError) &&
    AttemptedAt(p, m, Todo(p.config, lines), made, Due(p.config, Full(p.config, r.handled)))
  }

  lemma ReadOne<E>(p: Setup<E>, m: Machine<E>, events: seq<VersionedEvent>, full: nat,
                   batch: seq<VersionedEvent>, now: Machine<E>, made: seq<Checkpoint>, e: VersionedEvent)
    requires p.config.checkpointInterval != 0
    requires Waiting(p, m, events, full, batch, now, made) && |batch| < Size(p.config)
    ensures Waiting(p, m, events + [e], full, batch + [e], now, made)
  {
    assert (events + [e])[..full] == events[..full];
    assert (events + [e])[full..] == batch + [e];
    AttemptedGrows(p, m, events, events + [e], made, Due(p.config, full));
  }

  lemma BatchReplayed<E>(p: Setup<E>, m: Machine<E>, events: seq<VersionedEvent>, full: nat,
                         batch: seq<VersionedEvent>, now: Machine<E>)
    requires full <= |events| && batch == events[full..]
    requires now == Replay(p, m, events[..full]).machine && !Replay(p, m, events[..full]).stopped
    ensures var r := Replay(p, now, batch); Replay(p, m, events) == r.(handled := full + r.handled)
  {
    ReplayConcat(p, m, events[..full], batch);
    assert events[..full] + batch == events;
  }

  /** After a full batch nothing waits, and a checkpoint is due exactly if the interval divides the count. */
  lemma FullBatch<E>(p: Setup<E>, m: Machine<E>, events: seq<VersionedEvent>, full: nat,
                     batch: seq<VersionedEvent>, now: Machine<E>, made: seq<Checkpoint>, c: Checkpoint)
    requires p.config.checkpointInterval != 0 && Waiting(p, m, events, full, batch, now, made)
    requires |batch| == Size(p.config) && !Replay(p, now, batch).stopped
    requires var after := Replay(p, now, batch).machine;
      c.sequence == |events| && c.lastEventId == events[|events| - 1].eventId &&
      c.processed == after.processed && c.errored == after.errored
    ensures Waiting(p, m, events, |events|, [], Replay(p, now, batch).machine,
      if |events| % p.config.checkpointInterval == 0 then made + [c] else made)
  {
    var n, r := |events|, Replay(p, now, batch);
    assert events[..n] == events;
    assert Replay(p, m, events).machine == r.machine && !Replay(p, m, events).stopped by {
      BatchReplayed(p, m, events, full, batch, now);
    }
    DueAfterBatch(p.config, full, n);
    assert events[n..] == [];
    if n % p.config.checkpointInterval == 0 { MarkedBatch(p, m, events, full, made, c); }
  }

  lemma MarkedBatch<E>(p: Setup<E>, m: Machine<E>, events: seq<VersionedEvent>, full: nat, made: seq<Checkpoint>,
                       c: Checkpoint)
    requires p.config.checkpointInterval != 0 && AttemptedAt(p, m, events, made, Due(p.config, full)) && events != []
    requires var n, so := |events|, Replay(p, m, events).machine;
      c.sequence == n && c.lastEventId == events[n - 1].eventId && c.processed == so.processed &&
      c.errored == so.errored && Due(p.config, n) == Due(p.config, full) + [n]
    ensures AttemptedAt(p, m, events, made + [c], Due(p.config, |events|))
  {
    assert events[..|events|] == events;
    AttemptedSnoc(p, m, events, made, Due(p.config, full), c, |events|);
  }

  lemma StoppedOutcome<E>(p: Setup<E>, m: Machine<E>, events: seq<VersionedEvent>, full: nat,
                          batch: seq<VersionedEvent>, now: Machine<E>, made: seq<Checkpoint>, lines: seq<Line>)
    requires p.config.checkpointInterval != 0 && Waiting(p, m, events, full, batch, now, made)
    requires Replay(p, now, batch).stopped && events <= Todo(p.config, lines)
    ensures Outcome(p, m, lines, Replay(p, now, batch).machine, made, Failed)
  {
    var r, todo := Replay(p, now, batch), Todo(p.config, lines);
    assert Replay(p, m, todo) == r.(handled := full + r.handled) by {
      BatchReplayed(p, m, events, full, batch, now);
      StoppedStays(p, m, events, todo);
    }
    assert Full(p.config, full + r.handled) == full by {
      ReplayBounds(p, now, batch);
      FullWithin(p.config, full, full + r.handled);
    }
    AttemptedGrows(p, m, events, todo, made, Due(p.config, full));
  }

  /** Events read in full batches are events to do, whatever follows. */
  lemma ReadIsTodo(c: Config, lines: seq<Line>, events: seq<VersionedEvent>, full: nat)
    requires events <= ScanLines(c, lines).events && Full(c, full) == full && |events| == full + Size(c)
    ensures events <= Todo(c, lines)
  {
    FullWithin(c, full, |events| - 1);
    FullGrows(c, |events|, |ScanLines(c, lines).events|);
  }

  lemma FinishedOutcome<E>(p: Setup<E>, m: Machine<E>, events: seq<VersionedEvent>, full: nat,
                           batch: seq<VersionedEvent>, now: Machine<E>, made: seq<Checkpoint>, lines: seq<Line>)
    requires p.config.checkpointInterval != 0 && Waiting(p, m, events, full, batch, now, made)
    requires !Replay(p, now, batch).stopped && |batch| < Size(p.config)
    requires ScanLines(p.config, lines).events == events && !ScanLines(p.config, lines).halt.ParseError?
    ensures Outcome(p, m, lines, Replay(p, now, batch).machine, made, Completed)
  {
    BatchReplayed(p, m, events, full, batch, now);
    ReplayBounds(p, now, batch);
    FullWithin(p.config, full, |events|);
  }

  lemma UnparsableOutcome<E>(p: Setup<E>, m: Machine<E>, events: seq<VersionedEvent>, full: nat,
                             batch: seq<VersionedEvent>, now: Machine<E>, made: seq<Checkpoint>, lines: seq<Line>)
    requires p.config.checkpointInterval != 0 && Waiting(p, m, events, full, batch, now, made)
    requires |batch| < Size(p.config)
    requires ScanLines(p.config, lines).events == events && ScanLines(p.config, lines).halt.ParseError?
    ensures Outcome(p, m, lines, now, made, Unparsable)
  {
    FullWithin(p.config, full, |events|);
    var due := Due(p.config, full);
    forall j | 0 <= j < |due| ensures due[j] <= full { DueAtCommonMultiples(p.config, full, due[j]); }
    AttemptedBefore(p, m, events, full, made, Due(p.config, full));
    ReplayBounds(p, m, events[..full]);
  }

  class EventReplayManager<E> {
    const setup: Setup<E>
    const store: Checkpoint -> bool
    var engine: E
    var processed: int
    var skipped: int
    var errored: int
    var typeStats: map<string, int>
    var errorStats: map<string, int>
    var lastProcessed: string
    var checkpointsCreated: int
    var attempts: seq<Checkpoint>
    ghost var malformed: nat

    constructor (setup: Setup<E>, store: Checkpoint -> bool, engine: E)
      ensures this.setup == setup && View() == Machine(engine, 0, 0, 0, map[], map[], "") && attempts == [] &&
        CountsKept()
    {
      this.setup, this.store, this.engine := setup, store, engine;
      processed, skipped, errored, typeStats, errorStats, lastProcessed := 0, 0, 0, map[], map[], "";
      checkpointsCreated, attempts, malformed := 0, [], 0;
    }

    /** The counter of created checkpoints counts those the store accepted. */
    ghost predicate CountsKept()
      reads this
    {
      checkpointsCreated == Kept(attempts, store)
    }

    /** The statistics of the events; malformed lines are added to the same skip counter. */
    ghost function View(): Machine<E>
      reads this
    {
      Machine(engine, processed, skipped - malformed, errored, typeStats, errorStats, lastProcessed)
    }

    method ProcessEvent(e: VersionedEvent) returns (ok: bool)
      modifies this`engine, this`skipped, this`lastProcessed
      ensures (View(), ok) == Process(setup, old(View()), e)
      ensures skipped == old(skipped) + if ok && !Handled(setup, e) then 1 else 0
      ensures !Handled(setup, e) ==> engine == old(engine) && lastProcessed == old(lastProcessed)
      ensures Handled(setup, e) ==>
        var first := setup.handlers[e.eventType](old(engine), e);
        engine == (if first.1 || e.eventType !in setup.errorHandlers then first.0
                   else setup.errorHandlers[e.eventType](first.0, e).0) &&
        lastProcessed == if first.1 then e.eventId else old(lastProcessed)
    {
      ProcessLaws(setup, View(), e);
      if setup.config.validateEventSchemas && !setup.valid(e) {
        if !setup.config.skipCorruptedEvents { return false; }
        skipped := skipped + 1;
        return true;
      }
      if e.eventType !in setup.handlers {
        skipped := skipped + 1;
        return true;
      }
      var r := setup.handlers[e.eventType](engine, e);
      engine := r.0;
      if !r.1 {
        if e.eventType in setup.errorHandlers {
          var h := setup.errorHandlers[e.eventType](engine, e);
          engine := h.0;
          return h.1;
        }
        return false;
      }
      lastProcessed := e.eventId;
      return true;
    }

    /** An event processed, and counted one way or the other. */
    method CountEvent(e: VersionedEvent) returns (ok: bool)
      modifies this`engine, this`processed, this`skipped, this`errored, this`typeStats, this`errorStats,
        this`lastProcessed
      ensures View() == Account(setup, old(View()), e) && ok == Process(setup, old(View()), e).1
    {
      ok := ProcessEvent(e);
      if !ok {
        errored := errored + 1;
        errorStats := Bump(errorStats, e.eventType);
      } else {
        processed := processed + 1;
        typeStats := Bump(typeStats, e.eventType);
      }
    }

    method ReplayEventBatch(events: seq<VersionedEvent>) returns (failedAt: Option<nat>)
      modifies this`engine, this`processed, this`skipped, this`errored, this`typeStats, this`errorStats,
        this`lastProcessed
      ensures var r := Replay(setup, old(View()), events);
        View() == r.machine && failedAt == if r.stopped then Some(r.handled) else None
    {
      for i := 0 to |events|
        invariant var r := Replay(setup, old(View()), events[..i]); View() == r.machine && !r.stopped
      {
        ReplayNext(setup, old(View()), events, i);
        var ok := CountEvent(events[i]);
        if !ok && !setup.config.continueOnError {
          StoppedStays(setup, old(View()), events[..i + 1], events);
          return Some(i);
        }
      }
      assert events[..|events|] == events;
      return None;
    }

    method CreateCheckpoint(last: VersionedEvent, eventCount: int)
      modifies this`checkpointsCreated, this`attempts
      ensures attempts == old(attempts) + [Checkpoint(eventCount, last.eventId, processed, skipped, errored)]
      ensures checkpointsCreated == old(checkpointsCreated) + if store(attempts[|attempts| - 1]) then 1 else 0
      ensures View() == old(View()) && (old(CountsKept()) ==> CountsKept())
    {
      var c := Checkpoint(eventCount, last.eventId, processed, skipped, errored);
      KeptSnoc(attempts, c, store);
      attempts := attempts + [c];
      if store(c) { checkpointsCreated := checkpointsCreated + 1; }
    }

    /** A checkpoint is attempted exactly if the interval divides the count. */
    method CheckpointIfDue(event: VersionedEvent, eventCount: int, ghost start: seq<Checkpoint>,
                           ghost made: seq<Checkpoint>)
      returns (ghost made': seq<Checkpoint>)
      requires setup.config.checkpointInterval != 0 && attempts == start + made
      modifies this`attempts, this`checkpointsCreated
      ensures attempts == start + made' && View() == old(View()) && (old(CountsKept()) ==> CountsKept())
      ensures made' ==
        if eventCount % setup.config.checkpointInterval == 0
        then made + [Checkpoint(eventCount, event.eventId, processed, skipped, errored)]
        else made
    {
      made' := made;
      if eventCount % setup.config.checkpointInterval == 0 {
        made' := made + [Checkpoint(eventCount, event.eventId, processed, skipped, errored)];
        CreateCheckpoint(event, eventCount);
      }
    }

    /** A full batch: replayed, and followed by a checkpoint if the interval divides the count so far. */
    method HandleFullBatch(event: VersionedEvent, eventCount: int, batch: seq<VersionedEvent>, ghost m: Machine<E>,
                           ghost events: seq<VersionedEvent>, ghost full: nat,
                           ghost start: seq<Checkpoint>, ghost made: seq<Checkpoint>, ghost lines: seq<Line>)
      returns (failed: bool, ghost made': seq<Checkpoint>)
      requires setup.config.checkpointInterval != 0 && eventCount == |events|
      requires Waiting(setup, m, events, full, batch, View(), made) && |batch| == Size(setup.config)
      requires events <= ScanLines(setup.config, lines).events && attempts == start + made
      requires events != [] && events[|events| - 1] == event
      modifies this`engine, this`processed, this`skipped, this`errored, this`typeStats, this`errorStats,
        this`lastProcessed, this`attempts, this`checkpointsCreated
      ensures attempts == start + made' && (old(CountsKept()) ==> CountsKept())
      ensures failed ==> Outcome(setup, m, lines, View(), made', Failed)
      ensures !failed ==> Waiting(setup, m, events, |events|, [], View(), made')
    {
      ghost var now := View();
      made' := made;
      var failedAt := ReplayEventBatch(batch);
      if failedAt.Some? {
        ReadIsTodo(setup.config, lines, events, full);
        StoppedOutcome(setup, m, events, full, batch, now, made, lines);
        return true, made;
      }
      ghost var c := Checkpoint(eventCount, event.eventId, processed, skipped, errored);
      FullBatch(setup, m, events, full, batch, now, made, c);
      made' := CheckpointIfDue(event, eventCount, start, made);
      return false, made';
    }

    /** An event read joins the batch, which is handled if that fills it. */
    method TakeEvent(event: VersionedEvent, eventCount: int, batch: seq<VersionedEvent>, ghost m: Machine<E>,
                     ghost events: seq<VersionedEvent>, ghost full: nat,
                     ghost start: seq<Checkpoint>, ghost made: seq<Checkpoint>, ghost lines: seq<Line>)
      returns (failed: bool, batch': seq<VersionedEvent>, ghost full': nat, ghost made': seq<Checkpoint>)
      requires setup.config.checkpointInterval != 0 && eventCount == |events| + 1
      requires Waiting(setup, m, events, full, batch, View(), made) && |batch| < Size(setup.config)
      requires events + [event] <= ScanLines(setup.config, lines).events && attempts == start + made
      modifies this`engine, this`processed, this`skipped, this`errored, this`typeStats, this`errorStats,
        this`lastProcessed, this`attempts, this`checkpointsCreated
      ensures attempts == start + made' && (old(CountsKept()) ==> CountsKept())
      ensures failed ==> Outcome(setup, m, lines, View(), made', Failed)
      ensures !failed ==>
        Waiting(setup, m, events + [event], full', batch', View(), made') && |batch'| < Size(setup.config)
    {
      failed, full', made' := false, full, made;
      ReadOne(setup, m, events, full, batch, View(), made, event);
      batch' := batch + [event];
      if |batch'| >= setup.config.batchSize {
        failed, made' :=
          HandleFullBatch(event, eventCount, batch', m, events + [event], full, start, made, lines);
        if !failed {
          batch' := [];
          full' := eventCount;
        }
      }
    }

    /** What is left when the reading ends: replayed, with no checkpoint after it. */
    method HandleLastBatch(batch: seq<VersionedEvent>, ghost m: Machine<E>,
                           ghost events: seq<VersionedEvent>, ghost full: nat, ghost made: seq<Checkpoint>,
                           ghost lines: seq<Line>)
      returns (ending: Ending)
      requires setup.config.checkpointInterval != 0
      requires Waiting(setup, m, events, full, batch, View(), made) && |batch| < Size(setup.config)
      requires ScanLines(setup.config, lines).events == events && !ScanLines(setup.config, lines).halt.ParseError?
      modifies this`engine, this`processed, this`skipped, this`errored, this`typeStats, this`errorStats,
        this`lastProcessed
      ensures Outcome(setup, m, lines, View(), made, ending)
    {
      ghost var now := View();
      if |batch| > 0 {
        var failedAt := ReplayEventBatch(batch);
        if failedAt.Some? {
          StoppedOutcome(setup, m, events, full, batch, now, made, lines);
          return Failed;
        }
      }
      FinishedOutcome(setup, m, events, full, batch, now, made, lines);
      return Completed;
    }

    /** A malformed line is counted as skipped. */
    method SkipLine()
      modifies this`skipped, this`malformed
      ensures View() == old(View()) && skipped == old(skipped) + 1
    {
      skipped := skipped + 1;
      malformed := malformed + 1;
    }

    /** One line of the journal: it may end the replay, or the reading, or neither. */
    method TakeLine(lines: seq<Line>, i: nat, eventCount: nat, batch: seq<VersionedEvent>, ghost m: Machine<E>,
                    ghost full: nat, ghost start: seq<Checkpoint>, ghost made: seq<Checkpoint>)
      returns (ended: Option<Ending>, halt: Halt, eventCount': nat, batch': seq<VersionedEvent>,
               ghost full': nat, ghost made': seq<Checkpoint>)
      requires setup.config.checkpointInterval != 0 && i < |lines| && attempts == start + made
      requires ReadTo(setup, m, lines[..i], Running, eventCount, full, batch, View(), made)
      modifies this
      ensures attempts == start + made' && (old(CountsKept()) ==> CountsKept())
      ensures ended.Some? ==> Outcome(setup, m, lines, View(), made', ended.value)
      ensures ended.None? ==>
        ReadTo(setup, m, lines[..i + 1], halt, eventCount', full', batch', View(), made') && !halt.ParseError? &&
        (halt.LimitReached? ==> ScanLines(setup.config, lines) == ScanLines(setup.config, lines[..i + 1]))
    {
      ended, halt, eventCount', batch', full', made' := None, Running, eventCount, batch, full, made;
      ghost var earlier := ScanLines(setup.config, lines[..i]).events;
      ScanNext(setup.config, lines, i);
      match lines[i]
      case Blank =>
      case Malformed =>
        if setup.config.skipCorruptedEvents {
          SkipLine();
        } else {
          UnparsableOutcome(setup, m, earlier, full, batch, View(), made, lines);
          ended := Some(Unparsable);
        }
      case Parsed(event) =>
        eventCount' := eventCount + 1;
        var failed;
        failed, batch', full', made' := TakeEvent(event, eventCount', batch, m, earlier, full, start, made, lines);
        if failed {
          ended := Some(Failed);
        } else if eventCount' >= setup.config.maxReplayEvents {
          halt := LimitReached;
        }
    }

    /**
     The handlers see exactly the events of Todo, one after another, up to the first that stops the run.
     A checkpoint is attempted after each full batch at whose count the interval is due, and only there.
     */
    method ReplayFromReader(lines: seq<Line>) returns (ending: Ending, ghost made: seq<Checkpoint>)
      requires setup.config.checkpointInterval != 0
      modifies this
      ensures attempts == old(attempts) + made && (old(CountsKept()) ==> CountsKept())
      ensures Outcome(setup, old(View()), lines, View(), made, ending)
    {
      ghost var m, full, read: seq<Line> := View(), 0, [];
      made := [];
      var batch: seq<VersionedEvent> := [];
      var eventCount, halt, ended := 0, Running, None;
      for i := 0 to |lines|
        invariant read == lines[..i] && ReadTo(setup, m, read, Running, eventCount, full, batch, View(), made)
        invariant attempts == old(attempts) + made && (old(CountsKept()) ==> CountsKept())
      {
        ended, halt, eventCount, batch, full, made :=
          TakeLine(lines, i, eventCount, batch, m, full, old(attempts), made);
        read := lines[..i + 1];
        if ended.Some? { return ended.value, made; }
        if halt.LimitReached? { break; }
      }
      assert lines[..|lines|] == lines;
      ending := HandleLastBatch(batch, m, ScanLines(setup.config, read).events, full, made, lines);
    }
  }
}
