/**
 Raising events to newer schema versions. Encoding a payload and decoding it again is the identity on
 decoded JSON; timestamps are nanoseconds in an event and whole seconds in the form upgraders see.
 */
module EventMigrations {
  import opened Prelude
  import opened EventSchemas

  datatype VersionedEvent = VersionedEvent(eventId: string, eventType: string, version: int, timestamp: int, data: Json)

  datatype OrderBookEvent = OrderBookEvent(version: int, eventType: string, timestamp: int, payload: Json)

  datatype Error = NoUpgrader(version: int) | BadPayload | NilPayload | NoSchema | Invalid

  type Upgrader = OrderBookEvent -> Result<OrderBookEvent, Error>

  type Upgraders = map<string, map<int, Upgrader>>

  const NANOS := 1_000_000_000

  function ForUpgrader(e: VersionedEvent): OrderBookEvent {
    OrderBookEvent(e.version, e.eventType, e.timestamp / NANOS, e.data)
  }

  function FromUpgrader(eventId: string, e: OrderBookEvent): VersionedEvent {
    VersionedEvent(eventId, e.eventType, e.version, e.timestamp * NANOS, e.payload)
  }

  predicate Registered(us: Upgraders, eventType: string, version: int) {
    eventType in us && version in us[eventType]
  }

  /** What every success of an upgrader must do for migration to end: raise the version it is registered for. */
  ghost predicate Raising(us: Upgraders) {
    forall t, e: OrderBookEvent :: Registered(us, t, e.version) && us[t][e.version](e).Ok? ==>
      us[t][e.version](e).value.version > e.version
  }

  /** One version at a time, and the event keeps its type. */
  ghost predicate StepByStep(us: Upgraders) {
    forall t, e: OrderBookEvent :: Registered(us, t, e.version) && us[t][e.version](e).Ok? ==>
      us[t][e.version](e).value.version == e.version + 1 && us[t][e.version](e).value.eventType == e.eventType
  }

  ghost predicate NeverFailing(us: Upgraders) {
    forall t, e: OrderBookEvent :: Registered(us, t, e.version) ==> us[t][e.version](e).Ok?
  }

  /** One round: the upgrader is looked up under the type the migration began with. */
  function Upgrade1(us: Upgraders, eventType: string, e: VersionedEvent): Result<VersionedEvent, Error> {
    if !Registered(us, eventType, e.version) then Err(NoUpgrader(e.version))
    else
      var r := us[eventType][e.version](ForUpgrader(e));
      if r.Err? then Err(r.error) else Ok(FromUpgrader(e.eventId, r.value))
  }

  ghost function MigrateAs(us: Upgraders, eventType: string, e: VersionedEvent, target: int)
    : Result<VersionedEvent, Error>
    requires Raising(us)
    decreases target - e.version
  {
    if e.version >= target then Ok(e)
    else
      var r := Upgrade1(us, eventType, e);
      if r.Err? then r else
      RaisesVersion(us, eventType, e);
      MigrateAs(us, eventType, r.value, target)
  }

  lemma RaisesVersion(us: Upgraders, eventType: string, e: VersionedEvent)
    requires Raising(us) && Upgrade1(us, eventType, e).Ok?
    ensures Upgrade1(us, eventType, e).value.version > e.version
  {
    var o := ForUpgrader(e);
    assert Registered(us, eventType, o.version);
  }

  method MigrateEvent(us: Upgraders, event: VersionedEvent, target: int) returns (r: Result<VersionedEvent, Error>)
    requires Raising(us)
    ensures r == MigrateAs(us, event.eventType, event, target)
    ensures r.Ok? ==> r.value.eventId == event.eventId && r.value.version >= target
    ensures event.version >= target ==> r == Ok(event)
  {
    if event.version >= target { return Ok(event); }
    var current := event;
    while current.version < target
      invariant current.eventId == event.eventId
      invariant MigrateAs(us, event.eventType, current, target) == MigrateAs(us, event.eventType, event, target)
      decreases target - current.version
    {
      if !Registered(us, event.eventType, current.version) { return Err(NoUpgrader(current.version)); }
      ghost var next := Upgrade1(us, event.eventType, current);
      var upgraded := us[event.eventType][current.version](ForUpgrader(current));
      if upgraded.Err? { return Err(upgraded.error); }
      RaisesVersion(us, event.eventType, current);
      current := FromUpgrader(event.eventId, upgraded.value);
    }
    return Ok(current);
  }

  ghost predicate Compatible(us: Upgraders, eventType: string, from: int, target: int) {
    forall v :: from <= v < target ==> Registered(us, eventType, v)
  }

  /** True exactly when every version from `from` up to the target has an upgrader. */
  method ValidateEventCompatibility(us: Upgraders, eventType: string, from: int, target: int) returns (ok: bool)
    ensures ok <==> Compatible(us, eventType, from, target)
  {
    var version := from;
    while version < target
      invariant forall v :: from <= v < version && v < target ==> Registered(us, eventType, v)
    {
      if !Registered(us, eventType, version) { return false; }
      version := version + 1;
    }
    return true;
  }

  ghost predicate FirstMissing(us: Upgraders, eventType: string, from: int, target: int, v: int) {
    from <= v < target && !Registered(us, eventType, v) && Compatible(us, eventType, from, v)
  }

  lemma StepsByOne(us: Upgraders, eventType: string, e: VersionedEvent)
    requires StepByStep(us) && Upgrade1(us, eventType, e).Ok?
    ensures var r := Upgrade1(us, eventType, e).value;
      r.version == e.version + 1 && r.eventType == e.eventType && r.eventId == e.eventId
  {
    assert Registered(us, eventType, ForUpgrader(e).version);
  }

  /**
   With upgraders that never fail and go one version at a time, migration succeeds exactly when the
   compatibility check does, reaches exactly the target, and keeps the event's identity and type; otherwise it
   names the first version without an upgrader.
   */
  lemma {:induction false} MigrationMatchesCheck(us: Upgraders, eventType: string, e: VersionedEvent, target: int)
    requires Raising(us) && StepByStep(us) && NeverFailing(us) && e.version <= target
    ensures var r := MigrateAs(us, eventType, e, target);
      (r.Ok? <==> Compatible(us, eventType, e.version, target)) &&
      (r.Err? ==> r.error.NoUpgrader? && FirstMissing(us, eventType, e.version, target, r.error.version)) &&
      (r.Ok? ==> r.value.version == target && r.value.eventId == e.eventId && r.value.eventType == e.eventType)
    decreases target - e.version
  {
    if e.version < target {
      if Registered(us, eventType, e.version) {
        assert us[eventType][ForUpgrader(e).version](ForUpgrader(e)).Ok?;
        StepsByOne(us, eventType, e);
        MigrationMatchesCheck(us, eventType, Upgrade1(us, eventType, e).value, target);
      }
    }
  }

  /** Each event is the one before it, upgraded once. */
  ghost predicate Chain(us: Upgraders, eventType: string, es: seq<VersionedEvent>, target: int) {
    es != [] &&
    forall i :: 0 <= i < |es| - 1 ==> es[i].version < target && Upgrade1(us, eventType, es[i]) == Ok(es[i + 1])
  }

  /** Migration goes from upgrade to upgrade until the target is reached or one fails, and ends with that. */
  lemma {:induction false} MigratesByChain(us: Upgraders, eventType: string, e: VersionedEvent, target: int)
    returns (es: seq<VersionedEvent>)
    requires Raising(us)
    ensures Chain(us, eventType, es, target) && es[0] == e
    ensures var last := es[|es| - 1];
      match MigrateAs(us, eventType, e, target)
      case Ok(v) => v == last && last.version >= target
      case Err(error) => last.version < target && Upgrade1(us, eventType, last) == Err(error)
    decreases target - e.version
  {
    es := [e];
    if e.version < target && Upgrade1(us, eventType, e).Ok? {
      RaisesVersion(us, eventType, e);
      var rest := MigratesByChain(us, eventType, Upgrade1(us, eventType, e).value, target);
      es := [e] + rest;
    }
  }

  /** Migrating to m and then to n is migrating to n, errors included. */
  lemma {:induction false} MigrationComposes(us: Upgraders, e: VersionedEvent, m: int, n: int)
    requires Raising(us) && StepByStep(us) && m <= n
    ensures var first := MigrateAs(us, e.eventType, e, m);
      MigrateAs(us, e.eventType, e, n) == if first.Err? then first
        else MigrateAs(us, first.value.eventType, first.value, n)
    decreases m - e.version
  {
    if e.version < m && Upgrade1(us, e.eventType, e).Ok? {
      StepsByOne(us, e.eventType, e);
      MigrationComposes(us, Upgrade1(us, e.eventType, e).value, m, n);
    }
  }

  // ---------- The journal's registry ----------

  type VersionUpgraders = map<int, Upgrader>

  ghost predicate RaisingAll(us: VersionUpgraders) {
    forall e: OrderBookEvent :: e.version in us && us[e.version](e).Ok? ==> us[e.version](e).value.version > e.version
  }

  function VersionsFrom(us: VersionUpgraders, version: int): set<int> {
    set v | v in us && v >= version
  }

  /** Applies upgraders until there is none for the version reached; ends because the registry is finite. */
  method UpgradeEvent(us: VersionUpgraders, event: OrderBookEvent) returns (r: Result<OrderBookEvent, Error>)
    requires RaisingAll(us)
    ensures r == Latest(us, event)
    ensures r.Ok? ==> r.value.version !in us && r.value.version >= event.version
  {
    var current := event;
    while current.version in us
      invariant Latest(us, current) == Latest(us, event) && current.version >= event.version
      decreases |VersionsFrom(us, current.version)|
    {
      var upgraded := us[current.version](current);
      if upgraded.Err? { return upgraded; }
      FewerVersions(us, current.version, upgraded.value.version);
      current := upgraded.value;
    }
    return Ok(current);
  }

  lemma FewerVersions(us: VersionUpgraders, v: int, w: int)
    requires v in us && v < w
    ensures |VersionsFrom(us, w)| < |VersionsFrom(us, v)|
  {
    var fewer, more := VersionsFrom(us, w), VersionsFrom(us, v);
    assert more == fewer + (more - fewer);
    assert v in more - fewer;
  }

  ghost function Latest(us: VersionUpgraders, e: OrderBookEvent): Result<OrderBookEvent, Error>
    requires RaisingAll(us)
    decreases |VersionsFrom(us, e.version)|
  {
    if e.version !in us then Ok(e)
    else
      var r := us[e.version](e);
      if r.Err? then r else
      FewerVersions(us, e.version, r.value.version);
      Latest(us, r.value)
  }

  /** Upgrading goes from version to version until there is no upgrader or one fails, and ends with that. */
  lemma {:induction false} UpgradesByChain(us: VersionUpgraders, e: OrderBookEvent) returns (es: seq<OrderBookEvent>)
    requires RaisingAll(us)
    ensures es != [] && es[0] == e
    ensures forall i :: 0 <= i < |es| - 1 ==> es[i].version in us && us[es[i].version](es[i]) == Ok(es[i + 1])
    ensures var last := es[|es| - 1];
      match Latest(us, e)
      case Ok(v) => v == last && last.version !in us
      case Err(error) => last.version in us && us[last.version](last) == Err(error)
    decreases |VersionsFrom(us, e.version)|
  {
    es := [e];
    if e.version in us && us[e.version](e).Ok? {
      var next := us[e.version](e).value;
      FewerVersions(us, e.version, next.version);
      var rest := UpgradesByChain(us, next);
      es := [e] + rest;
    }
  }

  /** Upgrading what has been upgraded changes nothing. */
  lemma {:induction false} LatestIsStable(us: VersionUpgraders, e: OrderBookEvent)
    requires RaisingAll(us) && Latest(us, e).Ok?
    ensures Latest(us, e).value.version !in us && Latest(us, Latest(us, e).value) == Latest(us, e)
    decreases |VersionsFrom(us, e.version)|
  {
    if e.version in us {
      FewerVersions(us, e.version, us[e.version](e).value.version);
      LatestIsStable(us, us[e.version](e).value);
    }
  }
}
