/** The ORDER_PLACED event: its two schemas, its upgrader, and what processing it comes to. */
module OrderPlaced {
  import opened Prelude
  import opened EventSchemas
  import opened EventMigrations

  const ORDER_PLACED := "ORDER_PLACED"
  const RISK := "risk_assessment"

  function Plain(t: FieldType): FieldSchema {
    FieldSchema(t, "", None, None, None, None, [], None, map[])
  }

  function Text(): FieldSchema { Plain(StringType) }

  function Formatted(format: string): FieldSchema { Text().(format := format) }

  function OneOf(values: seq<string>): FieldSchema { Text().(enum := values) }

  function ObjectOf(properties: map<string, FieldSchema>): FieldSchema { Plain(ObjectType).(properties := properties) }

  function OrderProperties(): map<string, FieldSchema> {
    map[
      "id" := Formatted("uuid"),
      "user_id" := Formatted("uuid"),
      "pair" := Text().(minLength := Some(3), maxLength := Some(10)),
      "side" := OneOf(["buy", "sell"]),
      "type" := OneOf(["limit", "market", "fok", "stop_limit"]),
      "quantity" := Text(),
      "price" := Text(),
      "status" := OneOf(["new", "open", "filled", "partially_filled", "cancelled", "rejected"])]
  }

  function SchemaV1(): EventSchema {
    EventSchema(
      map[
        "order" := ObjectOf(OrderProperties()),
        "timestamp" := Formatted("date-time"),
        "metadata" := ObjectOf(map["source" := Text(), "client_ip" := Text()])],
      ["order", "timestamp"])
  }

  function RiskSchema(): FieldSchema {
    ObjectOf(map[
      "risk_score" := Plain(FloatType).(minimum := Some(0.0), maximum := Some(100.0)),
      "checks" := Plain(ArrayType).(items := Some(Text()))])
  }

  function SchemaV2(): EventSchema {
    EventSchema(SchemaV1().fields[RISK := RiskSchema()], ["order", "timestamp", RISK])
  }

  /** A string, one of some words if any are given, or null. */
  predicate NullOr(v: Json, words: seq<string>) { v.Null? || (v.Str? && (words == [] || v.s in words)) }

  lemma WordsAsk(v: Json, words: seq<string>, isUuid: UuidParser)
    ensures ValidField(v, OneOf(words), isUuid) <==> NullOr(v, words)
    ensures ValidField(v, Text(), isUuid) <==> NullOr(v, [])
  {
  }

  /** The properties of an order that say more than that they are strings. */
  lemma OrderAsks(v: Json, isUuid: UuidParser)
    ensures OrderProperties().Keys == {"id", "user_id", "pair", "side", "type", "quantity", "price", "status"}
    ensures ValidField(v, OrderProperties()["id"], isUuid) <==> v.Null? || (v.Str? && isUuid(v.s))
    ensures ValidField(v, OrderProperties()["user_id"], isUuid) <==> v.Null? || (v.Str? && isUuid(v.s))
    ensures ValidField(v, OrderProperties()["pair"], isUuid) <==> v.Null? || (v.Str? && 3 <= |v.s| <= 10)
    ensures ValidField(v, OrderProperties()["side"], isUuid) <==> NullOr(v, ["buy", "sell"])
    ensures ValidField(v, OrderProperties()["type"], isUuid) <==> NullOr(v, ["limit", "market", "fok", "stop_limit"])
    ensures ValidField(v, OrderProperties()["status"], isUuid) <==>
      NullOr(v, ["new", "open", "filled", "partially_filled", "cancelled", "rejected"])
  {
    WordsAsk(v, ["buy", "sell"], isUuid);
    WordsAsk(v, ["limit", "market", "fok", "stop_limit"], isUuid);
    WordsAsk(v, ["new", "open", "filled", "partially_filled", "cancelled", "rejected"], isUuid);
  }

  /** A risk assessment: a score from 0 to 100 and a list of strings, where they are given. */
  predicate RiskForm(fields: map<string, Json>) {
    ("risk_score" in fields ==>
      fields["risk_score"].Null? || (fields["risk_score"].Num? && 0.0 <= fields["risk_score"].n <= 100.0)) &&
    ("checks" in fields ==>
      fields["checks"].Null? ||
      (fields["checks"].Arr? &&
       forall i :: 0 <= i < |fields["checks"].items| ==> NullOr(fields["checks"].items[i], [])))
  }

  lemma RiskAsks(v: Json, isUuid: UuidParser)
    ensures ValidField(v, RiskSchema(), isUuid) <==> v.Null? || (v.Obj? && RiskForm(v.fields))
  {
    var properties := RiskSchema().properties;
    assert properties.Keys == {"risk_score", "checks"};
    if v.Obj? && "checks" in v.fields && v.fields["checks"].Arr? {
      var items := v.fields["checks"].items;
      forall i | 0 <= i < |items| ensures ValidField(items[i], Text(), isUuid) <==> NullOr(items[i], []) {
        WordsAsk(items[i], [], isUuid);
      }
      assert properties["checks"].items == Some(Text());
    }
  }

  function DefaultRisk(): Json {
    Obj(map["risk_score" := Num(50.0), "checks" := Arr([Str("basic_validation")])])
  }

  /** A payload that is no object is an error, and a null one a write into a nil map. */
  function UpgradeV1ToV2(e: OrderBookEvent): Result<OrderBookEvent, Error> {
    match e.payload
    case Obj(fields) => Ok(OrderBookEvent(2, e.eventType, e.timestamp, Obj(fields[RISK := DefaultRisk()])))
    case Null => Err(NilPayload)
    case _ => Err(BadPayload)
  }

  type Schemas = map<string, map<int, EventSchema>>

  function DefaultSchemas(): Schemas { map[ORDER_PLACED := map[1 := SchemaV1(), 2 := SchemaV2()]] }

  function DefaultUpgraders(): Upgraders { map[ORDER_PLACED := map[1 := UpgradeV1ToV2]] }

  predicate HasSchema(ss: Schemas, eventType: string, version: int) {
    eventType in ss && version in ss[eventType]
  }

  function ValidateEvent(ss: Schemas, e: VersionedEvent, isUuid: UuidParser): Option<Error> {
    if !HasSchema(ss, e.eventType, e.version) then Some(NoSchema)
    else if ValidData(e.data, ss[e.eventType][e.version], isUuid) then None else Some(Invalid)
  }

  /** Validate, migrate if behind, validate again. */
  ghost function ProcessEvent(ss: Schemas, us: Upgraders, e: VersionedEvent, target: int, isUuid: UuidParser)
    : Result<VersionedEvent, Error>
    requires Raising(us)
  {
    var invalid := ValidateEvent(ss, e, isUuid);
    if invalid.Some? then Err(invalid.value)
    else if e.version >= target then Ok(e)
    else
      var r := MigrateAs(us, e.eventType, e, target);
      if r.Err? then r
      else
        var stillInvalid := ValidateEvent(ss, r.value, isUuid);
        if stillInvalid.Some? then Err(stillInvalid.value) else r
  }

  /**
   With any schemas and upgraders: an event is let through exactly if it is valid under its own version and, where it
   is behind, can be migrated to an event that is valid under that one's. What is let through is valid, not behind,
   and still the same event; and processing it again changes nothing.
   */
  lemma ProcessedIsValid(ss: Schemas, us: Upgraders, e: VersionedEvent, target: int, isUuid: UuidParser)
    requires Raising(us)
    ensures var r := ProcessEvent(ss, us, e, target, isUuid); var migrated := MigrateAs(us, e.eventType, e, target);
      (r.Ok? <==>
        ValidateEvent(ss, e, isUuid) == None && migrated.Ok? && ValidateEvent(ss, migrated.value, isUuid) == None) &&
      (r.Ok? ==>
        r == migrated && r.value.version >= target && r.value.eventId == e.eventId &&
        ProcessEvent(ss, us, r.value, target, isUuid) == r) &&
      (r.Err? && ValidateEvent(ss, e, isUuid) != None ==> r.error == ValidateEvent(ss, e, isUuid).value) &&
      (r.Ok? ==>
        var v := r.value;
        HasSchema(ss, v.eventType, v.version) && ValidData(v.data, ss[v.eventType][v.version], isUuid))
    ensures !HasSchema(ss, e.eventType, e.version) ==> ProcessEvent(ss, us, e, target, isUuid) == Err(NoSchema)
  {
    MigrationKeepsId(us, e.eventType, e, target);
  }

  lemma {:induction false} MigrationKeepsId(us: Upgraders, eventType: string, e: VersionedEvent, target: int)
    requires Raising(us)
    ensures var r := MigrateAs(us, eventType, e, target);
      r.Ok? ==> r.value.version >= target && r.value.eventId == e.eventId
    decreases target - e.version
  {
    if e.version < target && Upgrade1(us, eventType, e).Ok? {
      RaisesVersion(us, eventType, e);
      MigrationKeepsId(us, eventType, Upgrade1(us, eventType, e).value, target);
    }
  }

  lemma DefaultUpgradersGood()
    ensures Raising(DefaultUpgraders()) && StepByStep(DefaultUpgraders())
  {
  }

  lemma DefaultRiskValid(isUuid: UuidParser)
    ensures ValidField(DefaultRisk(), RiskSchema(), isUuid)
  {
    assert ValidField(Num(50.0), RiskSchema().properties["risk_score"], isUuid);
    assert ValidField(Str("basic_validation"), Text(), isUuid);
    assert ValidField(Arr([Str("basic_validation")]), RiskSchema().properties["checks"], isUuid);
  }

  /**
   Adding a required field with a valid value turns data valid under one schema into data valid under the
   schema that has the same other fields, whatever the data held under that name before.
   */
  lemma AddingAField(data: Json, a: EventSchema, b: EventSchema, name: string, value: Json, schema: FieldSchema,
                     isUuid: UuidParser)
    requires data.Obj? && b.fields == a.fields[name := schema] && b.required == a.required + [name]
    requires ValidField(value, schema, isUuid)
    requires name !in a.fields && ValidData(data, a, isUuid)
    ensures ValidData(Obj(data.fields[name := value]), b, isUuid)
  {
  }

  function Migrated(e: VersionedEvent): VersionedEvent
    requires e.data.Obj?
  {
    VersionedEvent(e.eventId, e.eventType, 2, e.timestamp / NANOS * NANOS, Obj(e.data.fields[RISK := DefaultRisk()]))
  }

  lemma MigrateToTwo(e: VersionedEvent)
    requires e.eventType == ORDER_PLACED && e.version == 1 && e.data.Obj?
    ensures Raising(DefaultUpgraders()) && MigrateAs(DefaultUpgraders(), ORDER_PLACED, e, 2) == Ok(Migrated(e))
  {
    DefaultUpgradersGood();
    var us := DefaultUpgraders();
    assert Upgrade1(us, ORDER_PLACED, e) == Ok(Migrated(e));
    assert MigrateAs(us, ORDER_PLACED, Migrated(e), 2) == Ok(Migrated(e));
  }

  /** The second version asks for the risk assessment, and otherwise for what the first asks. */
  lemma SecondAddsRisk()
    ensures SchemaV2().fields == SchemaV1().fields[RISK := RiskSchema()]
    ensures SchemaV2().required == SchemaV1().required + [RISK] && RISK !in SchemaV1().fields
  {
  }

  lemma MigratedValid(e: VersionedEvent, isUuid: UuidParser)
    requires ValidData(e.data, SchemaV1(), isUuid)
    ensures e.data.Obj? && ValidData(Migrated(e).data, SchemaV2(), isUuid)
  {
    DefaultRiskValid(isUuid);
    SecondAddsRisk();
    AddingAField(e.data, SchemaV1(), SchemaV2(), RISK, DefaultRisk(), RiskSchema(), isUuid);
  }

  /**
   An ORDER_PLACED event of version 1 is processed to version 2 exactly when it is valid under version 1.
   The result is valid under version 2 and is the event with the default risk assessment, in place of
   anything it held there, and its time cut to whole seconds; processing it again changes nothing.
   */
  lemma OrderPlacedProcesses(e: VersionedEvent, isUuid: UuidParser)
    requires e.eventType == ORDER_PLACED && e.version == 1
    ensures Raising(DefaultUpgraders())
    ensures var r := ProcessEvent(DefaultSchemas(), DefaultUpgraders(), e, 2, isUuid);
      (r.Ok? <==> ValidData(e.data, SchemaV1(), isUuid)) &&
      (r.Ok? ==> r.value == Migrated(e) && ValidData(r.value.data, SchemaV2(), isUuid) &&
                 ProcessEvent(DefaultSchemas(), DefaultUpgraders(), r.value, 2, isUuid) == r)
  {
    DefaultUpgradersGood();
    if ValidData(e.data, SchemaV1(), isUuid) {
      MigratedValid(e, isUuid);
      MigrateToTwo(e);
    }
  }

  /** Beyond version 2 there is no way: a valid event of version 1 stops at the missing upgrader. */
  lemma OrderPlacedStopsAtTwo(e: VersionedEvent, target: int, isUuid: UuidParser)
    requires e.eventType == ORDER_PLACED && e.version == 1 && ValidData(e.data, SchemaV1(), isUuid) && target > 2
    ensures Raising(DefaultUpgraders())
    ensures ProcessEvent(DefaultSchemas(), DefaultUpgraders(), e, target, isUuid) == Err(NoUpgrader(2))
  {
    DefaultUpgradersGood();
    MigrateToTwo(e);
    MigrationComposes(DefaultUpgraders(), e, 2, target);
  }
}
