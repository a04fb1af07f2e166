/** The OrderCreated event: the Go struct both services declare, the Avro record schema
    both services declare (identically), and the codec that binds one to the other.

    The writer looks every schema field up among the struct's `avro:"..."` tags and
    writes the values in schema order; the reader reads the values in schema order and
    stores each into the struct field carrying that tag, starting from the zero struct.
    Go strings are byte strings, so the string fields are byte sequences. */
module OrderEvent {
  import opened Wrappers
  import opened Avro
  import opened Seqs

  datatype OrderCreated = OrderCreated(
    orderId: seq<byte>,
    storeId: seq<byte>,
    totalAmountCents: int,
    status: seq<byte>,
    createdAt: int)

  /** The zero value of the struct, which the reader fills in. */
  const Zero := OrderCreated([], [], 0, [], 0)

  /** The record schema "OrderCreated" in namespace com.mcdonalds.orders. */
  const Schema: seq<Field> := [
    Field("order_id", StringType),
    Field("store_id", StringType),
    Field("total_amount_cents", IntType),
    Field("status", StringType),
    Field("created_at", LongType)
  ]

  /** An event the schema can carry: the amount fits an Avro `int`, the timestamp an
      Avro `long`, and every string's byte count a `long`. */
  predicate Representable(e: OrderCreated) {
    IsInt64(|e.orderId|) && IsInt64(|e.storeId|) && IsInt32(e.totalAmountCents)
    && IsInt64(|e.status|) && IsInt64(e.createdAt)
  }

  /** The struct field tagged `name`, if there is one. */
  function Tagged(e: OrderCreated, name: string): Option<Value> {
    if name == "order_id" then Some(StringValue(e.orderId))
    else if name == "store_id" then Some(StringValue(e.storeId))
    else if name == "total_amount_cents" then Some(IntValue(e.totalAmountCents))
    else if name == "status" then Some(StringValue(e.status))
    else if name == "created_at" then Some(LongValue(e.createdAt))
    else None
  }

  /** The values to write, one per schema field, found by tag. */
  function ValuesOf(e: OrderCreated, fields: seq<Field>): (r: Result<seq<Value>, AvroError>)
    ensures r.Success? ==> ConformsAll(r.value, fields)
    ensures r.Success? ==> forall i :: 0 <= i < |fields| ==> Tagged(e, fields[i].name) == Some(r.value[i])
    ensures r.Success? <==> forall i :: 0 <= i < |fields| ==>
      Tagged(e, fields[i].name).Some? && Conforms(Tagged(e, fields[i].name).value, fields[i].schema)
    decreases |fields|
  {
    if fields == [] then Success([])
    else
      match Tagged(e, fields[0].name)
      case None => Failure(NoMatchingField(fields[0].name))
      case Some(v) =>
        if !Conforms(v, fields[0].schema) then Failure(Unrepresentable(fields[0].name))
        else
          var rest :- ValuesOf(e, fields[1..]);
          Success([v] + rest)
  }

  /** Two values of the same Avro kind. */
  predicate SameKind(a: Value, b: Value) {
    (a.IntValue? && b.IntValue?) || (a.LongValue? && b.LongValue?)
    || (a.StringValue? && b.StringValue?)
  }

  /** The struct has a field tagged `name` that a value of v's kind can be stored in. */
  predicate Accepts(e: OrderCreated, name: string, v: Value) {
    Tagged(e, name).Some? && SameKind(Tagged(e, name).value, v)
  }

  /** Which tags a struct has, and of which kind, does not depend on its contents. */
  lemma AcceptsAnyStruct(e1: OrderCreated, e2: OrderCreated, name: string, v: Value)
    ensures Accepts(e1, name, v) == Accepts(e2, name, v)
  {
  }

  /** Stores one value read from the wire into the struct field with that tag. */
  function Assign(e: OrderCreated, name: string, v: Value): Result<OrderCreated, AvroError> {
    match v
    case StringValue(s) =>
      if name == "order_id" then Success(e.(orderId := s))
      else if name == "store_id" then Success(e.(storeId := s))
      else if name == "status" then Success(e.(status := s))
      else Failure(NoMatchingField(name))
    case IntValue(i) =>
      if name == "total_amount_cents" then Success(e.(totalAmountCents := i))
      else Failure(NoMatchingField(name))
    case LongValue(l) =>
      if name == "created_at" then Success(e.(createdAt := l))
      else Failure(NoMatchingField(name))
  }

  /** Storing by tag fails when the struct has no field of that tag and the value's kind,
      and otherwise changes that field and no other. */
  lemma AssignSpec(e: OrderCreated, name: string, v: Value)
    ensures Assign(e, name, v).Success? <==> Accepts(e, name, v)
    ensures Assign(e, name, v).Success? ==> Tagged(Assign(e, name, v).value, name) == Some(v)
    ensures Assign(e, name, v).Success? ==>
      forall n :: n != name ==> Tagged(Assign(e, name, v).value, n) == Tagged(e, n)
  {
  }

  /** Stores the values into the fields with the corresponding tags, one after the other. */
  function AssignAll(e: OrderCreated, fields: seq<Field>, vs: seq<Value>): Result<OrderCreated, AvroError>
    requires |fields| == |vs|
    decreases |fields|
  {
    if fields == [] then Success(e)
    else
      var e' :- Assign(e, fields[0].name, vs[0]);
      AssignAll(e', fields[1..], vs[1..])
  }

  /** Storing a sequence of values succeeds exactly when every value has a field of its
      kind; fields whose tag is not among `fields` keep their value, and when the tags are
      distinct each tagged field ends up holding its value. */
  lemma {:induction false} AssignAllSpec(e: OrderCreated, fields: seq<Field>, vs: seq<Value>)
    requires |fields| == |vs|
    ensures AssignAll(e, fields, vs).Success? <==>
      forall i :: 0 <= i < |fields| ==> Accepts(e, fields[i].name, vs[i])
    ensures AssignAll(e, fields, vs).Success? ==>
      forall n :: (forall i :: 0 <= i < |fields| ==> fields[i].name != n) ==>
        Tagged(AssignAll(e, fields, vs).value, n) == Tagged(e, n)
    ensures AssignAll(e, fields, vs).Success? && DistinctNames(fields) ==>
      forall i :: 0 <= i < |fields| ==> Tagged(AssignAll(e, fields, vs).value, fields[i].name) == Some(vs[i])
    decreases |fields|
  {
    if fields != [] {
      AssignSpec(e, fields[0].name, vs[0]);
      if Assign(e, fields[0].name, vs[0]).Success? {
        var e' := Assign(e, fields[0].name, vs[0]).value;
        AcceptsAll(e, e', fields[1..], vs[1..]);
        DistinctTail(fields);
        AssignAllSpec(e', fields[1..], vs[1..]);
      }
    }
  }

  predicate DistinctNames(fields: seq<Field>) {
    forall i, j :: 0 <= i < j < |fields| ==> fields[i].name != fields[j].name
  }

  lemma AcceptsAll(e1: OrderCreated, e2: OrderCreated, fields: seq<Field>, vs: seq<Value>)
    requires |fields| == |vs|
    ensures (forall i :: 0 <= i < |fields| ==> Accepts(e1, fields[i].name, vs[i]))
        <==> (forall i :: 0 <= i < |fields| ==> Accepts(e2, fields[i].name, vs[i]))
  {
    forall i | 0 <= i < |fields| {
      AcceptsAnyStruct(e1, e2, fields[i].name, vs[i]);
    }
  }

  /** Distinct tags stay distinct without the first field, which none of the rest repeats. */
  lemma DistinctTail(fields: seq<Field>)
    requires fields != []
    ensures DistinctNames(fields) ==> DistinctNames(fields[1..])
    ensures DistinctNames(fields) ==> forall i :: 0 <= i < |fields[1..]| ==> fields[1..][i].name != fields[0].name
  {
    if DistinctNames(fields) {
      forall i | 0 <= i < |fields[1..]| ensures fields[1..][i].name != fields[0].name {
        assert fields[1..][i] == fields[i + 1];
      }
    }
  }

  /** The values of a representable event, in schema order. */
  lemma ValuesOfSchema(e: OrderCreated)
    ensures ValuesOf(e, Schema).Success? <==> Representable(e)
    ensures Representable(e) ==> ValuesOf(e, Schema) == Success([
      StringValue(e.orderId), StringValue(e.storeId), IntValue(e.totalAmountCents),
      StringValue(e.status), LongValue(e.createdAt)])
  {
    assert Tagged(e, Schema[0].name) == Some(StringValue(e.orderId));
    assert Tagged(e, Schema[1].name) == Some(StringValue(e.storeId));
    assert Tagged(e, Schema[2].name) == Some(IntValue(e.totalAmountCents));
    assert Tagged(e, Schema[3].name) == Some(StringValue(e.status));
    assert Tagged(e, Schema[4].name) == Some(LongValue(e.createdAt));
    if !Representable(e) {
      var i :| 0 <= i < 5 && !Conforms(Tagged(e, Schema[i].name).value, Schema[i].schema);
    } else {
      var vs := ValuesOf(e, Schema).value;
      assert Some(vs[0]) == Tagged(e, Schema[0].name) && Some(vs[1]) == Tagged(e, Schema[1].name);
      assert Some(vs[2]) == Tagged(e, Schema[2].name) && Some(vs[3]) == Tagged(e, Schema[3].name);
      assert Some(vs[4]) == Tagged(e, Schema[4].name);
      assert |vs| == 5;
      assert vs == [vs[0], vs[1], vs[2], vs[3], vs[4]];
    }
  }

  /** Reading values of the schema's types into the zero struct fills every field. */
  lemma AssignSchema(vs: seq<Value>)
    requires ConformsAll(vs, Schema)
    ensures AssignAll(Zero, Schema, vs)
         == Success(OrderCreated(vs[0].s, vs[1].s, vs[2].i, vs[3].s, vs[4].l))
  {
    assert Conforms(vs[0], Schema[0].schema) && Conforms(vs[1], Schema[1].schema);
    assert Conforms(vs[2], Schema[2].schema) && Conforms(vs[3], Schema[3].schema);
    assert Conforms(vs[4], Schema[4].schema);
    assert Schema[1..] == [Schema[1], Schema[2], Schema[3], Schema[4]];
    assert Schema[2..] == [Schema[2], Schema[3], Schema[4]];
    assert Schema[3..] == [Schema[3], Schema[4]];
    assert Schema[4..] == [Schema[4]];
    assert Schema[5..] == [];
    assert vs[1..][1..] == vs[2..] && vs[2..][1..] == vs[3..];
    assert vs[3..][1..] == vs[4..] && vs[4..][1..] == vs[5..];
  }

  /** avro.Marshal(schema, event): fails exactly when the event is not representable. */
  function Marshal(e: OrderCreated): (r: Result<seq<byte>, AvroError>)
    ensures r.Success? <==> Representable(e)
  {
    ValuesOfSchema(e);
    var vs :- ValuesOf(e, Schema);
    Success(WriteRecord(vs))
  }

  /** avro.Unmarshal(schema, data, &order): all or nothing; a decoded event is always
      one the schema can carry. Bytes after the last field are not read. */
  function Unmarshal(data: seq<byte>): (r: Result<OrderCreated, AvroError>)
    ensures r.Success? ==> Representable(r.value)
  {
    var p :- ReadRecord(Schema, data);
    AssignSchema(p.0);
    AssignAll(Zero, Schema, p.0)
  }

  /** A five-value record unfolds into the five value encodings. */
  lemma WriteRecordFive(a: Value, b: Value, c: Value, d: Value, f: Value)
    ensures WriteRecord([a, b, c, d, f])
         == WriteValue(a) + (WriteValue(b) + (WriteValue(c) + (WriteValue(d) + WriteValue(f))))
  {
    assert [a, b, c, d, f] == [a] + [b, c, d, f];
    assert [b, c, d, f] == [b] + [c, d, f];
    assert [c, d, f] == [c] + [d, f];
    assert [d, f] == [d] + [f];
    assert [f] == [f] + [];
    WriteRecordCons(a, [b, c, d, f]);
    WriteRecordCons(b, [c, d, f]);
    WriteRecordCons(c, [d, f]);
    WriteRecordCons(d, [f]);
    WriteRecordCons(f, []);
    assert WriteValue(f) + [] == WriteValue(f);
  }

  /** A representable event is written as the record of its five values in schema order. */
  lemma MarshalRecord(e: OrderCreated)
    requires Representable(e)
    ensures Marshal(e) == Success(WriteRecord([
      StringValue(e.orderId), StringValue(e.storeId), IntValue(e.totalAmountCents),
      StringValue(e.status), LongValue(e.createdAt)]))
  {
    ValuesOfSchema(e);
  }

  /** The record of an event's five values is the five field encodings back to back. */
  lemma EventRecord(e: OrderCreated)
    ensures WriteRecord([
      StringValue(e.orderId), StringValue(e.storeId), IntValue(e.totalAmountCents),
      StringValue(e.status), LongValue(e.createdAt)])
      == WriteString(e.orderId) + WriteString(e.storeId) + WriteInt(e.totalAmountCents)
         + WriteString(e.status) + WriteLong(e.createdAt)
  {
    WriteRecordFive(StringValue(e.orderId), StringValue(e.storeId), IntValue(e.totalAmountCents),
                    StringValue(e.status), LongValue(e.createdAt));
    var a, b, c, d, f := WriteString(e.orderId), WriteString(e.storeId),
      WriteInt(e.totalAmountCents), WriteString(e.status), WriteLong(e.createdAt);
    AppendAssoc(a + b + c, d, f);
    AppendAssoc(a + b, c, d + f);
    AppendAssoc(a, b, c + (d + f));
  }

  /** The wire form is the five field encodings back to back, in schema order. */
  lemma MarshalFieldOrder(e: OrderCreated)
    requires Representable(e)
    ensures Marshal(e) == Success(
      WriteString(e.orderId) + WriteString(e.storeId) + WriteInt(e.totalAmountCents)
      + WriteString(e.status) + WriteLong(e.createdAt))
  {
    MarshalRecord(e);
    EventRecord(e);
  }

  /** Decoding what was encoded gives back the event, whatever bytes follow it. */
  lemma RoundTrip(e: OrderCreated, rest: seq<byte>)
    requires Marshal(e).Success?
    ensures Unmarshal(Marshal(e).value + rest) == Success(e)
  {
    ValuesOfSchema(e);
    var vs := ValuesOf(e, Schema).value;
    RecordRoundTrip(Schema, vs, rest);
    AssignSchema(vs);
  }

  /** A strict prefix of an encoding, the empty input included, does not decode. */
  lemma TruncatedRejected(e: OrderCreated, k: nat)
    requires Marshal(e).Success? && k < |Marshal(e).value|
    ensures Unmarshal(Marshal(e).value[..k]).Failure?
  {
    ValuesOfSchema(e);
    var vs := ValuesOf(e, Schema).value;
    assert Marshal(e).value == WriteRecord(vs);
    RecordPrefixRejected(Schema, vs, k);
  }

  /** Zero-length input does not decode. */
  lemma EmptyRejected()
    ensures Unmarshal([]).Failure?
  {
  }

  /** Two representable events with the same bytes are the same event. */
  lemma MarshalInjective(e1: OrderCreated, e2: OrderCreated)
    requires Representable(e1)
    ensures Marshal(e1) == Marshal(e2) ==> e1 == e2
  {
    if Marshal(e1) == Marshal(e2) {
      RoundTrip(e1, []);
      RoundTrip(e2, []);
    }
  }
}
