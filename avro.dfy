/** The binary encoding of the Apache Avro Specification (1.11), section "Binary
    Encoding", for the primitive types the OrderCreated schema uses (`int`, `long`,
    `string`) and for records of such fields.

    - `int` and `long` are written as variable-length zig-zag numbers: the signed value
      is mapped to an unsigned one (0, -1, 1, -2, ... become 0, 1, 2, 3, ...), which is
      then written seven bits at a time, least significant group first, with the high
      bit of every byte but the last set.
    - `string` is a `long` byte count followed by that many bytes.
    - a record is the encoding of its field values, in the order the schema declares
      them, with nothing in between.

    Every reader takes the remaining input and returns the value read and the input
    that is left, so that readers compose by sequencing. */
module Avro {
  import opened Wrappers
  import opened Seqs

  newtype byte = x: int | 0 <= x < 256

  datatype AvroError =
    | Truncated          // the input ended inside a value
    | VarintTooLong      // more bytes with the continuation bit than the type allows
    | IntOverflow        // an `int` varint whose value does not fit 32 bits
    | LongOverflow       // a `long` varint whose value does not fit 64 bits
    | NegativeLength     // a string whose byte count is negative
    | NoMatchingField(name: string)  // a schema field no struct field of that tag and type answers to
    | Unrepresentable(name: string)  // a struct value the schema field's type cannot carry

  /** The largest number of bytes a zig-zag varint of each type may take. */
  const MaxIntBytes: nat := 5
  const MaxLongBytes: nat := 10

  const TwoTo32: nat := 0x1_0000_0000
  const TwoTo64: nat := 0x1_0000_0000_0000_0000

  predicate IsInt32(n: int) {
    -0x8000_0000 <= n < 0x8000_0000
  }

  predicate IsInt64(n: int) {
    -0x8000_0000_0000_0000 <= n < 0x8000_0000_0000_0000
  }

  // ---------------------------------------------------------------------------
  // Zig-zag coding

  /** Maps signed to unsigned: non-negative values to even numbers, negative values to
      odd ones, so that small magnitudes give small codes. */
  function ZigZag(n: int): (z: nat)
    ensures (z % 2 == 0) == (n >= 0)
  {
    if n >= 0 then 2 * n else -2 * n - 1
  }

  function UnZigZag(z: nat): (n: int)
    ensures (n >= 0) == (z % 2 == 0)
  {
    if z % 2 == 0 then z / 2 else -((z + 1) / 2)
  }

  lemma ZigZagInverse(n: int, z: nat)
    ensures UnZigZag(ZigZag(n)) == n
    ensures ZigZag(UnZigZag(z)) == z
  {
  }

  /** A signed value lies in [-half, half) exactly when its code lies below 2 * half:
      a 32-bit (64-bit) value has a code below 2^32 (2^64), and no other value has. */
  lemma ZigZagRange(n: int, half: nat)
    ensures -(half as int) <= n < half <==> ZigZag(n) < 2 * half
  {
  }

  // ---------------------------------------------------------------------------
  // Unsigned varints

  function Pow128(k: nat): (p: nat)
    ensures p >= 1
  {
    if k == 0 then 1 else 128 * Pow128(k - 1)
  }

  /** Seven bits per byte, least significant group first; every byte but the last has
      its high bit set. */
  function WriteVarint(n: nat): (r: seq<byte>)
    ensures |r| >= 1
    ensures r[|r| - 1] < 128
    ensures forall i :: 0 <= i < |r| - 1 ==> r[i] >= 128
    decreases n
  {
    if n < 128 then [n as byte]
    else
      var rest := WriteVarint(n / 128);
      var r := [(n % 128 + 128) as byte] + rest;
      assert forall i :: 1 <= i < |r| ==> r[i] == rest[i - 1];
      r
  }

  /** Reads one varint of at most `budget` bytes. Running out of input is Truncated; a
      byte that still has the continuation bit once the budget is spent is VarintTooLong. */
  function ReadVarint(s: seq<byte>, budget: nat): (r: Result<(nat, seq<byte>), AvroError>)
    ensures r.Success? ==> r.value.0 < Pow128(budget) && |r.value.1| < |s|
    ensures r.Success? ==> r.value.1 == s[|s| - |r.value.1|..]
    ensures |s| == 0 && budget > 0 ==> r == Failure(Truncated)
    decreases budget
  {
    if budget == 0 then Failure(VarintTooLong)
    else if |s| == 0 then Failure(Truncated)
    else if s[0] < 128 then Success((s[0] as nat, s[1..]))
    else
      match ReadVarint(s[1..], budget - 1)
      case Failure(e) => Failure(e)
      case Success((v, rest)) => Success(((s[0] as int - 128) + 128 * v, rest))
  }

  lemma {:induction false} VarintRoundTrip(n: nat, rest: seq<byte>, budget: nat)
    requires 1 <= budget && n < Pow128(budget)
    ensures ReadVarint(WriteVarint(n) + rest, budget) == Success((n, rest))
    decreases n
  {
    var s := WriteVarint(n) + rest;
    if n >= 128 {
      assert budget != 1;
      assert s[0] == (n % 128 + 128) as byte;
      assert s[1..] == WriteVarint(n / 128) + rest;
      VarintRoundTrip(n / 128, rest, budget - 1);
    }
  }

  /** A number below 128^k takes at most k bytes. */
  lemma {:induction false} VarintLength(n: nat, k: nat)
    requires 1 <= k
    ensures n < Pow128(k) ==> |WriteVarint(n)| <= k
    decreases n
  {
    if n >= 128 && n < Pow128(k) {
      assert k != 1;
      VarintLength(n / 128, k - 1);
    }
  }

  /** Bytes after a varint do not change what is read. */
  lemma {:induction false} ReadVarintAppend(s: seq<byte>, t: seq<byte>, budget: nat)
    requires ReadVarint(s, budget).Success?
    ensures ReadVarint(s + t, budget)
         == Success((ReadVarint(s, budget).value.0, ReadVarint(s, budget).value.1 + t))
    decreases budget
  {
    assert (s + t)[0] == s[0];
    assert (s + t)[1..] == s[1..] + t;
    if s[0] >= 128 {
      ReadVarintAppend(s[1..], t, budget - 1);
    }
  }

  // ---------------------------------------------------------------------------
  // int, long, string

  /** An `int` is one varint: every byte but the last has the high bit set, the last
      has it clear, and a 32-bit value takes at most five bytes. */
  function WriteInt(n: int): (r: seq<byte>)
    ensures 1 <= |r| && r[|r| - 1] < 128
    ensures forall i :: 0 <= i < |r| - 1 ==> r[i] >= 128
    ensures IsInt32(n) ==> |r| <= MaxIntBytes
  {
    ZigZagRange(n, TwoTo32 / 2);
    Pow128Bounds();
    VarintLength(ZigZag(n), MaxIntBytes);
    WriteVarint(ZigZag(n))
  }

  function ReadInt(s: seq<byte>): (r: Result<(int, seq<byte>), AvroError>)
    ensures r.Success? ==> IsInt32(r.value.0) && |r.value.1| < |s|
  {
    var p :- ReadVarint(s, MaxIntBytes);
    if p.0 >= TwoTo32 then Failure(IntOverflow)
    else
      ZigZagRange(UnZigZag(p.0), TwoTo32 / 2);
      ZigZagInverse(0, p.0);
      Success((UnZigZag(p.0), p.1))
  }

  /** A `long` is one varint: every byte but the last has the high bit set, the last
      has it clear, and a 64-bit value takes at most ten bytes. */
  function WriteLong(n: int): (r: seq<byte>)
    ensures 1 <= |r| && r[|r| - 1] < 128
    ensures forall i :: 0 <= i < |r| - 1 ==> r[i] >= 128
    ensures IsInt64(n) ==> |r| <= MaxLongBytes
  {
    ZigZagRange(n, TwoTo64 / 2);
    Pow128Bounds();
    VarintLength(ZigZag(n), MaxLongBytes);
    WriteVarint(ZigZag(n))
  }

  function ReadLong(s: seq<byte>): (r: Result<(int, seq<byte>), AvroError>)
    ensures r.Success? ==> IsInt64(r.value.0) && |r.value.1| < |s|
  {
    var p :- ReadVarint(s, MaxLongBytes);
    if p.0 >= TwoTo64 then Failure(LongOverflow)
    else
      ZigZagRange(UnZigZag(p.0), TwoTo64 / 2);
      ZigZagInverse(0, p.0);
      Success((UnZigZag(p.0), p.1))
  }

  /** A `string` ends with its bytes, after a length prefix of at most ten bytes. */
  function WriteString(b: seq<byte>): (r: seq<byte>)
    ensures |b| < |r| && r[|r| - |b|..] == b
    ensures IsInt64(|b|) ==> |r| <= MaxLongBytes + |b|
  {
    WriteLong(|b|) + b
  }

  function ReadString(s: seq<byte>): (r: Result<(seq<byte>, seq<byte>), AvroError>)
    ensures r.Success? ==> IsInt64(|r.value.0|) && |r.value.1| < |s|
  {
    var p :- ReadLong(s);
    if p.0 < 0 then Failure(NegativeLength)
    else if p.0 > |p.1| then Failure(Truncated)
    else Success((p.1[..p.0], p.1[p.0..]))
  }

  lemma Pow128Bounds()
    ensures TwoTo32 <= Pow128(MaxIntBytes)
    ensures TwoTo64 <= Pow128(MaxLongBytes)
  {
    assert Pow128(5) == 0x8_0000_0000;
    assert Pow128(10) == 0x40_0000_0000_0000_0000;
  }

  lemma IntRoundTrip(n: int, rest: seq<byte>)
    requires IsInt32(n)
    ensures ReadInt(WriteInt(n) + rest) == Success((n, rest))
  {
    ZigZagRange(n, TwoTo32 / 2);
    Pow128Bounds();
    VarintRoundTrip(ZigZag(n), rest, MaxIntBytes);
    ZigZagInverse(n, 0);
  }

  lemma LongRoundTrip(n: int, rest: seq<byte>)
    requires IsInt64(n)
    ensures ReadLong(WriteLong(n) + rest) == Success((n, rest))
  {
    ZigZagRange(n, TwoTo64 / 2);
    Pow128Bounds();
    VarintRoundTrip(ZigZag(n), rest, MaxLongBytes);
    ZigZagInverse(n, 0);
  }

  lemma StringRoundTrip(b: seq<byte>, rest: seq<byte>)
    requires IsInt64(|b|)
    ensures ReadString(WriteString(b) + rest) == Success((b, rest))
  {
    assert WriteString(b) + rest == WriteLong(|b|) + (b + rest);
    LongRoundTrip(|b|, b + rest);
    assert (b + rest)[..|b|] == b;
    assert (b + rest)[|b|..] == rest;
  }

  lemma ReadIntAppend(s: seq<byte>, t: seq<byte>)
    requires ReadInt(s).Success?
    ensures ReadInt(s + t) == Success((ReadInt(s).value.0, ReadInt(s).value.1 + t))
  {
    ReadVarintAppend(s, t, MaxIntBytes);
  }

  lemma ReadLongAppend(s: seq<byte>, t: seq<byte>)
    requires ReadLong(s).Success?
    ensures ReadLong(s + t) == Success((ReadLong(s).value.0, ReadLong(s).value.1 + t))
  {
    ReadVarintAppend(s, t, MaxLongBytes);
  }

  lemma ReadStringAppend(s: seq<byte>, t: seq<byte>)
    requires ReadString(s).Success?
    ensures ReadString(s + t) == Success((ReadString(s).value.0, ReadString(s).value.1 + t))
  {
    ReadLongAppend(s, t);
    var p := ReadLong(s).value;
    assert ReadLong(s + t) == Success((p.0, p.1 + t));
    assert 0 <= p.0 <= |p.1|;
    assert (p.1 + t)[..p.0] == p.1[..p.0];
    assert (p.1 + t)[p.0..] == p.1[p.0..] + t;
    assert ReadString(s + t) == Success(((p.1 + t)[..p.0], (p.1 + t)[p.0..]));
  }

  // ---------------------------------------------------------------------------
  // Records of primitive fields

  datatype Primitive = IntType | LongType | StringType

  datatype Field = Field(name: string, schema: Primitive)

  datatype Value = IntValue(i: int) | LongValue(l: int) | StringValue(s: seq<byte>)

  /** A value the schema type can carry: the right kind, and within the type's range. */
  predicate Conforms(v: Value, t: Primitive) {
    match t
    case IntType => v.IntValue? && IsInt32(v.i)
    case LongType => v.LongValue? && IsInt64(v.l)
    case StringType => v.StringValue? && IsInt64(|v.s|)
  }

  predicate ConformsAll(vs: seq<Value>, fields: seq<Field>) {
    |vs| == |fields| && forall i :: 0 <= i < |vs| ==> Conforms(vs[i], fields[i].schema)
  }

  /** Every value takes at least one byte. */
  function WriteValue(v: Value): (r: seq<byte>)
    ensures 1 <= |r|
  {
    match v
    case IntValue(i) => WriteInt(i)
    case LongValue(l) => WriteLong(l)
    case StringValue(s) => WriteString(s)
  }

  function ReadValue(t: Primitive, s: seq<byte>): (r: Result<(Value, seq<byte>), AvroError>)
    ensures r.Success? ==> Conforms(r.value.0, t) && |r.value.1| < |s|
  {
    match t
    case IntType => var p :- ReadInt(s); Success((IntValue(p.0), p.1))
    case LongType => var p :- ReadLong(s); Success((LongValue(p.0), p.1))
    case StringType => var p :- ReadString(s); Success((StringValue(p.0), p.1))
  }

  /** The field values one after the other, in the given order. */
  function WriteRecord(vs: seq<Value>): (r: seq<byte>)
    ensures |vs| <= |r|
    ensures vs != [] ==> WriteValue(vs[0]) <= r
  {
    if vs == [] then [] else WriteValue(vs[0]) + WriteRecord(vs[1..])
  }

  /** A record's encoding is its first value's encoding followed by the rest's. */
  lemma WriteRecordCons(v: Value, vs: seq<Value>)
    ensures WriteRecord([v] + vs) == WriteValue(v) + WriteRecord(vs)
  {
    assert ([v] + vs)[1..] == vs;
  }

  /** Reads one value per field, in the schema's order; fails as soon as one field does. */
  function ReadRecord(fields: seq<Field>, s: seq<byte>): (r: Result<(seq<Value>, seq<byte>), AvroError>)
    ensures r.Success? ==> ConformsAll(r.value.0, fields)
    ensures r.Success? && fields != [] ==> |r.value.1| < |s|
    decreases |fields|
  {
    if fields == [] then Success(([], s))
    else
      var head :- ReadValue(fields[0].schema, s);
      var tail :- ReadRecord(fields[1..], head.1);
      Success(([head.0] + tail.0, tail.1))
  }

  lemma ValueRoundTrip(v: Value, t: Primitive, rest: seq<byte>)
    requires Conforms(v, t)
    ensures ReadValue(t, WriteValue(v) + rest) == Success((v, rest))
  {
    match t
    case IntType => IntRoundTrip(v.i, rest);
    case LongType => LongRoundTrip(v.l, rest);
    case StringType => StringRoundTrip(v.s, rest);
  }

  lemma ReadValueAppend(t: Primitive, s: seq<byte>, t': seq<byte>)
    requires ReadValue(t, s).Success?
    ensures ReadValue(t, s + t') == Success((ReadValue(t, s).value.0, ReadValue(t, s).value.1 + t'))
  {
    match t
    case IntType => ReadIntAppend(s, t');
    case LongType => ReadLongAppend(s, t');
    case StringType => ReadStringAppend(s, t');
  }

  /** Conformance of a record splits into its first value's and the rest's. */
  lemma ConformsAllTail(vs: seq<Value>, fields: seq<Field>)
    requires ConformsAll(vs, fields) && fields != []
    ensures Conforms(vs[0], fields[0].schema) && ConformsAll(vs[1..], fields[1..])
  {
    forall i | 0 <= i < |vs[1..]| ensures Conforms(vs[1..][i], fields[1..][i].schema) {
      assert vs[1..][i] == vs[i + 1];
    }
  }

  /** Reading a record back with the schema its values conform to gives the values, and
      leaves whatever followed the record untouched. */
  lemma {:induction false} RecordRoundTrip(fields: seq<Field>, vs: seq<Value>, rest: seq<byte>)
    requires ConformsAll(vs, fields)
    ensures ReadRecord(fields, WriteRecord(vs) + rest) == Success((vs, rest))
    decreases |fields|
  {
    if fields != [] {
      ConformsAllTail(vs, fields);
      var tail := WriteRecord(vs[1..]) + rest;
      AppendAssoc(WriteValue(vs[0]), WriteRecord(vs[1..]), rest);
      ValueRoundTrip(vs[0], fields[0].schema, tail);
      RecordRoundTrip(fields[1..], vs[1..], rest);
      assert [vs[0]] + vs[1..] == vs;
    } else {
      assert WriteRecord(vs) + rest == rest;
    }
  }

  /** Bytes after a record do not change what is read. */
  lemma {:induction false} ReadRecordAppend(fields: seq<Field>, s: seq<byte>, t: seq<byte>)
    requires ReadRecord(fields, s).Success?
    ensures ReadRecord(fields, s + t)
         == Success((ReadRecord(fields, s).value.0, ReadRecord(fields, s).value.1 + t))
    decreases |fields|
  {
    if fields != [] {
      var head := ReadValue(fields[0].schema, s).value;
      ReadValueAppend(fields[0].schema, s, t);
      ReadRecordAppend(fields[1..], head.1, t);
    }
  }

  /** A strict prefix of a conforming record's encoding does not read as that record:
      reading it fails. */
  lemma RecordPrefixRejected(fields: seq<Field>, vs: seq<Value>, k: nat)
    requires ConformsAll(vs, fields) && k < |WriteRecord(vs)|
    ensures ReadRecord(fields, WriteRecord(vs)[..k]).Failure?
  {
    var b := WriteRecord(vs);
    var p, t := b[..k], b[k..];
    assert b == p + t;
    RecordRoundTrip(fields, vs, []);
    assert b + [] == b;
    if ReadRecord(fields, p).Success? {
      ReadRecordAppend(fields, p, t);
      assert false;
    }
  }
}
