/** Reflected messages: what a descriptor says and what a message of its type holds. */
module Messages {
  import opened Wrappers
  import opened Decimal

  /** The `serialize_type` option of a nested message field. */
  datatype Serialization = Unspecified | Json | Binary

  /** Field types, with the ones the source treats alike merged. `Other` is every type it refuses. */
  datatype Kind =
    | Int32 | UInt32 | Int64 | UInt64
    | Double | Float
    | Text
    | Nested(typeName: string, how: Serialization)
    | Other

  datatype Label = Optional | Required | Repeated

  datatype Field = Field(name: string, kind: Kind, presence: Label)

  datatype Descriptor = Descriptor(fields: seq<Field>, primaryKey: string)

  /** A double or a float is its bit pattern. Lists are the repeated fields of nested messages. */
  datatype Value =
    | IntValue(i: int)
    | RealValue(bits: nat)
    | TextValue(s: string)
    | NestedValue(m: Message)
    | ListValue(values: seq<Value>)

  /** Set fields by name; an unset field is absent. */
  datatype Message = Message(typeName: string, fields: map<string, Value>)

  predicate HasKind(v: Value, kind: Kind) {
    match kind
    case Int32 => v.IntValue? && INT32_MIN <= v.i <= INT32_MAX
    case UInt32 => v.IntValue? && 0 <= v.i <= UINT32_MAX
    case Int64 => v.IntValue? && INT64_MIN <= v.i <= INT64_MAX
    case UInt64 => v.IntValue? && 0 <= v.i <= UINT64_MAX
    case Double => v.RealValue? && v.bits <= UINT64_MAX
    case Float => v.RealValue? && v.bits <= UINT32_MAX
    case Text => v.TextValue?
    case Nested(typeName, _) => v.NestedValue? && v.m.typeName == typeName
    case Other => true
  }

  /** Which values the fields hold: 32 or 64 bits, signed or not. */
  lemma KindRanges(i: int, bits: nat)
    ensures HasKind(IntValue(i), Int32) <==> -0x8000_0000 <= i < 0x8000_0000
    ensures HasKind(IntValue(i), UInt32) <==> 0 <= i < 0x1_0000_0000
    ensures HasKind(IntValue(i), Int64) <==> -0x8000_0000_0000_0000 <= i < 0x8000_0000_0000_0000
    ensures HasKind(IntValue(i), UInt64) <==> 0 <= i < 0x1_0000_0000_0000_0000
    ensures HasKind(RealValue(bits), Double) <==> bits < 0x1_0000_0000_0000_0000
    ensures HasKind(RealValue(bits), Float) <==> bits < 0x1_0000_0000
  {
  }

  function Default(kind: Kind): (v: Value)
    requires kind != Other
    ensures HasKind(v, kind)
  {
    match kind
    case Int32 => IntValue(0)
    case UInt32 => IntValue(0)
    case Int64 => IntValue(0)
    case UInt64 => IntValue(0)
    case Double => RealValue(0)
    case Float => RealValue(0)
    case Text => TextValue("")
    case Nested(typeName, _) => NestedValue(Message(typeName, map[]))
  }

  /** A field's value, as a getter returns it. */
  function ValueOf(m: Message, f: Field): (v: Value)
    requires f.kind != Other
  {
    if f.name in m.fields then m.fields[f.name] else Default(f.kind)
  }

  function FindField(fields: seq<Field>, name: string): (r: Option<Field>)
    ensures r.Some? ==> r.value in fields && r.value.name == name
    ensures r.None? ==> forall f :: f in fields ==> f.name != name
  {
    if fields == [] then None
    else if fields[0].name == name then Some(fields[0])
    else FindField(fields[1..], name)
  }

  ghost predicate DistinctNames(fields: seq<Field>) {
    forall i, j :: 0 <= i < j < |fields| ==> fields[i].name != fields[j].name
  }

  /** Each set field is one of `fields` and holds a value of its kind. */
  ghost predicate Typed(m: Message, fields: seq<Field>) {
    forall name :: name in m.fields ==>
      FindField(fields, name).Some? && HasKind(m.fields[name], FindField(fields, name).value.kind)
  }

  lemma FindFieldSelf(fields: seq<Field>, f: Field)
    requires DistinctNames(fields) && f in fields
    ensures FindField(fields, f.name) == Some(f)
  {
    var g := FindField(fields, f.name).value;
    assert g in fields;
  }
}
