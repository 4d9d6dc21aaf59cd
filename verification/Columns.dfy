/** Messages to database columns and back. */
module Columns {
  import opened Wrappers
  import opened Decimal
  import opened Messages

  datatype FieldInfo = FieldInfo(name: string, value: string, isText: bool)

  type DoubleBits = bits: nat | bits <= UINT64_MAX

  /** What the protobuf library and the stream library provide: text of doubles and floats, and the two ways
      to serialize a nested message. */
  datatype Runtime = Runtime(
    printDouble: nat -> string,
    printFloat: nat -> string,
    readDouble: string -> DoubleBits,
    serialize: (Serialization, Message) -> Option<string>,
    parse: (Serialization, string, string) -> Option<Message>)

  /** What is serialized parses back. */
  ghost predicate Invertible(rt: Runtime) {
    forall how, m :: rt.serialize(how, m).Some? ==>
      rt.parse(how, m.typeName, rt.serialize(how, m).value) == Some(m)
  }

  function GetBasicTypeFieldValue(rt: Runtime, m: Message, f: Field): Option<string>
    requires !f.kind.Nested? && (f.name in m.fields ==> HasKind(m.fields[f.name], f.kind))
  {
    match f.kind
    case Int32 => Some(Print(ValueOf(m, f).i))
    case UInt32 => Some(Print(ValueOf(m, f).i))
    case Int64 => Some(Print(ValueOf(m, f).i))
    case UInt64 => Some(Print(ValueOf(m, f).i))
    case Double => Some(rt.printDouble(ValueOf(m, f).bits))
    case Float => Some(rt.printFloat(ValueOf(m, f).bits))
    case Text => Some(ValueOf(m, f).s)
    case Other => None
  }

  /** The column of one set field. */
  function ColumnOf(rt: Runtime, m: Message, f: Field): Option<FieldInfo>
    requires f.name in m.fields && HasKind(m.fields[f.name], f.kind)
  {
    if f.kind.Nested? then
      if f.kind.how == Unspecified then None
      else match rt.serialize(f.kind.how, m.fields[f.name].m)
        case None => None
        case Some(text) => Some(FieldInfo(f.name, text, true))
    else match GetBasicTypeFieldValue(rt, m, f)
      case None => None
      case Some(text) => Some(FieldInfo(f.name, text, f.kind == Text))
  }

  ghost predicate Convertible(rt: Runtime, m: Message, f: Field)
    requires f.name in m.fields ==> HasKind(m.fields[f.name], f.kind)
  {
    f.presence == Optional && (f.name in m.fields ==> ColumnOf(rt, m, f).Some?)
  }

  ghost predicate Held(m: Message, fields: seq<Field>) {
    forall f :: f in fields && f.name in m.fields ==> HasKind(m.fields[f.name], f.kind)
  }

  /** The columns of the set fields that have one, in field order. */
  function ColumnsOf(rt: Runtime, m: Message, fields: seq<Field>): seq<FieldInfo>
    requires Held(m, fields)
  {
    if fields == [] then []
    else
      assert fields[0] in fields && forall f :: f in fields[1..] ==> f in fields;
      var column := if fields[0].name in m.fields then ColumnOf(rt, m, fields[0]) else None;
      (if column.Some? then [column.value] else []) + ColumnsOf(rt, m, fields[1..])
  }

  /** Fails exactly when some field is not optional or a set field has no text; otherwise it has pushed
      the columns of the set fields in order. */
  method GetMessageFieldInfos(rt: Runtime, m: Message, d: Descriptor) returns (ok: bool, infos: seq<FieldInfo>)
    requires DistinctNames(d.fields) && Typed(m, d.fields)
    ensures Held(m, d.fields)
    ensures ok <==> forall f :: f in d.fields ==> Convertible(rt, m, f)
    ensures ok ==> infos == ColumnsOf(rt, m, d.fields)
  {
    hide ColumnsOf, ColumnOf, HasKind;
    TypedHeld(m, d.fields);
    infos := [];
    assert d.fields[0..] == d.fields;
    for i := 0 to |d.fields|
      invariant forall k :: 0 <= k < i ==> Convertible(rt, m, d.fields[k])
      invariant Held(m, d.fields[i..])
      invariant infos + ColumnsOf(rt, m, d.fields[i..]) == ColumnsOf(rt, m, d.fields)
    {
      ColumnsFrom(rt, m, d.fields, i);
      var f := d.fields[i];
      assert f in d.fields;
      if f.presence != Optional {
        return false, infos;
      }
      if f.name !in m.fields {
        continue;
      }
      var column := ColumnOf(rt, m, f);
      if column == None {
        return false, infos;
      }
      infos := infos + [column.value];
    }
    ColumnsAtEnd(rt, m, d.fields);
    ok := true;
  }

  lemma ColumnsFrom(rt: Runtime, m: Message, fields: seq<Field>, i: nat)
    requires i < |fields| && Held(m, fields[i..])
    ensures fields[i] in fields[i..] && Held(m, fields[i + 1..])
    ensures
      var f := fields[i];
      var column := if f.name in m.fields then ColumnOf(rt, m, f) else None;
      ColumnsOf(rt, m, fields[i..])
        == (if column.Some? then [column.value] else []) + ColumnsOf(rt, m, fields[i + 1..])
  {
    hide ColumnOf, HasKind;
    assert fields[i..][0] == fields[i] && fields[i..][1..] == fields[i + 1..];
  }

  lemma ColumnsAtEnd(rt: Runtime, m: Message, fields: seq<Field>)
    ensures Held(m, fields[|fields|..]) && ColumnsOf(rt, m, fields[|fields|..]) == []
  {
  }

  lemma TypedHeld(m: Message, fields: seq<Field>)
    requires DistinctNames(fields) && Typed(m, fields)
    ensures Held(m, fields)
  {
    forall f | f in fields && f.name in m.fields ensures HasKind(m.fields[f.name], f.kind) {
      FindFieldSelf(fields, f);
    }
  }

  /** The value that a text stands for in a field of this kind. A float field gets none: the source stores it
      through the setter for doubles, which the reflection library answers by aborting. */
  function ReadValue(rt: Runtime, kind: Kind, text: string): Option<Value> {
    match kind
    case Nested(typeName, how) =>
      if how == Unspecified then None
      else
        var sub :- rt.parse(how, typeName, text);
        Some(NestedValue(sub))
    case Int32 => Some(IntValue(ReadSigned(text, INT32_MIN, INT32_MAX)))
    case UInt32 => Some(IntValue(ReadUnsigned(text, UINT32_MAX)))
    case Int64 => Some(IntValue(ReadSigned(text, INT64_MIN, INT64_MAX)))
    case UInt64 => Some(IntValue(ReadUnsigned(text, UINT64_MAX)))
    case Double => Some(RealValue(rt.readDouble(text)))
    case Text => Some(TextValue(text))
    case Float => None
    case Other => None
  }

  /** When a set field has a column: not when its type is refused, or when a nested message has no serialization or
      does not serialize. Texts and nested messages are quoted, and a nested message is written as its field says. */
  lemma ColumnExactly(rt: Runtime, m: Message, f: Field)
    requires f.name in m.fields && HasKind(m.fields[f.name], f.kind)
    ensures ColumnOf(rt, m, f).Some? <==>
      && f.kind != Other
      && (f.kind.Nested? ==>
            f.kind.how != Unspecified && rt.serialize(f.kind.how, m.fields[f.name].m).Some?)
    ensures ColumnOf(rt, m, f).Some? ==>
      var info := ColumnOf(rt, m, f).value;
      && info.name == f.name && (info.isText <==> f.kind == Text || f.kind.Nested?)
      && (f.kind.Nested? ==> Some(info.value) == rt.serialize(f.kind.how, m.fields[f.name].m))
      && (f.kind == Double ==> info.value == rt.printDouble(m.fields[f.name].bits))
      && (f.kind == Float ==> info.value == rt.printFloat(m.fields[f.name].bits))
  {
  }

  /** When a text can be stored in a field: the field is optional, no float and not refused, and a nested text
      parses as its field says. */
  lemma StoreExactly(rt: Runtime, m: Message, f: Field, text: string)
    ensures SetFieldValue(rt, m, f, text).Some? <==>
      && f.presence == Optional && f.kind != Float && f.kind != Other
      && (f.kind.Nested? ==> f.kind.how != Unspecified && rt.parse(f.kind.how, f.kind.typeName, text).Some?)
    ensures SetFieldValue(rt, m, f, text).Some? ==>
      var v := SetFieldValue(rt, m, f, text).value.fields[f.name];
      && (f.kind.Nested? ==> Some(v) == Some(NestedValue(rt.parse(f.kind.how, f.kind.typeName, text).value)))
      && (f.kind == Double ==> v == RealValue(rt.readDouble(text)))
      && (f.kind == Text ==> v == TextValue(text))
  {
  }

  /** Stores a column's text in a field. */
  function SetFieldValue(rt: Runtime, m: Message, f: Field, text: string): (r: Option<Message>)
    ensures r.Some? ==> r.value.typeName == m.typeName && r.value.fields.Keys == m.fields.Keys + {f.name}
  {
    if f.presence != Optional then None
    else
      var v :- ReadValue(rt, f.kind, text);
      Some(m.(fields := m.fields[f.name := v]))
  }

  /** A column as the record set hands it out: the text up to its first NUL. */
  function CString(s: string): (t: string)
    ensures t <= s && '\0' !in t
    ensures t == s <==> '\0' !in s
    ensures |t| < |s| ==> s[|t|] == '\0'
  {
    if s == [] || s[0] == '\0' then [] else [s[0]] + CString(s[1..])
  }

  datatype Column = Column(name: string, text: string)

  /** Stores one column; fails when it is unknown or has no value. */
  function SetColumn(rt: Runtime, m: Message, fields: seq<Field>, c: Column): (r: Option<Message>) {
    match FindField(fields, c.name)
    case None => None
    case Some(f) => SetFieldValue(rt, m, f, c.text)
  }

  /** Setting columns one after the other. */
  function SetAll(rt: Runtime, m: Message, fields: seq<Field>, columns: seq<Column>): Option<Message>
    decreases |columns|
  {
    if columns == [] then Some(m)
    else match SetColumn(rt, m, fields, columns[0])
      case None => None
      case Some(next) => SetAll(rt, next, fields, columns[1..])
  }

  function Handed(columns: seq<Column>): seq<Column> {
    if columns == [] then [] else [Column(columns[0].name, CString(columns[0].text))] + Handed(columns[1..])
  }

  /** Fills a message from a result of at most one row. */
  method FillNormalMessage(rt: Runtime, rowCount: nat, row: seq<Column>, m: Message, d: Descriptor)
    returns (r: Option<Message>)
    ensures rowCount > 1 ==> r == None
    ensures rowCount == 0 ==> r == Some(m)
    ensures rowCount == 1 ==> r == SetAll(rt, m, d.fields, Handed(row))
  {
    if rowCount > 1 {
      return None;
    }
    if rowCount == 0 {
      return Some(m);
    }
    var message := m;
    for i := 0 to |row|
      invariant SetAll(rt, m, d.fields, Handed(row)) == SetAll(rt, message, d.fields, Handed(row[i..]))
    {
      assert row[i..][1..] == row[i + 1..];
      var f := FindField(d.fields, row[i].name);
      if f == None {
        return None;
      }
      var stored := SetFieldValue(rt, message, f.value, CString(row[i].text));
      if stored == None {
        return None;
      }
      message := stored.value;
    }
    r := Some(message);
  }

  // ---- Columns rebuild the message ----

  function AsColumns(infos: seq<FieldInfo>): seq<Column> {
    if infos == [] then [] else [Column(infos[0].name, infos[0].value)] + AsColumns(infos[1..])
  }

  /** A typed message that the write path takes. */
  ghost predicate Writable(rt: Runtime, m: Message, fields: seq<Field>) {
    && DistinctNames(fields) && Typed(m, fields) && Held(m, fields)
    && (forall f :: f in fields ==> Convertible(rt, m, f))
  }

  ghost predicate RoundTrips(rt: Runtime, m: Message, fields: seq<Field>) {
    && Invertible(rt) && Writable(rt, m, fields)
    && (forall f :: f in fields ==> f.kind != Float && f.kind != Double)
  }

  /** The column of a set field of `m`. */
  ghost predicate ColumnFrom(rt: Runtime, m: Message, fields: seq<Field>, c: Column)
    requires Held(m, fields)
  {
    exists f :: f in fields && f.name in m.fields
      && ColumnOf(rt, m, f).Some? && c == Column(f.name, ColumnOf(rt, m, f).value.value)
  }

  lemma {:induction false} ColumnsOfExactly(rt: Runtime, m: Message, fields: seq<Field>, c: Column)
    requires Held(m, fields)
    ensures c in AsColumns(ColumnsOf(rt, m, fields)) <==> ColumnFrom(rt, m, fields, c)
  {
    if fields != [] {
      var f := fields[0];
      assert fields == [f] + fields[1..];
      ColumnsOfExactly(rt, m, fields[1..], c);
      var column := if f.name in m.fields then ColumnOf(rt, m, f) else None;
      var rest := ColumnsOf(rt, m, fields[1..]);
      if column.Some? {
        assert ColumnsOf(rt, m, fields) == [column.value] + rest;
        assert AsColumns(ColumnsOf(rt, m, fields)) == [Column(f.name, column.value.value)] + AsColumns(rest);
      } else {
        assert ColumnsOf(rt, m, fields) == rest;
      }
      forall g | g in fields[1..] ensures g in fields {}
      assert ColumnFrom(rt, m, fields, c) <==>
        ColumnFrom(rt, m, fields[1..], c) || (column.Some? && c == Column(f.name, column.value.value));
    }
  }

  /** A field's own text reads as its value, unless it is a double or a float. */
  lemma ReadOwnText(rt: Runtime, m: Message, f: Field)
    requires Invertible(rt) && f.name in m.fields && HasKind(m.fields[f.name], f.kind) && ColumnOf(rt, m, f).Some?
    requires f.kind != Float && f.kind != Double
    ensures ReadValue(rt, f.kind, ColumnOf(rt, m, f).value.value) == Some(m.fields[f.name])
  {
    hide ReadSigned, ReadUnsigned, Print;
    var v := m.fields[f.name];
    match f.kind
    case Int32 => ReadSignedInverse(v.i, INT32_MIN, INT32_MAX);
    case UInt32 => ReadUnsignedInverse(v.i, UINT32_MAX);
    case Int64 => ReadSignedInverse(v.i, INT64_MIN, INT64_MAX);
    case UInt64 => ReadUnsignedInverse(v.i, UINT64_MAX);
    case Text =>
    case Nested(_, _) =>
    case Other =>
  }

  /** Storing a field's own column restores the field. */
  lemma StoreOwnColumn(rt: Runtime, m: Message, fields: seq<Field>, f: Field, sofar: Message)
    requires RoundTrips(rt, m, fields) && f in fields && f.name in m.fields
    ensures ColumnOf(rt, m, f).Some?
    ensures SetFieldValue(rt, sofar, f, ColumnOf(rt, m, f).value.value)
         == Some(sofar.(fields := sofar.fields[f.name := m.fields[f.name]]))
  {
    ReadOwnText(rt, m, f);
    hide ReadValue, ColumnOf, Invertible;
  }

  function Names(columns: seq<Column>): set<string> {
    set c | c in columns :: c.name
  }

  function Keep(m: Message, names: set<string>): Message {
    Message(m.typeName, map name | name in m.fields && name in names :: m.fields[name])
  }

  lemma {:induction false} SetOwnColumns(rt: Runtime, m: Message, fields: seq<Field>, names: set<string>,
                                         columns: seq<Column>)
    requires RoundTrips(rt, m, fields)
    requires forall c :: c in columns ==> ColumnFrom(rt, m, fields, c)
    ensures SetAll(rt, Keep(m, names), fields, columns) == Some(Keep(m, names + Names(columns)))
    decreases |columns|
  {
    if columns == [] {
      assert names + Names(columns) == names;
    } else {
      var c, rest := columns[0], columns[1..];
      assert columns == [c] + rest;
      SetOwnColumn(rt, m, fields, names, c);
      SetOwnColumns(rt, m, fields, names + {c.name}, rest);
      assert names + Names(columns) == names + {c.name} + Names(rest);
    }
  }

  lemma SetOwnColumn(rt: Runtime, m: Message, fields: seq<Field>, names: set<string>, c: Column)
    requires RoundTrips(rt, m, fields) && ColumnFrom(rt, m, fields, c)
    ensures SetColumn(rt, Keep(m, names), fields, c) == Some(Keep(m, names + {c.name}))
  {
    var f :| f in fields && f.name in m.fields
      && ColumnOf(rt, m, f).Some? && c == Column(f.name, ColumnOf(rt, m, f).value.value);
    FindFieldSelf(fields, f);
    StoreOwnColumn(rt, m, fields, f, Keep(m, names));
    KeepOneMore(m, names, c.name);
    hide Keep, ColumnOf, SetFieldValue, RoundTrips;
  }

  lemma KeepOneMore(m: Message, names: set<string>, name: string)
    requires name in m.fields
    ensures Keep(m, names + {name}) == Keep(m, names).(fields := Keep(m, names).fields[name := m.fields[name]])
  {
  }

  /** Setting the columns of a message in an empty one, in any order and with any repetition, rebuilds the
      message, including which of its fields are unset. */
  lemma ColumnsRebuild(rt: Runtime, m: Message, fields: seq<Field>, columns: seq<Column>)
    requires RoundTrips(rt, m, fields)
    requires forall c :: c in columns <==> c in AsColumns(ColumnsOf(rt, m, fields))
    ensures SetAll(rt, Message(m.typeName, map[]), fields, columns) == Some(m)
  {
    forall c | c in columns ensures ColumnFrom(rt, m, fields, c) {
      ColumnsOfExactly(rt, m, fields, c);
    }
    assert Keep(m, {}).fields == map[];
    SetOwnColumns(rt, m, fields, {}, columns);
    forall name | name in m.fields ensures name in Names(columns) {
      var f := FindField(fields, name).value;
      assert Convertible(rt, m, f);
      var c := Column(name, ColumnOf(rt, m, f).value.value);
      ColumnsOfExactly(rt, m, fields, c);
      assert c in columns;
    }
    assert Keep(m, {} + Names(columns)).fields == m.fields;
  }

  // ---- A row of the table ----

  /** What the row of `m` holds in the column of a field: the text of a set field, or else whatever the table
      has in a column that was never written. */
  function RowColumn(rt: Runtime, m: Message, f: Field, unset: string -> string): (c: Column)
    ensures c.name == f.name
  {
    Column(f.name, if f.name in m.fields && HasKind(m.fields[f.name], f.kind) && ColumnOf(rt, m, f).Some?
                   then ColumnOf(rt, m, f).value.value else unset(f.name))
  }

  /** The row of `m` in a table with one column per field, in any order. */
  ghost predicate IsRowOf(rt: Runtime, m: Message, fields: seq<Field>, unset: string -> string, row: seq<Column>)
  {
    forall c :: c in row <==> exists f :: f in fields && c == RowColumn(rt, m, f, unset)
  }

  /** The text of a set field reads as the field's value. A text is read up to its first NUL only, a double
      was printed with few digits, and a float cannot be read at all. */
  ghost predicate Survives(rt: Runtime, m: Message, f: Field)
    requires f.name in m.fields && HasKind(m.fields[f.name], f.kind) && ColumnOf(rt, m, f).Some?
  {
    var text := ColumnOf(rt, m, f).value.value;
    match f.kind
    case Text => '\0' !in text
    case Nested(typeName, how) => '\0' !in text || rt.parse(how, typeName, CString(text)) == Some(m.fields[f.name].m)
    case Double => rt.readDouble(CString(text)) == m.fields[f.name].bits
    case Float => false
    case _ => true
  }

  /** A select hands out every column of the row. So a stored message comes back exactly when all its fields
      are set and each of their texts survives. */
  lemma RowRebuildsExactly(rt: Runtime, m: Message, fields: seq<Field>, unset: string -> string, row: seq<Column>)
    requires Invertible(rt) && Writable(rt, m, fields) && IsRowOf(rt, m, fields, unset, row)
    ensures SetAll(rt, Message(m.typeName, map[]), fields, Handed(row)) == Some(m)
      <==> forall f :: f in fields ==> f.name in m.fields && Survives(rt, m, f)
  {
    var blank := Message(m.typeName, map[]);
    RowNames(rt, m, fields, unset, row);
    StoredRow(rt, blank, fields, row);
    SetNames(m, fields);
    RowReads(rt, m, fields, unset);
    hide SetAll, Stored, Survives, ReadOf, RowColumn, Handed, Invertible, Convertible, HasKind;
    SameAsStored(rt, m, fields, unset, row, SetAll(rt, blank, fields, Handed(row)));
  }

  lemma RowReads(rt: Runtime, m: Message, fields: seq<Field>, unset: string -> string)
    requires Invertible(rt) && Writable(rt, m, fields)
    ensures forall f :: f in fields && f.name in m.fields ==>
      (ReadOf(rt, fields, RowColumn(rt, m, f, unset)) == Some(m.fields[f.name]) <==> Survives(rt, m, f))
  {
    forall f | f in fields && f.name in m.fields
      ensures ReadOf(rt, fields, RowColumn(rt, m, f, unset)) == Some(m.fields[f.name]) <==> Survives(rt, m, f)
    {
      ReadOwnColumn(rt, m, fields, f, unset);
    }
  }

  /** A stored row is `m` exactly when each field of `m` is set and its column reads as its value. */
  lemma SameAsStored(rt: Runtime, m: Message, fields: seq<Field>, unset: string -> string, row: seq<Column>,
                     r: Option<Message>)
    requires IsRowOf(rt, m, fields, unset, row)
    requires Stored(rt, Message(m.typeName, map[]), fields, row, r)
    requires forall name :: name in m.fields ==> exists f :: f in fields && f.name == name
    requires forall name :: name in Names(row) <==> exists f :: f in fields && f.name == name
    ensures r == Some(m) <==>
      forall f :: f in fields ==>
        f.name in m.fields && ReadOf(rt, fields, RowColumn(rt, m, f, unset)) == Some(m.fields[f.name])
  {
    hide ReadOf, RowColumn;
    assert forall c :: c in row ==> c.name in Names(row);
    assert forall f :: f in fields ==> RowColumn(rt, m, f, unset) in row;
    if forall f :: f in fields ==>
      f.name in m.fields && ReadOf(rt, fields, RowColumn(rt, m, f, unset)) == Some(m.fields[f.name])
    {
      forall c | c in row ensures c.name in m.fields && ReadOf(rt, fields, c) == Some(m.fields[c.name]) {
        var f :| f in fields && c == RowColumn(rt, m, f, unset);
      }
      forall name | name in m.fields ensures r.value.fields[name] == m.fields[name] {
        var c :| c in row && c.name == name;
      }
      assert r.value.fields == m.fields;
    }
  }

  lemma SetNames(m: Message, fields: seq<Field>)
    requires Typed(m, fields)
    ensures forall name :: name in m.fields ==> exists f :: f in fields && f.name == name
  {
    forall name | name in m.fields ensures exists f :: f in fields && f.name == name {
      assert FindField(fields, name).value in fields;
    }
  }

  lemma RowNames(rt: Runtime, m: Message, fields: seq<Field>, unset: string -> string, row: seq<Column>)
    requires DistinctNames(fields) && IsRowOf(rt, m, fields, unset, row)
    ensures forall c, d :: c in row && d in row && c.name == d.name ==> c == d
    ensures forall name :: name in Names(row) <==> exists f :: f in fields && f.name == name
  {
    hide RowColumn;
    forall c, d | c in row && d in row && c.name == d.name ensures c == d {
      var f :| f in fields && c == RowColumn(rt, m, f, unset);
      var g :| g in fields && d == RowColumn(rt, m, g, unset);
      FindFieldSelf(fields, f);
      FindFieldSelf(fields, g);
    }
    forall f | f in fields ensures f.name in Names(row) {
      assert RowColumn(rt, m, f, unset) in row;
    }
  }

  /** What a select stores for a column. */
  function ReadOf(rt: Runtime, fields: seq<Field>, c: Column): Option<Value> {
    var f :- FindField(fields, c.name);
    if f.presence != Optional then None else ReadValue(rt, f.kind, CString(c.text))
  }

  /** `r` is `m` with every column of the row stored, or nothing when one cannot be. */
  ghost predicate Stored(rt: Runtime, m: Message, fields: seq<Field>, row: seq<Column>, r: Option<Message>)
  {
    && (r.Some? <==> forall c :: c in row ==> ReadOf(rt, fields, c).Some?)
    && (r.Some? ==>
          && r.value.typeName == m.typeName && r.value.fields.Keys == m.fields.Keys + Names(row)
          && (forall c :: c in row ==> Some(r.value.fields[c.name]) == ReadOf(rt, fields, c))
          && (forall name :: name in m.fields && name !in Names(row) ==> r.value.fields[name] == m.fields[name]))
  }

  lemma {:induction false} StoredRow(rt: Runtime, m: Message, fields: seq<Field>, row: seq<Column>)
    requires forall c, d :: c in row && d in row && c.name == d.name ==> c == d
    ensures Stored(rt, m, fields, row, SetAll(rt, m, fields, Handed(row)))
    decreases |row|
  {
    if row != [] {
      var c, rest := row[0], row[1..];
      assert row == [c] + rest;
      assert Handed(row)[1..] == Handed(rest);
      StoredColumn(rt, m, fields, c);
      var next := SetColumn(rt, m, fields, Handed(row)[0]);
      hide ReadOf, SetColumn, Stored, Names;
      if next.Some? {
        StoredRow(rt, next.value, fields, rest);
        StoredFirst(rt, m, fields, c, rest, SetAll(rt, next.value, fields, Handed(rest)));
      } else {
        StoredNothing(rt, m, fields, c, rest);
      }
    }
  }

  lemma StoredFirst(rt: Runtime, m: Message, fields: seq<Field>, c: Column, rest: seq<Column>, r: Option<Message>)
    requires ReadOf(rt, fields, c).Some?
    requires forall d :: d in rest && d.name == c.name ==> d == c
    requires Stored(rt, m.(fields := m.fields[c.name := ReadOf(rt, fields, c).value]), fields, rest, r)
    ensures Stored(rt, m, fields, [c] + rest, r)
  {
    hide ReadOf;
    assert Names([c] + rest) == {c.name} + Names(rest);
    assert c.name in Names(rest) ==> c in rest;
  }

  lemma StoredNothing(rt: Runtime, m: Message, fields: seq<Field>, c: Column, rest: seq<Column>)
    requires ReadOf(rt, fields, c) == None
    ensures Stored(rt, m, fields, [c] + rest, None)
  {
    hide ReadOf;
    assert c in [c] + rest;
  }

  lemma StoredColumn(rt: Runtime, m: Message, fields: seq<Field>, c: Column)
    ensures SetColumn(rt, m, fields, Column(c.name, CString(c.text))) ==
      match ReadOf(rt, fields, c) { case None => None case Some(v) => Some(m.(fields := m.fields[c.name := v])) }
  {
  }

  lemma ReadOwnColumn(rt: Runtime, m: Message, fields: seq<Field>, f: Field, unset: string -> string)
    requires Invertible(rt) && Writable(rt, m, fields) && f in fields && f.name in m.fields
    ensures ReadOf(rt, fields, RowColumn(rt, m, f, unset)) == Some(m.fields[f.name]) <==> Survives(rt, m, f)
  {
    FindFieldSelf(fields, f);
    if f.kind != Float && f.kind != Double {
      ReadOwnText(rt, m, f);
      if !f.kind.Nested? && f.kind != Text {
        NumbersHaveNoNul(rt, m, f);
      }
    }
  }

  lemma NumbersHaveNoNul(rt: Runtime, m: Message, f: Field)
    requires f.name in m.fields && HasKind(m.fields[f.name], f.kind) && ColumnOf(rt, m, f).Some?
    requires f.kind != Double && f.kind != Float && !f.kind.Nested? && f.kind != Text
    ensures '\0' !in ColumnOf(rt, m, f).value.value
  {
    PrintPlain(m.fields[f.name].i);
  }

  // ---- Rows by column name ----

  /** A row of the table: the text in each column. */
  type Line = map<string, string>

  /** The message that a select makes of a row. */
  function ReadLine(rt: Runtime, name: string, fields: seq<Field>, line: Line): Option<Message> {
    if forall c :: c in line ==> ReadOf(rt, fields, Column(c, line[c])).Some? then
      Some(Message(name, map c | c in line :: ReadOf(rt, fields, Column(c, line[c])).value))
    else None
  }

  /** That is what setting the columns one after the other gives, in whatever order they come. */
  lemma SelectReadsLine(rt: Runtime, name: string, fields: seq<Field>, line: Line, row: seq<Column>)
    requires forall c :: c in row <==> c.name in line && line[c.name] == c.text
    ensures SetAll(rt, Message(name, map[]), fields, Handed(row)) == ReadLine(rt, name, fields, line)
  {
    var r, read := SetAll(rt, Message(name, map[]), fields, Handed(row)), ReadLine(rt, name, fields, line);
    StoredRow(rt, Message(name, map[]), fields, row);
    hide SetAll, ReadOf, Handed;
    assert forall c :: c in line ==> Column(c, line[c]) in row;
    assert Names(row) == line.Keys;
    if r.Some? {
      forall c | c in line ensures Some(r.value.fields[c]) == ReadOf(rt, fields, Column(c, line[c])) {
        assert Column(c, line[c]) in row;
      }
      assert r.value.fields == read.value.fields;
    }
  }

  /** The text that a set field of a message is written as. */
  function TextOf(rt: Runtime, m: Message, fields: seq<Field>, name: string): Option<string> {
    var f :- FindField(fields, name);
    if name in m.fields && HasKind(m.fields[name], f.kind) then
      var info :- ColumnOf(rt, m, f);
      Some(info.value)
    else None
  }

  /** The columns that a message is written to. */
  function LineOf(rt: Runtime, m: Message, fields: seq<Field>): Line {
    map name | name in m.fields && TextOf(rt, m, fields, name).Some? :: TextOf(rt, m, fields, name).value
  }

  /** They are the columns that the write path makes of the message. */
  lemma LineOfIsColumns(rt: Runtime, m: Message, fields: seq<Field>, c: Column)
    requires Writable(rt, m, fields)
    ensures c.name in LineOf(rt, m, fields) && LineOf(rt, m, fields)[c.name] == c.text
      <==> c in AsColumns(ColumnsOf(rt, m, fields))
    ensures LineOf(rt, m, fields).Keys == m.fields.Keys
  {
    ColumnsOfExactly(rt, m, fields, c);
    hide ColumnOf, HasKind;
    forall name | name in m.fields ensures TextOf(rt, m, fields, name).Some? {
      assert FindField(fields, name).value in fields;
      assert Convertible(rt, m, FindField(fields, name).value);
    }
    if c.name in m.fields && LineOf(rt, m, fields)[c.name] == c.text {
      assert FindField(fields, c.name).value in fields;
    }
    if ColumnFrom(rt, m, fields, c) {
      var f :| f in fields && f.name in m.fields
        && ColumnOf(rt, m, f).Some? && c == Column(f.name, ColumnOf(rt, m, f).value.value);
      FindFieldSelf(fields, f);
    }
  }

  /** A message's own columns read as the message. */
  ghost predicate ReadsBack(rt: Runtime, m: Message, fields: seq<Field>) {
    ReadLine(rt, m.typeName, fields, LineOf(rt, m, fields)) == Some(m)
  }

  /** Exactly when the text of each set field survives. */
  lemma ReadsBackExactly(rt: Runtime, m: Message, fields: seq<Field>)
    requires Invertible(rt) && Writable(rt, m, fields)
    ensures ReadsBack(rt, m, fields) <==> forall f :: f in fields && f.name in m.fields ==> Survives(rt, m, f)
  {
    hide ReadOf, LineOf, RowColumn, Survives, ColumnOf, HasKind, Invertible, ReadLine;
    var line := LineOf(rt, m, fields);
    LineOfIsColumns(rt, m, fields, Column("", ""));
    ReadLineIs(rt, m, fields, line);
    forall f | f in fields && f.name in m.fields
      ensures ReadOf(rt, fields, Column(f.name, line[f.name])) == Some(m.fields[f.name]) <==> Survives(rt, m, f)
    {
      ReadOwnLine(rt, m, fields, f);
    }
    SetNames(m, fields);
  }

  /** A row reads as a message when each of its columns reads as the field of that name. */
  lemma ReadLineIs(rt: Runtime, m: Message, fields: seq<Field>, line: Line)
    ensures ReadLine(rt, m.typeName, fields, line) == Some(m) <==>
      && line.Keys == m.fields.Keys
      && forall name :: name in line ==> ReadOf(rt, fields, Column(name, line[name])) == Some(m.fields[name])
  {
    hide ReadOf;
    if line.Keys == m.fields.Keys
      && forall name :: name in line ==> ReadOf(rt, fields, Column(name, line[name])) == Some(m.fields[name])
    {
      assert ReadLine(rt, m.typeName, fields, line).value.fields == m.fields;
    }
  }

  lemma ReadOwnLine(rt: Runtime, m: Message, fields: seq<Field>, f: Field)
    requires Invertible(rt) && Writable(rt, m, fields) && f in fields && f.name in m.fields
    requires f.name in LineOf(rt, m, fields)
    ensures ReadOf(rt, fields, Column(f.name, LineOf(rt, m, fields)[f.name])) == Some(m.fields[f.name])
      <==> Survives(rt, m, f)
  {
    ReadOwnColumn(rt, m, fields, f, name => "");
    FindFieldSelf(fields, f);
    hide ReadOf, Survives, ColumnOf;
  }
}
