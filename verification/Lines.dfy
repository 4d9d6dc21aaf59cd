/** Rows of the table as texts: what messages are written to, and what rows are read as. */
module Lines {
  import opened Wrappers
  import opened Decimal
  import opened Messages
  import opened Columns
  import opened CacheModel

  lemma TypedNames(sc: Schema, m: Message, name: string)
    requires m.typeName == name && Typed(m, FieldsOf(sc, name))
    ensures m.fields.Keys <= FieldNames(FieldsOf(sc, name))
  {
    forall n | n in m.fields ensures n in FieldNames(FieldsOf(sc, name)) {
      assert FindField(FieldsOf(sc, name), n).value in FieldsOf(sc, name);
    }
  }

  lemma KeyColumn(sc: Schema, name: string)
    requires Keyed(sc, name)
    ensures name in sc.pool && PrimaryField(sc, name).value in FieldsOf(sc, name)
    ensures PrimaryField(sc, name).value.name in FieldNames(FieldsOf(sc, name))
    ensures FindField(FieldsOf(sc, name), PrimaryField(sc, name).value.name) == PrimaryField(sc, name)
  {
    FieldNamesIn(FieldsOf(sc, name), PrimaryField(sc, name).value);
  }

  // ---- Writing ----

  /** What the write path asks of a message is what makes it fail otherwise. */
  lemma StorableExactly(sc: Schema, m: Message)
    requires PoolOk(sc.pool) && IsMessage(sc, m)
    ensures Held(m, FieldsOf(sc, m.typeName))
    ensures Storable(sc, m) <==> forall f :: f in FieldsOf(sc, m.typeName) ==> Convertible(sc.rt, m, f)
  {
    var fields := FieldsOf(sc, m.typeName);
    TypedHeld(m, fields);
    hide ColumnOf, HasKind;
    forall f | f in fields
      ensures f.name in m.fields ==> (TextOf(sc.rt, m, fields, f.name).Some? <==> ColumnOf(sc.rt, m, f).Some?)
    {
      FindFieldSelf(fields, f);
    }
  }

  lemma WrittenKeys(sc: Schema, m: Message)
    requires IsMessage(sc, m)
    ensures Written(sc, m).Keys <= m.fields.Keys
    ensures Storable(sc, m) ==> Written(sc, m).Keys == m.fields.Keys
  {
    hide TextOf;
    if Storable(sc, m) {
      forall name | name in m.fields ensures TextOf(sc.rt, m, FieldsOf(sc, m.typeName), name).Some? {
        assert FindField(FieldsOf(sc, m.typeName), name).value in FieldsOf(sc, m.typeName);
      }
    }
  }

  /** The key column of a message's row is the text of its key. */
  lemma WrittenKey(sc: Schema, m: Message)
    requires IsMessage(sc, m) && PrimaryId(sc, m).Some?
    ensures Keyed(sc, m.typeName)
    ensures var f := PrimaryField(sc, m.typeName).value;
      && HasKind(IntValue(PrimaryId(sc, m).value), f.kind)
      && (f.name in Written(sc, m) <==> f.name in m.fields)
      && (f.name in m.fields ==> Written(sc, m)[f.name] == Print(PrimaryId(sc, m).value))
      && (f.name !in m.fields ==> PrimaryId(sc, m).value == 0)
  {
    KeyColumn(sc, m.typeName);
    hide Print;
  }

  lemma {:induction false} PrintInjective(a: int, b: int)
    requires Print(a) == Print(b)
    ensures a == b
  {
    assert (a < 0 <==> Print(a)[0] == '-') && (b < 0 <==> Print(b)[0] == '-');
    if a < 0 && b < 0 {
      assert Print(a)[1..] == Digits(-a) && Print(b)[1..] == Digits(-b);
      DigitsInjective(-a, -b);
    } else if a >= 0 && b >= 0 {
      DigitsInjective(a, b);
    }
  }

  /** Writing the columns of a message into a row of its key, or into a new row, gives a row of its key. */
  lemma WriteOk(sc: Schema, k: Key, base: Line, m: Message)
    requires IsMessage(sc, m) && PrimaryId(sc, m) == Some(k.id) && m.typeName == k.name
    requires LineOk(sc, k, base) || LineOk(sc, Key(0, k.name), base)
    ensures Keyed(sc, k.name) && LineOk(sc, k, base + Written(sc, m))
  {
    WrittenKey(sc, m);
    WrittenKeys(sc, m);
    TypedNames(sc, m, m.typeName);
    KeyColumn(sc, k.name);
    hide Written, IsMessage, Storable, Print, HasKind, PrimaryId;
    assert (base + Written(sc, m)).Keys == base.Keys;
  }

  /** A whole message's columns are a row. */
  lemma WholeLine(sc: Schema, m: Message)
    requires IsMessage(sc, m) && Whole(sc, m) && Storable(sc, m) && PrimaryId(sc, m).Some?
    ensures Keyed(sc, m.typeName) && LineOk(sc, RowKey(sc, m), Written(sc, m))
  {
    WrittenKey(sc, m);
    WrittenKeys(sc, m);
    KeyColumn(sc, m.typeName);
    hide Written, IsMessage, Storable, Print, HasKind, PrimaryId;
  }

  /** Writing all columns leaves nothing of the base. */
  lemma WriteWhole(sc: Schema, base: Line, m: Message)
    requires IsMessage(sc, m) && Whole(sc, m) && Storable(sc, m)
    requires base.Keys <= FieldNames(FieldsOf(sc, m.typeName))
    ensures base + Written(sc, m) == Written(sc, m)
  {
    WrittenKeys(sc, m);
    hide Written, IsMessage, Storable;
  }

  /** An update starts from the row of its key, or from a new row. */
  lemma BaseOk(sc: Schema, table: Table, k: Key)
    requires SchemaOk(sc) && TableOk(sc, table) && k.name in sc.pool
    ensures var base := if k in table then table[k] else Blank(sc, k.name);
      && base.Keys == FieldNames(FieldsOf(sc, k.name))
      && (LineOk(sc, k, base) || LineOk(sc, Key(0, k.name), base))
  {
    hide PoolOk, CodecOk, RuntimeOk, Print, HasKind;
  }

  lemma PutOk(sc: Schema, table: Table, k: Key, line: Line)
    requires TableOk(sc, table) && Keyed(sc, k.name) && LineOk(sc, k, line)
    ensures TableOk(sc, table[k := line])
  {
    hide LineOk, Keyed;
  }

  lemma UpdateOk(sc: Schema, table: Table, m: Message)
    requires SchemaOk(sc) && TableOk(sc, table) && IsMessage(sc, m) && PrimaryId(sc, m).Some?
    ensures TableOk(sc, DbUpdate(sc, table, RowKey(sc, m), m))
    ensures TableOk(sc, DbInsert(sc, table, RowKey(sc, m), m))
  {
    var k := RowKey(sc, m);
    var base := if k in table then table[k] else Blank(sc, k.name);
    assert m.typeName in sc.pool;
    hide SchemaOk, TableOk, LineOk, IsMessage, Written, Storable, PrimaryId, Keyed;
    BaseOk(sc, table, k);
    WriteOk(sc, k, base, m);
    PutOk(sc, table, k, base + Written(sc, m));
  }

  /** Updating with a whole message replaces the row, when a statement can be made of the message. */
  lemma UpdateWhole(sc: Schema, table: Table, m: Message)
    requires SchemaOk(sc) && TableOk(sc, table) && IsMessage(sc, m) && Whole(sc, m) && PrimaryId(sc, m).Some?
    ensures DbUpdate(sc, table, RowKey(sc, m), m) ==
      if Storable(sc, m) then table[RowKey(sc, m) := Written(sc, m)] else table
    ensures TableOk(sc, DbUpdate(sc, table, RowKey(sc, m), m))
  {
    hide SchemaOk, TableOk, LineOk, IsMessage, Written, Storable, PrimaryId, Keyed, Whole;
    var k := RowKey(sc, m);
    UpdateOk(sc, table, m);
    WholeHasKey(sc, m);
    BaseOk(sc, table, k);
    if Storable(sc, m) {
      WriteWhole(sc, if k in table then table[k] else Blank(sc, k.name), m);
    }
  }

  lemma WholeHasKey(sc: Schema, m: Message)
    requires IsMessage(sc, m) && Whole(sc, m) && PrimaryId(sc, m).Some?
    ensures m.typeName in sc.pool && m.fields != map[] && Keyed(sc, m.typeName)
  {
    KeyColumn(sc, m.typeName);
    assert PrimaryField(sc, m.typeName).value.name in m.fields;
  }

  // ---- Reading ----

  lemma ReadKind(rt: Runtime, kind: Kind, text: string)
    requires RuntimeOk(rt)
    ensures ReadValue(rt, kind, text).Some? ==> HasKind(ReadValue(rt, kind, text).value, kind)
  {
    hide ReadDigits, Scan;
  }

  /** What is read from a row is a whole message of the row's type and key. */
  lemma ReadOk(sc: Schema, k: Key, line: Line)
    requires SchemaOk(sc) && Keyed(sc, k.name) && LineOk(sc, k, line)
    requires ReadLine(sc.rt, k.name, FieldsOf(sc, k.name), line).Some?
    ensures var m := ReadLine(sc.rt, k.name, FieldsOf(sc, k.name), line).value;
      IsMessage(sc, m) && m.typeName == k.name && Whole(sc, m) && PrimaryId(sc, m) == Some(k.id)
  {
    hide SchemaOk, Print, HasKind, ReadValue, CString;
    var fields := FieldsOf(sc, k.name);
    var m := ReadLine(sc.rt, k.name, fields, line).value;
    KeyColumn(sc, k.name);
    SchemaRuntime(sc);
    forall name | name in m.fields
      ensures FindField(fields, name).Some? && HasKind(m.fields[name], FindField(fields, name).value.kind)
    {
      ReadKind(sc.rt, FindField(fields, name).value.kind, CString(line[name]));
    }
    ReadKey(sc, k, line);
  }

  lemma SchemaRuntime(sc: Schema)
    requires SchemaOk(sc)
    ensures RuntimeOk(sc.rt)
  {
  }

  lemma ReadKey(sc: Schema, k: Key, line: Line)
    requires Keyed(sc, k.name) && LineOk(sc, k, line)
    ensures var f := PrimaryField(sc, k.name).value;
      ReadOf(sc.rt, FieldsOf(sc, k.name), Column(f.name, line[f.name])).Some? ==>
        ReadOf(sc.rt, FieldsOf(sc, k.name), Column(f.name, line[f.name])) == Some(IntValue(k.id))
  {
    var f := PrimaryField(sc, k.name).value;
    KeyColumn(sc, k.name);
    PrintPlain(k.id);
    assert CString(Print(k.id)) == Print(k.id) by { hide Print; }
    hide Print, ReadSigned, ReadUnsigned;
    match f.kind
    case Int32 => ReadSignedInverse(k.id, INT32_MIN, INT32_MAX);
    case UInt32 => ReadUnsignedInverse(k.id, UINT32_MAX);
    case Int64 => ReadSignedInverse(k.id, INT64_MIN, INT64_MAX);
    case UInt64 => ReadUnsignedInverse(k.id, UINT64_MAX);
  }

  ghost predicate KeepsText(sc: Schema, m: Message) {
    ReadsBack(sc.rt, m, FieldsOf(sc, m.typeName))
  }

  /** A whole message that reads back can be stored. */
  lemma ReadsBackStorable(sc: Schema, m: Message)
    requires PoolOk(sc.pool) && IsMessage(sc, m) && Whole(sc, m) && KeepsText(sc, m)
    ensures Storable(sc, m)
  {
    var fields := FieldsOf(sc, m.typeName);
    ReadLineIs(sc.rt, m, fields, Written(sc, m));
    hide TextOf, ReadLine, ReadValue, Typed, CString;
    forall f | f in fields ensures f.presence == Optional && TextOf(sc.rt, m, fields, f.name).Some? {
      FindFieldSelf(fields, f);
      FieldNamesIn(fields, f);
      assert f.name in Written(sc, m);
    }
  }

  /** A new row reads as the message that was inserted exactly when that has every field set and reads
      back. */
  lemma NewRowReads(sc: Schema, m: Message)
    requires SchemaOk(sc) && IsMessage(sc, m) && Storable(sc, m)
    ensures var line := Blank(sc, m.typeName) + Written(sc, m);
      ReadLine(sc.rt, m.typeName, FieldsOf(sc, m.typeName), line) == Some(m) <==> Whole(sc, m) && KeepsText(sc, m)
  {
    var blank, fields := Blank(sc, m.typeName), FieldsOf(sc, m.typeName);
    assert blank.Keys == FieldNames(fields) by { assert LineOk(sc, Key(0, m.typeName), blank); }
    WrittenKeys(sc, m);
    TypedNames(sc, m, m.typeName);
    ReadLineIs(sc.rt, m, fields, blank + Written(sc, m));
    hide SchemaOk, ReadOf, ReadLine, Written, Typed, Storable;
    if Whole(sc, m) {
      WriteWhole(sc, blank, m);
    }
  }
}
