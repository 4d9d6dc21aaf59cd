/** The insert-or-update statement of a message, and a reader that takes it apart again. */
module Statements {
  import opened Wrappers
  import opened Decimal
  import opened Messages
  import opened Columns

  /** A backslash escaping: each character of `codes` is written as a backslash and its code. */
  datatype Escaper = Escaper(codes: map<char, char>, decodes: map<char, char>)

  /** Quote and backslash are escaped, and codes can be undone. */
  ghost predicate Escapes(e: Escaper) {
    && '\'' in e.codes && '\\' in e.codes
    && forall c :: c in e.codes ==> e.codes[c] in e.decodes && e.decodes[e.codes[c]] == c
  }

  function Escape(e: Escaper, s: string): string {
    if s == [] then []
    else (if s[0] in e.codes then ['\\', e.codes[s[0]]] else [s[0]]) + Escape(e, s[1..])
  }

  // ---- Printing ----

  /** What stands between two commas: a column name, a value, or `name=value`. */
  datatype Item =
    | Name(name: string)
    | Literal(isText: bool, text: string)
    | Assign(target: string, isText: bool, text: string)

  function PrintLiteral(e: Escaper, isText: bool, text: string): string {
    if isText then "'" + Escape(e, text) + "'" else text
  }

  function PrintItem(e: Escaper, item: Item): string {
    match item
    case Name(name) => name
    case Literal(isText, text) => PrintLiteral(e, isText, text)
    case Assign(target, isText, text) => target + "=" + PrintLiteral(e, isText, text)
  }

  function PrintItems(e: Escaper, items: seq<Item>): string {
    if items == [] then ""
    else if |items| == 1 then PrintItem(e, items[0])
    else PrintItem(e, items[0]) + "," + PrintItems(e, items[1..])
  }

  datatype Form = AsName | AsLiteral | AsAssign

  function ItemOf(form: Form, info: FieldInfo): Item {
    match form
    case AsName => Name(info.name)
    case AsLiteral => Literal(info.isText, info.value)
    case AsAssign => Assign(info.name, info.isText, info.value)
  }

  function ItemsOf(form: Form, infos: seq<FieldInfo>): (items: seq<Item>)
    ensures |items| == |infos| && forall i :: 0 <= i < |infos| ==> items[i] == ItemOf(form, infos[i])
  {
    seq(|infos|, i requires 0 <= i < |infos| => ItemOf(form, infos[i]))
  }

  const INSERT := "insert into "
  const VALUES := ") values ("
  const UPDATE := " on duplicate key update "

  ghost function Statement(e: Escaper, table: string, infos: seq<FieldInfo>): string {
    INSERT + table + InsertClause(e, infos) + UPDATE + PrintItems(e, ItemsOf(AsAssign, infos))
  }

  ghost function InsertClause(e: Escaper, infos: seq<FieldInfo>): string {
    "(" + PrintItems(e, ItemsOf(AsName, infos)) + VALUES + PrintItems(e, ItemsOf(AsLiteral, infos)) + ")"
  }

  method BuildStatement(e: Escaper, table: string, infos: seq<FieldInfo>) returns (sql: string)
    ensures sql == Statement(e, table, infos)
  {
    var insertClause := BuildInsertClause(e, infos);
    var updateClause := BuildUpdateClause(e, infos);
    sql := "insert into " + table + insertClause + " on duplicate key update " + updateClause;
  }

  method BuildInsertClause(e: Escaper, infos: seq<FieldInfo>) returns (clause: string)
    ensures clause == InsertClause(e, infos)
  {
    clause := AppendColumns(e, "(", infos);
    clause := clause + ") values (";
    clause := AppendValues(e, clause, infos);
    clause := clause + ")";
  }

  /** The first loop appends the columns. */
  method AppendColumns(e: Escaper, clause: string, infos: seq<FieldInfo>) returns (longer: string)
    ensures longer == clause + PrintItems(e, ItemsOf(AsName, infos))
  {
    longer := clause;
    for i := 0 to |infos|
      invariant longer == clause + PrintItems(e, ItemsOf(AsName, infos[..i]))
    {
      PrintOneMore(e, AsName, infos, i);
      if i != 0 {
        longer := longer + ",";
      }
      longer := longer + infos[i].name;
    }
    assert infos[..|infos|] == infos;
  }

  /** The second loop appends the values. */
  method AppendValues(e: Escaper, clause: string, infos: seq<FieldInfo>) returns (longer: string)
    ensures longer == clause + PrintItems(e, ItemsOf(AsLiteral, infos))
  {
    longer := clause;
    for i := 0 to |infos|
      invariant longer == clause + PrintItems(e, ItemsOf(AsLiteral, infos[..i]))
    {
      PrintOneMore(e, AsLiteral, infos, i);
      if i != 0 {
        longer := longer + ",";
      }
      longer := AppendLiteral(e, longer, infos[i]);
    }
    assert infos[..|infos|] == infos;
  }

  /** The third loop appends the assignments. */
  method BuildUpdateClause(e: Escaper, infos: seq<FieldInfo>) returns (clause: string)
    ensures clause == PrintItems(e, ItemsOf(AsAssign, infos))
  {
    clause := "";
    for i := 0 to |infos|
      invariant clause == PrintItems(e, ItemsOf(AsAssign, infos[..i]))
    {
      PrintOneMore(e, AsAssign, infos, i);
      if i != 0 {
        clause := clause + ",";
      }
      clause := clause + infos[i].name;
      clause := clause + "=";
      clause := AppendLiteral(e, clause, infos[i]);
    }
    assert infos[..|infos|] == infos;
  }

  method AppendLiteral(e: Escaper, clause: string, info: FieldInfo) returns (longer: string)
    ensures longer == clause + PrintLiteral(e, info.isText, info.value)
  {
    if info.isText {
      longer := clause + "'";
      longer := longer + Escape(e, info.value);
      longer := longer + "'";
    } else {
      longer := clause + info.value;
    }
  }

  lemma PrintOneMore(e: Escaper, form: Form, infos: seq<FieldInfo>, i: nat)
    requires i < |infos|
    ensures PrintItems(e, ItemsOf(form, infos[..i + 1]))
         == PrintItems(e, ItemsOf(form, infos[..i])) + (if i == 0 then "" else ",")
             + PrintItem(e, ItemOf(form, infos[i]))
  {
    assert ItemsOf(form, infos[..i + 1]) == ItemsOf(form, infos[..i]) + [ItemOf(form, infos[i])];
    PrintItemsAppend(e, ItemsOf(form, infos[..i]), ItemOf(form, infos[i]));
  }

  lemma {:induction false} PrintItemsAppend(e: Escaper, items: seq<Item>, item: Item)
    ensures PrintItems(e, items + [item])
         == PrintItems(e, items) + (if items == [] then "" else ",") + PrintItem(e, item)
  {
    if items == [] {
      assert items + [item] == [item];
    } else {
      assert (items + [item])[1..] == items[1..] + [item];
      PrintItemsAppend(e, items[1..], item);
    }
  }

  // ---- Reading ----

  predicate IsTokenChar(c: char) {
    c !in ",()'= "
  }

  predicate IsToken(s: string) {
    s != [] && forall i :: 0 <= i < |s| ==> IsTokenChar(s[i])
  }

  datatype Taken<T> = Taken(value: T, rest: string)

  function ReadToken(s: string): (r: Taken<string>)
    ensures |r.rest| <= |s|
  {
    if s == [] || !IsTokenChar(s[0]) then Taken([], s)
    else var r := ReadToken(s[1..]); Taken([s[0]] + r.value, r.rest)
  }

  /** The text up to the closing quote. */
  function ReadQuoted(e: Escaper, s: string): (r: Option<Taken<string>>)
    ensures r.Some? ==> |r.value.rest| < |s|
  {
    if s == [] then None
    else if s[0] == '\'' then Some(Taken([], s[1..]))
    else
      var width := if s[0] == '\\' then 2 else 1;
      if |s| < width || (width == 2 && s[1] !in e.decodes) then None
      else
        var r :- ReadQuoted(e, s[width..]);
        Some(Taken([if width == 2 then e.decodes[s[1]] else s[0]] + r.value, r.rest))
  }

  function ReadLiteral(e: Escaper, s: string): (r: Option<Taken<Item>>)
    ensures r.Some? ==> |r.value.rest| <= |s|
  {
    if s != [] && s[0] == '\'' then
      var r :- ReadQuoted(e, s[1..]);
      Some(Taken(Literal(true, r.value), r.rest))
    else
      var r := ReadToken(s);
      if r.value == [] then None else Some(Taken(Literal(false, r.value), r.rest))
  }

  function ReadItem(e: Escaper, form: Form, s: string): (r: Option<Taken<Item>>)
    ensures r.Some? ==> |r.value.rest| <= |s|
  {
    match form
    case AsLiteral => ReadLiteral(e, s)
    case AsName =>
      var t := ReadToken(s);
      if t.value == [] then None else Some(Taken(Name(t.value), t.rest))
    case AsAssign =>
      var t := ReadToken(s);
      if t.value == [] || t.rest == [] || t.rest[0] != '=' then None
      else
        var r :- ReadLiteral(e, t.rest[1..]);
        Some(Taken(Assign(t.value, r.value.isText, r.value.text), r.rest))
  }

  function ReadItems(e: Escaper, form: Form, s: string): (r: Option<Taken<seq<Item>>>)
    decreases |s|
  {
    var first :- ReadItem(e, form, s);
    if first.rest == [] || first.rest[0] != ',' then Some(Taken([first.value], first.rest))
    else
      var others :- ReadItems(e, form, first.rest[1..]);
      Some(Taken([first.value] + others.value, others.rest))
  }

  function Skip(word: string, s: string): Option<string> {
    if word <= s then Some(s[|word|..]) else None
  }

  datatype Read = Read(table: string, names: seq<Item>, values: seq<Item>, updates: seq<Item>)

  function ReadStatement(e: Escaper, sql: string): Option<Read> {
    var s :- Skip(INSERT, sql);
    var table := ReadToken(s);
    var s :- Skip("(", table.rest);
    var names :- ReadItems(e, AsName, s);
    var s :- Skip(VALUES, names.rest);
    var values :- ReadItems(e, AsLiteral, s);
    var s :- Skip(")" + UPDATE, values.rest);
    var updates :- ReadItems(e, AsAssign, s);
    if updates.rest != [] then None
    else Some(Read(table.value, names.value, values.value, updates.value))
  }

  // ---- Reading undoes printing ----

  /** Ends a token. */
  predicate Stops(s: string) {
    s == [] || !IsTokenChar(s[0])
  }

  lemma {:induction false} ReadTokenBack(t: string, rest: string)
    requires Stops(rest) && forall i :: 0 <= i < |t| ==> IsTokenChar(t[i])
    ensures ReadToken(t + rest) == Taken(t, rest)
  {
    if t == [] {
      assert t + rest == rest;
    } else {
      assert (t + rest)[1..] == t[1..] + rest && t == [t[0]] + t[1..];
      ReadTokenBack(t[1..], rest);
    }
  }

  lemma {:induction false} ReadQuotedBack(e: Escaper, text: string, rest: string)
    requires Escapes(e)
    ensures ReadQuoted(e, Escape(e, text) + ("'" + rest)) == Some(Taken(text, rest))
  {
    var tail := "'" + rest;
    if text == [] {
      assert Escape(e, text) + tail == tail;
    } else {
      var c := text[0];
      assert text == [c] + text[1..];
      var code := if c in e.codes then ['\\', e.codes[c]] else [c];
      assert Escape(e, text) + tail == code + (Escape(e, text[1..]) + tail);
      ReadQuotedBack(e, text[1..], rest);
      assert (code + (Escape(e, text[1..]) + tail))[|code|..] == Escape(e, text[1..]) + tail;
    }
  }

  lemma ReadLiteralBack(e: Escaper, isText: bool, text: string, rest: string)
    requires Escapes(e) && Stops(rest) && (isText || IsToken(text))
    ensures ReadLiteral(e, PrintLiteral(e, isText, text) + rest) == Some(Taken(Literal(isText, text), rest))
  {
    hide ReadQuoted, ReadToken, Escape, Escapes;
    var s := PrintLiteral(e, isText, text) + rest;
    if isText {
      ReadQuotedBack(e, text, rest);
      assert s[1..] == Escape(e, text) + ("'" + rest);
    } else {
      ReadTokenBack(text, rest);
    }
  }

  ghost predicate Readable(info: FieldInfo) {
    IsToken(info.name) && (info.isText || IsToken(info.value))
  }

  lemma ReadItemBack(e: Escaper, form: Form, info: FieldInfo, rest: string)
    requires Escapes(e) && Readable(info) && Stops(rest)
    ensures ReadItem(e, form, PrintItem(e, ItemOf(form, info)) + rest) == Some(Taken(ItemOf(form, info), rest))
  {
    match form
    case AsName => ReadTokenBack(info.name, rest);
    case AsLiteral => ReadLiteralBack(e, info.isText, info.value, rest);
    case AsAssign =>
      var value := PrintLiteral(e, info.isText, info.value) + rest;
      assert PrintItem(e, ItemOf(form, info)) + rest == info.name + ("=" + value);
      ReadTokenBack(info.name, "=" + value);
      ReadLiteralBack(e, info.isText, info.value, rest);
  }

  lemma {:induction false} ReadItemsBack(e: Escaper, form: Form, infos: seq<FieldInfo>, rest: string)
    requires Escapes(e) && infos != [] && forall info :: info in infos ==> Readable(info)
    requires Stops(rest) && (rest == [] || rest[0] != ',')
    ensures ReadItems(e, form, PrintItems(e, ItemsOf(form, infos)) + rest) == Some(Taken(ItemsOf(form, infos), rest))
  {
    hide ReadItem, PrintItem, ItemOf, Escapes, Readable;
    var item := ItemOf(form, infos[0]);
    if |infos| == 1 {
      ReadItemBack(e, form, infos[0], rest);
      assert ItemsOf(form, infos) == [item];
    } else {
      var others := PrintItems(e, ItemsOf(form, infos[1..])) + rest;
      assert ItemsOf(form, infos)[1..] == ItemsOf(form, infos[1..]);
      assert PrintItems(e, ItemsOf(form, infos)) + rest == PrintItem(e, item) + ("," + others);
      ReadItemBack(e, form, infos[0], "," + others);
      ReadItemsBack(e, form, infos[1..], rest);
      assert ("," + others)[1..] == others;
      assert ItemsOf(form, infos) == [item] + ItemsOf(form, infos[1..]);
    }
  }

  /** Whatever commas, quotes or parentheses the quoted values hold, the generated statement reads back as
      its table, its columns, its values and its assignments, each in order. */
  lemma StatementReadsBack(e: Escaper, table: string, infos: seq<FieldInfo>)
    requires Escapes(e) && IsToken(table) && infos != [] && forall info :: info in infos ==> Readable(info)
    ensures ReadStatement(e, Statement(e, table, infos))
         == Some(Read(table, ItemsOf(AsName, infos), ItemsOf(AsLiteral, infos), ItemsOf(AsAssign, infos)))
  {
    hide ReadItems, ReadToken, PrintItems, ItemsOf, Escapes, Readable;
    var updates := PrintItems(e, ItemsOf(AsAssign, infos));
    var s3 := ")" + UPDATE + updates;
    var s2 := PrintItems(e, ItemsOf(AsLiteral, infos)) + s3;
    var s1 := VALUES + s2;
    var s0 := "(" + (PrintItems(e, ItemsOf(AsName, infos)) + s1);
    var sql := Statement(e, table, infos);
    assert sql == INSERT + (table + s0);
    assert Skip(INSERT, sql) == Some(table + s0);
    ReadTokenBack(table, s0);
    assert Skip("(", s0) == Some(PrintItems(e, ItemsOf(AsName, infos)) + s1);
    ReadItemsBack(e, AsName, infos, s1);
    assert Skip(VALUES, s1) == Some(s2);
    ReadItemsBack(e, AsLiteral, infos, s3);
    assert Skip(")" + UPDATE, s3) == Some(updates);
    ReadItemsBack(e, AsAssign, infos, []);
    assert updates + [] == updates;
  }

  /** So two different updates never give the same statement. */
  lemma StatementInjective(e: Escaper, table: string, infos: seq<FieldInfo>, table': string, infos': seq<FieldInfo>)
    requires Escapes(e) && IsToken(table) && IsToken(table') && infos != [] && infos' != []
    requires forall info :: info in infos + infos' ==> Readable(info)
    requires Statement(e, table, infos) == Statement(e, table', infos')
    ensures table == table' && infos == infos'
  {
    StatementReadsBack(e, table, infos);
    StatementReadsBack(e, table', infos');
    forall i | 0 <= i < |infos| ensures infos[i] == infos'[i] {
      assert ItemsOf(AsAssign, infos)[i] == ItemsOf(AsAssign, infos')[i];
    }
  }

  /** The columns that the update part of a statement assigns. */
  function Assigned(updates: seq<Item>): seq<Column>
    requires forall item :: item in updates ==> item.Assign?
  {
    if updates == [] then []
    else
      assert updates[0] in updates && forall item :: item in updates[1..] ==> item in updates;
      [Column(updates[0].target, updates[0].text)] + Assigned(updates[1..])
  }

  lemma {:induction false} AssignedColumns(infos: seq<FieldInfo>)
    ensures forall item :: item in ItemsOf(AsAssign, infos) ==> item.Assign?
    ensures Assigned(ItemsOf(AsAssign, infos)) == AsColumns(infos)
  {
    if infos != [] {
      AssignedColumns(infos[1..]);
      assert ItemsOf(AsAssign, infos)[1..] == ItemsOf(AsAssign, infos[1..]);
    }
  }

  lemma {:induction false} ColumnsReadable(rt: Runtime, m: Message, fields: seq<Field>)
    requires Held(m, fields)
    requires forall f :: f in fields ==> IsToken(f.name) && f.kind != Double && f.kind != Float
    ensures forall info :: info in ColumnsOf(rt, m, fields) ==> Readable(info)
  {
    if fields != [] {
      var f := fields[0];
      assert f in fields && forall g :: g in fields[1..] ==> g in fields;
      ColumnsReadable(rt, m, fields[1..]);
      if f.name in m.fields && m.fields[f.name].IntValue? {
        PrintPlain(m.fields[f.name].i);
      }
    }
  }

  /** The statement carries the whole message: taking it apart and storing what it assigns in an empty
      message gives the message back. */
  lemma StatementCarriesMessage(rt: Runtime, e: Escaper, table: string, m: Message, fields: seq<Field>)
    requires Escapes(e) && IsToken(table) && RoundTrips(rt, m, fields) && ColumnsOf(rt, m, fields) != []
    requires forall f :: f in fields ==> IsToken(f.name)
    ensures var r := ReadStatement(e, Statement(e, table, ColumnsOf(rt, m, fields)));
      && r.Some? && r.value.table == table
      && (forall item :: item in r.value.updates ==> item.Assign?)
      && SetAll(rt, Message(m.typeName, map[]), fields, Assigned(r.value.updates)) == Some(m)
  {
    var infos := ColumnsOf(rt, m, fields);
    ColumnsReadable(rt, m, fields);
    StatementReadsBack(e, table, infos);
    AssignedColumns(infos);
    ColumnsRebuild(rt, m, fields, AsColumns(infos));
  }
}
