/** The shortfalls at one table of players: a 32-bit id that may be negative, and a name of any bytes. */
module Instances {
  import opened Wrappers
  import opened Decimal
  import opened Messages
  import opened Columns
  import opened CacheModel
  import opened Lines
  import opened WriteThrough
  import opened Coherence
  import opened Shortfalls
  import opened Serializer
  import opened Statements
  import opened Placeholders
  import Bits

  const NAME := "player_base"
  const FIELDS := [Field("id", Int32, Optional), Field("name", Kind.Text, Optional)]
  const POOL := map[NAME := Descriptor(FIELDS, "id")]

  function Player(id: int, name: string): Message {
    Message(NAME, map["id" := IntValue(id), "name" := TextValue(name)])
  }

  function PlayerLine(id: int, name: string): Line {
    map["id" := Print(id), "name" := name]
  }

  ghost function Players(given: Runtime): Schema {
    SchemaFor(POOL, given)
  }

  lemma PlayersTotal(given: Runtime)
    ensures Total(Players(given)) && Players(given).pool == POOL
  {
    hide Total;
    TotalSchemaExists(POOL, given);
  }

  lemma PlayerFields()
    ensures FindField(FIELDS, "id") == Some(FIELDS[0]) && FindField(FIELDS, "name") == Some(FIELDS[1])
    ensures FieldNames(FIELDS) == {"id", "name"}
  {
    assert FIELDS[0] in FIELDS && FIELDS[1] in FIELDS && FIELDS[1..][0] == FIELDS[1];
  }

  lemma PlayerIs(sc: Schema, id: int, name: string)
    requires sc.pool == POOL && INT32_MIN <= id <= INT32_MAX
    ensures var m := Player(id, name);
      Keyed(sc, NAME) && IsMessage(sc, m) && PrimaryId(sc, m) == Some(id) && Whole(sc, m)
  {
    hide FindField;
    PlayerFields();
  }

  lemma PlayerWrites(sc: Schema, id: int, name: string)
    requires sc.pool == POOL && INT32_MIN <= id <= INT32_MAX
    ensures Written(sc, Player(id, name)) == PlayerLine(id, name)
  {
    hide FindField, Print;
    PlayerFields();
    assert TextOf(sc.rt, Player(id, name), FIELDS, "id") == Some(Print(id));
    assert TextOf(sc.rt, Player(id, name), FIELDS, "name") == Some(name);
  }

  /** A player's row reads with its name cut at the first NUL. */
  lemma PlayerReads(rt: Runtime, id: int, name: string)
    requires INT32_MIN <= id <= INT32_MAX
    ensures ReadLine(rt, NAME, FIELDS, PlayerLine(id, name)) == Some(Player(id, CString(name)))
  {
    hide FindField, Print, ReadSigned;
    PrintPlain(id);
    ReadSignedInverse(id, INT32_MIN, INT32_MAX);
    PlayerFields();
    assert ReadOf(rt, FIELDS, Column("id", Print(id))) == Some(IntValue(id));
    assert ReadOf(rt, FIELDS, Column("name", name)) == Some(TextValue(CString(name)));
    ReadLineIs(rt, Player(id, CString(name)), FIELDS, PlayerLine(id, name));
  }

  /** A player reads back exactly when its name has no NUL. */
  lemma PlayerKeepsText(sc: Schema, id: int, name: string)
    requires sc.pool == POOL && INT32_MIN <= id <= INT32_MAX
    ensures KeepsText(sc, Player(id, name)) <==> '\0' !in name
  {
    hide ReadLine;
    PlayerWrites(sc, id, name);
    PlayerReads(sc.rt, id, name);
    if Player(id, CString(name)) == Player(id, name) {
      assert Player(id, CString(name)).fields["name"] == TextValue(name);
    }
  }

  // ---- A text with a NUL ----

  /** A new player is answered from the cache with the name as sent, and from the table with the name up to its
      first NUL. So inserting a player that has one is not safe. */
  lemma InsertCuts(given: Runtime, id: nat, name: string)
    requires id <= INT32_MAX
    ensures var sc, w, m := Players(given), World(EMPTY, map[]), Player(id, name);
      var k, w' := Key(id, NAME), OnInsert(sc, w, m);
      && PrimaryId(sc, m) == Some(id) && Reply(sc, w', k) == Some(m)
      && DbSelect(sc, DbInsert(sc, map[], k, m), k) == Some(Player(id, CString(name)))
      && (SafeInsert(sc, w, m) <==> '\0' !in name)
  {
    hide Players, Total, SchemaOk, IsMessage, PrimaryId, Storable, Whole, KeepsText, DbSelect, DbInsert, OnInsert;
    assert TableOk(Players(given), map[]);
    var sc, m := Players(given), Player(id, name);
    PlayersTotal(given);
    PlayerIs(sc, id, name);
    PlayerKeepsText(sc, id, name);
    NewPlayer(sc, id, name);
    TotalFacts(sc, m);
    InsertIsServed(sc, World(EMPTY, map[]), m);
  }

  lemma NewPlayer(sc: Schema, id: int, name: string)
    requires Total(sc) && sc.pool == POOL && INT32_MIN <= id <= INT32_MAX
    ensures var k := Key(id, NAME);
      && DbInsert(sc, map[], k, Player(id, name)) == map[k := PlayerLine(id, name)]
      && DbSelect(sc, map[k := PlayerLine(id, name)], k) == Some(Player(id, CString(name)))
  {
    hide Storable, IsMessage, Written, ReadLine, CodecOk, RuntimeOk, PoolOk;
    var m := Player(id, name);
    PlayerIs(sc, id, name);
    PlayerWrites(sc, id, name);
    PlayerReads(sc.rt, id, name);
    PlayerFields();
    TotalFacts(sc, m);
    WriteWhole(sc, Blank(sc, NAME), m) by {
      assert LineOk(sc, Key(0, NAME), Blank(sc, NAME));
    }
  }

  /** Two selects of a player and a flush leave the name in the table up to its first NUL only. So the second
      select is safe exactly when the name has none. */
  lemma RereadCuts(given: Runtime, id: nat, name: string, at: nat, period: nat)
    requires id <= INT32_MAX && at != 0
    ensures var sc, k, table := Players(given), Key(id, NAME), map[Key(id, NAME) := PlayerLine(id, name)];
      && FlushAll(sc, Reread(sc, World(EMPTY, table), k, at), period).table == map[k := PlayerLine(id, CString(name))]
      && (SafeSelect(sc, OnSelect(sc, World(EMPTY, table), k, at), {}, k) <==> '\0' !in name)
  {
    hide Players, Total, SchemaOk, IsMessage, PrimaryId, Storable, Whole, DbSelect, Reread, FlushAll, OnSelect, Written,
         SafeSelect, PlayerLine, OnlyRow, CString;
    var sc, k, table := Players(given), Key(id, NAME), map[Key(id, NAME) := PlayerLine(id, name)];
    var m := Player(id, CString(name));
    PlayersTotal(given);
    PlayerIs(sc, id, CString(name));
    PlayerWrites(sc, id, CString(name));
    NewPlayer(sc, id, name);
    TotalFacts(sc, m);
    PlayerTable(sc, id, name);
    ReadsAreWritten(sc, table, k, at, period, m);
    assert table[k := PlayerLine(id, CString(name))] == map[k := PlayerLine(id, CString(name))];
    FillOnly(sc, table, k, map[], 0, at, m);
    SafeOnly(sc, table, k, m);
    SameLine(id, name);
  }

  lemma SafeOnly(sc: Schema, table: Table, k: Key, m: Message)
    requires k in table && k.id >= 0
    ensures SafeSelect(sc, World(OnlyRow(k, Row(m, 0), map[], 0), table), {}, k)
      <==> Whole(sc, m) && table[k] == Written(sc, m)
  {
    hide Whole, Written;
  }

  lemma SameLine(id: int, name: string)
    ensures PlayerLine(id, name) == PlayerLine(id, CString(name)) <==> '\0' !in name
  {
    hide Print;
    if PlayerLine(id, name) == PlayerLine(id, CString(name)) {
      assert PlayerLine(id, name)["name"] == PlayerLine(id, CString(name))["name"];
    }
  }

  lemma PlayerTable(sc: Schema, id: int, name: string)
    requires sc.pool == POOL && INT32_MIN <= id <= INT32_MAX
    ensures TableOk(sc, map[Key(id, NAME) := PlayerLine(id, name)])
  {
    hide FindField, Print;
    PlayerFields();
    PlayerIs(sc, id, name);
  }

  // ---- A negative id ----

  /** The cache files a player with a negative id under a large number, and answers a select of that number with
      the player. The table has the row under the negative id, and answers that there is none. */
  lemma NegativeIdIsMissed(given: Runtime, id: int, name: string)
    requires INT32_MIN <= id < 0
    ensures var sc, w, m := Players(given), World(EMPTY, map[]), Player(id, name);
      var k, w' := Key(Bits.WORD + id, NAME), OnInsert(sc, w, m);
      && PrimaryId(sc, m) == Some(id) && Reply(sc, w', k) == Some(m)
      && Key(id, NAME) in w'.table && DbSelect(sc, w'.table, k) == Some(EmptyRow(k))
      && !SafeInsert(sc, w, m)
  {
    hide Players, Total, SchemaOk, IsMessage, PrimaryId, Storable, Whole, KeepsText, DbSelect, DbInsert;
    var sc, w, m := Players(given), World(EMPTY, map[]), Player(id, name);
    assert TableOk(sc, map[]);
    PlayersTotal(given);
    PlayerIs(sc, id, name);
    NewPlayer(sc, id, name);
    TotalFacts(sc, m);
    InsertIsServed(sc, w, m);
    AbsentIsEmpty(sc, map[Key(id, NAME) := PlayerLine(id, name)], Key(Bits.WORD + id, NAME));
  }

  // ---- One row ----

  /** A player that is stored without a name, or with one that has a NUL, is another player when it is read. */
  lemma RowsLose(rt: Runtime, id: int, name: string, blank: string)
    requires INT32_MIN <= id <= INT32_MAX && '\0' in name
    ensures var empty := Message(NAME, map[]);
      && SetAll(rt, empty, FIELDS, Handed([Column("id", Print(id)), Column("name", name)]))
           == Some(Player(id, CString(name))) != Some(Player(id, name))
      && SetAll(rt, empty, FIELDS, Handed([Column("id", Print(id)), Column("name", blank)]))
           == Some(Player(id, CString(blank))) != Some(Message(NAME, map["id" := IntValue(id)]))
  {
    assert "name" in Player(id, CString(blank)).fields;
    RowReads(rt, id, name);
    RowReads(rt, id, blank);
    assert Player(id, name).fields["name"] != Player(id, CString(name)).fields["name"];
  }

  lemma RowReads(rt: Runtime, id: int, name: string)
    requires INT32_MIN <= id <= INT32_MAX
    ensures SetAll(rt, Message(NAME, map[]), FIELDS, Handed([Column("id", Print(id)), Column("name", name)]))
         == Some(Player(id, CString(name)))
  {
    hide FindField, Print, ReadSigned, SetAll, Handed;
    var row, line := [Column("id", Print(id)), Column("name", name)], PlayerLine(id, name);
    forall c ensures c in row <==> c.name in line && line[c.name] == c.text {
    }
    SelectReadsLine(rt, NAME, FIELDS, line, row);
    PlayerReads(rt, id, name);
  }

  // ---- Statements ----

  /** The statement that updates a player, word by word. */
  lemma PlayerStatement(rt: Runtime, e: Escaper, id: int, name: string)
    requires INT32_MIN <= id <= INT32_MAX
    ensures Held(Player(id, name), FIELDS)
    ensures var i, n := Print(id), "'" + Escape(e, name) + "'";
      Statement(e, NAME, ColumnsOf(rt, Player(id, name), FIELDS)) ==
        "insert into " + "player_base" + ("(" + ("id" + "," + "name") + ") values (" + (i + "," + n) + ")") +
        " on duplicate key update " + ("id" + "=" + i + "," + ("name" + "=" + n))
  {
    hide Print, Escape, ItemsOf, PrintItems, PrintItem, PrintLiteral, ColumnsOf;
    var infos := [FieldInfo("id", Print(id), false), FieldInfo("name", name, true)];
    PlayerColumns(rt, id, name);
    PlayerItems(e, infos);
  }

  lemma PlayerItems(e: Escaper, infos: seq<FieldInfo>)
    requires |infos| == 2 && !infos[0].isText && infos[1].isText
    ensures PrintItems(e, ItemsOf(AsName, infos)) == infos[0].name + "," + infos[1].name
    ensures PrintItems(e, ItemsOf(AsLiteral, infos)) == infos[0].value + "," + ("'" + Escape(e, infos[1].value) + "'")
    ensures PrintItems(e, ItemsOf(AsAssign, infos))
         == infos[0].name + "=" + infos[0].value + "," + (infos[1].name + "=" + ("'" + Escape(e, infos[1].value) + "'"))
  {
    hide Escape;
    TwoItems(e, AsName, infos);
    TwoItems(e, AsLiteral, infos);
    TwoItems(e, AsAssign, infos);
  }

  lemma TwoItems(e: Escaper, form: Form, infos: seq<FieldInfo>)
    requires |infos| == 2
    ensures PrintItems(e, ItemsOf(form, infos))
         == PrintItem(e, ItemOf(form, infos[0])) + "," + PrintItem(e, ItemOf(form, infos[1]))
  {
    hide PrintItem;
    var items := ItemsOf(form, infos);
    assert items[1..] == [items[1]];
  }

  lemma PlayerColumns(rt: Runtime, id: int, name: string)
    requires INT32_MIN <= id <= INT32_MAX
    ensures Held(Player(id, name), FIELDS)
    ensures ColumnsOf(rt, Player(id, name), FIELDS)
         == [FieldInfo("id", Print(id), false), FieldInfo("name", name, true)]
  {
    hide Print;
    var m := Player(id, name);
    assert FIELDS[1..] == [FIELDS[1]] && FIELDS[1..][1..] == [];
    assert ColumnsOf(rt, m, FIELDS[1..]) == [FieldInfo("name", name, true)];
  }

  function Same(s: string): string {
    s
  }

  /** The query for a player, and the one with an argument too many. */
  lemma PlayerQuery(id: int)
    ensures QueryText(NAME, FillInTurn("id=" + "{0}", Numbered([Print(id)], Same, 0)))
         == Ok("select * from " + "player_base" + (" where " + ("id=" + Print(id))))
    ensures QueryText(NAME, FillInTurn("id=" + "{0}", Numbered([Print(id), "x"], Same, 0))) == Err(4)
  {
    hide Print, FillInTurn, Numbered, Find, Render, FillAtOnce;
    var t := [Piece.Text("id="), Hole(0)];
    PrintPlain(id);
    PlayerTemplate();
    PlayerClause(id);
    QueryOutcome(t, [Print(id)], Same);
    QueryOutcome(t, [Print(id), "x"], Same);
    assert Hole(0) in t && !(Hole(1) in t);
    assert Same([Print(id), "x"][1]) == "x";
  }

  lemma PlayerTemplate()
    ensures Render([Piece.Text("id="), Hole(0)]) == "id=" + "{0}" && IsTemplate([Piece.Text("id="), Hole(0)])
  {
    var t := [Piece.Text("id="), Hole(0)];
    assert t[1..] == [Hole(0)] && t[1..][1..] == [] && Digits(0) == "0";
    assert Render(t[1..]) == "{0}";
  }

  lemma PlayerClause(id: int)
    ensures Render(FillAtOnce([Piece.Text("id="), Hole(0)], ArgTexts([Print(id)], Same))) == "id=" + Print(id)
  {
    hide Print;
    var t, texts, p := [Piece.Text("id="), Hole(0)], ArgTexts([Print(id)], Same), Piece.Text(Print(id));
    assert t[1..] == [Hole(0)] && t[1..][1..] == [] && 0 in texts && texts[0] == Print(id);
    assert FillAtOnce(t[1..], texts) == [p];
    var filled := FillAtOnce(t, texts);
    assert filled == [t[0], p] && filled[1..] == [p] && filled[1..][1..] == [];
    assert Render([p]) == Print(id);
  }
}
