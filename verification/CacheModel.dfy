/** The write-back row cache as values: resident rows, the map of dirty caches, and the table behind. */
module CacheModel {
  import opened Wrappers
  import opened Decimal
  import opened Messages
  import opened Columns
  import Bits

  // ---- Messages and their serialized form ----

  datatype Codec = Codec(serialize: Message -> Option<string>, parse: (string, string) -> Option<Message>)

  /** The message types of the tables, with what a new row of each holds in the columns that its
      statement does not name; the serializer of rows; and the library that makes texts of fields. */
  datatype Schema = Schema(pool: map<string, Descriptor>, blank: map<string, Line>, codec: Codec, rt: Runtime)

  function FieldsOf(sc: Schema, name: string): seq<Field> {
    if name in sc.pool then sc.pool[name].fields else []
  }

  function Blank(sc: Schema, name: string): Line {
    if name in sc.blank then sc.blank[name] else map[]
  }

  /** Names are unique and not empty, no field is repeated (the setters that the field copy uses abort on
      a repeated field), a new row has every column and zero for its key, and what is serialized parses
      back. */
  ghost predicate SchemaOk(sc: Schema) {
    && PoolOk(sc.pool)
    && (forall name :: name in sc.pool ==> LineOk(sc, Key(0, name), Blank(sc, name)))
    && CodecOk(sc.codec) && RuntimeOk(sc.rt)
  }

  /** A nested text parses to a message of the field's type. */
  ghost predicate RuntimeOk(rt: Runtime) {
    forall how, name, text :: rt.parse(how, name, text).Some? ==> rt.parse(how, name, text).value.typeName == name
  }

  ghost predicate PoolOk(pool: map<string, Descriptor>) {
    && "" !in pool
    && (forall name :: name in pool ==> DistinctNames(pool[name].fields))
    && (forall name, f :: name in pool && f in pool[name].fields ==> f.presence != Repeated)
  }

  ghost predicate CodecOk(codec: Codec) {
    forall m :: codec.serialize(m).Some? ==> codec.parse(m.typeName, codec.serialize(m).value) == Some(m)
  }

  /** A message of a known type. */
  ghost predicate IsMessage(sc: Schema, m: Message) {
    m.typeName in sc.pool && Typed(m, FieldsOf(sc, m.typeName))
  }

  function FieldNames(fields: seq<Field>): set<string> {
    set f | f in fields :: f.name
  }

  predicate Copyable(fields: seq<Field>) {
    forall f :: f in fields ==> f.kind != Other
  }

  /** The message with every field set: an unset one gets its default. */
  function Filled(m: Message, fields: seq<Field>): (filled: Message)
    requires Copyable(fields)
    ensures filled.typeName == m.typeName
  {
    Message(m.typeName, map name | name in FieldNames(fields) :: ValueOf(m, NamedField(fields, name)))
  }

  function NamedField(fields: seq<Field>, name: string): (f: Field)
    requires name in FieldNames(fields)
    ensures f in fields && f.name == name
  {
    FindField(fields, name).value
  }

  ghost predicate Whole(sc: Schema, m: Message) {
    m.fields.Keys == FieldNames(FieldsOf(sc, m.typeName))
  }

  predicate IsInteger(kind: Kind) {
    kind == Int32 || kind == UInt32 || kind == Int64 || kind == UInt64
  }

  function PrimaryField(sc: Schema, name: string): Option<Field> {
    if name in sc.pool then FindField(sc.pool[name].fields, sc.pool[name].primaryKey) else None
  }

  /** The primary key value; missing when the type has no integer key. */
  function PrimaryId(sc: Schema, m: Message): Option<int> {
    var f :- PrimaryField(sc, m.typeName);
    if IsInteger(f.kind) && ValueOf(m, f).IntValue? then Some(ValueOf(m, f).i) else None
  }

  // ---- The table ----

  /** The cache and the commands that name a row know ids as unsigned 64-bit numbers, the table has signed
      ones. */
  datatype Key = Key(id: int, name: string)

  type Table = map<Key, Line>

  /** A row has every column of its type, and its own key in the key column. */
  ghost predicate LineOk(sc: Schema, k: Key, line: Line) {
    && line.Keys == FieldNames(FieldsOf(sc, k.name))
    && (Keyed(sc, k.name) ==>
          var f := PrimaryField(sc, k.name).value;
          HasKind(IntValue(k.id), f.kind) && f.name in line && line[f.name] == Print(k.id))
  }

  ghost predicate TableOk(sc: Schema, table: Table) {
    forall k :: k in table ==> Keyed(sc, k.name) && LineOk(sc, k, table[k])
  }

  function EmptyRow(k: Key): Message {
    Message(k.name, map[])
  }

  /** What a select answers: what the columns of the row read as, if they can all be read, or an empty message
      when there is no row. */
  function DbSelect(sc: Schema, table: Table, k: Key): Option<Message> {
    if k in table then ReadLine(sc.rt, k.name, FieldsOf(sc, k.name), table[k]) else Some(EmptyRow(k))
  }

  /** The columns that a message is written to. */
  function Written(sc: Schema, m: Message): Line {
    LineOf(sc.rt, m, FieldsOf(sc, m.typeName))
  }

  /** A statement can be made of the message: every field is optional, and each set one has a text. */
  predicate Storable(sc: Schema, m: Message) {
    var fields := FieldsOf(sc, m.typeName);
    forall f :: f in fields ==>
      f.presence == Optional && (f.name in m.fields ==> TextOf(sc.rt, m, fields, f.name).Some?)
  }

  /** Insert-or-update writes the columns of the set fields only; a new row has defaults in the others. With
      no field set the statement is not well-formed. */
  function DbUpdate(sc: Schema, table: Table, k: Key, m: Message): Table {
    if !Storable(sc, m) || m.fields == map[] then table
    else table[k := (if k in table then table[k] else Blank(sc, k.name)) + Written(sc, m)]
  }

  /** An insert fails on an existing key. */
  function DbInsert(sc: Schema, table: Table, k: Key, m: Message): Table {
    if !Storable(sc, m) || k in table then table else table[k := Blank(sc, k.name) + Written(sc, m)]
  }

  /** The rows of a type that a condition on rows selects; missing when one of them cannot be read. */
  function DbQuery(sc: Schema, table: Table, name: string, p: Line -> bool): Option<map<Key, Message>> {
    if forall k :: k in table && k.name == name && p(table[k]) ==> DbSelect(sc, table, k).Some? then
      Some(map k | k in table && k.name == name && p(table[k]) :: DbSelect(sc, table, k).value)
    else None
  }

  // ---- The cache ----

  /** `time` is when the row was last overwritten in the cache; 0 for never. */
  datatype Row = Row(message: Message, time: nat)

  type Rows = map<string, Row>

  /** An entry of the dirty map: the same cache object as the resident one, or an object that is not
      resident any more. */
  datatype Slot = Same | Stale(rows: Rows)

  datatype Cache = Cache(resident: map<nat, Rows>, dirty: map<nat, Slot>, lastWriteback: nat)

  const EMPTY := Cache(map[], map[], 0)

  predicate IsCached(c: Cache, k: Key) {
    k.id in c.resident && k.name in c.resident[k.id]
  }

  function RowAt(c: Cache, k: Key): Row
    requires IsCached(c, k)
  {
    c.resident[k.id][k.name]
  }

  /** The rows of the cache object in the dirty map. */
  function SlotRows(c: Cache, id: nat): Rows
    requires id in c.dirty
  {
    match c.dirty[id]
    case Same => if id in c.resident then c.resident[id] else map[]
    case Stale(rows) => rows
  }

  /** Where a message is in the table. */
  function RowKey(sc: Schema, m: Message): Key
    requires PrimaryId(sc, m).Some?
  {
    Key(PrimaryId(sc, m).value, m.typeName)
  }

  /** Where it is in the cache. */
  function KeyOf(sc: Schema, m: Message): Key
    requires PrimaryId(sc, m).Some?
  {
    Key(PrimaryId(sc, m).value % Bits.WORD, m.typeName)
  }

  /** A row is typed; an overwritten one is whole and has a primary key. */
  ghost predicate RowOk(sc: Schema, name: string, row: Row) {
    && IsMessage(sc, row.message) && row.message.typeName == name
    && (row.time != 0 ==> Whole(sc, row.message) && PrimaryId(sc, row.message).Some?)
  }

  /** The type has an integer primary key. */
  predicate Keyed(sc: Schema, name: string) {
    PrimaryField(sc, name).Some? && IsInteger(PrimaryField(sc, name).value.kind)
  }

  lemma FieldNamesIn(fields: seq<Field>, f: Field)
    requires f in fields
    ensures f.name in FieldNames(fields)
  {
  }

  lemma FilledOk(sc: Schema, m: Message)
    requires SchemaOk(sc) && IsMessage(sc, m) && Copyable(FieldsOf(sc, m.typeName))
    ensures var filled := Filled(m, FieldsOf(sc, m.typeName)); IsMessage(sc, filled) && Whole(sc, filled)
    ensures PrimaryId(sc, Filled(m, FieldsOf(sc, m.typeName))) == PrimaryId(sc, m)
  {
    FilledPrimary(sc, m);
    FilledTyped(sc, m);
  }

  lemma FilledPrimary(sc: Schema, m: Message)
    requires PoolOk(sc.pool) && IsMessage(sc, m) && Copyable(FieldsOf(sc, m.typeName))
    ensures PrimaryId(sc, Filled(m, FieldsOf(sc, m.typeName))) == PrimaryId(sc, m)
  {
    var p := PrimaryField(sc, m.typeName);
    if p.Some? {
      FilledValue(FieldsOf(sc, m.typeName), m, p.value);
    }
  }

  lemma FilledValue(fields: seq<Field>, m: Message, f: Field)
    requires DistinctNames(fields) && Copyable(fields) && f in fields
    ensures ValueOf(Filled(m, fields), f) == ValueOf(m, f)
  {
    FieldNamesIn(fields, f);
    FindFieldSelf(fields, f);
  }

  lemma FilledTyped(sc: Schema, m: Message)
    requires PoolOk(sc.pool) && IsMessage(sc, m) && Copyable(FieldsOf(sc, m.typeName))
    ensures var filled := Filled(m, FieldsOf(sc, m.typeName)); IsMessage(sc, filled) && Whole(sc, filled)
  {
    var fields := FieldsOf(sc, m.typeName);
    var filled := Filled(m, fields);
    forall name | name in filled.fields
      ensures FindField(fields, name).Some? && HasKind(filled.fields[name], FindField(fields, name).value.kind)
    {
      FindFieldSelf(fields, NamedField(fields, name));
    }
  }

  // ---- One cache object ----

  function PutRow(sc: Schema, rows: Rows, m: Message): Option<Rows> {
    if m.typeName in rows || sc.codec.serialize(m).None? then None
    else Some(rows[m.typeName := Row(m, 0)])
  }

  /** A missing row is put; an existing one becomes the given message with every field set. */
  function OverwriteRow(sc: Schema, rows: Rows, m: Message, now: nat): Option<Rows> {
    if m.typeName !in rows then PutRow(sc, rows, m)
    else if m.typeName !in sc.pool || !Copyable(FieldsOf(sc, m.typeName)) then None
    else
      var filled := Filled(m, FieldsOf(sc, m.typeName));
      if sc.codec.serialize(filled).None? then None else Some(rows[m.typeName := Row(filled, now)])
  }

  /** Overwritten at least a second ago; at time 0 every overwritten row is due. */
  predicate IsDue(row: Row, now: nat) {
    row.time != 0 && (now == 0 || now - row.time >= 1)
  }

  function DueNames(rows: Rows, now: nat): set<string> {
    set name | name in rows && IsDue(rows[name], now)
  }

  predicate StillDirty(rows: Rows, now: nat) {
    exists name :: name in rows && rows[name].time != 0 && !IsDue(rows[name], now)
  }

  /** The due rows of one id. */
  function DueKeys(id: nat, rows: Rows, now: nat): (keys: set<Key>)
    ensures forall k :: k in keys <==> k.id == id && k.name in rows && IsDue(rows[k.name], now)
  {
    set name | name in DueNames(rows, now) :: Key(id, name)
  }

  /** Where a write-back of a row goes: to the row's own primary key, whatever id it is cached under. */
  function TargetOf(sc: Schema, name: string, row: Row): (k: Key)
    ensures k.name == name
  {
    var id := PrimaryId(sc, row.message);
    Key(if id.Some? then id.value else 0, name)
  }

  function SavedKeys(sc: Schema, rows: Rows, now: nat): (keys: set<Key>)
    ensures forall k :: k in keys <==>
      && k.name in rows && IsDue(rows[k.name], now) && Storable(sc, rows[k.name].message)
      && k == TargetOf(sc, k.name, rows[k.name])
  {
    set name | name in DueNames(rows, now) && Storable(sc, rows[name].message) :: TargetOf(sc, name, rows[name])
  }

  /** The table after the due rows of one cache object were written back; one that no statement can be made of
      is passed over. */
  function Saved(sc: Schema, table: Table, rows: Rows, now: nat): Table {
    table + map k | k in SavedKeys(sc, rows, now) :: Written(sc, rows[k.name].message)
  }

  // ---- The manager ----

  function AddData(sc: Schema, c: Cache, id: nat, m: Message): (Cache, bool) {
    if id in c.resident then (c, false)
    else match PutRow(sc, map[], m)
      case None => (c.(resident := c.resident[id := map[]]), false)
      case Some(rows) => (c.(resident := c.resident[id := rows]), true)
  }

  function SetData(sc: Schema, c: Cache, id: nat, m: Message, now: nat): (Cache, bool) {
    if id !in c.resident then AddData(sc, c, id, m)
    else match OverwriteRow(sc, c.resident[id], m, now)
      case None => (c, false)
      case Some(rows) => (c.(resident := c.resident[id := rows], dirty := c.dirty[id := Same]), true)
  }

  function DelData(c: Cache, id: nat, name: string): (Cache, bool) {
    if !IsCached(c, Key(id, name)) then (c, false)
    else (c.(resident := c.resident[id := c.resident[id] - {name}]), true)
  }

  datatype World = World(cache: Cache, table: Table)

  /** Takes a victim out of both maps and writes all its overwritten rows back. */
  function Evict(sc: Schema, w: World, id: nat): World
    requires id in w.cache.resident
  {
    World(w.cache.(resident := w.cache.resident - {id}, dirty := w.cache.dirty - {id}),
          Saved(sc, w.table, w.cache.resident[id], 0))
  }

  /** The elapsed time is subtracted the wrong way round, in unsigned 64-bit arithmetic. */
  predicate Throttled(c: Cache, now: nat, period: nat) {
    c.lastWriteback != 0 && (c.lastWriteback - now) % Bits.WORD < period
  }

  /** The rows that a pass over the dirty map writes back. */
  function SentKeys(c: Cache, now: nat): (keys: set<Key>)
    ensures forall k :: k in keys <==>
      k.id in c.dirty && k.name in SlotRows(c, k.id) && IsDue(SlotRows(c, k.id)[k.name], now)
  {
    set id, name | id in c.dirty && name in DueNames(SlotRows(c, id), now) :: Key(id, name)
  }

  ghost function Last(ids: set<nat>): (last: nat)
    requires ids != {}
    ensures last in ids && forall i :: i in ids ==> i <= last
  {
    var id :| id in ids;
    var rest := ids - {id};
    assert forall i :: i in ids ==> i == id || i in rest;
    if rest == {} then id
    else
      var last := Last(rest);
      if id < last then last else id
  }

  /** The table after a pass over the ids of the dirty map, in ascending order. */
  ghost function Pass(sc: Schema, table: Table, c: Cache, now: nat, ids: set<nat>): Table
    requires ids <= c.dirty.Keys
  {
    if ids == {} then table
    else
      var id := Last(ids);
      Saved(sc, Pass(sc, table, c, now, ids - {id}), SlotRows(c, id), now)
  }

  ghost function Writeback(sc: Schema, w: World, now: nat, period: nat): World {
    if Throttled(w.cache, now, period) then w
    else
      var c := w.cache;
      World(c.(dirty := map id | id in c.dirty && StillDirty(SlotRows(c, id), now) :: c.dirty[id],
               lastWriteback := now),
            Pass(sc, w.table, c, now, c.dirty.Keys))
  }

  /** Drops cache objects from the resident map; the dirty map keeps those it has. */
  function Drop(c: Cache, ids: set<nat>): Cache {
    c.(resident := c.resident - ids,
       dirty := map id | id in c.dirty :: if id in ids then Stale(SlotRows(c, id)) else c.dirty[id])
  }

  function FlushKey(sc: Schema, w: World, id: nat): World {
    if id !in w.cache.resident then w
    else World(Drop(w.cache, {id}), Saved(sc, w.table, w.cache.resident[id], 0))
  }

  ghost function FlushAll(sc: Schema, w: World, period: nat): World {
    var saved := Writeback(sc, w, 0, period);
    saved.(cache := Drop(saved.cache, saved.cache.resident.Keys))
  }
}
