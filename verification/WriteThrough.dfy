/** A worker's commands on the cached table against the same commands on a table without a cache. */
module WriteThrough {
  import opened Wrappers
  import opened Messages
  import opened Columns
  import opened CacheModel
  import opened Lines
  import opened Database

  datatype Event =
    | Select(key: Key, at: nat)
    | Update(m: Message, at: nat)
    | Insert(m: Message)
    | Delete(key: Key)
    | Query(name: string, condition: Line -> bool)
    | Flush(id: nat)
    | Tick(now: nat, victim: Option<nat>)

  /** What a client is told: a code, with the message that a select found, or the rows that a query found. */
  datatype Outcome = Outcome(code: nat, content: Content)

  datatype Content = Nothing | One(message: Message) | Many(rows: map<Key, Message>)

  /** The conditions under which caching is compared with no caching: every field can be copied and written,
      and every message serializes. */
  ghost predicate Total(sc: Schema) {
    && SchemaOk(sc)
    && (forall name :: name in sc.pool ==> Copyable(FieldsOf(sc, name)))
    && (forall m :: IsMessage(sc, m) ==> sc.codec.serialize(m).Some? && Storable(sc, m))
  }

  /** Commands name types with an integer primary key, and rows by unsigned numbers; the clock is not at its
      epoch. */
  ghost predicate IsCommand(sc: Schema, e: Event) {
    match e
    case Select(k, at) => Keyed(sc, k.name) && k.id >= 0 && at != 0
    case Update(m, at) => IsMessage(sc, m) && PrimaryId(sc, m).Some? && at != 0
    case Insert(m) => IsMessage(sc, m) && PrimaryId(sc, m).Some?
    case Delete(k) => k.name in sc.pool && k.id >= 0
    case Query(_, _) => true
    case Flush(_) => true
    case Tick(_, _) => false
  }

  ghost predicate ValidEvent(sc: Schema, w: World, e: Event) {
    match e
    case Tick(_, victim) => victim.Some? ==> victim.value in w.cache.resident
    case _ => IsCommand(sc, e)
  }

  // ---- With the cache ----

  function Reply(sc: Schema, w: World, k: Key): Option<Message> {
    if IsCached(w.cache, k) then Some(RowAt(w.cache, k).message) else DbSelect(sc, w.table, k)
  }

  /** The answer goes into the cache. On a hit, too: that overwrites the cached row with itself, filled. */
  function OnSelect(sc: Schema, w: World, k: Key, at: nat): World
    requires k.id >= 0
  {
    var reply := Reply(sc, w, k);
    if reply.None? || sc.codec.serialize(reply.value).None? then w
    else w.(cache := SetData(sc, w.cache, k.id, reply.value, at).0)
  }

  /** Goes to the table only when the cache does not take it. */
  function OnUpdate(sc: Schema, w: World, m: Message, at: nat): World
    requires PrimaryId(sc, m).Some?
  {
    var updated := DbUpdate(sc, w.table, RowKey(sc, m), m);
    if sc.codec.serialize(m).None? then w.(table := updated)
    else
      var (cache, taken) := SetData(sc, w.cache, KeyOf(sc, m).id, m, at);
      World(cache, if taken then w.table else updated)
  }

  /** Whether the cache takes an update. */
  function Takes(sc: Schema, w: World, m: Message, at: nat): bool
    requires PrimaryId(sc, m).Some?
  {
    sc.codec.serialize(m).Some? && SetData(sc, w.cache, KeyOf(sc, m).id, m, at).1
  }

  /** Goes to the cache and to the table. */
  function OnInsert(sc: Schema, w: World, m: Message): World
    requires PrimaryId(sc, m).Some?
  {
    World(if sc.codec.serialize(m).None? then w.cache else AddData(sc, w.cache, KeyOf(sc, m).id, m).0,
          DbInsert(sc, w.table, RowKey(sc, m), m))
  }

  function OnDelete(w: World, k: Key): World
    requires k.id >= 0
  {
    World(DelData(w.cache, k.id, k.name).0, w.table - {k})
  }

  ghost function OnFlush(sc: Schema, w: World, id: nat, period: nat): World {
    if id != 0 then FlushKey(sc, w, id) else FlushAll(sc, w, period)
  }

  ghost function OnTick(sc: Schema, w: World, now: nat, victim: Option<nat>, period: nat): World
    requires victim.Some? ==> victim.value in w.cache.resident
  {
    Writeback(sc, if victim.Some? then Evict(sc, w, victim.value) else w, now, period)
  }

  /** A query goes past the cache. */
  ghost function Step(sc: Schema, period: nat, w: World, e: Event): World
    requires ValidEvent(sc, w, e)
  {
    match e
    case Select(k, at) => OnSelect(sc, w, k, at)
    case Update(m, at) => OnUpdate(sc, w, m, at)
    case Insert(m) => OnInsert(sc, w, m)
    case Delete(k) => OnDelete(w, k)
    case Query(_, _) => w
    case Flush(id) => OnFlush(sc, w, id, period)
    case Tick(now, victim) => OnTick(sc, w, now, victim, period)
  }

  /** What the client is told. */
  ghost function Told(sc: Schema, w: World, e: Event): Outcome
    requires ValidEvent(sc, w, e)
  {
    match e
    case Select(k, _) => Found(Reply(sc, w, k))
    case Update(m, at) => if Takes(sc, w, m, at) then DONE else RefTold(sc, w.table, e)
    case _ => RefTold(sc, w.table, e)
  }

  // ---- Without it ----

  const DONE := Outcome(RC_OK, Nothing)
  const UNREADABLE := Outcome(RC_PROTO_ERROR, Nothing)

  function Found(m: Option<Message>): Outcome {
    if m.Some? then Outcome(RC_OK, One(m.value)) else UNREADABLE
  }

  function AllFound(rows: Option<map<Key, Message>>): Outcome {
    if rows.Some? then Outcome(RC_OK, Many(rows.value)) else UNREADABLE
  }

  ghost function RefStep(sc: Schema, ref: Table, e: Event): Table
    requires e.Update? || e.Insert? ==> PrimaryId(sc, e.m).Some?
  {
    match e
    case Update(m, _) => DbUpdate(sc, ref, RowKey(sc, m), m)
    case Insert(m) => DbInsert(sc, ref, RowKey(sc, m), m)
    case Delete(k) => ref - {k}
    case _ => ref
  }

  ghost function RefTold(sc: Schema, ref: Table, e: Event): Outcome
    requires e.Update? || e.Insert? ==> PrimaryId(sc, e.m).Some?
  {
    match e
    case Select(k, _) => Found(DbSelect(sc, ref, k))
    case Update(m, _) => Outcome(UpdateCode(sc, m), Nothing)
    case Insert(m) => Outcome(InsertCode(sc, ref, m), Nothing)
    case Query(name, p) => AllFound(DbQuery(sc, ref, name, p))
    case _ => DONE
  }

  // ---- History: rows overwritten in the cache and not written back since ----

  ghost function Unsaved(sc: Schema, period: nat, w: World, unsaved: set<Key>, e: Event): set<Key>
    requires ValidEvent(sc, w, e)
  {
    match e
    case Select(k, _) => if IsCached(w.cache, k) then unsaved + {k} else unsaved
    case Update(m, _) => if IsCached(w.cache, KeyOf(sc, m)) then unsaved + {KeyOf(sc, m)} else unsaved
    case Delete(k) => unsaved - {k}
    case Flush(id) =>
      if id == 0 then (if Throttled(w.cache, 0, period) then unsaved else unsaved - SentKeys(w.cache, 0))
      else if id in w.cache.resident then unsaved - DueKeys(id, w.cache.resident[id], 0)
      else unsaved
    case Tick(now, victim) =>
      var (w', left) := if victim.Some?
        then (Evict(sc, w, victim.value), unsaved - DueKeys(victim.value, w.cache.resident[victim.value], 0))
        else (w, unsaved);
      if Throttled(w'.cache, now, period) then left else left - SentKeys(w'.cache, now)
    case _ => unsaved
  }

  // ---- Invariants ----

  /** A row that only the dirty map still holds and that its next pass writes back once more. */
  predicate IsStale(c: Cache, k: Key) {
    && k.id in c.dirty && c.dirty[k.id].Stale?
    && k.name in c.dirty[k.id].rows && c.dirty[k.id].rows[k.name].time != 0
  }

  function StaleRow(c: Cache, k: Key): Row
    requires IsStale(c, k)
  {
    c.dirty[k.id].rows[k.name]
  }

  /** Rows are typed, and an overwritten one is whole and has a primary key; a dirty cache that counts as
      resident is. */
  ghost predicate Sound(sc: Schema, w: World) {
    && TableOk(sc, w.table)
    && (forall k :: IsCached(w.cache, k) ==> RowOk(sc, k.name, RowAt(w.cache, k)))
    && (forall k :: IsStale(w.cache, k) ==> RowOk(sc, k.name, StaleRow(w.cache, k)))
    && (forall id :: id in w.cache.dirty && w.cache.dirty[id] == Same ==> id in w.cache.resident)
  }

  /** Every unsaved row is resident, marked with a time, and its cache object is in the dirty map. */
  ghost predicate Tracked(c: Cache, unsaved: set<Key>) {
    forall k :: k in unsaved ==>
      IsCached(c, k) && RowAt(c, k).time != 0 && k.id in c.dirty && c.dirty[k.id] == Same
  }

  /** The table has the columns of the message, and a select makes the message of them. */
  ghost predicate Holds(sc: Schema, table: Table, k: Key, m: Message) {
    k in table && table[k] == Written(sc, m) && DbSelect(sc, table, k) == Some(m)
  }

  /** Every cached row that is not unsaved is what a select would answer; if it was ever overwritten the table
      holds it. */
  ghost predicate CleanRowsMatch(sc: Schema, w: World, unsaved: set<Key>) {
    forall k :: IsCached(w.cache, k) && k !in unsaved ==>
      && DbSelect(sc, w.table, k) == Some(RowAt(w.cache, k).message)
      && (RowAt(w.cache, k).time != 0 ==> Holds(sc, w.table, k, RowAt(w.cache, k).message))
  }

  ghost predicate StaleRowsMatch(sc: Schema, w: World) {
    forall k :: IsStale(w.cache, k) ==> Holds(sc, w.table, k, StaleRow(w.cache, k).message)
  }

  /** The table with the unsaved rows laid over it. */
  function Overlay(sc: Schema, w: World, unsaved: set<Key>): Table {
    w.table + map k | k in unsaved && IsCached(w.cache, k) :: Written(sc, RowAt(w.cache, k).message)
  }

  /** `ref` is the table without a cache: it holds the unsaved rows, and otherwise what the table has. */
  ghost predicate Coherent(sc: Schema, w: World, unsaved: set<Key>, ref: Table) {
    && SchemaOk(sc)
    && Sound(sc, w)
    && TableOk(sc, ref)
    && Tracked(w.cache, unsaved)
    && CleanRowsMatch(sc, w, unsaved)
    && StaleRowsMatch(sc, w)
    && UnsavedRead(sc, w.cache, unsaved)
    && ref == Overlay(sc, w, unsaved)
  }

  ghost predicate UnsavedRead(sc: Schema, c: Cache, unsaved: set<Key>) {
    forall k :: k in unsaved && IsCached(c, k) ==> KeepsText(sc, RowAt(c, k).message)
  }

  // ---- When an event keeps coherence, and tells the client the same ----

  /** A select of a cached row writes it back later, every field set. So it must have every field set, and the
      table must have just its columns, unless it is to be written back anyway. */
  ghost predicate SafeSelect(sc: Schema, w: World, unsaved: set<Key>, k: Key) {
    IsCached(w.cache, k) ==>
      var m := RowAt(w.cache, k).message;
      Whole(sc, m) && (k in unsaved || (k in w.table && w.table[k] == Written(sc, m)))
  }

  /** The row that an update of a cached row starts from in the table without a cache. */
  function Base(sc: Schema, w: World, unsaved: set<Key>, k: Key): Line
    requires IsCached(w.cache, k)
  {
    if k in unsaved then Written(sc, RowAt(w.cache, k).message)
    else if k in w.table then w.table[k]
    else Blank(sc, k.name)
  }

  /** An update in the cache sets every field, so in each column that it leaves unset the row must already have
      the text of the default. */
  ghost predicate UnsetAreDefault(sc: Schema, base: Line, m: Message)
    requires Copyable(FieldsOf(sc, m.typeName))
  {
    var filled := Written(sc, Filled(m, FieldsOf(sc, m.typeName)));
    forall c :: c in filled && c !in m.fields ==> c in base && base[c] == filled[c]
  }

  /** The key is one that a select can name and something is set; a cached row is updated to one that reads
      back, and an update of a row that is not cached changes nothing. */
  ghost predicate SafeUpdate(sc: Schema, w: World, unsaved: set<Key>, m: Message)
    requires PrimaryId(sc, m).Some? && Copyable(FieldsOf(sc, m.typeName))
  {
    var k := RowKey(sc, m);
    && k == KeyOf(sc, m) && m.fields != map[]
    && if IsCached(w.cache, k) then
         UnsetAreDefault(sc, Base(sc, w, unsaved, k), m) && KeepsText(sc, Filled(m, FieldsOf(sc, m.typeName)))
       else k in w.table && DbSelect(sc, w.table, k) == Some(m) && w.table[k] + Written(sc, m) == w.table[k]
  }

  /** Under an id without a cache object the message goes into the cache as it is, so the table's row must read
      as that; under one with a cache object nothing goes into it, so it must not hold an absent row's empty
      message, nor a row that the table has not got yet. */
  ghost predicate SafeInsert(sc: Schema, w: World, m: Message)
    requires PrimaryId(sc, m).Some?
  {
    var k := RowKey(sc, m);
    if KeyOf(sc, m).id in w.cache.resident then IsCached(w.cache, k) ==> k in w.table
    else
      && k == KeyOf(sc, m)
      && if k in w.table then DbSelect(sc, w.table, k) == Some(m) else Whole(sc, m) && KeepsText(sc, m)
  }

  /** A query finds each unsaved row just when the table's row is found, too, and reads as that; or some other
      row that it finds cannot be read. */
  ghost predicate SafeQuery(sc: Schema, w: World, unsaved: set<Key>, name: string, p: Line -> bool) {
    || (exists k :: k !in unsaved && Finds(w.table, name, p, k) && DbSelect(sc, w.table, k).None?)
    || (forall k :: k in unsaved && IsCached(w.cache, k) && k.name == name ==>
          var m := RowAt(w.cache, k).message;
          if Finds(w.table, name, p, k) then p(Written(sc, m)) && DbSelect(sc, w.table, k) == Some(m)
          else !p(Written(sc, m)))
  }

  predicate Finds(table: Table, name: string, p: Line -> bool, k: Key) {
    k in table && k.name == name && p(table[k])
  }

  ghost predicate Safe(sc: Schema, period: nat, w: World, unsaved: set<Key>, e: Event)
    requires Total(sc) && ValidEvent(sc, w, e)
  {
    match e
    case Select(k, _) => SafeSelect(sc, w, unsaved, k)
    case Update(m, _) => SafeUpdate(sc, w, unsaved, m)
    case Insert(m) => SafeInsert(sc, w, m)
    case Delete(k) => !IsStale(w.cache, k)
    case Query(name, p) => SafeQuery(sc, w, unsaved, name, p)
    case Flush(id) => id == 0 && Throttled(w.cache, 0, period) ==> unsaved == {}
    case Tick(_, _) => true
  }
}
