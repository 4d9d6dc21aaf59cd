/** Where the cache is noticed: runs that are not safe, and what becomes of them. */
module Shortfalls {
  import opened Wrappers
  import opened Messages
  import opened Columns
  import opened CacheModel
  import opened Lines
  import opened Database
  import opened WriteThrough
  import opened Coherence
  import Bits

  /** An update of a row that is not cached never reaches the table: after a complete flush the table is as
      if it had been updated exactly when the update changes nothing. */
  lemma MissedUpdateIsLost(sc: Schema, w: World, unsaved: set<Key>, ref: Table, m: Message, at: nat, period: nat)
    requires Total(sc) && Coherent(sc, w, unsaved, ref) && !Throttled(w.cache, 0, period)
    requires IsMessage(sc, m) && PrimaryId(sc, m).Some? && !IsCached(w.cache, KeyOf(sc, m))
    ensures var k := RowKey(sc, m);
      && FlushAll(sc, OnUpdate(sc, w, m, at), period).table == ref
      && (ref == DbUpdate(sc, ref, k, m) <==>
            m.fields == map[] || (k in w.table && w.table[k] + Written(sc, m) == w.table[k]))
  {
    hide Sound, Total, SchemaOk, IsMessage, TableOk, Tracked, CleanRowsMatch, StaleRowsMatch, UnsavedRead,
         DirtyRowsMatch, Overlay, RowOk, FlushAll, AtHome, PrimaryId, Storable, Written, SetData, Puts, OnUpdate,
         DbSelect;
    var k := KeyOf(sc, m);
    var c' := SetData(sc, w.cache, k.id, m, at).0;
    var row, w' := Row(m, 0), w.(cache := c');
    TotalFacts(sc, m);
    SoundSlots(sc, w);
    UnsavedCached(w.cache, unsaved, k);
    FillShape(sc, w.cache, k, m, at);
    UpdatedWorld(sc, w, m, at);
    PutOverlay(sc, w, unsaved, c', k, row);
    PutTracked(w.cache, c', unsaved, k, row);
    PutStale(sc, w, c', k, row);
    PutDirty(sc, w, unsaved, c', k, row);
    CoherentAtHome(sc, w, unsaved, ref);
    PutAtHome(sc, w.cache, c', k, row);
    PutKeepsSlots(sc, w.cache, k, m, at);
    FlushTable(sc, w', unsaved, period);
    RowKeyUnsaved(sc, w.cache, unsaved, m);
    ReplyMatches(sc, w, unsaved, ref, RowKey(sc, m));
    if m.fields != map[] {
      SameRow(sc, ref, RowKey(sc, m), m);
    }
  }

  lemma PutKeepsSlots(sc: Schema, c: Cache, k: Key, m: Message, at: nat)
    requires k.id >= 0
    ensures SetData(sc, c, k.id, m, at).0.lastWriteback == c.lastWriteback
    ensures (forall id :: id in c.dirty && c.dirty[id] == Same ==> id in c.resident) ==>
      var c' := SetData(sc, c, k.id, m, at).0;
      forall id :: id in c'.dirty && c'.dirty[id] == Same ==> id in c'.resident
  {
    hide PutRow, OverwriteRow;
  }

  /** A key that is not negative is the same in the cache and in the table. */
  lemma KeyIsRow(sc: Schema, m: Message)
    requires IsMessage(sc, m) && PrimaryId(sc, m).Some? && PrimaryId(sc, m).value >= 0
    ensures KeyOf(sc, m) == RowKey(sc, m)
  {
    hide Written, IsMessage, Keyed;
    WrittenKey(sc, m);
  }

  lemma RowKeyUnsaved(sc: Schema, c: Cache, unsaved: set<Key>, m: Message)
    requires IsMessage(sc, m) && PrimaryId(sc, m).Some? && Tracked(c, unsaved) && !IsCached(c, KeyOf(sc, m))
    ensures RowKey(sc, m) !in unsaved
  {
    hide IsMessage, PrimaryId;
    if PrimaryId(sc, m).value >= 0 {
      KeyIsRow(sc, m);
    }
  }

  lemma PutAtHome(sc: Schema, c: Cache, c': Cache, k: Key, row: Row)
    requires AtHome(sc, c) && Puts(c, c', k, row) && row.time == 0
    ensures AtHome(sc, c')
  {
    hide HomeRow, IsCached, IsStale;
  }

  lemma PutDirty(sc: Schema, w: World, unsaved: set<Key>, cache: Cache, k: Key, row: Row)
    requires CleanRowsMatch(sc, w, unsaved) && Puts(w.cache, cache, k, row) && row.time == 0
    ensures DirtyRowsMatch(sc, w.(cache := cache), unsaved)
  {
    hide IsCached, IsStale, DbSelect;
  }

  /** An insert under an id without a cache object is served from the cache as it is. That is what the table
      would answer exactly when the key is not negative and the table refused the insert for a row that reads
      the same, or took it with every field set and each text surviving. */
  lemma InsertIsServed(sc: Schema, w: World, m: Message)
    requires Total(sc) && TableOk(sc, w.table) && IsMessage(sc, m) && PrimaryId(sc, m).Some?
    requires KeyOf(sc, m).id !in w.cache.resident
    ensures var k, w' := RowKey(sc, m), OnInsert(sc, w, m);
      && Reply(sc, w', KeyOf(sc, m)) == Some(m)
      && (k == KeyOf(sc, m) ==> (DbSelect(sc, w'.table, k) == Some(m) <==>
            if k in w.table then DbSelect(sc, w.table, k) == Some(m) else Whole(sc, m) && KeepsText(sc, m)))
      && (k != KeyOf(sc, m) ==> DbSelect(sc, w'.table, KeyOf(sc, m)) != Some(m))
  {
    hide Total, SchemaOk, TableOk, IsMessage, PrimaryId, Storable, Whole, KeepsText, DbSelect, DbInsert;
    TotalFacts(sc, m);
    TotalSchema(sc);
    NewRowSelected(sc, w.table, m);
    IdKeyed(sc, m);
    if RowKey(sc, m) != KeyOf(sc, m) {
      UpdateOk(sc, w.table, m);
      AbsentIsEmpty(sc, DbInsert(sc, w.table, RowKey(sc, m), m), KeyOf(sc, m));
      if DbSelect(sc, DbInsert(sc, w.table, RowKey(sc, m), m), KeyOf(sc, m)).Some? {
        SelectedOk(sc, DbInsert(sc, w.table, RowKey(sc, m), m), KeyOf(sc, m));
      }
    }
  }

  /** A query with the condition to have just the columns of an unsaved row finds that without the cache, and
      nothing with it. */
  lemma QueryMissesUpdate(sc: Schema, w: World, unsaved: set<Key>, ref: Table, k: Key)
    requires Coherent(sc, w, unsaved, ref) && k in unsaved && IsCached(w.cache, k)
    requires k in w.table ==> w.table[k] != Written(sc, RowAt(w.cache, k).message)
    ensures var m := RowAt(w.cache, k).message;
      var p := (line: Line) => line == Written(sc, m);
      && DbQuery(sc, w.table, k.name, p) == Some(map[])
      && DbQuery(sc, ref, k.name, p) == Some(map[k := m])
  {
    hide SchemaOk, Sound, Tracked, CleanRowsMatch, StaleRowsMatch, UnsavedRead, Overlay, Written, DbSelect, DbQuery,
         TableOk;
    var m := RowAt(w.cache, k).message;
    var p := (line: Line) => line == Written(sc, m);
    LaidOver(sc, w, unsaved, ref);
    SoundSlots(sc, w);
    QueryFinds(sc, w.table, k.name, p);
    QueryFinds(sc, ref, k.name, p);
    forall j | Finds(ref, k.name, p, j) ensures j == k {
      SameKeyColumn(sc, ref, j, k);
    }
    forall j | Finds(w.table, k.name, p, j) ensures j == k {
      DifferentTables(sc, w.table, ref, j, k);
    }
    assert DbQuery(sc, ref, k.name, p).value == map[k := m];
  }

  /** Rows of different keys differ in their key columns. */
  lemma SameKeyColumn(sc: Schema, table: Table, j: Key, k: Key)
    requires TableOk(sc, table) && j in table && k in table && j.name == k.name && table[j] == table[k]
    ensures j == k
  {
    DifferentTables(sc, table, table, j, k);
  }

  lemma DifferentTables(sc: Schema, a: Table, b: Table, j: Key, k: Key)
    requires TableOk(sc, a) && TableOk(sc, b) && j in a && k in b && j.name == k.name && a[j] == b[k]
    ensures j == k
  {
    PrintInjective(j.id, k.id);
  }

  // ---- The throttle ----

  /** With a clock that moves forward the write-back is held back only within the second of the last one,
      however long the period; the other way round a flush is throttled exactly when the last write-back, in
      seconds since 1970, is below the period. */
  lemma ThrottledExactly(c: Cache, now: nat, period: nat)
    requires c.lastWriteback < Bits.WORD / 2 && now < Bits.WORD / 2 && period < Bits.WORD / 2
    ensures c.lastWriteback <= now ==> (Throttled(c, now, period) <==> 0 < c.lastWriteback == now && period > 0)
    ensures Throttled(c, 0, period) <==> 0 < c.lastWriteback < period
  {
  }

  // ---- One row, step by step ----

  function OnlyRow(k: Key, row: Row, dirty: map<nat, Slot>, last: nat): Cache
    requires k.id >= 0
  {
    Cache(map[k.id := map[k.name := row]], dirty, last)
  }

  function JustDirty(k: Key): map<nat, Slot>
    requires k.id >= 0
  {
    map[k.id := Same]
  }

  lemma FillOnly(sc: Schema, table: Table, k: Key, dirty: map<nat, Slot>, last: nat, at: nat, m: Message)
    requires k.id >= 0 && DbSelect(sc, table, k) == Some(m) && sc.codec.serialize(m).Some? && m.typeName == k.name
    ensures OnSelect(sc, World(Cache(map[], dirty, last), table), k, at)
         == World(OnlyRow(k, Row(m, 0), dirty, last), table)
  {
    hide DbSelect;
  }

  lemma OverwriteOnly(sc: Schema, k: Key, row: Row, dirty: map<nat, Slot>, last: nat, m: Message, at: nat)
    requires Total(sc) && IsMessage(sc, m) && m.typeName == k.name && k.id >= 0
    ensures sc.codec.serialize(m).Some? && Copyable(FieldsOf(sc, k.name))
    ensures SetData(sc, OnlyRow(k, row, dirty, last), k.id, m, at)
         == (OnlyRow(k, Row(Filled(m, FieldsOf(sc, k.name)), at), dirty[k.id := Same], last), true)
  {
    hide IsMessage, Total, Filled, SchemaOk, PrimaryId, Whole, Storable;
    TotalFacts(sc, m);
    TotalSchema(sc);
    FilledOk(sc, m);
    TotalFacts(sc, Filled(m, FieldsOf(sc, k.name)));
    OverwriteOnlyRow(sc, k, row, dirty, last, m, at);
  }

  lemma OverwriteOnlyRow(sc: Schema, k: Key, row: Row, dirty: map<nat, Slot>, last: nat, m: Message, at: nat)
    requires m.typeName == k.name && k.name in sc.pool && Copyable(FieldsOf(sc, k.name)) && k.id >= 0
    requires sc.codec.serialize(Filled(m, FieldsOf(sc, k.name))).Some?
    ensures SetData(sc, OnlyRow(k, row, dirty, last), k.id, m, at)
         == (OnlyRow(k, Row(Filled(m, FieldsOf(sc, k.name)), at), dirty[k.id := Same], last), true)
  {
    hide Filled;
    var c', row' := SetData(sc, OnlyRow(k, row, dirty, last), k.id, m, at).0, Row(Filled(m, FieldsOf(sc, k.name)), at);
    assert c'.resident[k.id] == map[k.name := row'];
    assert c'.resident == map[k.id := map[k.name := row']];
  }

  ghost function Reread(sc: Schema, w: World, k: Key, at: nat): World
    requires k.id >= 0
  {
    OnSelect(sc, OnSelect(sc, w, k, at), k, at)
  }

  /** A row selected twice is in the cache filled, and to be written back. */
  lemma RereadIs(sc: Schema, table: Table, k: Key, dirty: map<nat, Slot>, last: nat, at: nat, m: Message)
    requires Total(sc) && TableOk(sc, table) && Keyed(sc, k.name) && k.id >= 0 && DbSelect(sc, table, k) == Some(m)
    ensures IsMessage(sc, m) && m.typeName == k.name && Copyable(FieldsOf(sc, k.name))
    ensures k in table ==> Filled(m, FieldsOf(sc, k.name)) == m && PrimaryId(sc, m) == Some(k.id)
    ensures OnSelect(sc, World(Cache(map[], dirty, last), table), k, at)
         == World(OnlyRow(k, Row(m, 0), dirty, last), table)
    ensures Reread(sc, World(Cache(map[], dirty, last), table), k, at)
         == World(OnlyRow(k, Row(Filled(m, FieldsOf(sc, k.name)), at), dirty[k.id := Same], last), table)
  {
    hide Total, SchemaOk, TableOk, IsMessage, PrimaryId, Filled, Whole, SetData, DbSelect, Storable;
    TotalSchema(sc);
    KeyColumn(sc, k.name);
    SelectedOk(sc, table, k);
    TotalFacts(sc, m);
    FilledIsSame(sc, m);
    FillOnly(sc, table, k, dirty, last, at, m);
    OverwriteOnly(sc, k, Row(m, 0), dirty, last, m, at);
  }

  lemma OneRowPass(sc: Schema, table: Table, c: Cache, k: Key, row: Row)
    requires k.id >= 0 && c == OnlyRow(k, row, map[k.id := Same], c.lastWriteback) && row.time != 0
    requires Storable(sc, row.message)
    ensures Pass(sc, table, c, 0, c.dirty.Keys) == table[TargetOf(sc, k.name, row) := Written(sc, row.message)]
  {
    hide TargetOf, Storable, Written;
    assert c.dirty.Keys == {k.id} && {k.id} - {k.id} == {};
    assert Pass(sc, table, c, 0, {}) == table;
    assert SlotRows(c, k.id) == map[k.name := row];
    OneRowSaved(sc, table, k.name, row);
  }

  lemma OneRowSaved(sc: Schema, table: Table, name: string, row: Row)
    requires row.time != 0 && Storable(sc, row.message)
    ensures Saved(sc, table, map[name := row], 0) == table[TargetOf(sc, name, row) := Written(sc, row.message)]
  {
    hide TargetOf, Storable, Written;
    assert SavedKeys(sc, map[name := row], 0) == {TargetOf(sc, name, row)};
  }

  /** A row that is selected twice is written back as it was read: with the columns that its message has, not
      with those that the table had. */
  lemma ReadsAreWritten(sc: Schema, table: Table, k: Key, at: nat, period: nat, m: Message)
    requires Total(sc) && TableOk(sc, table) && k in table && k.id >= 0 && at != 0
    requires DbSelect(sc, table, k) == Some(m)
    ensures FlushAll(sc, Reread(sc, World(EMPTY, table), k, at), period).table == table[k := Written(sc, m)]
  {
    hide Total, TableOk, IsMessage, PrimaryId, Filled, Storable, Written, DbSelect, Reread;
    TableName(sc, table, k);
    RereadIs(sc, table, k, map[], 0, at, m);
    TotalFacts(sc, m);
    OneRowPass(sc, table, OnlyRow(k, Row(m, at), map[k.id := Same], 0), k, Row(m, at));
  }

  /** An absent row selected twice is an empty message that the second select fills; the next flush inserts
      it, and under the default primary key. */
  lemma AbsentRowIsInserted(sc: Schema, table: Table, k: Key, at: nat, period: nat)
    requires Total(sc) && TableOk(sc, table) && Keyed(sc, k.name) && k !in table && k.id >= 0 && at != 0
    ensures var blank := Filled(EmptyRow(k), FieldsOf(sc, k.name));
      FlushAll(sc, Reread(sc, World(EMPTY, table), k, at), period).table == table[Key(0, k.name) := Written(sc, blank)]
  {
    var blank := Filled(EmptyRow(k), FieldsOf(sc, k.name));
    hide Total, TableOk, IsMessage, Filled, Storable, Written, DbSelect, Reread, SchemaOk;
    AbsentIsEmpty(sc, table, k);
    RereadIs(sc, table, k, map[], 0, at, EmptyRow(k));
    TotalSchema(sc);
    FilledOk(sc, EmptyRow(k));
    TotalFacts(sc, blank);
    EmptyKey(sc, k);
    OneRowPass(sc, table, OnlyRow(k, Row(blank, at), map[k.id := Same], 0), k, Row(blank, at));
  }

  lemma EmptyKey(sc: Schema, k: Key)
    requires Keyed(sc, k.name)
    ensures PrimaryId(sc, EmptyRow(k)) == Some(0)
  {
  }

  // ---- A throttled flush ----

  /** A select, a write-back, and an update of the selected row. */
  ghost function Overwritten(sc: Schema, table: Table, k: Key, m: Message, at: nat, now: nat, period: nat): World
    requires PrimaryId(sc, m).Some? && k.id >= 0
  {
    OnUpdate(sc, OnTick(sc, OnSelect(sc, World(EMPTY, table), k, at), now, None, period), m, at)
  }

  /** A throttled flush of everything: after it a select answers the old row, and after two selects nothing is
      left of the update, neither in the table nor in the cache nor in the dirty map. */
  lemma ThrottledFlushForgets(sc: Schema, w: World, k: Key, r: Message, m: Message, at: nat, now: nat, period: nat,
                              flushed: World)
    requires Total(sc) && TableOk(sc, w.table) && k in w.table && k.id >= 0 && at != 0 && w.cache == EMPTY
    requires DbSelect(sc, w.table, k) == Some(r)
    requires IsMessage(sc, m) && PrimaryId(sc, m) == Some(k.id) && m.typeName == k.name
    requires 0 < now < period && now < Bits.WORD
    requires flushed == OnFlush(sc, Overwritten(sc, w.table, k, m, at, now, period), 0, period)
    ensures Reply(sc, flushed, k) == Some(r)
    ensures Reread(sc, flushed, k, at) == World(OnlyRow(k, Row(r, at), map[k.id := Same], now), w.table)
  {
    hide Total, IsMessage, TableOk, PrimaryId, Filled, Whole, SetData, OnFlush, Overwritten, DbSelect, Reread, Storable;
    TotalFacts(sc, m);
    var row := Row(Filled(m, FieldsOf(sc, k.name)), at);
    var stale := map[k.id := Stale(map[k.name := row])];
    OverwrittenIs(sc, w.table, k, r, m, at, now, period, row.message);
    IdleFlush(sc, Overwritten(sc, w.table, k, m, at, now, period), k, row, period);
    TableName(sc, w.table, k);
    RereadIs(sc, w.table, k, stale, now, at, r);
    assert stale[k.id := Same] == map[k.id := Same];
  }

  lemma OverwrittenIs(sc: Schema, table: Table, k: Key, r: Message, m: Message, at: nat, now: nat, period: nat,
                      filled: Message)
    requires Copyable(FieldsOf(sc, k.name)) && filled == Filled(m, FieldsOf(sc, k.name)) && k.id >= 0
    requires PrimaryId(sc, m) == Some(k.id)
    requires Total(sc) && TableOk(sc, table) && k in table && k.id >= 0 && DbSelect(sc, table, k) == Some(r)
    requires IsMessage(sc, m) && m.typeName == k.name
    ensures Overwritten(sc, table, k, m, at, now, period)
         == World(OnlyRow(k, Row(filled, at), JustDirty(k), now), table)
  {
    hide Total, IsMessage, TableOk, Filled, Whole, SetData, OnTick, OnUpdate, DbSelect, Storable, PrimaryId;
    TableName(sc, table, k);
    RereadIs(sc, table, k, map[], 0, at, r);
    TotalFacts(sc, m);
    KeyIsRow(sc, m);
    IdleTick(sc, table, k, Row(r, 0), now, period);
    UpdatedWorld(sc, World(OnlyRow(k, Row(r, 0), map[], now), table), m, at);
    OverwriteOnly(sc, k, Row(r, 0), map[], now, m, at);
  }

  lemma IdleTick(sc: Schema, table: Table, k: Key, row: Row, now: nat, period: nat)
    requires k.id >= 0
    ensures OnTick(sc, World(OnlyRow(k, row, map[], 0), table), now, None, period)
         == World(OnlyRow(k, row, map[], now), table)
  {
  }

  lemma IdleFlush(sc: Schema, w: World, k: Key, row: Row, period: nat)
    requires k.id >= 0 && 0 < w.cache.lastWriteback < period && w.cache.lastWriteback < Bits.WORD
    requires w.cache == OnlyRow(k, row, map[k.id := Same], w.cache.lastWriteback)
    ensures OnFlush(sc, w, 0, period)
         == World(Cache(map[], map[k.id := Stale(map[k.name := row])], w.cache.lastWriteback), w.table)
  {
  }

  // ---- A flush of one id ----

  /** Flushing one id leaves its cache object in the dirty map. When the row is deleted afterwards, the next
      write-back inserts it again. */
  lemma FlushedRowReturns(sc: Schema, w: World, unsaved: set<Key>, ref: Table, k: Key, now: nat, period: nat)
    requires Coherent(sc, w, unsaved, ref) && k in unsaved && k.id > 0 && IsCached(w.cache, k)
    requires IsDue(RowAt(w.cache, k), now) && !Throttled(w.cache, now, period)
    ensures var deleted := OnDelete(OnFlush(sc, w, k.id, period), k);
      k !in deleted.table && k in OnTick(sc, deleted, now, None, period).table
  {
    hide Coherent, AtHome, FlushKey, Writeback, IsStale, IsDue, OnDelete, HomeRow;
    UnsavedAtHome(sc, w, unsaved, ref, k);
    FlushLeavesStale(sc, w, unsaved, k);
    var flushed := FlushKey(sc, w, k.id);
    DeleteKeepsStale(flushed, k);
    StaleIsSent(sc, OnDelete(flushed, k), k, now, period);
  }

  lemma UnsavedAtHome(sc: Schema, w: World, unsaved: set<Key>, ref: Table, k: Key)
    requires Coherent(sc, w, unsaved, ref) && k in unsaved
    ensures Tracked(w.cache, unsaved) && IsCached(w.cache, k) && HomeRow(sc, k.id, RowAt(w.cache, k))
  {
    CoherentAtHome(sc, w, unsaved, ref);
    hide HomeRow, Sound, SchemaOk, CleanRowsMatch, StaleRowsMatch, UnsavedRead, TableOk, Overlay;
  }

  lemma DeleteKeepsStale(w: World, k: Key)
    requires IsStale(w.cache, k) && k.id >= 0
    ensures var w' := OnDelete(w, k);
      && k !in w'.table && w'.cache.lastWriteback == w.cache.lastWriteback
      && IsStale(w'.cache, k) && StaleRow(w'.cache, k) == StaleRow(w.cache, k)
  {
  }

  lemma FlushLeavesStale(sc: Schema, w: World, unsaved: set<Key>, k: Key)
    requires Tracked(w.cache, unsaved) && k in unsaved && k.id >= 0
    ensures var c' := FlushKey(sc, w, k.id).cache;
      IsStale(c', k) && StaleRow(c', k) == RowAt(w.cache, k) && c'.lastWriteback == w.cache.lastWriteback
  {
  }

  lemma StaleIsSent(sc: Schema, w: World, k: Key, now: nat, period: nat)
    requires IsStale(w.cache, k) && IsDue(StaleRow(w.cache, k), now) && !Throttled(w.cache, now, period)
    requires HomeRow(sc, k.id, StaleRow(w.cache, k))
    ensures k in Writeback(sc, w, now, period).table
  {
    var c := w.cache;
    hide PrimaryId, Storable;
    assert TargetOf(sc, k.name, SlotRows(c, k.id)[k.name]) == k;
    PassSendsTo(sc, w.table, c, now, c.dirty.Keys, k.id, k.name);
  }
}
