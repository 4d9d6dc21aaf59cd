/** What each step does to the cache, to the table and to the client, column by column and second by second. */
module Effects {
  import opened Wrappers
  import opened Decimal
  import opened Messages
  import opened Columns
  import opened CacheModel
  import opened Lines
  import opened Database
  import opened WriteThrough
  import opened Coherence

  ghost predicate SameRowAt(a: Table, b: Table, k: Key) {
    (k in a <==> k in b) && (k in a ==> a[k] == b[k])
  }

  // ---- Write-back ----

  /** A write-back that is not held back sends every unsaved row that was overwritten at least a second ago, or at
      time 0 every unsaved row, and changes no other row of the table. A cache object stays in the dirty map
      exactly as long as one of its rows was overwritten less than a second ago. */
  lemma WritebackIsExact(sc: Schema, w: World, unsaved: set<Key>, ref: Table, now: nat, period: nat, k: Key)
    requires Coherent(sc, w, unsaved, ref)
    requires w.cache.lastWriteback == 0 || (w.cache.lastWriteback - now) % 0x1_0000_0000_0000_0000 >= period
    ensures var w' := Writeback(sc, w, now, period);
      && (k in unsaved ==> IsCached(w.cache, k) && RowAt(w.cache, k).time != 0)
      && (k in unsaved && (now == 0 || now >= RowAt(w.cache, k).time + 1) ==>
            k in w'.table && w'.table[k] == Written(sc, RowAt(w.cache, k).message))
      && (k !in unsaved || 0 < now < RowAt(w.cache, k).time + 1 ==> SameRowAt(w'.table, w.table, k))
      && (k in unsaved && 0 < now < RowAt(w.cache, k).time + 1 ==> k.id in w'.cache.dirty)
      && (forall id :: id in w'.cache.dirty <==>
            id in w.cache.dirty &&
            exists name :: name in SlotRows(w.cache, id) && 0 < now <= SlotRows(w.cache, id)[name].time)
      && (forall id :: id in w'.cache.dirty ==> w'.cache.dirty[id] == w.cache.dirty[id])
      && w'.cache.resident == w.cache.resident && w'.cache.lastWriteback == now
  {
    hide SchemaOk, Sound, CleanRowsMatch, StaleRowsMatch, UnsavedRead, TableOk, Overlay, Pass, Written;
    PassIsExact(sc, w, unsaved, ref, now, period, k);
    DirtyIsExact(sc, w, now, period);
    if k in unsaved && 0 < now < RowAt(w.cache, k).time + 1 {
      assert SlotRows(w.cache, k.id)[k.name] == RowAt(w.cache, k);
    }
  }

  lemma PassIsExact(sc: Schema, w: World, unsaved: set<Key>, ref: Table, now: nat, period: nat, k: Key)
    requires Coherent(sc, w, unsaved, ref) && !Throttled(w.cache, now, period)
    ensures var table := Writeback(sc, w, now, period).table;
      && (k in unsaved ==> IsCached(w.cache, k) && RowAt(w.cache, k).time != 0)
      && (k in unsaved && (now == 0 || now >= RowAt(w.cache, k).time + 1) ==>
            k in table && table[k] == Written(sc, RowAt(w.cache, k).message))
      && (k !in unsaved || 0 < now < RowAt(w.cache, k).time + 1 ==> SameRowAt(table, w.table, k))
  {
    hide AtHome, Pass, Written, SchemaOk, StaleRowsMatch, UnsavedRead, TableOk, Overlay, CleanRowsMatch, Sends;
    var table, sent := Writeback(sc, w, now, period).table, SentKeys(w.cache, now);
    CoherentAtHome(sc, w, unsaved, ref);
    WritebackSends(sc, w, now, period);
    SendCoherent(sc, w, unsaved, ref, table, sent);
    SoundSlots(sc, w);
    PassAt(sc, w.table, w.cache, now, w.cache.dirty.Keys);
    hide Sound, Coherent;
    if k in unsaved {
      assert SlotRows(w.cache, k.id)[k.name] == RowAt(w.cache, k);
    }
  }

  lemma DirtyIsExact(sc: Schema, w: World, now: nat, period: nat)
    requires !Throttled(w.cache, now, period)
    ensures var c' := Writeback(sc, w, now, period).cache;
      && (forall id :: id in c'.dirty <==>
            id in w.cache.dirty &&
            exists name :: name in SlotRows(w.cache, id) && 0 < now <= SlotRows(w.cache, id)[name].time)
      && (forall id :: id in c'.dirty ==> c'.dirty[id] == w.cache.dirty[id])
      && c'.resident == w.cache.resident && c'.lastWriteback == now
  {
    hide Pass, SlotRows;
    forall id | id in w.cache.dirty
      ensures StillDirty(SlotRows(w.cache, id), now)
        <==> exists name :: name in SlotRows(w.cache, id) && 0 < now <= SlotRows(w.cache, id)[name].time
    {
      StillDirtyIs(SlotRows(w.cache, id), now);
    }
  }

  lemma StillDirtyIs(rows: Rows, now: nat)
    ensures StillDirty(rows, now) <==> exists name :: name in rows && 0 < now <= rows[name].time
  {
    if StillDirty(rows, now) {
      var name :| name in rows && rows[name].time != 0 && !IsDue(rows[name], now);
      assert 0 < now <= rows[name].time;
    }
  }

  /** One that is held back does nothing. */
  lemma ThrottledDoesNothing(sc: Schema, w: World, now: nat, period: nat)
    requires w.cache.lastWriteback != 0 && (w.cache.lastWriteback - now) % 0x1_0000_0000_0000_0000 < period
    ensures Writeback(sc, w, now, period) == w
  {
  }

  /** An evicted cache object leaves both maps and its overwritten rows are in the table, whatever their time;
      nothing else changes. */
  lemma EvictIsExact(sc: Schema, w: World, unsaved: set<Key>, ref: Table, id: nat, k: Key)
    requires Coherent(sc, w, unsaved, ref) && id in w.cache.resident
    ensures var w' := Evict(sc, w, id);
      && id !in w'.cache.resident && id !in w'.cache.dirty
      && (forall i :: i != id ==> (i in w'.cache.resident <==> i in w.cache.resident))
      && (forall i :: i in w'.cache.resident ==> w'.cache.resident[i] == w.cache.resident[i])
      && (forall i :: i != id ==> (i in w'.cache.dirty <==> i in w.cache.dirty))
      && (forall i :: i in w'.cache.dirty ==> w'.cache.dirty[i] == w.cache.dirty[i])
      && w'.cache.lastWriteback == w.cache.lastWriteback
      && SentWith(sc, w, w'.table, id, k)
  {
    hide Coherent, Saved, SentWith;
    SavedIsExact(sc, w, unsaved, ref, id, k);
  }

  /** Of the rows under an id those that were ever overwritten are in the table, and no other row changes. */
  ghost predicate SentWith(sc: Schema, w: World, table: Table, id: nat, k: Key) {
    && (k.id == id && IsCached(w.cache, k) && RowAt(w.cache, k).time != 0 ==>
          k in table && table[k] == Written(sc, RowAt(w.cache, k).message))
    && (k.id != id || !IsCached(w.cache, k) || RowAt(w.cache, k).time == 0 ==> SameRowAt(table, w.table, k))
  }

  lemma SavedIsExact(sc: Schema, w: World, unsaved: set<Key>, ref: Table, id: nat, k: Key)
    requires Coherent(sc, w, unsaved, ref) && id in w.cache.resident
    ensures SentWith(sc, w, Saved(sc, w.table, w.cache.resident[id], 0), id, k)
  {
    CoherentAtHome(sc, w, unsaved, ref);
    RowsAtHome(sc, w.cache, id);
    SavedAt(sc, w.table, id, w.cache.resident[id], 0);
    hide Coherent, AtHome, HomeRows, Saved, Written;
  }

  /** A flush of one id takes its cache object out of the resident map and leaves it in the dirty map, if it was
      there, as one that is resident no more; its overwritten rows are in the table. */
  lemma FlushKeyIsExact(sc: Schema, w: World, unsaved: set<Key>, ref: Table, id: nat, period: nat, k: Key)
    requires Coherent(sc, w, unsaved, ref) && id in w.cache.resident && id != 0
    ensures var w' := OnFlush(sc, w, id, period);
      && id !in w'.cache.resident && (id in w'.cache.dirty <==> id in w.cache.dirty)
      && (id in w.cache.dirty ==> w'.cache.dirty[id] == Stale(SlotRows(w.cache, id)))
      && (forall i :: i != id ==> (i in w'.cache.resident <==> i in w.cache.resident))
      && (forall i :: i in w'.cache.resident ==> w'.cache.resident[i] == w.cache.resident[i])
      && (forall i :: i != id ==> (i in w'.cache.dirty <==> i in w.cache.dirty))
      && (forall i :: i in w'.cache.dirty && i != id ==> w'.cache.dirty[i] == w.cache.dirty[i])
      && SentWith(sc, w, w'.table, id, k)
  {
    hide Coherent, Saved, SentWith, SlotRows;
    SavedIsExact(sc, w, unsaved, ref, id, k);
  }

  /** A flush of an id without a cache object does nothing. */
  lemma FlushOfNothing(sc: Schema, w: World, id: nat, period: nat)
    requires id !in w.cache.resident && id != 0
    ensures OnFlush(sc, w, id, period) == w
  {
  }

  /** A flush of everything that is held back sends nothing, and drops all cache objects all the same; what was
      in the dirty map stays there. */
  lemma ThrottledFlushDrops(sc: Schema, w: World, period: nat)
    requires w.cache.lastWriteback != 0 && w.cache.lastWriteback % 0x1_0000_0000_0000_0000 < period
    ensures var w' := OnFlush(sc, w, 0, period);
      && w'.table == w.table && w'.cache.resident == map[]
      && w'.cache.dirty.Keys == w.cache.dirty.Keys
      && (forall id :: id in w.cache.dirty && (id in w.cache.resident || w.cache.dirty[id].Stale?) ==>
            w'.cache.dirty[id] == Stale(SlotRows(w.cache, id)))
  {
    hide SlotRows;
    SlotsOf(w.cache);
  }

  lemma SlotsOf(c: Cache)
    ensures forall id :: id in c.dirty && c.dirty[id].Stale? ==> c.dirty[id] == Stale(SlotRows(c, id))
  {
  }

  // ---- One row of the cache ----

  /** All other rows, and what the dirty map has for other ids, are as they were. */
  ghost predicate OthersKept(c: Cache, c': Cache, k: Key) {
    && (forall j :: j != k ==> (IsCached(c', j) <==> IsCached(c, j)))
    && (forall j :: j != k && IsCached(c, j) ==> RowAt(c', j) == RowAt(c, j))
    && (forall id :: id != k.id ==> (id in c'.dirty <==> id in c.dirty))
    && (forall id :: id != k.id && id in c.dirty ==> c'.dirty[id] == c.dirty[id])
    && c'.lastWriteback == c.lastWriteback
  }

  /** A cached row becomes the given one, every field set, marked with the time, and its cache object dirty. A
      missing row is put as it is, without a time; its cache object is dirty if it is not new. */
  ghost predicate HoldsNow(sc: Schema, c: Cache, c': Cache, k: Key, m: Message, at: nat)
    requires Copyable(FieldsOf(sc, k.name))
  {
    && OthersKept(c, c', k) && IsCached(c', k)
    && RowAt(c', k) == (if IsCached(c, k) then Row(Filled(m, FieldsOf(sc, k.name)), at) else Row(m, 0))
    && (k.id in c.resident ==> k.id in c'.dirty && c'.dirty[k.id] == Same)
    && (k.id !in c.resident ==> (k.id in c'.dirty <==> k.id in c.dirty))
    && (k.id !in c.resident && k.id in c.dirty ==> c'.dirty[k.id] == c.dirty[k.id])
  }

  lemma SetDataIsExact(sc: Schema, c: Cache, k: Key, m: Message, at: nat)
    requires Total(sc) && IsMessage(sc, m) && m.typeName == k.name && k.id >= 0
    ensures Copyable(FieldsOf(sc, k.name))
    ensures SetData(sc, c, k.id, m, at).1 && HoldsNow(sc, c, SetData(sc, c, k.id, m, at).0, k, m, at)
  {
    hide Total, IsMessage, Filled, Whole, PrimaryId, Storable, SchemaOk;
    TotalFacts(sc, m);
    TotalSchema(sc);
    FilledOk(sc, m);
    TotalFacts(sc, Filled(m, FieldsOf(sc, m.typeName)));
    SetDataHolds(sc, c, k, m, at);
  }

  lemma SetDataHolds(sc: Schema, c: Cache, k: Key, m: Message, at: nat)
    requires m.typeName == k.name && k.id >= 0 && k.name in sc.pool && Copyable(FieldsOf(sc, k.name))
    requires sc.codec.serialize(m).Some? && sc.codec.serialize(Filled(m, FieldsOf(sc, k.name))).Some?
    ensures SetData(sc, c, k.id, m, at).1 && HoldsNow(sc, c, SetData(sc, c, k.id, m, at).0, k, m, at)
  {
    hide Filled, FieldsOf;
  }

  /** After a select that was answered, from the cache or from the table, the row is cached. */
  lemma SelectFills(sc: Schema, w: World, k: Key, at: nat)
    requires Total(sc) && Sound(sc, w) && Keyed(sc, k.name) && k.id >= 0
    ensures Copyable(FieldsOf(sc, k.name))
    ensures var w', found := OnSelect(sc, w, k, at),
                             if IsCached(w.cache, k) then Some(RowAt(w.cache, k).message) else DbSelect(sc, w.table, k);
      && w'.table == w.table
      && (found.None? ==> w'.cache == w.cache)
      && (found.Some? ==> HoldsNow(sc, w.cache, w'.cache, k, found.value, at))
  {
    hide Sound, IsMessage, Total, SchemaOk, TableOk, SetData, PrimaryId, Storable, DbSelect, Whole, HoldsNow;
    KeyColumn(sc, k.name);
    TotalSchema(sc);
    TotalCopies(sc, k.name);
    if IsCached(w.cache, k) {
      CachedOk(sc, w, k);
    } else if DbSelect(sc, w.table, k).Some? {
      SoundTable(sc, w);
      SelectedOk(sc, w.table, k);
    }
    if Reply(sc, w, k).Some? {
      var reply := Reply(sc, w, k).value;
      TotalFacts(sc, reply);
      SetDataIsExact(sc, w.cache, k, reply, at);
    }
  }

  lemma TotalCopies(sc: Schema, name: string)
    requires Total(sc) && name in sc.pool
    ensures Copyable(FieldsOf(sc, name))
  {
  }

  lemma SoundTable(sc: Schema, w: World)
    requires Sound(sc, w)
    ensures TableOk(sc, w.table)
  {
    hide TableOk, RowOk;
  }

  /** An update goes into the cache alone. */
  lemma UpdateFills(sc: Schema, w: World, m: Message, at: nat)
    requires Total(sc) && IsMessage(sc, m) && PrimaryId(sc, m).Some?
    ensures Copyable(FieldsOf(sc, m.typeName))
    ensures var w', k := OnUpdate(sc, w, m, at), Key(PrimaryId(sc, m).value % 0x1_0000_0000_0000_0000, m.typeName);
      && w'.table == w.table && HoldsNow(sc, w.cache, w'.cache, k, m, at)
      && Told(sc, w, Update(m, 1)) == Outcome(0, Nothing)
  {
    hide IsMessage, Total, SetData, PrimaryId, Storable, DbUpdate, HoldsNow;
    TotalFacts(sc, m);
    SetDataIsExact(sc, w.cache, KeyOf(sc, m), m, at);
    SetDataIsExact(sc, w.cache, KeyOf(sc, m), m, 1);
  }

  /** An insert goes into the cache, if its id has no cache object yet, and to the table in any case. */
  lemma InsertFills(sc: Schema, w: World, m: Message)
    requires Total(sc) && IsMessage(sc, m) && PrimaryId(sc, m).Some?
    ensures var w', k := OnInsert(sc, w, m), Key(PrimaryId(sc, m).value % 0x1_0000_0000_0000_0000, m.typeName);
      && w'.table == RefStep(sc, w.table, Insert(m))
      && (k.id in w.cache.resident ==> w'.cache == w.cache)
      && (k.id !in w.cache.resident ==>
            OthersKept(w.cache, w'.cache, k) && IsCached(w'.cache, k) && RowAt(w'.cache, k) == Row(m, 0)
            && w'.cache.dirty == w.cache.dirty)
  {
    hide IsMessage, Total, PrimaryId, Storable, DbInsert;
    TotalFacts(sc, m);
  }

  /** A delete takes the row out of the cache, and out of the table. */
  lemma DeleteClears(w: World, k: Key)
    requires k.id >= 0
    ensures var w' := OnDelete(w, k);
      && !IsCached(w'.cache, k) && OthersKept(w.cache, w'.cache, k) && w'.cache.dirty == w.cache.dirty
      && k !in w'.table && (forall j :: j != k ==> SameRowAt(w'.table, w.table, j))
      && (DelData(w.cache, k.id, k.name).1 <==> IsCached(w.cache, k))
  {
  }

  /** A message that does not serialize goes past the cache. */
  lemma GoesPastTheCache(sc: Schema, w: World, m: Message, at: nat)
    requires PrimaryId(sc, m).Some? && sc.codec.serialize(m).None?
    ensures OnUpdate(sc, w, m, at) == World(w.cache, RefStep(sc, w.table, Update(m, at)))
    ensures OnInsert(sc, w, m) == World(w.cache, RefStep(sc, w.table, Insert(m)))
    ensures !Takes(sc, w, m, at)
  {
    hide DbUpdate, DbInsert, PrimaryId;
  }

  /** The cache refuses to overwrite a row with a message that cannot be copied, or whose copy does not serialize.
      An update then goes to the table. */
  lemma RefusedOverwrite(sc: Schema, w: World, m: Message, at: nat)
    requires PrimaryId(sc, m).Some? && IsCached(w.cache, KeyOf(sc, m)) && sc.codec.serialize(m).Some?
    requires !Copyable(FieldsOf(sc, m.typeName)) || sc.codec.serialize(Filled(m, FieldsOf(sc, m.typeName))).None?
    ensures SetData(sc, w.cache, KeyOf(sc, m).id, m, at) == (w.cache, false)
    ensures OnUpdate(sc, w, m, at) == World(w.cache, RefStep(sc, w.table, Update(m, at)))
    ensures !Takes(sc, w, m, at)
  {
    hide DbUpdate, PrimaryId, Filled;
  }

  /** A row that does not serialize is not put, and leaves an empty cache object under a new id. */
  lemma FailedAddLeaves(sc: Schema, c: Cache, id: nat, m: Message)
    requires sc.codec.serialize(m).None?
    ensures var (c', ok) := AddData(sc, c, id, m);
      && !ok && (forall k :: IsCached(c', k) <==> IsCached(c, k)) && c'.dirty == c.dirty
      && (forall i :: i in c'.resident <==> i == id || i in c.resident)
  {
  }

  // ---- What the table does, and what it tells the client ----

  /** The row of a message: in the column of each set field the field's text, in the others what was there, or the
      default. */
  ghost predicate Carries(sc: Schema, row: Line, base: Line, m: Message) {
    && row.Keys == base.Keys + m.fields.Keys
    && (forall c :: c in m.fields ==> Some(row[c]) == TextOf(sc.rt, m, FieldsOf(sc, m.typeName), c))
    && (forall c :: c in row && c !in m.fields ==> row[c] == base[c])
  }

  lemma CarriesWritten(sc: Schema, base: Line, m: Message)
    requires IsMessage(sc, m) && Storable(sc, m)
    ensures Carries(sc, base + Written(sc, m), base, m)
  {
    WrittenKeys(sc, m);
    hide IsMessage, Storable, TextOf;
  }

  ghost predicate OtherRowsKept(table: Table, table': Table, k: Key) {
    forall j :: j != k ==> SameRowAt(table', table, j)
  }

  /** An insert is told to have succeeded exactly when its row was not there and is now; a row that is there is
      kept, and reported as MySQL's error; a message that no statement can be made of is the protocol error. */
  lemma InsertIsTold(sc: Schema, table: Table, m: Message)
    requires IsMessage(sc, m) && PrimaryId(sc, m).Some?
    ensures var k, after, told := Key(PrimaryId(sc, m).value, m.typeName), RefStep(sc, table, Insert(m)),
                                  RefTold(sc, table, Insert(m));
      && told.content == Nothing && OtherRowsKept(table, after, k)
      && (told.code == 0 <==> k !in table && k in after)
      && (told.code == 0 <==> Storable(sc, m) && k !in table)
      && (told.code == 3 <==> Storable(sc, m) && k in table)
      && (told.code == 2 <==> !Storable(sc, m))
      && (told.code != 0 ==> after == table)
      && (told.code == 0 ==> Carries(sc, after[k], Blank(sc, m.typeName), m))
  {
    hide IsMessage, PrimaryId, Storable, Written, Carries;
    if Storable(sc, m) {
      CarriesWritten(sc, Blank(sc, m.typeName), m);
    }
  }

  /** An update is told to have succeeded exactly when the row is there afterwards with the text of each set field,
      and there is one. */
  lemma UpdateIsTold(sc: Schema, table: Table, m: Message, at: nat)
    requires IsMessage(sc, m) && PrimaryId(sc, m).Some?
    ensures var k, after, told := Key(PrimaryId(sc, m).value, m.typeName), RefStep(sc, table, Update(m, at)),
                                  RefTold(sc, table, Update(m, at));
      && told.content == Nothing && OtherRowsKept(table, after, k)
      && (told.code == 0 <==> Storable(sc, m) && m.fields != map[])
      && (told.code == 3 <==> Storable(sc, m) && m.fields == map[])
      && (told.code == 2 <==> !Storable(sc, m))
      && (told.code != 0 ==> after == table)
      && (told.code == 0 ==>
            k in after && Carries(sc, after[k], if k in table then table[k] else Blank(sc, m.typeName), m))
  {
    hide IsMessage, PrimaryId, Storable, Written, Carries;
    if Storable(sc, m) {
      CarriesWritten(sc, if RowKey(sc, m) in table then table[RowKey(sc, m)] else Blank(sc, m.typeName), m);
    }
  }

  lemma DeleteIsTold(sc: Schema, table: Table, k: Key)
    ensures RefTold(sc, table, Delete(k)) == Outcome(0, Nothing)
    ensures k !in RefStep(sc, table, Delete(k)) && OtherRowsKept(table, RefStep(sc, table, Delete(k)), k)
  {
  }

  /** A select finds an empty message when there is no row, and otherwise what its columns read as, each up to the
      first NUL; when one cannot be read it is the protocol error. */
  lemma SelectIsTold(sc: Schema, table: Table, k: Key, at: nat)
    ensures var told := RefTold(sc, table, Select(k, at));
      && RefStep(sc, table, Select(k, at)) == table
      && (k !in table ==> told == Outcome(0, One(Message(k.name, map[]))))
      && (k in table ==>
            var fields, row := FieldsOf(sc, k.name), table[k];
            && (told.code == 0 <==> forall c :: c in row ==> ReadOf(sc.rt, fields, Column(c, row[c])).Some?)
            && (told.code == 0 ==>
                  && told.content.One? && told.content.message.typeName == k.name
                  && told.content.message.fields.Keys == row.Keys
                  && (forall c :: c in row ==>
                        Some(told.content.message.fields[c]) == ReadOf(sc.rt, fields, Column(c, row[c]))))
            && (told.code != 0 ==> told == Outcome(2, Nothing)))
  {
    hide ReadOf;
  }

  /** A query finds exactly the rows of its type that meet its condition, each as a select reads it; when one of
      them cannot be read it is the protocol error. */
  lemma QueryIsTold(sc: Schema, table: Table, name: string, p: Line -> bool)
    ensures var told := RefTold(sc, table, Query(name, p));
      && RefStep(sc, table, Query(name, p)) == table
      && (told.code == 0 <==>
            forall k :: k in table && k.name == name && p(table[k]) ==> DbSelect(sc, table, k).Some?)
      && (told.code == 0 ==>
            && told.content.Many?
            && (forall k :: k in told.content.rows <==> k in table && k.name == name && p(table[k]))
            && (forall k :: k in told.content.rows ==> Some(told.content.rows[k]) == DbSelect(sc, table, k)))
      && (told.code != 0 ==> told == Outcome(2, Nothing))
  {
    hide DbSelect;
  }

  /** With the cache: a cached row is told as it is cached, anything else that goes to the table as the table
      tells it. */
  lemma CacheIsTold(sc: Schema, w: World, e: Event)
    requires IsCommand(sc, e)
    ensures e.Select? && IsCached(w.cache, e.key) ==>
      Told(sc, w, e) == Outcome(0, One(RowAt(w.cache, e.key).message))
    ensures (e.Select? && !IsCached(w.cache, e.key)) || e.Insert? || e.Delete? || e.Query? ==>
      Told(sc, w, e) == RefTold(sc, w.table, e)
  {
    hide DbSelect, DbQuery, IsMessage;
  }

  // ---- Keys ----

  /** A type has an integer key when the field that is named as its key is of one of the four integer kinds. */
  lemma KeyedIsExact(sc: Schema, name: string)
    requires PoolOk(sc.pool)
    ensures Keyed(sc, name) <==>
      && name in sc.pool
      && (exists f :: f in sc.pool[name].fields && f.name == sc.pool[name].primaryKey
            && (f.kind == Int32 || f.kind == UInt32 || f.kind == Int64 || f.kind == UInt64))
  {
    if name in sc.pool {
      forall f | f in sc.pool[name].fields && f.name == sc.pool[name].primaryKey
        ensures PrimaryField(sc, name) == Some(f)
      {
        FindFieldSelf(sc.pool[name].fields, f);
      }
    }
  }

  /** The key of a message is the value of that field, and 0 when it is unset. */
  lemma PrimaryIdIsExact(sc: Schema, m: Message, f: Field)
    requires PoolOk(sc.pool) && IsMessage(sc, m) && f in sc.pool[m.typeName].fields
    requires f.name == sc.pool[m.typeName].primaryKey && Keyed(sc, m.typeName)
    ensures f.name in m.fields ==> m.fields[f.name].IntValue? && PrimaryId(sc, m) == Some(m.fields[f.name].i)
    ensures f.name !in m.fields ==> PrimaryId(sc, m) == Some(0)
  {
    FindFieldSelf(sc.pool[m.typeName].fields, f);
  }

  // ---- Copies ----

  /** A copy has every field: a set one as it is, an unset one as zero, as an empty text, or as an empty message of
      the field's type. */
  lemma CopyIsExact(m: Message, fields: seq<Field>, f: Field)
    requires DistinctNames(fields) && Copyable(fields) && f in fields
    ensures var copy := Filled(m, fields);
      && copy.typeName == m.typeName && f.name in copy.fields
      && (f.name in m.fields ==> copy.fields[f.name] == m.fields[f.name])
      && (f.name !in m.fields ==>
            var v := copy.fields[f.name];
            && (f.kind in {Int32, UInt32, Int64, UInt64} ==> v == IntValue(0))
            && (f.kind in {Double, Float} ==> v == RealValue(0))
            && (f.kind == Text ==> v == TextValue(""))
            && (f.kind.Nested? ==> v == NestedValue(Message(f.kind.typeName, map[]))))
  {
    FindFieldSelf(fields, f);
    FieldNamesIn(fields, f);
  }
}
