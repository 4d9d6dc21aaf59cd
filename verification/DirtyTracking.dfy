/** What the dirty map guarantees on every run, safe or not. */
module DirtyTracking {
  import opened Wrappers
  import opened Messages
  import opened Columns
  import opened CacheModel
  import opened Lines
  import opened WriteThrough
  import opened Coherence

  /** A throttled flush of everything drops rows it has not sent. */
  ghost predicate Forgets(w: World, unsaved: set<Key>, period: nat, e: Event) {
    e == Flush(0) && Throttled(w.cache, 0, period) && unsaved != {}
  }

  // ---- Soundness ----

  ghost predicate RowsOk(sc: Schema, rows: Rows) {
    forall name :: name in rows && rows[name].time != 0 ==> RowOk(sc, name, rows[name])
  }

  lemma SavedTyped(sc: Schema, table: Table, rows: Rows, now: nat)
    requires TableOk(sc, table) && RowsOk(sc, rows)
    ensures TableOk(sc, Saved(sc, table, rows, now))
  {
    hide IsMessage, PrimaryId, Whole, LineOk, Keyed, Storable, Written, TargetOf;
    forall k | k in SavedKeys(sc, rows, now)
      ensures Keyed(sc, k.name) && LineOk(sc, k, Written(sc, rows[k.name].message))
    {
      TargetIsRowKey(sc, k.name, rows[k.name]);
      WholeLine(sc, rows[k.name].message);
    }
  }

  lemma TargetIsRowKey(sc: Schema, name: string, row: Row)
    requires RowOk(sc, name, row) && row.time != 0
    ensures TargetOf(sc, name, row) == RowKey(sc, row.message)
  {
  }

  lemma SlotRowsOk(sc: Schema, w: World, id: nat)
    requires Sound(sc, w)
    ensures id in w.cache.resident ==> RowsOk(sc, w.cache.resident[id])
    ensures id in w.cache.dirty ==> RowsOk(sc, SlotRows(w.cache, id))
  {
    hide RowOk, TableOk;
    if id in w.cache.resident {
      assert forall name :: name in w.cache.resident[id] ==> IsCached(w.cache, Key(id, name));
    }
    if id in w.cache.dirty && w.cache.dirty[id].Stale? {
      assert forall name :: name in w.cache.dirty[id].rows && w.cache.dirty[id].rows[name].time != 0 ==>
        IsStale(w.cache, Key(id, name));
    }
  }

  lemma {:induction false} PassTyped(sc: Schema, w: World, now: nat, ids: set<nat>)
    requires Sound(sc, w) && ids <= w.cache.dirty.Keys
    ensures TableOk(sc, Pass(sc, w.table, w.cache, now, ids))
  {
    hide TableOk, RowsOk, SlotRows, Saved, IsStale, IsCached, RowOk;
    if ids != {} {
      var id := Last(ids);
      PassTyped(sc, w, now, ids - {id});
      SlotRowsOk(sc, w, id);
      SavedTyped(sc, Pass(sc, w.table, w.cache, now, ids - {id}), SlotRows(w.cache, id), now);
    }
  }

  /** A cache that holds no row the other does not hold is as sound. */
  ghost predicate Within(c': Cache, c: Cache) {
    && (forall k :: IsCached(c', k) ==> IsCached(c, k) && RowAt(c', k) == RowAt(c, k))
    && (forall k :: IsStale(c', k) ==>
          || (IsStale(c, k) && StaleRow(c', k) == StaleRow(c, k))
          || (IsCached(c, k) && StaleRow(c', k) == RowAt(c, k)))
    && (forall id :: id in c'.dirty && c'.dirty[id] == Same ==> id in c'.resident)
  }

  lemma WithinSound(sc: Schema, w: World, c': Cache, table: Table)
    requires Sound(sc, w) && Within(c', w.cache) && TableOk(sc, table)
    ensures Sound(sc, World(c', table))
  {
    hide RowOk, TableOk, IsCached, IsStale;
  }

  lemma DropWithin(c: Cache, ids: set<nat>)
    requires forall id :: id in c.dirty && c.dirty[id] == Same ==> id in c.resident
    ensures Within(Drop(c, ids), c)
  {
  }

  lemma LessWithin(c: Cache, gone: set<nat>, kept: set<nat>, last: nat)
    requires forall id :: id in c.dirty && c.dirty[id] == Same ==> id in c.resident
    requires gone !! kept
    ensures Within(Cache(c.resident - gone, map id | id in c.dirty && id in kept :: c.dirty[id], last), c)
  {
  }

  lemma EvictSound(sc: Schema, w: World, id: nat)
    requires Sound(sc, w) && id in w.cache.resident
    ensures Sound(sc, Evict(sc, w, id))
  {
    hide Sound, Within, Saved, TableOk, RowsOk;
    SoundSlots(sc, w);
    SlotRowsOk(sc, w, id);
    SoundTable(sc, w);
    SavedTyped(sc, w.table, w.cache.resident[id], 0);
    LessWithin(w.cache, {id}, w.cache.dirty.Keys - {id}, w.cache.lastWriteback);
    var c' := Evict(sc, w, id).cache;
    assert c' == Cache(w.cache.resident - {id},
                       map i | i in w.cache.dirty && i in w.cache.dirty.Keys - {id} :: w.cache.dirty[i],
                       w.cache.lastWriteback);
    WithinSound(sc, w, c', Saved(sc, w.table, w.cache.resident[id], 0));
  }

  lemma SoundTable(sc: Schema, w: World)
    requires Sound(sc, w)
    ensures TableOk(sc, w.table)
  {
  }

  lemma WritebackSound(sc: Schema, w: World, now: nat, period: nat)
    requires Sound(sc, w)
    ensures Sound(sc, Writeback(sc, w, now, period))
  {
    hide Sound, Within, Pass, TableOk, StillDirty, SlotRows;
    if !Throttled(w.cache, now, period) {
      var c := w.cache;
      var kept := set id | id in c.dirty && StillDirty(SlotRows(c, id), now);
      SoundSlots(sc, w);
      PassTyped(sc, w, now, c.dirty.Keys);
      LessWithin(c, {}, kept, now);
      var c' := Writeback(sc, w, now, period).cache;
      assert c' == Cache(c.resident - {}, map id | id in c.dirty && id in kept :: c.dirty[id], now);
      WithinSound(sc, w, c', Pass(sc, w.table, c, now, c.dirty.Keys));
    }
  }

  lemma FlushSound(sc: Schema, w: World, id: nat, period: nat)
    requires Sound(sc, w)
    ensures Sound(sc, OnFlush(sc, w, id, period))
  {
    if id != 0 && id in w.cache.resident {
      SlotRowsOk(sc, w, id);
      SavedTyped(sc, w.table, w.cache.resident[id], 0);
      DropWithin(w.cache, {id});
      hide Sound, Within, Saved, TableOk, RowsOk, Drop;
      WithinSound(sc, w, Drop(w.cache, {id}), Saved(sc, w.table, w.cache.resident[id], 0));
    } else if id == 0 {
      var saved := Writeback(sc, w, 0, period);
      WritebackSound(sc, w, 0, period);
      DropWithin(saved.cache, saved.cache.resident.Keys);
      WithinSound(sc, saved, Drop(saved.cache, saved.cache.resident.Keys), saved.table);
      hide Sound, Within, TableOk, Drop, Writeback;
    }
  }

  // ---- Overwriting and filling ----

  lemma PutKeeps(sc: Schema, w: World, unsaved: set<Key>, k: Key, m: Message, at: nat)
    requires Total(sc) && Sound(sc, w) && Tracked(w.cache, unsaved) && at != 0 && k.id >= 0
    requires IsMessage(sc, m) && m.typeName == k.name && PrimaryId(sc, m).Some?
    ensures var (c', taken) := SetData(sc, w.cache, k.id, m, at);
      && taken && Sound(sc, w.(cache := c'))
      && Tracked(c', if IsCached(w.cache, k) then unsaved + {k} else unsaved)
  {
    hide Total, SchemaOk, Sound, Tracked, Puts, SetData, Filled, IsMessage, PrimaryId, Storable, Whole;
    var c' := SetData(sc, w.cache, k.id, m, at).0;
    TotalFacts(sc, m);
    TotalSchema(sc);
    SoundSlots(sc, w);
    UnsavedCached(w.cache, unsaved, k);
    if IsCached(w.cache, k) {
      var row := Row(Filled(m, FieldsOf(sc, k.name)), at);
      OverwriteShape(sc, w.cache, k, m, at);
      FilledOk(sc, m);
      RowIsOk(sc, k.name, row);
      PutSound(sc, w, c', k, row);
      OverwriteTracked(w.cache, c', unsaved, k, row);
    } else {
      FillShape(sc, w.cache, k, m, at);
      RowIsOk(sc, k.name, Row(m, 0));
      PutSound(sc, w, c', k, Row(m, 0));
      PutTracked(w.cache, c', unsaved, k, Row(m, 0));
    }
  }

  lemma SelectKeeps(sc: Schema, w: World, unsaved: set<Key>, k: Key, at: nat)
    requires Total(sc) && Sound(sc, w) && Tracked(w.cache, unsaved) && at != 0 && Keyed(sc, k.name) && k.id >= 0
    ensures Sound(sc, OnSelect(sc, w, k, at))
    ensures Tracked(OnSelect(sc, w, k, at).cache, if IsCached(w.cache, k) then unsaved + {k} else unsaved)
  {
    hide Sound, Tracked, IsMessage, Total, SchemaOk, TableOk, SetData, PrimaryId, Storable, DbSelect, Whole;
    KeyColumn(sc, k.name);
    TotalSchema(sc);
    SoundSlots(sc, w);
    if IsCached(w.cache, k) {
      CachedOk(sc, w, k);
    }
    if Reply(sc, w, k).Some? {
      var reply := Reply(sc, w, k).value;
      if !IsCached(w.cache, k) {
        SelectedOk(sc, w.table, k);
      }
      KeyedId(sc, reply);
      TotalFacts(sc, reply);
      PutKeeps(sc, w, unsaved, k, reply, at);
    }
  }

  lemma UpdateKeeps(sc: Schema, w: World, unsaved: set<Key>, m: Message, at: nat)
    requires Total(sc) && Sound(sc, w) && Tracked(w.cache, unsaved) && at != 0
    requires IsMessage(sc, m) && PrimaryId(sc, m).Some?
    ensures Sound(sc, OnUpdate(sc, w, m, at))
    ensures var k := KeyOf(sc, m);
      Tracked(OnUpdate(sc, w, m, at).cache, if IsCached(w.cache, k) then unsaved + {k} else unsaved)
  {
    hide Sound, Tracked, IsMessage, Total, SetData, PrimaryId, OnUpdate;
    UpdatedWorld(sc, w, m, at);
    PutKeeps(sc, w, unsaved, KeyOf(sc, m), m, at);
  }

  lemma InsertKeeps(sc: Schema, w: World, unsaved: set<Key>, m: Message)
    requires Total(sc) && Sound(sc, w) && Tracked(w.cache, unsaved)
    requires IsMessage(sc, m) && PrimaryId(sc, m).Some?
    ensures Sound(sc, OnInsert(sc, w, m)) && Tracked(OnInsert(sc, w, m).cache, unsaved)
  {
    hide Total, SchemaOk, Sound, Tracked, Puts, DbInsert, AddData, IsMessage, PrimaryId, Storable, RowOk;
    var k := KeyOf(sc, m);
    var mid := w.(table := DbInsert(sc, w.table, RowKey(sc, m), m));
    TotalFacts(sc, m);
    TotalSchema(sc);
    InsertSound(sc, w, m);
    if k.id in w.cache.resident {
      InsertKeepsCache(sc, w, m);
    } else {
      var c' := AddData(sc, w.cache, k.id, m).0;
      assert OnInsert(sc, w, m) == mid.(cache := c');
      SoundSlots(sc, w);
      NotResident(w.cache, k);
      UnsavedCached(w.cache, unsaved, k);
      AddShape(sc, w.cache, k, m);
      RowIsOk(sc, k.name, Row(m, 0));
      PutSound(sc, mid, c', k, Row(m, 0));
      PutTracked(w.cache, c', unsaved, k, Row(m, 0));
    }
  }

  lemma DeleteKeeps(sc: Schema, w: World, unsaved: set<Key>, k: Key)
    requires Sound(sc, w) && Tracked(w.cache, unsaved) && k.id >= 0
    ensures Sound(sc, OnDelete(w, k)) && Tracked(OnDelete(w, k).cache, unsaved - {k})
  {
    DeleteShape(w, k);
    DeleteSound(sc, w, OnDelete(w, k), k);
    hide Sound, OnDelete, IsCached;
  }

  // ---- Every run ----

  lemma FlushTracked(sc: Schema, w: World, unsaved: set<Key>, id: nat, period: nat)
    requires Tracked(w.cache, unsaved)
    ensures Tracked(OnFlush(sc, w, id, period).cache, Unsaved(sc, period, w, unsaved, Flush(id)))
      <==> !Forgets(w, unsaved, period, Flush(id))
  {
    if id != 0 {
      if id in w.cache.resident {
        AllDueAtZero(w, unsaved, id);
      }
    } else if Throttled(w.cache, 0, period) {
      if unsaved != {} {
        var k :| k in unsaved;
        assert !IsCached(OnFlush(sc, w, 0, period).cache, k);
      }
    } else {
      NothingUnsavedAtZero(w, unsaved);
    }
  }

  lemma EvictTracked(sc: Schema, w: World, unsaved: set<Key>, id: nat)
    requires Tracked(w.cache, unsaved) && id in w.cache.resident
    ensures Tracked(Evict(sc, w, id).cache, unsaved - DueKeys(id, w.cache.resident[id], 0))
  {
    AllDueAtZero(w, unsaved, id);
    hide Saved;
  }

  lemma TickKeeps(sc: Schema, w: World, unsaved: set<Key>, now: nat, victim: Option<nat>, period: nat)
    requires Sound(sc, w) && Tracked(w.cache, unsaved) && (victim.Some? ==> victim.value in w.cache.resident)
    ensures Sound(sc, OnTick(sc, w, now, victim, period))
    ensures Tracked(OnTick(sc, w, now, victim, period).cache, Unsaved(sc, period, w, unsaved, Tick(now, victim)))
  {
    hide Sound, Tracked, Evict, DueKeys, Writeback;
    var mid, left := w, unsaved;
    if victim.Some? {
      var id := victim.value;
      mid, left := Evict(sc, w, id), unsaved - DueKeys(id, w.cache.resident[id], 0);
      EvictSound(sc, w, id);
      EvictTracked(sc, w, unsaved, id);
    }
    WritebackSound(sc, mid, now, period);
    WritebackTracked(sc, mid, left, now, period);
  }

  lemma WritebackTracked(sc: Schema, w: World, unsaved: set<Key>, now: nat, period: nat)
    requires Tracked(w.cache, unsaved)
    ensures Tracked(Writeback(sc, w, now, period).cache, LeftBy(w, unsaved, now, period))
  {
    if !Throttled(w.cache, now, period) {
      UnsentStillDirty(sc, w, unsaved, now, period);
      hide SentKeys, StillDirty, Pass;
    }
  }

  /** Whatever happens, except a throttled flush of everything: a row that was overwritten in the cache and
      not sent since is resident, carries a time, and its very cache object is in the dirty map. */
  lemma StepTracked(sc: Schema, period: nat, w: World, unsaved: set<Key>, e: Event)
    requires Total(sc) && Sound(sc, w) && Tracked(w.cache, unsaved) && ValidEvent(sc, w, e)
    ensures Sound(sc, Step(sc, period, w, e))
    ensures Tracked(Step(sc, period, w, e).cache, Unsaved(sc, period, w, unsaved, e))
      <==> !Forgets(w, unsaved, period, e)
  {
    hide Sound, Tracked, Total, IsMessage, OnSelect, OnUpdate, OnInsert, OnDelete, OnFlush, OnTick, Throttled;
    match e
    case Select(k, at) => SelectKeeps(sc, w, unsaved, k, at);
    case Update(m, at) => UpdateKeeps(sc, w, unsaved, m, at);
    case Insert(m) => InsertKeeps(sc, w, unsaved, m);
    case Delete(k) => DeleteKeeps(sc, w, unsaved, k);
    case Query(_, _) =>
    case Flush(id) =>
      FlushSound(sc, w, id, period);
      FlushTracked(sc, w, unsaved, id, period);
    case Tick(now, victim) => TickKeeps(sc, w, unsaved, now, victim, period);
  }

  datatype Point = Point(world: World, unsaved: set<Key>)

  ghost predicate IsRun(sc: Schema, period: nat, points: seq<Point>, events: seq<Event>) {
    && |points| == |events| + 1
    && (forall i :: 0 <= i < |events| ==>
          && ValidEvent(sc, points[i].world, events[i])
          && !Forgets(points[i].world, points[i].unsaved, period, events[i])
          && points[i + 1] == Point(Step(sc, period, points[i].world, events[i]),
                                    Unsaved(sc, period, points[i].world, points[i].unsaved, events[i])))
  }

  lemma {:induction false} RunTracked(sc: Schema, period: nat, points: seq<Point>, events: seq<Event>, i: nat)
    requires Total(sc) && IsRun(sc, period, points, events) && i < |points|
    requires points[0].world.cache == EMPTY && points[0].unsaved == {} && TableOk(sc, points[0].world.table)
    ensures Sound(sc, points[i].world) && Tracked(points[i].world.cache, points[i].unsaved)
  {
    if i > 0 {
      RunTracked(sc, period, points, events, i - 1);
      var p := points[i - 1];
      StepTracked(sc, period, p.world, p.unsaved, events[i - 1]);
    }
  }

  /** A cache object leaves the dirty map only when each of its overwritten rows has just been sent, and each
      of them that a statement can be made of is then in the table under its primary key. */
  lemma DroppedWasSent(sc: Schema, w: World, now: nat, period: nat, id: nat, name: string)
    requires id in w.cache.dirty && id !in Writeback(sc, w, now, period).cache.dirty
    requires name in SlotRows(w.cache, id) && SlotRows(w.cache, id)[name].time != 0
    ensures Key(id, name) in SentKeys(w.cache, now)
    ensures Storable(sc, SlotRows(w.cache, id)[name].message) ==>
      TargetOf(sc, name, SlotRows(w.cache, id)[name]) in Writeback(sc, w, now, period).table
  {
    hide TargetOf, Pass, SlotRows, Storable;
    assert IsDue(SlotRows(w.cache, id)[name], now);
    if Storable(sc, SlotRows(w.cache, id)[name].message) {
      PassSendsTo(sc, w.table, w.cache, now, w.cache.dirty.Keys, id, name);
    }
  }
}
