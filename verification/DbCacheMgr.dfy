/** The cache manager: resident cache objects by id, the map of dirty ones, the type numbers and the byte
    count. */
module DbCacheMgr {
  import opened Wrappers
  import opened Messages
  import Bits
  import opened CacheModel
  import opened Lines
  import opened CacheStore
  import opened Database
  import opened DbCache

  ghost function Infos(objects: map<nat, RowCache>): map<nat, Info>
    reads objects.Values
  {
    map id | id in objects :: objects[id].info
  }

  ghost function SameIds(cache: map<nat, RowCache>, dirty: map<nat, RowCache>): set<nat> {
    set id | id in cache && id in dirty && cache[id] == dirty[id]
  }

  /** Each cache object belongs to the id it is filed under, and its byte count is right. */
  ghost predicate OwnedBy(sc: Schema, objects: map<nat, RowCache>)
    reads objects.Values
  {
    forall id :: id in objects ==> objects[id].id == id && objects[id].sc == sc && objects[id].Valid()
  }

  /** Filing `target` under `id` when nothing else has changed. */
  lemma PutObject(sc: Schema, objects: map<nat, RowCache>, before: map<nat, Info>, id: nat, target: RowCache)
    requires before.Keys == objects.Keys
    requires forall i :: i in objects && i != id ==>
      objects[i].info == before[i] && objects[i].id == i && objects[i].sc == sc && objects[i].Valid()
    requires target.id == id && target.sc == sc && target.Valid()
    ensures OwnedBy(sc, objects[id := target])
    ensures Infos(objects[id := target]) == before[id := target.info]
  {
    hide TotalSize;
  }

  lemma KeepObjects(sc: Schema, objects: map<nat, RowCache>, before: map<nat, Info>)
    requires before.Keys == objects.Keys
    requires forall i :: i in objects ==>
      objects[i].info == before[i] && objects[i].id == i && objects[i].sc == sc && objects[i].Valid()
    ensures OwnedBy(sc, objects) && Infos(objects) == before
  {
    hide TotalSize;
  }

  lemma SameIdsPut(cache: map<nat, RowCache>, dirty: map<nat, RowCache>, id: nat, target: RowCache)
    ensures id !in cache ==> id !in SameIds(cache, dirty)
    ensures target !in dirty.Values && id !in cache ==> SameIds(cache[id := target], dirty) == SameIds(cache, dirty)
    ensures id in cache && cache[id] == target ==> SameIds(cache, dirty[id := target]) == SameIds(cache, dirty) + {id}
  {
  }

  lemma SameIdsAt(cache: map<nat, RowCache>, dirty: map<nat, RowCache>, id: nat)
    ensures id in SameIds(cache, dirty) <==> id in cache && id in dirty && cache[id] == dirty[id]
  {
  }

  lemma RemoveObjects(sc: Schema, cache: map<nat, RowCache>, dirty: map<nat, RowCache>, ids: set<nat>)
    requires OwnedBy(sc, cache)
    ensures OwnedBy(sc, cache - ids) && Infos(cache - ids) == Infos(cache) - ids
    ensures SameIds(cache - ids, dirty) == SameIds(cache, dirty) - ids
    ensures SameIds(cache - ids, dirty - ids) == SameIds(cache, dirty) - ids
  {
    hide TotalSize;
  }

  lemma NoBytes()
    ensures TotalSize(map[]) == 0
  {
  }

  lemma OwnedFacts(sc: Schema, objects: map<nat, RowCache>)
    requires OwnedBy(sc, objects)
    ensures forall id :: id in objects ==> objects[id].id == id && objects[id].sc == sc && objects[id].Valid()
    ensures forall id :: id in objects ==> Infos(objects)[id] == objects[id].info
    ensures Infos(objects).Keys == objects.Keys
  {
  }

  class CacheManager {
    const sc: Schema
    const db: Connection
    const maxCacheSize: int
    const writebackTime: nat

    var cache: map<nat, RowCache>
    var dirty: map<nat, RowCache>
    var index: map<string, nat>
    var names: map<nat, string>
    var nextIndex: nat
    var dataSize: int
    var lastClean: int
    var lastWriteback: nat
    ghost var dropped: int // bytes of the cache objects that a flush took out of the cache

    /** The cache objects in use. */
    ghost function Objects(): set<RowCache>
      reads this
    {
      cache.Values + dirty.Values
    }

    /** The concrete data as a value. */
    ghost function Snapshot(): Store
      reads this, cache.Values, dirty.Values
    {
      Store(Infos(cache), Infos(dirty), SameIds(cache, dirty), index, names, nextIndex,
            lastWriteback, dataSize, dropped)
    }

    ghost predicate Owned()
      reads this, cache.Values, dirty.Values
    {
      OwnedBy(sc, cache) && OwnedBy(sc, dirty)
    }

    ghost predicate Valid()
      reads this, cache.Values, dirty.Values, db
    {
      && SchemaOk(sc) && db.sc == sc && TableOk(sc, db.table)
      && Owned() && StoreOk(sc, Snapshot())
    }

    /** What the cache and the table stand for. */
    ghost function State(): World
      reads this, cache.Values, dirty.Values, db
    {
      World(Abs(sc, Snapshot()), db.table)
    }

    lemma SnapshotFields()
      ensures Snapshot().resident.Keys == cache.Keys && Snapshot().index == index && Snapshot().dropped == dropped
      ensures forall id :: id in cache ==> Snapshot().resident[id] == cache[id].info
    {
    }

    constructor (sc: Schema, db: Connection, maxCacheSize: int, writebackTime: nat)
      requires SchemaOk(sc) && db.sc == sc && TableOk(sc, db.table)
      ensures Valid() && State() == World(EMPTY, db.table) && dropped == 0
      ensures this.db == db && this.sc == sc && this.maxCacheSize == maxCacheSize && this.writebackTime == writebackTime
      ensures lastClean == 0 && cache == map[] && dirty == map[]
      ensures index == map[] && names == map[] && nextIndex == 1 && dataSize == 0
    {
      hide SchemaOk, TableOk;
      this.sc, this.db, this.maxCacheSize, this.writebackTime := sc, db, maxCacheSize, writebackTime;
      cache, dirty, index, names, nextIndex := map[], map[], map[], map[], 1;
      dataSize, lastClean, lastWriteback, dropped := 0, 0, 0, 0;
      new;
      assert Sizes(map[]) == map[];
    }

    /** The number of a type name; a new name gets the next one. */
    method GetDataId(name: string) returns (d: nat)
      requires Valid()
      modifies this`index, this`names, this`nextIndex
      ensures Valid() && State() == old(State())
      ensures Snapshot() == Named(old(Snapshot()), name) && name in index && d == index[name]
    {
      hide StoreOk, Abs, SchemaOk, TableOk, TotalSize, OwnedBy, Infos, SameIds;
      ghost var s := Snapshot();
      NamedKeeps(sc, s, name);
      if name !in index {
        d := nextIndex;
        nextIndex := nextIndex + 1;
        index := index[name := d];
        names := names[d := name];
      } else {
        d := index[name];
      }
      assert Snapshot() == Named(s, name);
    }

    /** The cached row of an id and a type. */
    method GetData(id: nat, name: string) returns (m: Option<Message>)
      requires Valid()
      modifies this`index, this`names, this`nextIndex
      ensures Valid() && State() == old(State()) && dropped == old(dropped)
      ensures m ==
        if IsCached(State().cache, Key(id, name)) then Some(RowAt(State().cache, Key(id, name)).message) else None
      ensures m.Some? ==> IsMessage(sc, m.value) && m.value.typeName == name
    {
      hide StoreOk, Abs, SchemaOk, TableOk, TotalSize, SameIds;
      var d := GetDataId(name);
      ResidentFacts(sc, Snapshot());
      if id !in cache {
        return None;
      }
      LookupFacts(sc, Snapshot(), id, name);
      m := cache[id].GetData(d, if d in names then names[d] else "");
    }

    /** Overwrites a cached row, or fills a missing one. A row of an id that is not resident is added. */
    method SetData(id: nat, m: Message, now: nat) returns (ok: bool)
      requires Valid() && IsMessage(sc, m)
      requires IsCached(State().cache, Key(id, m.typeName)) ==> PrimaryId(sc, m).Some?
      modifies this, Objects()
      ensures Valid() && fresh(Objects() - old(Objects())) && dropped == old(dropped)
      ensures maxCacheSize <= 0 ==> !ok && State() == old(State())
      ensures maxCacheSize > 0 ==>
        && State().table == old(State().table)
        && (State().cache, ok) == CacheModel.SetData(sc, old(State().cache), id, m, now)
    {
      hide Valid, State, IsMessage, CacheModel.SetData, CacheModel.AddData;
      StateFields();
      SetMissing(sc, State().cache, id, m, now);
      if maxCacheSize <= 0 {
        return false;
      }
      if id !in cache {
        ok := AddData(id, m);
        return;
      }
      ok := SetResident(id, m, now);
    }

    lemma StateFields()
      requires Valid()
      ensures State().cache.resident.Keys == cache.Keys && State().table == db.table
    {
      ResidentFacts(sc, Snapshot());
    }

    /** The second half of `SetData`. */
    method SetResident(id: nat, m: Message, now: nat) returns (ok: bool)
      requires Valid() && IsMessage(sc, m) && id in cache
      requires IsCached(State().cache, Key(id, m.typeName)) ==> PrimaryId(sc, m).Some?
      modifies this, cache[id]
      ensures Valid() && Objects() <= old(Objects()) && dropped == old(dropped) && State().table == old(State().table)
      ensures (State().cache, ok) == CacheModel.SetData(sc, old(State().cache), id, m, now)
    {
      hide StoreOk, Abs, SchemaOk, TableOk, Snapshot, Owned, Named, Replaced, OverwrittenInfo, IsMessage, View,
           CacheModel.SetData;
      var d := GetDataId(m.typeName);
      SnapshotFields();
      LookupFacts(sc, Snapshot(), id, m.typeName);
      OverwrittenKeeps(sc, Snapshot(), id, m, now);
      ok := Overwrite(id, d, m, now);
    }

    /** A first row of an id that is not resident. The cache object stays even when the row cannot be
        serialized. */
    method AddData(id: nat, m: Message) returns (ok: bool)
      requires Valid() && IsMessage(sc, m)
      modifies this
      ensures Valid() && fresh(Objects() - old(Objects())) && dropped == old(dropped)
      ensures maxCacheSize <= 0 ==> !ok && State() == old(State())
      ensures maxCacheSize > 0 ==>
        && State().table == old(State().table)
        && (State().cache, ok) == CacheModel.AddData(sc, old(State().cache), id, m)
    {
      hide StoreOk, Abs, SchemaOk, TableOk, Snapshot, Owned, Named, Replaced, FirstInfo, OverwrittenInfo, AddedInfo,
           IsMessage, View;
      if maxCacheSize <= 0 {
        return false;
      }
      SnapshotFields();
      ResidentFacts(sc, Snapshot());
      var d := GetDataId(m.typeName);
      SnapshotFields();
      if id in cache {
        return false;
      }
      AddedKeeps(sc, Snapshot(), id, m);
      ok := AddObject(id, d, m);
    }

    /** The change itself: a new cache object. */
    method AddObject(id: nat, d: nat, m: Message) returns (ok: bool)
      requires Owned() && id !in cache
      modifies this`dataSize, this`cache
      ensures Owned() && fresh(Objects() - old(Objects()))
      ensures ok <==> AddedInfo(sc, map[], d, m).Some?
      ensures Snapshot() == Replaced(old(Snapshot()), id, FirstInfo(sc, d, m), false)
    {
      hide TotalSize, AddedInfo, OverwrittenInfo, IsMessage, SchemaOk, EntryOk, OwnedBy, Infos, SameIds;
      ghost var resident, marked, rows, markedRows := cache, dirty, Infos(cache), Infos(dirty);
      OwnedFacts(sc, resident);
      OwnedFacts(sc, marked);
      NoBytes();
      var target := new RowCache(id, sc);
      SameIdsPut(resident, marked, id, target);
      cache := cache[id := target];
      var size := target.dataSize;
      ok := target.AddData(d, m);
      if ok {
        dataSize := dataSize - size;
        dataSize := dataSize + target.dataSize;
      }
      PutObject(sc, resident, rows, id, target);
      assert target.info == FirstInfo(sc, d, m);
      KeepObjects(sc, marked, markedRows);
    }

    /** The change itself, on the resident cache object. */
    method Overwrite(id: nat, d: nat, m: Message, now: nat) returns (ok: bool)
      requires Owned() && SchemaOk(sc) && id in cache && IsMessage(sc, m)
      requires d in cache[id].info ==> EntryOk(sc, m.typeName, cache[id].info[d])
      modifies this`dataSize, this`dirty, cache[id]
      ensures Owned() && Objects() <= old(Objects())
      ensures ok <==> OverwrittenInfo(sc, old(cache[id].info), d, m, now).Some?
      ensures Snapshot() ==
        if ok then Replaced(old(Snapshot()), id, OverwrittenInfo(sc, old(cache[id].info), d, m, now).value, true)
        else old(Snapshot())
    {
      hide TotalSize, AddedInfo, OverwrittenInfo, IsMessage, SchemaOk, EntryOk, OwnedBy, Infos, SameIds;
      ghost var resident, marked, rows, markedRows := cache, dirty, Infos(cache), Infos(dirty);
      OwnedFacts(sc, resident);
      OwnedFacts(sc, marked);
      var target := cache[id];
      SameIdsPut(resident, marked, id, target);
      assert resident[id := target] == resident;
      var size := target.dataSize;
      ok := target.SetData(d, m.typeName, m, now);
      if !ok {
        KeepObjects(sc, resident, rows);
        KeepObjects(sc, marked, markedRows);
        return;
      }
      dataSize := dataSize - size;
      dataSize := dataSize + target.dataSize;
      dirty := dirty[id := target];
      PutObject(sc, resident, rows, id, target);
      PutObject(sc, marked, markedRows, id, target);
    }

    method DelData(id: nat, name: string) returns (ok: bool)
      requires Valid()
      modifies this, Objects()
      ensures Valid() && Objects() == old(Objects()) && dropped == old(dropped)
      ensures maxCacheSize <= 0 ==> !ok && State() == old(State())
      ensures maxCacheSize > 0 ==>
        && State().table == old(State().table)
        && (State().cache, ok) == CacheModel.DelData(old(State().cache), id, name)
    {
      hide StoreOk, Abs, SchemaOk, TableOk, Snapshot, Owned, Named, Replaced, IsMessage, View;
      SnapshotFields();
      ResidentFacts(sc, Snapshot());
      if maxCacheSize <= 0 {
        return false;
      }
      if id !in cache {
        return false;
      }
      var d := GetDataId(name);
      SnapshotFields();
      LookupFacts(sc, Snapshot(), id, name);
      ErasedKeeps(sc, Snapshot(), id, name);
      ok := Erase(id, d);
    }

    /** The change itself, on the resident cache object. */
    method Erase(id: nat, d: nat) returns (ok: bool)
      requires Owned() && id in cache
      modifies this`dataSize, cache[id]
      ensures Owned()
      ensures ok <==> d in old(cache[id].info)
      ensures Snapshot() ==
        if ok then Replaced(old(Snapshot()), id, old(cache[id].info) - {d}, false) else old(Snapshot())
    {
      hide TotalSize, OwnedBy, Infos, SameIds;
      ghost var rows, markedRows := Infos(cache), Infos(dirty);
      OwnedFacts(sc, cache);
      OwnedFacts(sc, dirty);
      SameIdsAt(cache, dirty, id);
      var target := cache[id];
      assert cache[id := target] == cache;
      var size := target.dataSize;
      ok := target.DelData(d);
      if !ok {
        KeepObjects(sc, cache, rows);
        KeepObjects(sc, dirty, markedRows);
        return;
      }
      dataSize := dataSize - size;
      dataSize := dataSize + target.dataSize;
      PutObject(sc, cache, rows, id, target);
      if id in dirty && dirty[id] == target {
        assert dirty[id := target] == dirty;
        PutObject(sc, dirty, markedRows, id, target);
      } else {
        KeepObjects(sc, dirty, markedRows);
      }
    }

    /** Takes one resident id out, if the time allows and the bytes are too many. `pick` is the random victim:
        none when the sampled buckets are all empty. */
    method CleanCache(now: int, pick: Option<nat>) returns (ghost victim: Option<nat>)
      requires Valid() && (pick.Some? ==> pick.value in cache)
      modifies this, db
      ensures Valid() && Objects() <= old(Objects()) && dropped == old(dropped)
      ensures
        var due :=
          maxCacheSize > 0 && (old(lastClean) != 0 ==> old(lastClean) - now >= 1) && old(dataSize) >= maxCacheSize;
        victim == (if due then pick else None) && lastClean == (if due then now else old(lastClean))
      ensures old(lastClean) != 0 && now >= old(lastClean) ==> victim == None && lastClean == old(lastClean)
      ensures State() == if victim.Some? then CacheModel.Evict(sc, old(State()), victim.value) else old(State())
    {
      hide StoreOk, Abs, SchemaOk, TableOk, OwnedBy, Infos, SameIds, View, Saved, TotalSize;
      SnapshotFields();
      ResidentFacts(sc, Snapshot());
      victim := None;
      if maxCacheSize <= 0 {
        return;
      }
      if lastClean != 0 && lastClean - now < 1 {
        return;
      }
      if dataSize < maxCacheSize {
        return;
      }
      lastClean := now;
      if pick == None {
        return;
      }
      victim := pick;
      ghost var s, before := Snapshot(), db.table;
      NamesFacts(sc, s);
      EvictedKeeps(sc, s, pick.value);
      var target := Unlink(pick.value);
      var _ := target.Writeback(names, index, nextIndex, 0, db);
      assert Snapshot() == Evicted(s, pick.value);
    }

    /** Takes a cache object out of both maps. */
    method Unlink(id: nat) returns (target: RowCache)
      requires Owned() && id in cache
      modifies this`cache, this`dirty, this`dataSize
      ensures Owned() && Objects() <= old(Objects())
      ensures Snapshot() == Evicted(old(Snapshot()), id)
      ensures target == old(cache[id]) && target.sc == sc && target.id == id
    {
      hide TotalSize, OwnedBy, Infos, SameIds;
      OwnedFacts(sc, cache);
      RemoveObjects(sc, cache, dirty, {id});
      RemoveObjects(sc, dirty, cache, {id});
      target := cache[id];
      dataSize := dataSize - target.dataSize;
      cache := cache - {id};
      dirty := dirty - {id};
    }

    /** Writes the due rows of the dirty cache objects back, if the last time was long enough ago. */
    method Writeback(now: nat)
      requires Valid()
      modifies this, db
      ensures Valid() && Objects() <= old(Objects()) && dropped == old(dropped) && dataSize == old(dataSize)
      ensures cache == old(cache)
      ensures State() ==
        if maxCacheSize <= 0 then old(State()) else CacheModel.Writeback(sc, old(State()), now, writebackTime)
    {
      hide StoreOk, Abs, SchemaOk, TableOk, OwnedBy, Infos, SameIds, StillDirty, SlotRows, SentKeys, Pass, KeptIds;
      ResidentFacts(sc, Snapshot());
      if maxCacheSize <= 0 {
        return;
      }
      if lastWriteback != 0 && (lastWriteback - now) % Bits.WORD < writebackTime {
        return;
      }
      PassKeeps(sc, Snapshot(), now, writebackTime, db.table);
      lastWriteback := now;
      PassOver(now, Snapshot(), Abs(sc, Snapshot()));
    }

    /** One pass over the dirty cache objects in ascending order; those with nothing left to write leave the
        dirty map. */
    method PassOver(now: nat, ghost s: Store, ghost c: Cache)
      requires s == Snapshot() && c == Abs(sc, s) && StoreOk(sc, s)
      requires Owned() && SchemaOk(sc) && db.sc == sc && TableOk(sc, db.table)
      modifies this`dirty, db
      ensures Owned() && Objects() <= old(Objects()) && TableOk(sc, db.table)
      ensures Snapshot() == Kept(s, KeptIds(c, now), s.lastWriteback)
      ensures db.table == Pass(sc, old(db.table), c, now, c.dirty.Keys)
    {
      hide StoreOk, SchemaOk, TotalSize, OwnedBy, Infos, SameIds, TableOk, View, Interned, InfoOk, Abs, Saved, Pass,
           Passed, SlotRows, StillDirty, KeptIds;
      ghost var all, before := dirty, db.table;
      NamesFacts(sc, s);
      OwnedFacts(sc, dirty);
      SlotFacts(sc, s);
      PassedStart(sc, before, all, c, now);
      var remaining := dirty.Keys;
      while remaining != {}
        invariant TableOk(sc, db.table) && Passed(sc, before, db.table, dirty, all, c, now, remaining)
      {
        FirstExists(remaining);
        var id :| id in remaining && forall i :: i in remaining ==> id <= i;
        PassedNext(sc, before, db.table, dirty, all, c, now, remaining, id);
        remaining := remaining - {id};
        Visit(id, now);
      }
      PassedEnd(sc, before, db.table, cache, dirty, all, c, now, s);
    }

    /** One cache object of the pass. */
    method Visit(id: nat, now: nat)
      requires id in dirty && dirty[id].sc == sc
      requires InfoOk(sc, names, dirty[id].info) && Interned(index, names, nextIndex)
      requires db.sc == sc && TableOk(sc, db.table) && SchemaOk(sc)
      modifies this`dirty, db
      ensures var rows := View(sc, index, old(dirty[id].info));
        && TableOk(sc, db.table) && db.table == Saved(sc, old(db.table), rows, now)
        && dirty == if StillDirty(rows, now) then old(dirty) else old(dirty) - {id}
    {
      hide SchemaOk, TableOk, View, Interned, InfoOk, Saved, StillDirty;
      var pending := dirty[id].Writeback(names, index, nextIndex, now, db);
      if !pending {
        dirty := dirty - {id};
      }
    }

    /** Drops one id after writing it back, or every id after writing the due ones back. The byte count stays
        as it was. */
    method FlushCache(key: nat)
      requires Valid()
      modifies this, db
      ensures Valid() && Objects() <= old(Objects()) && dataSize == old(dataSize)
      ensures State() ==
        if maxCacheSize <= 0 then old(State())
        else if key != 0 then CacheModel.FlushKey(sc, old(State()), key)
        else CacheModel.FlushAll(sc, old(State()), writebackTime)
    {
      hide StoreOk, Abs, SchemaOk, TableOk, OwnedBy, Infos, SameIds, CacheModel.Drop, Saved, TotalBytes, View;
      SnapshotFields();
      ResidentFacts(sc, Snapshot());
      if maxCacheSize <= 0 {
        return;
      }
      if key != 0 {
        if key !in cache {
          return;
        }
        DroppedKeeps(sc, Snapshot(), {key});
        NamesFacts(sc, Snapshot());
        OwnedFacts(sc, cache);
        ghost var s := Snapshot();
        var _ := cache[key].Writeback(names, index, nextIndex, 0, db);
        assert Snapshot() == s;
        Drop({key});
      } else {
        Writeback(0);
        DroppedKeeps(sc, Snapshot(), cache.Keys);
        Drop(cache.Keys);
      }
    }

    /** Takes cache objects out of the resident map alone. */
    method Drop(ids: set<nat>)
      requires Owned()
      modifies this`cache, this`dropped
      ensures Owned() && Objects() <= old(Objects())
      ensures Snapshot() == Dropped(old(Snapshot()), ids)
    {
      hide TotalBytes, OwnedBy, Infos, SameIds;
      RemoveObjects(sc, cache, dirty, ids);
      dropped := Dropped(Snapshot(), ids).dropped;
      cache := cache - ids;
    }

    /** What a worker does between two batches of commands. */
    method Update(now: nat, pick: Option<nat>) returns (ghost victim: Option<nat>)
      requires Valid() && (pick.Some? ==> pick.value in cache)
      modifies this, db
      ensures Valid() && Objects() <= old(Objects()) && dropped == old(dropped)
      ensures victim == None || (victim == pick && maxCacheSize > 0 && old(dataSize) >= maxCacheSize)
      ensures victim.Some? ==> victim.value in old(State()).cache.resident
      ensures State() ==
        if maxCacheSize <= 0 then old(State())
        else
          var w := if victim.Some? then CacheModel.Evict(sc, old(State()), victim.value) else old(State());
          CacheModel.Writeback(sc, w, now, writebackTime)
    {
      hide StoreOk, Abs, SchemaOk, TableOk, Owned, Snapshot, View;
      SnapshotFields();
      ResidentFacts(sc, Snapshot());
      victim := CleanCache(now, pick);
      Writeback(now);
    }
  }

  function FirstInfo(sc: Schema, d: nat, m: Message): Info {
    var added := AddedInfo(sc, map[], d, m);
    if added.Some? then added.value else map[]
  }

  lemma ResidentFacts(sc: Schema, s: Store)
    ensures Abs(sc, s).resident.Keys == s.resident.Keys && Abs(sc, s).lastWriteback == s.lastWriteback
    ensures forall id :: id in s.resident ==> Abs(sc, s).resident[id] == View(sc, s.index, s.resident[id])
  {
    hide View;
  }

  lemma SetMissing(sc: Schema, c: Cache, id: nat, m: Message, now: nat)
    ensures id !in c.resident ==> CacheModel.SetData(sc, c, id, m, now) == CacheModel.AddData(sc, c, id, m)
  {
  }

  lemma LookupFacts(sc: Schema, s: Store, id: nat, name: string)
    requires StoreOk(sc, s) && id in s.resident && name in s.index
    ensures s.index[name] in s.names && s.names[s.index[name]] == name
    ensures IsCached(Abs(sc, s), Key(id, name)) <==> s.index[name] in s.resident[id]
    ensures s.index[name] in s.resident[id] ==>
      && name in sc.pool
      && EntryOk(sc, name, s.resident[id][s.index[name]])
      && RowOk(sc, name, RowAt(Abs(sc, s), Key(id, name)))
      && sc.codec.parse(name, s.resident[id][s.index[name]].data) == Some(RowAt(Abs(sc, s), Key(id, name)).message)
  {
  }

  lemma SerializedEntry(sc: Schema, m: Message, time: nat)
    requires SchemaOk(sc) && sc.codec.serialize(m).Some? && RowOk(sc, m.typeName, Row(m, time))
    ensures var e := CacheInfo(sc.codec.serialize(m).value, time);
      RowOf(sc, m.typeName, e) == Row(m, time) && EntryOk(sc, m.typeName, e)
  {
    hide PoolOk, LineOk, RuntimeOk, RowOk;
  }

  /** An entry put into a cache object is a row put into its view. */
  lemma PutEntry(sc: Schema, s: Store, info: Info, m: Message, time: nat)
    requires SchemaOk(sc) && StoreOk(sc, s) && InfoOk(sc, s.names, info) && m.typeName in s.index
    requires sc.codec.serialize(m).Some? && RowOk(sc, m.typeName, Row(m, time))
    ensures var info' := info[s.index[m.typeName] := CacheInfo(sc.codec.serialize(m).value, time)];
      && InfoOk(sc, s.names, info')
      && View(sc, s.index, info') == View(sc, s.index, info)[m.typeName := Row(m, time)]
  {
    hide SchemaOk, View, EntryOk, RowOf, RowOk, InfoOk, Interned, TotalBytes;
    var e := CacheInfo(sc.codec.serialize(m).value, time);
    SerializedEntry(sc, m, time);
    ViewPut(sc, s.index, s.names, s.next, info, m.typeName, e);
    NumberedName(sc, s, m.typeName);
    PutEntryOk(sc, s.names, info, s.index[m.typeName], e);
  }

  lemma NumberedName(sc: Schema, s: Store, name: string)
    requires StoreOk(sc, s) && name in s.index
    ensures s.index[name] in s.names && s.names[s.index[name]] == name
  {
    hide InfoOk, TotalBytes;
  }

  lemma PutEntryOk(sc: Schema, names: map<nat, string>, info: Info, d: nat, e: CacheInfo)
    requires InfoOk(sc, names, info) && d in names && EntryOk(sc, names[d], e)
    ensures InfoOk(sc, names, info[d := e])
  {
    hide EntryOk;
  }

  lemma AddedRows(sc: Schema, s: Store, m: Message)
    requires SchemaOk(sc) && StoreOk(sc, s) && IsMessage(sc, m) && m.typeName in s.index
    ensures var info := FirstInfo(sc, s.index[m.typeName], m);
      && InfoOk(sc, s.names, info)
      && View(sc, s.index, info) == if sc.codec.serialize(m).Some? then map[m.typeName := Row(m, 0)] else map[]
  {
    hide SchemaOk, StoreOk, IsMessage, EntryOk, RowOf, RowOk, View, InfoOk;
    NoEntries(sc, s);
    FillRowOk(sc, m);
    if sc.codec.serialize(m).Some? {
      PutEntry(sc, s, map[], m, 0);
    }
  }

  lemma NoEntries(sc: Schema, s: Store)
    ensures View(sc, s.index, map[]) == map[] && InfoOk(sc, s.names, map[])
  {
  }

  lemma FillRowOk(sc: Schema, m: Message)
    requires IsMessage(sc, m)
    ensures m.typeName in sc.pool && RowOk(sc, m.typeName, Row(m, 0))
  {
  }

  lemma AddedKeeps(sc: Schema, s: Store, id: nat, m: Message)
    requires SchemaOk(sc) && StoreOk(sc, s) && IsMessage(sc, m) && m.typeName in s.index && id !in s.resident
    ensures var s' := Replaced(s, id, FirstInfo(sc, s.index[m.typeName], m), false);
      && StoreOk(sc, s')
      && (Abs(sc, s'), AddedInfo(sc, map[], s.index[m.typeName], m).Some?) == CacheModel.AddData(sc, Abs(sc, s), id, m)
  {
    hide StoreOk, Abs, Replaced, View, IsMessage, SchemaOk, InfoOk;
    ResidentFacts(sc, s);
    AddedRows(sc, s, m);
    ReplacedKeeps(sc, s, id, FirstInfo(sc, s.index[m.typeName], m), false);
  }

  lemma OverwrittenRows(sc: Schema, s: Store, id: nat, m: Message, now: nat)
    requires SchemaOk(sc) && StoreOk(sc, s) && IsMessage(sc, m) && id in s.resident && m.typeName in s.index
    requires IsCached(Abs(sc, s), Key(id, m.typeName)) ==> PrimaryId(sc, m).Some?
    ensures var info := OverwrittenInfo(sc, s.resident[id], s.index[m.typeName], m, now);
      && (info.Some? ==> InfoOk(sc, s.names, info.value))
      && OverwriteRow(sc, View(sc, s.index, s.resident[id]), m, now) ==
           if info.Some? then Some(View(sc, s.index, info.value)) else None
  {
    hide StoreOk, SchemaOk, Abs, View, InfoOk, EntryOk, RowOf, RowOk, PrimaryId, IsMessage, Filled;
    LookupFacts(sc, s, id, m.typeName);
    ResidentFacts(sc, s);
    FillRowOk(sc, m);
    NamesFacts(sc, s);
    if OverwrittenInfo(sc, s.resident[id], s.index[m.typeName], m, now).Some? {
      if s.index[m.typeName] !in s.resident[id] {
        PutEntry(sc, s, s.resident[id], m, 0);
      } else {
        FilledRowOk(sc, m, now);
        PutEntry(sc, s, s.resident[id], Filled(m, FieldsOf(sc, m.typeName)), now);
      }
    }
  }

  lemma FilledRowOk(sc: Schema, m: Message, time: nat)
    requires SchemaOk(sc) && IsMessage(sc, m) && PrimaryId(sc, m).Some? && Copyable(FieldsOf(sc, m.typeName))
    ensures RowOk(sc, m.typeName, Row(Filled(m, FieldsOf(sc, m.typeName)), time))
  {
    FilledOk(sc, m);
  }

  lemma OverwrittenKeeps(sc: Schema, s: Store, id: nat, m: Message, now: nat)
    requires SchemaOk(sc) && StoreOk(sc, s) && IsMessage(sc, m) && id in s.resident && m.typeName in s.index
    requires IsCached(Abs(sc, s), Key(id, m.typeName)) ==> PrimaryId(sc, m).Some?
    ensures var info := OverwrittenInfo(sc, s.resident[id], s.index[m.typeName], m, now);
      var s' := if info.Some? then Replaced(s, id, info.value, true) else s;
      StoreOk(sc, s') && (Abs(sc, s'), info.Some?) == CacheModel.SetData(sc, Abs(sc, s), id, m, now)
  {
    hide StoreOk, Abs, Replaced, View, OverwrittenInfo, OverwriteRow, IsMessage, SchemaOk, InfoOk;
    ResidentFacts(sc, s);
    OverwrittenRows(sc, s, id, m, now);
    var info := OverwrittenInfo(sc, s.resident[id], s.index[m.typeName], m, now);
    if info.Some? {
      ReplacedKeeps(sc, s, id, info.value, true);
    }
  }

  lemma NamesFacts(sc: Schema, s: Store)
    requires SchemaOk(sc) && StoreOk(sc, s)
    ensures Interned(s.index, s.names, s.next)
    ensures forall id :: id in s.resident ==> InfoOk(sc, s.names, s.resident[id])
    ensures forall id :: id in s.dirty ==> InfoOk(sc, s.names, s.dirty[id])
  {
  }

  lemma ErasedKeeps(sc: Schema, s: Store, id: nat, name: string)
    requires StoreOk(sc, s) && id in s.resident && name in s.index
    ensures var d := s.index[name];
      var s' := if d in s.resident[id] then Replaced(s, id, s.resident[id] - {d}, false) else s;
      StoreOk(sc, s') && (Abs(sc, s'), d in s.resident[id]) == CacheModel.DelData(Abs(sc, s), id, name)
  {
    var d := s.index[name];
    LookupFacts(sc, s, id, name);
    ResidentFacts(sc, s);
    ViewRemove(sc, s.index, s.names, s.next, s.resident[id], name);
    ErasedOk(sc, s, id, d);
    if d in s.resident[id] {
      ReplacedKeeps(sc, s, id, s.resident[id] - {d}, false);
    }
    hide StoreOk, Abs, Replaced, View;
  }

  lemma ErasedOk(sc: Schema, s: Store, id: nat, d: nat)
    requires StoreOk(sc, s) && id in s.resident
    ensures InfoOk(sc, s.names, s.resident[id] - {d})
  {
    hide EntryOk;
  }

  // ---- A pass over the dirty map ----

  ghost function KeptIds(c: Cache, now: nat): set<nat> {
    set id | id in c.dirty && StillDirty(SlotRows(c, id), now)
  }

  /** What a pass over `all` has done when the ids `remaining` are left. */
  ghost predicate Passed(sc: Schema, before: Table, table: Table, dirty: map<nat, RowCache>, all: map<nat, RowCache>,
                         c: Cache, now: nat, remaining: set<nat>) {
    && c.dirty.Keys == all.Keys && remaining <= dirty.Keys <= all.Keys
    && (forall id :: id in dirty ==> dirty[id] == all[id])
    && (forall id :: id in all ==> (id in dirty <==> id in remaining || StillDirty(SlotRows(c, id), now)))
    && (forall i, j :: i in all && i !in remaining && j in remaining ==> i < j)
    && table == Pass(sc, before, c, now, all.Keys - remaining)
  }

  lemma PassedStart(sc: Schema, before: Table, all: map<nat, RowCache>, c: Cache, now: nat)
    requires c.dirty.Keys == all.Keys
    ensures Passed(sc, before, before, all, all, c, now, all.Keys)
  {
    assert all.Keys - all.Keys == {};
  }

  lemma PassedNext(sc: Schema, before: Table, table: Table, dirty: map<nat, RowCache>, all: map<nat, RowCache>,
                   c: Cache, now: nat, remaining: set<nat>, id: nat)
    requires Passed(sc, before, table, dirty, all, c, now, remaining)
    requires id in remaining && forall i :: i in remaining ==> id <= i
    ensures id in c.dirty && id in dirty && id in all && dirty[id] == all[id]
    ensures Passed(sc, before, Saved(sc, table, SlotRows(c, id), now),
                   if StillDirty(SlotRows(c, id), now) then dirty else dirty - {id}, all, c, now, remaining - {id})
  {
    PassNext(sc, before, c, now, all.Keys - remaining, id);
    assert all.Keys - (remaining - {id}) == all.Keys - remaining + {id};
    hide Pass, Saved, SlotRows, StillDirty;
  }

  lemma PassedEnd(sc: Schema, before: Table, table: Table, cache: map<nat, RowCache>, dirty: map<nat, RowCache>,
                  all: map<nat, RowCache>, c: Cache, now: nat, s: Store)
    requires Passed(sc, before, table, dirty, all, c, now, {}) && OwnedBy(sc, all)
    requires s.dirty == Infos(all) && s.same == SameIds(cache, all)
    ensures OwnedBy(sc, dirty) && dirty.Values <= all.Values
    ensures Infos(dirty) == Kept(s, KeptIds(c, now), s.lastWriteback).dirty
    ensures SameIds(cache, dirty) == s.same * KeptIds(c, now)
    ensures table == Pass(sc, before, c, now, c.dirty.Keys)
  {
    hide StillDirty, SlotRows, TotalSize, Pass;
    assert all.Keys - {} == c.dirty.Keys;
  }

  lemma FirstExists(ids: set<nat>)
    requires ids != {}
    ensures exists id :: id in ids && forall i :: i in ids ==> id <= i
  {
    var first := First(ids);
  }

  ghost function First(ids: set<nat>): (first: nat)
    requires ids != {}
    ensures first in ids && forall i :: i in ids ==> first <= i
  {
    var id :| id in ids;
    var rest := ids - {id};
    assert forall i :: i in ids ==> i == id || i in rest;
    if rest == {} then id
    else
      var first := First(rest);
      if first < id then first else id
  }

  lemma PassNext(sc: Schema, table: Table, c: Cache, now: nat, done: set<nat>, id: nat)
    requires done <= c.dirty.Keys && id in c.dirty && forall i :: i in done ==> i < id
    ensures Pass(sc, table, c, now, done + {id}) == Saved(sc, Pass(sc, table, c, now, done), SlotRows(c, id), now)
  {
    assert Last(done + {id}) == id;
    assert id !in done && done + {id} - {id} == done;
  }

  lemma SlotFacts(sc: Schema, s: Store)
    requires StoreOk(sc, s)
    ensures Abs(sc, s).dirty.Keys == s.dirty.Keys
    ensures forall id :: id in s.dirty ==> SlotRows(Abs(sc, s), id) == View(sc, s.index, s.dirty[id])
  {
    hide View;
  }

  /** Storing the time and making a full pass is the manager's write-back. */
  lemma PassKeeps(sc: Schema, s: Store, now: nat, period: nat, table: Table)
    requires StoreOk(sc, s) && !Throttled(Abs(sc, s), now, period)
    ensures var s0 := s.(lastWriteback := now);
      var c0 := Abs(sc, s0);
      var s1 := Kept(s0, KeptIds(c0, now), now);
      && StoreOk(sc, s0) && StoreOk(sc, s1)
      && World(Abs(sc, s1), Pass(sc, table, c0, now, c0.dirty.Keys))
           == CacheModel.Writeback(sc, World(Abs(sc, s), table), now, period)
  {
    var s0 := s.(lastWriteback := now);
    assert StoreOk(sc, s0) by { hide InfoOk, Interned, TotalBytes; }
    var c, c0 := Abs(sc, s), Abs(sc, s0);
    assert c0 == c.(lastWriteback := now) by { hide View; }
    KeptKeeps(sc, s0, KeptIds(c0, now), now);
    SamePass(sc, table, c, now, c.dirty.Keys);
    SameSlotRows(c, now);
    hide StoreOk, Abs, StillDirty, Pass, SlotRows;
  }

  lemma SameSlotRows(c: Cache, now: nat)
    ensures forall id :: id in c.dirty ==> SlotRows(c.(lastWriteback := now), id) == SlotRows(c, id)
  {
  }

  lemma SamePass(sc: Schema, table: Table, c: Cache, now: nat, ids: set<nat>)
    requires ids <= c.dirty.Keys
    ensures Pass(sc, table, c.(lastWriteback := now), now, ids) == Pass(sc, table, c, now, ids)
  {
    if ids != {} {
      SamePass(sc, table, c, now, ids - {Last(ids)});
      hide Saved;
    }
  }
}
