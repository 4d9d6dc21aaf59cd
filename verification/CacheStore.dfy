/** The cache's concrete data as values: serialized entries by type number, the tables that number the
    type names, byte counts; and the rows they stand for. */
module CacheStore {
  import opened Wrappers
  import opened Messages
  import opened CacheModel

  datatype CacheInfo = CacheInfo(data: string, time: nat)

  type Info = map<nat, CacheInfo>

  // ---- Sums over maps ----

  ghost function Sum(m: map<nat, nat>): nat
    decreases |m|
  {
    if m == map[] then 0
    else
      var k :| k in m;
      m[k] + Sum(m - {k})
  }

  lemma {:induction false} SumRemove(m: map<nat, nat>, k: nat)
    requires k in m
    ensures Sum(m) == m[k] + Sum(m - {k})
    decreases |m|
  {
    var j :| j in m && Sum(m) == m[j] + Sum(m - {j});
    if j != k {
      SumRemove(m - {j}, k);
      SumRemove(m - {k}, j);
      assert m - {j} - {k} == m - {k} - {j};
    }
  }

  lemma SumUpdate(m: map<nat, nat>, k: nat, v: nat)
    ensures Sum(m[k := v]) == Sum(m) - (if k in m then m[k] else 0) + v
  {
    SumRemove(m[k := v], k);
    assert m[k := v] - {k} == m - {k};
    if k in m {
      SumRemove(m, k);
    } else {
      assert m - {k} == m;
    }
  }

  function Lengths(info: Info): map<nat, nat> {
    map d | d in info :: |info[d].data|
  }

  /** Bytes of one cache object's entries. */
  ghost function TotalSize(info: Info): nat {
    Sum(Lengths(info))
  }

  ghost function Sizes(resident: map<nat, Info>): map<nat, nat> {
    map id | id in resident :: TotalSize(resident[id])
  }

  /** Bytes of all resident cache objects. */
  ghost function TotalBytes(resident: map<nat, Info>): nat {
    Sum(Sizes(resident))
  }

  lemma TotalSizePut(info: Info, d: nat, e: CacheInfo)
    ensures TotalSize(info[d := e]) == TotalSize(info) - (if d in info then |info[d].data| else 0) + |e.data|
  {
    assert Lengths(info[d := e]) == Lengths(info)[d := |e.data|];
    SumUpdate(Lengths(info), d, |e.data|);
  }

  lemma TotalSizeRemove(info: Info, d: nat)
    requires d in info
    ensures TotalSize(info) == |info[d].data| + TotalSize(info - {d})
  {
    assert Lengths(info - {d}) == Lengths(info) - {d};
    SumRemove(Lengths(info), d);
  }

  lemma TotalBytesPut(resident: map<nat, Info>, id: nat, info: Info)
    ensures TotalBytes(resident[id := info])
         == TotalBytes(resident) - (if id in resident then TotalSize(resident[id]) else 0) + TotalSize(info)
  {
    assert Sizes(resident[id := info]) == Sizes(resident)[id := TotalSize(info)] by { hide TotalSize; }
    SumUpdate(Sizes(resident), id, TotalSize(info));
  }

  lemma TotalBytesRemove(resident: map<nat, Info>, id: nat)
    requires id in resident
    ensures TotalBytes(resident) == TotalSize(resident[id]) + TotalBytes(resident - {id})
  {
    assert Sizes(resident - {id}) == Sizes(resident) - {id} by { hide TotalSize; }
    SumRemove(Sizes(resident), id);
  }

  // ---- Type numbers ----

  /** The two tables are each other's inverse, and the next number is new. */
  ghost predicate Interned(index: map<string, nat>, names: map<nat, string>, next: nat) {
    && (forall n :: n in index ==> index[n] in names && names[index[n]] == n && index[n] < next)
    && (forall d :: d in names ==> names[d] in index && index[names[d]] == d)
  }

  lemma InternOne(index: map<string, nat>, names: map<nat, string>, next: nat, name: string)
    requires Interned(index, names, next) && name !in index
    ensures Interned(index[name := next], names[next := name], next + 1)
  {
  }

  // ---- Entries and the rows they stand for ----

  function RowOf(sc: Schema, name: string, e: CacheInfo): Row {
    var m := sc.codec.parse(name, e.data);
    Row(if m.Some? then m.value else Message(name, map[]), e.time)
  }

  ghost predicate EntryOk(sc: Schema, name: string, e: CacheInfo) {
    sc.codec.parse(name, e.data).Some? && RowOk(sc, name, RowOf(sc, name, e))
  }

  /** Every entry has a name, and parses to a proper row of that name. */
  ghost predicate InfoOk(sc: Schema, names: map<nat, string>, info: Info) {
    forall d :: d in info ==> d in names && EntryOk(sc, names[d], info[d])
  }

  function View(sc: Schema, index: map<string, nat>, info: Info): Rows {
    map name | name in index.Keys && index[name] in info :: RowOf(sc, name, info[index[name]])
  }

  lemma ViewPut(sc: Schema, index: map<string, nat>, names: map<nat, string>, next: nat, info: Info, name: string,
                e: CacheInfo)
    requires Interned(index, names, next) && name in index
    ensures View(sc, index, info[index[name] := e]) == View(sc, index, info)[name := RowOf(sc, name, e)]
  {
    hide RowOf;
  }

  lemma ViewRemove(sc: Schema, index: map<string, nat>, names: map<nat, string>, next: nat, info: Info, name: string)
    requires Interned(index, names, next) && name in index
    ensures View(sc, index, info - {index[name]}) == View(sc, index, info) - {name}
  {
    hide RowOf;
  }

  lemma ViewIntern(sc: Schema, index: map<string, nat>, names: map<nat, string>, next: nat, info: Info, name: string)
    requires Interned(index, names, next) && name !in index && InfoOk(sc, names, info)
    ensures View(sc, index[name := next], info) == View(sc, index, info)
    ensures InfoOk(sc, names[next := name], info)
  {
    assert next !in info;
    SameView(sc, index, index[name := next], info);
    hide RowOf, EntryOk, View;
  }

  lemma SameView(sc: Schema, index: map<string, nat>, index': map<string, nat>, info: Info)
    requires forall n :: n in index ==> n in index' && index'[n] == index[n]
    requires forall n :: n in index' && n !in index ==> index'[n] !in info
    ensures View(sc, index', info) == View(sc, index, info)
  {
    hide RowOf;
  }

  // ---- The manager's data ----

  /** `same` are the ids whose dirty cache object is the resident one. */
  datatype Store = Store(resident: map<nat, Info>, dirty: map<nat, Info>, same: set<nat>,
                         index: map<string, nat>, names: map<nat, string>, next: nat,
                         lastWriteback: nat, bytes: int, dropped: int)

  ghost predicate StoreOk(sc: Schema, s: Store) {
    && Interned(s.index, s.names, s.next)
    && (forall id :: id in s.resident ==> InfoOk(sc, s.names, s.resident[id]))
    && (forall id :: id in s.dirty ==> InfoOk(sc, s.names, s.dirty[id]))
    && (forall id :: id in s.same ==> id in s.resident && id in s.dirty && s.dirty[id] == s.resident[id])
    && s.bytes == TotalBytes(s.resident) + s.dropped
  }

  /** The manager counts the bytes of the cache objects that it holds, and of those that flushes dropped. */
  lemma BytesAreExact(sc: Schema, s: Store)
    requires StoreOk(sc, s)
    ensures s.bytes == TotalBytes(s.resident) + s.dropped
    ensures TotalBytes(map[]) == 0 && TotalSize(map[]) == 0
    ensures forall info: Info, d: nat, e: CacheInfo :: d !in info ==>
      TotalSize(info[d := e]) == TotalSize(info) + |e.data|
    ensures forall objects: map<nat, Info>, id: nat, info: Info :: id !in objects ==>
      TotalBytes(objects[id := info]) == TotalBytes(objects) + TotalSize(info)
  {
    hide TotalSize, TotalBytes, InfoOk;
    NoSizes();
    forall info: Info, d: nat, e: CacheInfo | d !in info ensures TotalSize(info[d := e]) == TotalSize(info) + |e.data| {
      TotalSizePut(info, d, e);
    }
    forall objects: map<nat, Info>, id: nat, info: Info | id !in objects
      ensures TotalBytes(objects[id := info]) == TotalBytes(objects) + TotalSize(info)
    {
      TotalBytesPut(objects, id, info);
    }
  }

  lemma NoSizes()
    ensures TotalBytes(map[]) == 0 && TotalSize(map[]) == 0
  {
    assert Sizes(map[]) == map[] && Lengths(map[]) == map[];
  }

  function Views(sc: Schema, index: map<string, nat>, objects: map<nat, Info>): map<nat, Rows> {
    map id | id in objects :: View(sc, index, objects[id])
  }

  function Slots(sc: Schema, index: map<string, nat>, dirty: map<nat, Info>, same: set<nat>): map<nat, Slot> {
    map id | id in dirty :: if id in same then Same else Stale(View(sc, index, dirty[id]))
  }

  function Abs(sc: Schema, s: Store): Cache {
    Cache(Views(sc, s.index, s.resident), Slots(sc, s.index, s.dirty, s.same), s.lastWriteback)
  }

  function Named(s: Store, name: string): Store {
    if name in s.index then s
    else s.(index := s.index[name := s.next], names := s.names[s.next := name], next := s.next + 1)
  }

  lemma ViewsIntern(sc: Schema, s: Store, objects: map<nat, Info>, name: string)
    requires Interned(s.index, s.names, s.next) && name !in s.index
    requires forall id :: id in objects ==> InfoOk(sc, s.names, objects[id])
    ensures forall id :: id in objects ==>
      View(sc, s.index[name := s.next], objects[id]) == View(sc, s.index, objects[id])
    ensures forall id :: id in objects ==> InfoOk(sc, s.names[s.next := name], objects[id])
  {
    forall id | id in objects
      ensures View(sc, s.index[name := s.next], objects[id]) == View(sc, s.index, objects[id])
      ensures InfoOk(sc, s.names[s.next := name], objects[id])
    {
      ViewIntern(sc, s.index, s.names, s.next, objects[id], name);
    }
  }

  lemma NamedOk(sc: Schema, s: Store, name: string)
    requires StoreOk(sc, s)
    ensures StoreOk(sc, Named(s, name)) && name in Named(s, name).index
  {
    hide View, InfoOk, Interned, TotalBytes;
    if name !in s.index {
      InternOne(s.index, s.names, s.next, name);
      ViewsIntern(sc, s, s.resident, name);
      ViewsIntern(sc, s, s.dirty, name);
    }
  }

  lemma NamedAbs(sc: Schema, s: Store, name: string)
    requires StoreOk(sc, s)
    ensures Abs(sc, Named(s, name)) == Abs(sc, s)
  {
    if name !in s.index {
      ViewsIntern(sc, s, s.resident, name);
      ViewsIntern(sc, s, s.dirty, name);
      SameViews(sc, s.index, s.index[name := s.next], s.resident);
      SameSlots(sc, s.index, s.index[name := s.next], s.dirty, s.same);
    }
    hide StoreOk, Views, Slots, View;
  }

  lemma SameViews(sc: Schema, index: map<string, nat>, index': map<string, nat>, objects: map<nat, Info>)
    requires forall id :: id in objects ==> View(sc, index', objects[id]) == View(sc, index, objects[id])
    ensures Views(sc, index', objects) == Views(sc, index, objects)
  {
    hide View;
  }

  lemma SameSlots(sc: Schema, index: map<string, nat>, index': map<string, nat>, dirty: map<nat, Info>, same: set<nat>)
    requires forall id :: id in dirty ==> View(sc, index', dirty[id]) == View(sc, index, dirty[id])
    ensures Slots(sc, index', dirty, same) == Slots(sc, index, dirty, same)
  {
    hide View;
  }

  /** Numbering a name changes no row. */
  lemma NamedKeeps(sc: Schema, s: Store, name: string)
    requires StoreOk(sc, s)
    ensures StoreOk(sc, Named(s, name)) && Abs(sc, Named(s, name)) == Abs(sc, s)
    ensures name in Named(s, name).index
  {
    NamedOk(sc, s, name);
    NamedAbs(sc, s, name);
    hide StoreOk, Abs, Named;
  }

  /** A cache object's entries replaced; `mark` enters it in the dirty map. */
  ghost function Replaced(s: Store, id: nat, info: Info, mark: bool): Store {
    s.(resident := s.resident[id := info],
       dirty := if mark || id in s.same then s.dirty[id := info] else s.dirty,
       same := if mark then s.same + {id} else s.same,
       bytes := s.bytes - (if id in s.resident then TotalSize(s.resident[id]) else 0) + TotalSize(info))
  }

  lemma ReplacedKeeps(sc: Schema, s: Store, id: nat, info: Info, mark: bool)
    requires StoreOk(sc, s) && InfoOk(sc, s.names, info)
    ensures StoreOk(sc, Replaced(s, id, info, mark))
    ensures Abs(sc, Replaced(s, id, info, mark)) ==
      var c := Abs(sc, s);
      c.(resident := c.resident[id := View(sc, s.index, info)], dirty := if mark then c.dirty[id := Same] else c.dirty)
  {
    ReplacedOk(sc, s, id, info, mark);
    ReplacedViews(sc, s, id, info, mark);
    hide StoreOk, View, Views, Slots;
  }

  lemma ReplacedOk(sc: Schema, s: Store, id: nat, info: Info, mark: bool)
    requires StoreOk(sc, s) && InfoOk(sc, s.names, info)
    ensures StoreOk(sc, Replaced(s, id, info, mark))
  {
    TotalBytesPut(s.resident, id, info);
    hide InfoOk, Interned, TotalBytes, TotalSize;
  }

  lemma ReplacedViews(sc: Schema, s: Store, id: nat, info: Info, mark: bool)
    requires forall i :: i in s.same ==> i in s.dirty
    ensures var t := Replaced(s, id, info, mark);
      && Views(sc, t.index, t.resident) == Views(sc, s.index, s.resident)[id := View(sc, s.index, info)]
      && Slots(sc, t.index, t.dirty, t.same) ==
           if mark then Slots(sc, s.index, s.dirty, s.same)[id := Same] else Slots(sc, s.index, s.dirty, s.same)
  {
    hide View, TotalSize;
  }

  /** A resident cache object leaves both maps. */
  ghost function Evicted(s: Store, id: nat): Store
    requires id in s.resident
  {
    s.(resident := s.resident - {id}, dirty := s.dirty - {id}, same := s.same - {id},
       bytes := s.bytes - TotalSize(s.resident[id]))
  }

  lemma EvictedKeeps(sc: Schema, s: Store, id: nat)
    requires StoreOk(sc, s) && id in s.resident
    ensures StoreOk(sc, Evicted(s, id))
    ensures Abs(sc, Evicted(s, id)) ==
      var c := Abs(sc, s); c.(resident := c.resident - {id}, dirty := c.dirty - {id})
  {
    EvictedOk(sc, s, id);
    EvictedViews(sc, s, id);
    hide StoreOk, View, Views, Slots;
  }

  lemma EvictedOk(sc: Schema, s: Store, id: nat)
    requires StoreOk(sc, s) && id in s.resident
    ensures StoreOk(sc, Evicted(s, id))
  {
    TotalBytesRemove(s.resident, id);
    hide InfoOk, Interned, TotalBytes, TotalSize;
  }

  lemma EvictedViews(sc: Schema, s: Store, id: nat)
    ensures Views(sc, s.index, s.resident - {id}) == Views(sc, s.index, s.resident) - {id}
    ensures Slots(sc, s.index, s.dirty - {id}, s.same - {id}) == Slots(sc, s.index, s.dirty, s.same) - {id}
  {
    hide View;
  }

  /** Resident cache objects are dropped; the dirty map and the byte count keep them. */
  ghost function Dropped(s: Store, ids: set<nat>): Store {
    s.(resident := s.resident - ids, same := s.same - ids,
       dropped := s.dropped + TotalBytes(s.resident) - TotalBytes(s.resident - ids))
  }

  lemma DroppedKeeps(sc: Schema, s: Store, ids: set<nat>)
    requires StoreOk(sc, s)
    ensures StoreOk(sc, Dropped(s, ids)) && Abs(sc, Dropped(s, ids)) == Drop(Abs(sc, s), ids)
  {
    DroppedOk(sc, s, ids);
    DroppedSlots(sc, s, ids);
    DroppedViews(sc, s, ids);
    hide StoreOk, View, Views, Slots, SlotRows, TotalBytes;
  }

  lemma DroppedViews(sc: Schema, s: Store, ids: set<nat>)
    ensures Views(sc, s.index, s.resident - ids) == Views(sc, s.index, s.resident) - ids
  {
    hide View;
  }

  lemma DroppedOk(sc: Schema, s: Store, ids: set<nat>)
    requires StoreOk(sc, s)
    ensures StoreOk(sc, Dropped(s, ids))
  {
    hide InfoOk, Interned, TotalBytes;
  }

  lemma DroppedSlots(sc: Schema, s: Store, ids: set<nat>)
    requires forall i :: i in s.same ==> i in s.resident && i in s.dirty && s.dirty[i] == s.resident[i]
    ensures Slots(sc, s.index, s.dirty, s.same - ids) == Drop(Abs(sc, s), ids).dirty
  {
    hide View;
  }

  /** Entries leave the dirty map. */
  ghost function Kept(s: Store, ids: set<nat>, lastWriteback: nat): Store {
    s.(dirty := map id | id in s.dirty && id in ids :: s.dirty[id], same := s.same * ids,
       lastWriteback := lastWriteback)
  }

  lemma KeptKeeps(sc: Schema, s: Store, ids: set<nat>, lastWriteback: nat)
    requires StoreOk(sc, s)
    ensures StoreOk(sc, Kept(s, ids, lastWriteback))
    ensures Abs(sc, Kept(s, ids, lastWriteback)) ==
      var c := Abs(sc, s);
      c.(dirty := map id | id in c.dirty && id in ids :: c.dirty[id], lastWriteback := lastWriteback)
  {
    hide View, InfoOk, Interned, TotalBytes;
    var t, c := Kept(s, ids, lastWriteback), Abs(sc, s);
    assert Slots(sc, t.index, t.dirty, t.same) == map id | id in c.dirty && id in ids :: c.dirty[id];
  }
}
