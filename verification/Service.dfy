/** Several workers, each with a cache of its own, on one table. */
module Service {
  import opened Wrappers
  import opened Messages
  import opened Columns
  import opened CacheModel
  import opened Lines
  import opened Database
  import opened WriteThrough
  import opened Coherence
  import Bits
  import Routing

  // ---- Rows belong to workers ----

  /** The worker of a row: a client sends the low 32 bits of the id along, and the dispatcher takes them modulo
      the number of workers. */
  function WorkerOf(id: int, workers: nat): (i: nat)
    requires workers > 0
    ensures i < workers
  {
    id % Bits.WORD32 % workers
  }

  datatype State = State(caches: seq<Cache>, table: Table)

  function Home(s: State, k: Key): (i: nat)
    requires s.caches != []
    ensures i < |s.caches|
  {
    WorkerOf(k.id, |s.caches|)
  }

  function Part(s: State, i: nat): World
    requires i < |s.caches|
  {
    World(s.caches[i], s.table)
  }

  /** Which commands a worker gets: those on its own rows, and any query, flush and tick. */
  ghost predicate Routed(sc: Schema, workers: nat, i: nat, e: Event)
    requires workers > 0
  {
    match e
    case Select(k, _) => WorkerOf(k.id, workers) == i
    case Update(m, _) => PrimaryId(sc, m).Some? && WorkerOf(KeyOf(sc, m).id, workers) == i
    case Insert(m) => PrimaryId(sc, m).Some? && WorkerOf(KeyOf(sc, m).id, workers) == i
    case Delete(k) => WorkerOf(k.id, workers) == i
    case _ => true
  }

  /** That is where the dispatcher sends a command with the low bits of the id. */
  lemma DispatchedHome(id: int, workers: nat, c: Routing.Command, i: nat)
    requires workers > 0 && c.kind != Routing.OT_FLUSH
    ensures Routing.GoesTo(Routing.Issued(id % 0x1_0000_0000, c), workers, i) <==> WorkerOf(id, workers) == i
  {
  }

  /** The worker of a message is that of its signed key, too. */
  lemma SignedHome(sc: Schema, m: Message, workers: nat)
    requires PrimaryId(sc, m).Some? && workers > 0
    ensures WorkerOf(KeyOf(sc, m).id, workers) == WorkerOf(RowKey(sc, m).id, workers)
  {
    var id := PrimaryId(sc, m).value;
    assert id == id % Bits.WORD + Bits.WORD * (id / Bits.WORD);
    assert id % Bits.WORD32 == id % Bits.WORD % Bits.WORD32;
  }

  /** What a worker holds has its home there. */
  ghost predicate InPlace(s: State, unsaved: seq<set<Key>>) {
    && s.caches != [] && |unsaved| == |s.caches|
    && (forall i, id :: 0 <= i < |s.caches| && (id in s.caches[i].resident || id in s.caches[i].dirty) ==>
          WorkerOf(id, |s.caches|) == i)
    && (forall i, k :: 0 <= i < |s.caches| && k in unsaved[i] ==> Home(s, k) == i)
  }

  // ---- The caches as one ----

  function Joined(s: State): Cache
    requires s.caches != []
  {
    var n := |s.caches|;
    var resident := set i, id | 0 <= i < n && id in s.caches[i].resident && WorkerOf(id, n) == i :: id;
    var dirty := set i, id | 0 <= i < n && id in s.caches[i].dirty && WorkerOf(id, n) == i :: id;
    Cache(map id | id in resident :: s.caches[WorkerOf(id, n)].resident[id],
          map id | id in dirty :: s.caches[WorkerOf(id, n)].dirty[id], 0)
  }

  function AsOne(s: State): World
    requires s.caches != []
  {
    World(Joined(s), s.table)
  }

  function Together(s: State, unsaved: seq<set<Key>>): set<Key>
    requires s.caches != [] && |unsaved| == |s.caches|
  {
    set i, k | 0 <= i < |unsaved| && k in unsaved[i] && Home(s, k) == i :: k
  }

  /** The service is coherent when its caches, taken as one, are coherent with the one table. */
  ghost predicate ServiceCoherent(sc: Schema, s: State, unsaved: seq<set<Key>>, ref: Table) {
    InPlace(s, unsaved) && Coherent(sc, AsOne(s), Together(s, unsaved), ref)
  }

  /** A worker holds its own rows of the union and nothing else. */
  lemma KeyIn(s: State, unsaved: seq<set<Key>>, i: nat, k: Key)
    requires InPlace(s, unsaved) && i < |s.caches|
    ensures var c, all, here := s.caches[i], Joined(s), Home(s, k) == i;
      && (IsCached(c, k) <==> here && IsCached(all, k)) && (IsCached(c, k) ==> RowAt(c, k) == RowAt(all, k))
      && (IsStale(c, k) <==> here && IsStale(all, k)) && (IsStale(c, k) ==> StaleRow(c, k) == StaleRow(all, k))
      && (k.id in c.resident <==> here && k.id in all.resident)
      && (k.id in c.dirty <==> here && k.id in all.dirty) && (k.id in c.dirty ==> c.dirty[k.id] == all.dirty[k.id])
      && (k in unsaved[i] <==> here && k in Together(s, unsaved))
  {
    hide WorkerOf;
  }

  /** What one worker's cache makes of the table. */
  function View(sc: Schema, s: State, unsaved: seq<set<Key>>, i: nat): Table
    requires i < |s.caches| && |unsaved| == |s.caches|
  {
    Overlay(sc, Part(s, i), unsaved[i])
  }

  /** On its own rows a worker sees the table without a cache, on the others the table. */
  lemma ViewIs(sc: Schema, s: State, unsaved: seq<set<Key>>, i: nat, k: Key)
    requires InPlace(s, unsaved) && i < |s.caches|
    ensures var ref, view := Overlay(sc, AsOne(s), Together(s, unsaved)), View(sc, s, unsaved, i);
      var same := if Home(s, k) == i then ref else s.table;
      (k in view <==> k in same) && (k in view ==> view[k] == same[k])
  {
    hide WorkerOf, Joined, Overlay, IsCached, Written, Together;
    KeyIn(s, unsaved, i, k);
    OverlayAt(sc, AsOne(s), Together(s, unsaved));
    OverlayAt(sc, Part(s, i), unsaved[i]);
  }

  // ---- Coherent as one, coherent one by one ----

  lemma PartSound(sc: Schema, s: State, unsaved: seq<set<Key>>, i: nat)
    requires InPlace(s, unsaved) && i < |s.caches| && Sound(sc, AsOne(s))
    ensures Sound(sc, Part(s, i))
  {
    hide WorkerOf, Joined, Together, RowOk, TableOk, IsCached, IsStale, Home;
    var c := s.caches[i];
    forall k
      ensures IsCached(c, k) ==> RowOk(sc, k.name, RowAt(c, k))
      ensures IsStale(c, k) ==> RowOk(sc, k.name, StaleRow(c, k))
    {
      KeyIn(s, unsaved, i, k);
    }
    forall id | id in c.dirty && c.dirty[id] == Same ensures id in c.resident {
      KeyIn(s, unsaved, i, Key(id, ""));
    }
  }

  lemma WholeSound(sc: Schema, s: State, unsaved: seq<set<Key>>)
    requires InPlace(s, unsaved) && forall i :: 0 <= i < |s.caches| ==> Sound(sc, Part(s, i))
    ensures Sound(sc, AsOne(s))
  {
    hide WorkerOf, Joined, Together, RowOk, TableOk, IsCached, IsStale, Home;
    var c := Joined(s);
    assert Sound(sc, Part(s, 0));
    forall k
      ensures IsCached(c, k) ==> RowOk(sc, k.name, RowAt(c, k))
      ensures IsStale(c, k) ==> RowOk(sc, k.name, StaleRow(c, k))
    {
      KeyIn(s, unsaved, Home(s, k), k);
      assert Sound(sc, Part(s, Home(s, k)));
    }
    forall id | id in c.dirty && c.dirty[id] == Same ensures id in c.resident {
      var k := Key(id, "");
      KeyIn(s, unsaved, Home(s, k), k);
      assert Sound(sc, Part(s, Home(s, k)));
    }
  }

  /** What coherence asks of the rows. */
  ghost predicate RowCoherent(sc: Schema, w: World, unsaved: set<Key>, k: Key) {
    && (k in unsaved ==>
          && IsCached(w.cache, k) && RowAt(w.cache, k).time != 0 && k.id in w.cache.dirty && w.cache.dirty[k.id] == Same
          && KeepsText(sc, RowAt(w.cache, k).message))
    && (IsCached(w.cache, k) && k !in unsaved ==>
          && DbSelect(sc, w.table, k) == Some(RowAt(w.cache, k).message)
          && (RowAt(w.cache, k).time != 0 ==> Holds(sc, w.table, k, RowAt(w.cache, k).message)))
    && (IsStale(w.cache, k) ==> Holds(sc, w.table, k, StaleRow(w.cache, k).message))
  }

  lemma RowsCoherent(sc: Schema, w: World, unsaved: set<Key>, ref: Table)
    ensures Coherent(sc, w, unsaved, ref) <==>
      && SchemaOk(sc) && Sound(sc, w) && TableOk(sc, ref) && ref == Overlay(sc, w, unsaved)
      && (forall k :: RowCoherent(sc, w, unsaved, k))
  {
    hide SchemaOk, Sound, TableOk, Overlay, Holds, DbSelect, KeepsText, IsCached, IsStale;
    if forall k :: RowCoherent(sc, w, unsaved, k) {
      forall k
        ensures k in unsaved ==> IsCached(w.cache, k) && RowAt(w.cache, k).time != 0
        ensures k in unsaved ==> k.id in w.cache.dirty && w.cache.dirty[k.id] == Same
        ensures k in unsaved && IsCached(w.cache, k) ==> KeepsText(sc, RowAt(w.cache, k).message)
        ensures IsCached(w.cache, k) && k !in unsaved ==>
          && DbSelect(sc, w.table, k) == Some(RowAt(w.cache, k).message)
          && (RowAt(w.cache, k).time != 0 ==> Holds(sc, w.table, k, RowAt(w.cache, k).message))
        ensures IsStale(w.cache, k) ==> Holds(sc, w.table, k, StaleRow(w.cache, k).message)
      {
        assert RowCoherent(sc, w, unsaved, k);
      }
    }
  }

  /** A row is coherent for its worker exactly when it is in the union, and for any other worker it is. */
  lemma RowIn(sc: Schema, s: State, unsaved: seq<set<Key>>, i: nat, k: Key)
    requires InPlace(s, unsaved) && i < |s.caches|
    ensures RowCoherent(sc, Part(s, i), unsaved[i], k)
      <==> (Home(s, k) == i ==> RowCoherent(sc, AsOne(s), Together(s, unsaved), k))
  {
    hide WorkerOf, Joined, Together, IsCached, IsStale, Home, Holds, DbSelect, KeepsText;
    KeyIn(s, unsaved, i, k);
  }

  lemma PartTable(sc: Schema, s: State, unsaved: seq<set<Key>>, i: nat)
    requires InPlace(s, unsaved) && i < |s.caches| && TableOk(sc, s.table)
    requires TableOk(sc, Overlay(sc, AsOne(s), Together(s, unsaved)))
    ensures TableOk(sc, View(sc, s, unsaved, i))
  {
    hide WorkerOf, Joined, Together, View, Overlay, LineOk, Keyed, Home;
    var view := View(sc, s, unsaved, i);
    forall k | k in view ensures Keyed(sc, k.name) && LineOk(sc, k, view[k]) {
      ViewIs(sc, s, unsaved, i, k);
    }
  }

  lemma WholeTable(sc: Schema, s: State, unsaved: seq<set<Key>>)
    requires InPlace(s, unsaved) && forall i :: 0 <= i < |s.caches| ==> TableOk(sc, View(sc, s, unsaved, i))
    ensures TableOk(sc, Overlay(sc, AsOne(s), Together(s, unsaved)))
  {
    hide WorkerOf, Joined, Together, View, Overlay, LineOk, Keyed, Home;
    var ref := Overlay(sc, AsOne(s), Together(s, unsaved));
    forall k | k in ref ensures Keyed(sc, k.name) && LineOk(sc, k, ref[k]) {
      ViewIs(sc, s, unsaved, Home(s, k), k);
      assert TableOk(sc, View(sc, s, unsaved, Home(s, k)));
    }
  }

  lemma SoundTable(sc: Schema, w: World)
    requires Sound(sc, w)
    ensures TableOk(sc, w.table)
  {
    hide TableOk, RowOk;
  }

  /** A coherent service has coherent workers. */
  lemma PartCoherent(sc: Schema, s: State, unsaved: seq<set<Key>>, ref: Table, i: nat)
    requires ServiceCoherent(sc, s, unsaved, ref) && i < |s.caches|
    ensures Coherent(sc, Part(s, i), unsaved[i], View(sc, s, unsaved, i))
  {
    hide WorkerOf, Joined, Together, Overlay, SchemaOk, Sound, RowCoherent, TableOk, Coherent, Home;
    RowsCoherent(sc, AsOne(s), Together(s, unsaved), ref);
    SoundTable(sc, AsOne(s));
    PartSound(sc, s, unsaved, i);
    PartTable(sc, s, unsaved, i);
    forall k ensures RowCoherent(sc, Part(s, i), unsaved[i], k) {
      RowIn(sc, s, unsaved, i, k);
    }
    RowsCoherent(sc, Part(s, i), unsaved[i], View(sc, s, unsaved, i));
  }

  /** Coherent workers make a coherent service. */
  lemma WholeCoherent(sc: Schema, s: State, unsaved: seq<set<Key>>)
    requires InPlace(s, unsaved)
    requires forall i :: 0 <= i < |s.caches| ==> Coherent(sc, Part(s, i), unsaved[i], View(sc, s, unsaved, i))
    ensures ServiceCoherent(sc, s, unsaved, Overlay(sc, AsOne(s), Together(s, unsaved)))
  {
    hide WorkerOf, Joined, Together, View, Overlay, SchemaOk, Sound, RowCoherent, TableOk, Coherent, Home;
    forall i | 0 <= i < |s.caches|
      ensures SchemaOk(sc) && Sound(sc, Part(s, i)) && TableOk(sc, View(sc, s, unsaved, i))
      ensures forall k :: RowCoherent(sc, Part(s, i), unsaved[i], k)
    {
      RowsCoherent(sc, Part(s, i), unsaved[i], View(sc, s, unsaved, i));
    }
    assert Sound(sc, Part(s, 0));
    WholeSound(sc, s, unsaved);
    WholeTable(sc, s, unsaved);
    forall k ensures RowCoherent(sc, AsOne(s), Together(s, unsaved), k) {
      RowIn(sc, s, unsaved, Home(s, k), k);
      assert RowCoherent(sc, Part(s, Home(s, k)), unsaved[Home(s, k)], k);
    }
    RowsCoherent(sc, AsOne(s), Together(s, unsaved), Overlay(sc, AsOne(s), Together(s, unsaved)));
  }

  // ---- Steps ----

  /** Worker `i` handles an event; the others do nothing meanwhile. */
  ghost function ServiceStep(sc: Schema, period: nat, s: State, i: nat, e: Event): State
    requires i < |s.caches| && ValidEvent(sc, Part(s, i), e)
  {
    var w := Step(sc, period, Part(s, i), e);
    State(s.caches[i := w.cache], w.table)
  }

  ghost function UnsavedNow(sc: Schema, period: nat, s: State, unsaved: seq<set<Key>>, i: nat, e: Event)
    : seq<set<Key>>
    requires i < |s.caches| && |unsaved| == |s.caches| && ValidEvent(sc, Part(s, i), e)
  {
    unsaved[i := Unsaved(sc, period, Part(s, i), unsaved[i], e)]
  }

  /** A query concerns the rows of all workers, anything else those of one. */
  ghost predicate ServiceSafe(sc: Schema, period: nat, s: State, unsaved: seq<set<Key>>, i: nat, e: Event)
    requires Total(sc) && i < |s.caches| && |unsaved| == |s.caches| && ValidEvent(sc, Part(s, i), e)
  {
    if e.Query? then SafeQuery(sc, AsOne(s), Together(s, unsaved), e.name, e.condition)
    else Safe(sc, period, Part(s, i), unsaved[i], e)
  }

  /** A command names the id. */
  ghost predicate IsNamed(sc: Schema, e: Event, id: int) {
    match e
    case Select(k, _) => id == k.id
    case Update(m, _) => PrimaryId(sc, m).Some? && id == KeyOf(sc, m).id
    case Insert(m) => PrimaryId(sc, m).Some? && id == KeyOf(sc, m).id
    case Delete(k) => id == k.id
    case _ => false
  }

  lemma StepIds(sc: Schema, period: nat, w: World, unsaved: set<Key>, e: Event, k: Key)
    requires ValidEvent(sc, w, e)
    ensures var c := Step(sc, period, w, e).cache;
      (k.id in c.resident || k.id in c.dirty) && !IsNamed(sc, e, k.id) ==>
        k.id in w.cache.resident || k.id in w.cache.dirty
    ensures k in Unsaved(sc, period, w, unsaved, e) && !IsNamed(sc, e, k.id) ==> k in unsaved
  {
    hide PutRow, OverwriteRow, Pass, Saved, DbSelect, DbUpdate, DbInsert, IsMessage, PrimaryId, Throttled, StillDirty,
         SlotRows;
  }

  lemma NamedHome(sc: Schema, s: State, i: nat, e: Event, id: int)
    requires i < |s.caches| && Routed(sc, |s.caches|, i, e) && IsNamed(sc, e, id)
    ensures WorkerOf(id, |s.caches|) == i
  {
    hide WorkerOf, PrimaryId;
  }

  lemma StepInPlace(sc: Schema, period: nat, s: State, unsaved: seq<set<Key>>, i: nat, e: Event)
    requires InPlace(s, unsaved) && i < |s.caches| && ValidEvent(sc, Part(s, i), e) && Routed(sc, |s.caches|, i, e)
    ensures InPlace(ServiceStep(sc, period, s, i, e), UnsavedNow(sc, period, s, unsaved, i, e))
  {
    hide WorkerOf, Step, Unsaved, Routed, ValidEvent, IsNamed;
    var s', left := ServiceStep(sc, period, s, i, e), UnsavedNow(sc, period, s, unsaved, i, e);
    forall id | id in s'.caches[i].resident || id in s'.caches[i].dirty ensures WorkerOf(id, |s.caches|) == i {
      StepIds(sc, period, Part(s, i), unsaved[i], e, Key(id, ""));
      if IsNamed(sc, e, id) {
        NamedHome(sc, s, i, e, id);
      }
    }
    forall j, k | 0 <= j < |s.caches| && k in left[j] ensures Home(s', k) == j {
      if j == i {
        StepIds(sc, period, Part(s, i), unsaved[i], e, k);
        if IsNamed(sc, e, k.id) {
          NamedHome(sc, s, i, e, k.id);
        }
      }
      assert k in unsaved[j] ==> Home(s, k) == j;
    }
  }

  ghost predicate SameAt(a: Table, b: Table, k: Key) {
    (k in a <==> k in b) && (k in a ==> a[k] == b[k])
  }

  /** The table without a cache changes at the rows that the command's worker is home to, and what becomes of a
      row there depends on the row only. */
  lemma RefStepAt(sc: Schema, s: State, i: nat, a: Table, b: Table, e: Event, k: Key)
    requires i < |s.caches| && Routed(sc, |s.caches|, i, e)
    ensures SameAt(a, b, k) ==> SameAt(RefStep(sc, a, e), RefStep(sc, b, e), k)
    ensures Home(s, k) != i ==> SameAt(RefStep(sc, a, e), a, k)
  {
    hide WorkerOf, PrimaryId, Storable, Written;
    if e.Update? || e.Insert? {
      SignedHome(sc, e.m, |s.caches|);
    }
  }

  /** What a client is told without a cache depends on the worker's own rows, for all commands but a query. */
  lemma RefToldAt(sc: Schema, s: State, i: nat, a: Table, b: Table, e: Event)
    requires i < |s.caches| && Routed(sc, |s.caches|, i, e) && !e.Query?
    requires forall k :: Home(s, k) == i ==> SameAt(a, b, k)
    ensures RefTold(sc, a, e) == RefTold(sc, b, e)
  {
    hide WorkerOf, PrimaryId, Storable, Written, ReadLine;
    match e
    case Select(k, _) => assert SameAt(a, b, k);
    case Insert(m) =>
      SignedHome(sc, m, |s.caches|);
      assert SameAt(a, b, RowKey(sc, m));
    case _ =>
  }

  // ---- The other workers ----

  lemma OtherSound(sc: Schema, w: World, table: Table)
    requires Sound(sc, w) && TableOk(sc, table)
    ensures Sound(sc, w.(table := table))
  {
    hide TableOk, RowOk, IsCached, IsStale;
  }

  lemma OtherRow(sc: Schema, w: World, table: Table, unsaved: set<Key>, k: Key)
    requires RowCoherent(sc, w, unsaved, k) && SameAt(w.table, table, k)
    ensures RowCoherent(sc, w.(table := table), unsaved, k)
  {
    hide IsCached, IsStale, ReadLine, Written, KeepsText;
  }

  /** A worker whose rows do not change stays coherent. */
  lemma OtherCoherent(sc: Schema, s: State, unsaved: seq<set<Key>>, j: nat, table: Table)
    requires InPlace(s, unsaved) && j < |s.caches| && TableOk(sc, table)
    requires Coherent(sc, Part(s, j), unsaved[j], View(sc, s, unsaved, j))
    requires forall k :: Home(s, k) == j ==> SameAt(s.table, table, k)
    ensures Coherent(sc, Part(s.(table := table), j), unsaved[j], View(sc, s.(table := table), unsaved, j))
  {
    hide WorkerOf, Joined, Together, SchemaOk, Sound, RowCoherent, TableOk, Coherent, Home, Overlay, View;
    var w, w' := Part(s, j), Part(s.(table := table), j);
    var view, view' := View(sc, s, unsaved, j), View(sc, s.(table := table), unsaved, j);
    RowsCoherent(sc, w, unsaved[j], view);
    OtherSound(sc, w, table);
    OtherInPlace(s, unsaved, table);
    forall k ensures RowCoherent(sc, w', unsaved[j], k) {
      if Home(s, k) == j {
        OtherRow(sc, w, table, unsaved[j], k);
      } else {
        RowIn(sc, s.(table := table), unsaved, j, k);
        assert Home(s.(table := table), k) != j by { SameHome(s, table, k); }
      }
    }
    OtherView(sc, s, unsaved, j, table);
    assert view' == Overlay(sc, w', unsaved[j]) by { ViewIsOverlay(sc, s.(table := table), unsaved, j); }
    RowsCoherent(sc, w', unsaved[j], view');
  }

  lemma SameHome(s: State, table: Table, k: Key)
    requires s.caches != []
    ensures Home(s.(table := table), k) == Home(s, k)
  {
  }

  lemma OtherInPlace(s: State, unsaved: seq<set<Key>>, table: Table)
    requires InPlace(s, unsaved)
    ensures InPlace(s.(table := table), unsaved)
  {
    hide WorkerOf;
    forall i, k | 0 <= i < |s.caches| && k in unsaved[i] ensures Home(s.(table := table), k) == i {
      assert Home(s, k) == i;
    }
  }

  lemma ViewIsOverlay(sc: Schema, s: State, unsaved: seq<set<Key>>, j: nat)
    requires j < |s.caches| && |unsaved| == |s.caches|
    ensures View(sc, s, unsaved, j) == Overlay(sc, Part(s, j), unsaved[j])
  {
  }

  lemma OtherView(sc: Schema, s: State, unsaved: seq<set<Key>>, j: nat, table: Table)
    requires InPlace(s, unsaved) && j < |s.caches| && TableOk(sc, table) && TableOk(sc, View(sc, s, unsaved, j))
    requires forall k :: Home(s, k) == j ==> SameAt(s.table, table, k)
    ensures forall k :: Home(s, k) == j ==> SameAt(View(sc, s.(table := table), unsaved, j), View(sc, s, unsaved, j), k)
    ensures TableOk(sc, View(sc, s.(table := table), unsaved, j))
  {
    hide WorkerOf, Joined, Together, Overlay, LineOk, Keyed, IsCached, Written;
    OverlayAt(sc, Part(s, j), unsaved[j]);
    OverlayAt(sc, Part(s.(table := table), j), unsaved[j]);
  }

  // ---- A step of the service ----

  /** The rows of other workers are in the table as they were. */
  lemma ForeignRows(sc: Schema, period: nat, s: State, unsaved: seq<set<Key>>, ref: Table, i: nat, e: Event, k: Key)
    requires ServiceCoherent(sc, s, unsaved, ref) && i < |s.caches| && ValidEvent(sc, Part(s, i), e)
    requires Routed(sc, |s.caches|, i, e) && Home(s, k) != i
    requires
      var s', left := ServiceStep(sc, period, s, i, e), UnsavedNow(sc, period, s, unsaved, i, e);
      InPlace(s', left) && RefStep(sc, View(sc, s, unsaved, i), e) == View(sc, s', left, i)
    ensures SameAt(ServiceStep(sc, period, s, i, e).table, s.table, k)
  {
    hide WorkerOf, Joined, Together, Coherent, View, Step, Unsaved, RefStep, ValidEvent, Overlay;
    var s', left := ServiceStep(sc, period, s, i, e), UnsavedNow(sc, period, s, unsaved, i, e);
    ViewIs(sc, s, unsaved, i, k);
    ViewIs(sc, s', left, i, k);
    RefStepAt(sc, s, i, View(sc, s, unsaved, i), s.table, e, k);
    SameHomes(s, s', k);
  }

  lemma SameHomes(s: State, s': State, k: Key)
    requires s.caches != [] && |s.caches| == |s'.caches|
    ensures Home(s, k) == Home(s', k)
  {
  }

  /** When the step of one worker keeps it coherent, it keeps the service coherent. */
  lemma StepKeeps(sc: Schema, period: nat, s: State, unsaved: seq<set<Key>>, ref: Table, i: nat, e: Event)
    requires ServiceCoherent(sc, s, unsaved, ref) && i < |s.caches| && ValidEvent(sc, Part(s, i), e)
    requires Routed(sc, |s.caches|, i, e)
    requires
      var s', left := ServiceStep(sc, period, s, i, e), UnsavedNow(sc, period, s, unsaved, i, e);
      Coherent(sc, Part(s', i), left[i], RefStep(sc, View(sc, s, unsaved, i), e))
    ensures
      ServiceCoherent(sc, ServiceStep(sc, period, s, i, e), UnsavedNow(sc, period, s, unsaved, i, e),
                      RefStep(sc, ref, e))
  {
    hide WorkerOf, Joined, Together, Coherent, View, Step, Unsaved, RefStep, ValidEvent, Overlay, TableOk, Home, Sound;
    var s', left := ServiceStep(sc, period, s, i, e), UnsavedNow(sc, period, s, unsaved, i, e);
    StepInPlace(sc, period, s, unsaved, i, e);
    CoherentView(sc, s', left, i, RefStep(sc, View(sc, s, unsaved, i), e));
    forall j | 0 <= j < |s.caches| ensures Coherent(sc, Part(s', j), left[j], View(sc, s', left, j)) {
      if j != i {
        PartCoherent(sc, s, unsaved, ref, j);
        forall k | Home(s, k) == j ensures SameAt(s.table, s'.table, k) {
          ForeignRows(sc, period, s, unsaved, ref, i, e, k);
        }
        OtherCoherent(sc, s, unsaved, j, s'.table);
        SamePart(sc, s.(table := s'.table), unsaved, s', left, j);
      }
    }
    WholeCoherent(sc, s', left);
    RefStepIs(sc, period, s, unsaved, ref, i, e);
  }

  lemma CoherentView(sc: Schema, s: State, unsaved: seq<set<Key>>, i: nat, ref: Table)
    requires i < |s.caches| && |unsaved| == |s.caches| && Coherent(sc, Part(s, i), unsaved[i], ref)
    ensures ref == View(sc, s, unsaved, i) && TableOk(sc, s.table)
  {
    hide SchemaOk, Tracked, CleanRowsMatch, StaleRowsMatch, UnsavedRead, TableOk, Overlay, RowOk;
  }

  lemma SamePart(sc: Schema, s: State, unsaved: seq<set<Key>>, s': State, unsaved': seq<set<Key>>, j: nat)
    requires j < |s.caches| == |unsaved| && j < |s'.caches| == |unsaved'|
    requires s.table == s'.table && s.caches[j] == s'.caches[j] && unsaved[j] == unsaved'[j]
    ensures Part(s, j) == Part(s', j) && View(sc, s, unsaved, j) == View(sc, s', unsaved', j)
  {
  }

  /** The tables that the workers see make up the table without a cache. */
  lemma RefStepIs(sc: Schema, period: nat, s: State, unsaved: seq<set<Key>>, ref: Table, i: nat, e: Event)
    requires ServiceCoherent(sc, s, unsaved, ref) && i < |s.caches| && ValidEvent(sc, Part(s, i), e)
    requires Routed(sc, |s.caches|, i, e)
    requires
      var s', left := ServiceStep(sc, period, s, i, e), UnsavedNow(sc, period, s, unsaved, i, e);
      InPlace(s', left) && RefStep(sc, View(sc, s, unsaved, i), e) == View(sc, s', left, i)
    ensures
      var s', left := ServiceStep(sc, period, s, i, e), UnsavedNow(sc, period, s, unsaved, i, e);
      RefStep(sc, ref, e) == Overlay(sc, AsOne(s'), Together(s', left))
  {
    hide WorkerOf, Joined, Together, View, Step, Unsaved, RefStep, ValidEvent, Overlay, TableOk, Home, Sound, SchemaOk,
         Tracked, CleanRowsMatch, StaleRowsMatch, UnsavedRead;
    var s', left := ServiceStep(sc, period, s, i, e), UnsavedNow(sc, period, s, unsaved, i, e);
    var whole, next := Overlay(sc, AsOne(s'), Together(s', left)), RefStep(sc, ref, e);
    forall k ensures SameAt(whole, next, k) {
      var j := Home(s, k);
      SameHomes(s, s', k);
      ViewIs(sc, s, unsaved, j, k);
      ViewIs(sc, s', left, j, k);
      RefStepAt(sc, s, i, View(sc, s, unsaved, i), ref, e, k);
      RefStepAt(sc, s, i, ref, ref, e, k);
      if j != i {
        ForeignRows(sc, period, s, unsaved, ref, i, e, k);
        OverlayElsewhere(sc, s, unsaved, s', left, j, k);
      }
    }
    SameTables(whole, next);
  }

  lemma SameTables(a: Table, b: Table)
    requires forall k :: SameAt(a, b, k)
    ensures a == b
  {
    forall k ensures k in a <==> k in b {
      assert SameAt(a, b, k);
    }
    forall k | k in a ensures a[k] == b[k] {
      assert SameAt(a, b, k);
    }
  }

  lemma OverlayElsewhere(sc: Schema, s: State, unsaved: seq<set<Key>>, s': State, unsaved': seq<set<Key>>, j: nat,
                         k: Key)
    requires j < |s.caches| == |unsaved| && j < |s'.caches| == |unsaved'|
    requires s.caches[j] == s'.caches[j] && unsaved[j] == unsaved'[j] && SameAt(s'.table, s.table, k)
    ensures SameAt(View(sc, s', unsaved', j), View(sc, s, unsaved, j), k)
  {
    hide Overlay, Written, IsCached;
    OverlayAt(sc, Part(s, j), unsaved[j]);
    OverlayAt(sc, Part(s', j), unsaved'[j]);
  }

  /** Only a write-back can reach rows that the command's worker is not home to. */
  ghost predicate WritesBack(w: World, period: nat, e: Event) {
    e.Tick? || (e.Flush? && (e.id != 0 || !Throttled(w.cache, 0, period)))
  }

  lemma WritesAtHome(sc: Schema, period: nat, s: State, i: nat, e: Event, k: Key)
    requires i < |s.caches| && ValidEvent(sc, Part(s, i), e) && Routed(sc, |s.caches|, i, e) && Home(s, k) != i
    requires !WritesBack(Part(s, i), period, e)
    ensures SameAt(Step(sc, period, Part(s, i), e).table, s.table, k)
  {
    hide WorkerOf, PrimaryId, Storable, Written, SetData, AddData, DelData, IsMessage;
    if e.Update? || e.Insert? {
      SignedHome(sc, e.m, |s.caches|);
    }
  }

  lemma WritesBackSafe(sc: Schema, period: nat, w: World, unsaved: set<Key>, e: Event)
    requires Total(sc) && ValidEvent(sc, w, e) && WritesBack(w, period, e)
    ensures Safe(sc, period, w, unsaved, e)
  {
    hide Total;
  }

  /** When the service stays coherent, so does the worker. */
  lemma StepKept(sc: Schema, period: nat, s: State, unsaved: seq<set<Key>>, ref: Table, i: nat, e: Event)
    requires ServiceCoherent(sc, s, unsaved, ref) && i < |s.caches| && ValidEvent(sc, Part(s, i), e)
    requires Routed(sc, |s.caches|, i, e) && !WritesBack(Part(s, i), period, e)
    requires
      ServiceCoherent(sc, ServiceStep(sc, period, s, i, e), UnsavedNow(sc, period, s, unsaved, i, e),
                      RefStep(sc, ref, e))
    ensures
      var s', left := ServiceStep(sc, period, s, i, e), UnsavedNow(sc, period, s, unsaved, i, e);
      Coherent(sc, Part(s', i), left[i], RefStep(sc, View(sc, s, unsaved, i), e))
  {
    hide WorkerOf, Joined, Together, View, Step, Unsaved, RefStep, ValidEvent, Overlay, TableOk, Home, Sound, SchemaOk,
         Tracked, CleanRowsMatch, StaleRowsMatch, UnsavedRead, WritesBack;
    var s', left := ServiceStep(sc, period, s, i, e), UnsavedNow(sc, period, s, unsaved, i, e);
    PartCoherent(sc, s', left, RefStep(sc, ref, e), i);
    var view := View(sc, s, unsaved, i);
    forall k ensures SameAt(RefStep(sc, view, e), View(sc, s', left, i), k) {
      SameHomes(s, s', k);
      ViewIs(sc, s, unsaved, i, k);
      ViewIs(sc, s', left, i, k);
      RefStepAt(sc, s, i, view, ref, e, k);
      if Home(s, k) != i {
        RefStepAt(sc, s, i, view, view, e, k);
        WritesAtHome(sc, period, s, i, e, k);
      }
    }
    SameTables(RefStep(sc, view, e), View(sc, s', left, i));
  }

  lemma ToldHere(sc: Schema, s: State, unsaved: seq<set<Key>>, ref: Table, i: nat, e: Event)
    requires ServiceCoherent(sc, s, unsaved, ref) && i < |s.caches| && Routed(sc, |s.caches|, i, e) && !e.Query?
    ensures RefTold(sc, View(sc, s, unsaved, i), e) == RefTold(sc, ref, e)
  {
    hide WorkerOf, Joined, Together, View, RefTold, Overlay, TableOk, Home, Sound, SchemaOk, Tracked, CleanRowsMatch,
         StaleRowsMatch, UnsavedRead, Routed;
    forall k | Home(s, k) == i ensures SameAt(View(sc, s, unsaved, i), ref, k) {
      ViewIs(sc, s, unsaved, i, k);
    }
    RefToldAt(sc, s, i, View(sc, s, unsaved, i), ref, e);
  }

  /** A step of one worker keeps the service coherent, and tells the client what the table without a cache
      would, exactly when it is safe. */
  lemma ServiceStepCoherent(sc: Schema, period: nat, s: State, unsaved: seq<set<Key>>, ref: Table, i: nat, e: Event)
    requires Total(sc) && ServiceCoherent(sc, s, unsaved, ref)
    requires i < |s.caches| && ValidEvent(sc, Part(s, i), e) && Routed(sc, |s.caches|, i, e)
    ensures
      && ServiceCoherent(sc, ServiceStep(sc, period, s, i, e), UnsavedNow(sc, period, s, unsaved, i, e),
                         RefStep(sc, ref, e))
      && Told(sc, Part(s, i), e) == RefTold(sc, ref, e)
      <==> ServiceSafe(sc, period, s, unsaved, i, e)
  {
    hide Total, WorkerOf, Joined, Together, Coherent, View, Step, Unsaved, RefStep, Told, RefTold, IsMessage, Safe,
         SafeQuery, InPlace, Routed, WritesBack;
    Sized(sc, s, unsaved, ref);
    if e.Query? {
      QueryStep(sc, period, s, unsaved, ref, i, e);
    } else {
      PartCoherent(sc, s, unsaved, ref, i);
      ToldHere(sc, s, unsaved, ref, i, e);
      StepCoherent(sc, period, Part(s, i), unsaved[i], View(sc, s, unsaved, i), e);
      if Safe(sc, period, Part(s, i), unsaved[i], e) {
        StepKeeps(sc, period, s, unsaved, ref, i, e);
      } else if WritesBack(Part(s, i), period, e) {
        WritesBackSafe(sc, period, Part(s, i), unsaved[i], e);
      } else if ServiceCoherent(sc, ServiceStep(sc, period, s, i, e), UnsavedNow(sc, period, s, unsaved, i, e),
                                RefStep(sc, ref, e))
      {
        StepKept(sc, period, s, unsaved, ref, i, e);
      }
    }
  }

  lemma Sized(sc: Schema, s: State, unsaved: seq<set<Key>>, ref: Table)
    requires ServiceCoherent(sc, s, unsaved, ref)
    ensures s.caches != [] && |unsaved| == |s.caches|
  {
  }

  lemma QueryStep(sc: Schema, period: nat, s: State, unsaved: seq<set<Key>>, ref: Table, i: nat, e: Event)
    requires ServiceCoherent(sc, s, unsaved, ref) && i < |s.caches| && ValidEvent(sc, Part(s, i), e) && e.Query?
    ensures ServiceStep(sc, period, s, i, e) == s && UnsavedNow(sc, period, s, unsaved, i, e) == unsaved
    ensures RefStep(sc, ref, e) == ref
    ensures Told(sc, Part(s, i), e) == RefTold(sc, ref, e)
      <==> SafeQuery(sc, AsOne(s), Together(s, unsaved), e.name, e.condition)
  {
    hide WorkerOf, Joined, Together, Coherent, SafeQuery, DbQuery;
    QueryAnswered(sc, AsOne(s), Together(s, unsaved), ref, e.name, e.condition);
  }

  // ---- Every run ----

  datatype Point = Point(state: State, unsaved: seq<set<Key>>, ref: Table)

  /** Which worker handles what next. */
  datatype Turn = Turn(worker: nat, event: Event)

  ghost predicate IsNext(sc: Schema, period: nat, p: Point, t: Turn, q: Point)
    requires Total(sc)
  {
    var s, i := p.state, t.worker;
    && i < |s.caches| == |p.unsaved| && ValidEvent(sc, Part(s, i), t.event) && Routed(sc, |s.caches|, i, t.event)
    && ServiceSafe(sc, period, s, p.unsaved, i, t.event)
    && q == Point(ServiceStep(sc, period, s, i, t.event), UnsavedNow(sc, period, s, p.unsaved, i, t.event),
                  RefStep(sc, p.ref, t.event))
  }

  ghost predicate SafeServiceRun(sc: Schema, period: nat, points: seq<Point>, turns: seq<Turn>)
    requires Total(sc)
  {
    && |points| == |turns| + 1
    && (forall i :: 0 <= i < |turns| ==> IsNext(sc, period, points[i], turns[i], points[i + 1]))
  }

  ghost predicate IsStart(sc: Schema, p: Point) {
    && p.state.caches != [] && |p.unsaved| == |p.state.caches| && p.ref == p.state.table
    && SchemaOk(sc) && TableOk(sc, p.ref)
    && (forall i :: 0 <= i < |p.unsaved| ==> p.state.caches[i] == EMPTY && p.unsaved[i] == {})
  }

  /** The worker of each row answers a select of it as the table without a cache does. */
  ghost predicate AnswersAsOne(sc: Schema, p: Point) {
    && p.state.caches != []
    && (forall k :: Reply(sc, Part(p.state, Home(p.state, k)), k) == DbSelect(sc, p.ref, k))
  }

  /** No row is in the caches of two workers. */
  ghost predicate OneHolder(s: State) {
    forall i, j, k :: 0 <= i < |s.caches| && 0 <= j < |s.caches| && IsCached(s.caches[i], k) && IsCached(s.caches[j], k)
      ==> i == j
  }

  ghost predicate ToldAlike(sc: Schema, p: Point, t: Turn) {
    && t.worker < |p.state.caches| && ValidEvent(sc, Part(p.state, t.worker), t.event)
    && Told(sc, Part(p.state, t.worker), t.event) == RefTold(sc, p.ref, t.event)
  }

  lemma StartCoherent(sc: Schema, p: Point)
    requires IsStart(sc, p)
    ensures ServiceCoherent(sc, p.state, p.unsaved, p.ref)
  {
    hide SchemaOk, TableOk, WorkerOf;
    assert Joined(p.state) == EMPTY;
    assert Together(p.state, p.unsaved) == {};
    assert Overlay(sc, AsOne(p.state), {}) == p.ref;
  }

  /** However the workers of a service take turns, as long as what they handle is safe: a row is in the cache of
      one worker at most, whose answer is that of the one table that every command wrote to at once, and what
      that table would tell the client the worker tells it. */
  lemma {:induction false} ServiceSimulatesWriteThrough(sc: Schema, period: nat, points: seq<Point>, turns: seq<Turn>,
                                                        i: nat)
    requires Total(sc) && SafeServiceRun(sc, period, points, turns) && i < |points| && IsStart(sc, points[0])
    ensures ServiceCoherent(sc, points[i].state, points[i].unsaved, points[i].ref)
    ensures AnswersAsOne(sc, points[i]) && OneHolder(points[i].state)
    ensures i < |turns| ==> ToldAlike(sc, points[i], turns[i])
  {
    hide Total, WorkerOf, Joined, Together, Coherent, Step, Unsaved, RefStep, Told, RefTold, ValidEvent, InPlace,
         Routed, ServiceSafe, ServiceCoherent, AnswersAsOne, OneHolder, IsStart;
    if i == 0 {
      StartCoherent(sc, points[0]);
    } else {
      var p, t := points[i - 1], turns[i - 1];
      ServiceSimulatesWriteThrough(sc, period, points, turns, i - 1);
      assert IsNext(sc, period, p, t, points[i]);
      ServiceStepCoherent(sc, period, p.state, p.unsaved, p.ref, t.worker, t.event);
    }
    CoherentReplies(sc, points[i]);
    if i < |turns| {
      assert IsNext(sc, period, points[i], turns[i], points[i + 1]);
      ServiceStepCoherent(sc, period, points[i].state, points[i].unsaved, points[i].ref, turns[i].worker,
                          turns[i].event);
    }
  }

  lemma CoherentReplies(sc: Schema, p: Point)
    requires ServiceCoherent(sc, p.state, p.unsaved, p.ref)
    ensures AnswersAsOne(sc, p) && OneHolder(p.state)
  {
    hide WorkerOf, Joined, Together, Coherent, DbSelect, IsCached;
    forall k ensures Reply(sc, Part(p.state, Home(p.state, k)), k) == DbSelect(sc, p.ref, k) {
      ReplyMatches(sc, AsOne(p.state), Together(p.state, p.unsaved), p.ref, k);
      KeyIn(p.state, p.unsaved, Home(p.state, k), k);
    }
    var caches := p.state.caches;
    forall i, j, k | 0 <= i < |caches| && 0 <= j < |caches| && IsCached(caches[i], k) && IsCached(caches[j], k)
      ensures i == j
    {
      KeyIn(p.state, p.unsaved, i, k);
      KeyIn(p.state, p.unsaved, j, k);
    }
  }
}
