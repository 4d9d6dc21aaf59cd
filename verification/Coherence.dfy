/** Which events keep the cached table coherent with a table without a cache: each one exactly when it is safe. */
module Coherence {
  import opened Wrappers
  import opened Messages
  import opened Columns
  import opened CacheModel
  import opened Lines
  import opened Database
  import opened WriteThrough

  lemma EmptyRowIsMessage(sc: Schema, k: Key)
    requires k.name in sc.pool
    ensures IsMessage(sc, EmptyRow(k))
  {
  }

  // ---- Shapes: what an operation changes, key by key ----

  /** Only `k` changes in the cache, which gains or replaces it by `row`; no stale row appears. */
  ghost predicate Puts(c: Cache, c': Cache, k: Key, row: Row) {
    && (forall j :: IsCached(c', j) <==> j == k || IsCached(c, j))
    && (forall j :: IsCached(c', j) ==> RowAt(c', j) == if j == k then row else RowAt(c, j))
    && (forall j :: IsStale(c', j) ==> IsStale(c, j) && c'.dirty[j.id] == c.dirty[j.id])
    && (forall id :: id in c.resident ==> id in c'.resident)
    && (forall id :: id in c'.dirty && id != k.id ==> id in c.dirty && c'.dirty[id] == c.dirty[id])
    && (forall id :: id in c.dirty && c.dirty[id] == Same ==> id in c'.dirty && c'.dirty[id] == Same)
    && (k.id in c'.dirty && c'.dirty[k.id] == Same ==> k.id in c'.resident)
  }

  lemma FillShape(sc: Schema, c: Cache, k: Key, m: Message, at: nat)
    requires m.typeName == k.name && !IsCached(c, k) && sc.codec.serialize(m).Some? && k.id >= 0
    requires forall id :: id in c.dirty && c.dirty[id] == Same ==> id in c.resident
    ensures SetData(sc, c, k.id, m, at).1
    ensures Puts(c, SetData(sc, c, k.id, m, at).0, k, Row(m, 0))
  {
    var c' := SetData(sc, c, k.id, m, at).0;
    if k.id in c.resident {
      assert c'.resident[k.id] == c.resident[k.id][k.name := Row(m, 0)];
    } else {
      assert c'.resident[k.id] == map[k.name := Row(m, 0)];
    }
  }

  lemma OverlayAt(sc: Schema, w: World, unsaved: set<Key>)
    ensures forall k :: k in Overlay(sc, w, unsaved) <==> k in w.table || (k in unsaved && IsCached(w.cache, k))
    ensures forall k :: k in Overlay(sc, w, unsaved) ==>
      Overlay(sc, w, unsaved)[k] ==
        if k in unsaved && IsCached(w.cache, k) then Written(sc, RowAt(w.cache, k).message) else w.table[k]
  {
    hide Written;
  }

  lemma PutSound(sc: Schema, w: World, cache: Cache, k: Key, row: Row)
    requires Sound(sc, w) && Puts(w.cache, cache, k, row) && RowOk(sc, k.name, row)
    ensures Sound(sc, w.(cache := cache))
  {
    hide RowOk, TableOk, IsCached, IsStale;
  }

  lemma PutTracked(c: Cache, c': Cache, unsaved: set<Key>, k: Key, row: Row)
    requires Tracked(c, unsaved) && Puts(c, c', k, row) && k !in unsaved
    ensures Tracked(c', unsaved)
  {
  }

  lemma PutClean(sc: Schema, w: World, unsaved: set<Key>, cache: Cache, k: Key, row: Row)
    requires CleanRowsMatch(sc, w, unsaved) && Puts(w.cache, cache, k, row)
    requires row.time == 0 && DbSelect(sc, w.table, k) == Some(row.message)
    ensures CleanRowsMatch(sc, w.(cache := cache), unsaved)
  {
    hide IsCached, IsStale, DbSelect, Holds;
  }

  lemma PutCleanExactly(sc: Schema, w: World, unsaved: set<Key>, cache: Cache, k: Key, row: Row)
    requires CleanRowsMatch(sc, w, unsaved) && Puts(w.cache, cache, k, row) && row.time == 0 && k !in unsaved
    ensures CleanRowsMatch(sc, w.(cache := cache), unsaved) <==> DbSelect(sc, w.table, k) == Some(row.message)
  {
    hide DbSelect, Holds;
    assert IsCached(cache, k) && RowAt(cache, k) == row;
    if DbSelect(sc, w.table, k) == Some(row.message) {
      PutClean(sc, w, unsaved, cache, k, row);
    }
  }

  lemma PutRead(sc: Schema, c: Cache, c': Cache, unsaved: set<Key>, k: Key, row: Row)
    requires UnsavedRead(sc, c, unsaved) && Puts(c, c', k, row)
    ensures k !in unsaved ==> UnsavedRead(sc, c', unsaved)
    ensures UnsavedRead(sc, c', unsaved + {k}) <==> KeepsText(sc, row.message)
  {
    hide IsStale, KeepsText;
    assert IsCached(c', k) && RowAt(c', k) == row;
  }

  lemma PutStale(sc: Schema, w: World, cache: Cache, k: Key, row: Row)
    requires StaleRowsMatch(sc, w) && Puts(w.cache, cache, k, row)
    ensures StaleRowsMatch(sc, w.(cache := cache))
  {
    hide IsCached, Holds;
  }

  lemma PutCoherent(sc: Schema, w: World, unsaved: set<Key>, ref: Table, cache: Cache, k: Key, row: Row)
    requires Coherent(sc, w, unsaved, ref) && Puts(w.cache, cache, k, row)
    requires RowOk(sc, k.name, row) && k !in unsaved && row.time == 0 && DbSelect(sc, w.table, k) == Some(row.message)
    ensures Coherent(sc, w.(cache := cache), unsaved, ref)
  {
    hide SchemaOk, Sound, TableOk, Tracked, CleanRowsMatch, StaleRowsMatch, UnsavedRead, Overlay, Puts, RowOk, DbSelect;
    PutSound(sc, w, cache, k, row);
    PutTracked(w.cache, cache, unsaved, k, row);
    PutClean(sc, w, unsaved, cache, k, row);
    PutStale(sc, w, cache, k, row);
    PutRead(sc, w.cache, cache, unsaved, k, row);
    PutOverlay(sc, w, unsaved, cache, k, row);
  }

  lemma PutOverlay(sc: Schema, w: World, unsaved: set<Key>, cache: Cache, k: Key, row: Row)
    requires Puts(w.cache, cache, k, row) && k !in unsaved
    ensures Overlay(sc, w.(cache := cache), unsaved) == Overlay(sc, w, unsaved)
  {
    OverlayAt(sc, w, unsaved);
    OverlayAt(sc, w.(cache := cache), unsaved);
    hide Overlay, IsStale;
  }

  // ---- Select and update ----

  /** What is written of a filled message is what an update writes into the base exactly when what the message
      leaves unset has the text of its default there. */
  lemma FilledIsUpdate(sc: Schema, base: Line, m: Message)
    requires Total(sc) && IsMessage(sc, m) && base.Keys == FieldNames(FieldsOf(sc, m.typeName))
    ensures Written(sc, Filled(m, FieldsOf(sc, m.typeName))) == base + Written(sc, m) <==> UnsetAreDefault(sc, base, m)
  {
    hide Total, IsMessage, Filled, Written, Storable, SchemaOk, PrimaryId;
    TotalFacts(sc, m);
    TotalSchema(sc);
    FilledOk(sc, m);
    var filled := Filled(m, FieldsOf(sc, m.typeName));
    TotalFacts(sc, filled);
    WrittenKeys(sc, m);
    WrittenKeys(sc, filled);
    FilledTexts(sc, m);
    SameLines(Written(sc, filled), base, Written(sc, m));
  }

  lemma SameLines(filled: Line, base: Line, set': Line)
    requires filled.Keys == base.Keys && forall c :: c in set' ==> c in filled && filled[c] == set'[c]
    ensures filled == base + set' <==> forall c :: c in filled && c !in set' ==> base[c] == filled[c]
  {
    var merged := base + set';
    if filled == merged {
      forall c | c in filled && c !in set' ensures base[c] == filled[c] {
        assert merged[c] == base[c];
      }
    }
  }

  /** Set fields are written as they are. */
  lemma FilledTexts(sc: Schema, m: Message)
    requires SchemaOk(sc) && IsMessage(sc, m) && Copyable(FieldsOf(sc, m.typeName)) && Storable(sc, m)
    requires Storable(sc, Filled(m, FieldsOf(sc, m.typeName)))
    ensures var filled := Filled(m, FieldsOf(sc, m.typeName));
      forall c :: c in m.fields ==>
        c in Written(sc, filled) && c in Written(sc, m) && Written(sc, filled)[c] == Written(sc, m)[c]
  {
    var fields := FieldsOf(sc, m.typeName);
    var filled := Filled(m, fields);
    FilledOk(sc, m);
    WrittenKeys(sc, m);
    WrittenKeys(sc, filled);
    TypedNames(sc, m, m.typeName);
    hide HasKind, Storable, SchemaOk;
    forall c | c in m.fields ensures filled.fields[c] == m.fields[c] && Written(sc, filled)[c] == Written(sc, m)[c] {
      assert NamedField(fields, c).name == c;
      SameText(sc.rt, m, filled, fields, c);
    }
  }

  lemma SameText(rt: Runtime, m: Message, m': Message, fields: seq<Field>, name: string)
    requires name in m.fields && name in m'.fields && m.fields[name] == m'.fields[name]
    ensures TextOf(rt, m, fields, name) == TextOf(rt, m', fields, name)
  {
  }

  lemma ReplyMatches(sc: Schema, w: World, unsaved: set<Key>, ref: Table, k: Key)
    requires Coherent(sc, w, unsaved, ref)
    ensures Reply(sc, w, k) == DbSelect(sc, ref, k)
    ensures k !in unsaved ==> (k in ref <==> k in w.table) && (k in ref ==> ref[k] == w.table[k])
    ensures k in unsaved ==>
      && IsCached(w.cache, k) && k in ref
      && ref[k] == Written(sc, RowAt(w.cache, k).message) && KeepsText(sc, RowAt(w.cache, k).message)
  {
    OverlayAt(sc, w, unsaved);
    hide Overlay, Written, KeepsText, TableOk, SchemaOk, Holds;
    if k in unsaved {
      CachedOk(sc, w, k);
      KeptIsHeld(sc, ref, k, RowAt(w.cache, k).message);
    }
  }

  /** A row with the columns of a message that reads back is held. */
  lemma KeptIsHeld(sc: Schema, table: Table, k: Key, m: Message)
    requires k in table && table[k] == Written(sc, m) && m.typeName == k.name
    ensures Holds(sc, table, k, m) <==> KeepsText(sc, m)
    ensures KeepsText(sc, m) ==> DbSelect(sc, table, k) == Some(m)
  {
    hide ReadLine;
  }

  lemma OverwriteShape(sc: Schema, c: Cache, k: Key, m: Message, at: nat)
    requires Total(sc) && IsMessage(sc, m) && m.typeName == k.name && IsCached(c, k) && k.id >= 0
    requires forall id :: id in c.dirty && c.dirty[id] == Same ==> id in c.resident
    ensures var (c', taken) := SetData(sc, c, k.id, m, at);
      && taken && Puts(c, c', k, Row(Filled(m, FieldsOf(sc, m.typeName)), at))
      && k.id in c'.dirty && c'.dirty[k.id] == Same
  {
    hide Total, IsMessage, Filled, FieldsOf, Whole, PrimaryId, Puts, Storable, SchemaOk;
    TotalFacts(sc, m);
    TotalSchema(sc);
    FilledOk(sc, m);
    var row := Row(Filled(m, FieldsOf(sc, m.typeName)), at);
    TotalFacts(sc, row.message);
    var c' := SetData(sc, c, k.id, m, at).0;
    assert c' == c.(resident := c.resident[k.id := c.resident[k.id][k.name := row]], dirty := c.dirty[k.id := Same]);
    RowPuts(c, k, row);
  }

  lemma RowPuts(c: Cache, k: Key, row: Row)
    requires IsCached(c, k) && k.id >= 0 && forall id :: id in c.dirty && c.dirty[id] == Same ==> id in c.resident
    ensures
      var c' := c.(resident := c.resident[k.id := c.resident[k.id][k.name := row]], dirty := c.dirty[k.id := Same]);
      Puts(c, c', k, row)
  {
  }

  lemma OverwriteTracked(c: Cache, c': Cache, unsaved: set<Key>, k: Key, row: Row)
    requires Tracked(c, unsaved) && Puts(c, c', k, row) && row.time != 0
    requires k.id in c'.dirty && c'.dirty[k.id] == Same
    ensures Tracked(c', unsaved + {k})
  {
  }

  lemma OverwriteClean(sc: Schema, w: World, unsaved: set<Key>, cache: Cache, k: Key, row: Row)
    requires CleanRowsMatch(sc, w, unsaved) && Puts(w.cache, cache, k, row)
    ensures CleanRowsMatch(sc, w.(cache := cache), unsaved + {k})
  {
    hide IsCached, IsStale, DbSelect, Holds;
  }

  lemma OverwriteOverlay(sc: Schema, w: World, unsaved: set<Key>, cache: Cache, k: Key, row: Row)
    requires Puts(w.cache, cache, k, row)
    ensures Overlay(sc, w.(cache := cache), unsaved + {k}) == Overlay(sc, w, unsaved)[k := Written(sc, row.message)]
  {
    hide Overlay, IsStale, IsCached, Written;
    OverlayAt(sc, w, unsaved);
    OverlayAt(sc, w.(cache := cache), unsaved + {k});
  }

  lemma OverwriteOverlayAt(sc: Schema, w: World, unsaved: set<Key>, ref: Table, k: Key)
    requires ref == Overlay(sc, w, unsaved) && IsCached(w.cache, k)
    ensures Base(sc, w, unsaved, k) == if k in ref then ref[k] else Blank(sc, k.name)
  {
    OverlayAt(sc, w, unsaved);
    hide Overlay, Written;
  }

  lemma CachedOk(sc: Schema, w: World, k: Key)
    requires Sound(sc, w) && IsCached(w.cache, k)
    ensures IsMessage(sc, RowAt(w.cache, k).message) && RowAt(w.cache, k).message.typeName == k.name
    ensures RowOk(sc, k.name, RowAt(w.cache, k))
  {
  }

  lemma TotalFacts(sc: Schema, m: Message)
    requires Total(sc) && IsMessage(sc, m)
    ensures sc.codec.serialize(m).Some? && Storable(sc, m)
    ensures m.typeName in sc.pool && Copyable(FieldsOf(sc, m.typeName))
  {
    hide Storable, SchemaOk;
  }

  lemma TotalSchema(sc: Schema)
    requires Total(sc)
    ensures SchemaOk(sc) && PoolOk(sc.pool)
  {
  }

  lemma KeyedId(sc: Schema, m: Message)
    requires IsMessage(sc, m) && Keyed(sc, m.typeName)
    ensures PrimaryId(sc, m).Some?
  {
  }

  lemma IdKeyed(sc: Schema, m: Message)
    requires PrimaryId(sc, m).Some?
    ensures Keyed(sc, m.typeName) && m.typeName in sc.pool
    ensures m.fields == map[] ==> PrimaryId(sc, m) == Some(0)
  {
  }

  lemma FilledIsSame(sc: Schema, m: Message)
    requires Total(sc) && IsMessage(sc, m)
    ensures Filled(m, FieldsOf(sc, m.typeName)) == m <==> Whole(sc, m)
  {
    hide Total, IsMessage, NamedField, Storable;
    TotalFacts(sc, m);
    var fields := FieldsOf(sc, m.typeName);
    if Whole(sc, m) {
      forall name | name in FieldNames(fields) ensures ValueOf(m, NamedField(fields, name)) == m.fields[name] {
      }
      assert Filled(m, fields).fields == m.fields;
    }
  }

  lemma EmptyNotWhole(sc: Schema, k: Key)
    requires Keyed(sc, k.name)
    ensures !Whole(sc, EmptyRow(k))
  {
    KeyColumn(sc, k.name);
  }

  /** What overwriting a cached row keeps. */
  lemma OverwriteParts(sc: Schema, w: World, unsaved: set<Key>, k: Key, m: Message, at: nat)
    requires Total(sc) && Sound(sc, w) && Tracked(w.cache, unsaved) && CleanRowsMatch(sc, w, unsaved)
    requires StaleRowsMatch(sc, w) && UnsavedRead(sc, w.cache, unsaved)
    requires IsMessage(sc, m) && PrimaryId(sc, m).Some? && m.typeName == k.name
    requires IsCached(w.cache, k) && k.id >= 0 && at != 0
    ensures var (c', taken) := SetData(sc, w.cache, k.id, m, at);
      var w', filled := w.(cache := c'), Filled(m, FieldsOf(sc, k.name));
      && taken && Sound(sc, w') && Tracked(c', unsaved + {k}) && CleanRowsMatch(sc, w', unsaved + {k})
      && StaleRowsMatch(sc, w') && (UnsavedRead(sc, c', unsaved + {k}) <==> KeepsText(sc, filled))
      && IsCached(c', k) && RowAt(c', k) == Row(filled, at)
      && Overlay(sc, w', unsaved + {k}) == Overlay(sc, w, unsaved)[k := Written(sc, filled)]
  {
    hide Total, SchemaOk, IsMessage, TableOk, Storable, Whole, PrimaryId, Sound, Tracked, CleanRowsMatch,
         StaleRowsMatch, UnsavedRead, Overlay, Puts, RowOk, Filled, SetData, Written, KeepsText;
    TotalFacts(sc, m);
    TotalSchema(sc);
    FilledOk(sc, m);
    SoundSlots(sc, w);
    OverwriteShape(sc, w.cache, k, m, at);
    var c', row := SetData(sc, w.cache, k.id, m, at).0, Row(Filled(m, FieldsOf(sc, k.name)), at);
    RowIsOk(sc, k.name, row);
    PutSound(sc, w, c', k, row);
    OverwriteTracked(w.cache, c', unsaved, k, row);
    OverwriteClean(sc, w, unsaved, c', k, row);
    PutStale(sc, w, c', k, row);
    PutRead(sc, w.cache, c', unsaved, k, row);
    OverwriteOverlay(sc, w, unsaved, c', k, row);
    PutIs(w.cache, c', k, row);
  }

  lemma PutIs(c: Cache, c': Cache, k: Key, row: Row)
    requires Puts(c, c', k, row)
    ensures IsCached(c', k) && RowAt(c', k) == row
  {
  }

  lemma RowIsOk(sc: Schema, name: string, row: Row)
    requires IsMessage(sc, row.message) && row.message.typeName == name
    requires row.time != 0 ==> Whole(sc, row.message) && PrimaryId(sc, row.message).Some?
    ensures RowOk(sc, name, row)
  {
  }

  lemma SoundSlots(sc: Schema, w: World)
    requires Sound(sc, w)
    ensures forall id :: id in w.cache.dirty && w.cache.dirty[id] == Same ==> id in w.cache.resident
    ensures TableOk(sc, w.table)
  {
  }

  /** A row that a select answers is a message of its type and key. */
  lemma SelectedOk(sc: Schema, table: Table, k: Key)
    requires SchemaOk(sc) && TableOk(sc, table) && k.name in sc.pool && DbSelect(sc, table, k).Some?
    ensures var m := DbSelect(sc, table, k).value;
      IsMessage(sc, m) && m.typeName == k.name && (k in table ==> Whole(sc, m) && PrimaryId(sc, m) == Some(k.id))
  {
    if k in table {
      ReadOk(sc, k, table[k]);
    } else {
      EmptyRowIsMessage(sc, k);
    }
    hide SchemaOk, LineOk, ReadLine, IsMessage;
  }

  /** A select of a row that is not cached keeps coherence; a hit exactly when the cached row has every field
      set, and the table has its very columns or is to get them anyway. In particular it does not when the row
      is absent, as the cache then holds an empty message, nor when what was read is not what was written. */
  lemma SelectCoherent(sc: Schema, w: World, unsaved: set<Key>, ref: Table, k: Key, at: nat)
    requires Total(sc) && Coherent(sc, w, unsaved, ref) && Keyed(sc, k.name) && k.id >= 0 && at != 0
    ensures var left := if IsCached(w.cache, k) then unsaved + {k} else unsaved;
      Coherent(sc, OnSelect(sc, w, k, at), left, ref) <==> SafeSelect(sc, w, unsaved, k)
    ensures Reply(sc, w, k) == DbSelect(sc, ref, k)
  {
    ReplyMatches(sc, w, unsaved, ref, k);
    if IsCached(w.cache, k) {
      SelectHit(sc, w, unsaved, ref, k, at);
    } else {
      SelectMiss(sc, w, unsaved, ref, k, at);
    }
  }

  lemma SelectMiss(sc: Schema, w: World, unsaved: set<Key>, ref: Table, k: Key, at: nat)
    requires Total(sc) && Coherent(sc, w, unsaved, ref) && Keyed(sc, k.name) && k.id >= 0 && !IsCached(w.cache, k)
    ensures Coherent(sc, OnSelect(sc, w, k, at), unsaved, ref)
  {
    hide Total, SchemaOk, Sound, TableOk, Tracked, CleanRowsMatch, StaleRowsMatch, UnsavedRead, Overlay, SetData,
         DbSelect, IsMessage, Storable, Whole, Puts;
    KeyColumn(sc, k.name);
    SoundSlots(sc, w);
    ReplyMatches(sc, w, unsaved, ref, k);
    if DbSelect(sc, w.table, k).Some? {
      var reply := DbSelect(sc, w.table, k).value;
      SelectedOk(sc, w.table, k);
      TotalFacts(sc, reply);
      FillShape(sc, w.cache, k, reply, at);
      RowIsOk(sc, k.name, Row(reply, 0));
      PutCoherent(sc, w, unsaved, ref, SetData(sc, w.cache, k.id, reply, at).0, k, Row(reply, 0));
    }
  }

  lemma SelectHit(sc: Schema, w: World, unsaved: set<Key>, ref: Table, k: Key, at: nat)
    requires Total(sc) && Coherent(sc, w, unsaved, ref) && Keyed(sc, k.name) && k.id >= 0 && at != 0
    requires IsCached(w.cache, k)
    ensures Coherent(sc, OnSelect(sc, w, k, at), unsaved + {k}, ref) <==> SafeSelect(sc, w, unsaved, k)
  {
    hide Sound, Tracked, CleanRowsMatch, StaleRowsMatch, UnsavedRead, Overlay, Whole, Filled, SetData, TableOk,
         IsMessage, Total, SchemaOk, Storable, Written, KeepsText, DbSelect, Holds;
    var reply := RowAt(w.cache, k).message;
    CachedOk(sc, w, k);
    TotalFacts(sc, reply);
    ReplyMatches(sc, w, unsaved, ref, k);
    KeyedId(sc, reply);
    OverwriteParts(sc, w, unsaved, k, reply, at);
    FilledIsSame(sc, reply);
    EmptyNotWhole(sc, k);
    var filled := Filled(reply, FieldsOf(sc, k.name));
    SameTable(ref, k, Written(sc, filled));
    SelectedRow(sc, ref, k, reply);
    if k in ref && ref[k] == Written(sc, filled) {
      KeptIsHeld(sc, ref, k, filled);
    }
    if k in ref && ref[k] == Written(sc, reply) {
      KeptIsHeld(sc, ref, k, reply);
    }
  }

  /** What a select answers of an absent row, and what it answers otherwise. */
  lemma SelectedRow(sc: Schema, table: Table, k: Key, m: Message)
    requires DbSelect(sc, table, k) == Some(m)
    ensures k !in table ==> m == EmptyRow(k)
    ensures k in table && table[k] == Written(sc, m) && m.typeName == k.name ==> KeepsText(sc, m)
  {
  }

  lemma SameTable(table: Table, k: Key, line: Line)
    ensures table[k := line] == table <==> k in table && table[k] == line
  {
    assert table[k := line][k] == line;
  }

  /** The cache takes every update. */
  lemma TakesAll(sc: Schema, w: World, m: Message, at: nat)
    requires Total(sc) && IsMessage(sc, m) && PrimaryId(sc, m).Some?
    ensures Takes(sc, w, m, at)
  {
    hide Total, IsMessage, PrimaryId, Filled, Storable, SchemaOk, Whole;
    TotalFacts(sc, m);
    TotalSchema(sc);
    FilledOk(sc, m);
    TotalFacts(sc, Filled(m, FieldsOf(sc, m.typeName)));
  }

  /** An update keeps coherence, and has the same code, exactly when something is set, the key is one that a
      select can name, and: a cached row has in every column that is left unset the text of the default, and
      becomes one that reads back; a row that is not cached is not changed by the update, since that goes into
      the cache as if it came from the table. */
  lemma UpdateCoherent(sc: Schema, w: World, unsaved: set<Key>, ref: Table, m: Message, at: nat)
    requires Total(sc) && Coherent(sc, w, unsaved, ref)
    requires IsMessage(sc, m) && PrimaryId(sc, m).Some? && at != 0
    ensures
      var left := if IsCached(w.cache, KeyOf(sc, m)) then unsaved + {KeyOf(sc, m)} else unsaved;
      var ref' := DbUpdate(sc, ref, RowKey(sc, m), m);
      Coherent(sc, OnUpdate(sc, w, m, at), left, ref') && m.fields != map[] <==> SafeUpdate(sc, w, unsaved, m)
  {
    hide Coherent, Total, IsMessage, PrimaryId, OnUpdate, Storable;
    TotalFacts(sc, m);
    if m.fields != map[] {
      if RowKey(sc, m) != KeyOf(sc, m) {
        UpdateNegative(sc, w, unsaved, ref, m, at);
      } else if IsCached(w.cache, KeyOf(sc, m)) {
        UpdateHit(sc, w, unsaved, ref, m, at);
      } else {
        UpdateMiss(sc, w, unsaved, ref, m, at);
      }
    }
  }

  /** Where an update leaves the cache and the table. */
  lemma UpdatedWorld(sc: Schema, w: World, m: Message, at: nat)
    requires Total(sc) && IsMessage(sc, m) && PrimaryId(sc, m).Some?
    ensures OnUpdate(sc, w, m, at) == w.(cache := SetData(sc, w.cache, KeyOf(sc, m).id, m, at).0)
  {
    hide Total, IsMessage, PrimaryId, SetData, DbUpdate;
    TakesAll(sc, w, m, at);
  }

  /** A negative key is cached under another number than it has in the table. */
  lemma UpdateNegative(sc: Schema, w: World, unsaved: set<Key>, ref: Table, m: Message, at: nat)
    requires Total(sc) && Coherent(sc, w, unsaved, ref)
    requires IsMessage(sc, m) && PrimaryId(sc, m).Some? && at != 0 && m.fields != map[] && RowKey(sc, m) != KeyOf(sc, m)
    ensures var left := if IsCached(w.cache, KeyOf(sc, m)) then unsaved + {KeyOf(sc, m)} else unsaved;
      !Coherent(sc, OnUpdate(sc, w, m, at), left, DbUpdate(sc, ref, RowKey(sc, m), m))
  {
    hide Total, SchemaOk, IsMessage, PrimaryId, OnUpdate, SetData, DbUpdate, Filled, Storable, Whole, Written,
         KeepsText, Sound, TableOk, Tracked, CleanRowsMatch, StaleRowsMatch, UnsavedRead, Overlay, DbSelect;
    var k := KeyOf(sc, m);
    var w', ref' := OnUpdate(sc, w, m, at), DbUpdate(sc, ref, RowKey(sc, m), m);
    UpdatedWorld(sc, w, m, at);
    TotalFacts(sc, m);
    SoundSlots(sc, w);
    if IsCached(w.cache, k) {
      OverwriteParts(sc, w, unsaved, k, m, at);
      FilledOk(sc, m);
      if Coherent(sc, w', unsaved + {k}, ref') {
        CoherentAtHome(sc, w', unsaved + {k}, ref');
        HomeAt(sc, w'.cache, k);
      }
    } else {
      FillShape(sc, w.cache, k, m, at);
      PutIs(w.cache, w'.cache, k, Row(m, 0));
      ReplyMatches(sc, w, unsaved, ref, k);
      NegativeClean(sc, w', unsaved, k, m);
    }
  }

  /** A message with a negative key does not match a clean row. */
  lemma NegativeClean(sc: Schema, w: World, unsaved: set<Key>, k: Key, m: Message)
    requires SchemaOk(sc) && TableOk(sc, w.table)
    requires IsCached(w.cache, k) && RowAt(w.cache, k).message == m && k !in unsaved
    requires PrimaryId(sc, m).Some? && m.typeName == k.name && m.fields != map[] && PrimaryId(sc, m) != Some(k.id)
    ensures !CleanRowsMatch(sc, w, unsaved)
  {
    IdKeyed(sc, m);
    if DbSelect(sc, w.table, k) == Some(m) {
      SelectedOk(sc, w.table, k);
    }
    hide SchemaOk, TableOk, PrimaryId, IsMessage, ReadLine, Holds;
  }

  lemma HomeAt(sc: Schema, c: Cache, k: Key)
    requires AtHome(sc, c) && IsCached(c, k) && RowAt(c, k).time != 0
    ensures PrimaryId(sc, RowAt(c, k).message) == Some(k.id)
  {
  }

  lemma UpdateHit(sc: Schema, w: World, unsaved: set<Key>, ref: Table, m: Message, at: nat)
    requires Total(sc) && Coherent(sc, w, unsaved, ref)
    requires IsMessage(sc, m) && PrimaryId(sc, m).Some? && at != 0 && m.fields != map[] && RowKey(sc, m) == KeyOf(sc, m)
    requires IsCached(w.cache, KeyOf(sc, m)) && Copyable(FieldsOf(sc, m.typeName))
    ensures var k := KeyOf(sc, m);
      Coherent(sc, OnUpdate(sc, w, m, at), unsaved + {k}, DbUpdate(sc, ref, k, m)) <==>
        && UnsetAreDefault(sc, Base(sc, w, unsaved, k), m)
        && KeepsText(sc, Filled(m, FieldsOf(sc, m.typeName)))
  {
    hide Total, SchemaOk, IsMessage, PrimaryId, OnUpdate, SetData, Filled, Storable, Whole, Written, KeepsText, Sound,
         TableOk, Tracked, CleanRowsMatch, StaleRowsMatch, UnsavedRead, Overlay, UnsetAreDefault, Base;
    var k, filled := KeyOf(sc, m), Filled(m, FieldsOf(sc, m.typeName));
    IdKeyed(sc, m);
    TotalFacts(sc, m);
    UpdatedWorld(sc, w, m, at);
    OverwriteParts(sc, w, unsaved, k, m, at);
    OverwriteOverlayAt(sc, w, unsaved, ref, k);
    BaseOk(sc, ref, k);
    UpdateOk(sc, ref, m);
    FilledIsUpdate(sc, Base(sc, w, unsaved, k), m);
    assert DbUpdate(sc, ref, k, m) == ref[k := Base(sc, w, unsaved, k) + Written(sc, m)];
    assert ref[k := Written(sc, filled)][k] == Written(sc, filled);
  }

  lemma UpdateMiss(sc: Schema, w: World, unsaved: set<Key>, ref: Table, m: Message, at: nat)
    requires Total(sc) && Coherent(sc, w, unsaved, ref)
    requires IsMessage(sc, m) && PrimaryId(sc, m).Some? && m.fields != map[] && RowKey(sc, m) == KeyOf(sc, m)
    requires !IsCached(w.cache, KeyOf(sc, m))
    ensures var k := KeyOf(sc, m);
      Coherent(sc, OnUpdate(sc, w, m, at), unsaved, DbUpdate(sc, ref, k, m)) <==>
        k in w.table && DbSelect(sc, w.table, k) == Some(m) && w.table[k] + Written(sc, m) == w.table[k]
  {
    hide Total, SchemaOk, IsMessage, PrimaryId, OnUpdate, SetData, Storable, Written, DbSelect, KeepsText, Sound,
         TableOk, Tracked, CleanRowsMatch, StaleRowsMatch, UnsavedRead, Overlay, DbUpdate;
    var k := KeyOf(sc, m);
    var c' := SetData(sc, w.cache, k.id, m, at).0;
    var row := Row(m, 0);
    TotalFacts(sc, m);
    UpdatedWorld(sc, w, m, at);
    SoundSlots(sc, w);
    FillShape(sc, w.cache, k, m, at);
    ReplyMatches(sc, w, unsaved, ref, k);
    RowIsOk(sc, k.name, row);
    PutOverlay(sc, w, unsaved, c', k, row);
    PutSound(sc, w, c', k, row);
    PutTracked(w.cache, c', unsaved, k, row);
    PutStale(sc, w, c', k, row);
    PutRead(sc, w.cache, c', unsaved, k, row);
    PutCleanExactly(sc, w, unsaved, c', k, row);
    SameRow(sc, ref, k, m);
    AbsentIsEmpty(sc, w.table, k);
    UpdateOk(sc, ref, m);
  }

  lemma AbsentIsEmpty(sc: Schema, table: Table, k: Key)
    ensures k !in table ==> DbSelect(sc, table, k) == Some(EmptyRow(k))
  {
  }

  /** An update changes nothing exactly when the row is there and has the columns that are written. */
  lemma SameRow(sc: Schema, table: Table, k: Key, m: Message)
    requires Storable(sc, m) && m.fields != map[]
    ensures table == DbUpdate(sc, table, k, m) <==> k in table && table[k] + Written(sc, m) == table[k]
  {
    hide Written, Storable;
    var base := if k in table then table[k] else Blank(sc, k.name);
    assert DbUpdate(sc, table, k, m)[k] == base + Written(sc, m);
    if k in table && table[k] + Written(sc, m) == table[k] {
      assert table[k := table[k]] == table;
    }
  }

  // ---- Insert and delete ----

  lemma InsertOverlay(sc: Schema, w: World, unsaved: set<Key>, k: Key, m: Message)
    ensures Overlay(sc, w.(table := DbInsert(sc, w.table, k, m)), unsaved)
         == DbInsert(sc, Overlay(sc, w, unsaved), k, m)
  {
    OverlayAt(sc, w, unsaved);
    OverlayAt(sc, w.(table := DbInsert(sc, w.table, k, m)), unsaved);
    hide Overlay, IsCached, Written, Storable;
  }

  lemma InsertSelects(sc: Schema, table: Table, k: Key, m: Message)
    ensures forall j :: j != k || j in table ==> DbSelect(sc, DbInsert(sc, table, k, m), j) == DbSelect(sc, table, j)
    ensures forall j :: j in table ==> j in DbInsert(sc, table, k, m) && DbInsert(sc, table, k, m)[j] == table[j]
  {
    hide ReadLine, Storable, Written;
  }

  lemma InsertStale(sc: Schema, w: World, k: Key, m: Message)
    requires StaleRowsMatch(sc, w)
    ensures StaleRowsMatch(sc, w.(table := DbInsert(sc, w.table, k, m)))
  {
    InsertSelects(sc, w.table, k, m);
    hide IsStale, DbSelect, DbInsert;
  }

  lemma InsertClean(sc: Schema, w: World, unsaved: set<Key>, m: Message)
    requires SchemaOk(sc) && TableOk(sc, w.table) && IsMessage(sc, m) && PrimaryId(sc, m).Some? && Storable(sc, m)
    requires CleanRowsMatch(sc, w, unsaved)
    ensures var k := RowKey(sc, m);
      CleanRowsMatch(sc, w.(table := DbInsert(sc, w.table, k, m)), unsaved) <==>
        (IsCached(w.cache, k) ==> k in unsaved || k in w.table)
  {
    hide IsCached, DbSelect, DbInsert, SchemaOk, TableOk, IsMessage, PrimaryId, Storable, CleanRowsMatch;
    var k := RowKey(sc, m);
    InsertSelects(sc, w.table, k, m);
    AbsentIsEmpty(sc, w.table, k);
    if k !in w.table {
      NewRowNotEmpty(sc, w.table, m);
    }
    OneRowClean(sc, w, unsaved, DbInsert(sc, w.table, k, m), k);
  }

  lemma OneRowClean(sc: Schema, w: World, unsaved: set<Key>, table: Table, k: Key)
    requires CleanRowsMatch(sc, w, unsaved)
    requires forall j :: j != k || j in w.table ==> DbSelect(sc, table, j) == DbSelect(sc, w.table, j)
    requires forall j :: j in w.table ==> j in table && table[j] == w.table[j]
    requires k !in w.table ==> DbSelect(sc, w.table, k) != DbSelect(sc, table, k)
    ensures CleanRowsMatch(sc, w.(table := table), unsaved) <==> (IsCached(w.cache, k) ==> k in unsaved || k in w.table)
  {
    hide IsCached, DbSelect;
  }

  /** A new row does not read as an empty message. */
  lemma NewRowNotEmpty(sc: Schema, table: Table, m: Message)
    requires SchemaOk(sc) && TableOk(sc, table) && IsMessage(sc, m) && PrimaryId(sc, m).Some? && Storable(sc, m)
    requires RowKey(sc, m) !in table
    ensures var k := RowKey(sc, m); DbSelect(sc, DbInsert(sc, table, k, m), k) != Some(EmptyRow(k))
  {
    hide SchemaOk, TableOk, IsMessage, PrimaryId, Storable, DbSelect, Whole;
    var k := RowKey(sc, m);
    IdKeyed(sc, m);
    UpdateOk(sc, table, m);
    EmptyNotWhole(sc, k);
    if DbSelect(sc, DbInsert(sc, table, k, m), k).Some? {
      SelectedOk(sc, DbInsert(sc, table, k, m), k);
    }
  }

  lemma InsertSound(sc: Schema, w: World, m: Message)
    requires SchemaOk(sc) && Sound(sc, w) && IsMessage(sc, m) && PrimaryId(sc, m).Some?
    ensures Sound(sc, w.(table := DbInsert(sc, w.table, RowKey(sc, m), m)))
  {
    UpdateOk(sc, w.table, m);
    hide TableOk, RowOk, IsCached, IsStale, DbInsert, SchemaOk;
  }

  /** An insert under an id that has no cache object puts the message into the cache as it is, even when the
      table refuses it, without the columns that the table adds, and with the text that a select does not hand
      out; under an id that has one the cache keeps what it has, even the empty message of an absent row. */
  lemma InsertCoherent(sc: Schema, w: World, unsaved: set<Key>, ref: Table, m: Message)
    requires Total(sc) && Coherent(sc, w, unsaved, ref)
    requires IsMessage(sc, m) && PrimaryId(sc, m).Some?
    ensures var k := RowKey(sc, m);
      && Coherent(sc, OnInsert(sc, w, m), unsaved, DbInsert(sc, ref, k, m)) && (k in w.table <==> k in ref)
      <==> SafeInsert(sc, w, m)
  {
    hide Total, SchemaOk, Sound, TableOk, Tracked, CleanRowsMatch, StaleRowsMatch, UnsavedRead, Overlay, DbInsert,
         IsMessage, PrimaryId, Storable, Whole, KeepsText, DbSelect, OnInsert;
    var k := RowKey(sc, m);
    var mid := w.(table := DbInsert(sc, w.table, k, m));
    TotalFacts(sc, m);
    SoundSlots(sc, w);
    InsertSound(sc, w, m);
    UpdateOk(sc, ref, m);
    InsertOverlay(sc, w, unsaved, k, m);
    InsertStale(sc, w, k, m);
    InsertClean(sc, w, unsaved, m);
    ReplyMatches(sc, w, unsaved, ref, k);
    if KeyOf(sc, m).id in w.cache.resident {
      InsertKeepsCache(sc, w, m);
      UnsavedCached(w.cache, unsaved, k);
    } else {
      InsertMiss(sc, w, mid, unsaved, m);
      NewRowSelected(sc, w.table, m);
      if k == KeyOf(sc, m) {
        NotResident(w.cache, k);
      }
    }
  }

  lemma UnsavedCached(c: Cache, unsaved: set<Key>, k: Key)
    requires Tracked(c, unsaved)
    ensures k in unsaved ==> IsCached(c, k)
  {
  }

  lemma NotResident(c: Cache, k: Key)
    requires k.id !in c.resident
    ensures !IsCached(c, k)
  {
  }

  lemma InsertKeepsCache(sc: Schema, w: World, m: Message)
    requires PrimaryId(sc, m).Some? && KeyOf(sc, m).id in w.cache.resident
    ensures OnInsert(sc, w, m) == w.(table := DbInsert(sc, w.table, RowKey(sc, m), m))
  {
  }

  /** What a select of the row answers after an insert. */
  lemma NewRowSelected(sc: Schema, table: Table, m: Message)
    requires SchemaOk(sc) && IsMessage(sc, m) && PrimaryId(sc, m).Some? && Storable(sc, m)
    ensures var k := RowKey(sc, m);
      DbSelect(sc, DbInsert(sc, table, k, m), k) == Some(m) <==>
        if k in table then DbSelect(sc, table, k) == Some(m) else Whole(sc, m) && KeepsText(sc, m)
  {
    NewRowReads(sc, m);
    hide SchemaOk, IsMessage, PrimaryId, Storable, Whole, KeepsText, ReadLine, Written;
  }

  lemma InsertMiss(sc: Schema, w: World, mid: World, unsaved: set<Key>, m: Message)
    requires Total(sc) && IsMessage(sc, m) && PrimaryId(sc, m).Some? && KeyOf(sc, m).id !in w.cache.resident
    requires mid == w.(table := DbInsert(sc, w.table, RowKey(sc, m), m))
    requires Sound(sc, mid) && Tracked(w.cache, unsaved) && StaleRowsMatch(sc, mid) && UnsavedRead(sc, w.cache, unsaved)
    ensures var w' := OnInsert(sc, w, m);
      && w'.table == mid.table && Sound(sc, w') && Tracked(w'.cache, unsaved) && StaleRowsMatch(sc, w')
      && UnsavedRead(sc, w'.cache, unsaved) && Overlay(sc, w', unsaved) == Overlay(sc, mid, unsaved)
      && (RowKey(sc, m) != KeyOf(sc, m) ==> !CleanRowsMatch(sc, w', unsaved))
      && (RowKey(sc, m) == KeyOf(sc, m) && CleanRowsMatch(sc, mid, unsaved) ==>
            (CleanRowsMatch(sc, w', unsaved) <==> DbSelect(sc, mid.table, KeyOf(sc, m)) == Some(m)))
      && (CleanRowsMatch(sc, w', unsaved) ==> CleanRowsMatch(sc, mid, unsaved))
  {
    hide Total, SchemaOk, Sound, TableOk, Tracked, CleanRowsMatch, StaleRowsMatch, UnsavedRead, Overlay, Puts, RowOk,
         DbInsert, DbSelect, IsMessage, PrimaryId, Storable, AddData;
    var k, row := KeyOf(sc, m), Row(m, 0);
    var c' := AddData(sc, w.cache, k.id, m).0;
    TotalFacts(sc, m);
    TotalSchema(sc);
    SoundSlots(sc, mid);
    NotResident(w.cache, k);
    AddShape(sc, w.cache, k, m);
    RowIsOk(sc, k.name, row);
    assert OnInsert(sc, w, m) == mid.(cache := c');
    UnsavedCached(w.cache, unsaved, k);
    PutOverlay(sc, mid, unsaved, c', k, row);
    PutSound(sc, mid, c', k, row);
    PutTracked(w.cache, c', unsaved, k, row);
    PutStale(sc, mid, c', k, row);
    PutRead(sc, w.cache, c', unsaved, k, row);
    PutIs(w.cache, c', k, row);
    FewerClean(sc, mid, unsaved, c', k, row);
    if RowKey(sc, m) != k {
      IdKeyed(sc, m);
      NegativeClean(sc, mid.(cache := c'), unsaved, k, m);
    } else if CleanRowsMatch(sc, mid, unsaved) {
      PutCleanExactly(sc, mid, unsaved, c', k, row);
    }
  }

  lemma FewerClean(sc: Schema, w: World, unsaved: set<Key>, c': Cache, k: Key, row: Row)
    requires Puts(w.cache, c', k, row) && !IsCached(w.cache, k)
    ensures CleanRowsMatch(sc, w.(cache := c'), unsaved) ==> CleanRowsMatch(sc, w, unsaved)
  {
    hide DbSelect, Holds, IsStale;
    if CleanRowsMatch(sc, w.(cache := c'), unsaved) {
      forall j | IsCached(w.cache, j) && j !in unsaved
        ensures DbSelect(sc, w.table, j) == Some(RowAt(w.cache, j).message)
        ensures RowAt(w.cache, j).time != 0 ==> Holds(sc, w.table, j, RowAt(w.cache, j).message)
      {
        assert IsCached(c', j) && RowAt(c', j) == RowAt(w.cache, j);
      }
    }
  }

  lemma AddShape(sc: Schema, c: Cache, k: Key, m: Message)
    requires m.typeName == k.name && k.id >= 0 && k.id !in c.resident && sc.codec.serialize(m).Some?
    requires forall id :: id in c.dirty && c.dirty[id] == Same ==> id in c.resident
    ensures Puts(c, AddData(sc, c, k.id, m).0, k, Row(m, 0))
  {
    FillShape(sc, c, k, m, 0);
  }

  /** Only `k` leaves the cache's resident rows and the table. */
  ghost predicate Deletes(w: World, w': World, k: Key) {
    && w'.table == w.table - {k}
    && w'.cache.dirty == w.cache.dirty && w'.cache.resident.Keys == w.cache.resident.Keys
    && (forall j :: IsCached(w'.cache, j) <==> j != k && IsCached(w.cache, j))
    && (forall j :: IsCached(w'.cache, j) ==> RowAt(w'.cache, j) == RowAt(w.cache, j))
  }

  lemma DeleteShape(w: World, k: Key)
    requires k.id >= 0
    ensures Deletes(w, OnDelete(w, k), k)
  {
  }

  /** A delete keeps coherence unless the dirty map still holds the row in a dropped cache object, whose
      next write-back would bring it back. */
  lemma DeleteCoherent(sc: Schema, w: World, unsaved: set<Key>, ref: Table, k: Key)
    requires Coherent(sc, w, unsaved, ref) && k.id >= 0
    ensures Coherent(sc, OnDelete(w, k), unsaved - {k}, ref - {k}) <==> !IsStale(w.cache, k)
  {
    hide SchemaOk, Sound, Tracked, CleanRowsMatch, StaleRowsMatch, UnsavedRead, Overlay, IsCached, IsStale, OnDelete,
         Deletes, TableOk;
    var w' := OnDelete(w, k);
    DeleteShape(w, k);
    DeleteTyped(sc, ref, k);
    DeleteSound(sc, w, w', k);
    DeleteMatches(sc, w, w', unsaved, k);
    DeleteRead(sc, w, w', unsaved, k);
    DeleteOverlay(sc, w, w', unsaved, k);
  }

  lemma DeleteTyped(sc: Schema, table: Table, k: Key)
    requires TableOk(sc, table)
    ensures TableOk(sc, table - {k})
  {
    hide LineOk, Keyed;
  }

  lemma DeleteSound(sc: Schema, w: World, w': World, k: Key)
    requires Sound(sc, w) && Deletes(w, w', k)
    ensures Sound(sc, w')
  {
    DeleteTyped(sc, w.table, k);
    hide IsCached, RowOk, TableOk;
  }

  lemma DeleteSelects(sc: Schema, table: Table, k: Key)
    ensures forall j :: j != k ==> DbSelect(sc, table - {k}, j) == DbSelect(sc, table, j)
  {
    hide ReadLine;
  }

  lemma DeleteMatches(sc: Schema, w: World, w': World, unsaved: set<Key>, k: Key)
    requires Tracked(w.cache, unsaved) && CleanRowsMatch(sc, w, unsaved) && StaleRowsMatch(sc, w) && Deletes(w, w', k)
    ensures Tracked(w'.cache, unsaved - {k}) && CleanRowsMatch(sc, w', unsaved - {k})
    ensures StaleRowsMatch(sc, w') <==> !IsStale(w.cache, k)
  {
    DeleteSelects(sc, w.table, k);
    hide IsCached, DbSelect;
    assert forall j :: IsStale(w'.cache, j) <==> IsStale(w.cache, j);
  }

  lemma DeleteRead(sc: Schema, w: World, w': World, unsaved: set<Key>, k: Key)
    requires UnsavedRead(sc, w.cache, unsaved) && Deletes(w, w', k)
    ensures UnsavedRead(sc, w'.cache, unsaved - {k})
  {
    hide IsCached, KeepsText;
  }

  lemma DeleteOverlay(sc: Schema, w: World, w': World, unsaved: set<Key>, k: Key)
    requires Deletes(w, w', k)
    ensures Overlay(sc, w', unsaved - {k}) == Overlay(sc, w, unsaved) - {k}
  {
    OverlayAt(sc, w, unsaved);
    OverlayAt(sc, w', unsaved - {k});
    hide Overlay, IsCached, Written;
  }

  // ---- Write-back, eviction and flush ----

  /** `saved` is the table after the rows of the keys `sent` were written back; each such row is resident or
      stale. */
  ghost predicate Sends(sc: Schema, w: World, saved: Table, sent: set<Key>) {
    && (forall k :: k in saved <==> k in w.table || k in sent)
    && (forall k :: k in w.table && k !in sent ==> saved[k] == w.table[k])
    && (forall k :: k in sent ==>
          || (IsCached(w.cache, k) && RowAt(w.cache, k).time != 0 && saved[k] == Written(sc, RowAt(w.cache, k).message))
          || (IsStale(w.cache, k) && saved[k] == Written(sc, StaleRow(w.cache, k).message)))
    && (forall k :: k in sent && k.id in w.cache.dirty && w.cache.dirty[k.id] == Same ==>
          IsCached(w.cache, k) && saved[k] == Written(sc, RowAt(w.cache, k).message))
  }

  /** Every overwritten row in the cache is filed under its primary key, and can be written. */
  ghost predicate AtHome(sc: Schema, c: Cache) {
    && (forall k :: IsCached(c, k) && RowAt(c, k).time != 0 ==> HomeRow(sc, k.id, RowAt(c, k)))
    && (forall k :: IsStale(c, k) ==> HomeRow(sc, k.id, StaleRow(c, k)))
  }

  ghost predicate HomeRow(sc: Schema, id: int, row: Row) {
    PrimaryId(sc, row.message) == Some(id) && Storable(sc, row.message)
  }

  lemma CoherentAtHome(sc: Schema, w: World, unsaved: set<Key>, ref: Table)
    requires Coherent(sc, w, unsaved, ref)
    ensures AtHome(sc, w.cache)
  {
    OverlayAt(sc, w, unsaved);
    hide SchemaOk, TableOk, IsCached, IsStale, RowOk, Overlay, Holds, HomeRow, Written, KeepsText;
    forall k | IsCached(w.cache, k) && RowAt(w.cache, k).time != 0 ensures HomeRow(sc, k.id, RowAt(w.cache, k)) {
      if k in unsaved {
        CachedOk(sc, w, k);
        KeptIsHeld(sc, ref, k, RowAt(w.cache, k).message);
        HeldIsHome(sc, ref, k, RowAt(w.cache, k));
      } else {
        HeldIsHome(sc, w.table, k, RowAt(w.cache, k));
      }
    }
    forall k | IsStale(w.cache, k) ensures HomeRow(sc, k.id, StaleRow(w.cache, k)) {
      StaleHasTime(w.cache, k);
      HeldIsHome(sc, w.table, k, StaleRow(w.cache, k));
    }
  }

  lemma StaleHasTime(c: Cache, k: Key)
    requires IsStale(c, k)
    ensures StaleRow(c, k).time != 0
  {
  }

  /** A row that the table holds has the key that it is filed under, and can be written. */
  lemma HeldIsHome(sc: Schema, table: Table, k: Key, row: Row)
    requires SchemaOk(sc) && TableOk(sc, table) && Holds(sc, table, k, row.message)
    requires RowOk(sc, k.name, row) && row.time != 0
    ensures HomeRow(sc, k.id, row)
  {
    hide IsMessage, LineOk, ReadLine, Written, PrimaryId, Storable;
    TableName(sc, table, k);
    SelectedOk(sc, table, k);
    KeptIsHeld(sc, table, k, row.message);
    ReadsBackStorable(sc, row.message);
  }

  lemma TableName(sc: Schema, table: Table, k: Key)
    requires TableOk(sc, table) && k in table
    ensures k.name in sc.pool && Keyed(sc, k.name)
  {
    KeyColumn(sc, k.name);
  }

  /** Writing rows back, whichever are sent, keeps coherence: saved rows are sent again unchanged. */
  lemma SendCoherent(sc: Schema, w: World, unsaved: set<Key>, ref: Table, saved: Table, sent: set<Key>)
    requires Coherent(sc, w, unsaved, ref) && Sends(sc, w, saved, sent)
    ensures Coherent(sc, w.(table := saved), unsaved - sent, ref)
    ensures forall k :: k in sent && k !in unsaved ==> k in w.table && saved[k] == w.table[k]
  {
    CleanAreDirtyRows(sc, w, unsaved);
    hide SchemaOk, TableOk, Sound, Tracked, CleanRowsMatch, StaleRowsMatch, UnsavedRead, Overlay, Sends, DirtyRowsMatch;
    SendChangesUnsaved(sc, w, unsaved, saved, sent);
    SoundSlots(sc, w);
    SendTyped(sc, w, unsaved, ref, saved, sent);
    SendSound(sc, w, saved);
    SendClean(sc, w, unsaved, saved, sent);
    SendStale(sc, w, unsaved, saved, sent);
    SendRead(sc, w.cache, unsaved, sent);
    SendOverlay(sc, w, unsaved, saved, sent);
    SendTracked(w.cache, unsaved, sent);
  }

  lemma CleanAreDirtyRows(sc: Schema, w: World, unsaved: set<Key>)
    requires CleanRowsMatch(sc, w, unsaved)
    ensures DirtyRowsMatch(sc, w, unsaved)
  {
    hide IsCached, DbSelect;
  }

  lemma SendRead(sc: Schema, c: Cache, unsaved: set<Key>, sent: set<Key>)
    requires UnsavedRead(sc, c, unsaved)
    ensures UnsavedRead(sc, c, unsaved - sent)
  {
    hide KeepsText;
  }

  lemma SendTracked(c: Cache, unsaved: set<Key>, sent: set<Key>)
    requires Tracked(c, unsaved)
    ensures Tracked(c, unsaved - sent)
  {
  }

  /** Saved rows that were once overwritten are in the table. */
  ghost predicate DirtyRowsMatch(sc: Schema, w: World, unsaved: set<Key>) {
    forall k :: IsCached(w.cache, k) && k !in unsaved && RowAt(w.cache, k).time != 0 ==>
      k in w.table && w.table[k] == Written(sc, RowAt(w.cache, k).message)
  }

  lemma SendChangesUnsaved(sc: Schema, w: World, unsaved: set<Key>, saved: Table, sent: set<Key>)
    requires Tracked(w.cache, unsaved) && DirtyRowsMatch(sc, w, unsaved) && StaleRowsMatch(sc, w)
    requires Sends(sc, w, saved, sent)
    ensures forall k :: k in sent && k !in unsaved ==> k in w.table && saved[k] == w.table[k]
    ensures forall k :: k in sent && k in unsaved ==> saved[k] == Written(sc, RowAt(w.cache, k).message)
  {
    hide IsCached, Written, DbSelect;
  }

  lemma SendTyped(sc: Schema, w: World, unsaved: set<Key>, ref: Table, saved: Table, sent: set<Key>)
    requires TableOk(sc, w.table) && TableOk(sc, ref) && Sends(sc, w, saved, sent)
    requires Tracked(w.cache, unsaved) && ref == Overlay(sc, w, unsaved)
    requires forall k :: k in sent && k !in unsaved ==> k in w.table && saved[k] == w.table[k]
    requires forall k :: k in sent && k in unsaved ==> saved[k] == Written(sc, RowAt(w.cache, k).message)
    ensures TableOk(sc, saved)
  {
    OverlayAt(sc, w, unsaved);
    hide Overlay, LineOk, Keyed, IsStale, Written;
    forall k | k in saved ensures Keyed(sc, k.name) && LineOk(sc, k, saved[k]) {
      if k in sent && k in unsaved {
        assert IsCached(w.cache, k) && k in ref && ref[k] == saved[k];
      } else {
        assert k in w.table && saved[k] == w.table[k];
      }
    }
  }

  lemma SendSound(sc: Schema, w: World, saved: Table)
    requires Sound(sc, w) && TableOk(sc, saved)
    ensures Sound(sc, w.(table := saved))
  {
    hide TableOk, RowOk, IsCached, IsStale;
  }

  /** A select of a row that is not unsaved answers the same after sending; one of a sent row answers it. */
  lemma SendSelects(sc: Schema, w: World, unsaved: set<Key>, saved: Table, sent: set<Key>)
    requires Sends(sc, w, saved, sent) && Sound(sc, w) && UnsavedRead(sc, w.cache, unsaved) && Tracked(w.cache, unsaved)
    requires forall k :: k in sent && k !in unsaved ==> k in w.table && saved[k] == w.table[k]
    requires forall k :: k in sent && k in unsaved ==> saved[k] == Written(sc, RowAt(w.cache, k).message)
    ensures forall k :: k !in sent || k !in unsaved ==>
      && DbSelect(sc, saved, k) == DbSelect(sc, w.table, k)
      && (k in saved <==> k in w.table) && (k in saved ==> saved[k] == w.table[k])
    ensures forall k :: k in sent && k in unsaved ==> Holds(sc, saved, k, RowAt(w.cache, k).message)
  {
    forall k | k in sent && k in unsaved ensures Holds(sc, saved, k, RowAt(w.cache, k).message) {
      CachedOk(sc, w, k);
      hide Holds, KeepsText, Written, IsStale, DbSelect;
      KeptIsHeld(sc, saved, k, RowAt(w.cache, k).message);
    }
    hide Holds, KeepsText, Written, IsStale, ReadLine, Sound, UnsavedRead, Tracked, IsCached;
  }

  lemma SendClean(sc: Schema, w: World, unsaved: set<Key>, saved: Table, sent: set<Key>)
    requires Tracked(w.cache, unsaved) && CleanRowsMatch(sc, w, unsaved) && Sends(sc, w, saved, sent)
    requires Sound(sc, w) && UnsavedRead(sc, w.cache, unsaved)
    requires forall k :: k in sent && k !in unsaved ==> k in w.table && saved[k] == w.table[k]
    requires forall k :: k in sent && k in unsaved ==> saved[k] == Written(sc, RowAt(w.cache, k).message)
    ensures CleanRowsMatch(sc, w.(table := saved), unsaved - sent)
  {
    SendSelects(sc, w, unsaved, saved, sent);
    hide Sends, Sound, UnsavedRead, Written, IsStale, DbSelect, IsCached, Tracked;
  }

  lemma SendStale(sc: Schema, w: World, unsaved: set<Key>, saved: Table, sent: set<Key>)
    requires Tracked(w.cache, unsaved) && StaleRowsMatch(sc, w) && Sends(sc, w, saved, sent)
    requires Sound(sc, w) && UnsavedRead(sc, w.cache, unsaved)
    requires forall k :: k in sent && k !in unsaved ==> k in w.table && saved[k] == w.table[k]
    requires forall k :: k in sent && k in unsaved ==> saved[k] == Written(sc, RowAt(w.cache, k).message)
    ensures StaleRowsMatch(sc, w.(table := saved))
  {
    SendSelects(sc, w, unsaved, saved, sent);
    forall k | IsStale(w.cache, k) ensures k !in unsaved {}
    hide Sends, Sound, UnsavedRead, Written, IsStale, DbSelect, IsCached, Tracked;
  }

  lemma SendOverlay(sc: Schema, w: World, unsaved: set<Key>, saved: Table, sent: set<Key>)
    requires Tracked(w.cache, unsaved) && Sends(sc, w, saved, sent)
    requires forall k :: k in sent && k !in unsaved ==> k in w.table && saved[k] == w.table[k]
    requires forall k :: k in sent && k in unsaved ==> saved[k] == Written(sc, RowAt(w.cache, k).message)
    ensures Overlay(sc, w.(table := saved), unsaved - sent) == Overlay(sc, w, unsaved)
  {
    OverlayAt(sc, w, unsaved);
    OverlayAt(sc, w.(table := saved), unsaved - sent);
    hide Overlay, IsCached, IsStale, Written;
  }

  /** The cache `c'` holds a part of what the world's cache holds, with the unsaved rows still tracked, and
      every stale row of it matches the table. */
  ghost predicate Shrunk(sc: Schema, w: World, c': Cache, unsaved: set<Key>) {
    && (forall k :: IsCached(c', k) ==> IsCached(w.cache, k) && RowAt(c', k) == RowAt(w.cache, k))
    && (forall k :: k in unsaved ==> IsCached(c', k) && k.id in c'.dirty && c'.dirty[k.id] == Same)
    && (forall k :: IsStale(c', k) ==>
          RowOk(sc, k.name, StaleRow(c', k)) && Holds(sc, w.table, k, StaleRow(c', k).message))
    && (forall id :: id in c'.dirty && c'.dirty[id] == Same ==> id in c'.resident)
  }

  lemma ShrunkCoherent(sc: Schema, w: World, unsaved: set<Key>, ref: Table, c': Cache)
    requires Coherent(sc, w, unsaved, ref) && Shrunk(sc, w, c', unsaved)
    ensures Coherent(sc, w.(cache := c'), unsaved, ref)
  {
    hide SchemaOk, TableOk, Sound, Tracked, CleanRowsMatch, StaleRowsMatch, UnsavedRead, Overlay, Shrunk;
    ShrunkSound(sc, w, unsaved, c');
    ShrunkMatches(sc, w, unsaved, c');
    ShrunkOverlay(sc, w, unsaved, c');
  }

  lemma ShrunkSound(sc: Schema, w: World, unsaved: set<Key>, c': Cache)
    requires Sound(sc, w) && Shrunk(sc, w, c', unsaved)
    ensures Sound(sc, w.(cache := c'))
  {
    hide RowOk, TableOk, IsCached, IsStale;
  }

  lemma ShrunkMatches(sc: Schema, w: World, unsaved: set<Key>, c': Cache)
    requires Tracked(w.cache, unsaved) && CleanRowsMatch(sc, w, unsaved) && Shrunk(sc, w, c', unsaved)
    ensures Tracked(c', unsaved) && CleanRowsMatch(sc, w.(cache := c'), unsaved) && StaleRowsMatch(sc, w.(cache := c'))
    ensures UnsavedRead(sc, w.cache, unsaved) ==> UnsavedRead(sc, c', unsaved)
  {
    hide RowOk, TableOk, IsCached, IsStale, Holds, DbSelect, KeepsText;
  }

  lemma ShrunkOverlay(sc: Schema, w: World, unsaved: set<Key>, c': Cache)
    requires Tracked(w.cache, unsaved) && Shrunk(sc, w, c', unsaved)
    ensures Overlay(sc, w.(cache := c'), unsaved) == Overlay(sc, w, unsaved)
  {
    OverlayAt(sc, w, unsaved);
    OverlayAt(sc, w.(cache := c'), unsaved);
    hide RowOk, IsCached, IsStale, Overlay, Written, Holds;
  }

  /** The dirty map may lose entries that nothing unsaved needs. */
  lemma ForgetSlots(sc: Schema, w: World, unsaved: set<Key>, c': Cache)
    requires Sound(sc, w) && Tracked(w.cache, unsaved) && StaleRowsMatch(sc, w) && c'.resident == w.cache.resident
    requires forall id :: id in c'.dirty ==> id in w.cache.dirty && c'.dirty[id] == w.cache.dirty[id]
    requires forall k :: k in unsaved ==> k.id in c'.dirty
    ensures Shrunk(sc, w, c', unsaved)
  {
    hide RowOk, TableOk, Holds;
    forall k | IsStale(c', k)
      ensures RowOk(sc, k.name, StaleRow(c', k)) && Holds(sc, w.table, k, StaleRow(c', k).message)
    {
      assert IsStale(w.cache, k) && StaleRow(c', k) == StaleRow(w.cache, k);
    }
  }

  /** Cache objects without unsaved rows may be dropped; those still in the dirty map turn stale. */
  lemma DropShrinks(sc: Schema, w: World, unsaved: set<Key>, ids: set<nat>)
    requires Sound(sc, w) && Tracked(w.cache, unsaved) && CleanRowsMatch(sc, w, unsaved) && StaleRowsMatch(sc, w)
    requires forall k :: k in unsaved ==> k.id !in ids
    ensures Shrunk(sc, w, Drop(w.cache, ids), unsaved)
  {
    hide RowOk, TableOk, Holds;
    var c' := Drop(w.cache, ids);
    forall k | IsStale(c', k)
      ensures RowOk(sc, k.name, StaleRow(c', k)) && Holds(sc, w.table, k, StaleRow(c', k).message)
    {
      if w.cache.dirty[k.id] == Same {
        assert IsCached(w.cache, k) && RowAt(w.cache, k) == StaleRow(c', k);
      } else {
        assert IsStale(w.cache, k) && StaleRow(w.cache, k) == StaleRow(c', k);
      }
    }
  }

  /** Evicting an id writes its overwritten rows back first. */
  lemma EvictCoherent(sc: Schema, w: World, unsaved: set<Key>, ref: Table, id: nat)
    requires Coherent(sc, w, unsaved, ref) && id in w.cache.resident
    ensures Coherent(sc, Evict(sc, w, id), unsaved - DueKeys(id, w.cache.resident[id], 0), ref)
  {
    var sent := DueKeys(id, w.cache.resident[id], 0);
    var mid := w.(table := Saved(sc, w.table, w.cache.resident[id], 0));
    var c' := Evict(sc, w, id).cache;
    CoherentAtHome(sc, w, unsaved, ref);
    SavedSends(sc, w, id);
    SendCoherent(sc, w, unsaved, ref, mid.table, sent);
    AllDueAtZero(w, unsaved, id);
    EvictShrinks(sc, mid, unsaved - sent, id);
    ShrunkCoherent(sc, mid, unsaved - sent, ref, c');
    hide Coherent, Sound, Tracked, CleanRowsMatch, StaleRowsMatch, UnsavedRead, Overlay, Shrunk, Sends, AtHome;
  }

  lemma SavedSends(sc: Schema, w: World, id: nat)
    requires id in w.cache.resident && AtHome(sc, w.cache)
    ensures Sends(sc, w, Saved(sc, w.table, w.cache.resident[id], 0), DueKeys(id, w.cache.resident[id], 0))
  {
    hide AtHome, HomeRow, Saved, IsStale, Written;
    RowsAtHome(sc, w.cache, id);
    SavedAt(sc, w.table, id, w.cache.resident[id], 0);
    hide DueKeys;
  }

  ghost predicate HomeRows(sc: Schema, id: int, rows: Rows) {
    forall name :: name in rows && rows[name].time != 0 ==> HomeRow(sc, id, rows[name])
  }

  lemma RowsAtHome(sc: Schema, c: Cache, id: nat)
    requires id in c.resident && AtHome(sc, c)
    ensures HomeRows(sc, id, c.resident[id])
  {
    hide HomeRow;
    forall name | name in c.resident[id] && c.resident[id][name].time != 0
      ensures HomeRow(sc, id, c.resident[id][name])
    {
      assert IsCached(c, Key(id, name));
    }
  }

  /** Rows filed under their primary key are written back there. */
  lemma HomeKeys(sc: Schema, id: nat, rows: Rows, now: nat)
    requires HomeRows(sc, id, rows)
    ensures SavedKeys(sc, rows, now) == DueKeys(id, rows, now)
  {
    hide PrimaryId, Storable;
    forall k ensures k in SavedKeys(sc, rows, now) <==> k in DueKeys(id, rows, now) {
    }
  }

  lemma EvictShrinks(sc: Schema, w: World, unsaved: set<Key>, id: nat)
    requires Sound(sc, w) && Tracked(w.cache, unsaved) && StaleRowsMatch(sc, w)
    requires forall k :: k in unsaved ==> k.id != id
    ensures Shrunk(sc, w, w.cache.(resident := w.cache.resident - {id}, dirty := w.cache.dirty - {id}), unsaved)
  {
    hide RowOk, TableOk, Holds;
    var c' := w.cache.(resident := w.cache.resident - {id}, dirty := w.cache.dirty - {id});
    forall k | IsStale(c', k)
      ensures RowOk(sc, k.name, StaleRow(c', k)) && Holds(sc, w.table, k, StaleRow(c', k).message)
    {
      assert IsStale(w.cache, k) && StaleRow(c', k) == StaleRow(w.cache, k);
    }
  }

  lemma AllDueAtZero(w: World, unsaved: set<Key>, id: nat)
    requires Tracked(w.cache, unsaved) && id in w.cache.resident
    ensures forall k :: k in unsaved - DueKeys(id, w.cache.resident[id], 0) ==> k.id != id
  {
  }

  ghost function LeftBy(w: World, unsaved: set<Key>, now: nat, period: nat): set<Key> {
    if Throttled(w.cache, now, period) then unsaved else unsaved - SentKeys(w.cache, now)
  }

  /** A pass over the dirty map sends what is due and lets go of cache objects with nothing left to send. */
  lemma WritebackCoherent(sc: Schema, w: World, unsaved: set<Key>, ref: Table, now: nat, period: nat)
    requires Coherent(sc, w, unsaved, ref)
    ensures Coherent(sc, Writeback(sc, w, now, period), LeftBy(w, unsaved, now, period), ref)
  {
    if !Throttled(w.cache, now, period) {
      var w', sent := Writeback(sc, w, now, period), SentKeys(w.cache, now);
      var mid := w.(table := w'.table);
      CoherentAtHome(sc, w, unsaved, ref);
      WritebackSends(sc, w, now, period);
      SendCoherent(sc, w, unsaved, ref, mid.table, sent);
      UnsentStillDirty(sc, w, unsaved, now, period);
      ForgetSlots(sc, mid, unsaved - sent, w'.cache);
      ShrunkCoherent(sc, mid, unsaved - sent, ref, w'.cache);
      hide Coherent, Sound, Tracked, CleanRowsMatch, StaleRowsMatch, UnsavedRead, Overlay, Shrunk, Sends, AtHome;
    }
  }

  lemma WritebackSends(sc: Schema, w: World, now: nat, period: nat)
    requires !Throttled(w.cache, now, period) && AtHome(sc, w.cache)
    requires forall id :: id in w.cache.dirty && w.cache.dirty[id] == Same ==> id in w.cache.resident
    ensures Sends(sc, w, Writeback(sc, w, now, period).table, SentKeys(w.cache, now))
  {
    hide AtHome, Pass, SlotRows, IsCached, IsStale, IsDue, Written;
    var c, saved := w.cache, Writeback(sc, w, now, period).table;
    PassAt(sc, w.table, c, now, c.dirty.Keys);
    forall k | k in SentKeys(c, now)
      ensures k in saved
      ensures (IsCached(c, k) && RowAt(c, k).time != 0 && saved[k] == Written(sc, RowAt(c, k).message))
           || (IsStale(c, k) && saved[k] == Written(sc, StaleRow(c, k).message))
      ensures c.dirty[k.id] == Same ==> IsCached(c, k) && saved[k] == Written(sc, RowAt(c, k).message)
    {
      SentRow(c, k, now);
    }
    hide SentKeys, Writeback;
  }

  lemma SentRow(c: Cache, k: Key, now: nat)
    requires k.id in c.dirty && k.name in SlotRows(c, k.id) && IsDue(SlotRows(c, k.id)[k.name], now)
    requires c.dirty[k.id] == Same ==> k.id in c.resident
    ensures SlotRows(c, k.id)[k.name].time != 0
    ensures c.dirty[k.id] == Same ==> IsCached(c, k) && RowAt(c, k) == SlotRows(c, k.id)[k.name]
    ensures c.dirty[k.id].Stale? ==> IsStale(c, k) && StaleRow(c, k) == SlotRows(c, k.id)[k.name]
  {
  }

  /** When every row is at home a pass writes each due row to its own key, so the order does not matter. */
  lemma {:induction false} PassAt(sc: Schema, table: Table, c: Cache, now: nat, ids: set<nat>)
    requires ids <= c.dirty.Keys && AtHome(sc, c)
    requires forall id :: id in c.dirty && c.dirty[id] == Same ==> id in c.resident
    ensures var t, sent := Pass(sc, table, c, now, ids), SentKeys(c, now);
      && (forall k :: k in t <==> k in table || (k in sent && k.id in ids))
      && (forall k :: k in t ==>
           t[k] == if k in sent && k.id in ids then Written(sc, SlotRows(c, k.id)[k.name].message) else table[k])
  {
    hide Saved, SlotRows, AtHome, HomeRows, SentKeys, DueKeys, IsDue, Written;
    if ids != {} {
      var id := Last(ids);
      PassAt(sc, table, c, now, ids - {id});
      SlotAtHome(sc, c, id);
      SavedAt(sc, Pass(sc, table, c, now, ids - {id}), id, SlotRows(c, id), now);
    }
  }

  lemma SlotAtHome(sc: Schema, c: Cache, id: nat)
    requires id in c.dirty && AtHome(sc, c) && (c.dirty[id] == Same ==> id in c.resident)
    ensures HomeRows(sc, id, SlotRows(c, id))
  {
    hide HomeRow;
    forall name | name in SlotRows(c, id) && SlotRows(c, id)[name].time != 0
      ensures HomeRow(sc, id, SlotRows(c, id)[name])
    {
      var k := Key(id, name);
      assert IsCached(c, k) || IsStale(c, k);
    }
  }

  lemma SavedAt(sc: Schema, table: Table, id: nat, rows: Rows, now: nat)
    requires HomeRows(sc, id, rows)
    ensures var t, sent := Saved(sc, table, rows, now), DueKeys(id, rows, now);
      && (forall k :: k in t <==> k in table || k in sent)
      && (forall k :: k in t ==> t[k] == if k in sent then Written(sc, rows[k.name].message) else table[k])
  {
    HomeKeys(sc, id, rows, now);
    hide IsDue, HomeRow, TargetOf, Written, Storable;
  }

  /** A pass reaches every due row's target, if a statement can be made of the row. */
  lemma {:induction false} PassSendsTo(sc: Schema, table: Table, c: Cache, now: nat, ids: set<nat>, id: nat,
                                       name: string)
    requires ids <= c.dirty.Keys && id in ids && name in SlotRows(c, id) && IsDue(SlotRows(c, id)[name], now)
    requires Storable(sc, SlotRows(c, id)[name].message)
    ensures TargetOf(sc, name, SlotRows(c, id)[name]) in Pass(sc, table, c, now, ids)
  {
    hide TargetOf, IsDue, SlotRows, Storable;
    if id == Last(ids) {
      assert TargetOf(sc, name, SlotRows(c, id)[name]) in SavedKeys(sc, SlotRows(c, id), now);
    } else {
      PassSendsTo(sc, table, c, now, ids - {Last(ids)}, id, name);
    }
  }

  lemma UnsentStillDirty(sc: Schema, w: World, unsaved: set<Key>, now: nat, period: nat)
    requires Tracked(w.cache, unsaved) && !Throttled(w.cache, now, period)
    ensures forall k :: k in unsaved - SentKeys(w.cache, now) ==> k.id in Writeback(sc, w, now, period).cache.dirty
  {
  }

  lemma FlushKeyCoherent(sc: Schema, w: World, unsaved: set<Key>, ref: Table, id: nat)
    requires Coherent(sc, w, unsaved, ref) && id in w.cache.resident
    ensures Coherent(sc, FlushKey(sc, w, id), unsaved - DueKeys(id, w.cache.resident[id], 0), ref)
  {
    hide SchemaOk, TableOk, Sound, CleanRowsMatch, StaleRowsMatch, UnsavedRead, Overlay, Shrunk, Sends, AtHome, Tracked,
         Saved, Drop;
    var sent := DueKeys(id, w.cache.resident[id], 0);
    var mid := w.(table := Saved(sc, w.table, w.cache.resident[id], 0));
    CoherentAtHome(sc, w, unsaved, ref);
    SavedSends(sc, w, id);
    SendCoherent(sc, w, unsaved, ref, mid.table, sent);
    AllDueAtZero(w, unsaved, id);
    DropShrinks(sc, mid, unsaved - sent, {id});
    ShrunkCoherent(sc, mid, unsaved - sent, ref, FlushKey(sc, w, id).cache);
    hide Coherent, Sound, Tracked, CleanRowsMatch, StaleRowsMatch, UnsavedRead, Overlay, Shrunk, Sends, AtHome;
  }

  lemma NothingUnsavedAtZero(w: World, unsaved: set<Key>)
    requires Tracked(w.cache, unsaved)
    ensures unsaved - SentKeys(w.cache, 0) == {}
  {
  }

  /** Flushing everything keeps coherence exactly when its write-back is not throttled or nothing is
      unsaved. */
  lemma FlushAllCoherent(sc: Schema, w: World, unsaved: set<Key>, ref: Table, period: nat)
    requires Coherent(sc, w, unsaved, ref)
    ensures var left := LeftBy(w, unsaved, 0, period);
      Coherent(sc, FlushAll(sc, w, period), left, ref) <==> (Throttled(w.cache, 0, period) ==> unsaved == {})
  {
    var left, mid := LeftBy(w, unsaved, 0, period), Writeback(sc, w, 0, period);
    WritebackCoherent(sc, w, unsaved, ref, 0, period);
    NothingUnsavedAtZero(w, unsaved);
    hide SchemaOk, TableOk, Sound, CleanRowsMatch, StaleRowsMatch, UnsavedRead, Overlay, Shrunk, Writeback, SentKeys;
    if left == {} {
      DropShrinks(sc, mid, left, mid.cache.resident.Keys);
      ShrunkCoherent(sc, mid, left, ref, FlushAll(sc, w, period).cache);
    } else {
      var k :| k in left;
      assert !IsCached(FlushAll(sc, w, period).cache, k);
    }
  }

  // ---- Queries ----

  /** A query is answered from the table, past the cache. */
  lemma QueryAnswered(sc: Schema, w: World, unsaved: set<Key>, ref: Table, name: string, p: Line -> bool)
    requires Coherent(sc, w, unsaved, ref)
    ensures DbQuery(sc, w.table, name, p) == DbQuery(sc, ref, name, p) <==> SafeQuery(sc, w, unsaved, name, p)
  {
    hide Coherent, DbSelect, Written, IsCached, DbQuery;
    LaidOver(sc, w, unsaved, ref);
    if Blocked(sc, w.table, unsaved, name, p) {
      QueryBlocked(sc, w.table, ref, unsaved, name, p);
    } else {
      QueryFinds(sc, w.table, name, p);
      QueryFinds(sc, ref, name, p);
      if SafeQuery(sc, w, unsaved, name, p) {
        QueryAgrees(sc, w, unsaved, ref, name, p);
      } else {
        QueryDiffers(sc, w, unsaved, ref, name, p);
      }
    }
  }

  /** How the table without a cache lies over the table. */
  ghost predicate Laid(sc: Schema, w: World, unsaved: set<Key>, ref: Table) {
    && (forall k :: k !in unsaved ==>
          && (k in ref <==> k in w.table) && (k in ref ==> ref[k] == w.table[k])
          && DbSelect(sc, ref, k) == DbSelect(sc, w.table, k))
    && (forall k :: k in unsaved ==>
          && IsCached(w.cache, k) && k in ref && ref[k] == Written(sc, RowAt(w.cache, k).message)
          && DbSelect(sc, ref, k) == Some(RowAt(w.cache, k).message))
  }

  lemma LaidOver(sc: Schema, w: World, unsaved: set<Key>, ref: Table)
    requires Coherent(sc, w, unsaved, ref)
    ensures Laid(sc, w, unsaved, ref)
  {
    hide Coherent, Written, KeepsText, ReadLine;
    forall k
      ensures k !in unsaved ==>
        && (k in ref <==> k in w.table) && (k in ref ==> ref[k] == w.table[k])
        && DbSelect(sc, ref, k) == DbSelect(sc, w.table, k)
      ensures k in unsaved ==>
        && IsCached(w.cache, k) && k in ref && ref[k] == Written(sc, RowAt(w.cache, k).message)
        && DbSelect(sc, ref, k) == Some(RowAt(w.cache, k).message)
    {
      ReplyMatches(sc, w, unsaved, ref, k);
    }
  }

  /** A row that is not unsaved is found and cannot be read. */
  ghost predicate Blocked(sc: Schema, table: Table, unsaved: set<Key>, name: string, p: Line -> bool) {
    exists k :: k !in unsaved && Finds(table, name, p, k) && DbSelect(sc, table, k).None?
  }

  lemma QueryFinds(sc: Schema, table: Table, name: string, p: Line -> bool)
    ensures DbQuery(sc, table, name, p).Some? <==>
      forall k :: Finds(table, name, p, k) ==> DbSelect(sc, table, k).Some?
    ensures DbQuery(sc, table, name, p).Some? ==>
      var rows := DbQuery(sc, table, name, p).value;
      && (forall k :: k in rows <==> Finds(table, name, p, k))
      && (forall k :: k in rows ==> Some(rows[k]) == DbSelect(sc, table, k))
  {
    hide DbSelect;
    assert forall k :: Finds(table, name, p, k) <==> k in table && k.name == name && p(table[k]);
  }

  lemma QueryBlocked(sc: Schema, table: Table, ref: Table, unsaved: set<Key>, name: string, p: Line -> bool)
    requires Blocked(sc, table, unsaved, name, p)
    requires forall k :: k !in unsaved ==>
      && (k in ref <==> k in table) && (k in ref ==> ref[k] == table[k])
      && DbSelect(sc, ref, k) == DbSelect(sc, table, k)
    ensures DbQuery(sc, table, name, p) == None && DbQuery(sc, ref, name, p) == None
  {
    hide DbSelect, DbQuery;
    QueryFinds(sc, table, name, p);
    QueryFinds(sc, ref, name, p);
    var k :| k !in unsaved && Finds(table, name, p, k) && DbSelect(sc, table, k).None?;
    assert Finds(ref, name, p, k);
  }

  lemma QueryAgrees(sc: Schema, w: World, unsaved: set<Key>, ref: Table, name: string, p: Line -> bool)
    requires Laid(sc, w, unsaved, ref) && !Blocked(sc, w.table, unsaved, name, p) && SafeQuery(sc, w, unsaved, name, p)
    ensures DbQuery(sc, w.table, name, p) == DbQuery(sc, ref, name, p)
  {
    hide DbSelect, Written, IsCached, DbQuery;
    QueryFinds(sc, w.table, name, p);
    QueryFinds(sc, ref, name, p);
    forall k
      ensures Finds(w.table, name, p, k) <==> Finds(ref, name, p, k)
      ensures Finds(ref, name, p, k) ==>
        DbSelect(sc, ref, k).Some? && DbSelect(sc, w.table, k) == DbSelect(sc, ref, k)
    {
    }
    assert DbQuery(sc, w.table, name, p).value == DbQuery(sc, ref, name, p).value;
  }

  lemma QueryDiffers(sc: Schema, w: World, unsaved: set<Key>, ref: Table, name: string, p: Line -> bool)
    requires Laid(sc, w, unsaved, ref) && !Blocked(sc, w.table, unsaved, name, p) && !SafeQuery(sc, w, unsaved, name, p)
    ensures DbQuery(sc, w.table, name, p) != DbQuery(sc, ref, name, p)
  {
    hide DbSelect, Written, IsCached, DbQuery;
    QueryFinds(sc, w.table, name, p);
    QueryFinds(sc, ref, name, p);
    forall k | Finds(ref, name, p, k) ensures DbSelect(sc, ref, k).Some? {
      if k !in unsaved {
        assert Finds(w.table, name, p, k);
      }
    }
    var k :| k in unsaved && IsCached(w.cache, k) && k.name == name &&
      var m := RowAt(w.cache, k).message;
      !(if Finds(w.table, name, p, k) then p(Written(sc, m)) && DbSelect(sc, w.table, k) == Some(m)
        else !p(Written(sc, m)));
    if DbQuery(sc, w.table, name, p).Some? {
      assert k in DbQuery(sc, w.table, name, p).value <==> Finds(w.table, name, p, k);
      assert k in DbQuery(sc, ref, name, p).value <==> Finds(ref, name, p, k);
    }
  }

  // ---- Every event, every run ----

  /** An event keeps coherence, and tells the client the same with the cache as without, exactly when it is
      safe. */
  lemma StepCoherent(sc: Schema, period: nat, w: World, unsaved: set<Key>, ref: Table, e: Event)
    requires Total(sc) && Coherent(sc, w, unsaved, ref) && ValidEvent(sc, w, e)
    ensures
      && Coherent(sc, Step(sc, period, w, e), Unsaved(sc, period, w, unsaved, e), RefStep(sc, ref, e))
      && Told(sc, w, e) == RefTold(sc, ref, e)
      <==> Safe(sc, period, w, unsaved, e)
  {
    hide Coherent, Total, IsMessage, Storable, FlushAll, FlushKey, Evict, Writeback, OnSelect, OnUpdate, OnInsert,
         OnDelete, SafeSelect, SafeUpdate, SafeInsert, SafeQuery, DbUpdate, DbInsert, DbQuery, DbSelect, Takes,
         PrimaryId;
    match e
    case Select(k, at) => SelectCoherent(sc, w, unsaved, ref, k, at);
    case Update(m, at) =>
      TakesAll(sc, w, m, at);
      TotalFacts(sc, m);
      UpdateCoherent(sc, w, unsaved, ref, m, at);
    case Insert(m) =>
      TotalFacts(sc, m);
      InsertCoherent(sc, w, unsaved, ref, m);
    case Delete(k) => DeleteCoherent(sc, w, unsaved, ref, k);
    case Query(name, p) => QueryAnswered(sc, w, unsaved, ref, name, p);
    case Flush(id) =>
      if id == 0 {
        FlushAllCoherent(sc, w, unsaved, ref, period);
      } else if id in w.cache.resident {
        FlushKeyCoherent(sc, w, unsaved, ref, id);
      } else {
        FlushMissing(sc, w, id);
      }
    case Tick(now, victim) =>
      if victim.Some? {
        EvictCoherent(sc, w, unsaved, ref, victim.value);
        var left := unsaved - DueKeys(victim.value, w.cache.resident[victim.value], 0);
        WritebackCoherent(sc, Evict(sc, w, victim.value), left, ref, now, period);
      } else {
        WritebackCoherent(sc, w, unsaved, ref, now, period);
      }
  }

  lemma FlushMissing(sc: Schema, w: World, id: nat)
    requires id !in w.cache.resident
    ensures FlushKey(sc, w, id) == w
  {
  }

  datatype Sim = Sim(world: World, unsaved: set<Key>, ref: Table)

  ghost function SimStep(sc: Schema, period: nat, s: Sim, e: Event): Sim
    requires ValidEvent(sc, s.world, e)
  {
    Sim(Step(sc, period, s.world, e), Unsaved(sc, period, s.world, s.unsaved, e), RefStep(sc, s.ref, e))
  }

  /** The states of a run, each event valid and safe where it happens. */
  ghost predicate SafeRun(sc: Schema, period: nat, states: seq<Sim>, events: seq<Event>)
    requires Total(sc)
  {
    && |states| == |events| + 1
    && (forall i :: 0 <= i < |events| ==>
          && ValidEvent(sc, states[i].world, events[i])
          && Safe(sc, period, states[i].world, states[i].unsaved, events[i])
          && states[i + 1] == SimStep(sc, period, states[i], events[i]))
  }

  /** Write-back simulates write-through: in a safe run from an empty cache, at every moment the table
      with the unsaved rows over it is the table without a cache, every unsaved row is tracked, every row reads
      as it would without the cache, and the next event tells the client what it would without the cache. */
  lemma {:induction false} WriteBackSimulatesWriteThrough(sc: Schema, period: nat, states: seq<Sim>,
                                                          events: seq<Event>, i: nat)
    requires Total(sc) && SafeRun(sc, period, states, events) && i < |states|
    requires states[0].world.cache == EMPTY && states[0].unsaved == {}
    requires states[0].ref == states[0].world.table && TableOk(sc, states[0].world.table)
    ensures states[i].ref == Overlay(sc, states[i].world, states[i].unsaved)
    ensures Tracked(states[i].world.cache, states[i].unsaved)
    ensures forall k :: Reply(sc, states[i].world, k) == DbSelect(sc, states[i].ref, k)
    ensures i < |events| ==> Told(sc, states[i].world, events[i]) == RefTold(sc, states[i].ref, events[i])
    ensures Coherent(sc, states[i].world, states[i].unsaved, states[i].ref)
  {
    hide Total, SchemaOk, Sound, CleanRowsMatch, StaleRowsMatch, UnsavedRead, TableOk, Safe, Step, Unsaved, RefStep,
         Told, RefTold, Overlay, Tracked, Reply, DbSelect, ValidEvent;
    if i == 0 {
      TotalSchema(sc);
      EmptyCoherent(sc, states[0].world);
    } else {
      WriteBackSimulatesWriteThrough(sc, period, states, events, i - 1);
      var s := states[i - 1];
      StepCoherent(sc, period, s.world, s.unsaved, s.ref, events[i - 1]);
    }
    var s := states[i];
    forall k ensures Reply(sc, s.world, k) == DbSelect(sc, s.ref, k) {
      ReplyMatches(sc, s.world, s.unsaved, s.ref, k);
    }
    if i < |events| {
      StepCoherent(sc, period, s.world, s.unsaved, s.ref, events[i]);
    }
  }

  lemma EmptyCoherent(sc: Schema, w: World)
    requires SchemaOk(sc) && w.cache == EMPTY && TableOk(sc, w.table)
    ensures Coherent(sc, w, {}, w.table)
  {
    assert Overlay(sc, w, {}) == w.table;
  }

  /** The table after flushing everything: the table with the unsaved rows over it. */
  lemma FlushTable(sc: Schema, w: World, unsaved: set<Key>, period: nat)
    requires !Throttled(w.cache, 0, period) && AtHome(sc, w.cache)
    requires Tracked(w.cache, unsaved) && DirtyRowsMatch(sc, w, unsaved) && StaleRowsMatch(sc, w)
    requires forall id :: id in w.cache.dirty && w.cache.dirty[id] == Same ==> id in w.cache.resident
    ensures FlushAll(sc, w, period).table == Overlay(sc, w, unsaved)
  {
    var saved, sent := Writeback(sc, w, 0, period).table, SentKeys(w.cache, 0);
    WritebackSends(sc, w, 0, period);
    SendChangesUnsaved(sc, w, unsaved, saved, sent);
    SendOverlay(sc, w, unsaved, saved, sent);
    NothingUnsavedAtZero(w, unsaved);
    NoOverlay(sc, w.(table := saved));
  }

  lemma NoOverlay(sc: Schema, w: World)
    ensures Overlay(sc, w, {}) == w.table
  {
  }

  /** So flushing everything, when it is not throttled, leaves exactly the write-through table and an empty
      cache: no write was lost and none is left to do. */
  lemma FlushCompletes(sc: Schema, w: World, unsaved: set<Key>, ref: Table, period: nat)
    requires Coherent(sc, w, unsaved, ref) && !Throttled(w.cache, 0, period)
    ensures FlushAll(sc, w, period).table == ref
    ensures FlushAll(sc, w, period).cache.resident == map[] && FlushAll(sc, w, period).cache.dirty == map[]
  {
    CoherentAtHome(sc, w, unsaved, ref);
    FlushTable(sc, w, unsaved, period);
    FlushEmpties(sc, w, period);
  }

  lemma FlushEmpties(sc: Schema, w: World, period: nat)
    requires !Throttled(w.cache, 0, period)
    ensures FlushAll(sc, w, period).cache.resident == map[] && FlushAll(sc, w, period).cache.dirty == map[]
  {
    assert forall id :: id in w.cache.dirty ==> !StillDirty(SlotRows(w.cache, id), 0);
    assert Writeback(sc, w, 0, period).cache.dirty == map[];
    var c := Writeback(sc, w, 0, period).cache;
    assert c.resident - c.resident.Keys == map[];
  }
}
