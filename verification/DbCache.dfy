/** One cache object: the serialized rows of one id, by type number. */
module DbCache {
  import opened Wrappers
  import opened Messages
  import opened CacheModel
  import opened Lines
  import opened CacheStore
  import opened Database

  /** Sets every field of `dst` from `src`, set there or not; fails on a field type that cannot be copied. */
  method CopyFields(src: Message, dst: Message, fields: seq<Field>) returns (r: Option<Message>)
    requires DistinctNames(fields) && forall f :: f in fields ==> f.presence != Repeated
    ensures r == if Copyable(fields) then Some(Message(dst.typeName, dst.fields + Filled(src, fields).fields)) else None
  {
    hide ValueOf, FilledSofar, Filled;
    var copied := dst;
    FilledNone(src, fields);
    assert dst.fields + map[] == dst.fields;
    for i := 0 to |fields|
      invariant Copyable(fields[..i])
      invariant copied == Message(dst.typeName, dst.fields + FilledSofar(src, fields, i))
    {
      var f := fields[i];
      FindFieldSelf(fields, f);
      var target := FindField(fields, f.name).value;
      if f.kind == Other {
        assert f in fields;
        return None;
      }
      copied := copied.(fields := copied.fields[target.name := ValueOf(src, f)]);
      FilledNext(src, fields, i);
    }
    assert fields[..|fields|] == fields;
    FilledAll(src, fields);
    r := Some(copied);
  }

  ghost function FilledSofar(src: Message, fields: seq<Field>, i: nat): map<string, Value>
    requires i <= |fields| && Copyable(fields[..i])
  {
    if i == 0 then map[]
    else
      assert fields[i - 1] in fields[..i];
      FilledSofar(src, fields, i - 1)[fields[i - 1].name := ValueOf(src, fields[i - 1])]
  }

  lemma FilledNone(src: Message, fields: seq<Field>)
    ensures Copyable(fields[..0]) && FilledSofar(src, fields, 0) == map[]
  {
  }

  lemma FilledNext(src: Message, fields: seq<Field>, i: nat)
    requires i < |fields| && Copyable(fields[..i]) && fields[i].kind != Other
    ensures Copyable(fields[..i + 1])
    ensures FilledSofar(src, fields, i + 1) == FilledSofar(src, fields, i)[fields[i].name := ValueOf(src, fields[i])]
  {
    assert fields[..i + 1] == fields[..i] + [fields[i]];
  }

  lemma {:induction false} FilledSofarIs(src: Message, fields: seq<Field>, i: nat)
    requires i <= |fields| && Copyable(fields) && DistinctNames(fields)
    ensures Copyable(fields[..i])
    ensures forall name :: name in FilledSofar(src, fields, i) <==> exists j :: 0 <= j < i && fields[j].name == name
    ensures forall j :: 0 <= j < i ==> FilledSofar(src, fields, i)[fields[j].name] == ValueOf(src, fields[j])
  {
    if i > 0 {
      FilledSofarIs(src, fields, i - 1);
    }
  }

  lemma FilledAll(src: Message, fields: seq<Field>)
    requires Copyable(fields) && DistinctNames(fields)
    ensures Copyable(fields[..|fields|]) && FilledSofar(src, fields, |fields|) == Filled(src, fields).fields
  {
    FilledSofarIs(src, fields, |fields|);
    var sofar, filled := FilledSofar(src, fields, |fields|), Filled(src, fields).fields;
    forall name | name in FieldNames(fields) ensures name in sofar && sofar[name] == filled[name] {
      var f := NamedField(fields, name);
      var j :| 0 <= j < |fields| && fields[j] == f;
    }
    forall name | name in sofar ensures name in FieldNames(fields) {
      var j :| 0 <= j < |fields| && fields[j].name == name;
      assert fields[j] in fields;
    }
    assert sofar == filled;
  }

  /** The entries with a new one; missing when there is one already or the row does not serialize. */
  function AddedInfo(sc: Schema, info: Info, d: nat, m: Message): Option<Info> {
    if d in info then None
    else
      var data :- sc.codec.serialize(m);
      Some(info[d := CacheInfo(data, 0)])
  }

  /** The entries with one replaced by the filled message, or with a new one. */
  function OverwrittenInfo(sc: Schema, info: Info, d: nat, m: Message, now: nat): Option<Info> {
    if d !in info then AddedInfo(sc, info, d, m)
    else if !Copyable(FieldsOf(sc, m.typeName)) then None
    else
      var data :- sc.codec.serialize(Filled(m, FieldsOf(sc, m.typeName)));
      Some(info[d := CacheInfo(data, now)])
  }

  class RowCache {
    ghost const id: nat
    const sc: Schema
    var info: Info
    var dataSize: int

    /** The byte count is the sum of the serialized lengths. */
    ghost predicate Valid()
      reads this
    {
      dataSize == TotalSize(info)
    }

    constructor (ghost id: nat, sc: Schema)
      ensures Valid() && info == map[] && this.id == id && this.sc == sc
    {
      this.id := id;
      this.sc := sc;
      info, dataSize := map[], 0;
    }

    method GetData(dataId: nat, name: string) returns (m: Option<Message>)
      ensures m == if dataId in info && name in sc.pool then sc.codec.parse(name, info[dataId].data) else None
    {
      if dataId !in info {
        return None;
      }
      if name !in sc.pool {
        return None;
      }
      m := sc.codec.parse(name, info[dataId].data);
    }

    /** A row from the table: it is not marked as overwritten. */
    method AddData(dataId: nat, m: Message) returns (ok: bool)
      requires Valid()
      modifies this
      ensures Valid()
      ensures ok <==> AddedInfo(sc, old(info), dataId, m).Some?
      ensures info == if ok then AddedInfo(sc, old(info), dataId, m).value else old(info)
    {
      if dataId in info {
        return false;
      }
      var data := sc.codec.serialize(m);
      if data == None {
        return false;
      }
      TotalSizePut(info, dataId, CacheInfo(data.value, 0));
      info := info[dataId := CacheInfo(data.value, 0)];
      dataSize := dataSize + |data.value|;
      ok := true;
    }

    /** Overwrites a cached row and marks it with the time; a missing row is added as if it came from the
        table. */
    method SetData(dataId: nat, name: string, m: Message, now: nat) returns (ok: bool)
      requires Valid() && SchemaOk(sc) && IsMessage(sc, m) && m.typeName == name
      requires dataId in info ==> EntryOk(sc, name, info[dataId])
      modifies this
      ensures Valid()
      ensures ok <==> OverwrittenInfo(sc, old(info), dataId, m, now).Some?
      ensures info == if ok then OverwrittenInfo(sc, old(info), dataId, m, now).value else old(info)
    {
      hide SchemaOk, EntryOk, IsMessage, Typed, Filled, TotalSize;
      if dataId !in info {
        ok := AddData(dataId, m);
        return;
      }
      TypeFacts(sc, m);
      EntryParses(sc, name, info[dataId]);
      var parsed := sc.codec.parse(name, info[dataId].data);
      if parsed == None {
        return false;
      }
      var copied := CopyFields(m, parsed.value, FieldsOf(sc, name));
      if copied == None {
        return false;
      }
      FilledOver(sc, m, parsed.value);
      var data := sc.codec.serialize(copied.value);
      if data == None {
        return false;
      }
      TotalSizePut(info, dataId, CacheInfo(data.value, now));
      dataSize := dataSize - |info[dataId].data|;
      info := info[dataId := CacheInfo(data.value, now)];
      dataSize := dataSize + |data.value|;
      ok := true;
    }

    method DelData(dataId: nat) returns (ok: bool)
      requires Valid()
      modifies this
      ensures Valid() && (ok <==> dataId in old(info)) && info == if ok then old(info) - {dataId} else old(info)
    {
      if dataId !in info {
        return false;
      }
      TotalSizeRemove(info, dataId);
      dataSize := dataSize - |info[dataId].data|;
      info := info - {dataId};
      ok := true;
    }

    /** Sends every due row to the table, and says whether an overwritten row is not due yet. A sent row stays
        marked. `names` is the manager's name table. */
    method Writeback(names: map<nat, string>, ghost index: map<string, nat>, ghost next: nat, now: nat, db: Connection)
      returns (dirty: bool)
      requires Interned(index, names, next) && InfoOk(sc, names, info)
      requires db.sc == sc && TableOk(sc, db.table) && SchemaOk(sc)
      modifies db
      ensures TableOk(sc, db.table)
      ensures db.table == Saved(sc, old(db.table), View(sc, index, info), now)
      ensures dirty <==> StillDirty(View(sc, index, info), now)
    {
      hide SchemaOk, View, EntryOk, TableOk, InfoOk, Interned, Progress, NamesOf, RowOf;
      dirty := false;
      ghost var rows, visited, before := View(sc, index, info), {}, db.table;
      ProgressStart(sc, before, rows, now, names);
      var remaining := info.Keys;
      while remaining != {}
        invariant remaining <= info.Keys
        invariant visited == info.Keys - remaining
        invariant TableOk(sc, db.table) && Progress(sc, before, rows, now, NamesOf(names, visited), db.table, dirty)
      {
        var d :| d in remaining;
        remaining := remaining - {d};
        EntryFacts(sc, index, names, next, info, d);
        ProgressNext(sc, before, rows, now, NamesOf(names, visited), db.table, dirty, names[d]);
        NamesOfOneMore(names, visited, d);
        visited := visited + {d};
        var pending := VisitEntry(names, d, now, db);
        if pending {
          dirty := true;
        }
      }
      assert visited == info.Keys;
      AllVisited(sc, index, names, next, info);
      ProgressEnd(sc, before, rows, now, NamesOf(names, visited), db.table, dirty);
    }

    /** Sends an entry that is due; says whether it was overwritten and is not due yet. */
    method VisitEntry(names: map<nat, string>, d: nat, now: nat, db: Connection) returns (pending: bool)
      requires d in info && d in names && EntryOk(sc, names[d], info[d])
      requires db.sc == sc && TableOk(sc, db.table) && SchemaOk(sc)
      modifies db
      ensures TableOk(sc, db.table)
      ensures var row := RowOf(sc, names[d], info[d]);
        && (pending <==> row.time != 0 && !IsDue(row, now))
        && db.table == if IsDue(row, now) then Sent(sc, old(db.table), names[d], row) else old(db.table)
    {
      hide SchemaOk, TableOk, EntryOk, Sent;
      pending := false;
      if info[d].time == 0 {
        return;
      }
      if now == 0 || now - info[d].time >= 1 {
        SendRow(names, d, db);
      } else {
        pending := true;
      }
    }

    /** Sends one overwritten row; an entry without a name or of an unknown type is passed over. */
    method SendRow(names: map<nat, string>, d: nat, db: Connection)
      requires d in info && d in names && info[d].time != 0 && EntryOk(sc, names[d], info[d])
      requires db.sc == sc && TableOk(sc, db.table) && SchemaOk(sc)
      modifies db
      ensures TableOk(sc, db.table)
      ensures var row := RowOf(sc, names[d], info[d]);
        db.table == Sent(sc, old(db.table), names[d], row)
    {
      hide SchemaOk, TableOk, Storable, Written, Typed;
      EntryParses(sc, names[d], info[d]);
      NoEmptyName(sc);
      var name := if d in names then names[d] else "";
      if name != "" && name in sc.pool {
        var m := sc.codec.parse(name, info[d].data);
        if m != None {
          UpdateWhole(sc, db.table, m.value);
          var _ := db.Update(m.value);
        }
      }
    }
  }

  lemma TypeFacts(sc: Schema, m: Message)
    requires SchemaOk(sc) && IsMessage(sc, m)
    ensures m.typeName in sc.pool && DistinctNames(FieldsOf(sc, m.typeName))
    ensures forall f :: f in FieldsOf(sc, m.typeName) ==> f.presence != Repeated
  {
    hide CodecOk, LineOk, RuntimeOk;
  }

  lemma NoEmptyName(sc: Schema)
    requires SchemaOk(sc)
    ensures "" !in sc.pool
  {
  }

  lemma EntryParses(sc: Schema, name: string, e: CacheInfo)
    requires EntryOk(sc, name, e)
    ensures sc.codec.parse(name, e.data).Some?
    ensures sc.codec.parse(name, e.data).value.typeName == name
    ensures Typed(sc.codec.parse(name, e.data).value, FieldsOf(sc, name))
  {
  }

  /** Every field of the message parsed from the cache is overwritten. */
  lemma FilledOver(sc: Schema, m: Message, cached: Message)
    requires Copyable(FieldsOf(sc, m.typeName)) && cached.typeName == m.typeName
    requires Typed(cached, FieldsOf(sc, m.typeName))
    ensures Message(cached.typeName, cached.fields + Filled(m, FieldsOf(sc, m.typeName)).fields)
         == Filled(m, FieldsOf(sc, m.typeName))
  {
    TypedNames(sc, cached, m.typeName);
    hide Typed;
    var filled := Filled(m, FieldsOf(sc, m.typeName)).fields;
    assert cached.fields + filled == filled;
  }

  /** The table after one row was sent. */
  ghost function Sent(sc: Schema, table: Table, name: string, row: Row): Table {
    if Storable(sc, row.message) then table[TargetOf(sc, name, row) := Written(sc, row.message)] else table
  }

  ghost function SavedOf(sc: Schema, table: Table, rows: Rows, now: nat, done: set<string>): Table {
    table + map k | k in SavedKeys(sc, rows, now) && k.name in done :: Written(sc, rows[k.name].message)
  }

  /** A write-back that has visited the rows `done`. */
  ghost predicate Progress(sc: Schema, before: Table, rows: Rows, now: nat, done: set<string>, table: Table,
                           dirty: bool) {
    && table == SavedOf(sc, before, rows, now, done)
    && (dirty <==> exists name :: name in done && name in rows && rows[name].time != 0 && !IsDue(rows[name], now))
  }

  lemma ProgressStart(sc: Schema, before: Table, rows: Rows, now: nat, names: map<nat, string>)
    ensures Progress(sc, before, rows, now, NamesOf(names, {}), before, false)
  {
  }

  lemma ProgressNext(sc: Schema, before: Table, rows: Rows, now: nat, done: set<string>, table: Table, dirty: bool,
                     name: string)
    requires Progress(sc, before, rows, now, done, table, dirty) && name in rows
    ensures rows[name].time == 0 ==> Progress(sc, before, rows, now, done + {name}, table, dirty)
    ensures IsDue(rows[name], now) ==>
      Progress(sc, before, rows, now, done + {name}, Sent(sc, table, name, rows[name]), dirty)
    ensures rows[name].time != 0 && !IsDue(rows[name], now) ==>
      Progress(sc, before, rows, now, done + {name}, table, true)
  {
    SavedOne(sc, before, rows, now, done, name);
    hide SavedOf;
  }

  lemma ProgressEnd(sc: Schema, before: Table, rows: Rows, now: nat, done: set<string>, table: Table, dirty: bool)
    requires Progress(sc, before, rows, now, done, table, dirty) && forall name :: name in rows ==> name in done
    ensures table == Saved(sc, before, rows, now) && (dirty <==> StillDirty(rows, now))
  {
    hide IsDue, TargetOf, Storable, Written;
  }

  lemma SavedOfAt(sc: Schema, table: Table, rows: Rows, now: nat, done: set<string>)
    ensures var t, sent := SavedOf(sc, table, rows, now, done), SavedKeys(sc, rows, now);
      && (forall k :: k in t <==> k in table || (k in sent && k.name in done))
      && (forall k :: k in t ==>
            t[k] == if k in sent && k.name in done then Written(sc, rows[k.name].message) else table[k])
  {
    hide IsDue, TargetOf, Storable, Written;
  }

  lemma SavedOne(sc: Schema, table: Table, rows: Rows, now: nat, done: set<string>, name: string)
    requires name in rows
    ensures SavedOf(sc, table, rows, now, done + {name}) ==
      if IsDue(rows[name], now) then Sent(sc, SavedOf(sc, table, rows, now, done), name, rows[name])
      else SavedOf(sc, table, rows, now, done)
  {
    hide IsDue, TargetOf, SavedOf, SavedKeys, Storable, Written;
    SavedOfAt(sc, table, rows, now, done);
    SavedOfAt(sc, table, rows, now, done + {name});
    var sent := SavedKeys(sc, rows, now);
    assert forall k :: k in sent && k.name == name ==> k == TargetOf(sc, name, rows[name]);
  }

  ghost function NamesOf(names: map<nat, string>, ids: set<nat>): set<string> {
    set d | d in ids && d in names :: names[d]
  }

  lemma NamesOfOneMore(names: map<nat, string>, ids: set<nat>, d: nat)
    requires d in names
    ensures NamesOf(names, ids + {d}) == NamesOf(names, ids) + {names[d]}
  {
  }

  lemma AllVisited(sc: Schema, index: map<string, nat>, names: map<nat, string>, next: nat, info: Info)
    requires Interned(index, names, next) && InfoOk(sc, names, info)
    ensures forall name :: name in View(sc, index, info) ==> name in NamesOf(names, info.Keys)
  {
    hide RowOf, EntryOk;
    forall name | name in View(sc, index, info) ensures name in NamesOf(names, info.Keys) {
      assert names[index[name]] == name;
    }
  }

  lemma EntryFacts(sc: Schema, index: map<string, nat>, names: map<nat, string>, next: nat, info: Info, d: nat)
    requires Interned(index, names, next) && InfoOk(sc, names, info) && d in info
    ensures d in names && names[d] in index && index[names[d]] == d
    ensures names[d] in View(sc, index, info) && View(sc, index, info)[names[d]] == RowOf(sc, names[d], info[d])
    ensures EntryOk(sc, names[d], info[d])
  {
  }
}
