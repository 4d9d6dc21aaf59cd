/** A worker: between the commands and the table it consults the cache. */
module DbThread {
  import opened Wrappers
  import opened Messages
  import opened CacheModel
  import opened Lines
  import opened Database
  import opened CacheStore
  import opened DbCache
  import opened DbCacheMgr
  import opened WriteThrough
  import opened Coherence
  import Bits

  /** A queued command, the time it is handled at, its deadline (0 for none) and its session (0 when nobody
      waits for the answer). */
  datatype Request = Request(command: Event, now: nat, deadline: nat, session: nat)

  datatype Answer = Answer(session: nat, outcome: Outcome)

  /** What a command does, with a cache or without. */
  ghost function Handled(sc: Schema, period: nat, caching: bool, w: World, e: Event): World
    requires IsCommand(sc, e)
  {
    if caching then Step(sc, period, w, e) else w.(table := RefStep(sc, w.table, e))
  }

  /** What the client is told, with a cache or without. */
  ghost function AnswerTo(sc: Schema, caching: bool, w: World, e: Event): Outcome
    requires IsCommand(sc, e)
  {
    if caching then Told(sc, w, e) else RefTold(sc, w.table, e)
  }

  /** A command that somebody waits for and whose deadline has passed is dropped; a flush never is. */
  predicate Expired(r: Request) {
    !r.command.Flush? && r.deadline != 0 && r.deadline <= r.now && r.session != 0
  }

  ghost function Served(sc: Schema, period: nat, caching: bool, w: World, batch: seq<Request>): World
    requires forall r :: r in batch ==> IsCommand(sc, r.command)
  {
    if batch == [] then w
    else
      var before := Served(sc, period, caching, w, batch[..|batch| - 1]);
      var r := batch[|batch| - 1];
      if Expired(r) then before else Handled(sc, period, caching, before, r.command)
  }

  /** One answer for every command with a session, in order, except a dropped one and a flush. */
  ghost function Answers(sc: Schema, period: nat, caching: bool, w: World, batch: seq<Request>): seq<Answer>
    requires forall r :: r in batch ==> IsCommand(sc, r.command)
  {
    if batch == [] then []
    else
      var front, r := batch[..|batch| - 1], batch[|batch| - 1];
      var before := Served(sc, period, caching, w, front);
      Answers(sc, period, caching, w, front) +
      if Expired(r) || r.command.Flush? || r.session == 0 then []
      else [Answer(r.session, AnswerTo(sc, caching, before, r.command))]
  }

  /** A round: what the cache does on its own, and then a batch. */
  datatype Turn = Turn(now: nat, victim: Option<nat>, batch: seq<Request>)

  ghost predicate IsTurn(sc: Schema, t: Turn) {
    forall r :: r in t.batch ==> IsCommand(sc, r.command)
  }

  ghost function Ticked(sc: Schema, period: nat, caching: bool, w: World, t: Turn): World {
    if caching && ValidEvent(sc, w, Tick(t.now, t.victim)) then OnTick(sc, w, t.now, t.victim, period) else w
  }

  ghost function AfterTurn(sc: Schema, period: nat, caching: bool, w: World, t: Turn): World
    requires IsTurn(sc, t)
  {
    Served(sc, period, caching, Ticked(sc, period, caching, w, t), t.batch)
  }

  ghost function TurnAnswers(sc: Schema, period: nat, caching: bool, w: World, t: Turn): seq<Answer>
    requires IsTurn(sc, t)
  {
    Answers(sc, period, caching, Ticked(sc, period, caching, w, t), t.batch)
  }

  class Worker {
    const sc: Schema
    const db: Connection
    const mgr: CacheManager

    ghost predicate Valid()
      reads this, mgr, mgr.Objects(), db
    {
      mgr.sc == sc && mgr.db == db && mgr.Valid()
    }

    ghost function State(): World
      reads this, mgr, mgr.Objects(), mgr.db
    {
      mgr.State()
    }

    constructor (sc: Schema, db: Connection, maxCacheSize: int, writebackTime: nat)
      requires SchemaOk(sc) && db.sc == sc && TableOk(sc, db.table)
      ensures Valid() && State() == World(EMPTY, db.table)
      ensures mgr.maxCacheSize == maxCacheSize && mgr.writebackTime == writebackTime && this.db == db && this.sc == sc
    {
      this.sc, this.db := sc, db;
      mgr := new CacheManager(sc, db, maxCacheSize, writebackTime);
    }

    /** Before the handler. Only a select hit and an update that the cache takes are done after this. */
    method OnPreCache(e: Event) returns (done: bool, response: Content)
      requires Valid() && IsCommand(sc, e) && !e.Flush?
      modifies mgr, mgr.Objects()
      ensures Valid() && fresh(mgr.Objects() - old(mgr.Objects())) && State().table == old(State().table)
      ensures mgr.maxCacheSize <= 0 ==> !done && response == Nothing && State() == old(State())
      ensures mgr.maxCacheSize > 0 ==>
        && done == Taken(sc, old(State()), e) && State().cache == BeforeHandler(sc, old(State()), e)
        && response == if done && e.Select? then One(RowAt(old(State()).cache, e.key).message) else Nothing
      ensures Fits(sc, e, response)
    {
      hide IsMessage, SchemaOk, TableOk, CacheModel.SetData, CacheModel.AddData, CacheModel.DelData, PrimaryId;
      done, response := false, Nothing;
      if mgr.maxCacheSize <= 0 {
        return;
      }
      match e {
        case Select(k, _) =>
          var m := mgr.GetData(k.id, k.name);
          if m.Some? {
            done, response := true, One(m.value);
          }
        case Update(m, at) =>
          done := PreUpdate(m, at);
        case Insert(m) =>
          PreInsert(m);
        case Delete(k) =>
          var _ := mgr.DelData(k.id, k.name);
        case Query(_, _) =>
      }
    }

    method PreUpdate(m: Message, at: nat) returns (taken: bool)
      requires Valid() && mgr.maxCacheSize > 0 && IsMessage(sc, m) && PrimaryId(sc, m).Some?
      modifies mgr, mgr.Objects()
      ensures Valid() && fresh(mgr.Objects() - old(mgr.Objects())) && State().table == old(State().table)
      ensures (State().cache, taken) ==
        if sc.codec.serialize(m).None? then (old(State().cache), false)
        else CacheModel.SetData(sc, old(State().cache), KeyOf(sc, m).id, m, at)
    {
      hide IsMessage, SchemaOk, TableOk;
      var id := PrimaryId(sc, m).value % Bits.WORD;
      if sc.codec.serialize(m) == None {
        return false;
      }
      taken := mgr.SetData(id, m, at);
    }

    method PreInsert(m: Message)
      requires Valid() && mgr.maxCacheSize > 0 && IsMessage(sc, m) && PrimaryId(sc, m).Some?
      modifies mgr, mgr.Objects()
      ensures Valid() && fresh(mgr.Objects() - old(mgr.Objects())) && State().table == old(State().table)
      ensures State().cache ==
        if sc.codec.serialize(m).None? then old(State().cache)
        else CacheModel.AddData(sc, old(State().cache), KeyOf(sc, m).id, m).0
    {
      hide IsMessage, SchemaOk, TableOk;
      var id := PrimaryId(sc, m).value % Bits.WORD;
      if sc.codec.serialize(m) == None {
        return;
      }
      var _ := mgr.AddData(id, m);
    }

    /** The command on the table itself. */
    method OnDbCommand(e: Event) returns (code: nat, response: Content)
      requires Valid() && IsCommand(sc, e) && !e.Flush?
      modifies db
      ensures Valid() && State() == old(State()).(table := RefStep(sc, old(State().table), e))
      ensures Outcome(code, response) == RefTold(sc, old(State().table), e)
      ensures Fits(sc, e, response)
    {
      hide IsMessage, SchemaOk, TableOk, StoreOk, Abs, DbUpdate, DbInsert, DbSelect, DbQuery, Storable,
           CacheManager.Snapshot, CacheManager.Owned;
      CommandTyped(sc, db.table, e);
      code, response := RC_OK, Nothing;
      match e {
        case Select(k, _) =>
          var m := db.Select(k);
          if m == None {
            return RC_PROTO_ERROR, Nothing;
          }
          response := One(m.value);
        case Query(name, p) =>
          var rows := db.Query(name, p);
          if rows == None {
            return RC_PROTO_ERROR, Nothing;
          }
          response := Many(rows.value);
        case Update(m, _) => code := db.Update(m);
        case Insert(m) => code := db.Insert(m);
        case Delete(k) => db.Delete(k);
      }
    }

    /** After the handler, or without it: the message that a select found goes into the cache. */
    method OnPostCache(e: Event, response: Content)
      requires Valid() && IsCommand(sc, e) && Fits(sc, e, response)
      modifies mgr, mgr.Objects()
      ensures Valid() && fresh(mgr.Objects() - old(mgr.Objects())) && State().table == old(State().table)
      ensures State().cache ==
        if mgr.maxCacheSize > 0 then AfterHandler(sc, old(State().cache), e, response) else old(State().cache)
    {
      hide SchemaOk, TableOk;
      if mgr.maxCacheSize <= 0 {
        return;
      }
      if e.Select? {
        if !response.One? {
          return;
        }
        KeyedId(sc, response.message);
        hide IsMessage;
        if sc.codec.serialize(response.message) == None {
          return;
        }
        var _ := mgr.SetData(e.key.id, response.message, e.at);
      }
    }

    method Handle(e: Event) returns (code: nat, response: Content)
      requires Valid() && IsCommand(sc, e)
      modifies mgr, mgr.Objects(), db
      ensures Valid() && fresh(mgr.Objects() - old(mgr.Objects()))
      ensures State() == Handled(sc, mgr.writebackTime, mgr.maxCacheSize > 0, old(State()), e)
      ensures Outcome(code, response) == AnswerTo(sc, mgr.maxCacheSize > 0, old(State()), e)
    {
      hide IsMessage, SchemaOk, TableOk, Taken, BeforeHandler, AfterHandler, Step, RefStep, Told, RefTold, Fits,
           CacheManager.State, CacheManager.Valid;
      HandledIs(sc, mgr.writebackTime, State(), e);
      if e.Flush? {
        mgr.FlushCache(e.id);
        return RC_OK, Nothing;
      }
      code := RC_OK;
      var done, content := OnPreCache(e);
      if !done {
        code, content := OnDbCommand(e);
      }
      OnPostCache(e, content);
      response := content;
    }

    /** Handles a batch in order. */
    method Serve(batch: seq<Request>) returns (answers: seq<Answer>)
      requires Valid() && forall r :: r in batch ==> IsCommand(sc, r.command)
      modifies mgr, mgr.Objects(), db
      ensures Valid() && fresh(mgr.Objects() - old(mgr.Objects()))
      ensures State() == Served(sc, mgr.writebackTime, mgr.maxCacheSize > 0, old(State()), batch)
      ensures answers == Answers(sc, mgr.writebackTime, mgr.maxCacheSize > 0, old(State()), batch)
    {
      hide IsMessage, SchemaOk, TableOk, IsCommand, Handled, AnswerTo, Served, Answers, CacheManager.State,
           CacheManager.Valid;
      ghost var w := State();
      answers := [];
      ServedStart(sc, mgr.writebackTime, mgr.maxCacheSize > 0, w);
      for i := 0 to |batch|
        invariant Valid() && fresh(mgr.Objects() - old(mgr.Objects()))
        invariant State() == Served(sc, mgr.writebackTime, mgr.maxCacheSize > 0, w, batch[..i])
        invariant answers == Answers(sc, mgr.writebackTime, mgr.maxCacheSize > 0, w, batch[..i])
      {
        ServedNext(sc, mgr.writebackTime, mgr.maxCacheSize > 0, w, batch, i);
        var r := batch[i];
        if Expired(r) {
          continue;
        }
        var code, content := Handle(r.command);
        if r.command.Flush? || r.session == 0 {
          continue;
        }
        answers := answers + [Answer(r.session, Outcome(code, content))];
      }
      assert batch[..|batch|] == batch;
    }

    /** One round of the worker: the cache's own work, then a batch. */
    method Round(now: nat, pick: Option<nat>, batch: seq<Request>) returns (ghost victim: Option<nat>,
                 answers: seq<Answer>)
      requires Valid() && (pick.Some? ==> pick.value in mgr.cache)
      requires forall r :: r in batch ==> IsCommand(sc, r.command)
      modifies mgr, mgr.Objects(), db
      ensures Valid() && fresh(mgr.Objects() - old(mgr.Objects()))
      ensures victim.Some? ==> victim.value in old(State()).cache.resident
      ensures
        var caching, turn := mgr.maxCacheSize > 0, Turn(now, victim, batch);
        && State() == AfterTurn(sc, mgr.writebackTime, caching, old(State()), turn)
        && answers == TurnAnswers(sc, mgr.writebackTime, caching, old(State()), turn)
    {
      hide IsMessage, SchemaOk, TableOk, IsCommand, Served, Answers, StoreOk, Abs, CacheManager.Snapshot,
           CacheManager.Owned;
      victim := mgr.Update(now, pick);
      answers := Serve(batch);
    }
  }

  lemma ServedStart(sc: Schema, period: nat, caching: bool, w: World)
    ensures Served(sc, period, caching, w, []) == w && Answers(sc, period, caching, w, []) == []
  {
  }

  lemma ServedNext(sc: Schema, period: nat, caching: bool, w: World, batch: seq<Request>, i: nat)
    requires i < |batch| && forall r :: r in batch ==> IsCommand(sc, r.command)
    ensures IsCommand(sc, batch[i].command)
    ensures var before, r := Served(sc, period, caching, w, batch[..i]), batch[i];
      && Served(sc, period, caching, w, batch[..i + 1])
           == (if Expired(r) then before else Handled(sc, period, caching, before, r.command))
      && Answers(sc, period, caching, w, batch[..i + 1])
           == Answers(sc, period, caching, w, batch[..i]) +
              (if Expired(r) || r.command.Flush? || r.session == 0 then []
               else [Answer(r.session, AnswerTo(sc, caching, before, r.command))])
  {
    hide Handled, IsCommand;
    assert batch[..i + 1][..i] == batch[..i];
  }

  /** What one more request does to a batch. A request with a session whose deadline has come is dropped; any
      other is handled, and answered once if it has a session and is no flush. A flush, and a request that nobody
      waits for, is handled whatever its deadline. */
  lemma OneMoreRequest(sc: Schema, period: nat, caching: bool, w: World, batch: seq<Request>, r: Request)
    requires forall x :: x in batch + [r] ==> IsCommand(sc, x.command)
    ensures forall x :: x in batch ==> x in batch + [r]
    ensures IsCommand(sc, r.command)
    ensures var before, after := Served(sc, period, caching, w, batch), Served(sc, period, caching, w, batch + [r]);
      var told, told' := Answers(sc, period, caching, w, batch), Answers(sc, period, caching, w, batch + [r]);
      && (!r.command.Flush? && r.session != 0 && 0 < r.deadline <= r.now ==> after == before && told' == told)
      && (r.command.Flush? || r.session == 0 || r.deadline == 0 || r.deadline > r.now ==>
            after == if caching then Step(sc, period, before, r.command)
                     else World(before.cache, RefStep(sc, before.table, r.command)))
      && (!r.command.Flush? && r.session != 0 && (r.deadline == 0 || r.deadline > r.now) ==>
            told' == told + [Answer(r.session, if caching then Told(sc, before, r.command)
                                               else RefTold(sc, before.table, r.command))])
      && (r.command.Flush? || r.session == 0 ==> told' == told)
  {
    hide Step, RefStep, Told, RefTold, IsCommand;
    var all := batch + [r];
    assert r in all;
    assert all[..|batch| + 1] == all && all[..|batch|] == batch;
    ServedNext(sc, period, caching, w, all, |batch|);
  }

  /** A round of a caching worker starts with an eviction, if there is a victim, and a write-back; one without a
      cache does its batch only. */
  lemma RoundIsExact(sc: Schema, period: nat, w: World, t: Turn)
    requires IsTurn(sc, t) && (t.victim.Some? ==> t.victim.value in w.cache.resident)
    ensures var ready :=
        Writeback(sc, if t.victim.Some? then Evict(sc, w, t.victim.value) else w, t.now, period);
      && AfterTurn(sc, period, true, w, t) == Served(sc, period, true, ready, t.batch)
      && TurnAnswers(sc, period, true, w, t) == Answers(sc, period, true, ready, t.batch)
    ensures AfterTurn(sc, period, false, w, t) == Served(sc, period, false, w, t.batch)
    ensures TurnAnswers(sc, period, false, w, t) == Answers(sc, period, false, w, t.batch)
  {
    hide Served, Answers, Writeback, Evict, IsCommand;
  }

  /** A select is answered with a message of the type that it names. */
  ghost predicate Fits(sc: Schema, e: Event, response: Content) {
    && (response.One? ==> e.Select? && IsMessage(sc, response.message) && response.message.typeName == e.key.name)
    && (response.Many? ==> e.Query?)
  }

  /** Whether the cache alone answers the command. */
  ghost predicate Taken(sc: Schema, w: World, e: Event)
    requires IsCommand(sc, e)
  {
    match e
    case Select(k, _) => IsCached(w.cache, k)
    case Update(m, at) => Takes(sc, w, m, at)
    case _ => false
  }

  ghost function BeforeHandler(sc: Schema, w: World, e: Event): Cache
    requires IsCommand(sc, e)
  {
    match e
    case Update(m, at) =>
      if sc.codec.serialize(m).None? then w.cache else CacheModel.SetData(sc, w.cache, KeyOf(sc, m).id, m, at).0
    case Insert(m) =>
      if sc.codec.serialize(m).None? then w.cache else CacheModel.AddData(sc, w.cache, KeyOf(sc, m).id, m).0
    case Delete(k) => CacheModel.DelData(w.cache, k.id, k.name).0
    case _ => w.cache
  }

  ghost function AfterHandler(sc: Schema, c: Cache, e: Event, response: Content): Cache
    requires IsCommand(sc, e)
  {
    if e.Select? && response.One? && sc.codec.serialize(response.message).Some?
    then CacheModel.SetData(sc, c, e.key.id, response.message, e.at).0 else c
  }

  /** The three stages of a command make up its step. */
  lemma HandledIs(sc: Schema, period: nat, w: World, e: Event)
    requires IsCommand(sc, e)
    ensures e.Flush? ==>
      && Step(sc, period, w, e) == OnFlush(sc, w, e.id, period)
      && RefStep(sc, w.table, e) == w.table && Told(sc, w, e) == RefTold(sc, w.table, e) == DONE
    ensures !e.Flush? ==>
      var done := Taken(sc, w, e);
      var hit := Outcome(RC_OK, if e.Select? && done then One(RowAt(w.cache, e.key).message) else Nothing);
      && Told(sc, w, e) == (if done then hit else RefTold(sc, w.table, e))
      && Step(sc, period, w, e)
           == World(AfterHandler(sc, BeforeHandler(sc, w, e), e, Told(sc, w, e).content),
                    if done then w.table else RefStep(sc, w.table, e))
    ensures !e.Flush? ==> AfterHandler(sc, w.cache, e, Nothing) == w.cache
  {
    hide CacheModel.SetData, CacheModel.AddData, CacheModel.DelData, IsMessage, DbSelect, DbQuery, DbUpdate, DbInsert,
         UpdateCode, InsertCode;
  }

  lemma CommandTyped(sc: Schema, table: Table, e: Event)
    requires SchemaOk(sc) && TableOk(sc, table) && IsCommand(sc, e)
    ensures TableOk(sc, RefStep(sc, table, e))
    ensures Fits(sc, e, RefTold(sc, table, e).content)
  {
    hide TableOk, SchemaOk, IsMessage, DbSelect, DbUpdate, DbInsert, DbQuery, PrimaryId;
    match e
    case Select(k, _) =>
      KeyColumn(sc, k.name);
      if DbSelect(sc, table, k).Some? {
        SelectedOk(sc, table, k);
      }
    case Update(m, _) => UpdateOk(sc, table, m);
    case Insert(m) => UpdateOk(sc, table, m);
    case Delete(k) => DeleteTyped(sc, table, k);
    case _ =>
  }

  // ---- Clients cannot tell ----

  ghost function UnsavedAfter(sc: Schema, period: nat, w: World, unsaved: set<Key>, batch: seq<Request>): set<Key>
    requires forall r :: r in batch ==> IsCommand(sc, r.command)
  {
    if batch == [] then unsaved
    else
      var front, r := batch[..|batch| - 1], batch[|batch| - 1];
      var before := UnsavedAfter(sc, period, w, unsaved, front);
      assert IsCommand(sc, r.command);
      if Expired(r) then before else Unsaved(sc, period, Served(sc, period, true, w, front), before, r.command)
  }

  /** Each command of the batch is safe when its turn comes. */
  ghost predicate SafeBatch(sc: Schema, period: nat, w: World, unsaved: set<Key>, batch: seq<Request>)
    requires Total(sc) && forall r :: r in batch ==> IsCommand(sc, r.command)
  {
    batch == [] ||
    var front, r := batch[..|batch| - 1], batch[|batch| - 1];
    assert IsCommand(sc, r.command);
    && SafeBatch(sc, period, w, unsaved, front)
    && var here, left := Served(sc, period, true, w, front), UnsavedAfter(sc, period, w, unsaved, front);
       Expired(r) || Safe(sc, period, here, left, r.command)
  }

  /** While its commands are safe, a caching worker gives the answers that one without a cache gives, and
      stays coherent with that worker's table. */
  lemma {:induction false} CachedAnswersAgree(sc: Schema, period: nat, w: World, unsaved: set<Key>, ref: Table,
                                              batch: seq<Request>)
    requires Total(sc) && forall r :: r in batch ==> IsCommand(sc, r.command)
    requires Coherent(sc, w, unsaved, ref) && SafeBatch(sc, period, w, unsaved, batch)
    ensures Answers(sc, period, true, w, batch) == Answers(sc, period, false, World(EMPTY, ref), batch)
    ensures Coherent(sc, Served(sc, period, true, w, batch), UnsavedAfter(sc, period, w, unsaved, batch),
                     Served(sc, period, false, World(EMPTY, ref), batch).table)
  {
    hide Coherent, Total, Safe, Step, RefStep, Unsaved, Told, RefTold;
    if batch != [] {
      var front, r := batch[..|batch| - 1], batch[|batch| - 1];
      CachedAnswersAgree(sc, period, w, unsaved, ref, front);
      var here, left := Served(sc, period, true, w, front), UnsavedAfter(sc, period, w, unsaved, front);
      var table := Served(sc, period, false, World(EMPTY, ref), front).table;
      if !Expired(r) {
        StepCoherent(sc, period, here, left, table, r.command);
        UncachedKeepsCache(sc, period, World(EMPTY, ref), front);
      }
    }
  }

  // ---- Round after round ----

  ghost function AfterTurns(sc: Schema, period: nat, caching: bool, w: World, turns: seq<Turn>): World
    requires forall t :: t in turns ==> IsTurn(sc, t)
    decreases |turns|
  {
    if turns == [] then w
    else AfterTurns(sc, period, caching, AfterTurn(sc, period, caching, w, turns[0]), turns[1..])
  }

  ghost function AllAnswers(sc: Schema, period: nat, caching: bool, w: World, turns: seq<Turn>): seq<Answer>
    requires forall t :: t in turns ==> IsTurn(sc, t)
    decreases |turns|
  {
    if turns == [] then []
    else TurnAnswers(sc, period, caching, w, turns[0]) +
         AllAnswers(sc, period, caching, AfterTurn(sc, period, caching, w, turns[0]), turns[1..])
  }

  ghost function UnsavedTicked(sc: Schema, period: nat, w: World, unsaved: set<Key>, t: Turn): set<Key>
    requires ValidEvent(sc, w, Tick(t.now, t.victim))
  {
    Unsaved(sc, period, w, unsaved, Tick(t.now, t.victim))
  }

  ghost function UnsavedAfterTurns(sc: Schema, period: nat, w: World, unsaved: set<Key>, turns: seq<Turn>): set<Key>
    requires forall t :: t in turns ==> IsTurn(sc, t)
    decreases |turns|
  {
    if turns == [] || !ValidEvent(sc, w, Tick(turns[0].now, turns[0].victim)) then unsaved
    else
      var t := turns[0];
      assert IsTurn(sc, t);
      var ticked := Ticked(sc, period, true, w, t);
      var left := UnsavedAfter(sc, period, ticked, UnsavedTicked(sc, period, w, unsaved, t), t.batch);
      UnsavedAfterTurns(sc, period, AfterTurn(sc, period, true, w, t), left, turns[1..])
  }

  /** In each round a victim, if any, is resident, and the batch is safe. */
  ghost predicate SafeTurns(sc: Schema, period: nat, w: World, unsaved: set<Key>, turns: seq<Turn>)
    requires Total(sc) && forall t :: t in turns ==> IsTurn(sc, t)
    decreases |turns|
  {
    turns == [] ||
    var t := turns[0];
    assert IsTurn(sc, t);
    && ValidEvent(sc, w, Tick(t.now, t.victim))
    && var ticked, left := Ticked(sc, period, true, w, t), UnsavedTicked(sc, period, w, unsaved, t);
       && SafeBatch(sc, period, ticked, left, t.batch)
       && SafeTurns(sc, period, AfterTurn(sc, period, true, w, t),
                    UnsavedAfter(sc, period, ticked, left, t.batch), turns[1..])
  }

  lemma {:induction false} UncachedKeepsCache(sc: Schema, period: nat, w: World, batch: seq<Request>)
    requires forall r :: r in batch ==> IsCommand(sc, r.command)
    ensures Served(sc, period, false, w, batch).cache == w.cache
  {
    hide RefStep, IsCommand;
    if batch != [] {
      UncachedKeepsCache(sc, period, w, batch[..|batch| - 1]);
    }
  }

  /** Rounds follow each other, and their answers do. */
  lemma {:induction false} OneMoreRound(sc: Schema, period: nat, caching: bool, w: World, turns: seq<Turn>, t: Turn)
    requires forall x :: x in turns + [t] ==> IsTurn(sc, x)
    ensures IsTurn(sc, t) && forall x :: x in turns ==> IsTurn(sc, x)
    ensures var before := AfterTurns(sc, period, caching, w, turns);
      && AfterTurns(sc, period, caching, w, turns + [t]) == AfterTurn(sc, period, caching, before, t)
      && AllAnswers(sc, period, caching, w, turns + [t])
           == AllAnswers(sc, period, caching, w, turns) + TurnAnswers(sc, period, caching, before, t)
    decreases |turns|
  {
    hide IsTurn, AfterTurn, TurnAnswers;
    var all := turns + [t];
    assert t in all && forall x :: x in turns ==> x in all;
    if turns == [] {
      assert all == [t] && all[1..] == [];
    } else {
      assert all[0] == turns[0] && all[1..] == turns[1..] + [t];
      assert forall x :: x in turns[1..] + [t] ==> x in all;
      OneMoreRound(sc, period, caching, AfterTurn(sc, period, caching, w, turns[0]), turns[1..], t);
    }
  }

  /** Over any number of rounds, whatever is evicted and written back in between: while its commands are safe
      a caching worker gives the answers that one without a cache gives. */
  lemma {:induction false} CachedRunAgrees(sc: Schema, period: nat, w: World, unsaved: set<Key>, ref: Table,
                                           turns: seq<Turn>)
    requires Total(sc) && forall t :: t in turns ==> IsTurn(sc, t)
    requires Coherent(sc, w, unsaved, ref) && SafeTurns(sc, period, w, unsaved, turns)
    ensures AllAnswers(sc, period, true, w, turns) == AllAnswers(sc, period, false, World(EMPTY, ref), turns)
    ensures Coherent(sc, AfterTurns(sc, period, true, w, turns), UnsavedAfterTurns(sc, period, w, unsaved, turns),
                     AfterTurns(sc, period, false, World(EMPTY, ref), turns).table)
    decreases |turns|
  {
    hide Coherent, Total, Safe, Step, RefStep, Unsaved, OnTick, Served, Answers, UnsavedAfter, SafeBatch, IsCommand;
    if turns != [] {
      var t, without := turns[0], World(EMPTY, ref);
      assert IsTurn(sc, t);
      var ticked, left := Ticked(sc, period, true, w, t), UnsavedTicked(sc, period, w, unsaved, t);
      TickCoherent(sc, period, w, unsaved, ref, t);
      CachedAnswersAgree(sc, period, ticked, left, ref, t.batch);
      UncachedKeepsCache(sc, period, without, t.batch);
      var next := Served(sc, period, false, without, t.batch);
      CachedRunAgrees(sc, period, AfterTurn(sc, period, true, w, t), UnsavedAfter(sc, period, ticked, left, t.batch),
                      next.table, turns[1..]);
      assert next == World(EMPTY, next.table);
    }
  }

  lemma TickCoherent(sc: Schema, period: nat, w: World, unsaved: set<Key>, ref: Table, t: Turn)
    requires Total(sc) && Coherent(sc, w, unsaved, ref) && ValidEvent(sc, w, Tick(t.now, t.victim))
    ensures Coherent(sc, Ticked(sc, period, true, w, t), UnsavedTicked(sc, period, w, unsaved, t), ref)
  {
    hide Coherent, Total, OnTick, Unsaved;
    StepCoherent(sc, period, w, unsaved, ref, Tick(t.now, t.victim));
  }
}
