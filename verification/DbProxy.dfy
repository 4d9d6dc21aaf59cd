/** The client-side request tracker: a session map, a per-client index and a deadline list, kept in
    step by every event. */
module DbProxy {
  import opened Wrappers
  import opened Sessions

  /** A session's record. `position` is the iterator into the deadline list: the entry it designates,
      or nothing for the end of the list. */
  datatype Pending = Pending(session: nat, context: nat, callback: nat, client: nat, position: Option<Timeout>)

  /** The first position whose deadline is not below `deadline`, as a binary search on a list sorted by
      deadline finds it. */
  function LowerBound(list: seq<Timeout>, deadline: int): (i: nat)
    ensures i <= |list|
    ensures forall k :: 0 <= k < i ==> list[k].deadline < deadline
    ensures i < |list| ==> deadline <= list[i].deadline
  {
    if list == [] || deadline <= list[0].deadline then 0 else 1 + LowerBound(list[1..], deadline)
  }

  /** Removes the entry an iterator designates. */
  function Erase(list: seq<Timeout>, entry: Timeout): (rest: seq<Timeout>)
    requires entry in list
    ensures |rest| == |list| - 1
  {
    if list[0] == entry then list[1..] else [list[0]] + Erase(list[1..], entry)
  }

  lemma {:induction false} EraseOrdered(list: seq<Timeout>, entry: Timeout)
    requires Ordered(list) && entry in list
    ensures Ordered(Erase(list, entry))
    ensures forall t :: t in Erase(list, entry) <==> t in list && t != entry
  {
    assert list == [list[0]] + list[1..];
    if list[0] != entry {
      EraseOrdered(list[1..], entry);
      var rest := Erase(list[1..], entry);
      forall j | 0 <= j < |rest| ensures Before(list[0], rest[j]) {
        assert rest[j] in rest;
      }
    } else {
      forall t ensures t in list[1..] <==> t in list && t != entry { OrderedTail(list, t); }
    }
  }

  /** A new session's entry goes in front of all with the same deadline, since its id is the largest. */
  lemma {:induction false} InsertOrdered(list: seq<Timeout>, entry: Timeout)
    requires Ordered(list) && forall t :: t in list ==> t.session < entry.session
    ensures Inserted(list, entry) == Placed(list, entry)
    ensures Ordered(Inserted(list, entry))
    ensures forall t :: t in Inserted(list, entry) <==> t == entry || t in list
  {
    InsertIsPlaced(list, entry);
    PlacedOrdered(list, entry);
  }

  function Inserted(list: seq<Timeout>, entry: Timeout): seq<Timeout> {
    var i := LowerBound(list, entry.deadline);
    list[..i] + [entry] + list[i..]
  }

  lemma {:induction false} InsertIsPlaced(list: seq<Timeout>, entry: Timeout)
    requires forall t :: t in list ==> t.session < entry.session
    ensures Inserted(list, entry) == Placed(list, entry)
  {
    if list != [] {
      assert list[0] in list;
      if list[0].deadline < entry.deadline {
        InsertIsPlaced(list[1..], entry);
        var rest, i := list[1..], LowerBound(list[1..], entry.deadline);
        assert LowerBound(list, entry.deadline) == i + 1;
        assert list[..i + 1] == [list[0]] + rest[..i] && list[i + 1..] == rest[i..];
      }
    }
  }

  // ---- How the three indexes agree ----

  function WaitingOf(p: Pending): Waiting {
    Waiting(p.client, p.callback, p.context, if p.position.Some? then Some(p.position.value.deadline) else None)
  }

  ghost function WaitingMap(pending: map<nat, Pending>): (waiting: map<nat, Waiting>)
    ensures waiting.Keys == pending.Keys
  {
    map s | s in pending :: WaitingOf(pending[s])
  }

  ghost predicate Agree(pending: map<nat, Pending>, byClient: map<nat, set<nat>>, timeouts: seq<Timeout>) {
    && (forall s :: s in pending ==> pending[s].session == s)
    && (forall s :: s in pending && pending[s].position.Some? ==> pending[s].position.value.session == s)
    && IsSchedule(timeouts, WaitingMap(pending))
    && (forall s :: s in pending ==> pending[s].client in byClient)
    && (forall c :: c in byClient ==> byClient[c] == OfClient(WaitingMap(pending), c))
  }

  function WithSession(byClient: map<nat, set<nat>>, client: nat, session: nat): map<nat, set<nat>> {
    byClient[client := (if client in byClient then byClient[client] else {}) + {session}]
  }

  function WithoutSession(byClient: map<nat, set<nat>>, client: nat, session: nat): map<nat, set<nat>> {
    if client in byClient then byClient[client := byClient[client] - {session}] else byClient
  }

  lemma AgreeRegister(pending: map<nat, Pending>, byClient: map<nat, set<nat>>, timeouts: seq<Timeout>, p: Pending)
    requires Agree(pending, byClient, timeouts)
    requires forall s :: s in pending ==> s < p.session
    requires p.position.Some? ==> p.position.value.session == p.session
    ensures WaitingMap(pending[p.session := p]) == WaitingMap(pending)[p.session := WaitingOf(p)]
    ensures Agree(pending[p.session := p], WithSession(byClient, p.client, p.session),
                  if p.position.Some? then Inserted(timeouts, p.position.value) else timeouts)
  {
    var waiting, waiting' := WaitingMap(pending), WaitingMap(pending[p.session := p]);
    assert waiting' == waiting[p.session := WaitingOf(p)];
    forall t ensures Timed(waiting', t) <==> (p.position == Some(t) || Timed(waiting, t)) {}
    if p.position.Some? {
      InsertOrdered(timeouts, p.position.value);
    }
  }

  lemma AgreeUnregister(pending: map<nat, Pending>, byClient: map<nat, set<nat>>, timeouts: seq<Timeout>, session: nat)
    requires Agree(pending, byClient, timeouts) && session in pending
    ensures pending[session].position.Some? ==> pending[session].position.value in timeouts
    ensures WaitingMap(pending - {session}) == WaitingMap(pending) - {session}
    ensures Agree(pending - {session}, WithoutSession(byClient, pending[session].client, session),
                  if pending[session].position.Some?
                  then Erase(timeouts, pending[session].position.value) else timeouts)
  {
    var p := pending[session];
    var waiting, waiting' := WaitingMap(pending), WaitingMap(pending - {session});
    assert waiting' == waiting - {session};
    if p.position.Some? {
      assert Timed(waiting, p.position.value);
      EraseOrdered(timeouts, p.position.value);
    }
    forall t ensures Timed(waiting', t) <==> (p.position != Some(t) && Timed(waiting, t)) {}
  }

  lemma AgreeForget(pending: map<nat, Pending>, byClient: map<nat, set<nat>>, timeouts: seq<Timeout>,
                    client: nat, pending': map<nat, Pending>, timeouts': seq<Timeout>)
    requires Agree(pending, byClient, timeouts) && client in byClient
    requires pending' == pending - byClient[client]
    requires Ordered(timeouts') && forall t :: t in timeouts' <==> t in timeouts && t.session in pending'
    ensures Agree(pending', byClient - {client}, timeouts')
    ensures WaitingMap(pending') == WaitingMap(pending) - OfClient(WaitingMap(pending), client)
  {
    assert WaitingMap(pending') == WaitingMap(pending) - byClient[client];
  }

  /** The loop that stops at the first deadline to come visits all that have come. */
  lemma {:induction false} DuePrefix(list: seq<Timeout>, k: nat, now: int)
    requires Ordered(list) && k <= |list|
    requires forall i :: 0 <= i < k ==> list[i].deadline <= now
    requires k < |list| ==> list[k].deadline > now
    ensures Due(list, now) == list[..k]
  {
    if list != [] {
      assert Ordered(list[1..]);
      if k > 0 {
        DuePrefix(list[1..], k - 1, now);
        assert list[..k] == [list[0]] + list[1..][..k - 1];
      } else {
        assert |list| > 1 ==> Before(list[0], list[1]);
        DuePrefix(list[1..], 0, now);
      }
    }
  }

  lemma {:induction false} TimeoutCallsAppend(list: seq<Timeout>, t: Timeout, waiting: map<nat, Waiting>)
    requires forall x :: x in list + [t] ==> x.session in waiting
    ensures forall x :: x in list ==> x in list + [t]
    ensures TimeoutCalls(list + [t], waiting)
         == TimeoutCalls(list, waiting) + [TimeoutCall(t.session, waiting[t.session])]
  {
    if list == [] {
      assert list + [t] == [t];
    } else {
      assert (list + [t])[1..] == list[1..] + [t];
      assert forall x :: x in list[1..] + [t] ==> x in list + [t];
      TimeoutCallsAppend(list[1..], t, waiting);
    }
  }

  /** The tracker's concrete fields against the state of the run that led to them. */
  ghost predicate Represents(next: nat, pending: map<nat, Pending>, byClient: map<nat, set<nat>>,
                             timeouts: seq<Timeout>,
                             calls: seq<Call>, history: seq<Event>) {
    var st := Run(INITIAL, history);
    && st.next == next && st.waiting == WaitingMap(pending) && st.calls == calls
    && Agree(pending, byClient, timeouts)
  }

  class Tracker {
    var nextSession: nat
    var pending: map<nat, Pending>
    var byClient: map<nat, set<nat>>
    var timeouts: seq<Timeout>
    var calls: seq<Call> // the callbacks made so far
    ghost var history: seq<Event>

    /** The three indexes agree, and the state is the one that the events so far lead to. */
    ghost predicate Valid()
      reads this
    {
      Represents(nextSession, pending, byClient, timeouts, calls, history)
    }

    constructor ()
      ensures Valid() && history == []
    {
      nextSession, pending, byClient, timeouts := 1, map[], map[], [];
      calls, history := [], [];
    }

    method GenSessionId() returns (id: nat)
      modifies this`nextSession
      ensures id == old(nextSession) && nextSession == id + 1
    {
      id := nextSession;
      nextSession := nextSession + 1;
    }

    /** The common course of select, update_r, remove_r, insert_r, query and call_r. A null client and a
        message without a primary value are refused before anything changes. `accepted` is what sending
        the request returned. */
    method IssueTimed(client: Option<nat>, hasPrimary: bool, now: int, timeout: nat, context: nat, callback: nat,
                      accepted: bool) returns (ok: bool)
      requires Valid()
      modifies this
      ensures Valid()
      ensures client == None || !hasPrimary ==> !ok && history == old(history)
      ensures client != None && hasPrimary ==>
        && ok == accepted
        && history == old(history) + [Issue(Waiting(client.value, callback, context, Some(now + timeout)))]
    {
      hide Represents;
      if client == None {
        return false;
      }
      if !hasPrimary {
        return false;
      }
      var session := GenSessionId();
      var entry := Timeout(session, now + timeout);
      var p := Pending(session, context, callback, client.value, Some(entry));
      IssueKeeps(session, pending, byClient, timeouts, calls, history, p);
      var at := LowerBound(timeouts, entry.deadline);
      timeouts := timeouts[..at] + [entry] + timeouts[at..];
      Register(p);
      history := history + [Issue(WaitingOf(p))];
      ok := accepted;
    }

    /** Enters a record in the session map and in its client's set. */
    method Register(p: Pending)
      modifies this`pending, this`byClient
      ensures pending == old(pending)[p.session := p]
      ensures byClient == WithSession(old(byClient), p.client, p.session)
    {
      pending := pending[p.session := p];
      byClient := byClient[p.client := (if p.client in byClient then byClient[p.client] else {}) + {p.session}];
    }

    method Nop(client: Option<nat>, context: nat, callback: nat, accepted: bool) returns (ok: bool)
      requires Valid()
      modifies this
      ensures Valid()
      ensures client == None ==> !ok && history == old(history)
      ensures client != None ==>
        ok == accepted && history == old(history) + [Issue(Waiting(client.value, callback, context, None))]
    {
      if client == None {
        return false;
      }
      var session := GenSessionId();
      var p := Pending(session, context, callback, client.value, None);
      IssueKeeps(session, pending, byClient, timeouts, calls, history, p);
      Register(p);
      history := history + [Issue(WaitingOf(p))];
      ok := accepted;
    }

    /** Takes a session out of the session map and out of its client's set. */
    method Unregister(session: nat) returns (p: Pending)
      requires session in pending
      modifies this`pending, this`byClient
      ensures p == old(pending)[session] && pending == old(pending) - {session}
      ensures byClient == WithoutSession(old(byClient), p.client, session)
    {
      p := pending[session];
      pending := pending - {session};
      if p.client in byClient {
        byClient := byClient[p.client := byClient[p.client] - {session}];
      }
    }

    method OnMessage(response: Option<Response>)
      requires Valid()
      modifies this
      ensures Valid()
      ensures history == old(history) + if response == None then [] else [Answer(response.value)]
    {
      if response == None {
        return;
      }
      var r := response.value;
      AnswerKeeps(nextSession, pending, byClient, timeouts, calls, history, r);
      history := history + [Answer(r)];
      if r.session in pending {
        var p := Unregister(r.session);
        if p.position != None {
          timeouts := Erase(timeouts, p.position.value);
        }
        calls := calls + [AnswerCall(WaitingOf(p), r)];
      }
    }

    /** Forgets a client's sessions. The end of the list, which a nop stores, must not be erased. Afterwards
        no index mentions the client or its sessions, and the rest is as it was. */
    method RemovePendingResponseInfo(client: Option<nat>)
      requires Valid()
      requires client != None ==> DestroyDefined(Run(INITIAL, history), client.value)
      modifies this
      ensures Valid()
      ensures client == None ==> history == old(history)
      ensures client != None ==> history == old(history) + [Destroy(client.value)]
      ensures client != None ==>
        && pending == (map s | s in old(pending) && old(pending)[s].client != client.value :: old(pending)[s])
        && byClient == old(byClient) - {client.value}
        && (forall t :: t in timeouts <==> t in old(timeouts) && t.session in pending)
    {
      if client == None {
        return;
      }
      var c := client.value;
      history := history + [Destroy(c)];
      ForgetFacts(pending, byClient, timeouts, c);
      if c !in byClient {
        ForgetNothing(nextSession, pending, byClient, timeouts, calls, old(history), c);
        return;
      }
      CancelSessions(byClient[c]);
      ForgetKeeps(nextSession, old(pending), byClient, old(timeouts), calls, old(history), c, pending, timeouts);
      byClient := byClient - {c};
    }

    /** Erases each session's list entry and record. */
    method CancelSessions(sessions: set<nat>)
      requires Ordered(timeouts)
      requires forall t :: t in timeouts <==> t.session in pending && pending[t.session].position == Some(t)
      requires forall s :: s in sessions && s in pending ==>
        pending[s].position.Some? && pending[s].position.value.session == s
      modifies this`pending, this`timeouts
      ensures pending == old(pending) - sessions
      ensures Ordered(timeouts) && forall t :: t in timeouts <==> t in old(timeouts) && t.session in pending
    {
      var remaining := sessions;
      while remaining != {}
        invariant remaining <= sessions
        invariant pending == old(pending) - (sessions - remaining)
        invariant Ordered(timeouts)
        invariant forall t :: t in timeouts <==> t in old(timeouts) && t.session in pending
      {
        var s :| s in remaining;
        if s in pending {
          EraseOrdered(timeouts, pending[s].position.value);
          timeouts := Erase(timeouts, pending[s].position.value);
          pending := pending - {s};
        }
        remaining := remaining - {s};
      }
    }

    /** Walks the deadline list from its front and stops at the first deadline still to come. */
    method OnTimer(now: int)
      requires Valid()
      modifies this
      ensures Valid()
      ensures history == old(history) + [Timer(now)]
      ensures forall t :: t in timeouts ==> t.deadline > now
    {
      ghost var waiting, list, k := WaitingMap(pending), timeouts, 0;
      ListedSessionsWait(pending, byClient, timeouts);
      while timeouts != []
        invariant unchanged(`nextSession, `history)
        invariant Agree(pending, byClient, timeouts)
        invariant Passed(list, k, now, waiting, old(calls), WaitingMap(pending), timeouts, calls)
      {
        if now < timeouts[0].deadline {
          break;
        }
        PassedNext(list, k, now, waiting, old(calls), WaitingMap(pending), timeouts, calls);
        TimeOutFront();
        k := k + 1;
      }
      TimerKeeps(old(pending), old(byClient), list, k, old(history), now);
      LaterDeadlines(timeouts, now);
      history := history + [Timer(now)];
    }

    /** Ends the session at the front of the deadline list. */
    method TimeOutFront()
      requires Agree(pending, byClient, timeouts) && timeouts != []
      modifies this`pending, this`byClient, this`timeouts, this`calls
      ensures Agree(pending, byClient, timeouts) && timeouts == old(timeouts)[1..]
      ensures var session := old(timeouts)[0].session;
        && session in old(pending)
        && WaitingMap(pending) == WaitingMap(old(pending)) - {session}
        && calls == old(calls) + [TimeoutCall(session, WaitingMap(old(pending))[session])]
    {
      var session := timeouts[0].session;
      FrontSession(pending, byClient, timeouts);
      AgreeUnregister(pending, byClient, timeouts, session);
      timeouts := timeouts[1..];
      if session in pending {
        var p := Unregister(session);
        calls := calls + [TimeoutCall(session, WaitingOf(p))];
      }
    }
  }

  // ---- Each event keeps the representation ----

  lemma RunAppend(history: seq<Event>, e: Event)
    ensures Run(INITIAL, history + [e]) == Step(Run(INITIAL, history), e)
  {
    assert (history + [e])[..|history|] == history;
  }

  lemma IssueKeeps(session: nat, pending: map<nat, Pending>, byClient: map<nat, set<nat>>, timeouts: seq<Timeout>,
                   calls: seq<Call>, history: seq<Event>, p: Pending)
    requires Represents(session, pending, byClient, timeouts, calls, history)
    requires p.session == session && (p.position.Some? ==> p.position.value.session == session)
    ensures Represents(session + 1, pending[session := p], WithSession(byClient, p.client, session),
                       if p.position.Some? then Inserted(timeouts, p.position.value) else timeouts,
                       calls, history + [Issue(WaitingOf(p))])
  {
    RunConserves(history);
    RunAppend(history, Issue(WaitingOf(p)));
    assert forall s :: s in pending ==> s in Run(INITIAL, history).issued;
    AgreeRegister(pending, byClient, timeouts, p);
  }

  lemma AnswerKeeps(next: nat, pending: map<nat, Pending>, byClient: map<nat, set<nat>>, timeouts: seq<Timeout>,
                    calls: seq<Call>, history: seq<Event>, r: Response)
    requires Represents(next, pending, byClient, timeouts, calls, history)
    ensures r.session !in pending ==> Represents(next, pending, byClient, timeouts, calls, history + [Answer(r)])
    ensures r.session in pending ==>
      var p := pending[r.session];
      && (p.position.Some? ==> p.position.value in timeouts)
      && Represents(next, pending - {r.session}, WithoutSession(byClient, p.client, r.session),
                    if p.position.Some? then Erase(timeouts, p.position.value) else timeouts,
                    calls + [AnswerCall(WaitingOf(p), r)], history + [Answer(r)])
  {
    RunAppend(history, Answer(r));
    if r.session in pending {
      AgreeUnregister(pending, byClient, timeouts, r.session);
    }
  }

  lemma ForgetFacts(pending: map<nat, Pending>, byClient: map<nat, set<nat>>, timeouts: seq<Timeout>, client: nat)
    requires Agree(pending, byClient, timeouts)
    ensures Ordered(timeouts)
    ensures forall t :: t in timeouts <==> t.session in pending && pending[t.session].position == Some(t)
    ensures client in byClient ==> forall s :: s in byClient[client] <==> s in pending && pending[s].client == client
    ensures client !in byClient ==> forall s :: s in pending ==> pending[s].client != client
  {
  }

  lemma ForgetNothing(next: nat, pending: map<nat, Pending>, byClient: map<nat, set<nat>>, timeouts: seq<Timeout>,
                      calls: seq<Call>, history: seq<Event>, client: nat)
    requires Represents(next, pending, byClient, timeouts, calls, history) && client !in byClient
    ensures Represents(next, pending, byClient, timeouts, calls, history + [Destroy(client)])
  {
    RunAppend(history, Destroy(client));
    assert OfClient(WaitingMap(pending), client) == {};
    assert WaitingMap(pending) - {} == WaitingMap(pending);
  }

  lemma ForgetKeeps(next: nat, pending: map<nat, Pending>, byClient: map<nat, set<nat>>, timeouts: seq<Timeout>,
                    calls: seq<Call>, history: seq<Event>, client: nat,
                    pending': map<nat, Pending>, timeouts': seq<Timeout>)
    requires Represents(next, pending, byClient, timeouts, calls, history) && client in byClient
    requires pending' == pending - byClient[client]
    requires Ordered(timeouts') && forall t :: t in timeouts' <==> t in timeouts && t.session in pending'
    ensures Represents(next, pending', byClient - {client}, timeouts', calls, history + [Destroy(client)])
  {
    RunAppend(history, Destroy(client));
    AgreeForget(pending, byClient, timeouts, client, pending', timeouts');
  }

  lemma ListedSessionsWait(pending: map<nat, Pending>, byClient: map<nat, set<nat>>, timeouts: seq<Timeout>)
    requires Agree(pending, byClient, timeouts)
    ensures forall t :: t in timeouts ==> t.session in WaitingMap(pending)
  {
  }

  /** The timer's walk after `k` entries of `list`: what is left, and what has been called. */
  ghost predicate Passed(list: seq<Timeout>, k: nat, now: int, waiting: map<nat, Waiting>, calls: seq<Call>,
                         waiting': map<nat, Waiting>, rest: seq<Timeout>, calls': seq<Call>) {
    && k <= |list| && rest == list[k..]
    && (forall i :: 0 <= i < k ==> list[i].deadline <= now)
    && (forall t :: t in list ==> t.session in waiting)
    && waiting' == waiting - SessionsOf(list[..k])
    && calls' == calls + TimeoutCalls(list[..k], waiting)
  }

  lemma PassedNext(list: seq<Timeout>, k: nat, now: int, waiting: map<nat, Waiting>, calls: seq<Call>,
                   waiting': map<nat, Waiting>, rest: seq<Timeout>, calls': seq<Call>)
    requires Passed(list, k, now, waiting, calls, waiting', rest, calls')
    requires rest != [] && rest[0].deadline <= now
    ensures rest[0].session in waiting' ==>
      Passed(list, k + 1, now, waiting, calls, waiting' - {rest[0].session}, rest[1..],
             calls' + [TimeoutCall(rest[0].session, waiting'[rest[0].session])])
  {
    assert list[..k + 1] == list[..k] + [list[k]];
    TimeoutCallsAppend(list[..k], list[k], waiting);
  }

  lemma TimerKeeps(pending: map<nat, Pending>, byClient: map<nat, set<nat>>, timeouts: seq<Timeout>, k: nat,
                   history: seq<Event>, now: int)
    requires Agree(pending, byClient, timeouts) && Run(INITIAL, history).waiting == WaitingMap(pending)
    requires k <= |timeouts| && forall i :: 0 <= i < k ==> timeouts[i].deadline <= now
    requires k < |timeouts| ==> timeouts[k].deadline > now
    ensures forall t :: t in timeouts[..k] ==> t.session in WaitingMap(pending)
    ensures Run(INITIAL, history + [Timer(now)]) ==
      var st := Run(INITIAL, history);
      st.(waiting := st.waiting - SessionsOf(timeouts[..k]),
          calls := st.calls + TimeoutCalls(timeouts[..k], st.waiting))
  {
    RunAppend(history, Timer(now));
    assert timeouts == Schedule(WaitingMap(pending)) by { ScheduleUnique(timeouts, Schedule(WaitingMap(pending))); }
    assert Due(timeouts, now) == timeouts[..k] by { DuePrefix(timeouts, k, now); }
    assert forall t :: t in timeouts[..k] ==> t in timeouts;
    hide IsSchedule, Ordered, Due, Agree, TimeoutCalls;
  }

  lemma FrontSession(pending: map<nat, Pending>, byClient: map<nat, set<nat>>, timeouts: seq<Timeout>)
    requires Agree(pending, byClient, timeouts) && timeouts != []
    ensures timeouts[0].session in pending && pending[timeouts[0].session].position == Some(timeouts[0])
    ensures Erase(timeouts, timeouts[0]) == timeouts[1..]
  {
    assert timeouts[0] in timeouts;
  }

  lemma LaterDeadlines(list: seq<Timeout>, now: int)
    requires Ordered(list) && (list != [] ==> list[0].deadline > now)
    ensures forall t :: t in list ==> t.deadline > now
  {
    forall i | 0 <= i < |list| ensures list[i].deadline > now {
      assert i > 0 ==> Before(list[0], list[i]);
    }
  }
}
