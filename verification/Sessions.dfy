/** The protocol of client sessions, seen from outside: which sessions wait for an answer, which
    callbacks were made, and the history they are measured against. The deadline list and the
    per-client index of the tracker are not part of this state; they are derived from it. */
module Sessions {
  import opened Wrappers

  const RC_TIME_OUT: nat := 1
  const RC_PROTO_ERROR: nat := 2

  /** A session waiting for its answer. `deadline` is missing for a nop, which never times out. */
  datatype Waiting = Waiting(client: nat, callback: nat, context: nat, deadline: Option<int>)

  /** A response message; `content` is missing when its type is unknown or it does not parse. */
  datatype Response = Response(session: nat, code: nat, content: Option<string>)

  /** One invocation of a caller's function. */
  datatype Call = Call(session: nat, callback: nat, code: nat, content: Option<string>, context: nat, byTimer: bool)

  /** `issued` and `cancelled` are history: every session ever issued, and those whose client went away. */
  datatype State = State(next: nat, waiting: map<nat, Waiting>, calls: seq<Call>,
                         issued: map<nat, Waiting>, cancelled: set<nat>)

  const INITIAL := State(1, map[], [], map[], {})

  datatype Event =
    | Issue(info: Waiting)
    | Answer(response: Response)
    | Timer(now: int)
    | Destroy(client: nat)

  // ---- The deadline order ----

  datatype Timeout = Timeout(session: nat, deadline: int)

  predicate Before(a: Timeout, b: Timeout) {
    a.deadline < b.deadline || (a.deadline == b.deadline && a.session > b.session)
  }

  ghost predicate Ordered(list: seq<Timeout>) {
    forall i, j :: 0 <= i < j < |list| ==> Before(list[i], list[j])
  }

  ghost predicate Timed(waiting: map<nat, Waiting>, t: Timeout) {
    t.session in waiting && waiting[t.session].deadline == Some(t.deadline)
  }

  /** `list` is the timed sessions of `waiting`, by deadline and then latest session first. */
  ghost predicate IsSchedule(list: seq<Timeout>, waiting: map<nat, Waiting>) {
    && Ordered(list)
    && forall t :: t in list <==> Timed(waiting, t)
  }

  lemma {:induction false} ScheduleUnique(a: seq<Timeout>, b: seq<Timeout>)
    requires Ordered(a) && Ordered(b) && forall t :: t in a <==> t in b
    ensures a == b
  {
    if a == [] {
      HeadIn(b);
    } else {
      assert a[0] in b && b[0] in a;
      assert a[0] == b[0];
      forall t ensures t in a[1..] <==> t in b[1..] {
        OrderedTail(a, t);
        OrderedTail(b, t);
      }
      ScheduleUnique(a[1..], b[1..]);
    }
  }

  lemma HeadIn(a: seq<Timeout>)
    ensures a != [] ==> a[0] in a
  {
  }

  lemma OrderedTail(a: seq<Timeout>, t: Timeout)
    requires Ordered(a) && a != []
    ensures t in a[1..] <==> t in a && t != a[0]
  {
    assert a == [a[0]] + a[1..];
  }

  /** Where `t` goes: in front of the first entry that it precedes. */
  ghost function Placed(list: seq<Timeout>, t: Timeout): seq<Timeout> {
    if list == [] || Before(t, list[0]) then [t] + list else [list[0]] + Placed(list[1..], t)
  }

  lemma {:induction false} PlacedOrdered(list: seq<Timeout>, t: Timeout)
    requires Ordered(list) && forall x :: x in list ==> x.session != t.session
    ensures Ordered(Placed(list, t))
    ensures forall x :: x in Placed(list, t) <==> x == t || x in list
  {
    if list != [] && !Before(t, list[0]) {
      PlacedOrdered(list[1..], t);
      assert list == [list[0]] + list[1..];
      assert Before(list[0], t) by { assert list[0] in list; }
      var rest := Placed(list[1..], t);
      forall j | 0 <= j < |rest| ensures Before(list[0], rest[j]) {
        assert rest[j] in rest;
      }
    }
  }

  ghost function Schedule(waiting: map<nat, Waiting>): (list: seq<Timeout>)
    ensures IsSchedule(list, waiting)
    decreases |waiting|
  {
    if waiting == map[] then []
    else
      var s :| s in waiting;
      var rest := Schedule(waiting - {s});
      match waiting[s].deadline
      case None => rest
      case Some(d) => PlacedOrdered(rest, Timeout(s, d)); Placed(rest, Timeout(s, d))
  }

  // ---- Steps ----

  function Due(list: seq<Timeout>, now: int): seq<Timeout> {
    if list == [] then []
    else (if list[0].deadline <= now then [list[0]] else []) + Due(list[1..], now)
  }

  function SessionsOf(list: seq<Timeout>): set<nat> {
    set t | t in list :: t.session
  }

  function TimeoutCall(session: nat, info: Waiting): Call {
    Call(session, info.callback, RC_TIME_OUT, None, info.context, true)
  }

  function AnswerCall(info: Waiting, r: Response): Call {
    match r.content
    case None => Call(r.session, info.callback, RC_PROTO_ERROR, None, info.context, false)
    case Some(_) => Call(r.session, info.callback, r.code, r.content, info.context, false)
  }

  function TimeoutCalls(list: seq<Timeout>, waiting: map<nat, Waiting>): (calls: seq<Call>)
    requires forall t :: t in list ==> t.session in waiting
    ensures |calls| == |list|
    ensures forall i :: 0 <= i < |list| ==> calls[i] == TimeoutCall(list[i].session, waiting[list[i].session])
  {
    if list == [] then []
    else [TimeoutCall(list[0].session, waiting[list[0].session])] + TimeoutCalls(list[1..], waiting)
  }

  function OfClient(waiting: map<nat, Waiting>, client: nat): set<nat> {
    set s | s in waiting && waiting[s].client == client
  }

  lemma {:induction false} DueExactly(list: seq<Timeout>, now: int)
    ensures forall t :: t in Due(list, now) <==> t in list && t.deadline <= now
    ensures Ordered(list) ==> Ordered(Due(list, now))
  {
    if list != [] {
      DueExactly(list[1..], now);
      assert list == [list[0]] + list[1..];
      if Ordered(list) {
        forall t | t in Due(list[1..], now) ensures Before(list[0], t) {
          assert t in list[1..];
        }
      }
    }
  }

  ghost function Step(st: State, e: Event): State {
    match e
    case Issue(info) =>
      st.(next := st.next + 1, waiting := st.waiting[st.next := info], issued := st.issued[st.next := info])
    case Answer(r) =>
      if r.session !in st.waiting then st
      else st.(waiting := st.waiting - {r.session}, calls := st.calls + [AnswerCall(st.waiting[r.session], r)])
    case Timer(now) =>
      var due := Due(Schedule(st.waiting), now);
      DueExactly(Schedule(st.waiting), now);
      st.(waiting := st.waiting - SessionsOf(due), calls := st.calls + TimeoutCalls(due, st.waiting))
    case Destroy(client) =>
      var gone := OfClient(st.waiting, client);
      st.(waiting := st.waiting - gone, cancelled := st.cancelled + gone)
  }

  ghost function Run(st: State, events: seq<Event>): State {
    if events == [] then st else Step(Run(st, events[..|events| - 1]), events[|events| - 1])
  }

  // ---- What every run keeps ----

  ghost predicate Called(st: State, session: nat) {
    exists i :: 0 <= i < |st.calls| && st.calls[i].session == session
  }

  /** The sessions issued so far are the waiting, the called and the cancelled ones, without overlap;
      each call is for an issued session, is the only one for it, and carries what it was issued with. */
  ghost predicate Conserved(st: State) {
    && st.next >= 1
    && (forall s :: s in st.issued <==> 1 <= s < st.next)
    && (forall s :: s in st.waiting ==> s in st.issued && st.waiting[s] == st.issued[s])
    && (forall s :: s in st.issued <==> s in st.waiting || Called(st, s) || s in st.cancelled)
    && (forall s :: s in st.waiting ==> !Called(st, s) && s !in st.cancelled)
    && (forall s :: s in st.cancelled ==> !Called(st, s))
    && (forall i, j :: 0 <= i < j < |st.calls| ==> st.calls[i].session != st.calls[j].session)
    && (forall i :: 0 <= i < |st.calls| ==>
          var c := st.calls[i];
          && c.session in st.issued
          && c.context == st.issued[c.session].context && c.callback == st.issued[c.session].callback
          && (c.byTimer ==> c.code == RC_TIME_OUT && st.issued[c.session].deadline.Some?))
  }

  lemma DueCalls(st: State, now: int)
    ensures var due := Due(Schedule(st.waiting), now);
      && (forall t :: t in due <==> Timed(st.waiting, t) && t.deadline <= now)
      && Ordered(due)
      && (forall t :: t in due ==> t.session in SessionsOf(due))
      && (forall s :: s in SessionsOf(due) <==> (TimedSession(st.waiting, s) && DeadlineOf(st.waiting, s) <= now))
  {
    var list := Schedule(st.waiting);
    DueExactly(list, now);
    var due := Due(list, now);
    forall s | TimedSession(st.waiting, s) && DeadlineOf(st.waiting, s) <= now
      ensures s in SessionsOf(due)
    {
      assert Timeout(s, DeadlineOf(st.waiting, s)) in due;
    }
  }

  ghost predicate TimedSession(waiting: map<nat, Waiting>, s: nat) {
    s in waiting && waiting[s].deadline.Some?
  }

  ghost function DeadlineOf(waiting: map<nat, Waiting>, s: nat): int {
    if TimedSession(waiting, s) then waiting[s].deadline.value else 0
  }

  lemma StepConserves(st: State, e: Event)
    requires Conserved(st)
    ensures Conserved(Step(st, e))
  {
    match e
    case Issue(info) =>
      forall s ensures Called(Step(st, e), s) <==> Called(st, s) {}
    case Answer(r) =>
      if r.session in st.waiting {
        var made := [AnswerCall(st.waiting[r.session], r)];
        assert made[0].session == r.session;
        CallsConserve(st, {r.session}, made);
      }
    case Timer(now) =>
      TimerCalls(st, now);
      var due := Due(Schedule(st.waiting), now);
      CallsConserve(st, SessionsOf(due), TimeoutCalls(due, st.waiting));
    case Destroy(client) =>
      forall s ensures Called(Step(st, e), s) <==> Called(st, s) {}
  }

  /** One call for each of some waiting sessions, which then wait no more. */
  ghost predicate CallsFor(st: State, gone: set<nat>, made: seq<Call>) {
    && gone <= st.waiting.Keys
    && (forall s :: s in gone <==> exists i :: 0 <= i < |made| && made[i].session == s)
    && (forall i, j :: 0 <= i < j < |made| ==> made[i].session != made[j].session)
    && (forall i :: 0 <= i < |made| ==>
          var c := made[i];
          && c.session in st.waiting
          && c.context == st.waiting[c.session].context && c.callback == st.waiting[c.session].callback
          && (c.byTimer ==> c.code == RC_TIME_OUT && st.waiting[c.session].deadline.Some?))
  }

  lemma CallsConserve(st: State, gone: set<nat>, made: seq<Call>)
    requires Conserved(st) && CallsFor(st, gone, made)
    ensures Conserved(st.(waiting := st.waiting - gone, calls := st.calls + made))
  {
    var st' := st.(waiting := st.waiting - gone, calls := st.calls + made);
    OneMoreCall(st, st', made);
    forall i, j | 0 <= i < j < |st'.calls| ensures st'.calls[i].session != st'.calls[j].session {
      if i < |st.calls| <= j {
        assert made[j - |st.calls|].session in st.waiting;
        assert Called(st, st.calls[i].session);
      } else if |st.calls| <= i {
        assert made[i - |st.calls|].session != made[j - |st.calls|].session;
      }
    }
  }

  lemma TimerCalls(st: State, now: int)
    ensures var due := Due(Schedule(st.waiting), now);
      (forall t :: t in due ==> t.session in st.waiting)
      && CallsFor(st, SessionsOf(due), TimeoutCalls(due, st.waiting))
  {
    DueCalls(st, now);
    hide Schedule, Due, CallsFor;
    DueCallsFor(st, Due(Schedule(st.waiting), now));
  }

  /** One time-out call for each entry of a list of waiting sessions. */
  lemma DueCallsFor(st: State, due: seq<Timeout>)
    requires Ordered(due) && forall t :: t in due ==> Timed(st.waiting, t)
    ensures forall t :: t in due ==> t.session in st.waiting
    ensures CallsFor(st, SessionsOf(due), TimeoutCalls(due, st.waiting))
  {
    hide TimeoutCalls;
    var made := TimeoutCalls(due, st.waiting);
    forall i | 0 <= i < |made| ensures made[i].session == due[i].session && due[i] in due {}
    forall s | s in SessionsOf(due) ensures exists i :: 0 <= i < |made| && made[i].session == s {
      var t :| t in due && t.session == s;
      var i :| 0 <= i < |due| && due[i] == t;
      assert made[i].session == s;
    }
    DistinctSessions(st.waiting, due);
  }

  lemma DistinctSessions(waiting: map<nat, Waiting>, due: seq<Timeout>)
    requires Ordered(due) && forall t :: t in due ==> Timed(waiting, t)
    ensures forall i, j :: 0 <= i < j < |due| ==> due[i].session != due[j].session
  {
    forall i, j | 0 <= i < j < |due| ensures due[i].session != due[j].session {
      assert Before(due[i], due[j]) && Timed(waiting, due[i]) && Timed(waiting, due[j]);
    }
  }

  lemma OneMoreCall(st: State, st': State, made: seq<Call>)
    requires st'.calls == st.calls + made
    ensures forall s :: Called(st', s) <==> Called(st, s) || exists i :: 0 <= i < |made| && made[i].session == s
  {
    forall s | exists i :: 0 <= i < |made| && made[i].session == s ensures Called(st', s) {
      var i :| 0 <= i < |made| && made[i].session == s;
      assert st'.calls[|st.calls| + i].session == s;
    }
    forall s | Called(st, s) ensures Called(st', s) {
      var i :| 0 <= i < |st.calls| && st.calls[i].session == s;
      assert st'.calls[i].session == s;
    }
    forall s | Called(st', s) ensures Called(st, s) || exists i :: 0 <= i < |made| && made[i].session == s {
      var k :| 0 <= k < |st'.calls| && st'.calls[k].session == s;
      if k < |st.calls| {
        assert st.calls[k].session == s;
      } else {
        assert made[k - |st.calls|].session == s;
      }
    }
  }

  /** Every run conserves sessions. */
  lemma {:induction false} RunConserves(events: seq<Event>)
    ensures Conserved(Run(INITIAL, events))
  {
    if events != [] {
      RunConserves(events[..|events| - 1]);
      StepConserves(Run(INITIAL, events[..|events| - 1]), events[|events| - 1]);
    }
  }

  ghost predicate Finished(st: State, s: nat) {
    Called(st, s) || s in st.cancelled
  }

  /** History only grows: nothing that happened to a session is undone by a later event. */
  lemma {:induction false} HistoryGrows(events: seq<Event>, more: seq<Event>)
    ensures var st, st' := Run(INITIAL, events), Run(INITIAL, events + more);
      && st.calls <= st'.calls && st.cancelled <= st'.cancelled && st.next <= st'.next
      && (forall s :: s in st.issued ==> s in st'.issued && st'.issued[s] == st.issued[s])
  {
    if more == [] {
      assert events + more == events;
    } else {
      var before := more[..|more| - 1];
      HistoryGrows(events, before);
      RunConserves(events + before);
      assert (events + more)[..|events + more| - 1] == events + before;
      assert (events + more)[|events + more| - 1] == more[|more| - 1];
    }
  }

  /** A session that was answered, timed out or cancelled is never called back again, whatever follows;
      in particular a cancelled session is never called back at all. */
  lemma NeverCalledAgain(events: seq<Event>, more: seq<Event>, s: nat)
    requires Finished(Run(INITIAL, events), s)
    ensures var st, st' := Run(INITIAL, events), Run(INITIAL, events + more);
      && s !in st'.waiting
      && (forall i :: |st.calls| <= i < |st'.calls| ==> st'.calls[i].session != s)
      && (s in st.cancelled ==> !Called(st', s))
  {
    RunConserves(events);
    RunConserves(events + more);
    HistoryGrows(events, more);
    var st, st' := Run(INITIAL, events), Run(INITIAL, events + more);
    if Called(st, s) {
      var i :| 0 <= i < |st.calls| && st.calls[i].session == s;
      assert st'.calls[i].session == s;
    }
  }

  /** A late or duplicate answer, an answer to a session never issued, and an answer to session 0
      change nothing. */
  lemma StrayAnswerIgnored(events: seq<Event>, r: Response)
    requires var st := Run(INITIAL, events); Finished(st, r.session) || r.session !in st.issued || r.session == 0
    ensures Step(Run(INITIAL, events), Answer(r)) == Run(INITIAL, events)
  {
    RunConserves(events);
  }

  /** The timer ends exactly the timed sessions whose deadline has come: every other session keeps
      waiting unchanged, and whatever still has a deadline has a later one. */
  lemma TimerIsExact(st: State, now: int)
    ensures var st' := Step(st, Timer(now));
      && (forall s :: s in st'.waiting <==>
            s in st.waiting && (st.waiting[s].deadline == None || st.waiting[s].deadline.value > now))
      && (forall s :: s in st'.waiting ==> st'.waiting[s] == st.waiting[s])
      && st'.issued == st.issued && st'.cancelled == st.cancelled && st'.next == st.next
  {
    DueCalls(st, now);
  }

  /** The calls it makes are one time-out for each of those sessions, in nondecreasing order of deadline. */
  lemma TimerCallsInOrder(st: State, now: int)
    ensures var st' := Step(st, Timer(now));
      && st.calls <= st'.calls
      && (var made := st'.calls[|st.calls|..];
          && CallsFor(st, st.waiting.Keys - st'.waiting.Keys, made)
          && (forall i :: 0 <= i < |made| ==> made[i].byTimer)
          && (forall i, j :: 0 <= i < j < |made| ==>
                DeadlineOf(st.waiting, made[i].session) <= DeadlineOf(st.waiting, made[j].session)))
  {
    DueCalls(st, now);
    TimerCalls(st, now);
    var due := Due(Schedule(st.waiting), now);
    var made := TimeoutCalls(due, st.waiting);
    assert Step(st, Timer(now)).calls[|st.calls|..] == made;
    assert st.waiting.Keys - Step(st, Timer(now)).waiting.Keys == SessionsOf(due);
    forall i | 0 <= i < |made| ensures DeadlineOf(st.waiting, made[i].session) == due[i].deadline {
      assert due[i] in due;
    }
  }

  // ---- What every event does ----

  /** A session that is issued waits with what it was issued with; nothing else changes, and nobody is called. */
  lemma IssueIsExact(st: State, info: Waiting)
    requires Conserved(st)
    ensures var st' := Step(st, Issue(info));
      && st'.next == st.next + 1 && st.next in st'.waiting && st'.waiting[st.next] == info
      && (forall s :: s in st'.waiting && s != st.next ==> s in st.waiting && st'.waiting[s] == st.waiting[s])
      && (forall s :: s in st.waiting ==> s in st'.waiting)
      && st'.calls == st.calls && st'.cancelled == st.cancelled
  {
  }

  /** An answer to a waiting session calls that session's function once: with the answer's code and content, or
      with a protocol error when the content is of an unknown type or does not parse. The session waits no more. */
  lemma AnswerIsExact(st: State, r: Response)
    requires r.session in st.waiting
    ensures var st', info := Step(st, Answer(r)), st.waiting[r.session];
      && |st'.calls| == |st.calls| + 1 && st'.calls[..|st.calls|] == st.calls
      && (var made := st'.calls[|st.calls|];
          && made.session == r.session && made.callback == info.callback && made.context == info.context
          && !made.byTimer
          && (r.content.Some? ==> made.code == r.code && made.content == r.content)
          && (r.content.None? ==> made.code == 2 && made.content == None))
      && (forall s :: s in st'.waiting <==> s in st.waiting && s != r.session)
      && (forall s :: s in st'.waiting ==> st'.waiting[s] == st.waiting[s])
      && st'.next == st.next && st'.issued == st.issued && st'.cancelled == st.cancelled
  {
  }

  /** Destroying a client cancels its sessions without a call and leaves those of others. */
  lemma DestroyIsExact(st: State, client: nat)
    ensures var st' := Step(st, Destroy(client));
      && (forall s :: s in st'.waiting <==> s in st.waiting && st.waiting[s].client != client)
      && (forall s :: s in st'.waiting ==> st'.waiting[s] == st.waiting[s])
      && (forall s :: s in st'.cancelled <==> s in st.cancelled || (s in st.waiting && st.waiting[s].client == client))
      && st'.calls == st.calls && st'.issued == st.issued && st'.next == st.next
  {
  }

  /** What was issued, in order. */
  function IssuedBy(events: seq<Event>): seq<Waiting> {
    if events == [] then []
    else
      var last := events[|events| - 1];
      IssuedBy(events[..|events| - 1]) + if last.Issue? then [last.info] else []
  }

  /** A call that the timer did not make was made by an answer to the session, with its code and content. */
  ghost predicate FromAnswer(c: Call, e: Event) {
    && e.Answer? && e.response.session == c.session
    && c.code == (if e.response.content.Some? then e.response.code else 2)
    && c.content == e.response.content
  }

  /** One that the timer made carries the time-out code and no content, and its deadline had come. */
  ghost predicate FromTimer(c: Call, info: Waiting, e: Event) {
    e.Timer? && c.code == 1 && c.content == None && info.deadline.Some? && info.deadline.value <= e.now
  }

  /** Sessions are numbered from 1 in the order in which they are issued. Every call was made by an answer or by
      the timer, and every cancelled session is one whose client was destroyed. */
  ghost predicate Accounted(st: State, events: seq<Event>) {
    && st.next == |IssuedBy(events)| + 1
    && (forall s :: s in st.issued <==> 1 <= s < st.next)
    && (forall s :: s in st.issued ==> st.issued[s] == IssuedBy(events)[s - 1])
    && (forall c :: c in st.calls ==> c.session in st.issued && CallAccounted(c, st.issued[c.session], events))
    && (forall s :: s in st.cancelled ==> s in st.issued && Destroy(st.issued[s].client) in events)
  }

  ghost predicate CallAccounted(c: Call, info: Waiting, events: seq<Event>) {
    exists e :: e in events && if c.byTimer then FromTimer(c, info, e) else FromAnswer(c, e)
  }

  lemma {:induction false} RunAccounted(events: seq<Event>)
    ensures Accounted(Run(INITIAL, events), events)
  {
    if events != [] {
      var front, e := events[..|events| - 1], events[|events| - 1];
      assert events == front + [e];
      RunAccounted(front);
      RunConserves(front);
      StepAccounted(Run(INITIAL, front), front, e);
    }
  }

  lemma StepAccounted(st: State, front: seq<Event>, e: Event)
    requires Accounted(st, front) && Conserved(st)
    ensures Accounted(Step(st, e), front + [e])
  {
    hide Conserved, IssuedBy, CallAccounted;
    var st', events := Step(st, e), front + [e];
    assert events[..|events| - 1] == front;
    IssuedNext(front, e);
    StepIssues(st, e);
    forall c | c in st'.calls
      ensures c.session in st'.issued && CallAccounted(c, st'.issued[c.session], events)
    {
      if c in st.calls {
        MoreAccounted(c, st.issued[c.session], front, e);
      } else {
        NewCallAccounted(st, front, e, c);
      }
    }
    StepCancels(st, e);
    assert forall x :: x in front ==> x in events;
    assert e in events;
  }

  lemma IssuedNext(front: seq<Event>, e: Event)
    ensures IssuedBy(front + [e]) == IssuedBy(front) + if e.Issue? then [e.info] else []
  {
    assert (front + [e])[..|front|] == front;
  }

  lemma StepIssues(st: State, e: Event)
    ensures var st' := Step(st, e);
      && st'.next == st.next + (if e.Issue? then 1 else 0)
      && st'.issued == if e.Issue? then st.issued[st.next := e.info] else st.issued
  {
  }

  lemma StepCancels(st: State, e: Event)
    requires Conserved(st)
    ensures forall s :: s in Step(st, e).cancelled && s !in st.cancelled ==>
      s in st.issued && e == Destroy(st.issued[s].client)
  {
  }

  lemma MoreAccounted(c: Call, info: Waiting, front: seq<Event>, e: Event)
    requires CallAccounted(c, info, front)
    ensures CallAccounted(c, info, front + [e])
  {
    hide FromTimer, FromAnswer;
    var x :| x in front && if c.byTimer then FromTimer(c, info, x) else FromAnswer(c, x);
    assert x in front + [e];
  }

  lemma NewCallAccounted(st: State, front: seq<Event>, e: Event, c: Call)
    requires Conserved(st) && c in Step(st, e).calls && c !in st.calls
    ensures c.session in Step(st, e).issued && CallAccounted(c, Step(st, e).issued[c.session], front + [e])
  {
    assert e in front + [e];
    match e
    case Answer(r) =>
      assert FromAnswer(c, e);
    case Timer(now) =>
      DueCalls(st, now);
      var due := Due(Schedule(st.waiting), now);
      var made := TimeoutCalls(due, st.waiting);
      var i :| 0 <= i < |made| && made[i] == c;
      assert due[i] in due;
      assert FromTimer(c, st.issued[c.session], e);
  }

  /** Destroying a client reaches the list position that a nop session stores, which is the end of the
      list and must not be erased. */
  ghost predicate DestroyDefined(st: State, client: nat) {
    forall s :: s in st.waiting && st.waiting[s].client == client ==> st.waiting[s].deadline.Some?
  }

  /** So a client may be destroyed exactly when every nop it ever issued is finished. */
  lemma DestroyDefinedExactly(events: seq<Event>, client: nat)
    ensures var st := Run(INITIAL, events);
      DestroyDefined(st, client) <==>
        forall s :: s in st.issued && st.issued[s].client == client && st.issued[s].deadline == None ==> Finished(st, s)
  {
    RunConserves(events);
  }

  /** After any run, destroying a client right after it issued a nop is not defined. */
  lemma PendingNopBlocks(events: seq<Event>, client: nat, callback: nat, context: nat)
    ensures !DestroyDefined(Run(INITIAL, events + [Issue(Waiting(client, callback, context, None))]), client)
  {
    var all := events + [Issue(Waiting(client, callback, context, None))];
    assert all[..|all| - 1] == events;
    assert Run(INITIAL, events).next in Run(INITIAL, all).waiting;
  }
}
