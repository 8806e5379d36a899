/** Server-sent-event sessions as a protocol: `HandleSSE` owns a session and writes what is in its channel,
    any number of `HandleMessage` goroutines look the session up and send their response into the channel. */
module Sse {
  const CAPACITY := 64

  type Id = string

  /** A response on its way: which handler made it, and its text. */
  datatype Message = Message(handler: nat, body: string)

  /** How far the deferred part of `HandleSSE` has come. */
  datatype Phase = Streaming | Leaving | Removed | Cancelled | Closed

  /** `queue` is the buffered channel, `written` what has gone to the stream, `drained` what was thrown away
      after closing; `accepted` remembers the sends that succeeded, in their order. */
  datatype Session = Session(phase: Phase, done: bool, queue: seq<Message>, written: seq<Message>,
                             drained: seq<Message>, accepted: seq<Message>)

  /** How `HandleMessage` ends: 202 without a response, 400 or 500 before there is one, 202 with the response
      in the channel, 410, 202 with the response dropped after 200 ms, or a send on a closed channel. */
  datatype Outcome = NoResponse | BadMessage | Sent(body: string) | Gone | DroppedWith202 | Panicked

  datatype Handler =
    | NotFound
    | Handling(session: Id)
    | Sending(session: Id, body: string)
    | Finished(session: Id, outcome: Outcome)
  {
    predicate InFlight() { Handling? || Sending? }
  }

  /** `table` is the sync.Map of live sessions; `sessions` holds every session there ever was. */
  datatype State = State(table: set<Id>, sessions: map<Id, Session>, handlers: map<nat, Handler>)

  datatype Step =
    | Connect(id: Id)      // a fresh uuid
    | Disconnect(id: Id)   // the request context ends, and the session's with it
    | Write(id: Id)
    | Leave(id: Id)        // the select picks ctx.Done
    | Remove(id: Id)
    | Cancel(id: Id)
    | CloseChannel(id: Id)
    | Drain(id: Id)
    | Lookup(handler: nat, id: Id)
    | Respond(handler: nat, body: string)
    | Finish(handler: nat, bad: bool)
    | Send(handler: nat)
    | GiveUp(handler: nat) // the select picks ctx.Done
    | Timeout(handler: nat)

  const INIT := State({}, map[], map[])

  predicate InPhase(s: State, id: Id, phase: Phase) {
    id in s.sessions && s.sessions[id].phase == phase
  }

  predicate IsSending(s: State, h: nat) {
    h in s.handlers && s.handlers[h].Sending? && s.handlers[h].session in s.sessions
  }

  /** The timer is all that the select can still wait for: no room, not closed, and the context goes on. */
  predicate Full(x: Session) {
    |x.queue| == CAPACITY && !x.phase.Closed? && !x.done
  }

  predicate Enabled(s: State, e: Step) {
    match e
    case Connect(id) => id !in s.sessions
    case Disconnect(id) => id in s.sessions
    case Write(id) => InPhase(s, id, Streaming) && s.sessions[id].queue != []
    case Leave(id) => InPhase(s, id, Streaming) && s.sessions[id].done
    case Remove(id) => InPhase(s, id, Leaving)
    case Cancel(id) => InPhase(s, id, Removed)
    case CloseChannel(id) => InPhase(s, id, Cancelled)
    case Drain(id) => InPhase(s, id, Closed) && s.sessions[id].queue != []
    case Lookup(h, _) => h !in s.handlers
    case Respond(h, _) => h in s.handlers && s.handlers[h].Handling?
    case Finish(h, _) => h in s.handlers && s.handlers[h].Handling?
    case Send(h) => IsSending(s, h) &&
      (s.sessions[s.handlers[h].session].phase.Closed? || |s.sessions[s.handlers[h].session].queue| < CAPACITY)
    case GiveUp(h) => IsSending(s, h) && s.sessions[s.handlers[h].session].done
    case Timeout(h) => IsSending(s, h) && Full(s.sessions[s.handlers[h].session])
  }

  function WithSession(s: State, id: Id, x: Session): State {
    s.(sessions := s.sessions[id := x])
  }

  function WithHandler(s: State, h: nat, x: Handler): State {
    s.(handlers := s.handlers[h := x])
  }

  function Accept(x: Session, m: Message): Session {
    x.(queue := x.queue + [m], accepted := x.accepted + [m])
  }

  function Next(s: State, e: Step): State
    requires Enabled(s, e)
  {
    match e
    case Connect(id) => WithSession(s.(table := s.table + {id}), id, Session(Streaming, false, [], [], [], []))
    case Disconnect(id) => WithSession(s, id, s.sessions[id].(done := true))
    case Write(id) =>
      var x := s.sessions[id];
      WithSession(s, id, x.(queue := x.queue[1..], written := x.written + [x.queue[0]]))
    case Leave(id) => WithSession(s, id, s.sessions[id].(phase := Leaving))
    case Remove(id) => WithSession(s.(table := s.table - {id}), id, s.sessions[id].(phase := Removed))
    case Cancel(id) => WithSession(s, id, s.sessions[id].(phase := Cancelled, done := true))
    case CloseChannel(id) => WithSession(s, id, s.sessions[id].(phase := Closed))
    case Drain(id) =>
      var x := s.sessions[id];
      WithSession(s, id, x.(queue := x.queue[1..], drained := x.drained + [x.queue[0]]))
    case Lookup(h, id) => WithHandler(s, h, if id in s.table then Handling(id) else NotFound)
    case Respond(h, body) => WithHandler(s, h, Sending(s.handlers[h].session, body))
    case Finish(h, bad) => WithHandler(s, h, Finished(s.handlers[h].session, if bad then BadMessage else NoResponse))
    case Send(h) =>
      var id, body := s.handlers[h].session, s.handlers[h].body;
      if s.sessions[id].phase.Closed? then WithHandler(s, h, Finished(id, Panicked))
      else WithHandler(WithSession(s, id, Accept(s.sessions[id], Message(h, body))), h, Finished(id, Sent(body)))
    case GiveUp(h) => WithHandler(s, h, Finished(s.handlers[h].session, Gone))
    case Timeout(h) => WithHandler(s, h, Finished(s.handlers[h].session, DroppedWith202))
  }

  // ----- the invariant -----

  /** The session table, the bound on the channel, and where accepted messages are. */
  predicate SessionOk(x: Session, listed: bool) {
    && (listed <==> x.phase.Streaming? || x.phase.Leaving?)
    && (!x.phase.Streaming? ==> x.done)
    && (!x.phase.Closed? ==> x.drained == [])
    && |x.queue| <= CAPACITY
    && x.accepted == x.written + x.drained + x.queue
  }

  /** An accepted message is there once, and its handler knows. */
  predicate AcceptedOk(s: State, id: Id, accepted: seq<Message>) {
    && (forall i :: 0 <= i < |accepted| ==> WasSent(s, id, accepted[i]))
    && (forall i, j :: 0 <= i < j < |accepted| ==> accepted[i] != accepted[j])
  }

  predicate WasSent(s: State, id: Id, m: Message) {
    m.handler in s.handlers && s.handlers[m.handler] == Finished(id, Sent(m.body))
  }

  predicate HandlerOk(s: State, h: nat, x: Handler) {
    && (!x.NotFound? ==> x.session in s.sessions)
    && (x.Finished? && x.outcome.Sent? ==>
          x.session in s.sessions && Message(h, x.outcome.body) in s.sessions[x.session].accepted)
  }

  ghost predicate Inv(s: State) {
    && s.table <= s.sessions.Keys
    && (forall id :: id in s.sessions ==> SessionOk(s.sessions[id], id in s.table))
    && (forall id :: id in s.sessions ==> AcceptedOk(s, id, s.sessions[id].accepted))
    && (forall h :: h in s.handlers ==> HandlerOk(s, h, s.handlers[h]))
  }

  /** Taking the head of the channel does not change what is written, then drained, then waiting. */
  lemma HeadMoves(written: seq<Message>, drained: seq<Message>, queue: seq<Message>)
    requires queue != []
    ensures written + (drained + [queue[0]]) + queue[1..] == written + drained + queue
    ensures drained == [] ==> written + [queue[0]] + drained + queue[1..] == written + drained + queue
  {
    assert [queue[0]] + queue[1..] == queue;
  }

  lemma TailGrows(written: seq<Message>, drained: seq<Message>, queue: seq<Message>, m: Message)
    ensures written + drained + (queue + [m]) == written + drained + queue + [m]
  {
  }

  lemma SessionsStayOk(s: State, e: Step, id: Id)
    requires Inv(s) && Enabled(s, e) && id in Next(s, e).sessions
    ensures SessionOk(Next(s, e).sessions[id], id in Next(s, e).table)
  {
    if id in s.sessions {
      var x := s.sessions[id];
      assert SessionOk(x, id in s.table);
      if x.queue != [] {
        HeadMoves(x.written, x.drained, x.queue);
      }
      if e.Send? && IsSending(s, e.handler) {
        TailGrows(x.written, x.drained, x.queue, Message(e.handler, s.handlers[e.handler].body));
      }
    }
  }

  /** Handlers that have finished stay as they are. */
  lemma FinishedStays(s: State, e: Step, h: nat)
    requires Enabled(s, e) && h in s.handlers && (s.handlers[h].Finished? || s.handlers[h].NotFound?)
    ensures h in Next(s, e).handlers && Next(s, e).handlers[h] == s.handlers[h]
  {
  }

  lemma AcceptedStaysOk(s: State, e: Step, id: Id)
    requires Inv(s) && Enabled(s, e) && id in Next(s, e).sessions
    ensures AcceptedOk(Next(s, e), id, Next(s, e).sessions[id].accepted)
  {
    var t := Next(s, e);
    if id in s.sessions {
      var old_, new_ := s.sessions[id].accepted, t.sessions[id].accepted;
      assert AcceptedOk(s, id, old_);
      assert old_ <= new_ && |new_| <= |old_| + 1;
      forall i | 0 <= i < |new_| ensures WasSent(t, id, new_[i]) {
        if i < |old_| {
          assert WasSent(s, id, old_[i]);
          FinishedStays(s, e, old_[i].handler);
        }
      }
      if |old_| < |new_| {
        forall i | 0 <= i < |old_| ensures old_[i] != new_[|old_|] {
          assert WasSent(s, id, old_[i]);
        }
      }
    }
  }

  lemma HandlersStayOk(s: State, e: Step, h: nat)
    requires Inv(s) && Enabled(s, e) && h in Next(s, e).handlers
    ensures HandlerOk(Next(s, e), h, Next(s, e).handlers[h])
  {
    var t := Next(s, e);
    if h in s.handlers {
      assert HandlerOk(s, h, s.handlers[h]);
    }
    var x := t.handlers[h];
    if x.Finished? && x.outcome.Sent? {
      if h in s.handlers && s.handlers[h] == x {
        AcceptedGrows(s, e, x.session);
      } else {
        assert t.sessions[x.session].accepted[|s.sessions[x.session].accepted|] == Message(h, x.outcome.body);
      }
    }
  }

  lemma AcceptedGrows(s: State, e: Step, id: Id)
    requires Enabled(s, e) && id in s.sessions
    ensures id in Next(s, e).sessions && s.sessions[id].accepted <= Next(s, e).sessions[id].accepted
  {
  }

  lemma NextKeepsInv(s: State, e: Step)
    requires Inv(s) && Enabled(s, e)
    ensures Inv(Next(s, e))
  {
    var t := Next(s, e);
    forall id | id in t.sessions ensures SessionOk(t.sessions[id], id in t.table) {
      SessionsStayOk(s, e, id);
    }
    forall id | id in t.sessions ensures AcceptedOk(t, id, t.sessions[id].accepted) {
      AcceptedStaysOk(s, e, id);
    }
    forall h | h in t.handlers ensures HandlerOk(t, h, t.handlers[h]) {
      HandlersStayOk(s, e, h);
    }
    assert t.table <= t.sessions.Keys;
  }

  // ----- whole runs -----

  datatype History = Begin | Then(earlier: History, step: Step)

  predicate Legal(h: History) {
    h.Then? ==> Legal(h.earlier) && Enabled(Reach(h.earlier), h.step)
  }

  function Reach(h: History): State {
    match h
    case Begin => INIT
    case Then(earlier, e) => if Enabled(Reach(earlier), e) then Next(Reach(earlier), e) else Reach(earlier)
  }

  lemma {:induction false} RunsKeepInv(h: History)
    requires Legal(h)
    ensures Inv(Reach(h))
  {
    if h.Then? {
      RunsKeepInv(h.earlier);
      NextKeepsInv(Reach(h.earlier), h.step);
    }
  }

  /** In every reachable state: the channel holds at most 64 messages; until it is closed, what has been
      written and what waits are the accepted responses in the order of acceptance; and after that the
      stream still got a prefix of them. */
  lemma StreamIsAcceptedInOrder(h: History, id: Id)
    requires Legal(h) && id in Reach(h).sessions
    ensures var x := Reach(h).sessions[id];
      && |x.queue| <= 64 && x.written <= x.accepted
      && (!x.phase.Closed? ==> x.written + x.queue == x.accepted)
  {
    RunsKeepInv(h);
    assert SessionOk(Reach(h).sessions[id], id in Reach(h).table);
    InOrder(Reach(h).sessions[id], id in Reach(h).table);
  }

  lemma InOrder(x: Session, listed: bool)
    requires SessionOk(x, listed)
    ensures x.written <= x.accepted
    ensures !x.phase.Closed? ==> x.written + x.queue == x.accepted
  {
    assert x.written + x.drained + x.queue == x.written + (x.drained + x.queue);
    assert x.drained == [] ==> x.written + x.drained == x.written;
  }

  /** Every response that was sent is in exactly one place of exactly one session, the one it was addressed
      to: nothing is delivered twice, nothing to somebody else, and nothing is made up. */
  lemma EachResponseOnce(h: History, id: Id, i: nat, other: Id, j: nat)
    requires Legal(h) && id in Reach(h).sessions && other in Reach(h).sessions
    requires i < |Reach(h).sessions[id].accepted| && j < |Reach(h).sessions[other].accepted|
    ensures var m := Reach(h).sessions[id].accepted[i]; WasSent(Reach(h), id, m)
    ensures Reach(h).sessions[id].accepted[i].handler == Reach(h).sessions[other].accepted[j].handler ==> id == other && i == j
  {
    RunsKeepInv(h);
    var s := Reach(h);
    assert AcceptedOk(s, id, s.sessions[id].accepted) && AcceptedOk(s, other, s.sessions[other].accepted);
    assert WasSent(s, id, s.sessions[id].accepted[i]) && WasSent(s, other, s.sessions[other].accepted[j]);
  }

  /** A handler that ended with its response in the channel can rely on this much: the response is written,
      or waits, or was thrown away when the session closed. The other endings put it nowhere. */
  lemma SentIffAccepted(h: History, x: nat, id: Id, body: string)
    requires Legal(h) && x in Reach(h).handlers && id in Reach(h).sessions
    ensures Reach(h).handlers[x] == Finished(id, Sent(body)) <==>
      var t := Reach(h).sessions[id]; Message(x, body) in t.written + t.drained + t.queue
  {
    RunsKeepInv(h);
    var s := Reach(h);
    var t := s.sessions[id];
    assert SessionOk(t, id in s.table) && AcceptedOk(s, id, t.accepted) && HandlerOk(s, x, s.handlers[x]);
    if Message(x, body) in t.accepted {
      var i :| 0 <= i < |t.accepted| && t.accepted[i] == Message(x, body);
      assert WasSent(s, id, t.accepted[i]);
    }
  }

  // ----- who sent what -----

  predicate Occurs(h: History, e: Step) {
    h.Then? && (h.step == e || Occurs(h.earlier, e))
  }

  /** A handler has the session that it looked up. */
  lemma {:induction false} LookedUp(h: History, x: nat, id: Id)
    requires Legal(h)
    ensures Occurs(h, Lookup(x, id)) ==>
      x in Reach(h).handlers && (Reach(h).handlers[x].NotFound? || Reach(h).handlers[x].session == id)
    ensures x in Reach(h).handlers && !Reach(h).handlers[x].NotFound? && Reach(h).handlers[x].session == id ==>
      Occurs(h, Lookup(x, id))
  {
    if h.Then? {
      LookedUp(h.earlier, x, id);
    }
  }

  /** The response that is sent is the one the handler made. */
  lemma {:induction false} Responded(h: History, x: nat, body: string)
    requires Legal(h)
    ensures Occurs(h, Respond(x, body)) ==> HasMade(Reach(h), x, body)
    ensures x in Reach(h).handlers && Sends(Reach(h).handlers[x], body) ==> Occurs(h, Respond(x, body))
  {
    if h.Then? {
      Responded(h.earlier, x, body);
      RespondedStep(Reach(h.earlier), h.step, x, body);
    }
  }

  lemma RespondedStep(s: State, e: Step, x: nat, body: string)
    requires Enabled(s, e)
    ensures HasMade(s, x, body) || e == Respond(x, body) ==> HasMade(Next(s, e), x, body)
    ensures x in Next(s, e).handlers && Sends(Next(s, e).handlers[x], body) && e != Respond(x, body) ==>
      x in s.handlers && Sends(s.handlers[x], body)
  {
  }

  /** The handler has made this response, and if it has sent one, it was this. */
  predicate HasMade(s: State, x: nat, body: string) {
    x in s.handlers && var y := s.handlers[x];
      (y.Sending? && y.body == body) || (y.Finished? && (y.outcome.Sent? ==> y.outcome.body == body))
  }

  predicate Sends(y: Handler, body: string) {
    (y.Sending? && y.body == body) || (y.Finished? && y.outcome == Sent(body))
  }

  /** What is in a session's channel or stream is, word for word, the one response of a handler that looked up
      this session and no other. */
  lemma DeliveredIsResponse(h: History, id: Id, i: nat, other: Id, text: string)
    requires Legal(h) && id in Reach(h).sessions && i < |Reach(h).sessions[id].accepted|
    ensures var m := Reach(h).sessions[id].accepted[i];
      && (Occurs(h, Lookup(m.handler, other)) <==> other == id)
      && (Occurs(h, Respond(m.handler, text)) <==> text == m.body)
  {
    RunsKeepInv(h);
    var s := Reach(h);
    var m := s.sessions[id].accepted[i];
    assert AcceptedOk(s, id, s.sessions[id].accepted);
    assert WasSent(s, id, m);
    LookedUp(h, m.handler, other);
    Responded(h, m.handler, text);
  }

  /** As long as the stream is served, what has been accepted can be written, all of it. */
  lemma {:induction false} CanBeWritten(h: History, id: Id) returns (later: History)
    requires Legal(h) && InPhase(Reach(h), id, Streaming)
    ensures Legal(later) && Extends(later, h) && InPhase(Reach(later), id, Streaming)
    ensures Reach(later).sessions[id].written == Reach(h).sessions[id].accepted
    decreases |Reach(h).sessions[id].queue|
  {
    StreamIsAcceptedInOrder(h, id);
    var x := Reach(h).sessions[id];
    if x.queue == [] {
      later := h;
      assert x.written + [] == x.written;
    } else {
      var next := Then(h, Write(id));
      assert Reach(next).sessions[id].queue == x.queue[1..];
      later := CanBeWritten(next, id);
      ExtendsTransitive(later, next, h);
    }
  }

  // ----- after the session has been removed -----

  /** The session exists but can no longer be found. */
  predicate IsGone(s: State, id: Id) {
    id in s.sessions && id !in s.table
  }

  /** `later` continues `h`. */
  predicate Extends(later: History, h: History) {
    later == h || (later.Then? && Extends(later.earlier, h))
  }

  lemma GoneStays(s: State, e: Step, id: Id)
    requires Enabled(s, e) && IsGone(s, id)
    ensures IsGone(Next(s, e), id)
  {
  }

  /** A removed session stays removed, whatever happens next: every later lookup of its id is answered 404. */
  lemma {:induction false} RemovedForGood(h: History, later: History, id: Id, x: nat)
    requires Legal(later) && Extends(later, h) && IsGone(Reach(h), id)
    requires Enabled(Reach(later), Lookup(x, id))
    ensures IsGone(Reach(later), id) && Next(Reach(later), Lookup(x, id)).handlers[x] == NotFound
  {
    StaysGone(h, later, id);
  }

  lemma {:induction false} StaysGone(h: History, later: History, id: Id)
    requires Legal(later) && Extends(later, h) && IsGone(Reach(h), id)
    ensures IsGone(Reach(later), id)
  {
    if later != h {
      StaysGone(h, later.earlier, id);
      GoneStays(Reach(later.earlier), later.step, id);
    }
  }

  /** A handler that holds a session, whether it has its response yet or not. */
  predicate Holds(s: State, x: nat, id: Id) {
    x in s.handlers && s.handlers[x].InFlight() && s.handlers[x].session == id
  }

  /** No handler still holds the session. */
  ghost predicate Unheld(s: State, id: Id) {
    forall x :: !Holds(s, x, id)
  }

  predicate HasPanicked(s: State, id: Id, x: nat) {
    x in s.handlers && s.handlers[x] == Finished(id, Panicked)
  }

  lemma UnheldStays(s: State, e: Step, id: Id)
    requires Enabled(s, e) && IsGone(s, id) && Unheld(s, id)
    ensures Unheld(Next(s, e), id)
  {
    forall x ensures !Holds(Next(s, e), x, id) {
      assert !Holds(s, x, id);
    }
  }

  lemma NoNewPanic(s: State, e: Step, id: Id, x: nat)
    requires Enabled(s, e) && Unheld(s, id)
    ensures HasPanicked(Next(s, e), id, x) <==> HasPanicked(s, id, x)
  {
    assert !Holds(s, x, id);
  }

  /** Once a session is removed and no handler that found it before is still running, no send on it ever
      panics: the panics come from handlers that loaded the session before it was removed. */
  lemma {:induction false} PanicsNeedAnEarlierLookup(h: History, later: History, id: Id, x: nat)
    requires Legal(later) && Extends(later, h) && IsGone(Reach(h), id) && Unheld(Reach(h), id)
    ensures HasPanicked(Reach(later), id, x) <==> HasPanicked(Reach(h), id, x)
    ensures IsGone(Reach(later), id) && Unheld(Reach(later), id)
  {
    if later != h {
      PanicsNeedAnEarlierLookup(h, later.earlier, id, x);
      GoneStays(Reach(later.earlier), later.step, id);
      UnheldStays(Reach(later.earlier), later.step, id);
      NoNewPanic(Reach(later.earlier), later.step, id, x);
    }
  }

  // ----- when a send panics -----

  lemma {:induction false} ExtendsTransitive(a: History, b: History, c: History)
    requires Extends(a, b) && Extends(b, c)
    ensures Extends(a, c)
  {
    if a != b {
      ExtendsTransitive(a.earlier, b, c);
    }
  }

  /** How many steps a session is from closing its channel, and the first of them. */
  function Distance(x: Session): nat {
    match x.phase
    case Streaming => if x.done then 4 else 5
    case Leaving => 3
    case Removed => 2
    case Cancelled => 1
    case Closed => 0
  }

  function TowardsClosing(x: Session, id: Id): Step {
    match x.phase
    case Streaming => if x.done then Leave(id) else Disconnect(id)
    case Leaving => Remove(id)
    case Removed => Cancel(id)
    case _ => CloseChannel(id)
  }

  lemma OneStepCloser(h: History, id: Id)
    requires Legal(h) && id in Reach(h).sessions && !InPhase(Reach(h), id, Closed)
    ensures var x, later := Reach(h).sessions[id], Then(h, TowardsClosing(Reach(h).sessions[id], id));
      && Legal(later) && id in Reach(later).sessions
      && Distance(Reach(later).sessions[id]) < Distance(x) && Reach(later).handlers == Reach(h).handlers
  {
  }

  /** However far it has come, a session can go on to close its channel; the handlers stay as they are. */
  lemma {:induction false} CanClose(h: History, id: Id) returns (later: History)
    requires Legal(h) && id in Reach(h).sessions
    ensures Legal(later) && Extends(later, h) && InPhase(Reach(later), id, Closed)
    ensures Reach(later).handlers == Reach(h).handlers
    decreases Distance(Reach(h).sessions[id])
  {
    if InPhase(Reach(h), id, Closed) {
      later := h;
    } else {
      OneStepCloser(h, id);
      var next := Then(h, TowardsClosing(Reach(h).sessions[id], id));
      later := CanClose(next, id);
      ExtendsTransitive(later, next, h);
    }
  }

  /** Any holder can come to the point of sending. */
  lemma CanRespond(h: History, x: nat, id: Id) returns (later: History)
    requires Legal(h) && Holds(Reach(h), x, id)
    ensures Legal(later) && Extends(later, h) && Holds(Reach(later), x, id) && Reach(later).handlers[x].Sending?
    ensures id in Reach(h).sessions && Reach(later).sessions == Reach(h).sessions && Reach(later).table == Reach(h).table
  {
    RunsKeepInv(h);
    assert HandlerOk(Reach(h), x, Reach(h).handlers[x]);
    later := if Reach(h).handlers[x].Handling? then Then(h, Respond(x, "")) else h;
  }

  /** Whatever phase the session is in, a handler that holds it can end up sending on the closed channel. */
  lemma SendCanPanic(h: History, id: Id, x: nat) returns (later: History)
    requires Legal(h) && Holds(Reach(h), x, id)
    ensures Legal(later) && Extends(later, h) && HasPanicked(Reach(later), id, x)
  {
    var ready := CanRespond(h, x, id);
    var closed := CanClose(ready, id);
    ExtendsTransitive(closed, ready, h);
    later := Then(closed, Send(x));
  }

  lemma {:induction false} AnotherHandler(used: set<nat>) returns (x: nat)
    ensures x !in used && forall y :: y in used ==> y < x
  {
    if used == {} {
      x := 0;
    } else {
      var y :| y in used;
      var above := AnotherHandler(used - {y});
      x := if y < above then above else y + 1;
      forall z | z in used ensures z < x {
        assert z == y || z in used - {y};
      }
    }
  }

  /** A session that can be found, or opened under this id, can be held. */
  lemma CanBeHeld(h: History, id: Id) returns (later: History, x: nat)
    requires Legal(h) && !IsGone(Reach(h), id)
    ensures Legal(later) && Extends(later, h) && Holds(Reach(later), x, id) && x !in Reach(h).handlers
  {
    x := AnotherHandler(Reach(h).handlers.Keys);
    var open := if id in Reach(h).sessions then h else Then(h, Connect(id));
    assert Legal(open) && id in Reach(open).table && x !in Reach(open).handlers;
    later := Then(open, Lookup(x, id));
    assert Extends(open, h);
  }

  /** No send on the session will panic that has not done so already. */
  ghost predicate NoPanicAhead(h: History, id: Id) {
    forall later, x :: Legal(later) && Extends(later, h) && HasPanicked(Reach(later), id, x) ==> HasPanicked(Reach(h), id, x)
  }

  /** Exactly when no further send on a session can panic: it has been removed, and no handler that found it
      before is still running. */
  lemma NoPanicAheadIff(h: History, id: Id)
    requires Legal(h)
    ensures NoPanicAhead(h, id) <==> IsGone(Reach(h), id) && Unheld(Reach(h), id)
  {
    if IsGone(Reach(h), id) && Unheld(Reach(h), id) {
      GoneAndUnheld(h, id);
    } else if IsGone(Reach(h), id) {
      var x :| Holds(Reach(h), x, id);
      HolderPanics(h, h, id, x);
    } else {
      var held, x := CanBeHeld(h, id);
      HolderPanics(h, held, id, x);
    }
  }

  lemma HolderPanics(h: History, held: History, id: Id, x: nat)
    requires Legal(held) && Extends(held, h) && Holds(Reach(held), x, id) && !HasPanicked(Reach(h), id, x)
    ensures !NoPanicAhead(h, id)
  {
    var later := SendCanPanic(held, id, x);
    ExtendsTransitive(later, held, h);
    PanicsAhead(h, later, id, x);
  }

  lemma GoneAndUnheld(h: History, id: Id)
    requires Legal(h) && IsGone(Reach(h), id) && Unheld(Reach(h), id)
    ensures NoPanicAhead(h, id)
  {
    forall later, x | Legal(later) && Extends(later, h) && HasPanicked(Reach(later), id, x)
      ensures HasPanicked(Reach(h), id, x)
    {
      PanicsNeedAnEarlierLookup(h, later, id, x);
    }
  }

  lemma PanicsAhead(h: History, later: History, id: Id, x: nat)
    requires Legal(later) && Extends(later, h) && HasPanicked(Reach(later), id, x) && !HasPanicked(Reach(h), id, x)
    ensures !NoPanicAhead(h, id)
  {
  }

  // ----- when a 202 drops the response -----

  predicate HasDropped(s: State, x: nat, id: Id) {
    x in s.handlers && s.handlers[x] == Finished(id, DroppedWith202)
  }

  /** A response that was dropped is in no session's channel or stream. */
  lemma DroppedIsNowhere(h: History, x: nat, id: Id, any: Id)
    requires Legal(h) && HasDropped(Reach(h), x, id) && any in Reach(h).sessions
    ensures forall m :: m in Reach(h).sessions[any].accepted ==> m.handler != x
  {
    RunsKeepInv(h);
    var s := Reach(h);
    var accepted := s.sessions[any].accepted;
    assert AcceptedOk(s, any, accepted);
    forall m | m in accepted ensures m.handler != x {
      var i :| 0 <= i < |accepted| && accepted[i] == m;
      assert WasSent(s, any, accepted[i]);
    }
  }

  /** Then the handler has answered 202, and nobody will ever get the response. */
  lemma AcceptedButDropped(h: History, x: nat, id: Id, body: string, any: Id)
    requires Legal(h) && x in Reach(h).handlers && Reach(h).handlers[x] == Sending(id, body)
    requires id in Reach(h).sessions && Full(Reach(h).sessions[id])
    ensures var later := Then(h, Timeout(x));
      && Legal(later) && HasDropped(Reach(later), x, id)
      && (any in Reach(later).sessions ==> forall m :: m in Reach(later).sessions[any].accepted ==> m.handler != x)
  {
    var later := Then(h, Timeout(x));
    if any in Reach(later).sessions {
      DroppedIsNowhere(later, x, id, any);
    }
  }

  /** The next step can drop a response exactly if its handler is sending to a session that is full and
      whose context goes on. */
  lemma DropsNowIff(s: State, x: nat, id: Id)
    requires Holds(s, x, id) && id in s.sessions
    ensures (exists e :: Enabled(s, e) && HasDropped(Next(s, e), x, id)) <==>
      s.handlers[x].Sending? && |s.sessions[id].queue| == 64 && !s.sessions[id].phase.Closed? && !s.sessions[id].done
  {
    if s.handlers[x].Sending? && Full(s.sessions[id]) {
      assert Enabled(s, Timeout(x)) && HasDropped(Next(s, Timeout(x)), x, id);
    }
  }

  /** Once the context has ended, it stays so and drops nothing any more. */
  lemma {:induction false} EndedNeverDrops(h: History, later: History, x: nat, id: Id)
    requires Legal(later) && Extends(later, h) && id in Reach(h).sessions && Reach(h).sessions[id].done
    requires !HasDropped(Reach(h), x, id)
    ensures id in Reach(later).sessions && Reach(later).sessions[id].done && !HasDropped(Reach(later), x, id)
  {
    if later != h {
      EndedNeverDrops(h, later.earlier, x, id);
      EndedStays(Reach(later.earlier), later.step, x, id);
    }
  }

  lemma EndedStays(s: State, e: Step, x: nat, id: Id)
    requires Enabled(s, e) && id in s.sessions && s.sessions[id].done && !HasDropped(s, x, id)
    ensures id in Next(s, e).sessions && Next(s, e).sessions[id].done && !HasDropped(Next(s, e), x, id)
  {
  }

  /** One more response from another handler. */
  lemma SendOneMore(h: History, id: Id) returns (later: History)
    requires Legal(h) && InPhase(Reach(h), id, Streaming) && id in Reach(h).table && |Reach(h).sessions[id].queue| < CAPACITY
    ensures Legal(later) && Extends(later, h) && SameHandlers(Reach(h), Reach(later)) && id in Reach(later).sessions
    ensures var x, y := Reach(h).sessions[id], Reach(later).sessions[id];
      y.phase == x.phase && y.done == x.done && |y.queue| == |x.queue| + 1 && Reach(later).table == Reach(h).table
  {
    var y := AnotherHandler(Reach(h).handlers.Keys);
    var found := Then(h, Lookup(y, id));
    assert Legal(found) && Reach(found).handlers == Reach(h).handlers[y := Handling(id)];
    var ready := Then(found, Respond(y, ""));
    assert Legal(ready) && Reach(ready).handlers == Reach(h).handlers[y := Sending(id, "")];
    assert Reach(ready).sessions == Reach(h).sessions;
    later := Then(ready, Send(y));
    assert Extends(ready, found) && Extends(found, h);
  }

  /** The handlers of `s` are as they were. */
  ghost predicate SameHandlers(s: State, t: State) {
    forall x :: x in s.handlers ==> x in t.handlers && t.handlers[x] == s.handlers[x]
  }

  lemma {:induction false} CanFill(h: History, id: Id) returns (later: History)
    requires Legal(h) && InPhase(Reach(h), id, Streaming) && !Reach(h).sessions[id].done
    ensures Legal(later) && Extends(later, h) && SameHandlers(Reach(h), Reach(later))
    ensures id in Reach(later).sessions && Full(Reach(later).sessions[id])
    decreases CAPACITY - |Reach(h).sessions[id].queue|
  {
    RunsKeepInv(h);
    assert SessionOk(Reach(h).sessions[id], id in Reach(h).table);
    if |Reach(h).sessions[id].queue| == CAPACITY {
      later := h;
    } else {
      var next := SendOneMore(h, id);
      later := CanFill(next, id);
      ExtendsTransitive(later, next, h);
    }
  }

  ghost predicate DropsLater(h: History, x: nat, id: Id) {
    exists later :: Legal(later) && Extends(later, h) && HasDropped(Reach(later), x, id)
  }

  /** Exactly when the request of a running handler can still be answered 202 with its response dropped: as
      long as the context of its session has not ended. */
  lemma CanDropIff(h: History, x: nat, id: Id)
    requires Legal(h) && Holds(Reach(h), x, id)
    ensures id in Reach(h).sessions
    ensures DropsLater(h, x, id) <==> !Reach(h).sessions[id].done
  {
    var ready := CanRespond(h, x, id);
    if Reach(h).sessions[id].done {
      if DropsLater(h, x, id) {
        var later :| Legal(later) && Extends(later, h) && HasDropped(Reach(later), x, id);
        EndedNeverDrops(h, later, x, id);
      }
    } else {
      RunsKeepInv(h);
      assert SessionOk(Reach(h).sessions[id], id in Reach(h).table);
      var full := CanFill(ready, id);
      ExtendsTransitive(full, ready, h);
      DropsWhenFull(h, full, x, id);
    }
  }

  lemma DropsWhenFull(h: History, full: History, x: nat, id: Id)
    requires Legal(full) && Extends(full, h) && Holds(Reach(full), x, id) && Reach(full).handlers[x].Sending?
    requires id in Reach(full).sessions && Full(Reach(full).sessions[id])
    ensures DropsLater(h, x, id)
  {
    var later := Then(full, Timeout(x));
    assert Legal(later) && Extends(later, h) && HasDropped(Reach(later), x, id);
  }
}
