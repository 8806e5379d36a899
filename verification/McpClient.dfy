/** The pending tables of the browser client's SSE transport. Events run one at a time; a promise is known by
    its position in the order of creation, and its two callbacks by the same number. */
module McpClient {
  import opened Text

  /** A message id: the tables find numbers only (never null, a string, or another JSON value). */
  datatype MessageId = Number(n: int) | OtherValue

  /** What arrives: something `JSON.parse` or the first field access throws on, a message without an id, or one
      with an id and an error or not. `hello` stands for a `protocolVersion` in the result, or for the method
      "initialized". */
  datatype Message =
    | Unreadable
    | WithoutId(hello: bool)
    | WithId(id: MessageId, error: Option<string>, text: string, hello: bool)

  /** A call of one of the callbacks of a promise. */
  datatype Settlement = Resolved(text: string) | Failed(error: string) | TimedOut

  /** `calls` logs every call of the two callbacks; only the first would have an effect. */
  datatype Request = Request(id: int, calls: seq<Settlement>)

  datatype Event =
    | Endpoint            // the server names the message URL; `initialize` is posted
    | OtherId             // another client, or the other transport, takes an id
    | Send                // sendRequest
    | Receive(msg: Message)
    | Timer(request: nat) // 30 seconds after the request
    | Delay               // 2 seconds after opening
    | ConnectionError

  /** The promise of the client itself. */
  datatype Ready = Waiting | Open | Broken

  datatype State = State(counter: int, taken: seq<int>, pendingRequests: map<int, nat>, pendingErrors: map<int, nat>,
                         requests: seq<Request>, timers: set<nat>, ready: Ready)

  const INIT := State(1, [], map[], map[], [], {}, Waiting)

  predicate Enabled(s: State, e: Event) {
    e.Timer? ==> e.request in s.timers && e.request < |s.requests|
  }

  function Log(requests: seq<Request>, p: nat, c: Settlement): seq<Request> {
    if p < |requests| then requests[p := requests[p].(calls := requests[p].calls + [c])] else requests
  }

  /** A promise keeps its first outcome. */
  function FirstOf(ready: Ready, to: Ready): Ready { if ready.Waiting? then to else ready }

  function NextId(s: State): State {
    s.(counter := s.counter + 1, taken := s.taken + [s.counter])
  }

  function Received(s: State, id: int, c: Settlement): State {
    var table := if c.Failed? then s.pendingErrors else s.pendingRequests;
    s.(requests := if id in table then Log(s.requests, table[id], c) else s.requests,
       pendingRequests := s.pendingRequests - {id}, pendingErrors := s.pendingErrors - {id})
  }

  function Answer(msg: Message): Settlement
    requires msg.WithId?
  {
    if msg.error.Some? then Failed(msg.error.value) else Resolved(msg.text)
  }

  function Next(s: State, e: Event): State
    requires Enabled(s, e)
  {
    match e
    case Endpoint => NextId(s)
    case OtherId => NextId(s)
    case Send =>
      var p := |s.requests|;
      NextId(s).(requests := s.requests + [Request(s.counter, [])], timers := s.timers + {p},
                 pendingRequests := s.pendingRequests[s.counter := p],
                 pendingErrors := s.pendingErrors[s.counter := p])
    case Receive(msg) =>
      var t := if msg.WithId? && msg.id.Number? then Received(s, msg.id.n, Answer(msg)) else s;
      t.(ready := if !msg.Unreadable? && msg.hello then FirstOf(s.ready, Open) else s.ready)
    case Timer(p) =>
      var id := s.requests[p].id;
      var t := s.(timers := s.timers - {p});
      if id in s.pendingRequests then
        t.(requests := Log(s.requests, p, TimedOut),
           pendingRequests := s.pendingRequests - {id}, pendingErrors := s.pendingErrors - {id})
      else t
    case Delay => s.(ready := FirstOf(s.ready, Open))
    case ConnectionError => s.(ready := FirstOf(s.ready, Broken))
  }

  // ----- the code -----

  class Client {
    var counter: int
    var taken: seq<int>
    var pendingRequests: map<int, nat>
    var pendingErrors: map<int, nat>
    var requests: seq<Request>
    var timers: set<nat>
    var ready: Ready

    constructor ()
      ensures Now() == INIT
    {
      counter, taken, pendingRequests, pendingErrors := 1, [], map[], map[];
      requests, timers, ready := [], {}, Waiting;
    }

    function Now(): State
      reads this
    {
      State(counter, taken, pendingRequests, pendingErrors, requests, timers, ready)
    }

    method TakeId() returns (id: int)
      modifies this`counter, this`taken
      ensures id == old(counter) && Now() == NextId(old(Now()))
    {
      id := counter;
      taken := taken + [id];
      counter := counter + 1;
    }

    /** The `endpoint` listener: the id of `initialize` is not registered. */
    method OnEndpoint()
      modifies this
      ensures Now() == Next(old(Now()), Endpoint)
    {
      var _ := TakeId();
    }

    method SendRequest() returns (p: nat)
      modifies this
      ensures p == old(|requests|) && Now() == Next(old(Now()), Send)
    {
      p := |requests|;
      var id := TakeId();
      requests := requests + [Request(id, [])];
      pendingRequests := pendingRequests[id := p];
      pendingErrors := pendingErrors[id := p];
      timers := timers + {p};
    }

    /** A callback of promise `p` is called. */
    method Settle(p: nat, c: Settlement)
      modifies this`requests
      ensures requests == Log(old(requests), p, c)
    {
      if p < |requests| {
        requests := requests[p := requests[p].(calls := requests[p].calls + [c])];
      }
    }

    /** The `message` listener. */
    method OnMessage(msg: Message)
      modifies this
      ensures Now() == Next(old(Now()), Receive(msg))
    {
      if msg.Unreadable? {
        return;
      }
      if msg.WithId? && msg.id.Number? {
        var id := msg.id.n;
        var res := if id in pendingRequests then Some(pendingRequests[id]) else None;
        var rej := if id in pendingErrors then Some(pendingErrors[id]) else None;
        if msg.error.Some? {
          if rej.Some? {
            Settle(rej.value, Failed(msg.error.value));
          }
        } else if res.Some? {
          Settle(res.value, Resolved(msg.text));
        }
        pendingRequests := pendingRequests - {id};
        pendingErrors := pendingErrors - {id};
      }
      if msg.hello && ready.Waiting? {
        ready := Open;
      }
    }

    /** The timer of request `p`. */
    method OnTimer(p: nat)
      requires Enabled(Now(), Timer(p))
      modifies this
      ensures Now() == Next(old(Now()), Timer(p))
    {
      var id := requests[p].id;
      timers := timers - {p};
      if id in pendingRequests {
        pendingRequests := pendingRequests - {id};
        pendingErrors := pendingErrors - {id};
        Settle(p, TimedOut);
      }
    }
  }

  // ----- the invariant -----

  /** Request `p` waits: it is in the tables under its id, its timer runs, and nobody has been called. */
  predicate Waits(s: State, p: nat) {
    p < |s.requests| && s.requests[p].id in s.pendingRequests && s.pendingRequests[s.requests[p].id] == p
  }

  predicate RequestOk(s: State, p: nat)
    requires p < |s.requests|
  {
    && 1 <= s.requests[p].id < s.counter
    && (if Waits(s, p) then p in s.timers && s.requests[p].calls == []
        else s.requests[p].id !in s.pendingRequests && |s.requests[p].calls| == 1)
  }

  ghost predicate Inv(s: State) {
    && s.pendingRequests == s.pendingErrors
    && |s.taken| == s.counter - 1 && (forall i :: 0 <= i < |s.taken| ==> s.taken[i] == i + 1)
    && (forall p :: 0 <= p < |s.requests| ==> RequestOk(s, p))
    && (forall p, q :: 0 <= p < q < |s.requests| ==> s.requests[p].id != s.requests[q].id)
    && (forall id :: id in s.pendingRequests ==> Waits(s, s.pendingRequests[id]) && s.requests[s.pendingRequests[id]].id == id)
  }

  lemma SendKeepsInv(s: State)
    requires Inv(s)
    ensures Inv(Next(s, Send))
  {
    var t := Next(s, Send);
    forall p | 0 <= p < |t.requests| ensures RequestOk(t, p) {
      if p < |s.requests| {
        assert RequestOk(s, p);
      }
    }
    forall p, q | 0 <= p < q < |t.requests| ensures t.requests[p].id != t.requests[q].id {
      assert RequestOk(s, p);
    }
  }

  /** The request with id `id` is called and leaves the tables. */
  lemma SettlingKeepsInv(s: State, p: nat, c: Settlement, timers: set<nat>)
    requires Inv(s) && Waits(s, p)
    requires forall q :: q in s.timers && q != p ==> q in timers
    ensures var id := s.requests[p].id;
      Inv(s.(requests := Log(s.requests, p, c), timers := timers,
             pendingRequests := s.pendingRequests - {id}, pendingErrors := s.pendingErrors - {id}))
  {
    var id := s.requests[p].id;
    var t := s.(requests := Log(s.requests, p, c), timers := timers,
                pendingRequests := s.pendingRequests - {id}, pendingErrors := s.pendingErrors - {id});
    forall q | 0 <= q < |t.requests| ensures RequestOk(t, q) {
      assert RequestOk(s, q);
    }
  }

  lemma NothingPendingKeepsInv(s: State, id: int, timers: set<nat>)
    requires Inv(s) && id !in s.pendingRequests
    requires forall q :: q in s.timers && Waits(s, q) ==> q in timers
    ensures s.pendingRequests - {id} == s.pendingRequests && Inv(s.(timers := timers))
  {
    var t := s.(timers := timers);
    forall q | 0 <= q < |t.requests| ensures RequestOk(t, q) {
      assert RequestOk(s, q);
    }
  }

  lemma NextKeepsInv(s: State, e: Event)
    requires Inv(s) && Enabled(s, e)
    ensures Inv(Next(s, e))
  {
    match e
    case Send => SendKeepsInv(s);
    case Receive(msg) =>
      if msg.WithId? && msg.id.Number? {
        ReceivedKeepsInv(s, msg.id.n, Answer(msg));
        ReadyIsApart(Received(s, msg.id.n, Answer(msg)), Next(s, e).ready);
      } else {
        ReadyIsApart(s, Next(s, e).ready);
      }
    case Timer(p) =>
      assert RequestOk(s, p);
      if Waits(s, p) {
        SettlingKeepsInv(s, p, TimedOut, s.timers - {p});
      } else {
        NothingPendingKeepsInv(s, s.requests[p].id, s.timers - {p});
      }
    case Endpoint => CounterIsApart(s);
    case OtherId => CounterIsApart(s);
    case Delay => ReadyIsApart(s, Next(s, e).ready);
    case ConnectionError => ReadyIsApart(s, Next(s, e).ready);
  }

  lemma ReceivedKeepsInv(s: State, id: int, c: Settlement)
    requires Inv(s)
    ensures Inv(Received(s, id, c))
  {
    if id in s.pendingRequests {
      SettlingKeepsInv(s, s.pendingRequests[id], c, s.timers);
    } else {
      NothingPendingKeepsInv(s, id, s.timers);
    }
  }

  lemma ReadyIsApart(s: State, ready: Ready)
    requires Inv(s)
    ensures Inv(s.(ready := ready))
  {
    var t := s.(ready := ready);
    forall q | 0 <= q < |t.requests| ensures RequestOk(t, q) {
      assert RequestOk(s, q);
    }
  }

  lemma CounterIsApart(s: State)
    requires Inv(s)
    ensures Inv(NextId(s))
  {
    var t := NextId(s);
    forall q | 0 <= q < |t.requests| ensures RequestOk(t, q) {
      assert RequestOk(s, q);
    }
  }

  // ----- whole runs -----

  datatype History = Begin | Then(earlier: History, event: Event)

  predicate Legal(h: History) {
    h.Then? ==> Legal(h.earlier) && Enabled(Reach(h.earlier), h.event)
  }

  function Reach(h: History): State {
    match h
    case Begin => INIT
    case Then(earlier, e) => if Enabled(Reach(earlier), e) then Next(Reach(earlier), e) else Reach(earlier)
  }

  lemma {:induction false} RunsKeepInv(h: History)
    requires Legal(h)
    ensures Inv(Reach(h))
  {
    if h.Then? {
      RunsKeepInv(h.earlier);
      NextKeepsInv(Reach(h.earlier), h.event);
    }
  }

  /** Between events the two tables are the same, no id is ever taken twice, and a request whose timer has
      fired has been settled, exactly once. */
  lemma TablesAgree(h: History)
    requires Legal(h)
    ensures var s := Reach(h);
      && s.pendingRequests == s.pendingErrors
      && (forall i :: 0 <= i < |s.taken| ==> s.taken[i] == i + 1)
      && (forall p, q :: 0 <= p < q < |s.requests| ==> s.requests[p].id != s.requests[q].id)
      && (forall p :: 0 <= p < |s.requests| ==> 1 <= s.requests[p].id <= |s.taken|)
      && (forall p :: 0 <= p < |s.requests| ==>
            |s.requests[p].calls| <= 1 && (p !in s.timers ==> |s.requests[p].calls| == 1))
  {
    RunsKeepInv(h);
    var s := Reach(h);
    forall p | 0 <= p < |s.requests|
      ensures 1 <= s.requests[p].id <= |s.taken|
      ensures |s.requests[p].calls| <= 1 && (p !in s.timers ==> |s.requests[p].calls| == 1)
    {
      assert RequestOk(s, p);
    }
  }

  /** How request `p` ought to end, read off the events alone: the first message with its id after it was
      sent, or its timer, whichever comes first. */
  function Outcome(h: History, p: nat): Option<Settlement> {
    if h.Begin? then None
    else if Outcome(h.earlier, p).Some? then Outcome(h.earlier, p)
    else if p >= |Reach(h.earlier).requests| then None
    else if h.event == Timer(p) then Some(TimedOut)
    else if h.event.Receive? && h.event.msg.WithId? && h.event.msg.id == Number(Reach(h.earlier).requests[p].id) then
      Some(if h.event.msg.error.Some? then Failed(h.event.msg.error.value) else Resolved(h.event.msg.text))
    else None
  }

  function Calls(o: Option<Settlement>): seq<Settlement> {
    if o.Some? then [o.value] else []
  }

  lemma RequestsGrow(s: State, e: Event)
    requires Inv(s) && Enabled(s, e)
    ensures |Next(s, e).requests| == |s.requests| + (if e.Send? then 1 else 0)
    ensures forall p :: 0 <= p < |s.requests| ==> Next(s, e).requests[p].id == s.requests[p].id
  {
  }

  lemma StepSettles(s: State, e: Event, p: nat)
    requires Inv(s) && Enabled(s, e) && p < |s.requests|
    ensures p < |Next(s, e).requests|
    ensures Next(s, e).requests[p].calls ==
      if s.requests[p].calls != [] then s.requests[p].calls
      else if e == Timer(p) then [TimedOut]
      else if e.Receive? && e.msg.WithId? && e.msg.id == Number(s.requests[p].id) then [Answer(e.msg)]
      else []
  {
    assert RequestOk(s, p);
    if e.Receive? && e.msg.WithId? && e.msg.id.Number? && e.msg.id.n in s.pendingRequests {
      var q := s.pendingRequests[e.msg.id.n];
      assert Waits(s, q) && RequestOk(s, q);
    }
    if e.Timer? {
      assert RequestOk(s, e.request);
    }
  }

  /** Over any order of events, the promise of a request is settled by the first of its answer and its timer,
      with what that says, and never called again. */
  lemma {:induction false} SettledByTheFirst(h: History, p: nat)
    requires Legal(h) && p < |Reach(h).requests|
    ensures Reach(h).requests[p].calls == Calls(Outcome(h, p))
  {
    if h.Then? {
      var s := Reach(h.earlier);
      RunsKeepInv(h.earlier);
      RequestsGrow(s, h.event);
      if p < |s.requests| {
        SettledByTheFirst(h.earlier, p);
        StepSettles(s, h.event, p);
      } else {
        NotYetSent(h.earlier, p);
      }
    }
  }

  /** How the client's own promise ought to end: it opens with a greeting or two seconds after the start, and
      breaks with a connection error, whichever comes first. */
  function Started(h: History): Ready {
    if h.Begin? then Waiting
    else if !Started(h.earlier).Waiting? then Started(h.earlier)
    else match h.event
      case Receive(msg) =>
        (match msg
         case Unreadable => Waiting
         case WithoutId(hello) => if hello then Open else Waiting
         case WithId(_, _, _, hello) => if hello then Open else Waiting)
      case Delay => Open
      case ConnectionError => Broken
      case _ => Waiting
  }

  lemma {:induction false} ReadyByTheFirst(h: History)
    requires Legal(h)
    ensures Reach(h).ready == Started(h)
  {
    if h.Then? {
      ReadyByTheFirst(h.earlier);
    }
  }

  lemma {:induction false} NotYetSent(h: History, p: nat)
    requires Legal(h) && p >= |Reach(h).requests|
    ensures Outcome(h, p) == None
  {
    if h.Then? {
      RunsKeepInv(h.earlier);
      RequestsGrow(Reach(h.earlier), h.event);
      NotYetSent(h.earlier, p);
    }
  }
}
