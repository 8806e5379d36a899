/** Double-checked locking for the authenticators: any number of goroutines in `getAuthenticator`, one
    read-write lock, and one map from specs to authenticators, which nothing else changes. */
module AuthCache {
  import opened Text

  type Spec = string

  /** One call of `getAuthenticator`. */
  type Call = nat

  /** Authenticators are known by the order in which they are made. */
  type Authenticator = nat

  /** Where a call is. */
  datatype Place =
    | Calling                         // before RLock
    | Reading                         // holds the read lock
    | Found(result: Authenticator)    // has looked it up and still holds the read lock
    | Missed                          // the same, but there was none
    | BetweenLocks
    | Checking                        // holds the write lock
    | Building                        // there is still none
    | Built(made: Authenticator)      // NewAuthenticator has succeeded
    | Returning(found: Option<Authenticator>)  // the deferred Unlock is left
    | Returned(answer: Option<Authenticator>)
  {
    predicate HoldsReadLock() { Reading? || Found? || Missed? }
    predicate HoldsWriteLock() { Checking? || Building? || Built? || Returning? }
  }

  datatype Frame = Frame(spec: Spec, place: Place)

  /** `made[k]` is the spec that authenticator `k` was made for. */
  datatype State = State(authenticators: map<Spec, Authenticator>, made: seq<Spec>,
                         readers: set<Call>, writer: Option<Call>, calls: map<Call, Frame>)

  datatype Step =
    | Enter(call: Call, spec: Spec)
    | RLock(call: Call)
    | Lookup(call: Call)
    | RUnlock(call: Call)
    | Lock(call: Call)
    | Recheck(call: Call)
    | Build(call: Call, ok: bool)  // GetAuth and NewAuthenticator
    | Install(call: Call)
    | Unlock(call: Call)

  const INIT := State(map[], [], {}, None, map[])

  predicate Enabled(s: State, e: Step) {
    if e.Enter? then e.call !in s.calls
    else
      e.call in s.calls &&
      var p := s.calls[e.call].place;
      match e
      case Enter(_, _) => false
      case RLock(_) => p.Calling? && s.writer == None
      case Lookup(_) => p.Reading?
      case RUnlock(_) => p.Found? || p.Missed?
      case Lock(_) => p.BetweenLocks? && s.writer == None && s.readers == {}
      case Recheck(_) => p.Checking?
      case Build(_, _) => p.Building?
      case Install(_) => p.Built?
      case Unlock(_) => p.Returning?
  }

  function At(s: State, c: Call, p: Place): State
    requires c in s.calls
  {
    s.(calls := s.calls[c := s.calls[c].(place := p)])
  }

  function Next(s: State, e: Step): State
    requires Enabled(s, e)
  {
    var c := e.call;
    match e
    case Enter(_, spec) => s.(calls := s.calls[c := Frame(spec, Calling)])
    case RLock(_) => At(s.(readers := s.readers + {c}), c, Reading)
    case Lookup(_) =>
      var spec := s.calls[c].spec;
      At(s, c, if spec in s.authenticators then Found(s.authenticators[spec]) else Missed)
    case RUnlock(_) =>
      var p := s.calls[c].place;
      At(s.(readers := s.readers - {c}), c, if p.Found? then Returned(Some(p.result)) else BetweenLocks)
    case Lock(_) => At(s.(writer := Some(c)), c, Checking)
    case Recheck(_) =>
      var spec := s.calls[c].spec;
      At(s, c, if spec in s.authenticators then Returning(Some(s.authenticators[spec])) else Building)
    case Build(_, ok) =>
      if ok then At(s.(made := s.made + [s.calls[c].spec]), c, Built(|s.made|)) else At(s, c, Returning(None))
    case Install(_) =>
      var a := s.calls[c].place.made;
      At(s.(authenticators := s.authenticators[s.calls[c].spec := a]), c, Returning(Some(a)))
    case Unlock(_) => At(s.(writer := None), c, Returned(s.calls[c].place.found))
  }

  // ----- the invariant -----

  /** The locks are held by the calls that are in their sections. */
  ghost predicate LocksOk(s: State) {
    && (forall c :: c in s.readers <==> c in s.calls && s.calls[c].place.HoldsReadLock())
    && (forall c :: s.writer == Some(c) <==> c in s.calls && s.calls[c].place.HoldsWriteLock())
    && (s.writer.Some? ==> s.readers == {})
  }

  predicate IsInstalled(s: State, spec: Spec, a: Authenticator) {
    spec in s.authenticators && s.authenticators[spec] == a
  }

  /** What a call has in its hands. */
  predicate FrameOk(s: State, f: Frame) {
    match f.place
    case Found(a) => IsInstalled(s, f.spec, a)
    case Building => f.spec !in s.authenticators && f.spec !in s.made
    case Built(a) => f.spec !in s.authenticators && a < |s.made| && s.made[a] == f.spec
    case Returning(r) => r.Some? ==> IsInstalled(s, f.spec, r.value)
    case Returned(r) => r.Some? ==> IsInstalled(s, f.spec, r.value)
    case _ => true
  }

  /** Nothing is made twice for a spec; what is made is installed, or about to be by the call that holds the
      write lock. */
  predicate MadeOk(s: State) {
    && (forall i, j :: 0 <= i < j < |s.made| ==> s.made[i] != s.made[j])
    && (forall i: nat :: i < |s.made| ==> IsPlaced(s, s.made[i], i))
    && (forall spec :: spec in s.authenticators ==>
          s.authenticators[spec] < |s.made| && s.made[s.authenticators[spec]] == spec)
  }

  predicate IsPlaced(s: State, spec: Spec, a: Authenticator) {
    IsInstalled(s, spec, a) || AboutToInstall(s, spec, a)
  }

  predicate AboutToInstall(s: State, spec: Spec, a: Authenticator) {
    s.writer.Some? && s.writer.value in s.calls && s.calls[s.writer.value] == Frame(spec, Built(a))
  }

  ghost predicate Inv(s: State) {
    LocksOk(s) && MadeOk(s) && forall c :: c in s.calls ==> FrameOk(s, s.calls[c])
  }

  lemma LocksStayOk(s: State, e: Step)
    requires LocksOk(s) && Enabled(s, e)
    ensures LocksOk(Next(s, e))
  {
  }

  lemma MadeStaysOk(s: State, e: Step)
    requires Inv(s) && Enabled(s, e)
    ensures MadeOk(Next(s, e))
  {
    var t := Next(s, e);
    if e.Build? {
      assert FrameOk(s, s.calls[e.call]);
      forall i: nat | i < |t.made| ensures IsPlaced(t, t.made[i], i) {
        if i < |s.made| {
          assert IsPlaced(s, s.made[i], i);
        }
      }
    } else {
      assert e.call in s.calls ==> FrameOk(s, s.calls[e.call]);
      forall i: nat | i < |t.made| ensures IsPlaced(t, t.made[i], i) {
        assert IsPlaced(s, s.made[i], i);
      }
    }
  }

  lemma FramesStayOk(s: State, e: Step, c: Call)
    requires Inv(s) && Enabled(s, e) && c in Next(s, e).calls
    ensures FrameOk(Next(s, e), Next(s, e).calls[c])
  {
    if c in s.calls {
      assert FrameOk(s, s.calls[c]);
    }
    if e.call in s.calls {
      assert FrameOk(s, s.calls[e.call]);
    }
    if e.Recheck? && s.calls[e.call].spec in s.made {
      var i: nat :| i < |s.made| && s.made[i] == s.calls[e.call].spec;
      assert IsPlaced(s, s.made[i], i);
    }
  }

  lemma NextKeepsInv(s: State, e: Step)
    requires Inv(s) && Enabled(s, e)
    ensures Inv(Next(s, e))
  {
    LocksStayOk(s, e);
    MadeStaysOk(s, e);
    forall c | c in Next(s, e).calls ensures FrameOk(Next(s, e), Next(s, e).calls[c]) {
      FramesStayOk(s, e, c);
    }
  }

  // ----- whole runs -----

  datatype History = Begin | Then(earlier: History, step: Step)

  predicate Legal(h: History) {
    h.Then? ==> Legal(h.earlier) && Enabled(Reach(h.earlier), h.step)
  }

  function Reach(h: History): State {
    match h
    case Begin => INIT
    case Then(earlier, e) => if Enabled(Reach(earlier), e) then Next(Reach(earlier), e) else Reach(earlier)
  }

  predicate Extends(later: History, h: History) {
    later == h || (later.Then? && Extends(later.earlier, h))
  }

  lemma {:induction false} RunsKeepInv(h: History)
    requires Legal(h)
    ensures Inv(Reach(h))
  {
    if h.Then? {
      RunsKeepInv(h.earlier);
      NextKeepsInv(Reach(h.earlier), h.step);
    }
  }

  predicate Answered(s: State, c: Call, spec: Spec, a: Authenticator) {
    c in s.calls && s.calls[c] == Frame(spec, Returned(Some(a)))
  }

  /** For one spec at most one authenticator is ever made, and every call that returns one returns that. */
  lemma OneAuthenticatorPerSpec(h: History, c: Call, d: Call, spec: Spec, a: Authenticator, b: Authenticator)
    requires Legal(h) && Answered(Reach(h), c, spec, a) && Answered(Reach(h), d, spec, b)
    ensures a == b && IsInstalled(Reach(h), spec, a) && a < |Reach(h).made| && Reach(h).made[a] == spec
    ensures forall i :: 0 <= i < |Reach(h).made| && Reach(h).made[i] == spec ==> i == a
  {
    RunsKeepInv(h);
    var s := Reach(h);
    assert FrameOk(s, s.calls[c]) && FrameOk(s, s.calls[d]);
  }

  lemma NextKeepsInstalled(s: State, e: Step, spec: Spec, a: Authenticator, c: Call)
    requires Inv(s) && Enabled(s, e)
    ensures IsInstalled(s, spec, a) ==> IsInstalled(Next(s, e), spec, a)
    ensures Answered(s, c, spec, a) ==> Answered(Next(s, e), c, spec, a)
  {
    if e.Install? {
      assert FrameOk(s, s.calls[e.call]);
    }
  }

  /** What is installed is never replaced or removed, and what a call has returned stands. */
  lemma {:induction false} InstalledForever(h: History, later: History, spec: Spec, a: Authenticator, c: Call)
    requires Legal(later) && Extends(later, h)
    ensures IsInstalled(Reach(h), spec, a) ==> IsInstalled(Reach(later), spec, a)
    ensures Answered(Reach(h), c, spec, a) ==> Answered(Reach(later), c, spec, a)
  {
    if later != h {
      InstalledForever(h, later.earlier, spec, a, c);
      RunsKeepInv(later.earlier);
      NextKeepsInstalled(Reach(later.earlier), later.step, spec, a, c);
    }
  }

  predicate Occurs(h: History, e: Step) {
    h.Then? && (h.step == e || Occurs(h.earlier, e))
  }

  predicate EmptyHanded(s: State, c: Call) {
    c in s.calls && (s.calls[c].place == Returning(None) || s.calls[c].place == Returned(None))
  }

  predicate HasOne(s: State, c: Call) {
    c in s.calls && match s.calls[c].place
      case Built(_) => true
      case Returning(r) => r.Some?
      case Returned(r) => r.Some?
      case _ => false
  }

  lemma BuildStep(s: State, e: Step, c: Call)
    requires Inv(s) && Enabled(s, e)
    ensures EmptyHanded(Next(s, e), c) <==> EmptyHanded(s, c) || e == Build(c, false)
    ensures HasOne(s, c) || e == Build(c, true) ==> HasOne(Next(s, e), c)
    ensures c in Next(s, e).calls && Next(s, e).calls[c].place.Built? ==>
      e == Build(c, true) || (c in s.calls && s.calls[c].place.Built?)
  {
  }

  /** A call ends without an authenticator exactly if it was the one to make it and that failed; if that succeeded it
      ends with one, and only a success makes one. */
  lemma {:induction false} BuildDecides(h: History, c: Call)
    requires Legal(h)
    ensures Occurs(h, Build(c, false)) <==> EmptyHanded(Reach(h), c)
    ensures Occurs(h, Build(c, true)) ==> HasOne(Reach(h), c)
    ensures c in Reach(h).calls && Reach(h).calls[c].place.Built? ==> Occurs(h, Build(c, true))
  {
    if h.Then? {
      RunsKeepInv(h.earlier);
      BuildDecides(h.earlier, c);
      BuildStep(Reach(h.earlier), h.step, c);
    }
  }

  predicate TouchesMap(p: Place) { p.Reading? || p.Checking? || p.Built? }

  /** No data race: while one call is about to write the map, no other call is about to read or write it. */
  lemma NoRace(h: History, c: Call, d: Call)
    requires Legal(h) && c in Reach(h).calls && d in Reach(h).calls && c != d
    requires Reach(h).calls[c].place.Built?
    ensures !TouchesMap(Reach(h).calls[d].place)
  {
    RunsKeepInv(h);
    assert Reach(h).writer == Some(c);
  }

  /** The step that call `c` would take next, once the locks let it. */
  function NextStep(s: State, c: Call): Step
    requires c in s.calls
  {
    match s.calls[c].place
    case Calling => RLock(c)
    case Reading => Lookup(c)
    case Found(_) => RUnlock(c)
    case Missed => RUnlock(c)
    case BetweenLocks => Lock(c)
    case Checking => Recheck(c)
    case Building => Build(c, false)
    case Built(_) => Install(c)
    case Returning(_) => Unlock(c)
    case Returned(_) => Enter(c, s.calls[c].spec)
  }

  /** No deadlock: while a call has not returned, some call can take its next step. */
  lemma SomebodyCanMove(h: History, c: Call)
    requires Legal(h) && c in Reach(h).calls && !Reach(h).calls[c].place.Returned?
    ensures exists d :: d in Reach(h).calls && Enabled(Reach(h), NextStep(Reach(h), d))
  {
    RunsKeepInv(h);
    var s := Reach(h);
    if s.writer.Some? {
      assert s.writer.value in s.calls && Enabled(s, NextStep(s, s.writer.value));
    } else if s.readers != {} {
      var d :| d in s.readers;
      assert d in s.calls && Enabled(s, NextStep(s, d));
    } else {
      assert Enabled(s, NextStep(s, c));
    }
  }

  // ----- every call can return -----

  lemma {:induction false} ExtendsTransitive(a: History, b: History, c: History)
    requires Extends(a, b) && Extends(b, c)
    ensures Extends(a, c)
  {
    if a != b {
      ExtendsTransitive(a.earlier, b, c);
    }
  }

  lemma OneMore(h: History, s: State, e: Step) returns (later: History)
    requires Legal(h) && s == Reach(h) && Enabled(s, e)
    ensures Legal(later) && Extends(later, h) && Reach(later) == Next(s, e)
  {
    later := Then(h, e);
  }

  /** How many steps a call that holds the write lock is from releasing it. */
  function Left(p: Place): nat {
    match p
    case Checking => 3
    case Building => 2
    case Built(_) => 1
    case _ => 0
  }

  lemma WriterMoves(s: State, c: Call)
    requires s.writer == Some(c) && c in s.calls && s.calls[c].place.HoldsWriteLock()
    ensures Enabled(s, NextStep(s, c))
    ensures var t := Next(s, NextStep(s, c));
      && t.readers == s.readers && t.calls.Keys == s.calls.Keys
      && if s.calls[c].place.Returning? then t.writer == None && t.calls[c].place.Returned?
         else t.writer == Some(c) && Left(t.calls[c].place) < Left(s.calls[c].place)
  {
  }

  /** The call that holds the write lock can go on to release it and return. */
  lemma {:induction false} WriterCanReturn(h: History, c: Call) returns (later: History)
    requires Legal(h) && Reach(h).writer == Some(c) && c in Reach(h).calls
    ensures Legal(later) && Extends(later, h)
    ensures Reach(later).writer == None && Reach(later).readers == Reach(h).readers
    ensures c in Reach(later).calls && Reach(later).calls[c].place.Returned?
    ensures Reach(later).calls.Keys == Reach(h).calls.Keys
    decreases Left(Reach(h).calls[c].place)
  {
    RunsKeepInv(h);
    assert Reach(h).calls[c].place.HoldsWriteLock();
    WriterMoves(Reach(h), c);
    var next := OneMore(h, Reach(h), NextStep(Reach(h), c));
    if Reach(h).calls[c].place.Returning? {
      later := next;
    } else {
      later := WriterCanReturn(next, c);
      ExtendsTransitive(later, next, h);
    }
  }

  /** A call that holds the read lock can go on to release it. */
  lemma ReaderCanLeave(h: History, c: Call) returns (later: History)
    requires Legal(h) && c in Reach(h).readers && c in Reach(h).calls
    ensures Legal(later) && Extends(later, h)
    ensures Reach(later).writer == Reach(h).writer && Reach(later).readers == Reach(h).readers - {c}
    ensures Reach(later).calls.Keys == Reach(h).calls.Keys
    ensures Reach(later).calls[c].place.BetweenLocks? || Reach(later).calls[c].place.Returned?
  {
    RunsKeepInv(h);
    var looked := h;
    if Reach(h).calls[c].place.Reading? {
      looked := OneMore(h, Reach(h), Lookup(c));
    }
    later := OneMore(looked, Reach(looked), RUnlock(c));
    ExtendsTransitive(later, looked, h);
  }

  /** The locks can become free. */
  lemma {:induction false} LocksCanBeFree(h: History) returns (later: History)
    requires Legal(h)
    ensures Legal(later) && Extends(later, h) && Reach(later).writer == None && Reach(later).readers == {}
    ensures Reach(later).calls.Keys == Reach(h).calls.Keys
    decreases |Reach(h).readers|
  {
    RunsKeepInv(h);
    if Reach(h).writer.Some? {
      later := WriterCanReturn(h, Reach(h).writer.value);
    } else if Reach(h).readers == {} {
      later := h;
    } else {
      var c :| c in Reach(h).readers;
      var next := ReaderCanLeave(h, c);
      later := LocksCanBeFree(next);
      ExtendsTransitive(later, next, h);
    }
  }

  /** From the first lookup, the locks being free, a call comes to its answer or to the second one. */
  lemma CanLookUp(h: History, c: Call) returns (later: History)
    requires Legal(h) && Reach(h).writer == None && Reach(h).readers == {}
    requires c in Reach(h).calls && Reach(h).calls[c].place.Calling?
    ensures Legal(later) && Extends(later, h) && Reach(later).writer == None && Reach(later).readers == {}
    ensures c in Reach(later).calls && (Reach(later).calls[c].place.BetweenLocks? || Reach(later).calls[c].place.Returned?)
  {
    var next := OneMore(h, Reach(h), RLock(c));
    later := ReaderCanLeave(next, c);
    ExtendsTransitive(later, next, h);
  }

  /** In every reachable state every call can be brought to its end, whatever the others are doing. */
  lemma EveryCallCanReturn(h: History, c: Call) returns (later: History)
    requires Legal(h) && c in Reach(h).calls
    ensures Legal(later) && Extends(later, h) && c in Reach(later).calls && Reach(later).calls[c].place.Returned?
  {
    var free := LocksCanBeFree(h);
    RunsKeepInv(free);
    var looked := free;
    if Reach(free).calls[c].place.Calling? {
      looked := CanLookUp(free, c);
    }
    ExtendsTransitive(looked, free, h);
    if Reach(looked).calls[c].place.Returned? {
      later := looked;
    } else {
      var locked := OneMore(looked, Reach(looked), Lock(c));
      later := WriterCanReturn(locked, c);
      ExtendsTransitive(later, locked, looked);
      ExtendsTransitive(later, looked, h);
    }
  }

  // ----- refinement of an atomic get-or-create -----

  /** The specification: a map, and what each call has been given. */
  datatype Simple = Simple(authenticators: map<Spec, Authenticator>, given: map<Call, Option<Authenticator>>)

  /** One indivisible call: what is there is given out; if there is nothing, what is made is installed, and a
      failure changes nothing. */
  ghost predicate GetOrCreate(s: Simple, t: Simple, c: Call, spec: Spec, fresh_: Option<Authenticator>) {
    && c !in s.given
    && if spec in s.authenticators then t == s.(given := s.given[c := Some(s.authenticators[spec])])
       else if fresh_.Some? then
         t == Simple(s.authenticators[spec := fresh_.value], s.given[c := fresh_]) &&
         fresh_.value !in s.authenticators.Values
       else t == s.(given := s.given[c := None])
  }

  predicate Decided(p: Place) { p.Found? || p.Returning? || p.Returned? }

  function Result(p: Place): Option<Authenticator>
    requires Decided(p)
  {
    match p
    case Found(a) => Some(a)
    case Returning(r) => r
    case Returned(r) => r
  }

  function Given(calls: map<Call, Frame>): map<Call, Option<Authenticator>> {
    map c | c in calls && Decided(calls[c].place) :: Result(calls[c].place)
  }

  function Abstraction(s: State): Simple {
    Simple(s.authenticators, Given(s.calls))
  }

  /** The steps at which a call is decided. */
  predicate Decides(s: State, e: Step)
    requires Enabled(s, e)
  {
    Decided(Next(s, e).calls[e.call].place) && (e.call in s.calls ==> !Decided(s.calls[e.call].place))
  }

  lemma GivenAfter(calls: map<Call, Frame>, c: Call, f: Frame)
    ensures Decided(f.place) ==> Given(calls[c := f]) == Given(calls)[c := Result(f.place)]
    ensures !Decided(f.place) && c !in Given(calls) ==> Given(calls[c := f]) == Given(calls)
    ensures Decided(f.place) && c in Given(calls) && Given(calls)[c] == Result(f.place) ==> Given(calls[c := f]) == Given(calls)
  {
  }

  /** What `Install` hands out: the authenticator it installs; every other step makes none. */
  function Fresh(s: State, e: Step): Option<Authenticator>
    requires Enabled(s, e)
  {
    if e.Install? then Some(s.calls[e.call].place.made) else None
  }

  /** Every step of the locking protocol either is one indivisible get-or-create or changes nothing that a
      caller can see: the double-checked form means the same as holding one lock throughout. */
  lemma RefinesGetOrCreate(h: History, e: Step)
    requires Legal(h) && Enabled(Reach(h), e)
    ensures var s, t := Abstraction(Reach(h)), Abstraction(Next(Reach(h), e));
      if Decides(Reach(h), e) then GetOrCreate(s, t, e.call, Reach(h).calls[e.call].spec, Fresh(Reach(h), e))
      else t == s
  {
    RunsKeepInv(h);
    StepRefines(Reach(h), e);
  }

  lemma StepRefines(s: State, e: Step)
    requires Inv(s) && Enabled(s, e)
    ensures if Decides(s, e) then
        GetOrCreate(Abstraction(s), Abstraction(Next(s, e)), e.call, s.calls[e.call].spec, Fresh(s, e))
      else Abstraction(Next(s, e)) == Abstraction(s)
  {
    GivenAfter(s.calls, e.call, Next(s, e).calls[e.call]);
    if e.call in s.calls {
      assert FrameOk(s, s.calls[e.call]);
    }
  }
}
