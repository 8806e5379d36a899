/** Registry notification as a protocol: publishers that release the lock before they notify,
    subscribers with one-slot channels, and `Unsubscribe` shifting a backing array that an in-flight
    notifier may still be reading. */
module Notify {

  type Chan = nat

  /** A `notifySubscribers` call in progress: a slice of a backing array, and how far it has got. */
  datatype Notifier = Notifier(arr: nat, len: nat, pos: nat)

  /** `arrays` holds every backing array ever allocated, `seen` the version each subscriber last read. */
  datatype State = State(
    arrays: map<nat, seq<Chan>>, arr: nat, len: nat,
    tokens: set<Chan>, seen: map<Chan, nat>, version: nat,
    notifiers: map<nat, Notifier>)

  datatype Step =
    | Publish(id: nat)                            // RebuildAll: swap the map, copy the slice header, unlock
    | Deliver(id: nat)                            // one iteration of the notifying loop
    | Finish(id: nat)
    | Receive(ch: Chan)                           // take the token, then read the tools
    | Subscribe(ch: Chan, fresh_: nat, room: nat) // append; `fresh_` and `room` matter if it reallocates
    | Unsubscribe(ch: Chan)                       // append(s[:i], s[i+1:]...): shifts in place
    | UnsubscribeCopying(ch: Chan, fresh_: nat)   // a variant that leaves the old array alone

  const INIT := State(map[0 := []], 0, 0, {}, map[], 0, map[])

  function Live(s: State): seq<Chan>
    requires s.arr in s.arrays && s.len <= |s.arrays[s.arr]|
  {
    s.arrays[s.arr][..s.len]
  }

  function IndexOf(a: seq<Chan>, ch: Chan): (i: nat)
    ensures i <= |a|
    ensures i < |a| ==> a[i] == ch
    ensures forall j :: 0 <= j < i ==> a[j] != ch
  {
    if a == [] || a[0] == ch then 0 else 1 + IndexOf(a[1..], ch)
  }

  /** The array after `append(a[:i], a[i+1:n]...)`: slot `n - 1` keeps its old contents. */
  function ShiftDown(a: seq<Chan>, i: nat, n: nat): (b: seq<Chan>)
    requires i < n <= |a|
    ensures |b| == |a|
    ensures forall j :: 0 <= j < |b| ==> b[j] == if i <= j < n - 1 then a[j + 1] else a[j]
  {
    a[..i] + a[i + 1..n] + a[n - 1..]
  }

  ghost predicate WellFormed(s: State) {
    && s.arr in s.arrays && s.len <= |s.arrays[s.arr]|
    && (forall i, j :: 0 <= i < j < s.len ==> s.arrays[s.arr][i] != s.arrays[s.arr][j])
    && (forall i :: 0 <= i < s.len ==> s.arrays[s.arr][i] in s.seen)
    && (forall id :: id in s.notifiers ==> NotifierFits(s.notifiers[id], s))
  }

  predicate NotifierFits(n: Notifier, s: State) {
    n.arr in s.arrays && n.pos <= n.len <= |s.arrays[n.arr]|
  }

  predicate Enabled(s: State, e: Step)
    requires WellFormed(s)
  {
    match e
    case Publish(id) => id !in s.notifiers
    case Deliver(id) => id in s.notifiers && s.notifiers[id].pos < s.notifiers[id].len
    case Finish(id) => id in s.notifiers && s.notifiers[id].pos == s.notifiers[id].len
    case Receive(ch) => ch in s.tokens
    case Subscribe(ch, fresh_, _) => ch !in s.seen && fresh_ !in s.arrays
    case Unsubscribe(ch) => IndexOf(Live(s), ch) < s.len
    case UnsubscribeCopying(ch, fresh_) => IndexOf(Live(s), ch) < s.len && fresh_ !in s.arrays
  }

  function Next(s: State, e: Step): State
    requires WellFormed(s) && Enabled(s, e)
  {
    match e
    case Publish(id) =>
      s.(version := s.version + 1, notifiers := s.notifiers[id := Notifier(s.arr, s.len, 0)])
    case Deliver(id) =>
      var n := s.notifiers[id];
      s.(tokens := s.tokens + {s.arrays[n.arr][n.pos]}, notifiers := s.notifiers[id := n.(pos := n.pos + 1)])
    case Finish(id) =>
      s.(notifiers := s.notifiers - {id})
    case Receive(ch) =>
      s.(tokens := s.tokens - {ch}, seen := s.seen[ch := s.version])
    case Subscribe(ch, fresh_, room) =>
      var a := s.arrays[s.arr];
      var t := s.(len := s.len + 1, seen := s.seen[ch := s.version]);
      if s.len < |a| then t.(arrays := s.arrays[s.arr := a[s.len := ch]])
      else t.(arrays := s.arrays[fresh_ := a + [ch] + seq(room, _ => ch)], arr := fresh_)
    case Unsubscribe(ch) =>
      var i := IndexOf(Live(s), ch);
      s.(arrays := s.arrays[s.arr := ShiftDown(s.arrays[s.arr], i, s.len)], len := s.len - 1)
    case UnsubscribeCopying(ch, fresh_) =>
      var i := IndexOf(Live(s), ch);
      s.(arrays := s.arrays[fresh_ := Live(s)[..i] + Live(s)[i + 1..]], arr := fresh_, len := s.len - 1)
  }

  /** Slot `j` is one that `n` has yet to visit, and no later `append` will write to it: of the current
      array only the slots in use count, since the next subscriber goes into the first stale one. */
  predicate Reliable(n: Notifier, s: State, j: int) {
    n.pos <= j < n.len && (n.arr == s.arr ==> j < s.len)
  }

  /** Notifier `n` is sure to reach a slot that holds `ch`. */
  ghost predicate AheadOf(n: Notifier, s: State, ch: Chan)
    requires NotifierFits(n, s)
  {
    exists j :: Reliable(n, s, j) && s.arrays[n.arr][j] == ch
  }

  /** The subscriber is up to date, or has a token that will make it so, or a notifier on its way. */
  ghost predicate Informed(s: State, ch: Chan)
    requires WellFormed(s) && ch in s.seen
  {
    s.seen[ch] == s.version || ch in s.tokens || exists id :: id in s.notifiers && AheadOf(s.notifiers[id], s, ch)
  }

  ghost predicate NoLostWakeup(s: State)
    requires WellFormed(s)
  {
    forall c :: c in Live(s) ==> Informed(s, c)
  }

  /** Shifting slot `i` away moves the channel that `n` would visit next to a slot behind it. */
  predicate Skips(n: Notifier, s: State, i: nat) {
    n.arr == s.arr && i < n.pos < s.len && n.pos < n.len
  }

  /** Removing slot `i` moves `c` behind `n`, just as `n` would have visited it. */
  predicate Jumps(n: Notifier, s: State, i: nat, c: Chan) {
    Skips(n, s, i) && s.arr in s.arrays && n.pos < |s.arrays[s.arr]| && s.arrays[s.arr][n.pos] == c
  }

  /** Removing slot `i` moves `c` into the last slot that `n` was given. */
  predicate Gains(n: Notifier, s: State, i: nat, c: Chan) {
    && n.arr == s.arr && i < n.len < s.len && n.pos < n.len
    && s.arr in s.arrays && n.len < |s.arrays[s.arr]| && s.arrays[s.arr][n.len] == c
  }

  /** `c` is not up to date and has no token, every notifier ahead of it jumps it, and none gains it. */
  ghost predicate Stranded(s: State, i: nat, c: Chan)
    requires WellFormed(s) && c in s.seen
  {
    && s.seen[c] != s.version && c !in s.tokens
    && forall id :: id in s.notifiers ==>
         (AheadOf(s.notifiers[id], s, c) ==> Jumps(s.notifiers[id], s, i, c)) && !Gains(s.notifiers[id], s, i, c)
  }

  /** What an in-place `Unsubscribe` has to avoid: it must not strand another live channel. */
  ghost predicate Safe(s: State, e: Step)
    requires WellFormed(s)
  {
    e.Unsubscribe? ==> forall c :: c in Live(s) && c != e.ch ==> !Stranded(s, IndexOf(Live(s), e.ch), c)
  }

  /** An in-place `Unsubscribe` takes another live channel out of a notifier's way exactly if it skips. */
  lemma UnsubscribeLosesIffSkips(s: State, ch: Chan, id: nat)
    requires WellFormed(s) && Enabled(s, Unsubscribe(ch)) && id in s.notifiers
    requires WellFormed(Next(s, Unsubscribe(ch)))
    ensures Skips(s.notifiers[id], s, IndexOf(Live(s), ch)) <==>
      exists c :: c in Live(s) && c != ch && AheadOf(s.notifiers[id], s, c) &&
        !AheadOf(s.notifiers[id], Next(s, Unsubscribe(ch)), c)
  {
    var n := s.notifiers[id];
    if Skips(n, s, IndexOf(Live(s), ch)) {
      SkippedIsLost(s, ch, n);
    } else {
      forall c | c in Live(s) && c != ch && AheadOf(n, s, c)
        ensures AheadOf(n, Next(s, Unsubscribe(ch)), c)
      {
        NotSkippedIsKept(s, ch, n, c);
      }
    }
  }

  lemma SkippedIsLost(s: State, ch: Chan, n: Notifier)
    requires WellFormed(s) && Enabled(s, Unsubscribe(ch)) && NotifierFits(n, s)
    requires Skips(n, s, IndexOf(Live(s), ch))
    ensures var c := s.arrays[s.arr][n.pos];
      c in Live(s) && c != ch && AheadOf(n, s, c) && !AheadOf(n, Next(s, Unsubscribe(ch)), c)
  {
    var a, i, t := s.arrays[s.arr], IndexOf(Live(s), ch), Next(s, Unsubscribe(ch));
    var c := a[n.pos];
    assert Live(s)[n.pos] == c && Live(s)[i] == ch;
    assert Reliable(n, s, n.pos);
    forall j | Reliable(n, t, j) ensures t.arrays[n.arr][j] != c {
      assert t.arrays[n.arr][j] == a[j + 1];
    }
  }

  lemma NotSkippedIsKept(s: State, ch: Chan, n: Notifier, c: Chan)
    requires WellFormed(s) && Enabled(s, Unsubscribe(ch)) && NotifierFits(n, s)
    requires !Skips(n, s, IndexOf(Live(s), ch)) && c != ch && AheadOf(n, s, c)
    ensures AheadOf(n, Next(s, Unsubscribe(ch)), c)
  {
    var t, i := Next(s, Unsubscribe(ch)), IndexOf(Live(s), ch);
    var j :| Reliable(n, s, j) && s.arrays[n.arr][j] == c;
    var k := if n.arr == s.arr && i < j then j - 1 else j;
    assert n.arr == s.arr ==> s.arrays[s.arr][i] == Live(s)[i] == ch;
    assert Reliable(n, t, k) && t.arrays[n.arr][k] == c;
  }

  // ----- every step -----

  /** The live channels after a step. */
  lemma LiveNext(s: State, e: Step)
    requires WellFormed(s) && Enabled(s, e)
    ensures var t := Next(s, e); t.arr in t.arrays && t.len <= |t.arrays[t.arr]|
    ensures e.Subscribe? ==> Live(Next(s, e)) == Live(s) + [e.ch]
    ensures e.Unsubscribe? || e.UnsubscribeCopying? ==>
      var i := IndexOf(Live(s), e.ch); Live(Next(s, e)) == Live(s)[..i] + Live(s)[i + 1..]
    ensures !e.Subscribe? && !e.Unsubscribe? && !e.UnsubscribeCopying? ==> Live(Next(s, e)) == Live(s)
  {
    assert forall j :: 0 <= j < s.len ==> Live(s)[j] == s.arrays[s.arr][j];
  }

  lemma NotifiersFitNext(s: State, e: Step, id: nat)
    requires WellFormed(s) && Enabled(s, e) && id in Next(s, e).notifiers
    ensures NotifierFits(Next(s, e).notifiers[id], Next(s, e))
  {
  }

  lemma NextWellFormed(s: State, e: Step)
    requires WellFormed(s) && Enabled(s, e)
    ensures WellFormed(Next(s, e))
  {
    LiveNext(s, e);
    forall id | id in Next(s, e).notifiers ensures NotifierFits(Next(s, e).notifiers[id], Next(s, e)) {
      NotifiersFitNext(s, e, id);
    }
    if e.Unsubscribe? {
      ShiftWellFormed(s, e.ch);
    } else {
      var t := Next(s, e);
      assert forall j :: 0 <= j < s.len ==> Live(s)[j] == s.arrays[s.arr][j];
      assert forall j :: 0 <= j < t.len ==> Live(t)[j] == t.arrays[t.arr][j];
    }
  }

  lemma ShiftWellFormed(s: State, ch: Chan)
    requires WellFormed(s) && Enabled(s, Unsubscribe(ch))
    ensures var t := Next(s, Unsubscribe(ch));
      && (forall i, j :: 0 <= i < j < t.len ==> t.arrays[t.arr][i] != t.arrays[t.arr][j])
      && (forall i :: 0 <= i < t.len ==> t.arrays[t.arr][i] in t.seen)
  {
  }

  /** Which notifiers are ahead of a channel once slot `i` has been shifted away. */
  lemma AheadAfterShift(s: State, ch: Chan, n: Notifier, c: Chan)
    requires WellFormed(s) && Enabled(s, Unsubscribe(ch)) && NotifierFits(n, s) && c in Live(s) && c != ch
    ensures var i := IndexOf(Live(s), ch);
      NotifierFits(n, Next(s, Unsubscribe(ch))) &&
      (AheadOf(n, Next(s, Unsubscribe(ch)), c) <==> (AheadOf(n, s, c) && !Jumps(n, s, i, c)) || Gains(n, s, i, c))
  {
    var t, i := Next(s, Unsubscribe(ch)), IndexOf(Live(s), ch);
    if n.arr == s.arr {
      var k :| 0 <= k < s.len && Live(s)[k] == c;
      SlotAfterShift(s, ch, c, k);
      AheadIsAt(n, s, c, k);
      AheadIsAt(n, t, c, if k < i then k else k - 1);
    } else {
      assert forall j :: Reliable(n, s, j) <==> Reliable(n, t, j);
    }
  }

  /** Where the shift leaves a channel, and that it is nowhere else among the slots in use. */
  lemma SlotAfterShift(s: State, ch: Chan, c: Chan, k: nat)
    requires WellFormed(s) && Enabled(s, Unsubscribe(ch)) && k < s.len && Live(s)[k] == c && c != ch
    ensures var a, b, i := s.arrays[s.arr], Next(s, Unsubscribe(ch)).arrays[s.arr], IndexOf(Live(s), ch);
      && i != k && (forall j :: 0 <= j < s.len && a[j] == c ==> j == k)
      && b[if k < i then k else k - 1] == c
      && forall j :: 0 <= j < s.len - 1 && b[j] == c ==> j == if k < i then k else k - 1
  {
    var a, b, i := s.arrays[s.arr], Next(s, Unsubscribe(ch)).arrays[s.arr], IndexOf(Live(s), ch);
    assert a[k] == c && a[i] == Live(s)[i] == ch;
    forall j | 0 <= j < s.len - 1 && b[j] == c ensures j == if k < i then k else k - 1 {
      assert b[j] == if i <= j < s.len - 1 then a[j + 1] else a[j];
    }
  }

  /** A notifier in the current array is ahead of a channel exactly if it is ahead of its only slot. */
  lemma AheadIsAt(n: Notifier, s: State, c: Chan, k: nat)
    requires s.arr in s.arrays && s.len <= |s.arrays[s.arr]| && NotifierFits(n, s) && n.arr == s.arr
    requires k < s.len && s.arrays[s.arr][k] == c
    requires forall j :: 0 <= j < s.len && s.arrays[s.arr][j] == c ==> j == k
    ensures AheadOf(n, s, c) <==> n.pos <= k < n.len
  {
    assert n.pos <= k < n.len ==> Reliable(n, s, k);
  }

  /** After an in-place `Unsubscribe` the channels that are not informed are the stranded ones. */
  lemma UninformedIffStranded(s: State, ch: Chan, c: Chan)
    requires WellFormed(s) && Enabled(s, Unsubscribe(ch)) && c in Live(s) && c != ch
    ensures WellFormed(Next(s, Unsubscribe(ch))) && c in s.seen
    ensures Informed(Next(s, Unsubscribe(ch)), c) <==> !Stranded(s, IndexOf(Live(s), ch), c)
  {
    NextWellFormed(s, Unsubscribe(ch));
    var j :| 0 <= j < s.len && Live(s)[j] == c;
    assert s.arrays[s.arr][j] == c;
    forall id | id in s.notifiers
      ensures var n, i := s.notifiers[id], IndexOf(Live(s), ch);
        AheadOf(n, Next(s, Unsubscribe(ch)), c) <==> (AheadOf(n, s, c) && !Jumps(n, s, i, c)) || Gains(n, s, i, c)
    {
      AheadAfterShift(s, ch, s.notifiers[id], c);
    }
  }

  lemma StaysAhead(s: State, e: Step, id: nat, c: Chan)
    requires WellFormed(s) && Enabled(s, e) && !e.Unsubscribe? && WellFormed(Next(s, e))
    requires id in s.notifiers && AheadOf(s.notifiers[id], s, c)
    requires e.UnsubscribeCopying? ==> c != e.ch
    requires e != Deliver(id)
    ensures id in Next(s, e).notifiers && AheadOf(Next(s, e).notifiers[id], Next(s, e), c)
  {
    var t, n := Next(s, e), s.notifiers[id];
    var j :| Reliable(n, s, j) && s.arrays[n.arr][j] == c;
    assert Reliable(n, t, j) && t.arrays[n.arr][j] == c;
  }

  /** A live channel that stays subscribed stays informed in every other step. */
  lemma StaysInformed(s: State, e: Step, c: Chan)
    requires WellFormed(s) && Enabled(s, e) && !e.Unsubscribe? && WellFormed(Next(s, e))
    requires c in Live(s) && Informed(s, c)
    requires e.UnsubscribeCopying? ==> c != e.ch
    ensures Informed(Next(s, e), c)
  {
    var t := Next(s, e);
    if e.Publish? {
      var j :| 0 <= j < s.len && Live(s)[j] == c;
      assert Reliable(t.notifiers[e.id], t, j) && t.arrays[s.arr][j] == c;
    } else if s.seen[c] != s.version && c !in s.tokens {
      var id :| id in s.notifiers && AheadOf(s.notifiers[id], s, c);
      if e == Deliver(id) {
        var n := s.notifiers[id];
        var j :| Reliable(n, s, j) && s.arrays[n.arr][j] == c;
        if j > n.pos {
          assert Reliable(t.notifiers[id], t, j) && t.arrays[n.arr][j] == c;
        }
      } else {
        StaysAhead(s, e, id, c);
      }
    }
  }

  /** The other steps lose nothing. */
  lemma OtherStepsKeep(s: State, e: Step)
    requires WellFormed(s) && Enabled(s, e) && !e.Unsubscribe? && NoLostWakeup(s) && WellFormed(Next(s, e))
    ensures NoLostWakeup(Next(s, e))
  {
    LiveNext(s, e);
    var t := Next(s, e);
    forall c | c in Live(t) ensures Informed(t, c) {
      if c in Live(s) {
        if e.UnsubscribeCopying? {
          NotRemoved(s, e.ch, c);
        }
        StaysInformed(s, e, c);
      }
    }
  }

  /** Who is live after an `Unsubscribe`. */
  lemma LiveAfterShift(s: State, ch: Chan, c: Chan)
    requires WellFormed(s) && Enabled(s, Unsubscribe(ch)) && WellFormed(Next(s, Unsubscribe(ch)))
    ensures c in Live(Next(s, Unsubscribe(ch))) <==> c in Live(s) && c != ch
  {
    LiveNext(s, Unsubscribe(ch));
    var i := IndexOf(Live(s), ch);
    assert Live(s) == Live(s)[..i] + [ch] + Live(s)[i + 1..];
    NotRemoved(s, ch, c);
  }

  /** Exactly when a step loses a wakeup: a step keeps every live subscriber informed if and only if it is
      not an in-place `Unsubscribe` that strands one. */
  lemma StepKeepsIff(s: State, e: Step)
    requires WellFormed(s) && Enabled(s, e) && NoLostWakeup(s)
    ensures WellFormed(Next(s, e)) && (NoLostWakeup(Next(s, e)) <==> Safe(s, e))
  {
    NextWellFormed(s, e);
    if e.Unsubscribe? {
      forall c | c in Live(s) && c != e.ch
        ensures c in Live(Next(s, e)) && (Informed(Next(s, e), c) <==> !Stranded(s, IndexOf(Live(s), e.ch), c))
      {
        LiveAfterShift(s, e.ch, c);
        UninformedIffStranded(s, e.ch, c);
      }
      forall c | c in Live(Next(s, e)) ensures c in Live(s) && c != e.ch {
        LiveAfterShift(s, e.ch, c);
      }
    } else {
      OtherStepsKeep(s, e);
    }
  }

  lemma NotRemoved(s: State, ch: Chan, c: Chan)
    requires WellFormed(s) && IndexOf(Live(s), ch) < s.len
    ensures var i := IndexOf(Live(s), ch); c in Live(s)[..i] + Live(s)[i + 1..] ==> c != ch
  {
    assert forall j :: 0 <= j < s.len ==> Live(s)[j] == s.arrays[s.arr][j];
  }

  // ----- whole runs -----

  /** The steps taken so far, the latest on the outside. */
  datatype History = Begin | Then(earlier: History, step: Step)

  ghost predicate Legal(h: History) {
    h.Then? ==> Legal(h.earlier) && WellFormed(After(h.earlier)) && Enabled(After(h.earlier), h.step)
  }

  /** The state a history leads to; a history that is not legal stops at its first illegal step. */
  ghost function After(h: History): State {
    match h
    case Begin => INIT
    case Then(earlier, e) =>
      var s := After(earlier);
      if WellFormed(s) && Enabled(s, e) then Next(s, e) else s
  }

  lemma {:induction false} LegalIsWellFormed(h: History)
    requires Legal(h)
    ensures WellFormed(After(h))
  {
    if h.Then? {
      NextWellFormed(After(h.earlier), h.step);
    }
  }

  /** No in-place `Unsubscribe` strands a subscriber; copying ones may come at any time. */
  ghost predicate AllSafe(h: History)
    requires Legal(h)
  {
    h.Then? ==> AllSafe(h.earlier) && Safe(After(h.earlier), h.step)
  }

  /** At no moment of the run has a wakeup been lost. */
  ghost predicate NeverLost(h: History)
    requires Legal(h)
  {
    WellFormed(After(h)) && NoLostWakeup(After(h)) && (h.Then? ==> NeverLost(h.earlier))
  }

  /** The runs in which no wakeup is ever lost, however publishers, notifiers and subscribers interleave, are
      exactly those of safe steps. In such a run, when no notifier is in flight, every subscriber is up to
      date or has a token. */
  lemma {:induction false} NoWakeupIsLost(h: History)
    requires Legal(h)
    ensures NeverLost(h) <==> AllSafe(h)
    ensures AllSafe(h) && After(h).notifiers == map[] ==> WellFormed(After(h)) && forall c :: c in Live(After(h)) ==>
      c in After(h).seen && (After(h).seen[c] == After(h).version || c in After(h).tokens)
  {
    LegalIsWellFormed(h);
    if h.Then? {
      NoWakeupIsLost(h.earlier);
      if AllSafe(h.earlier) {
        StepKeepsIff(After(h.earlier), h.step);
      }
    }
  }

  // ----- everyone can catch up -----

  /** `later` continues `h`, without a new version and with the same subscribers. */
  ghost predicate Continues(later: History, h: History)
    requires Legal(later) && Legal(h)
  {
    && WellFormed(After(h)) && WellFormed(After(later)) && Extends(later, h)
    && After(later).version == After(h).version && Live(After(later)) == Live(After(h))
    && (AllSafe(h) ==> AllSafe(later))
  }

  predicate Extends(later: History, h: History) {
    later == h || (later.Then? && Extends(later.earlier, h))
  }

  lemma {:induction false} ExtendsTransitive(a: History, b: History, c: History)
    requires Extends(a, b) && Extends(b, c)
    ensures Extends(a, c)
  {
    if a != b {
      ExtendsTransitive(a.earlier, b, c);
    }
  }

  /** One step of a notifier or of a subscriber. */
  lemma OneMore(h: History, e: Step)
    requires Legal(h) && WellFormed(After(h)) && Enabled(After(h), e) && (e.Deliver? || e.Finish? || e.Receive?)
    ensures Legal(Then(h, e)) && After(Then(h, e)) == Next(After(h), e) && Continues(Then(h, e), h)
  {
    NextWellFormed(After(h), e);
    LiveNext(After(h), e);
  }

  lemma ContinuesTransitive(a: History, b: History, c: History)
    requires Legal(a) && Legal(b) && Legal(c) && Continues(a, b) && Continues(b, c)
    ensures Continues(a, c)
  {
    ExtendsTransitive(a, b, c);
  }

  lemma DeliverMoves(s: State, id: nat)
    requires WellFormed(s) && id in s.notifiers && s.notifiers[id].pos < s.notifiers[id].len
    ensures Enabled(s, Deliver(id))
    ensures var n := s.notifiers[id]; Next(s, Deliver(id)).notifiers == s.notifiers[id := n.(pos := n.pos + 1)]
  {
  }

  lemma CanDeliver(h: History, s: State, id: nat) returns (later: History)
    requires Legal(h) && s == After(h) && WellFormed(s) && id in s.notifiers && s.notifiers[id].pos < s.notifiers[id].len
    ensures Legal(later) && Continues(later, h)
    ensures var n := s.notifiers[id]; After(later).notifiers == s.notifiers[id := n.(pos := n.pos + 1)]
  {
    DeliverMoves(s, id);
    later := Continued(h, s, Deliver(id));
  }

  /** The run with one more such step. */
  lemma Continued(h: History, s: State, e: Step) returns (later: History)
    requires Legal(h) && s == After(h) && WellFormed(s) && Enabled(s, e) && (e.Deliver? || e.Finish? || e.Receive?)
    ensures Legal(later) && Continues(later, h) && After(later) == Next(s, e)
  {
    later := Then(h, e);
    OneMore(h, e);
  }

  lemma CanFinish(h: History, s: State, id: nat) returns (later: History)
    requires Legal(h) && s == After(h) && WellFormed(s) && id in s.notifiers && s.notifiers[id].pos == s.notifiers[id].len
    ensures Legal(later) && Continues(later, h) && After(later).notifiers == s.notifiers - {id}
  {
    later := Continued(h, s, Finish(id));
  }

  lemma Replaced(m: map<nat, Notifier>, id: nat, n: Notifier)
    ensures m[id := n] - {id} == m - {id}
  {
  }

  lemma {:induction false} CanNotify(h: History, id: nat, n: Notifier) returns (later: History)
    requires Legal(h) && WellFormed(After(h)) && id in After(h).notifiers && After(h).notifiers[id] == n && n.pos <= n.len
    ensures Legal(later) && Continues(later, h) && After(later).notifiers == After(h).notifiers - {id}
    decreases n.len - n.pos
  {
    if n.pos == n.len {
      later := CanFinish(h, After(h), id);
    } else {
      var next := CanDeliver(h, After(h), id);
      Replaced(After(h).notifiers, id, n.(pos := n.pos + 1));
      later := CanNotify(next, id, n.(pos := n.pos + 1));
      ContinuesTransitive(later, next, h);
    }
  }

  lemma {:induction false} CanNotifyAll(h: History) returns (later: History)
    requires Legal(h) && WellFormed(After(h))
    ensures Legal(later) && Continues(later, h) && After(later).notifiers == map[]
    decreases |After(h).notifiers|
  {
    if After(h).notifiers == map[] {
      later := h;
    } else {
      var id :| id in After(h).notifiers;
      assert NotifierFits(After(h).notifiers[id], After(h));
      var next := CanNotify(h, id, After(h).notifiers[id]);
      Smaller(After(h).notifiers, id);
      later := CanNotifyAll(next);
      ContinuesTransitive(later, next, h);
    }
  }

  lemma Smaller(m: map<nat, Notifier>, id: nat)
    requires id in m
    ensures |m - {id}| < |m|
  {
    assert (m - {id}).Keys == m.Keys - {id};
    assert |m.Keys - {id}| < |m.Keys|;
  }

  lemma {:induction false} CanReceiveAll(h: History) returns (later: History)
    requires Legal(h) && WellFormed(After(h)) && After(h).notifiers == map[]
    ensures Legal(later) && Continues(later, h) && After(later).notifiers == map[] && After(later).tokens == {}
    decreases |After(h).tokens|
  {
    if After(h).tokens == {} {
      later := h;
    } else {
      var ch :| ch in After(h).tokens;
      var next := Continued(h, After(h), Receive(ch));
      later := CanReceiveAll(next);
      ContinuesTransitive(later, next, h);
    }
  }

  /** From any state of a run without lost wakeups, the notifiers in flight and the subscribers by themselves can go
      on to a state in which every live subscriber has read the latest version. */
  lemma EveryoneCanCatchUp(h: History) returns (later: History)
    requires Legal(h) && AllSafe(h)
    ensures Legal(later) && Extends(later, h) && WellFormed(After(h)) && WellFormed(After(later))
    ensures After(later).version == After(h).version && Live(After(later)) == Live(After(h))
    ensures forall c :: c in Live(After(later)) ==> c in After(later).seen && After(later).seen[c] == After(later).version
  {
    LegalIsWellFormed(h);
    var calm := CanNotifyAll(h);
    later := CanReceiveAll(calm);
    ContinuesTransitive(later, calm, h);
    NoWakeupIsLost(later);
  }

  // ----- runs that lose a wakeup -----

  /** The last publication has not reached a live subscriber, and nothing is left that would bring it. */
  ghost predicate Lost(s: State, c: Chan) {
    WellFormed(s) && s.notifiers == map[] && c in Live(s) && c in s.seen && s.seen[c] != s.version && c !in s.tokens
  }

  /** `inv` holds at the start and is kept by every step. */
  ghost predicate Inductive(inv: State -> bool) {
    inv(INIT) && forall s, e :: WellFormed(s) && inv(s) && Enabled(s, e) ==> inv(Next(s, e))
  }

  ghost predicate Keeps(inv: State -> bool, s: State) { Inductive(inv) && WellFormed(s) && inv(s) }

  lemma KeepsNext(inv: State -> bool, s: State, e: Step, t: State)
    requires Keeps(inv, s) && Enabled(s, e) && t == Next(s, e)
    ensures Keeps(inv, t)
  {
    NextWellFormed(s, e);
  }

  /** States with array `arr` in use and at most notifier 0. */
  function At(base: map<nat, seq<Chan>>, arr: nat, a: seq<Chan>, len: nat, tokens: set<Chan>, seen: map<Chan, nat>,
              version: nat, ns: map<nat, Notifier>): State
  {
    State(base[arr := a], arr, len, tokens, seen, version, ns)
  }

  /** A full array is replaced by a larger one; `b` is what it then holds. */
  lemma GrowStep(inv: State -> bool, base: map<nat, seq<Chan>>, arr: nat, a: seq<Chan>, seen: map<Chan, nat>,
                 ch: Chan, next: nat, b: seq<Chan>)
    requires Keeps(inv, At(base, arr, a, |a|, {}, seen, 0, map[]))
    requires ch !in seen && next !in base && next != arr
    requires |b| > |a| && (forall j :: 0 <= j < |a| ==> b[j] == a[j]) && (forall j :: |a| <= j < |b| ==> b[j] == ch)
    ensures Keeps(inv, At(base[arr := a], next, b, |a| + 1, {}, seen[ch := 0], 0, map[]))
  {
    var s, e := At(base, arr, a, |a|, {}, seen, 0, map[]), Subscribe(ch, next, |b| - |a| - 1);
    assert a + [ch] + seq(|b| - |a| - 1, _ => ch) == b;
    KeepsNext(inv, s, e, At(base[arr := a], next, b, |a| + 1, {}, seen[ch := 0], 0, map[]));
  }

  /** The next subscriber goes into the first slot that is not in use. */
  lemma ReuseStep(inv: State -> bool, s: State, ch: Chan, spare: nat, b: seq<Chan>)
    requires Keeps(inv, s) && ch !in s.seen && spare !in s.arrays && s.len < |s.arrays[s.arr]|
    requires |b| == |s.arrays[s.arr]| && b[s.len] == ch
    requires forall j :: 0 <= j < |b| && j != s.len ==> b[j] == s.arrays[s.arr][j]
    ensures Keeps(inv, s.(arrays := s.arrays[s.arr := b], len := s.len + 1, seen := s.seen[ch := s.version]))
  {
    assert s.arrays[s.arr][s.len := ch] == b;
    KeepsNext(inv, s, Subscribe(ch, spare, 0),
              s.(arrays := s.arrays[s.arr := b], len := s.len + 1, seen := s.seen[ch := s.version]));
  }

  /** The channel in slot 0 leaves; `b` is the array after the shift. */
  lemma UnsubscribeStep(inv: State -> bool, s: State, b: seq<Chan>)
    requires Keeps(inv, s) && 0 < s.len && b == ShiftDown(s.arrays[s.arr], 0, s.len)
    ensures Keeps(inv, s.(arrays := s.arrays[s.arr := b], len := s.len - 1))
  {
    var ch := s.arrays[s.arr][0];
    assert Live(s)[0] == ch;
    KeepsNext(inv, s, Unsubscribe(ch), s.(arrays := s.arrays[s.arr := b], len := s.len - 1));
  }

  lemma DeliverStep(inv: State -> bool, s: State, n: Notifier, c: Chan)
    requires Keeps(inv, s) && s.notifiers == map[0 := n] && NotifierFits(n, s) && n.pos < n.len
    requires c == s.arrays[n.arr][n.pos]
    ensures Keeps(inv, s.(tokens := s.tokens + {c}, notifiers := map[0 := n.(pos := n.pos + 1)]))
  {
    assert s.notifiers[0] == n;
    KeepsNext(inv, s, Deliver(0), s.(tokens := s.tokens + {c}, notifiers := map[0 := n.(pos := n.pos + 1)]));
  }

  lemma FinishStep(inv: State -> bool, s: State, n: Notifier)
    requires Keeps(inv, s) && s.notifiers == map[0 := n] && n.pos == n.len
    ensures Keeps(inv, s.(notifiers := map[]))
  {
    assert s.notifiers[0] == n;
    assert s.notifiers - {0} == map[];
    KeepsNext(inv, s, Finish(0), s.(notifiers := map[]));
  }

  lemma PublishStep(inv: State -> bool, s: State)
    requires Keeps(inv, s) && s.notifiers == map[]
    ensures Keeps(inv, s.(version := s.version + 1, notifiers := map[0 := Notifier(s.arr, s.len, 0)]))
  {
    KeepsNext(inv, s, Publish(0), s.(version := s.version + 1, notifiers := map[0 := Notifier(s.arr, s.len, 0)]));
  }

  /** Arrays that have been outgrown. */
  const BASE1: map<nat, seq<Chan>> := map[0 := []]
  const BASE2: map<nat, seq<Chan>> := BASE1[1 := [0]]
  const BASE3: map<nat, seq<Chan>> := BASE2[2 := [0, 1]]

  const SEEN1: map<Chan, nat> := map[0 := 0]
  const SEEN2: map<Chan, nat> := SEEN1[1 := 0]
  const SEEN3: map<Chan, nat> := SEEN2[2 := 0]

  /** Two subscribers: the slice grows to one slot and then to two. */
  lemma SubscribeTwo(inv: State -> bool)
    requires Inductive(inv)
    ensures Keeps(inv, At(BASE2, 2, [0, 1], 2, {}, SEEN2, 0, map[]))
  {
    assert WellFormed(INIT);
    assert BASE1[0 := []] == BASE1;
    assert INIT == At(BASE1, 0, [], 0, {}, map[], 0, map[]);
    GrowStep(inv, BASE1, 0, [], map[], 0, 1, [0]);
    GrowStep(inv, BASE1, 1, [0], SEEN1, 1, 2, [0, 1]);
  }

  /** A third: it grows to four. */
  lemma SubscribeThree(inv: State -> bool)
    requires Inductive(inv)
    ensures Keeps(inv, At(BASE3, 3, [0, 1, 2, 2], 3, {}, SEEN3, 0, map[]))
  {
    SubscribeTwo(inv);
    var a, b := [0, 1], [0, 1, 2, 2];
    assert b[0] == a[0] && b[1] == a[1] && b[2] == 2 && b[3] == 2;
    GrowStep(inv, BASE2, 2, a, SEEN2, 2, 3, b);
  }

  /** Publish, notify the first subscriber, and then that one leaves. */
  lemma FirstNotifiedLeaves(inv: State -> bool, base: map<nat, seq<Chan>>, arr: nat, a: seq<Chan>, len: nat,
                            seen: map<Chan, nat>, b: seq<Chan>)
    requires 0 < len <= |a| && a[0] == 0 && Keeps(inv, At(base, arr, a, len, {}, seen, 0, map[]))
    requires b == ShiftDown(a, 0, len)
    ensures Keeps(inv, At(base, arr, b, len - 1, {0}, seen, 1, map[0 := Notifier(arr, len, 1)]))
  {
    var s := At(base, arr, a, len, {}, seen, 0, map[]);
    PublishStep(inv, s);
    var t := At(base, arr, a, len, {}, seen, 1, map[0 := Notifier(arr, len, 0)]);
    DeliverStep(inv, t, Notifier(arr, len, 0), 0);
    assert {} + {0} == {0};
    UnsubscribeStep(inv, At(base, arr, a, len, {0}, seen, 1, map[0 := Notifier(arr, len, 1)]), b);
    assert base[arr := a][arr := b] == base[arr := b];
  }

  lemma LostNow(inv: State -> bool, s: State)
    requires Keeps(inv, s) && s.notifiers == map[] && 0 < s.len && s.arrays[s.arr][0] == 1
    requires 1 in s.seen && s.seen[1] != s.version && 1 !in s.tokens
    ensures exists s :: inv(s) && Lost(s, 1)
  {
    assert Live(s)[0] == 1;
    assert Lost(s, 1);
  }

  /** What slot `j` holds once slot 0 has been shifted away. */
  lemma ShiftAt(a: seq<Chan>, len: nat, j: nat, c: Chan)
    requires j < |a| && 0 < len <= |a| && c == a[if j < len - 1 then j + 1 else j]
    ensures ShiftDown(a, 0, len)[j] == c
  {
    assert ShiftDown(a, 0, len)[j] == if j < len - 1 then a[j + 1] else a[j];
  }

  /** Subscriber 0 leaves after it has been notified; the shift puts subscriber 1 behind the notifier,
      which then notifies subscriber 2 twice. */
  lemma ShiftLosesAWakeup(inv: State -> bool)
    requires Inductive(inv)
    ensures exists s :: inv(s) && Lost(s, 1)
  {
    var a, b := [0, 1, 2, 2], [1, 2, 2, 2];
    SubscribeThree(inv);
    ShiftAt(a, 3, 0, 1);
    ShiftAt(a, 3, 1, 2);
    ShiftAt(a, 3, 2, 2);
    ShiftAt(a, 3, 3, 2);
    assert ShiftDown(a, 0, 3) == b;
    FirstNotifiedLeaves(inv, BASE3, 3, a, 3, SEEN3, b);
    var s := At(BASE3, 3, b, 2, {0}, SEEN3, 1, map[0 := Notifier(3, 3, 1)]);
    DeliverStep(inv, s, Notifier(3, 3, 1), 2);
    var t := s.(tokens := {0} + {2}, notifiers := map[0 := Notifier(3, 3, 2)]);
    DeliverStep(inv, t, Notifier(3, 3, 2), 2);
    var u := t.(tokens := {0} + {2} + {2}, notifiers := map[0 := Notifier(3, 3, 3)]);
    FinishStep(inv, u, Notifier(3, 3, 3));
    LostNow(inv, u.(notifiers := map[]));
  }

  /** With two subscribers the last slot still holds a stale copy of the one that moved; a new
      subscriber overwrites it before the notifier gets there. */
  lemma ReuseLosesAWakeup(inv: State -> bool)
    requires Inductive(inv)
    ensures exists s :: inv(s) && Lost(s, 1)
  {
    var a, b, c := [0, 1], [1, 1], [1, 2];
    SubscribeTwo(inv);
    ShiftAt(a, 2, 0, 1);
    ShiftAt(a, 2, 1, 1);
    assert ShiftDown(a, 0, 2) == b;
    assert c[0] == b[0] && c[1] == 2;
    FirstNotifiedLeaves(inv, BASE2, 2, a, 2, SEEN2, b);
    var n := map[0 := Notifier(2, 2, 1)];
    ReuseStep(inv, At(BASE2, 2, b, 1, {0}, SEEN2, 1, n), 2, 3, c);
    assert BASE2[2 := b][2 := c] == BASE2[2 := c];
    var s := At(BASE2, 2, c, 2, {0}, SEEN2[2 := 1], 1, n);
    DeliverStep(inv, s, Notifier(2, 2, 1), 2);
    var t := s.(tokens := {0} + {2}, notifiers := map[0 := Notifier(2, 2, 2)]);
    FinishStep(inv, t, Notifier(2, 2, 2));
    LostNow(inv, t.(notifiers := map[]));
  }

  /** The states that legal runs lead to. */
  ghost predicate Reached(s: State) {
    exists h :: Legal(h) && After(h) == s
  }

  lemma ReachedIsInductive()
    ensures Inductive(s => Reached(s))
  {
    assert Legal(Begin) && After(Begin) == INIT;
    forall s, e | WellFormed(s) && Reached(s) && Enabled(s, e) ensures Reached(Next(s, e)) {
      var h :| Legal(h) && After(h) == s;
      assert Legal(Then(h, e)) && After(Then(h, e)) == Next(s, e);
    }
  }

  /** As the code stands, there are runs that lose a wakeup. */
  lemma CodeLosesWakeups()
    ensures exists h :: Legal(h) && Lost(After(h), 1)
  {
    ReachedIsInductive();
    var inv := s => Reached(s);
    ShiftLosesAWakeup(inv);
    var s :| inv(s) && Lost(s, 1);
    var h :| Legal(h) && After(h) == s;
  }
}
