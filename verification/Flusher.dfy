/** The statistics flusher as a protocol: increments from any goroutine, one flusher that copies under the
    lock and writes outside it, write failures, `Close`, and crashes followed by a restart. */
module Flusher {
  import opened Text
  import opened Stats

  /** The temporary file: absent, cut short, or a complete table. */
  datatype Temp = NoTemp | TornTemp | WholeTemp(table: Table)

  /** Where the flusher goroutine is. `n` events of the history are in the copy it is writing. */
  datatype Phase =
    | Waiting
    | Copied(copy: Table, n: nat, final: bool)
    | Writing(copy: Table, n: nat, final: bool)
    | Renaming(copy: Table, n: nat, final: bool)
    | Exited
  {
    predicate InFlight() { Copied? || Writing? || Renaming? }
  }

  /** `disk` is the statistics file (`None` if there is none). The rest is bookkeeping for the proof:
      `history` are the events since the beginning that have not been lost in a crash, the first `durable`
      of them are on disk, `failed` says that the last attempt to write failed, and `closedAt` how many
      events there were when `Close` was called. */
  datatype State = State(
    cache: Table, dirty: bool, phase: Phase, stopping: bool,
    disk: Option<Table>, temp: Temp,
    history: seq<Event>, durable: nat, failed: bool, closedAt: Option<nat>)

  datatype Step =
    | Increment(event: Event)
    | Tick             // the ticker fires: lock, copy if dirty, unlock
    | Stop             // the stop channel is closed: the same, for the last time
    | CreateTemp       // os.WriteFile has truncated the temporary file
    | WriteTemp        // os.WriteFile is done
    | Rename
    | Fail             // the write or the rename returns an error, which is ignored
    | Close
    | Crash            // the process dies in whatever state, and a new one starts on the same directory

  const INIT := State(map[], false, Waiting, false, None, NoTemp, [], 0, false, None)

  predicate Enabled(s: State, e: Step) {
    match e
    case Increment(_) => true
    case Tick => s.phase.Waiting?
    case Stop => s.phase.Waiting? && s.stopping
    case CreateTemp => s.phase.Copied?
    case WriteTemp => s.phase.Writing?
    case Rename => s.phase.Renaming?
    case Fail => s.phase.InFlight()
    case Close => !s.stopping
    case Crash => true
  }

  /** What `NewJSONStore` loads. */
  function Loaded(disk: Option<Table>): Table { if disk.Some? then disk.value else map[] }

  function After(final: bool): Phase { if final then Exited else Waiting }

  function Flush(s: State, final: bool): State {
    if s.dirty then s.(dirty := false, phase := Copied(s.cache, |s.history|, final))
    else s.(phase := After(final))
  }

  function Next(s: State, e: Step): State
    requires Enabled(s, e)
  {
    match e
    case Increment(event) =>
      s.(cache := Add(s.cache, event), dirty := true, history := s.history + [event])
    case Tick => Flush(s, false)
    case Stop => Flush(s, true)
    case CreateTemp => s.(temp := TornTemp, phase := Writing(s.phase.copy, s.phase.n, s.phase.final))
    case WriteTemp => s.(temp := WholeTemp(s.phase.copy), phase := Renaming(s.phase.copy, s.phase.n, s.phase.final))
    case Rename =>
      s.(disk := if s.temp.WholeTemp? then Some(s.temp.table) else s.disk, temp := NoTemp,
         phase := After(s.phase.final), durable := s.phase.n, failed := false)
    case Fail => s.(phase := After(s.phase.final), failed := true)
    case Close => s.(stopping := true, closedAt := Some(|s.history|))
    case Crash =>
      State(Loaded(s.disk), false, Waiting, false, s.disk, s.temp,
            if s.durable <= |s.history| then s.history[..s.durable] else s.history, s.durable, false, None)
  }

  ghost predicate Inv(s: State) {
    // the cache is the fold of the whole history, the disk of a prefix of it
    && s.cache == Fold(s.history)
    && s.durable <= |s.history| && Loaded(s.disk) == Fold(s.history[..s.durable])
    // the copy in flight is the fold of a longer prefix, and the temporary file holds it before the rename
    && (s.phase.InFlight() ==>
          s.durable < s.phase.n <= |s.history| && s.phase.copy == Fold(s.history[..s.phase.n]))
    && (s.phase.Renaming? ==> s.temp == WholeTemp(s.phase.copy))
    // the dirty flag tells exactly what neither the copy in flight nor, failing that, the last attempt has
    && (s.dirty ==> s.durable < |s.history| && (s.phase.InFlight() ==> s.phase.n < |s.history|))
    && (!s.dirty && s.phase.InFlight() ==> s.phase.n == |s.history|)
    && (!s.dirty && !s.phase.InFlight() && !s.failed ==> s.durable == |s.history|)
    && (s.failed ==> s.durable < |s.history|)
    // closing
    && (s.closedAt.Some? <==> s.stopping) && (s.closedAt.Some? ==> s.closedAt.value <= |s.history|)
    && (s.phase.Exited? ==> s.stopping)
    && (s.phase.InFlight() && s.phase.final ==> s.stopping && s.closedAt.value <= s.phase.n)
    && (s.phase.Exited? && !s.failed ==> s.closedAt.value <= s.durable)
  }

  lemma IncrementKeepsInv(s: State, e: Event)
    requires Inv(s)
    ensures Inv(Next(s, Increment(e)))
  {
    var h := s.history + [e];
    assert h[..|h| - 1] == s.history;
    assert h[..s.durable] == s.history[..s.durable];
    if s.phase.InFlight() {
      assert h[..s.phase.n] == s.history[..s.phase.n];
    }
  }

  lemma NextKeepsInv(s: State, e: Step)
    requires Inv(s) && Enabled(s, e)
    ensures Inv(Next(s, e))
  {
    if e.Increment? {
      IncrementKeepsInv(s, e.event);
    } else if e.Crash? {
      CrashKeepsInv(s);
    } else if e.Tick? || e.Stop? {
      FlushKeepsInv(s, e.Stop?);
    } else if e.Rename? {
      RenameKeepsInv(s);
    } else if e.Fail? {
      FailKeepsInv(s);
    }
  }

  lemma RenameKeepsInv(s: State)
    requires Inv(s) && s.phase.Renaming?
    ensures Inv(Next(s, Rename))
  {
  }

  lemma FailKeepsInv(s: State)
    requires Inv(s) && s.phase.InFlight()
    ensures Inv(Next(s, Fail))
  {
  }

  lemma CrashKeepsInv(s: State)
    requires Inv(s)
    ensures Inv(Next(s, Crash))
  {
    assert s.history[..s.durable][..s.durable] == s.history[..s.durable];
  }

  lemma FlushKeepsInv(s: State, final: bool)
    requires Inv(s) && s.phase.Waiting? && (final ==> s.stopping)
    ensures Inv(Flush(s, final))
  {
    assert s.history[..|s.history|] == s.history;
  }

  /** The new process has loaded what was last renamed into place. */
  lemma AfterCrash(s: State)
    requires Inv(s)
    ensures var t := Next(s, Crash);
      t.cache == Fold(s.history[..s.durable]) && t.disk == s.disk && !t.dirty && t.history == s.history[..s.durable]
  {
  }

  lemma DiskGrowsByOne(s: State, e: Step)
    requires Inv(s) && Enabled(s, e)
    ensures s.durable <= Next(s, e).durable && s.durable <= |s.history| && s.durable <= |Next(s, e).history|
    ensures Next(s, e).history[..s.durable] == s.history[..s.durable]
    ensures Next(s, e).disk == s.disk || (e.Rename? && Next(s, e).disk == Some(s.phase.copy))
  {
  }

  // ----- whole runs -----

  datatype History = Begin | Then(earlier: History, step: Step)

  predicate Legal(h: History) {
    h.Then? ==> Legal(h.earlier) && Enabled(Reach(h.earlier), h.step)
  }

  function Reach(h: History): State {
    match h
    case Begin => INIT
    case Then(earlier, e) => if Enabled(Reach(earlier), e) then Next(Reach(earlier), e) else Reach(earlier)
  }

  lemma {:induction false} RunsKeepInv(h: History)
    requires Legal(h)
    ensures Inv(Reach(h))
  {
    if h.Then? {
      RunsKeepInv(h.earlier);
      NextKeepsInv(Reach(h.earlier), h.step);
    }
  }

  /** In every reachable state the cache folds the whole history and the disk a prefix of it, and no
      operation has more errors than calls, in memory or on disk. */
  lemma CacheAndDisk(h: History)
    requires Legal(h)
    ensures var s := Reach(h);
      && s.cache == Fold(s.history) && s.durable <= |s.history| && Loaded(s.disk) == Fold(s.history[..s.durable])
      && (forall op :: op in s.cache ==> s.cache[op].errors <= s.cache[op].calls)
      && (forall op :: op in Loaded(s.disk) ==> Loaded(s.disk)[op].errors <= Loaded(s.disk)[op].calls)
  {
    RunsKeepInv(h);
    var s := Reach(h);
    ErrorsNeverExceedCalls(s.history);
    ErrorsNeverExceedCalls(s.history[..s.durable]);
  }

  predicate Extends(later: History, h: History) {
    later == h || (later.Then? && Extends(later.earlier, h))
  }

  /** The part of the history that is on disk only ever grows, over any run, through failures and crashes. */
  lemma {:induction false} DiskOnlyGrows(h: History, later: History)
    requires Legal(later) && Extends(later, h)
    ensures Reach(h).durable <= Reach(later).durable
    ensures Reach(h).durable <= |Reach(h).history| && Reach(h).durable <= |Reach(later).history|
    ensures Reach(later).history[..Reach(h).durable] == Reach(h).history[..Reach(h).durable]
  {
    RunsKeepInv(later);
    if later != h {
      DiskOnlyGrows(h, later.earlier);
      RunsKeepInv(later.earlier);
      var s, t, n := Reach(later.earlier), Reach(later), Reach(h).durable;
      DiskGrowsByOne(s, later.step);
      ShorterPrefix(t.history, s.history, s.durable, n);
    }
  }

  lemma ShorterPrefix(a: seq<Event>, b: seq<Event>, m: nat, n: nat)
    requires n <= m <= |a| && m <= |b| && a[..m] == b[..m]
    ensures a[..n] == b[..n]
  {
    assert a[..m][..n] == a[..n] && b[..m][..n] == b[..n];
  }

  /** When nothing is dirty and no flush is in flight, the disk equals the cache exactly if the last
      attempt to write did not fail: a failed write has already cleared the dirty flag. */
  lemma QuietIffWritten(h: History)
    requires Legal(h) && !Reach(h).dirty && !Reach(h).phase.InFlight()
    ensures Loaded(Reach(h).disk) == Reach(h).cache <==> !Reach(h).failed
  {
    RunsKeepInv(h);
    var s := Reach(h);
    if s.failed {
      PrefixDiffers(s.history, s.durable);
    } else {
      assert s.history[..s.durable] == s.history;
    }
  }

  /** Once the flusher has exited, the disk covers every event that came before `Close`, unless the last
      attempt to write failed. */
  lemma CloseIsDurable(h: History)
    requires Legal(h) && Reach(h).phase.Exited? && !Reach(h).failed
    ensures Reach(h).closedAt.Some? && Reach(h).closedAt.value <= Reach(h).durable
  {
    RunsKeepInv(h);
  }

  /** A crash at any moment reloads the table that was last renamed into place, whatever the temporary file
      holds, and the new process starts clean. */
  lemma RestartReloadsFlushed(h: History)
    requires Legal(h)
    ensures Reach(h).durable <= |Reach(h).history|
    ensures var s, t := Reach(h), Next(Reach(h), Crash);
      t.cache == Fold(s.history[..s.durable]) && t.disk == s.disk && !t.dirty && t.history == s.history[..s.durable]
  {
    RunsKeepInv(h);
    AfterCrash(Reach(h));
  }

  /** Nothing left to do, as far as the flusher can tell, and yet the last write failed. */
  predicate QuietlyFailed(s: State) { !s.dirty && !s.phase.InFlight() && s.failed }

  /** `later` continues `h` without a new event and without a crash. */
  predicate NoNews(later: History, h: History) {
    later == h || (later.Then? && !later.step.Increment? && !later.step.Crash? && NoNews(later.earlier, h))
  }

  /** After a failed flush no later tick, and not `Close` either, writes what is missing: it stays so for as
      long as no new event comes. A crash then loses it for good. */
  lemma {:induction false} FailureStays(h: History, later: History)
    requires Legal(later) && NoNews(later, h) && QuietlyFailed(Reach(h))
    ensures QuietlyFailed(Reach(later)) && Reach(later).disk == Reach(h).disk && Reach(later).cache == Reach(h).cache
    ensures Loaded(Reach(later).disk) != Reach(later).cache && Next(Reach(later), Crash).cache != Reach(later).cache
  {
    if later != h {
      FailureStays(h, later.earlier);
    }
    QuietIffWritten(later);
  }

  /** Such a failure happens: one event, one tick, one failing write. */
  lemma FailureIsSilent(e: Event)
    ensures var h := Then(Then(Then(Then(Begin, Increment(e)), Tick), Fail), Tick);
      Legal(h) && !Reach(h).dirty && Reach(h).phase.Waiting? && Loaded(Reach(h).disk) != Reach(h).cache
  {
    var h1 := Then(Begin, Increment(e));
    var h2 := Then(h1, Tick);
    var h3 := Then(h2, Fail);
    var h4 := Then(h3, Tick);
    assert Legal(Begin) && Reach(Begin) == INIT;
    assert Legal(h1) && Reach(h1) == Next(INIT, Increment(e));
    assert Legal(h2) && Reach(h2) == Flush(Reach(h1), false) && Reach(h2).phase.Copied?;
    assert Legal(h3) && Reach(h3) == Next(Reach(h2), Fail);
    assert Reach(h3).phase.Waiting? && !Reach(h3).dirty && Reach(h3).failed;
    assert Legal(h4) && Reach(h4) == Reach(h3);
    QuietIffWritten(h4);
  }

  // ----- what the flusher can still do -----

  lemma {:induction false} ExtendsTransitive(a: History, b: History, c: History)
    requires Extends(a, b) && Extends(b, c)
    ensures Extends(a, c)
  {
    if a != b {
      ExtendsTransitive(a.earlier, b, c);
    }
  }

  /** A flush in flight can be completed, and then the disk has what was copied. */
  lemma CanComplete(h: History) returns (later: History)
    requires Legal(h) && Reach(h).phase.InFlight()
    ensures Legal(later) && Extends(later, h) && Reach(later).phase == (if Reach(h).phase.final then Exited else Waiting)
    ensures Reach(later).disk == Some(Reach(h).phase.copy) && !Reach(later).failed
    ensures Reach(later).cache == Reach(h).cache && Reach(later).history == Reach(h).history
    ensures Reach(later).dirty == Reach(h).dirty && Reach(later).stopping == Reach(h).stopping
    ensures Reach(later).closedAt == Reach(h).closedAt
  {
    RunsKeepInv(h);
    var a := if Reach(h).phase.Copied? then Then(h, CreateTemp) else h;
    assert Legal(a) && !Reach(a).phase.Copied?;
    RunsKeepInv(a);
    var b := if Reach(a).phase.Writing? then Then(a, WriteTemp) else a;
    assert Legal(b) && Reach(b).phase.Renaming?;
    RunsKeepInv(b);
    later := Then(b, Rename);
    assert Extends(b, a) && Extends(a, h);
  }

  /** Unless a failed write has been forgotten already, a running store can always be closed in such a way that
      the disk has everything. */
  lemma CanFinish(h: History) returns (later: History)
    requires Legal(h) && !Reach(h).stopping && !QuietlyFailed(Reach(h))
    ensures Legal(later) && Extends(later, h) && Reach(later).phase.Exited?
    ensures Reach(later).history == Reach(h).history && Loaded(Reach(later).disk) == Reach(later).cache == Reach(h).cache
  {
    RunsKeepInv(h);
    var calm := h;
    if Reach(h).phase.InFlight() {
      calm := CanComplete(h);
    }
    RunsKeepInv(calm);
    var closing := Then(calm, Close);
    var stopped := Then(closing, Stop);
    assert Legal(closing) && Legal(stopped);
    later := stopped;
    if Reach(stopped).phase.InFlight() {
      later := CanComplete(stopped);
      ExtendsTransitive(later, stopped, calm);
    }
    ExtendsTransitive(later, calm, h);
    QuietIffWritten(later);
  }
}
