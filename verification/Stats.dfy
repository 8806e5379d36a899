/** The usage statistics of `JSONStore`: a cache of counters that is updated in place, and deep copies of
    it for readers and for the flusher. */
module Stats {

  /** One call of an operation. Counters are unbounded here. */
  datatype Event = Event(operationId: string, latencyMs: int, isError: bool, at: int)

  datatype Stat = Stat(calls: nat, errors: nat, latency: int, last: int)

  type Table = map<string, Stat>

  function Bump(s: Stat, e: Event): Stat {
    Stat(s.calls + 1, s.errors + if e.isError then 1 else 0, s.latency + e.latencyMs, e.at)
  }

  function Add(t: Table, e: Event): Table {
    t[e.operationId := Bump(if e.operationId in t then t[e.operationId] else Stat(0, 0, 0, 0), e)]
  }

  function Fold(history: seq<Event>): Table {
    if history == [] then map[] else Add(Fold(history[..|history| - 1]), history[|history| - 1])
  }

  // ----- what the counters count -----

  function Of(history: seq<Event>, op: string): seq<Event> {
    if history == [] then []
    else
      var before, e := Of(history[..|history| - 1], op), history[|history| - 1];
      if e.operationId == op then before + [e] else before
  }

  function Errors(events: seq<Event>): nat {
    if events == [] then 0
    else Errors(events[..|events| - 1]) + if events[|events| - 1].isError then 1 else 0
  }

  function Latency(events: seq<Event>): int {
    if events == [] then 0 else Latency(events[..|events| - 1]) + events[|events| - 1].latencyMs
  }

  /** An operation has an entry exactly if it was called, and the entry holds the number of its calls, the
      number of them that failed, their summed latency and the time of the last one. */
  lemma {:induction false} FoldCounts(history: seq<Event>, op: string)
    ensures var mine := Of(history, op);
      && (op in Fold(history) <==> mine != [])
      && (mine != [] ==> Fold(history)[op] == Stat(|mine|, Errors(mine), Latency(mine), mine[|mine| - 1].at))
  {
    if history != [] {
      var before, e := history[..|history| - 1], history[|history| - 1];
      FoldCounts(before, op);
      if e.operationId == op {
        assert Of(history, op)[..|Of(before, op)|] == Of(before, op);
      }
    }
  }

  /** What one more call adds: one to the calls, one to the errors if it failed, its latency, and its time; the other
      operations keep their entries. */
  lemma OneMoreCall(history: seq<Event>, e: Event, op: string)
    ensures var before, after := Fold(history), Fold(history + [e]);
      var was := if op in before then before[op] else Stat(0, 0, 0, 0);
      && Fold([]) == map[]
      && (op in after <==> op in before || op == e.operationId)
      && (op != e.operationId && op in after ==> after[op] == was)
      && (op == e.operationId ==>
            after[op] ==
              Stat(was.calls + 1, if e.isError then was.errors + 1 else was.errors, was.latency + e.latencyMs, e.at))
  {
    assert (history + [e])[..|history|] == history;
  }

  /** Where the history has a call of the operation, and where one that failed. */
  function CallsOf(history: seq<Event>, op: string): set<int> {
    set i | 0 <= i < |history| && history[i].operationId == op
  }

  function FailuresOf(history: seq<Event>, op: string): set<int> {
    set i | 0 <= i < |history| && history[i].operationId == op && history[i].isError
  }

  /** So the calls and the errors of an operation are the numbers of its events and of those that failed. */
  lemma {:induction false} CountsAre(history: seq<Event>, op: string)
    ensures var was := if op in Fold(history) then Fold(history)[op] else Stat(0, 0, 0, 0);
      was.calls == |CallsOf(history, op)| && was.errors == |FailuresOf(history, op)|
  {
    if history != [] {
      var n := |history| - 1;
      CountsAre(history[..n], op);
      CallsGrow(history, n, op);
      FailuresGrow(history, n, op);
    }
  }

  lemma CallsGrow(history: seq<Event>, n: nat, op: string)
    requires n + 1 == |history|
    ensures |CallsOf(history, op)| == |CallsOf(history[..n], op)| + if history[n].operationId == op then 1 else 0
  {
    assert CallsOf(history, op) == CallsOf(history[..n], op) + if history[n].operationId == op then {n} else {};
  }

  lemma FailuresGrow(history: seq<Event>, n: nat, op: string)
    requires n + 1 == |history|
    ensures |FailuresOf(history, op)| ==
      |FailuresOf(history[..n], op)| + if history[n].operationId == op && history[n].isError then 1 else 0
  {
    var more := if history[n].operationId == op && history[n].isError then {n} else {};
    assert FailuresOf(history, op) == FailuresOf(history[..n], op) + more;
  }

  lemma {:induction false} ErrorsAtMostCalls(events: seq<Event>)
    ensures Errors(events) <= |events|
  {
    if events != [] {
      ErrorsAtMostCalls(events[..|events| - 1]);
    }
  }

  lemma {:induction false} ErrorsNeverExceedCalls(history: seq<Event>)
    ensures forall op :: op in Fold(history) ==> Fold(history)[op].errors <= Fold(history)[op].calls
  {
    forall op | op in Fold(history) ensures Fold(history)[op].errors <= Fold(history)[op].calls {
      FoldCounts(history, op);
      ErrorsAtMostCalls(Of(history, op));
    }
  }

  lemma {:induction false} OfGrows(history: seq<Event>, n: nat, op: string)
    requires n <= |history|
    ensures |Of(history[..n], op)| <= |Of(history, op)|
  {
    if n == |history| {
      assert history[..n] == history;
    } else {
      OfGrows(history[..|history| - 1], n, op);
      assert history[..|history| - 1][..n] == history[..n];
    }
  }

  /** A table tells how much of the history it covers: a proper prefix has another table. */
  lemma PrefixDiffers(history: seq<Event>, n: nat)
    requires n < |history|
    ensures Fold(history[..n]) != Fold(history)
  {
    var e, op := history[n], history[n].operationId;
    FoldCounts(history[..n], op);
    FoldCounts(history, op);
    OfGrows(history, n + 1, op);
    assert history[..n + 1][..n] == history[..n] && history[..n + 1][n] == e;
  }

  // ----- the cache -----

  class ToolStats {
    var calls: nat
    var errors: nat
    var latency: int
    var last: int

    constructor (s: Stat)
      ensures Value() == s
    {
      calls, errors, latency, last := s.calls, s.errors, s.latency, s.last;
    }

    function Value(): Stat
      reads this
    {
      Stat(calls, errors, latency, last)
    }

    /** The assignments of `IncrementStats`. */
    method Count(e: Event)
      modifies this
      ensures Value() == Bump(old(Value()), e)
    {
      calls := calls + 1;
      if e.isError {
        errors := errors + 1;
      }
      latency := latency + e.latencyMs;
      last := e.at;
    }
  }

  ghost function Objects(m: map<string, ToolStats>): set<ToolStats> { set k | k in m :: m[k] }

  ghost function TableOf(m: map<string, ToolStats>): Table
    reads Objects(m)
  {
    map k | k in m :: m[k].Value()
  }

  class StatsCache {
    var entries: map<string, ToolStats>
    var dirty: bool

    /** No two operations share an entry. */
    ghost predicate Valid()
      reads this
    {
      forall k, k' :: k in entries && k' in entries && k != k' ==> entries[k] != entries[k']
    }

    constructor ()
      ensures Valid() && TableOf(entries) == map[] && !dirty
    {
      entries, dirty := map[], false;
    }

    /** The entry of an operation, made if there is none. */
    method EntryOf(op: string) returns (st: ToolStats)
      requires Valid()
      modifies this
      ensures Valid() && op in entries && entries[op] == st && dirty == old(dirty)
      ensures TableOf(entries) ==
        old(TableOf(entries))[op := if op in old(entries) then old(TableOf(entries)[op]) else Stat(0, 0, 0, 0)]
      ensures fresh(Objects(entries) - old(Objects(entries)))
    {
      if op !in entries {
        var blank := new ToolStats(Stat(0, 0, 0, 0));
        entries := entries[op := blank];
      }
      st := entries[op];
    }

    /** `IncrementStats`. */
    method Increment(e: Event)
      requires Valid()
      modifies this, Objects(entries)
      ensures Valid() && dirty
      ensures TableOf(entries) == Add(old(TableOf(entries)), e)
      ensures fresh(Objects(entries) - old(Objects(entries)))
    {
      var st := EntryOf(e.operationId);
      ghost var before := TableOf(entries);
      st.Count(e);
      forall k | k in entries && k != e.operationId ensures entries[k].Value() == before[k] {
        assert entries[k] != st;
      }
      dirty := true;
    }

    /** The loop that `GetAllStats` and `flushStats` share: a copy of every entry. */
    method Copy() returns (copy: map<string, ToolStats>)
      requires Valid()
      ensures TableOf(copy) == TableOf(entries) && fresh(Objects(copy))
    {
      copy := map[];
      var todo := entries.Keys;
      while todo != {}
        invariant todo <= entries.Keys && copy.Keys == entries.Keys - todo
        invariant forall k :: k in copy ==> fresh(copy[k]) && copy[k].Value() == entries[k].Value()
        decreases todo
      {
        var k :| k in todo;
        var cp := new ToolStats(entries[k].Value());
        copy := copy[k := cp];
        todo := todo - {k};
      }
    }

    /** The locked part of `flushStats`. */
    method BeginFlush() returns (copy: map<string, ToolStats>, needed: bool)
      requires Valid()
      modifies this`dirty
      ensures Valid() && !dirty && needed == old(dirty)
      ensures needed ==> TableOf(copy) == TableOf(entries) && fresh(Objects(copy))
      ensures TableOf(entries) == old(TableOf(entries))
    {
      copy := map[];
      needed := dirty;
      if needed {
        copy := Copy();
        dirty := false;
      }
    }

    /** A copy that has been handed out does not change when the cache does. */
    method CopyThenIncrement(e: Event) returns (copy: map<string, ToolStats>)
      requires Valid()
      modifies this, Objects(entries)
      ensures Valid() && TableOf(copy) == old(TableOf(entries))
      ensures TableOf(entries) == Add(old(TableOf(entries)), e)
    {
      copy := Copy();
      Increment(e);
    }
  }
}
