/** The tool-call loop of the chat page: streamed fragments are put together again, the tools are called, and
    the history for the next request grows. */
module ToolCalls {
  import opened Text

  /** A fragment of a tool call; an absent or null field is the empty string here, as the code treats it. */
  datatype Delta = Delta(index: nat, id: string, name: string, args: string)

  datatype Chunk = Chunk(content: string, deltas: seq<Delta>)

  datatype Call = Call(id: string, name: string, args: string)

  // ----- reassembly -----

  /** What one fragment does to the call under its index. */
  function Extend(old_: Option<Call>, d: Delta): Call {
    var c := if old_.Some? then old_.value else Call(d.id, "", "");
    Call(if d.id != "" then d.id else c.id, c.name + d.name, c.args + d.args)
  }

  function At(m: map<nat, Call>, k: nat): Option<Call> {
    if k in m then Some(m[k]) else None
  }

  function AddDelta(m: map<nat, Call>, d: Delta): map<nat, Call> {
    m[d.index := Extend(At(m, d.index), d)]
  }

  /** Fragments in order of arrival, the latest on the outside. */
  datatype Deltas = NoDeltas | Then(earlier: Deltas, delta: Delta)

  function Table(ds: Deltas): map<nat, Call> {
    match ds
    case NoDeltas => map[]
    case Then(earlier, d) => AddDelta(Table(earlier), d)
  }

  /** Followed by the first `n` of `s`. */
  function AddAll(ds: Deltas, s: seq<Delta>, n: nat): Deltas
    requires n <= |s|
  {
    if n == 0 then ds else Then(AddAll(ds, s, n - 1), s[n - 1])
  }

  /** The fragments in the first `n` chunks. */
  function FragmentsIn(stream: seq<Chunk>, n: nat): Deltas
    requires n <= |stream|
  {
    if n == 0 then NoDeltas else AddAll(FragmentsIn(stream, n - 1), stream[n - 1].deltas, |stream[n - 1].deltas|)
  }

  function ContentIn(stream: seq<Chunk>, n: nat): string
    requires n <= |stream|
  {
    if n == 0 then "" else ContentIn(stream, n - 1) + stream[n - 1].content
  }

  function Fragments(stream: seq<Chunk>): Deltas { FragmentsIn(stream, |stream|) }

  function Content(stream: seq<Chunk>): string { ContentIn(stream, |stream|) }

  /** The two loops over the stream. */
  method Reassemble(stream: seq<Chunk>) returns (content: string, calls: map<nat, Call>)
    ensures content == Content(stream) && calls == Table(Fragments(stream))
  {
    content, calls := "", map[];
    for i := 0 to |stream|
      invariant content == ContentIn(stream, i) && calls == Table(FragmentsIn(stream, i))
    {
      var chunk := stream[i];
      if chunk.content != "" {
        content := content + chunk.content;
      }
      for j := 0 to |chunk.deltas|
        invariant calls == Table(AddAll(FragmentsIn(stream, i), chunk.deltas, j))
      {
        calls := Absorb(calls, chunk.deltas[j]);
      }
    }
  }

  /** The body of the inner loop. */
  method Absorb(before: map<nat, Call>, tc: Delta) returns (calls: map<nat, Call>)
    ensures calls == AddDelta(before, tc)
  {
    calls := before;
    var idx := tc.index;
    if idx !in calls {
      calls := calls[idx := Call(tc.id, "", "")];
    }
    if tc.id != "" {
      calls := calls[idx := calls[idx].(id := tc.id)];
    }
    if tc.name != "" {
      calls := calls[idx := calls[idx].(name := calls[idx].name + tc.name)];
    }
    if tc.args != "" {
      calls := calls[idx := calls[idx].(args := calls[idx].args + tc.args)];
    }
    ghost var c := if idx in before then before[idx] else Call(tc.id, "", "");
    assert c.name + "" == c.name && c.args + "" == c.args;
    assert calls[idx] == Extend(At(before, idx), tc);
  }

  // ----- what reassembly means -----

  /** Only the chunks before `n` matter, and of one list of fragments only those before `n`. */
  lemma {:induction false} AddAllPrefix(ds: Deltas, s: seq<Delta>, more: seq<Delta>, n: nat)
    requires n <= |s|
    ensures AddAll(ds, s + more, n) == AddAll(ds, s, n)
  {
    if n > 0 {
      AddAllPrefix(ds, s, more, n - 1);
    }
  }

  lemma {:induction false} StreamPrefix(stream: seq<Chunk>, more: seq<Chunk>, n: nat)
    requires n <= |stream|
    ensures FragmentsIn(stream + more, n) == FragmentsIn(stream, n)
    ensures ContentIn(stream + more, n) == ContentIn(stream, n)
  {
    if n > 0 {
      StreamPrefix(stream, more, n - 1);
    }
  }

  /** What one more chunk adds to the content, and one more fragment at its end to the call of its index. */
  lemma LastFragment(stream: seq<Chunk>, said: string, deltas: seq<Delta>, d: Delta)
    ensures Content([]) == "" && Content(stream + [Chunk(said, deltas)]) == Content(stream) + said
    ensures Table(Fragments([])) == map[]
    ensures Table(Fragments(stream + [Chunk(said, [])])) == Table(Fragments(stream))
    ensures var m := Table(Fragments(stream + [Chunk(said, deltas)]));
      var id, name, args := if d.index in m then m[d.index].id else "",
        if d.index in m then m[d.index].name else "", if d.index in m then m[d.index].args else "";
      Table(Fragments(stream + [Chunk(said, deltas + [d])])) ==
        m[d.index := Call(if d.id != "" then d.id else id, name + d.name, args + d.args)]
  {
    var none, before, after := Chunk(said, []), Chunk(said, deltas), Chunk(said, deltas + [d]);
    StreamPrefix(stream, [none], |stream|);
    StreamPrefix(stream, [before], |stream|);
    StreamPrefix(stream, [after], |stream|);
    AddAllPrefix(Fragments(stream), deltas, [d], |deltas|);
    assert Fragments(stream + [after]) == Then(Fragments(stream + [before]), d);
    assert "" + d.name == d.name && "" + d.args == d.args;
  }

  /** The fragments of one index, in order. */
  function Project(ds: Deltas, k: nat): Deltas {
    match ds
    case NoDeltas => NoDeltas
    case Then(earlier, d) => if d.index == k then Then(Project(earlier, k), d) else Project(earlier, k)
  }

  function Names(ds: Deltas): string {
    match ds
    case NoDeltas => ""
    case Then(earlier, d) => Names(earlier) + d.name
  }

  function Args(ds: Deltas): string {
    match ds
    case NoDeltas => ""
    case Then(earlier, d) => Args(earlier) + d.args
  }

  /** The last id that is not empty. */
  function LastId(ds: Deltas): string {
    match ds
    case NoDeltas => ""
    case Then(earlier, d) => if d.id != "" then d.id else LastId(earlier)
  }

  /** Each index is put together from its own fragments alone, however they are interleaved with others. */
  lemma {:induction false} EachIndexAlone(ds: Deltas, k: nat)
    ensures At(Table(ds), k) ==
      if Project(ds, k) == NoDeltas then None
      else Some(Call(LastId(Project(ds, k)), Names(Project(ds, k)), Args(Project(ds, k))))
  {
    if ds.Then? {
      EachIndexAlone(ds.earlier, k);
    }
  }

  /** Fragments of a call: its name and arguments in pieces, and its id as the last that is not empty. */
  predicate FragmentsOf(ds: Deltas, c: Call) {
    ds.Then? && Names(ds) == c.name && Args(ds) == c.args && LastId(ds) == c.id
  }

  /** The fragments of all the calls, interleaved in any way. */
  ghost predicate Fragmentation(ds: Deltas, calls: map<nat, Call>) {
    forall k :: if k in calls then FragmentsOf(Project(ds, k), calls[k]) else Project(ds, k) == NoDeltas
  }

  /** From any fragmentation the original calls come back. */
  lemma FragmentsReassemble(ds: Deltas, calls: map<nat, Call>)
    requires Fragmentation(ds, calls)
    ensures Table(ds) == calls
  {
    forall k: nat ensures At(Table(ds), k) == At(calls, k) {
      EachIndexAlone(ds, k);
      assert if k in calls then FragmentsOf(Project(ds, k), calls[k]) else Project(ds, k) == NoDeltas;
    }
    SameAt(Table(ds), calls);
  }

  lemma SameAt(m: map<nat, Call>, n: map<nat, Call>)
    requires forall k: nat :: At(m, k) == At(n, k)
    ensures m == n
  {
    forall k ensures k in m <==> k in n {
      assert At(m, k) == At(n, k);
    }
    forall k | k in m ensures m[k] == n[k] {
      assert At(m, k) == At(n, k);
    }
  }

  /** The result depends on nothing but the order within each index. */
  lemma InterleavingDoesNotMatter(ds: Deltas, es: Deltas)
    requires forall k: nat :: Project(ds, k) == Project(es, k)
    ensures Table(ds) == Table(es)
  {
    forall k: nat ensures At(Table(ds), k) == At(Table(es), k) {
      EachIndexAlone(ds, k);
      EachIndexAlone(es, k);
      assert Project(ds, k) == Project(es, k);
    }
    SameAt(Table(ds), Table(es));
  }

  // ----- Object.values -----

  /** The values under the keys below `n`, in ascending order of the keys. */
  function ValuesBelow(m: map<nat, Call>, n: nat): seq<Call> {
    if n == 0 then [] else ValuesBelow(m, n - 1) + (if n - 1 in m then [m[n - 1]] else [])
  }

  predicate Covers(m: map<nat, Call>, n: nat) {
    forall k :: k in m ==> k < n
  }

  /** Above all keys. */
  ghost function Bound(keys: set<nat>): nat {
    if keys == {} then 0
    else
      var k :| k in keys;
      var n := Bound(keys - {k});
      if k < n then n else k + 1
  }

  lemma {:induction false} BoundIsAbove(keys: set<nat>, k: nat)
    requires k in keys
    ensures k < Bound(keys)
  {
    var j :| j in keys && Bound(keys) == var n := Bound(keys - {j}); if j < n then n else j + 1;
    if k != j {
      BoundIsAbove(keys - {j}, k);
    }
  }

  lemma BoundCovers(m: map<nat, Call>)
    ensures Covers(m, Bound(m.Keys))
  {
    forall k | k in m ensures k < Bound(m.Keys) {
      BoundIsAbove(m.Keys, k);
    }
  }

  /** `Object.values`: integer keys come in ascending order. */
  ghost function Values(m: map<nat, Call>): seq<Call> {
    ValuesBelow(m, Bound(m.Keys))
  }

  lemma {:induction false} EnoughIsEnough(m: map<nat, Call>, n: nat, more: nat)
    requires Covers(m, n) && n <= more
    ensures ValuesBelow(m, more) == ValuesBelow(m, n)
  {
    if n < more {
      EnoughIsEnough(m, n, more - 1);
    }
  }

  lemma ValuesFrom(m: map<nat, Call>, n: nat)
    requires Covers(m, n)
    ensures Values(m) == ValuesBelow(m, n)
  {
    var b := Bound(m.Keys);
    BoundCovers(m);
    if n <= b {
      EnoughIsEnough(m, n, b);
    } else {
      EnoughIsEnough(m, b, n);
    }
  }

  /** Each key contributes its value, at the place that the number of smaller keys gives it. */
  lemma ValuesAt(m: map<nat, Call>, k: nat)
    requires k in m
    ensures |Values(m)| == |m| && |KeysBelow(m, k)| < |m| && Values(m)[|KeysBelow(m, k)|] == m[k]
  {
    BoundCovers(m);
    var n := Bound(m.Keys);
    BelowAt(m, n, k);
    BelowCount(m, n);
    assert KeysBelow(m, n) == m.Keys;
  }

  function KeysBelow(m: map<nat, Call>, n: nat): set<nat> { set k | k in m && k < n }

  lemma {:induction false} BelowCount(m: map<nat, Call>, n: nat)
    ensures |ValuesBelow(m, n)| == |KeysBelow(m, n)|
  {
    if n > 0 {
      BelowCount(m, n - 1);
      assert KeysBelow(m, n) == KeysBelow(m, n - 1) + if n - 1 in m then {n - 1} else {};
    }
  }

  lemma {:induction false} BelowAt(m: map<nat, Call>, n: nat, k: nat)
    requires k in m && k < n
    ensures |KeysBelow(m, k)| < |ValuesBelow(m, n)| && ValuesBelow(m, n)[|KeysBelow(m, k)|] == m[k]
  {
    if k == n - 1 {
      BelowCount(m, k);
    } else {
      BelowAt(m, n - 1, k);
    }
  }

  /** For the list of calls `calls` under the indices 0, 1, 2, ... */
  function Numbered(calls: seq<Call>): map<nat, Call> {
    map k: nat | k < |calls| :: calls[k]
  }

  lemma {:induction false} NumberedBelow(calls: seq<Call>, n: nat)
    requires n <= |calls|
    ensures ValuesBelow(Numbered(calls), n) == calls[..n]
  {
    if n > 0 {
      NumberedBelow(calls, n - 1);
      assert calls[..n] == calls[..n - 1] + [calls[n - 1]];
    }
  }

  /** Any list of calls, fragmented in any way and interleaved in any way, is what the loop then works on, in
      the order of the list. */
  lemma CallsComeBack(ds: Deltas, calls: seq<Call>)
    requires Fragmentation(ds, Numbered(calls))
    ensures Values(Table(ds)) == calls
  {
    FragmentsReassemble(ds, Numbered(calls));
    ValuesFrom(Numbered(calls), |calls|);
    NumberedBelow(calls, |calls|);
    assert calls[..|calls|] == calls;
  }

  method ObjectValues(m: map<nat, Call>) returns (r: seq<Call>)
    ensures r == Values(m)
  {
    r := [];
    var n, left := 0, m.Keys;
    BoundCovers(m);
    while left != {}
      invariant left == set k | k in m && k >= n
      invariant n <= Bound(m.Keys) && r == ValuesBelow(m, n)
      decreases Bound(m.Keys) - n
    {
      var k :| k in left;
      if n in left {
        r := r + [m[n]];
      }
      left := left - {n};
      n := n + 1;
    }
    forall k | k in m ensures k < n {
      assert k !in left;
    }
    ValuesFrom(m, n);
  }

  // ----- the history -----

  /** `Prior` is a system, user or earlier assistant message. */
  datatype Message =
    | Prior(text: string)
    | Assistant(content: string)
    | AssistantCalls(said: Option<string>, calls: seq<Call>)
    | Tool(callId: string, result: string)

  /** A history grows at its end. */
  datatype Messages = NoMessages | Push(earlier: Messages, last: Message)

  function Count(ms: Messages): nat {
    if ms.Push? then Count(ms.earlier) + 1 else 0
  }

  /** The message at position `i`, counted from the beginning. */
  function MessageAt(ms: Messages, i: nat): Message
    requires i < Count(ms)
  {
    if i == Count(ms.earlier) then ms.last else MessageAt(ms.earlier, i)
  }

  predicate AllPrior(ms: Messages) {
    ms.Push? ==> ms.last.Prior? && AllPrior(ms.earlier)
  }

  datatype ToolResult = Returned(text: string) | Threw(reason: string)

  /** What the model streams, and how the n-th call of the turn would end, of a tool with some arguments. */
  datatype Turn = Turn(stream: seq<Chunk>, tools: (nat, string, string) -> ToolResult)

  function ResultText(r: ToolResult): string {
    match r
    case Returned(text) => text
    case Threw(reason) => "Error: " + reason
  }

  /** The rule for a history: after an assistant message with tool calls come the answers to them, one for
      each id in order, before anything else; and no answers come elsewhere. While it is followed, either
      nothing is waited for, or the calls from number `k` on. */
  datatype Waiting = Broken | Nothing | For(calls: seq<Call>, k: nat)

  /** Waiting for the calls from number `k` on. */
  function From(calls: seq<Call>, k: nat): Waiting {
    if k < |calls| then For(calls, k) else Nothing
  }

  function Follow(w: Waiting, m: Message): Waiting {
    match m
    case Tool(id, _) => if w.For? && w.k < |w.calls| && w.calls[w.k].id == id then From(w.calls, w.k + 1) else Broken
    case AssistantCalls(_, calls) => if w.Nothing? && calls != [] then From(calls, 0) else Broken
    case _ => if w.Nothing? then Nothing else Broken
  }

  function After(ms: Messages): Waiting {
    if ms.Push? then Follow(After(ms.earlier), ms.last) else Nothing
  }

  /** Every call is answered, in order, and nothing else is. */
  predicate Answered(ms: Messages) { After(ms).Nothing? }

  ghost function FinalCalls(t: Turn): seq<Call> {
    Values(Table(Fragments(t.stream)))
  }

  function NullIfEmpty(s: string): Option<string> { if s == "" then None else Some(s) }

  /** `before`, the message with the calls, and the results of the first `n`. */
  function Pushed(before: Messages, said: Option<string>, calls: seq<Call>, tools: (nat, string, string) -> ToolResult,
                  n: nat): Messages
    requires n <= |calls|
  {
    if n == 0 then Push(before, AssistantCalls(said, calls))
    else
      var c := calls[n - 1];
      Push(Pushed(before, said, calls, tools, n - 1), Tool(c.id, ResultText(tools(n - 1, c.name, c.args))))
  }

  /** What a turn makes of the history. */
  ghost function AfterTurn(before: Messages, t: Turn): Messages {
    var calls, content := FinalCalls(t), Content(t.stream);
    if |calls| == 0 then Push(before, Assistant(content))
    else Pushed(before, NullIfEmpty(content), calls, t.tools, |calls|)
  }

  /** The history after `n` turns. */
  ghost function HistoryAfter(prior: Messages, turns: seq<Turn>, n: nat): Messages
    requires n <= |turns|
  {
    if n == 0 then prior else AfterTurn(HistoryAfter(prior, turns, n - 1), turns[n - 1])
  }

  /** The requests carry the histories after 0, 1, 2, ... turns. */
  ghost predicate AreHistories(prior: Messages, turns: seq<Turn>, requests: seq<Messages>)
    requires |requests| <= |turns| + 1
  {
    forall i :: 0 <= i < |requests| ==> requests[i] == HistoryAfter(prior, turns, i)
  }

  /** One more request. */
  method Send(ghost prior: Messages, ghost turns: seq<Turn>, sent: seq<Messages>, history: Messages) returns (requests: seq<Messages>)
    requires |sent| <= |turns| && AreHistories(prior, turns, sent) && history == HistoryAfter(prior, turns, |sent|)
    ensures |requests| == |sent| + 1 && AreHistories(prior, turns, requests)
  {
    requests := sent + [history];
  }

  /** The last word is an assistant message without calls. */
  predicate Ends(ms: Messages) {
    ms.Push? && ms.last.Assistant?
  }

  /** A turn ends the loop exactly if it calls no tools. */
  lemma EndsIffNoCalls(before: Messages, t: Turn)
    ensures Ends(AfterTurn(before, t)) <==> FinalCalls(t) == []
  {
  }

  /** None of the first `n` turns ends the loop. */
  ghost predicate GoesOn(prior: Messages, turns: seq<Turn>, n: nat)
    requires n <= |turns|
  {
    forall m :: 0 < m <= n ==> !Ends(HistoryAfter(prior, turns, m))
  }

  /** After `n` turns, the last of which has ended the loop or not. */
  ghost predicate Reached(prior: Messages, turns: seq<Turn>, n: nat, history: Messages, ended: bool)
    requires n <= |turns|
  {
    && history == HistoryAfter(prior, turns, n)
    && if ended then n > 0 && GoesOn(prior, turns, n - 1) && Ends(history) else GoesOn(prior, turns, n)
  }

  /** The loop. Each turn is one streamed completion; when there are none left the next request fails, which
      ends the loop too. `taken` is the number of turns. */
  method Converse(prior: Messages, turns: seq<Turn>)
    returns (history: Messages, requests: seq<Messages>, ended: bool, taken: nat)
    ensures taken <= |turns| && history == HistoryAfter(prior, turns, taken)
    ensures if ended then taken > 0 && Ends(history) else taken == |turns|
    ensures forall m :: 0 < m < taken || (!ended && 0 < m == taken) ==> !Ends(HistoryAfter(prior, turns, m))
    ensures |requests| == (if ended then taken else taken + 1)
    ensures AreHistories(prior, turns, requests)
  {
    history, requests, ended, taken := prior, [], false, 0;
    while !ended && taken < |turns|
      invariant taken == |requests| <= |turns| && Reached(prior, turns, taken, history, ended)
      invariant AreHistories(prior, turns, requests)
      decreases |turns| - taken
    {
      requests := Send(prior, turns, requests, history);
      history, ended := TakeTurnOf(prior, turns, taken, history);
      taken := taken + 1;
    }
    if !ended {
      requests := Send(prior, turns, requests, history);
    }
  }

  /** Turn `n` of the run. */
  method TakeTurnOf(ghost prior: Messages, turns: seq<Turn>, n: nat, before: Messages) returns (history: Messages, ended: bool)
    requires n < |turns| && Reached(prior, turns, n, before, false)
    ensures Reached(prior, turns, n + 1, history, ended)
  {
    history, ended := TakeTurn(before, turns[n]);
  }

  /** The body of the loop after the request. */
  method TakeTurn(before: Messages, turn: Turn) returns (history: Messages, ended: bool)
    ensures history == AfterTurn(before, turn) && (ended <==> Ends(history))
  {
    var content, table := Reassemble(turn.stream);
    var calls := ObjectValues(table);
    ended := |calls| == 0;
    if ended {
      history := Push(before, Assistant(content));
    } else {
      history := Push(before, AssistantCalls(NullIfEmpty(content), calls));
      for i := 0 to |calls|
        invariant history == Pushed(before, NullIfEmpty(content), calls, turn.tools, i)
      {
        history := Push(history, Tool(calls[i].id, ResultText(turn.tools(i, calls[i].name, calls[i].args))));
      }
    }
  }

  // ----- what a turn adds -----

  /** The messages of turn `n`, behind those that were there: what was said and called, and for each call its own
      answer, the text that it returned or why it failed. */
  lemma TurnMessages(prior: Messages, turns: seq<Turn>, n: nat)
    requires n < |turns|
    ensures HistoryAfter(prior, turns, 0) == prior
    ensures var before, after := HistoryAfter(prior, turns, n), HistoryAfter(prior, turns, n + 1);
      var t, said := turns[n], Content(turns[n].stream);
      var calls := Values(Table(Fragments(t.stream)));
      && Count(after) == Count(before) + 1 + |calls|
      && (forall i: nat :: i < Count(before) ==> MessageAt(after, i) == MessageAt(before, i))
      && MessageAt(after, Count(before)) ==
           (if calls == [] then Assistant(said) else AssistantCalls(if said == "" then None else Some(said), calls))
      && (forall j: nat :: j < |calls| ==>
            MessageAt(after, Count(before) + 1 + j) ==
              Tool(calls[j].id, match t.tools(j, calls[j].name, calls[j].args)
                                case Returned(text) => text
                                case Threw(reason) => "Error: " + reason))
  {
    var before, t := HistoryAfter(prior, turns, n), turns[n];
    var calls := FinalCalls(t);
    if calls == [] {
      PushKeeps(before, Assistant(Content(t.stream)));
    } else {
      PushedMessages(before, NullIfEmpty(Content(t.stream)), calls, t.tools, |calls|);
    }
  }

  lemma PushKeeps(ms: Messages, m: Message)
    ensures forall i: nat :: i < Count(ms) ==> MessageAt(Push(ms, m), i) == MessageAt(ms, i)
    ensures MessageAt(Push(ms, m), Count(ms)) == m
  {
  }

  lemma {:induction false} PushedMessages(before: Messages, said: Option<string>, calls: seq<Call>,
                                          tools: (nat, string, string) -> ToolResult, n: nat)
    requires n <= |calls|
    ensures var after := Pushed(before, said, calls, tools, n);
      && Count(after) == Count(before) + 1 + n
      && (forall i: nat :: i < Count(before) ==> MessageAt(after, i) == MessageAt(before, i))
      && MessageAt(after, Count(before)) == AssistantCalls(said, calls)
      && (forall j: nat :: j < n ==>
            MessageAt(after, Count(before) + 1 + j) ==
              Tool(calls[j].id, ResultText(tools(j, calls[j].name, calls[j].args))))
  {
    if n > 0 {
      PushedMessages(before, said, calls, tools, n - 1);
      var c := calls[n - 1];
      PushKeeps(Pushed(before, said, calls, tools, n - 1), Tool(c.id, ResultText(tools(n - 1, c.name, c.args))));
    } else {
      PushKeeps(before, AssistantCalls(said, calls));
    }
  }

  // ----- every call is answered -----

  lemma {:induction false} PushedFollow(before: Messages, said: Option<string>, calls: seq<Call>,
                                        tools: (nat, string, string) -> ToolResult, n: nat)
    requires n <= |calls| && calls != [] && Answered(before)
    ensures After(Pushed(before, said, calls, tools, n)) == From(calls, n)
  {
    if n > 0 {
      PushedFollow(before, said, calls, tools, n - 1);
    }
  }

  lemma TurnAnswered(before: Messages, t: Turn)
    requires Answered(before)
    ensures Answered(AfterTurn(before, t))
  {
    var calls := FinalCalls(t);
    if calls != [] {
      PushedFollow(before, NullIfEmpty(Content(t.stream)), calls, t.tools, |calls|);
    }
  }

  lemma {:induction false} PriorAnswered(prior: Messages)
    requires AllPrior(prior)
    ensures Answered(prior)
  {
    if prior.Push? {
      PriorAnswered(prior.earlier);
    }
  }

  /** Whatever the model streams and however the tools end, what the loop has built after any number of turns
      follows the rule: it is a history in which every call is answered. */
  lemma {:induction false} HistoryAnswered(prior: Messages, turns: seq<Turn>, n: nat)
    requires n <= |turns| && AllPrior(prior)
    ensures Answered(HistoryAfter(prior, turns, n))
  {
    if n == 0 {
      PriorAnswered(prior);
    } else {
      HistoryAnswered(prior, turns, n - 1);
      TurnAnswered(HistoryAfter(prior, turns, n - 1), turns[n - 1]);
    }
  }

  /** So does every history that is sent to the model. */
  lemma RequestsAnswered(prior: Messages, turns: seq<Turn>, requests: seq<Messages>)
    requires |requests| <= |turns| + 1 && AllPrior(prior)
    requires AreHistories(prior, turns, requests)
    ensures forall i :: 0 <= i < |requests| ==> Answered(requests[i])
  {
    forall i | 0 <= i < |requests| ensures Answered(requests[i]) {
      HistoryAnswered(prior, turns, i);
    }
  }

  // ----- what the rule means for the messages themselves -----

  /** `k` messages after the calls, the first `k` have been answered. */
  lemma {:induction false} StillWaiting(ms: Messages, i: nat, k: nat)
    requires !After(ms).Broken? && i < Count(ms) && MessageAt(ms, i).AssistantCalls?
    requires k <= |MessageAt(ms, i).calls| && i + k + 1 == Count(ms)
    ensures After(ms) == From(MessageAt(ms, i).calls, k)
  {
    if k > 0 {
      StillWaiting(ms.earlier, i, k - 1);
    }
  }

  /** An assistant message with calls is directly followed by as many tool messages, with its ids in its order. */
  lemma CallsAreAnswered(ms: Messages, i: nat, j: nat)
    requires Answered(ms) && i < Count(ms) && MessageAt(ms, i).AssistantCalls? && j < |MessageAt(ms, i).calls|
    ensures i + j + 1 < Count(ms)
    ensures MessageAt(ms, i + j + 1).Tool? && MessageAt(ms, i + j + 1).callId == MessageAt(ms, i).calls[j].id
  {
    if i + j + 1 < Count(ms) {
      AnswerAt(ms, i, j);
    } else {
      StillWaiting(ms, i, Count(ms) - i - 1);
    }
  }

  lemma {:induction false} AnswerAt(ms: Messages, i: nat, j: nat)
    requires !After(ms).Broken? && i + j + 1 < Count(ms) && MessageAt(ms, i).AssistantCalls? && j < |MessageAt(ms, i).calls|
    ensures MessageAt(ms, i + j + 1).Tool? && MessageAt(ms, i + j + 1).callId == MessageAt(ms, i).calls[j].id
  {
    if i + j + 1 == Count(ms.earlier) {
      StillWaiting(ms.earlier, i, j);
    } else {
      AnswerAt(ms.earlier, i, j);
    }
  }

  /** And nothing is answered that was not called: a tool message belongs to the calls shortly before it. */
  lemma {:induction false} ToolsWereCalled(ms: Messages, t: nat) returns (i: nat)
    requires !After(ms).Broken? && t < Count(ms) && MessageAt(ms, t).Tool?
    ensures i < t && MessageAt(ms, i).AssistantCalls? && t - i - 1 < |MessageAt(ms, i).calls|
    ensures MessageAt(ms, i).calls[t - i - 1].id == MessageAt(ms, t).callId
  {
    if t == Count(ms.earlier) {
      i := WaitsFor(ms.earlier);
    } else {
      i := ToolsWereCalled(ms.earlier, t);
    }
  }

  /** What is waited for was called by one message, and the messages since have answered it up to there. */
  lemma {:induction false} WaitsFor(ms: Messages) returns (i: nat)
    requires After(ms).For?
    ensures i < Count(ms) && MessageAt(ms, i).AssistantCalls? && After(ms) == For(MessageAt(ms, i).calls, Count(ms) - i - 1)
  {
    if ms.last.AssistantCalls? {
      i := Count(ms.earlier);
    } else {
      i := WaitsFor(ms.earlier);
    }
  }
}
