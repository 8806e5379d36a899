/** `Registry`: the tool map that the MCP handlers read, and its subscribers' one-slot channels. The
    subscribers live in a growing slice: a backing array, of which the first `len` slots are in use. */
module ToolRegistry {
  import opened Text
  import opened Extractor

  /** A `chan struct{}` with one slot. */
  class Channel {
    var full: bool

    constructor ()
      ensures !full
    {
      full := false;
    }
  }

  /** The map built by assigning the tools in order: of two tools with one name the later stands. */
  function LastWins(tools: seq<ToolDefinition>): map<string, ToolDefinition> {
    if tools == [] then map[]
    else
      var t := tools[|tools| - 1];
      LastWins(tools[..|tools| - 1])[t.name := t]
  }

  lemma {:induction false} LastWinsAt(tools: seq<ToolDefinition>, name: string) returns (i: nat)
    ensures name in LastWins(tools) <==> exists j :: 0 <= j < |tools| && tools[j].name == name
    ensures name in LastWins(tools) ==> i < |tools| && tools[i].name == name && LastWins(tools)[name] == tools[i]
    ensures name in LastWins(tools) ==> forall j :: i < j < |tools| ==> tools[j].name != name
  {
    i := 0;
    if tools != [] {
      var n := |tools| - 1;
      if tools[n].name == name {
        i := n;
      } else {
        i := LastWinsAt(tools[..n], name);
        assert forall j :: 0 <= j < n ==> tools[..n][j] == tools[j];
      }
    }
  }

  /** `s` without its first occurrence of `x`. */
  function WithoutFirst<T(==)>(s: seq<T>, x: T): seq<T> {
    if s == [] then [] else if s[0] == x then s[1..] else [s[0]] + WithoutFirst(s[1..], x)
  }

  lemma {:induction false} WithoutFirstAt<T>(s: seq<T>, x: T, i: nat)
    requires i < |s| && s[i] == x && x !in s[..i]
    ensures WithoutFirst(s, x) == s[..i] + s[i + 1..]
  {
    if i > 0 {
      assert s[0] in s[..i];
      assert s[1..][..i - 1] == s[..i][1..];
      assert s[0] == s[..i][0];
      assert x !in s[1..][..i - 1] by {
        assert forall y :: y in s[..i][1..] ==> y in s[..i];
      }
      WithoutFirstAt(s[1..], x, i - 1);
      assert s[1..][i - 1 + 1..] == s[i + 1..];
      assert s[..i] == [s[0]] + s[1..][..i - 1];
    }
  }

  lemma {:induction false} WithoutAbsent<T>(s: seq<T>, x: T)
    requires x !in s
    ensures WithoutFirst(s, x) == s
  {
    if s != [] {
      WithoutAbsent(s[1..], x);
    }
  }

  class Registry {
    var tools: map<string, ToolDefinition>
    var slots: array<Channel?>
    var len: nat

    ghost predicate Valid()
      reads this, slots
    {
      len <= slots.Length && forall i :: 0 <= i < len ==> slots[i] != null
    }

    /** The subscribed channels, in order of subscription. */
    ghost function Subscribers(): (s: seq<Channel>)
      reads this, slots
      requires Valid()
      ensures |s| == len && forall i :: 0 <= i < len ==> s[i] == slots[i]
    {
      seq(len, i requires 0 <= i < len reads this, slots requires Valid() => slots[i])
    }

    constructor ()
      ensures Valid() && fresh(slots) && tools == map[] && Subscribers() == []
    {
      tools, slots, len := map[], new Channel?[0], 0;
    }

    method Get(name: string) returns (tool: Option<ToolDefinition>)
      ensures tool == if name in tools then Some(tools[name]) else None
    {
      tool := if name in tools then Some(tools[name]) else None;
    }

    /** Every tool exactly once, in the order in which ranging over the map finds the names. */
    method List() returns (list: seq<ToolDefinition>, ghost names: seq<string>)
      ensures |names| == |list| == |tools|
      ensures forall i, j :: 0 <= i < j < |names| ==> names[i] != names[j]
      ensures forall i :: 0 <= i < |names| ==> names[i] in tools && list[i] == tools[names[i]]
      ensures |list| == |tools| && forall name :: name in tools ==> tools[name] in list
      ensures forall t :: t in list ==> exists name :: name in tools && tools[name] == t
    {
      list, names := [], [];
      var todo := tools.Keys;
      while todo != {}
        invariant todo <= tools.Keys && |names| == |list| == |tools| - |todo|
        invariant forall i :: 0 <= i < |names| ==> names[i] !in todo && names[i] in tools && list[i] == tools[names[i]]
        invariant forall i, j :: 0 <= i < j < |names| ==> names[i] != names[j]
        invariant forall name :: name in tools && name !in todo ==> tools[name] in list
        decreases todo
      {
        var name :| name in todo;
        list, names := list + [tools[name]], names + [name];
        todo := todo - {name};
      }
    }

    /** Publish a new tool map and then leave a token with every subscriber that has none pending. */
    method RebuildAll(newTools: seq<ToolDefinition>)
      requires Valid()
      modifies this`tools, Subscribers()
      ensures Valid() && tools == LastWins(newTools)
      ensures Subscribers() == old(Subscribers())
      ensures forall c :: c in Subscribers() ==> c.full
    {
      var newMap := map[];
      for i := 0 to |newTools|
        invariant newMap == LastWins(newTools[..i])
      {
        assert newTools[..i + 1][..i] == newTools[..i];
        newMap := newMap[newTools[i].name := newTools[i]];
      }
      assert newTools[..|newTools|] == newTools;
      tools := newMap;
      NotifySubscribers(slots, len);
    }

    method NotifySubscribers(subs: array<Channel?>, n: nat)
      requires n <= subs.Length && forall i :: 0 <= i < n ==> subs[i] != null
      modifies set i | 0 <= i < n :: subs[i]
      ensures forall i :: 0 <= i < n ==> subs[i].full
    {
      for i := 0 to n
        invariant forall j :: 0 <= j < i ==> subs[j].full
      {
        if !subs[i].full {
          subs[i].full := true;
        }
      }
    }

    /** `append`: into the backing array if it has room, else into a larger copy. */
    method Subscribe() returns (ch: Channel)
      requires Valid()
      modifies this`slots, this`len, slots
      ensures Valid() && fresh(ch) && !ch.full
      ensures Subscribers() == old(Subscribers()) + [ch]
      ensures slots == old(slots) || fresh(slots)
    {
      ch := new Channel();
      if len == slots.Length {
        var larger := new Channel?[2 * len + 1](_ => null);
        for i := 0 to len
          invariant slots == old(slots) && len == old(len) && Valid() && Subscribers() == old(Subscribers())
          invariant !ch.full && forall j :: 0 <= j < i ==> larger[j] == slots[j]
        {
          larger[i] := slots[i];
        }
        slots := larger;
      }
      slots[len] := ch;
      len := len + 1;
    }

    /** Removes the first occurrence of `ch` by shifting the later slots down in place. */
    method Unsubscribe(ch: Channel)
      requires Valid()
      modifies this`len, slots
      ensures Valid() && Subscribers() == WithoutFirst(old(Subscribers()), ch)
    {
      ghost var before := Subscribers();
      for i := 0 to len
        invariant ch !in before[..i]
        invariant Valid() && Subscribers() == before
      {
        if slots[i] == ch {
          WithoutFirstAt(before, ch, i);
          ShiftDown(i);
          return;
        }
        assert before[..i + 1] == before[..i] + [before[i]];
      }
      assert before[..len] == before;
      WithoutAbsent(before, ch);
    }

    method ShiftDown(i: nat)
      requires Valid() && i < len
      modifies this`len, slots
      ensures Valid() && Subscribers() == old(Subscribers())[..i] + old(Subscribers())[i + 1..]
    {
      for j := i to len - 1
        invariant len == old(len)
        invariant forall k :: 0 <= k < i || j <= k < len ==> slots[k] == old(slots[k])
        invariant forall k :: i <= k < j ==> slots[k] == old(slots[k + 1])
      {
        slots[j] := slots[j + 1];
      }
      len := len - 1;
    }
  }
}
