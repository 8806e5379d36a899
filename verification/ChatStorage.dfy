/** The browser's list of chat sessions: kept sorted by time of update, the newest first, and cut to fifty. */
module ChatStorage {
  import opened Text

  const MAX_SESSIONS := 50

  datatype Session = Session(id: string, updatedAt: int, content: string)

  /** What local storage holds under the key: nothing (or an empty string), something that is no list in JSON,
      or a list. */
  datatype Stored = Missing | Garbage | Sessions(list: seq<Session>)

  // ----- Array.prototype.sort with (a, b) => b.updatedAt - a.updatedAt -----

  /** Before the first element that is not newer. */
  function Insert(x: Session, t: seq<Session>): seq<Session> {
    if t == [] then [x]
    else if t[0].updatedAt <= x.updatedAt then [x] + t
    else [t[0]] + Insert(x, t[1..])
  }

  /** The stable sort (section 23.1.3.30 of ECMA-262). */
  function Sort(s: seq<Session>): seq<Session> {
    if s == [] then [] else Insert(s[0], Sort(s[1..]))
  }

  predicate Sorted(s: seq<Session>) {
    forall i, j :: 0 <= i < j < |s| ==> s[i].updatedAt >= s[j].updatedAt
  }

  /** The elements with time `u`, in order. */
  function At(s: seq<Session>, u: int): seq<Session> {
    if s == [] then [] else (if s[0].updatedAt == u then [s[0]] else []) + At(s[1..], u)
  }

  /** How many elements are strictly newer. */
  function Newer(s: seq<Session>, u: int): nat {
    if s == [] then 0 else (if s[0].updatedAt > u then 1 else 0) + Newer(s[1..], u)
  }

  predicate HasId(s: seq<Session>, id: string) {
    exists i :: 0 <= i < |s| && s[i].id == id
  }

  predicate DistinctIds(s: seq<Session>) {
    forall i, j :: 0 <= i < j < |s| ==> s[i].id != s[j].id
  }

  /** In a sorted list the strictly newer elements are a prefix, and `Insert` puts `x` right behind it. */
  lemma {:induction false} InsertPosition(x: Session, t: seq<Session>)
    requires Sorted(t)
    ensures Newer(t, x.updatedAt) <= |t|
    ensures Insert(x, t) == t[..Newer(t, x.updatedAt)] + [x] + t[Newer(t, x.updatedAt)..]
  {
    if t == [] {
    } else if t[0].updatedAt <= x.updatedAt {
      NoneNewer(t, x.updatedAt);
      assert t[..0] + [x] + t[0..] == [x] + t;
    } else {
      InsertPosition(x, t[1..]);
      var k := Newer(t[1..], x.updatedAt);
      assert Newer(t, x.updatedAt) == k + 1;
      assert t[1..][..k] == t[1..k + 1] && t[1..][k..] == t[k + 1..];
      assert [t[0]] + (t[1..k + 1] + [x] + t[k + 1..]) == t[..k + 1] + [x] + t[k + 1..];
    }
  }

  lemma {:induction false} NewerFirst(t: seq<Session>, u: int)
    requires Sorted(t)
    ensures forall i :: 0 <= i < |t| ==> (i < Newer(t, u) <==> t[i].updatedAt > u)
  {
    if t == [] {
    } else if t[0].updatedAt <= u {
      NoneNewer(t, u);
    } else {
      NewerFirst(t[1..], u);
      forall i | 0 <= i < |t| ensures i < Newer(t, u) <==> t[i].updatedAt > u {
        if i > 0 {
          assert t[i] == t[1..][i - 1];
        }
      }
    }
  }

  lemma {:induction false} NoneNewer(t: seq<Session>, u: int)
    requires forall i :: 0 <= i < |t| ==> t[i].updatedAt <= u
    ensures Newer(t, u) == 0
  {
    if t != [] {
      NoneNewer(t[1..], u);
    }
  }

  lemma {:induction false} InsertSorted(x: Session, t: seq<Session>)
    requires Sorted(t)
    ensures Sorted(Insert(x, t))
  {
    InsertPosition(x, t);
    NewerFirst(t, x.updatedAt);
  }

  lemma {:induction false} SortSorted(s: seq<Session>)
    ensures Sorted(Sort(s))
  {
    if s != [] {
      SortSorted(s[1..]);
      InsertSorted(s[0], Sort(s[1..]));
    }
  }

  lemma {:induction false} AtInsert(x: Session, t: seq<Session>, u: int)
    requires Sorted(t)
    ensures At(Insert(x, t), u) == (if x.updatedAt == u then [x] else []) + At(t, u)
  {
    if t != [] && t[0].updatedAt > x.updatedAt {
      AtInsert(x, t[1..], u);
      assert Insert(x, t)[1..] == Insert(x, t[1..]);
    } else if t != [] {
      assert ([x] + t)[1..] == t;
    }
  }

  /** The sort is stable: elements with equal times keep their order. */
  lemma {:induction false} SortStable(s: seq<Session>, u: int)
    ensures At(Sort(s), u) == At(s, u)
  {
    if s != [] {
      SortSorted(s[1..]);
      SortStable(s[1..], u);
      AtInsert(s[0], Sort(s[1..]), u);
    }
  }

  lemma {:induction false} AtHead(s: seq<Session>, u: int)
    requires At(s, u) != []
    ensures exists i :: 0 <= i < |s| && s[i].updatedAt == u
  {
    if s[0].updatedAt != u {
      AtHead(s[1..], u);
      var i :| 0 <= i < |s[1..]| && s[1..][i].updatedAt == u;
      assert s[i + 1].updatedAt == u;
    }
  }

  /** A sorted list whose first element is `x` has no other list with the same elements per time that is
      sorted and begins later. */
  lemma HeadNotOlder(s: seq<Session>, t: seq<Session>)
    requires Sorted(s) && Sorted(t) && s != [] && At(t, s[0].updatedAt) == At(s, s[0].updatedAt)
    ensures t != [] && t[0].updatedAt >= s[0].updatedAt
  {
    AtHead(t, s[0].updatedAt);
    var i :| 0 <= i < |t| && t[i].updatedAt == s[0].updatedAt;
    assert t[0].updatedAt >= t[i].updatedAt;
  }

  lemma Cancel(p: seq<Session>, a: seq<Session>, b: seq<Session>)
    requires p + a == p + b
    ensures a == b
  {
    assert (p + a)[|p|..] == a && (p + b)[|p|..] == b;
  }

  /** There is only one stable sort: a sorted list with the same elements in the same order for every time. */
  lemma {:induction false} SortedIsUnique(s: seq<Session>, t: seq<Session>)
    requires Sorted(s) && Sorted(t) && forall u :: At(s, u) == At(t, u)
    ensures s == t
  {
    if s == [] {
      if t != [] {
        HeadNotOlder(t, s);
      }
    } else {
      HeadNotOlder(s, t);
      HeadNotOlder(t, s);
      var u := s[0].updatedAt;
      assert At(s, u)[0] == s[0] && At(t, u)[0] == t[0];
      forall v ensures At(s[1..], v) == At(t[1..], v) {
        assert At(s, v) == At(t, v);
        Cancel(if u == v then [s[0]] else [], At(s[1..], v), At(t[1..], v));
      }
      SortedIsUnique(s[1..], t[1..]);
    }
  }

  /** What is sorted already stays as it is. */
  lemma SortOfSorted(s: seq<Session>)
    requires Sorted(s)
    ensures Sort(s) == s
  {
    SortSorted(s);
    forall u ensures At(Sort(s), u) == At(s, u) {
      SortStable(s, u);
    }
    SortedIsUnique(Sort(s), s);
  }

  lemma InsertKeeps(x: Session, t: seq<Session>)
    requires Sorted(t)
    ensures |Insert(x, t)| == |t| + 1
    ensures forall y :: y in Insert(x, t) <==> y == x || y in t
    ensures DistinctIds([x] + t) ==> DistinctIds(Insert(x, t))
  {
    InsertPosition(x, t);
    var k := Newer(t, x.updatedAt);
    assert t == t[..k] + t[k..];
    if DistinctIds([x] + t) {
      InsertDistinct(x, t, k);
    }
  }

  lemma InsertDistinct(x: Session, t: seq<Session>, k: nat)
    requires DistinctIds([x] + t) && k <= |t|
    ensures DistinctIds(t[..k] + [x] + t[k..])
  {
    var all, r := [x] + t, t[..k] + [x] + t[k..];
    forall i, j | 0 <= i < j < |r| ensures r[i].id != r[j].id {
      var i1 := if i < k then i + 1 else if i == k then 0 else i;
      var j1 := if j < k then j + 1 else if j == k then 0 else j;
      assert r[i] == all[i1] && r[j] == all[j1];
    }
  }

  lemma {:induction false} SortKeeps(s: seq<Session>)
    ensures |Sort(s)| == |s|
    ensures forall y :: y in Sort(s) <==> y in s
    ensures DistinctIds(s) ==> DistinctIds(Sort(s))
  {
    if s != [] {
      var t := Sort(s[1..]);
      SortKeeps(s[1..]);
      SortSorted(s[1..]);
      InsertKeeps(s[0], t);
      assert s == [s[0]] + s[1..];
      if DistinctIds(s) {
        forall j | 0 <= j < |t| ensures s[0].id != t[j].id {
          assert t[j] in s[1..];
        }
        assert DistinctIds([s[0]] + t);
      }
    }
  }

  // ----- the code -----

  function Loaded(item: Stored): seq<Session> {
    if item.Sessions? then Sort(item.list) else []
  }

  /** The first element with the id. */
  function IndexOf(s: seq<Session>, id: string): Option<nat> {
    if s == [] then None
    else if s[0].id == id then Some(0)
    else
      var i := IndexOf(s[1..], id);
      if i.Some? then Some(i.value + 1) else None
  }

  lemma {:induction false} IndexOfFirst(s: seq<Session>, id: string, k: nat)
    requires k <= |s| && forall j :: 0 <= j < k ==> s[j].id != id
    ensures k < |s| && s[k].id == id ==> IndexOf(s, id) == Some(k)
    ensures k == |s| ==> IndexOf(s, id) == None
  {
    if k > 0 {
      assert s[0].id != id;
      forall j | 0 <= j < k - 1 ensures s[1..][j].id != id {
        assert s[j + 1].id != id;
      }
      IndexOfFirst(s[1..], id, k - 1);
    }
  }

  lemma {:induction false} IndexOfHas(s: seq<Session>, id: string)
    ensures IndexOf(s, id).Some? <==> HasId(s, id)
    ensures IndexOf(s, id).Some? ==> IndexOf(s, id).value < |s| && s[IndexOf(s, id).value].id == id
  {
    if s != [] && s[0].id != id {
      IndexOfHas(s[1..], id);
      if HasId(s, id) {
        var i :| 0 <= i < |s| && s[i].id == id;
        assert s[1..][i - 1].id == id;
      }
    } else if s != [] {
      assert HasId(s, id);
    }
  }

  function Put(s: seq<Session>, x: Session): seq<Session> {
    var i := IndexOf(s, x.id);
    if i.Some? && i.value < |s| then s[i.value := x] else [x] + s
  }

  function Trimmed(s: seq<Session>): seq<Session> {
    if |s| <= MAX_SESSIONS then s else s[..MAX_SESSIONS]
  }

  function Without(s: seq<Session>, id: string): seq<Session> {
    if s == [] then [] else (if s[0].id != id then [s[0]] else []) + Without(s[1..], id)
  }

  /** `full`: `setItem` throws, because the quota is exceeded, and stores nothing. */
  function AfterSave(item: Stored, x: Session, full: bool): Stored {
    if full then item else Sessions(Trimmed(Sort(Put(Loaded(item), x))))
  }

  function AfterDelete(item: Stored, id: string, full: bool): Stored {
    if full then item else Sessions(Without(Loaded(item), id))
  }

  class LocalStorage {
    var item: Stored

    method LoadSessions() returns (r: seq<Session>)
      ensures r == Loaded(item) && Sorted(r) && (!item.Sessions? ==> r == [])
      ensures item.Sessions? ==> |r| == |item.list| && forall x :: x in r <==> x in item.list
    {
      match item
      case Missing => r := [];
      case Garbage => r := [];
      case Sessions(list) =>
        r := Sort(list);
        SortSorted(list);
        SortKeeps(list);
    }

    method SaveSession(x: Session, full: bool)
      modifies this
      ensures item == AfterSave(old(item), x, full)
      ensures if full then item == old(item) else item.Sessions?
    {
      var sessions := LoadSessions();
      var idx := 0;
      while idx < |sessions| && sessions[idx].id != x.id
        invariant 0 <= idx <= |sessions|
        invariant forall j :: 0 <= j < idx ==> sessions[j].id != x.id
      {
        idx := idx + 1;
      }
      IndexOfFirst(sessions, x.id, idx);
      if idx < |sessions| {
        sessions := sessions[idx := x];
      } else {
        sessions := [x] + sessions;
      }
      var trimmed := Sort(sessions);
      if |trimmed| > MAX_SESSIONS {
        trimmed := trimmed[..MAX_SESSIONS];
      }
      if !full {
        item := Sessions(trimmed);
      }
    }

    method DeleteSession(id: string, full: bool)
      modifies this
      ensures item == AfterDelete(old(item), id, full)
      ensures if full then item == old(item) else item.Sessions?
    {
      var sessions := LoadSessions();
      sessions := Without(sessions, id);
      if !full {
        item := Sessions(sessions);
      }
    }
  }

  // ----- whole runs -----

  datatype History =
    | Begin
    | Save(earlier: History, session: Session, full: bool)
    | Delete(earlier: History, id: string, full: bool)

  function Item(h: History): Stored {
    match h
    case Begin => Missing
    case Save(earlier, x, full) => AfterSave(Item(earlier), x, full)
    case Delete(earlier, id, full) => AfterDelete(Item(earlier), id, full)
  }

  function Kept(h: History): seq<Session> {
    Loaded(Item(h))
  }

  predicate Good(s: seq<Session>) {
    DistinctIds(s) && Sorted(s) && |s| <= MAX_SESSIONS
  }

  lemma PutKeepsDistinct(s: seq<Session>, x: Session)
    requires DistinctIds(s)
    ensures DistinctIds(Put(s, x)) && x in Put(s, x)
    ensures |Put(s, x)| == if HasId(s, x.id) then |s| else |s| + 1
    ensures forall y :: y in Put(s, x) <==> y == x || (y in s && y.id != x.id)
  {
    IndexOfHas(s, x.id);
    if HasId(s, x.id) {
      var i := IndexOf(s, x.id).value;
      var t := s[i := x];
      assert t[i] == x;
      forall y ensures y in t <==> y == x || (y in s && y.id != x.id) {
        if y in s && y.id != x.id {
          var j :| 0 <= j < |s| && s[j] == y;
          assert t[j] == y;
        }
      }
    } else {
      forall y ensures y in [x] + s <==> y == x || (y in s && y.id != x.id) {
        if y in s {
          var j :| 0 <= j < |s| && s[j] == y;
          assert s[j].id != x.id;
        }
      }
    }
  }

  lemma {:induction false} WithoutKeepsGood(s: seq<Session>, id: string)
    requires Good(s)
    ensures Good(Without(s, id)) && |Without(s, id)| <= |s|
    ensures forall y :: y in Without(s, id) <==> y in s && y.id != id
  {
    if s != [] {
      WithoutKeepsGood(s[1..], id);
      assert s == [s[0]] + s[1..];
      if s[0].id != id {
        HeadKeepsGood(s, Without(s[1..], id));
      }
    }
  }

  lemma HeadKeepsGood(s: seq<Session>, t: seq<Session>)
    requires Good(s) && s != [] && Good(t) && |t| < |s|
    requires forall y :: y in t ==> y in s[1..]
    ensures Good([s[0]] + t)
  {
    forall j | 0 <= j < |t| ensures s[0].id != t[j].id && s[0].updatedAt >= t[j].updatedAt {
      assert t[j] in s[1..];
    }
  }

  /** What a save leaves: unique ids, sorted, at most fifty. */
  lemma SaveKeepsGood(s: seq<Session>, x: Session)
    requires DistinctIds(s)
    ensures Good(Trimmed(Sort(Put(s, x))))
  {
    PutKeepsDistinct(s, x);
    SortKeeps(Put(s, x));
    SortSorted(Put(s, x));
  }

  /** After every run of saves and deletes from empty storage, with writes that fail in between: the ids are
      unique, the stored list is sorted with the newest first, and it has at most fifty entries. What is
      stored is what the next load returns. */
  lemma {:induction false} StorageStaysGood(h: History)
    ensures Good(Kept(h)) && |Kept(h)| <= 50 && (Item(h).Sessions? ==> Item(h).list == Kept(h))
  {
    match h
    case Begin =>
    case Save(earlier, x, full) =>
      StorageStaysGood(earlier);
      if !full {
        SaveKeepsGood(Kept(earlier), x);
        SortOfSorted(Item(h).list);
      }
    case Delete(earlier, id, full) =>
      StorageStaysGood(earlier);
      if !full {
        WithoutKeepsGood(Kept(earlier), id);
        SortOfSorted(Item(h).list);
      }
  }

  /** What a save drops is never newer than what it keeps, and it drops nothing else: after the save the list
      holds the old entries with other ids and the new one, less those. */
  lemma NothingNewerDropped(h: History, x: Session, y: Session, z: Session)
    requires z in Kept(Save(h, x, false))
    ensures z == x || (z in Kept(h) && z.id != x.id)
    ensures (y == x || (y in Kept(h) && y.id != x.id)) && y !in Kept(Save(h, x, false)) ==> y.updatedAt <= z.updatedAt
    ensures |Kept(Save(h, x, false))| == if HasId(Kept(h), x.id) || |Kept(h)| == 50 then |Kept(h)| else |Kept(h)| + 1
  {
    StorageStaysGood(h);
    StorageStaysGood(Save(h, x, false));
    PutKeepsDistinct(Kept(h), x);
    var all := Sort(Put(Kept(h), x));
    SortKeeps(Put(Kept(h), x));
    SortSorted(Put(Kept(h), x));
    TrimDropsOldest(all, y, z);
  }

  lemma TrimDropsOldest(all: seq<Session>, y: Session, z: Session)
    requires Sorted(all) && z in Trimmed(all)
    ensures z in all
    ensures y in all && y !in Trimmed(all) ==> y.updatedAt <= z.updatedAt
  {
    var n := |Trimmed(all)|;
    var j :| 0 <= j < n && Trimmed(all)[j] == z;
    assert all[j] == z;
    if y in all && y !in Trimmed(all) {
      InTheRest(all, n, y);
    }
  }

  lemma InTheRest(all: seq<Session>, n: nat, y: Session)
    requires n <= |all| && y in all && y !in all[..n]
    ensures exists i :: n <= i < |all| && all[i] == y
  {
    assert all == all[..n] + all[n..];
    var k :| 0 <= k < |all[n..]| && all[n..][k] == y;
    assert all[n + k] == y;
  }

  /** A save is kept exactly if its id was there already or fewer than fifty entries are strictly newer: in
      particular a session as recent as all others is kept, on ties too. */
  lemma SavedIsKeptIff(h: History, x: Session)
    ensures x in Kept(Save(h, x, false)) <==> HasId(Kept(h), x.id) || Newer(Kept(h), x.updatedAt) < 50
  {
    var s := Kept(h);
    StorageStaysGood(h);
    StorageStaysGood(Save(h, x, false));
    PutKeepsDistinct(s, x);
    SortKeeps(Put(s, x));
    if !HasId(s, x.id) {
      IndexOfHas(s, x.id);
      NewIsInserted(s, x);
    }
  }

  lemma NewIsInserted(s: seq<Session>, x: Session)
    requires Sorted(s) && !HasId(s, x.id)
    ensures x in Trimmed(Sort([x] + s)) <==> Newer(s, x.updatedAt) < MAX_SESSIONS
  {
    assert ([x] + s)[1..] == s;
    SortOfSorted(s);
    InsertPosition(x, s);
    var k, all := Newer(s, x.updatedAt), Sort([x] + s);
    assert all == s[..k] + [x] + s[k..] && all[k] == x;
    if k < MAX_SESSIONS {
      assert Trimmed(all)[k] == x;
    } else {
      assert forall i :: 0 <= i < |Trimmed(all)| ==> Trimmed(all)[i] == s[i];
    }
  }

  /** A delete takes the entry with the id away and no other; a write that fails changes nothing. */
  lemma DeletedIsGone(h: History, id: string, y: Session)
    ensures y in Kept(Delete(h, id, false)) <==> y in Kept(h) && y.id != id
    ensures Kept(Delete(h, id, true)) == Kept(h) && Kept(Save(h, y, true)) == Kept(h) && Kept(Begin) == []
  {
    StorageStaysGood(h);
    StorageStaysGood(Delete(h, id, false));
    WithoutKeepsGood(Kept(h), id);
  }

  /** The last version saved under an id, if it has not been deleted since. */
  function Latest(h: History, id: string): Option<Session> {
    match h
    case Begin => None
    case Save(earlier, x, full) => if !full && x.id == id then Some(x) else Latest(earlier, id)
    case Delete(earlier, d, full) => if !full && d == id then None else Latest(earlier, id)
  }

  /** Whatever is loaded is the latest version of its session: no stale version, and nothing deleted, ever
      comes back. */
  lemma {:induction false} LoadedIsLatest(h: History, y: Session)
    requires y in Kept(h)
    ensures Latest(h, y.id) == Some(y)
  {
    match h
    case Begin =>
    case Save(earlier, x, full) =>
      if full {
        LoadedIsLatest(earlier, y);
      } else {
        NothingNewerDropped(earlier, x, y, y);
        if y != x {
          LoadedIsLatest(earlier, y);
        }
      }
    case Delete(earlier, id, full) =>
      if !full {
        StorageStaysGood(earlier);
        StorageStaysGood(h);
        WithoutKeepsGood(Kept(earlier), id);
      }
      LoadedIsLatest(earlier, y);
  }
}
