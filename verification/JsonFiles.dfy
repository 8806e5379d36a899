/** `writeJSONAtomic` and the directory listing: records survive a crash at any point of a write. */
module JsonFiles {
  import opened Text

  /** What a file holds: `Torn` while `os.WriteFile` is at work on it, or after that was cut short. */
  datatype Content = Torn | Whole(data: string)

  type Directory = map<string, Content>

  /** `filepath.Ext`, for a name without '/'. */
  function Ext(name: string): string {
    if '.' !in name then ""
    else if name[|name| - 1] == '.' then "."
    else Ext(name[..|name| - 1]) + [name[|name| - 1]]
  }

  function RecordName(id: string): string { id + ".json" }

  function TempName(id: string): string { RecordName(id) + ".tmp" }

  /** What listing a directory yields: the entries with extension ".json" that can be read. */
  predicate IsRecord(d: Directory, name: string) {
    name in d && Ext(name) == ".json" && d[name].Whole?
  }

  function IdOf(name: string): string { if |name| >= 5 then name[..|name| - 5] else "" }

  function Listed(d: Directory): map<string, string> {
    map id | id in (set name | name in d && IsRecord(d, name) :: IdOf(name)) && IsRecord(d, RecordName(id)) ::
      d[RecordName(id)].data
  }

  /** `os.Rename`: what `from` holds is then under `to`, in one step. */
  function Rename(d: Directory, from: string, to: string): Directory
    requires from in d
  {
    (d - {from})[to := d[from]]
  }

  /** The points at which a crash can leave a write of record `id`, in order. */
  datatype Point = Before | Creating | Created | Renamed

  function At(d: Directory, id: string, data: string, p: Point): Directory {
    match p
    case Before => d
    case Creating => d[TempName(id) := Torn]
    case Created => d[TempName(id) := Whole(data)]
    case Renamed => Rename(d[TempName(id) := Whole(data)], TempName(id), RecordName(id))
  }

  /** A write touches two files only; until the rename the record is as it was, and after it the record has the
      new data and the temporary file is gone. */
  lemma WriteTouches(d: Directory, id: string, data: string, p: Point, name: string)
    ensures var e := At(d, id, data, p);
      && (name != id + ".json" && name != id + ".json.tmp" ==> (name in e <==> name in d) && (name in d ==> e[name] == d[name]))
      && (p != Renamed ==> (id + ".json" in e <==> id + ".json" in d))
      && (p != Renamed && id + ".json" in d ==> e[id + ".json"] == d[id + ".json"])
      && (p == Renamed ==> id + ".json" in e && e[id + ".json"] == Whole(data) && id + ".json.tmp" !in e)
  {
    NamesDiffer(id, id);
    assert TempName(id) == id + ".json.tmp";
  }

  lemma {:induction false} ExtOf(name: string, dot: nat)
    requires dot < |name| && name[dot] == '.' && '.' !in name[dot + 1..]
    ensures Ext(name) == name[dot..]
  {
    if dot == |name| - 1 {
      assert name[dot..] == ".";
    } else {
      var rest := name[..|name| - 1];
      assert name[|name| - 1] == name[dot + 1..][|name| - dot - 2];
      var tail := name[dot + 1..];
      assert rest[dot + 1..] == tail[..|tail| - 1];
      assert '.' !in tail[..|tail| - 1];
      ExtOf(rest, dot);
      assert rest[dot..] + [name[|name| - 1]] == name[dot..];
      assert name[dot] in name;
    }
  }

  lemma {:induction false} ExtIsSuffix(name: string)
    ensures |Ext(name)| <= |name| && name[|name| - |Ext(name)|..] == Ext(name)
  {
    if '.' in name && name[|name| - 1] != '.' {
      ExtIsSuffix(name[..|name| - 1]);
    }
  }

  lemma ExtOfRecord(id: string)
    ensures Ext(RecordName(id)) == ".json"
  {
    var r := RecordName(id);
    assert r[|id|..] == ".json" && r[|id| + 1..] == "json";
    ExtOf(r, |id|);
  }

  lemma ExtOfTemp(id: string)
    ensures Ext(TempName(id)) == ".tmp"
  {
    var r, t := RecordName(id), TempName(id);
    assert t[|r|..] == ".tmp" && t[|r| + 1..] == "tmp";
    ExtOf(t, |r|);
  }

  /** Record files are exactly the names with extension ".json"; a temporary file is never one. */
  lemma RecordNames(name: string)
    ensures Ext(RecordName(name)) == ".json" && IdOf(RecordName(name)) == name
    ensures Ext(TempName(name)) == ".tmp"
    ensures Ext(name) == ".json" <==> exists id :: name == RecordName(id)
  {
    ExtOfRecord(name);
    ExtOfTemp(name);
    if Ext(name) == ".json" {
      ExtIsSuffix(name);
      assert name == RecordName(IdOf(name));
    }
    forall id | name == RecordName(id) ensures Ext(name) == ".json" {
      ExtOfRecord(id);
    }
  }

  /** Which ids are listed, said directly. */
  lemma ListedIds(d: Directory, id: string)
    ensures id in Listed(d) <==> RecordName(id) in d && d[RecordName(id)].Whole?
    ensures id in Listed(d) ==> Listed(d)[id] == d[RecordName(id)].data
  {
    RecordNames(id);
  }

  lemma NamesDiffer(x: string, id: string)
    ensures RecordName(x) != TempName(id)
    ensures RecordName(x) == RecordName(id) <==> x == id
  {
    RecordNames(x);
    RecordNames(id);
  }

  function Lookup(m: map<string, string>, x: string): Option<string> {
    if x in m then Some(m[x]) else None
  }

  lemma SameLookups(a: map<string, string>, b: map<string, string>)
    requires forall x :: Lookup(a, x) == Lookup(b, x)
    ensures a == b
  {
    forall x ensures x in a <==> x in b {
      assert Lookup(a, x) == Lookup(b, x);
    }
    forall x | x in a ensures a[x] == b[x] {
      assert Lookup(a, x) == Lookup(b, x);
    }
  }

  lemma ListedAfter(d: Directory, id: string, data: string, p: Point, x: string)
    ensures Lookup(Listed(At(d, id, data, p)), x) ==
      if p == Renamed && x == id then Some(data) else Lookup(Listed(d), x)
  {
    NamesDiffer(x, id);
    ListedIds(d, x);
    ListedIds(At(d, id, data, p), x);
  }

  /** Whatever the directory holds, leftovers of earlier crashes included, a crash at any point of a write
      leaves every other record as it was, and the record itself old or new, and complete. */
  lemma CrashLeavesOldOrNew(d: Directory, id: string, data: string, p: Point)
    ensures Listed(At(d, id, data, p)) == if p == Renamed then Listed(d)[id := data] else Listed(d)
  {
    var got, old_ := Listed(At(d, id, data, p)), Listed(d);
    var want := if p == Renamed then old_[id := data] else old_;
    forall x ensures Lookup(got, x) == Lookup(want, x) {
      ListedAfter(d, id, data, p, x);
    }
    SameLookups(got, want);
  }
}
