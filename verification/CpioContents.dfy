/** initramfs/cpio/cpio.go: what an archive holds after a sequence of calls, said of the calls alone. */
module CpioContents {
  import opened Bytes
  import opened CpioFormat
  import opened Paths
  import opened Cpio

  /** A file or link as it should be in the archive. */
  datatype Item = Item(name: Path, mode: nat, data: seq<byte>)

  /** A copied file has type 0o100000 and its permission bits, a link 0o120000 and a terminated target. */
  function ItemOf(c: Call): Item {
    match c
    case Copy(_, _, file) =>
      Item(Join(Clean(CallPath(c))), 0x8000 + (if file.Some? then file.value.perm % 512 else 0),
           if file.Some? then file.value.content else [])
    case Link(target, name) => Item(Join(Clean(name)), 0xA000, target + [0])
  }

  /** The calls copy the same source to the same place, or make the same link. */
  predicate SameCall(a: Call, b: Call) {
    || (a.Copy? && b.Copy? && a.src == b.src && CallPath(a) == CallPath(b))
    || (a.Link? && b.Link? && a.target == b.target && a.name == b.name)
  }

  predicate Repeats(calls: seq<Call>, c: Call) {
    exists i :: 0 <= i < |calls| && SameCall(calls[i], c)
  }

  /** One item for every call that is the first of its kind, in the order of the calls. */
  function Items(calls: seq<Call>): seq<Item> {
    if calls == [] then [] else
    var front, last := calls[..|calls| - 1], calls[|calls| - 1];
    Items(front) + if Repeats(front, last) then [] else [ItemOf(last)]
  }

  predicate Directory(e: Entry) {
    e.mode == 0x41ED // 0o40755
  }

  /** The entries that are no directories. */
  function FilesOf(entries: seq<Entry>): seq<Item> {
    if entries == [] then [] else
    var e := entries[|entries| - 1];
    FilesOf(entries[..|entries| - 1]) + if Directory(e) then [] else [Item(e.name, e.mode, e.data)]
  }

  predicate IsAncestor(path: Path, k: int, name: Path) {
    1 <= k < |Clean(path)| && name == Join(Clean(path)[..k])
  }

  /** The name is that of a directory above the place of some call. */
  ghost predicate AncestorOf(calls: seq<Call>, name: Path) {
    exists i, k :: 0 <= i < |calls| && IsAncestor(CallPath(calls[i]), k, name)
  }

  /** An entry in its place: inodes count up, and directories are empty and needed. */
  ghost predicate EntryFits(calls: seq<Call>, entries: seq<Entry>, k: int)
    requires 0 <= k < |entries|
  {
    && entries[k].inode == k % 0x1_0000_0000
    && (Directory(entries[k]) ==> entries[k].data == [] && AncestorOf(calls, entries[k].name))
  }

  ghost predicate AllFit(calls: seq<Call>, entries: seq<Entry>) {
    forall k :: 0 <= k < |entries| ==> EntryFits(calls, entries, k)
  }

  /** The calls that succeed after the given ones. */
  predicate Succeeds(calls: seq<Call>, c: Call) {
    match c
    case Copy(_, _, file) =>
      && file.Some? && file.value.regular
      && (Repeats(calls, c) || (Relative(CallPath(c)) && |file.value.content| == file.value.size % 0x1_0000_0000))
    case Link(target, name) => Repeats(calls, c) || (Relative(name) && |target| + 1 < 0x1_0000_0000)
  }

  predicate Relative(path: Path) {
    |path| > 0 && path[0] != 0x2F
  }

  predicate AllSucceed(calls: seq<Call>) {
    calls == [] || (AllSucceed(calls[..|calls| - 1]) && Succeeds(calls[..|calls| - 1], calls[|calls| - 1]))
  }

  // ----- The model keeps to it -----

  /** What was copied and linked is remembered exactly. */
  ghost predicate Remembers(calls: seq<Call>, m: Model) {
    forall c :: Repeats(calls, c) <==> if c.Copy? then (c.src, CallPath(c)) in m.copied else (c.target, c.name) in m.linked
  }

  ghost predicate Holds(calls: seq<Call>, m: Model) {
    && Remembers(calls, m) && FilesOf(m.entries) == Items(calls)
    && AllFit(calls, m.entries) && m.inode == |m.entries| % 0x1_0000_0000
  }

  lemma FilesSnoc(entries: seq<Entry>, e: Entry)
    ensures FilesOf(entries + [e]) == FilesOf(entries) + if Directory(e) then [] else [Item(e.name, e.mode, e.data)]
  {
    assert (entries + [e])[..|entries|] == entries;
  }

  /** An entry added at the end. */
  lemma FitSnoc(calls: seq<Call>, m: Model, mode: nat, name: Path, data: seq<byte>)
    requires AllFit(calls, m.entries) && m.inode == |m.entries| % 0x1_0000_0000
    requires mode == 0x41ED ==> data == [] && AncestorOf(calls, name)
    ensures
      var m' := AddEntry(m, mode, name, data);
      AllFit(calls, m'.entries) && m'.inode == |m'.entries| % 0x1_0000_0000
  {
    hide AncestorOf;
    var entries := AddEntry(m, mode, name, data).entries;
    forall k | 0 <= k < |entries|
      ensures EntryFits(calls, entries, k)
    {
      if k < |m.entries| {
        assert EntryFits(calls, m.entries, k);
      }
    }
  }

  /** Making directories adds no files, and only what is needed. */
  lemma {:induction false} MkdirsFit(calls: seq<Call>, m: Model, path: Path, k: nat)
    requires AllFit(calls, m.entries) && m.inode == |m.entries| % 0x1_0000_0000 && 1 <= k
    requires exists i :: 0 <= i < |calls| && CallPath(calls[i]) == path
    ensures
      var m' := Mkdirs(m, Clean(path), k);
      && AllFit(calls, m'.entries) && m'.inode == |m'.entries| % 0x1_0000_0000
      && FilesOf(m'.entries) == FilesOf(m.entries) && m'.copied == m.copied && m'.linked == m.linked
    decreases |Clean(path)| - k
  {
    hide Clean, Join, AllFit, NextInode;
    var es := Clean(path);
    if k < |es| {
      var dir := Join(es[..k]);
      var next := Mkdir(m, dir);
      if dir !in m.dirs {
        var i :| 0 <= i < |calls| && CallPath(calls[i]) == path;
        assert IsAncestor(CallPath(calls[i]), k, dir);
        FitSnoc(calls, m, DIR_MODE, dir, []);
        FilesSnoc(m.entries, Entry(m.inode, DIR_MODE, dir, []));
      }
      hide FilesOf;
      MkdirsFit(calls, next, path, k + 1);
    }
  }

  lemma AddedFits(calls: seq<Call>, m: Model, path: Path, mode: nat, data: seq<byte>)
    requires AllFit(calls, m.entries) && m.inode == |m.entries| % 0x1_0000_0000 && mode != 0x41ED
    requires exists i :: 0 <= i < |calls| && CallPath(calls[i]) == path
    ensures
      var m' := Added(m, Clean(path), mode, data);
      && AllFit(calls, m'.entries) && m'.inode == |m'.entries| % 0x1_0000_0000
      && FilesOf(m'.entries) == FilesOf(m.entries) + [Item(Join(Clean(path)), mode, data)]
      && m'.copied == m.copied && m'.linked == m.linked
  {
    MkdirsFit(calls, m, path, 1);
    hide Clean, Join, AllFit, FilesOf, NextInode, Mkdirs;
    var dirs := Mkdirs(m, Clean(path), 1);
    FitSnoc(calls, dirs, mode, Join(Clean(path)), data);
    FilesSnoc(dirs.entries, Entry(dirs.inode, mode, Join(Clean(path)), data));
  }

  lemma FitMore(calls: seq<Call>, c: Call, entries: seq<Entry>)
    requires AllFit(calls, entries)
    ensures AllFit(calls + [c], entries)
  {
    forall k | 0 <= k < |entries|
      ensures EntryFits(calls + [c], entries, k)
    {
      assert EntryFits(calls, entries, k);
      if Directory(entries[k]) {
        var i, j :| 0 <= i < |calls| && IsAncestor(CallPath(calls[i]), j, entries[k].name);
        hide IsAncestor;
        assert (calls + [c])[i] == calls[i];
      }
    }
  }

  lemma RepeatsMore(calls: seq<Call>, c: Call, d: Call)
    ensures Repeats(calls + [c], d) <==> Repeats(calls, d) || SameCall(c, d)
  {
    hide SameCall;
    var more := calls + [c];
    assert more[|calls|] == c;
    if i :| 0 <= i < |calls| && SameCall(calls[i], d) {
      assert SameCall(more[i], d);
    }
  }

  lemma RemembersMore(calls: seq<Call>, m: Model, c: Call, m': Model)
    requires Remembers(calls, m)
    requires m'.copied == (if c.Copy? then m.copied + {(c.src, CallPath(c))} else m.copied)
    requires m'.linked == (if c.Link? then m.linked + {(c.target, c.name)} else m.linked)
    ensures Remembers(calls + [c], m')
  {
    hide Repeats;
    forall d: Call
      ensures Repeats(calls + [c], d) <==>
              if d.Copy? then (d.src, CallPath(d)) in m'.copied else (d.target, d.name) in m'.linked
    {
      RepeatsMore(calls, c, d);
    }
  }

  lemma ItemsSnoc(calls: seq<Call>, c: Call)
    ensures Items(calls + [c]) == Items(calls) + (if Repeats(calls, c) then [] else [ItemOf(c)])
  {
    assert (calls + [c])[..|calls|] == calls;
  }

  lemma SucceedsExactly(calls: seq<Call>, m: Model, c: Call)
    requires Remembers(calls, m)
    ensures Apply(m, c).Some? <==> Succeeds(calls, c)
  {
    RemembersSays(calls, m, c);
    hide Remembers, Repeats, Clean, Added;
  }

  lemma RepeatHolds(calls: seq<Call>, m: Model, c: Call)
    requires Holds(calls, m) && Repeats(calls, c)
    ensures Holds(calls + [c], m)
  {
    FitMore(calls, c, m.entries);
    ItemsSnoc(calls, c);
    RemembersSays(calls, m, c);
    var path := CallPath(c);
    assert m.copied == (if c.Copy? then m.copied + {(c.src, path)} else m.copied);
    assert m.linked == (if c.Link? then m.linked + {(c.target, c.name)} else m.linked);
    RemembersMore(calls, m, c, m);
    hide Remembers, Repeats, AllFit, FilesOf, Items;
  }

  /** The model with the entry of a call that is no repetition. */
  lemma NewHolds(calls: seq<Call>, m: Model, c: Call, m': Model, item: Item)
    requires Holds(calls, m) && !Repeats(calls, c) && item == ItemOf(c) && item.mode != 0x41ED
    requires m'.entries == Added(m, Clean(CallPath(c)), item.mode, item.data).entries
    requires m'.inode == Added(m, Clean(CallPath(c)), item.mode, item.data).inode
    requires m'.copied == (if c.Copy? then m.copied + {(c.src, CallPath(c))} else m.copied)
    requires m'.linked == (if c.Link? then m.linked + {(c.target, c.name)} else m.linked)
    ensures Holds(calls + [c], m')
  {
    FitMore(calls, c, m.entries);
    ItemsSnoc(calls, c);
    RemembersMore(calls, m, c, m');
    assert (calls + [c])[|calls|] == c;
    AddedFits(calls + [c], m, CallPath(c), item.mode, item.data);
    hide Remembers, Repeats, AllFit, FilesOf, Items, Added, Clean, Join;
  }

  lemma ApplyHolds(calls: seq<Call>, m: Model, c: Call)
    requires Holds(calls, m) && Apply(m, c).Some?
    ensures Holds(calls + [c], Apply(m, c).value)
  {
    var m' := Apply(m, c).value;
    RemembersSays(calls, m, c);
    if Repeats(calls, c) {
      hide Holds, Repeats;
      RepeatHolds(calls, m, c);
    } else {
      ApplyAdds(m, c);
      hide Holds, Repeats, Apply, Added;
      NewHolds(calls, m, c, m', ItemOf(c));
    }
  }

  lemma ApplyAdds(m: Model, c: Call)
    requires Apply(m, c).Some?
    requires if c.Copy? then (c.src, CallPath(c)) !in m.copied else (c.target, c.name) !in m.linked
    ensures
      var m', item := Apply(m, c).value, ItemOf(c);
      && item.mode != 0x41ED
      && m'.entries == Added(m, Clean(CallPath(c)), item.mode, item.data).entries
      && m'.inode == Added(m, Clean(CallPath(c)), item.mode, item.data).inode
      && m'.copied == (if c.Copy? then m.copied + {(c.src, CallPath(c))} else m.copied)
      && m'.linked == (if c.Link? then m.linked + {(c.target, c.name)} else m.linked)
  {
    AddedKeeps(m, Clean(CallPath(c)), ItemOf(c).mode, ItemOf(c).data);
    hide Clean, Join, Added;
  }

  lemma RemembersSays(calls: seq<Call>, m: Model, c: Call)
    requires Remembers(calls, m)
    ensures Repeats(calls, c) <==> if c.Copy? then (c.src, CallPath(c)) in m.copied else (c.target, c.name) in m.linked
  {
    hide Repeats;
  }

  lemma HoldsRemembers(calls: seq<Call>, m: Model)
    requires Holds(calls, m)
    ensures Remembers(calls, m)
  {
  }

  lemma EmptyHolds()
    ensures Holds([], EMPTY)
  {
  }

  lemma {:induction false} CallsHold(calls: seq<Call>)
    ensures ApplyAll(calls).Some? <==> AllSucceed(calls)
    ensures ApplyAll(calls).Some? ==> Holds(calls, ApplyAll(calls).value)
    decreases |calls|
  {
    hide Holds, Succeeds, Apply;
    if calls == [] {
      EmptyHolds();
    } else {
      var front := calls[..|calls| - 1];
      CallsHold(front);
      assert calls == front + [calls[|calls| - 1]];
      if ApplyAll(front).Some? {
        var m, c := ApplyAll(front).value, calls[|calls| - 1];
        assert Remembers(front, m) by { HoldsRemembers(front, m); }
        SucceedsExactly(front, m, c);
        if Apply(m, c).Some? {
          ApplyHolds(front, m, c);
        }
      }
    }
  }

  /**
   Calls succeed exactly under the conditions of Succeeds. An archive closed after them, if none of
   their paths starts with the trailer's name, reads back with exactly the copied files, with their
   content and mode, and the links, each once and in order, and apart from these nothing but the
   directories above them.
   */
  lemma ArchiveHolds(calls: seq<Call>)
    ensures ApplyAll(calls).Some? <==> AllSucceed(calls)
    ensures
      ApplyAll(calls).Some? && (forall e :: e in ApplyAll(calls).value.entries ==> |e.name| + 1 < 0x1_0000_0000)
      && (forall c :: c in calls ==> !Trails(CallPath(c))) ==>
        var r := ReadArchive(ArchiveBytes(Closed(ApplyAll(calls).value).entries));
        r.Some? && FilesOf(r.value) == Items(calls) && AllFit(calls, r.value)
  {
    CallsHold(calls);
    hide FilesOf, Items, AllFit, AllSucceed, ApplyAll, Closed, ReadArchive, ArchiveBytes, Trails, Remembers;
    if ApplyAll(calls).Some? && forall e :: e in ApplyAll(calls).value.entries ==> |e.name| + 1 < 0x1_0000_0000 {
      ReadsBackExactly(calls);
    }
  }
}
