/**
 initramfs/cpio/cpio.go: building an archive of files, links and the directories they need. The
 sink accepts everything, and the methods of one archive are called one after the other.
 */
module Cpio {
  import opened Bytes
  import opened CpioFormat
  import opened Paths

  const MODE_REGULAR := 0x8000
  const MODE_SYMLINK := 0xA000
  const DIR_MODE := 0x41ED // a directory with permissions 0755
  const INODES := 0x1_0000_0000

  /** What an archive has recorded so far; `entries` are the ones written, in order. */
  datatype Model = Model(
    entries: seq<Entry>, dirs: set<Path>, copied: set<(Path, Path)>, linked: set<(Path, Path)>, inode: nat)

  const EMPTY := Model([], {}, {}, {}, 0)

  /** Inode numbers have 32 bits. */
  function NextInode(inode: nat): (next: nat)
    ensures next < INODES
  {
    (inode + 1) % INODES
  }

  function AddEntry(m: Model, mode: nat, name: Path, data: seq<byte>): Model {
    m.(entries := m.entries + [Entry(m.inode, mode, name, data)], inode := NextInode(m.inode))
  }

  function Mkdir(m: Model, dir: Path): Model {
    if dir in m.dirs then m else
    var m' := AddEntry(m, DIR_MODE, dir, []);
    m'.(dirs := m.dirs + {dir})
  }

  /** Directories for the leading elements es[..k], es[..k + 1] and so on. */
  function Mkdirs(m: Model, es: seq<Path>, k: nat): Model
    decreases |es| - k
  {
    if k >= |es| then m else Mkdirs(Mkdir(m, Join(es[..k])), es, k + 1)
  }

  /** The entry for a path, behind the directories it needs. */
  function Added(m: Model, es: seq<Path>, mode: nat, data: seq<byte>): Model {
    AddEntry(Mkdirs(m, es, 1), mode, Join(es), data)
  }

  // ----- Directories come first, once -----

  predicate IsDir(e: Entry) {
    e.mode == DIR_MODE
  }

  predicate DirBefore(entries: seq<Entry>, k: nat, dir: Path) {
    exists j :: 0 <= j < k && j < |entries| && IsDir(entries[j]) && entries[j].name == dir
  }

  /** Every ancestor directory of every entry has an entry in front of it. */
  ghost predicate AncestorsFirst(entries: seq<Entry>) {
    forall k, i :: 0 <= k < |entries| && 1 <= i < |Split(entries[k].name)| ==>
                     DirBefore(entries, k, Join(Split(entries[k].name)[..i]))
  }

  ghost predicate DirsOnce(entries: seq<Entry>) {
    forall i, j :: 0 <= i < j < |entries| && IsDir(entries[i]) && IsDir(entries[j]) ==>
                     entries[i].name != entries[j].name
  }

  ghost predicate Recorded(entries: seq<Entry>, dirs: set<Path>) {
    forall d :: d in dirs <==> DirBefore(entries, |entries|, d)
  }

  ghost predicate Ordered(m: Model) {
    AncestorsFirst(m.entries) && DirsOnce(m.entries) && Recorded(m.entries, m.dirs) && m.inode < INODES
  }

  lemma DirBeforeGrows(entries: seq<Entry>, e: Entry, k: nat, dir: Path)
    requires k <= |entries|
    ensures DirBefore(entries + [e], k, dir) <==> DirBefore(entries, k, dir)
    ensures DirBefore(entries + [e], |entries| + 1, dir) <==>
            DirBefore(entries, |entries|, dir) || (IsDir(e) && e.name == dir)
  {
    var all := entries + [e];
    if DirBefore(entries, k, dir) {
      var j :| 0 <= j < k && j < |entries| && IsDir(entries[j]) && entries[j].name == dir;
      assert IsDir(all[j]) && all[j].name == dir;
    }
    if DirBefore(entries, |entries|, dir) {
      var j :| 0 <= j < |entries| && IsDir(entries[j]) && entries[j].name == dir;
      assert IsDir(all[j]) && all[j].name == dir;
    }
    if IsDir(e) && e.name == dir {
      assert IsDir(all[|entries|]) && all[|entries|].name == dir;
    }
  }

  lemma AncestorsAdd(entries: seq<Entry>, dirs: set<Path>, e: Entry, es: seq<Path>)
    requires AncestorsFirst(entries) && Recorded(entries, dirs) && Split(e.name) == es
    requires forall i :: 1 <= i < |es| ==> Join(es[..i]) in dirs
    ensures AncestorsFirst(entries + [e])
  {
    hide Split, Join, DirBefore;
    var all := entries + [e];
    forall k, i | 0 <= k < |all| && 1 <= i < |Split(all[k].name)|
      ensures DirBefore(all, k, Join(Split(all[k].name)[..i]))
    {
      DirBeforeGrows(entries, e, k, Join(Split(all[k].name)[..i]));
    }
  }

  lemma OnceAdd(entries: seq<Entry>, dirs: set<Path>, e: Entry)
    requires DirsOnce(entries) && Recorded(entries, dirs) && (IsDir(e) ==> e.name !in dirs)
    ensures DirsOnce(entries + [e])
  {
  }

  lemma RecordAdd(entries: seq<Entry>, dirs: set<Path>, e: Entry)
    requires Recorded(entries, dirs)
    ensures Recorded(entries + [e], if IsDir(e) then dirs + {e.name} else dirs)
  {
    hide DirBefore;
    forall d: Path
      ensures DirBefore(entries + [e], |entries| + 1, d) <==>
              DirBefore(entries, |entries|, d) || (IsDir(e) && e.name == d)
    {
      DirBeforeGrows(entries, e, |entries|, d);
    }
  }

  /** A new entry whose ancestors are recorded keeps the order; directories must be new. */
  lemma AddOrdered(m: Model, mode: nat, es: seq<Path>, data: seq<byte>)
    requires Ordered(m) && Cleaned(es)
    requires forall i :: 1 <= i < |es| ==> Join(es[..i]) in m.dirs
    requires mode == DIR_MODE ==> Join(es) !in m.dirs
    ensures
      var m' := AddEntry(m, mode, Join(es), data);
      Ordered(if mode == DIR_MODE then m'.(dirs := m.dirs + {Join(es)}) else m')
  {
    hide Split, Join, DirBefore, Plain, Canonical, AncestorsFirst, DirsOnce, Recorded;
    CleanPrefix(es, |es|);
    assert es[..|es|] == es;
    var e := Entry(m.inode, mode, Join(es), data);
    AncestorsAdd(m.entries, m.dirs, e, es);
    OnceAdd(m.entries, m.dirs, e);
    RecordAdd(m.entries, m.dirs, e);
  }

  predicate AncestorsRecorded(m: Model, es: seq<Path>, k: nat) {
    forall i :: 1 <= i < k && i <= |es| ==> Join(es[..i]) in m.dirs
  }

  lemma {:induction false} MkdirsOrdered(m: Model, es: seq<Path>, k: nat)
    requires Ordered(m) && Cleaned(es) && 1 <= k && AncestorsRecorded(m, es, k)
    ensures Ordered(Mkdirs(m, es, k)) && AncestorsRecorded(Mkdirs(m, es, k), es, |es|)
    decreases |es| - k
  {
    hide Join, Split, Ordered, Cleaned;
    if k < |es| {
      var front := es[..k];
      CleanPrefix(es, k);
      if Join(front) !in m.dirs {
        assert forall i :: 1 <= i < k ==> front[..i] == es[..i];
        AddOrdered(m, DIR_MODE, front, []);
      }
      MkdirsOrdered(Mkdir(m, Join(front)), es, k + 1);
    }
  }

  /** Whatever is added, directories stay unique and in front of what they contain. */
  lemma AddedOrdered(m: Model, es: seq<Path>, mode: nat, data: seq<byte>)
    requires Ordered(m) && Cleaned(es) && mode != DIR_MODE
    ensures Ordered(Added(m, es, mode, data))
  {
    hide Join, Ordered, Cleaned, Mkdirs;
    MkdirsOrdered(m, es, 1);
    AddOrdered(Mkdirs(m, es, 1), mode, es, data);
  }

  // ----- Whole archives -----

  datatype File = File(regular: bool, perm: nat, size: nat, content: seq<byte>)

  /** Arguments of one call; a source that cannot be opened has no file. */
  datatype Call = Copy(src: Path, dest: Path, file: Option<File>) | Link(target: Path, name: Path)

  predicate PathOk(p: Path) {
    p != [] && p[0] != SLASH
  }

  /** Copying an absolute path to itself stores it without the leading slash. */
  function Destination(src: Path, dest: Path): Path {
    if src == dest && dest != [] && dest[0] == SLASH then dest[1..] else dest
  }

  /** Effect of a call that succeeds; None when it fails. */
  function Apply(m: Model, c: Call): Option<Model> {
    match c
    case Copy(src, dest, file) =>
      var d := Destination(src, dest);
      if file.None? || !file.value.regular then None
      else if (src, d) in m.copied then Some(m)
      else if !PathOk(d) || |file.value.content| != file.value.size % INODES then None
      else
        var m' := Added(m, Clean(d), MODE_REGULAR + file.value.perm % 512, file.value.content);
        Some(m'.(copied := m'.copied + {(src, d)}))
    case Link(target, name) =>
      if (target, name) in m.linked then Some(m)
      else if !PathOk(name) || |target| + 1 >= INODES then None
      else
        var m' := Added(m, Clean(name), MODE_SYMLINK, target + [0]);
        Some(m'.(linked := m'.linked + {(target, name)}))
  }

  function ApplyAll(calls: seq<Call>): Option<Model> {
    if calls == [] then Some(EMPTY) else
    match ApplyAll(calls[..|calls| - 1])
    case None => None
    case Some(m) => Apply(m, calls[|calls| - 1])
  }

  function Closed(m: Model): Model {
    Added(m, Clean(TRAILER), 0, [])
  }

  lemma ApplyOrdered(m: Model, c: Call)
    requires Ordered(m) && Apply(m, c).Some?
    ensures Ordered(Apply(m, c).value)
  {
    hide Clean, Added, AncestorsFirst, DirsOnce, Recorded;
    match c
    case Copy(src, dest, file) =>
      CleanCleaned(Destination(src, dest));
      AddedOrdered(m, Clean(Destination(src, dest)), MODE_REGULAR + file.value.perm % 512, file.value.content);
    case Link(target, name) =>
      CleanCleaned(name);
      AddedOrdered(m, Clean(name), MODE_SYMLINK, target + [0]);
  }

  /** After any successful calls every ancestor directory has exactly one entry, in front of its contents. */
  lemma {:induction false} CallsOrdered(calls: seq<Call>)
    requires ApplyAll(calls).Some?
    ensures Ordered(ApplyAll(calls).value)
    decreases |calls|
  {
    hide Apply;
    if calls != [] {
      CallsOrdered(calls[..|calls| - 1]);
      ApplyOrdered(ApplyAll(calls[..|calls| - 1]).value, calls[|calls| - 1]);
    }
  }

  lemma TrailerPath()
    ensures Clean(TRAILER) == [TRAILER] && Join([TRAILER]) == TRAILER
  {
    var es := [TRAILER];
    assert Plain(es) && Canonical(es);
    CleanPrefix(es, 1);
    assert es[..1] == es;
  }

  lemma CloseAppends(m: Model)
    ensures Closed(m).entries == m.entries + [Entry(m.inode, 0, TRAILER, [])]
  {
    TrailerPath();
    assert Mkdirs(m, [TRAILER], 1) == m;
  }

  /** All numbers but the lengths of names fit their fields. */
  predicate FieldsFit(m: Model) {
    && m.inode < INODES
    && forall i :: 0 <= i < |m.entries| ==>
         m.entries[i].inode < INODES && m.entries[i].mode < INODES && |m.entries[i].data| < INODES
  }

  lemma {:induction false} MkdirsFit(m: Model, es: seq<Path>, k: nat)
    requires FieldsFit(m)
    ensures FieldsFit(Mkdirs(m, es, k))
    decreases |es| - k
  {
    if k < |es| {
      MkdirsFit(Mkdir(m, Join(es[..k])), es, k + 1);
    }
  }

  lemma {:induction false} CallsFit(calls: seq<Call>)
    requires ApplyAll(calls).Some?
    ensures FieldsFit(ApplyAll(calls).value)
    decreases |calls|
  {
    if calls != [] {
      CallsFit(calls[..|calls| - 1]);
      ApplyFits(ApplyAll(calls[..|calls| - 1]).value, calls[|calls| - 1]);
    }
  }

  lemma ApplyFits(m: Model, c: Call)
    requires FieldsFit(m) && Apply(m, c).Some?
    ensures FieldsFit(Apply(m, c).value)
  {
    hide Clean, Mkdirs, Join;
    MkdirsFit(m, Clean(if c.Copy? then Destination(c.src, c.dest) else c.name), 1);
  }

  /**
   Any sequence of successful calls followed by Close gives an archive that reads back as exactly
   the entries written, in order, if and only if no file, link or directory has the trailer's name.
   */
  lemma ClosedArchiveReadsBack(calls: seq<Call>)
    requires ApplyAll(calls).Some?
    requires forall e :: e in ApplyAll(calls).value.entries ==> |e.name| + 1 < INODES
    ensures
      var m := ApplyAll(calls).value;
      ReadArchive(ArchiveBytes(Closed(m).entries)) == Some(m.entries) <==> NoTrailer(m.entries)
  {
    var m := ApplyAll(calls).value;
    CallsFit(calls);
    CloseAppends(m);
    assert AllRepresentable(m.entries);
    hide ApplyAll, Closed, ArchiveBytes, ReadArchive, AncestorsFirst, DirsOnce, Recorded;
    ArchiveRoundTrip(m.entries, Entry(m.inode, 0, TRAILER, []));
  }

  // ----- The code -----

  // ----- Calls that write the trailer's name -----

  /** Where a call puts its entry. */
  function CallPath(c: Call): Path {
    if c.Copy? then Destination(c.src, c.dest) else c.name
  }

  /** The entry, or the outermost directory it needs, has the name of the trailer. */
  predicate Trails(path: Path) {
    Clean(path) != [] && Clean(path)[0] == TRAILER
  }

  lemma JoinTrailer(es: seq<Path>, i: nat)
    requires Cleaned(es) && 1 <= i <= |es|
    ensures Join(es[..i]) == TRAILER <==> i == 1 && es[0] == TRAILER
  {
    CleanPrefix(es, i);
    TrailerPath();
    hide Clean, Join, Cleaned;
    if Join(es[..i]) == TRAILER {
      assert es[..i] == [TRAILER];
      assert es[..i][0] == es[0];
    }
    if i == 1 && es[0] == TRAILER {
      assert es[..1] == [TRAILER];
    }
  }

  lemma AddTrailer(m: Model, mode: nat, name: Path, data: seq<byte>)
    ensures NoTrailer(AddEntry(m, mode, name, data).entries) <==> NoTrailer(m.entries) && name != TRAILER
  {
    var entries := AddEntry(m, mode, name, data).entries;
    assert forall k :: 0 <= k < |m.entries| ==> entries[k] == m.entries[k];
    assert entries[|m.entries|].name == name;
  }

  lemma {:induction false} MkdirsTrailer(m: Model, es: seq<Path>, k: nat)
    requires Cleaned(es) && 2 <= k
    ensures NoTrailer(Mkdirs(m, es, k).entries) <==> NoTrailer(m.entries)
    decreases |es| - k
  {
    hide Join, Cleaned, NoTrailer;
    if k < |es| {
      JoinTrailer(es, k);
      AddTrailer(m, DIR_MODE, Join(es[..k]), []);
      MkdirsTrailer(Mkdir(m, Join(es[..k])), es, k + 1);
    }
  }

  lemma DirTrailer(m: Model)
    requires Recorded(m.entries, m.dirs) && TRAILER in m.dirs
    ensures !NoTrailer(m.entries)
  {
    assert DirBefore(m.entries, |m.entries|, TRAILER);
  }

  lemma AddedTrailer(m: Model, es: seq<Path>, mode: nat, data: seq<byte>)
    requires Recorded(m.entries, m.dirs) && Cleaned(es)
    ensures es != [] && (NoTrailer(Added(m, es, mode, data).entries) <==> NoTrailer(m.entries) && es[0] != TRAILER)
  {
    var dirs := Mkdirs(m, es, 1);
    assert es != [];
    assert es[..|es|] == es;
    JoinTrailer(es, |es|);
    AddTrailer(dirs, mode, Join(es), data);
    if |es| > 1 {
      JoinTrailer(es, 1);
      var first := Mkdir(m, Join(es[..1]));
      assert dirs == Mkdirs(first, es, 2);
      AddTrailer(m, DIR_MODE, Join(es[..1]), []);
      MkdirsTrailer(first, es, 2);
      if TRAILER in m.dirs {
        DirTrailer(m);
      }
      hide Mkdirs, NoTrailer, Join, Cleaned, Recorded;
    }
  }

  /** What was copied or linked under the trailer's name is in the archive. */
  predicate Traced(m: Model) {
    && (forall x :: x in m.copied && Trails(x.1) ==> !NoTrailer(m.entries))
    && (forall x :: x in m.linked && Trails(x.1) ==> !NoTrailer(m.entries))
  }

  lemma TracedMore(m: Model, m': Model, path: Path)
    requires Traced(m) && (NoTrailer(m'.entries) <==> NoTrailer(m.entries) && !Trails(path))
    requires forall x :: x in m'.copied ==> x in m.copied || x.1 == path
    requires forall x :: x in m'.linked ==> x in m.linked || x.1 == path
    ensures Traced(m')
  {
    hide NoTrailer, Trails;
  }

  /** The model after the entry of a call was added, whatever is recorded about the call. */
  lemma AddedTraced(m: Model, path: Path, mode: nat, data: seq<byte>)
    requires Ordered(m)
    ensures
      var m' := Added(m, Clean(path), mode, data);
      && m'.copied == m.copied && m'.linked == m.linked
      && (NoTrailer(m'.entries) <==> NoTrailer(m.entries) && !Trails(path))
  {
    CleanCleaned(path);
    AddedTrailer(m, Clean(path), mode, data);
    AddedKeeps(m, Clean(path), mode, data);
    hide Clean, Added, NoTrailer, AncestorsFirst, DirsOnce, Recorded, Cleaned;
  }

  lemma ApplyTrailer(m: Model, c: Call)
    requires Ordered(m) && Traced(m) && Apply(m, c).Some?
    ensures Traced(Apply(m, c).value)
    ensures NoTrailer(Apply(m, c).value.entries) <==> NoTrailer(m.entries) && !Trails(CallPath(c))
  {
    hide Clean, Added, NoTrailer, Ordered, Trails;
    var path := CallPath(c);
    var m' := Apply(m, c).value;
    if c.Copy? {
      if (c.src, path) !in m.copied {
        AddedTraced(m, path, MODE_REGULAR + c.file.value.perm % 512, c.file.value.content);
        TracedMore(m, m', path);
      }
    } else if (c.target, path) !in m.linked {
      AddedTraced(m, path, MODE_SYMLINK, c.target + [0]);
      TracedMore(m, m', path);
    }
  }

  lemma {:induction false} MkdirsKeeps(m: Model, es: seq<Path>, k: nat)
    ensures Mkdirs(m, es, k).copied == m.copied && Mkdirs(m, es, k).linked == m.linked
    decreases |es| - k
  {
    if k < |es| {
      MkdirsKeeps(Mkdir(m, Join(es[..k])), es, k + 1);
    }
  }

  lemma AddedKeeps(m: Model, es: seq<Path>, mode: nat, data: seq<byte>)
    ensures Added(m, es, mode, data).copied == m.copied && Added(m, es, mode, data).linked == m.linked
  {
    MkdirsKeeps(m, es, 1);
  }

  lemma {:induction false} CallsTrailer(calls: seq<Call>)
    requires ApplyAll(calls).Some?
    ensures Traced(ApplyAll(calls).value)
    ensures NoTrailer(ApplyAll(calls).value.entries) <==> forall c :: c in calls ==> !Trails(CallPath(c))
    decreases |calls|
  {
    hide Apply, Trails, CallPath;
    if calls != [] {
      var n := |calls| - 1;
      CallsTrailer(calls[..n]);
      CallsOrdered(calls[..n]);
      ApplyTrailer(ApplyAll(calls[..n]).value, calls[n]);
      assert calls == calls[..n] + [calls[n]];
      hide NoTrailer, Traced, Ordered;
    }
  }

  /** The same condition on the calls: no path may start with an element named like the trailer. */
  lemma ReadsBackExactly(calls: seq<Call>)
    requires ApplyAll(calls).Some?
    requires forall e :: e in ApplyAll(calls).value.entries ==> |e.name| + 1 < INODES
    ensures
      var m := ApplyAll(calls).value;
      ReadArchive(ArchiveBytes(Closed(m).entries)) == Some(m.entries) <==>
      forall c :: c in calls ==> !Trails(CallPath(c))
  {
    hide ApplyAll, ReadArchive, ArchiveBytes, Closed, NoTrailer, Trails, CallPath;
    CallsTrailer(calls);
    ClosedArchiveReadsBack(calls);
  }

  lemma TrailerLink(target: Path)
    requires |target| + 1 < INODES
    ensures
      var m := Apply(EMPTY, Link(target, TRAILER));
      m.Some? && m.value.entries == [Entry(0, MODE_SYMLINK, TRAILER, target + [0])]
  {
    TrailerPath();
    hide Clean, Join;
    assert Mkdirs(EMPTY, [TRAILER], 1) == EMPTY;
  }

  lemma OneCall(c: Call)
    ensures ApplyAll([c]) == Apply(EMPTY, c)
  {
    hide Apply;
    assert [c][..0] == [];
    assert ApplyAll([]) == Some(EMPTY);
  }

  /** A link named like the trailer is written, and ends the archive for a reader. */
  lemma TrailerLinkEnds(target: Path)
    requires |target| + 1 < INODES
    ensures
      var m := ApplyAll([Link(target, TRAILER)]);
      && m.Some? && |m.value.entries| == 1
      && ReadArchive(ArchiveBytes(Closed(m.value).entries)) != Some(m.value.entries)
  {
    var calls := [Link(target, TRAILER)];
    OneCall(calls[0]);
    TrailerLink(target);
    hide ApplyAll, Apply, Closed, ReadArchive, ArchiveBytes;
    var m := ApplyAll(calls).value;
    assert m.entries[0].name == TRAILER && |TRAILER| == 10;
    ClosedArchiveReadsBack(calls);
  }

  lemma {:induction false} MkdirsRecorded(m: Model, es: seq<Path>, k: nat)
    requires 1 <= k && AncestorsRecorded(m, es, |es|)
    ensures Mkdirs(m, es, k) == m
    decreases |es| - k
  {
    hide Join;
    if k < |es| {
      MkdirsRecorded(m, es, k + 1);
    }
  }

  lemma NoneRecorded(m: Model, es: seq<Path>)
    ensures AncestorsRecorded(m, es, 1)
  {
  }

  lemma NoneLeft(m: Model, es: seq<Path>)
    ensures Mkdirs(m, es, |es|) == m
  {
  }

  lemma StepRecorded(m: Model, es: seq<Path>, i: nat)
    requires 1 <= i < |es| && AncestorsRecorded(m, es, i)
    ensures AncestorsRecorded(m, es[..i], i)
    ensures AncestorsRecorded(Mkdir(m, Join(es[..i])), es, i + 1)
    ensures Mkdirs(m, es, i) == Mkdirs(Mkdir(m, Join(es[..i])), es, i + 1)
  {
    hide Join;
    assert forall k :: 1 <= k < i ==> es[..i][..k] == es[..k];
  }

  lemma Reassociate(o: seq<byte>, h: seq<byte>, d: seq<byte>, z: seq<byte>)
    ensures o + h + d + z == o + (h + d + z)
  {
  }

  lemma ArchiveSnoc(entries: seq<Entry>, e: Entry)
    ensures ArchiveBytes(entries + [e]) == ArchiveBytes(entries) + EntryBytes(e)
  {
    hide EntryBytes;
    assert (entries + [e])[..|entries|] == entries;
  }

  class Archive {
    var out: seq<byte>
    ghost var entries: seq<Entry>
    var dirs: set<Path>
    var copied: set<(Path, Path)>
    var linked: set<(Path, Path)>
    var inode: nat

    ghost function Get(): Model
      reads this
    {
      Model(entries, dirs, copied, linked, inode)
    }

    ghost predicate Valid()
      reads this
    {
      out == ArchiveBytes(entries)
    }

    /** A header that announces another size than the data behind it has, and no padding. */
    ghost predicate Damaged(m: Model, mode: nat, name: Path, data: seq<byte>, filesize: nat)
      reads this
    {
      && out == ArchiveBytes(m.entries) + HeadBytes(Header(m.inode, mode, filesize, name)) + data
      && dirs == m.dirs && copied == m.copied && linked == m.linked && inode == NextInode(m.inode)
    }

    constructor ()
      ensures Valid() && Get() == EMPTY
    {
      out, entries, dirs, copied, linked, inode := [], [], {}, {}, {}, 0;
    }

    /** write: the directories a path needs, then its header, its data and padding. */
    method Write(data: Option<seq<byte>>, path: Path, mode: nat, filesize: nat) returns (ok: bool)
      requires Valid() && (data.None? ==> filesize == 0)
      modifies this
      ensures ok <==> PathOk(path) && (data.Some? ==> |data.value| == filesize)
      ensures ok ==> Valid() && Get() == Added(old(Get()), Clean(path), mode, if data.Some? then data.value else [])
      ensures !PathOk(path) ==> Valid() && Get() == old(Get())
      ensures !ok && PathOk(path) ==>
                Damaged(Mkdirs(old(Get()), Clean(path), 1), mode, Join(Clean(path)), data.value, filesize)
      decreases |Clean(path)|, 1
    {
      if |path| == 0 || path[0] == SLASH {
        return false;
      }
      var elements := Clean(path);
      CleanCleaned(path);
      hide Clean, Cleaned, Join, ArchiveBytes, HeadBytes, Mkdirs, NextInode;
      Parents(elements);
      ok := Emit(data, Join(elements), mode, filesize);
    }

    method Parents(elements: seq<Path>)
      requires Valid() && Cleaned(elements)
      modifies this
      ensures Valid() && Get() == Mkdirs(old(Get()), elements, 1)
      decreases |elements|, 0
    {
      hide Clean, Plain, Canonical, Join, ArchiveBytes, AncestorsRecorded, Mkdirs, Mkdir;
      NoneRecorded(Get(), elements);
      for i := 1 to |elements|
        invariant Valid() && AncestorsRecorded(Get(), elements, i)
        invariant Mkdirs(old(Get()), elements, 1) == Mkdirs(Get(), elements, i)
      {
        CleanPrefix(elements, i);
        StepRecorded(Get(), elements, i);
        MkDir(Join(elements[..i]));
      }
      NoneLeft(Get(), elements);
    }

    /** The second half of write: when the data does not have the announced size, it is too late. */
    method Emit(data: Option<seq<byte>>, name: Path, mode: nat, filesize: nat) returns (ok: bool)
      requires Valid() && (data.None? ==> filesize == 0)
      modifies this
      ensures ok <==> (data.Some? ==> |data.value| == filesize)
      ensures ok ==> Valid() && Get() == AddEntry(old(Get()), mode, name, if data.Some? then data.value else [])
      ensures !ok ==> out == old(out) + HeadBytes(Header(old(inode), mode, filesize, name)) + data.value
      ensures dirs == old(dirs) && copied == old(copied) && linked == old(linked) && inode == NextInode(old(inode))
    {
      ghost var e := Entry(inode, mode, name, if data.Some? then data.value else []);
      EntryWritten(entries, e, out);
      hide EntryBytes, HeadBytes, ArchiveBytes, Zeros, Padding, NextInode;
      entries := entries + [e];
      var header := Header(inode, mode, filesize, name);
      inode := NextInode(inode);
      if data.None? {
        out := out + HeadBytes(header);
        return true;
      }
      out := out + HeadBytes(header) + data.value;
      if |data.value| != filesize {
        return false;
      }
      out := out + Zeros(Padding(filesize));
      return true;
    }

    /** mkdir: an entry for a directory that has none yet. */
    method MkDir(dir: Path)
      requires Valid() && PathOk(dir) && Join(Clean(dir)) == dir
      requires AncestorsRecorded(Get(), Clean(dir), |Clean(dir)|)
      modifies this
      ensures Valid() && Get() == Mkdir(old(Get()), dir)
      decreases |Clean(dir)|, 2
    {
      hide Clean, Join, ArchiveBytes;
      if dir in dirs {
        return;
      }
      MkdirsRecorded(Get(), Clean(dir), 1);
      var ok := Write(None, dir, DIR_MODE, 0);
      dirs := dirs + {dir};
    }

    method CopyFile(src: Path, dest: Path, file: Option<File>) returns (ok: bool)
      requires Valid()
      modifies this
      ensures ok <==> Apply(old(Get()), Copy(src, dest, file)).Some?
      ensures ok ==> Valid() && Get() == Apply(old(Get()), Copy(src, dest, file)).value
    {
      hide Clean, Added, ArchiveBytes;
      var d := dest;
      if src == dest && |dest| > 0 && dest[0] == SLASH {
        d := dest[1..];
      }
      if file.None? || !file.value.regular {
        return false;
      }
      if (src, d) in copied {
        return true;
      }
      ok := Write(Some(file.value.content), d, MODE_REGULAR + file.value.perm % 512, file.value.size % INODES);
      if ok {
        copied := copied + {(src, d)};
      }
    }

    method LinkFile(target: Path, name: Path) returns (ok: bool)
      requires Valid()
      modifies this
      ensures ok <==> Apply(old(Get()), Link(target, name)).Some?
      ensures ok ==> Valid() && Get() == Apply(old(Get()), Link(target, name)).value
    {
      hide Clean, Added, ArchiveBytes;
      if (target, name) in linked {
        return true;
      }
      ok := Write(Some(target + [0]), name, MODE_SYMLINK, (|target| + 1) % INODES);
      if ok {
        linked := linked + {(target, name)};
      }
    }

    method Close() returns (ok: bool)
      requires Valid()
      modifies this
      ensures ok && Valid() && Get() == Closed(old(Get()))
    {
      hide Clean, Added, ArchiveBytes;
      ok := Write(None, TRAILER, 0, 0);
    }
  }

  lemma EntryWritten(entries: seq<Entry>, e: Entry, out: seq<byte>)
    requires out == ArchiveBytes(entries)
    ensures ArchiveBytes(entries + [e]) == out + HeadBytes(HeaderOf(e)) + e.data + Zeros(Padding(|e.data|))
    ensures e.data == [] ==> ArchiveBytes(entries + [e]) == out + HeadBytes(HeaderOf(e))
  {
    ArchiveSnoc(entries, e);
    hide HeadBytes, ArchiveBytes;
    Reassociate(out, HeadBytes(HeaderOf(e)), e.data, Zeros(Padding(|e.data|)));
  }
}
