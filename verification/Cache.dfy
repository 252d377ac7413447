/**
 nbd/s3/cache.go: goroutines copy chunks of an immutable remote object into a local file, mark
 them done or lost, and read the file, in any interleaving. A read takes the local bytes one at a
 time, so nothing is assumed about the atomicity of file access. Waiting for connections, timeouts
 and failures of the remote side are covered by fetches and reads that may be given up at any time.
 */
module Cache {
  import opened Bytes
  import ChunkMap

  /** One fetch between its Check and its end: the chunk and the number of bytes written so far. */
  datatype Fetch = Fetch(part: int, copied: nat)

  datatype Read =
    | Waiting(offset: int, len: nat, wait: nat)
    | Reading(offset: int, len: nat, got: seq<byte>)

  /** `handed` remembers which channel was handed out for which chunk as "not done". */
  datatype State = State(
    local: seq<byte>, chunks: ChunkMap.State, fetches: map<nat, Fetch>, readers: map<nat, Read>,
    handed: set<(int, nat)>)

  /** Go's division truncates towards zero. */
  function FirstChunk(offset: int): int {
    if offset >= 0 then offset / ChunkMap.CHUNK_SIZE else -((-offset) / ChunkMap.CHUNK_SIZE)
  }

  /** Number of bytes the file returns for a buffer of the given length, cut to one chunk. */
  function Window(localLen: nat, offset: int, len: nat): nat {
    var want := Min(len, ChunkMap.CHUNK_SIZE);
    if offset < 0 || offset >= localLen then 0 else Min(want, localLen - offset)
  }

  datatype Action =
    | StartFetch(id: nat, part: int) | Copy(id: nat, n: nat) | FinishFetch(id: nat) | DropFetch(id: nat)
    | Lose(lost: nat)
    | StartRead(id: nat, offset: int, len: nat) | Wake(id: nat) | TakeByte(id: nat) | DropRead(id: nat)

  function ExtentOf(remote: seq<byte>, c: int): ChunkMap.Extent {
    ChunkMap.ExtentOf(|remote|, c)
  }

  predicate Enabled(remote: seq<byte>, s: State, a: Action) {
    match a
    case StartFetch(id, part) =>
      id !in s.fetches && ExtentOf(remote, part).size > 0 && !ChunkMap.Check(s.chunks, part).done
    case Copy(id, n) => id in s.fetches && s.fetches[id].copied + n <= ExtentOf(remote, s.fetches[id].part).size
    case FinishFetch(id) =>
      id in s.fetches && s.fetches[id].part >= 0 && s.fetches[id].copied == ExtentOf(remote, s.fetches[id].part).size
    case DropFetch(id) => id in s.fetches
    case Lose(_) => true
    case StartRead(id, _, _) => id !in s.readers
    case Wake(id) => id in s.readers && s.readers[id].Waiting? && s.readers[id].wait in s.chunks.closed
    case TakeByte(id) =>
      id in s.readers && s.readers[id].Reading?
      && |s.readers[id].got| < Window(|s.local|, s.readers[id].offset, s.readers[id].len)
    case DropRead(id) => id in s.readers
  }

  function Overwritten(local: seq<byte>, at: nat, data: seq<byte>): (r: seq<byte>)
    ensures |r| == |local|
    ensures forall x :: 0 <= x < |local| ==> r[x] == if at <= x < at + |data| then data[x - at] else local[x]
  {
    seq(|local|, x requires 0 <= x < |local| => if at <= x < at + |data| then data[x - at] else local[x])
  }

  /** The bytes of the remote object from position `at`, as far as they exist. */
  function Piece(remote: seq<byte>, at: nat, n: nat): seq<byte> {
    if at + n <= |remote| then remote[at..at + n] else []
  }

  function Act(remote: seq<byte>, s: State, a: Action): State
    requires Enabled(remote, s, a)
  {
    match a
    case StartFetch(id, part) =>
      var r := ChunkMap.Check(s.chunks, part);
      s.(chunks := r.state, fetches := s.fetches[id := Fetch(part, 0)], handed := s.handed + {(part, r.wait)})
    case Copy(id, n) =>
      var f := s.fetches[id];
      var at := ExtentOf(remote, f.part).offset + f.copied;
      s.(local := Overwritten(s.local, at, Piece(remote, at, n)),
         fetches := s.fetches[id := f.(copied := f.copied + n)])
    case FinishFetch(id) =>
      s.(chunks := ChunkMap.Done(s.chunks, s.fetches[id].part), fetches := s.fetches - {id})
    case DropFetch(id) => s.(fetches := s.fetches - {id})
    case Lose(part) => s.(chunks := ChunkMap.Lost(s.chunks, part))
    case StartRead(id, offset, len) =>
      var first := FirstChunk(offset);
      var r := ChunkMap.Check(s.chunks, first);
      s.(chunks := r.state, readers := s.readers[id := Waiting(offset, len, r.wait)],
         handed := if r.done then s.handed else s.handed + {(first, r.wait)})
    case Wake(id) =>
      var r := s.readers[id];
      s.(readers := s.readers[id := Reading(r.offset, r.len, [])])
    case TakeByte(id) =>
      var r := s.readers[id];
      s.(readers := s.readers[id := r.(got := r.got + [s.local[r.offset + |r.got|]])])
    case DropRead(id) => s.(readers := s.readers - {id})
  }

  /** The local file agrees with the remote object on the bytes of chunk c before position `upto`. */
  predicate Agrees(remote: seq<byte>, local: seq<byte>, c: int, upto: nat) {
    |remote| <= |local| &&
    var e := ExtentOf(remote, c);
    forall x :: e.offset <= x < e.offset + e.size && x < upto ==> local[x] == remote[x]
  }

  predicate AgreesOn(remote: seq<byte>, local: seq<byte>, c: int) {
    Agrees(remote, local, c, |remote|)
  }

  /**
   A cache as it is opened: the file is at least as long as the object, the chunks that the loaded
   bitmap marks are in it, and nothing is in progress.
   */
  ghost predicate Initial(remote: seq<byte>, s: State) {
    && |remote| <= |s.local|
    && s.chunks == ChunkMap.Opened(|remote|, s.chunks.bitmap)
    && s.fetches == map[] && s.readers == map[] && s.handed == {}
    && (forall c: nat :: ChunkMap.Marked(s.chunks, c) ==> AgreesOn(remote, s.local, c))
  }

  ghost predicate Step(remote: seq<byte>, s: State, s': State) {
    exists a: Action :: Enabled(remote, s, a) && s' == Act(remote, s, a)
  }

  ghost predicate Run(remote: seq<byte>, states: seq<State>) {
    && states != [] && Initial(remote, states[0])
    && (forall k :: 0 <= k < |states| - 1 ==> Step(remote, states[k], states[k + 1]))
  }

  // ----- Invariant -----

  /** A channel handed out for chunk c is registered for c, or it is closed and c has arrived. */
  ghost predicate Promised(remote: seq<byte>, s: State, c: int, ch: nat) {
    || (c in s.chunks.running && s.chunks.running[c] == ch)
    || (ch in s.chunks.closed && AgreesOn(remote, s.local, c))
  }

  ghost predicate FetchOk(remote: seq<byte>, s: State, f: Fetch) {
    var e := ExtentOf(remote, f.part);
    0 < e.size && f.copied <= e.size && Agrees(remote, s.local, f.part, e.offset + f.copied)
  }

  /** Bytes read so far are remote bytes wherever they lie in the chunk the read waited for. */
  ghost predicate ReadOk(remote: seq<byte>, s: State, r: Read) {
    var c := FirstChunk(r.offset);
    match r
    case Waiting(_, _, ch) => if ch == 0 then AgreesOn(remote, s.local, c) else (c, ch) in s.handed
    case Reading(offset, len, got) =>
      && AgreesOn(remote, s.local, c)
      && |got| <= Window(|s.local|, offset, len)
      && (forall j :: 0 <= j < |got| && ExtentOf(remote, c).Contains(offset + j) ==> got[j] == remote[offset + j])
  }

  ghost predicate Inv(remote: seq<byte>, s: State) {
    && |remote| <= |s.local| && s.chunks.size == |remote|
    && ChunkMap.Valid(s.chunks)
    && (forall c: nat :: ChunkMap.Marked(s.chunks, c) ==> AgreesOn(remote, s.local, c))
    && (forall p :: p in s.handed ==> p.1 != 0 && Promised(remote, s, p.0, p.1))
    && (forall id :: id in s.fetches ==> FetchOk(remote, s, s.fetches[id]))
    && (forall id :: id in s.readers ==> ReadOk(remote, s, s.readers[id]))
  }

  /** Fetches write remote bytes only, so a byte that agrees keeps agreeing. */
  lemma AgreementKept(remote: seq<byte>, s: State, a: Action, c: int, upto: nat)
    requires Enabled(remote, s, a) && Agrees(remote, s.local, c, upto)
    ensures Agrees(remote, Act(remote, s, a).local, c, upto)
    ensures |Act(remote, s, a).local| == |s.local|
  {
    hide ChunkMap.Check, ChunkMap.Done, ChunkMap.Lost;
  }

  lemma PromiseKept(remote: seq<byte>, s: State, a: Action, c: int, ch: nat)
    requires Inv(remote, s) && Enabled(remote, s, a) && Promised(remote, s, c, ch)
    ensures Promised(remote, Act(remote, s, a), c, ch)
  {
    hide ChunkMap.Marked, Agrees, ChunkMap.SetBit, ExtentOf;
    if AgreesOn(remote, s.local, c) {
      AgreementKept(remote, s, a, c, |remote|);
    }
    match a
    case StartFetch(_, part) => ChunkMap.CheckValid(s.chunks, part);
    case StartRead(_, offset, _) => ChunkMap.CheckValid(s.chunks, FirstChunk(offset));
    case FinishFetch(id) =>
      if s.fetches[id].part == c {
        assert FetchOk(remote, s, s.fetches[id]);
        FullFetchAgrees(remote, s, s.fetches[id]);
      }
    case _ =>
  }

  lemma FullFetchAgrees(remote: seq<byte>, s: State, f: Fetch)
    requires FetchOk(remote, s, f) && f.copied == ExtentOf(remote, f.part).size
    ensures AgreesOn(remote, s.local, f.part)
  {
  }

  lemma ChunksKept(remote: seq<byte>, s: State, a: Action)
    requires Inv(remote, s) && Enabled(remote, s, a)
    ensures
      var s' := Act(remote, s, a);
      && ChunkMap.Valid(s'.chunks) && s'.chunks.size == |remote|
      && s.chunks.closed <= s'.chunks.closed
      && (forall c: nat :: ChunkMap.Marked(s'.chunks, c) ==>
            ChunkMap.Marked(s.chunks, c) || (a.FinishFetch? && c == s.fetches[a.id].part))
  {
    hide ChunkMap.Marked, Agrees, ExtentOf, ChunkMap.Valid, ChunkMap.ExtentOf, ReadOk, FetchOk, Promised;
    match a
    case StartFetch(_, part) =>
      ChunkMap.CheckValid(s.chunks, part);
      ChunkMap.SameMarks(s.chunks, ChunkMap.Check(s.chunks, part).state);
    case StartRead(_, offset, _) =>
      ChunkMap.CheckValid(s.chunks, FirstChunk(offset));
      ChunkMap.SameMarks(s.chunks, ChunkMap.Check(s.chunks, FirstChunk(offset)).state);
    case FinishFetch(id) => ChunkMap.DoneValid(s.chunks, s.fetches[id].part);
    case Lose(part) => ChunkMap.LostValid(s.chunks, part);
    case _ =>
  }

  lemma MarksKept(remote: seq<byte>, s: State, a: Action)
    requires Inv(remote, s) && Enabled(remote, s, a)
    ensures
      var s' := Act(remote, s, a);
      forall c: nat :: ChunkMap.Marked(s'.chunks, c) ==> AgreesOn(remote, s'.local, c)
  {
    hide ChunkMap.Marked, Agrees, ExtentOf, Act, Enabled, ChunkMap.Valid, ReadOk, Promised;
    ChunksKept(remote, s, a);
    var s' := Act(remote, s, a);
    forall c: nat | ChunkMap.Marked(s'.chunks, c)
      ensures AgreesOn(remote, s'.local, c)
    {
      if !ChunkMap.Marked(s.chunks, c) {
        FinishedAgrees(remote, s, a);
      }
      AgreementKept(remote, s, a, c, |remote|);
    }
  }

  lemma FinishedAgrees(remote: seq<byte>, s: State, a: Action)
    requires Inv(remote, s) && Enabled(remote, s, a) && a.FinishFetch?
    ensures AgreesOn(remote, s.local, s.fetches[a.id].part)
  {
    hide Agrees, ChunkMap.Valid, ReadOk, Promised;
    FullFetchAgrees(remote, s, s.fetches[a.id]);
  }

  lemma HandedKept(remote: seq<byte>, s: State, a: Action)
    requires Inv(remote, s) && Enabled(remote, s, a)
    ensures
      var s' := Act(remote, s, a);
      forall p :: p in s'.handed ==> p.1 != 0 && Promised(remote, s', p.0, p.1)
  {
    hide Agrees, ExtentOf, ChunkMap.Marked, ReadOk, FetchOk;
    var s' := Act(remote, s, a);
    forall p | p in s'.handed
      ensures p.1 != 0 && Promised(remote, s', p.0, p.1)
    {
      if p in s.handed {
        PromiseKept(remote, s, a, p.0, p.1);
      } else if a.StartFetch? {
        ChunkMap.CheckValid(s.chunks, a.part);
      } else {
        ChunkMap.CheckValid(s.chunks, FirstChunk(a.offset));
      }
    }
  }

  lemma FetchesKept(remote: seq<byte>, s: State, a: Action)
    requires Inv(remote, s) && Enabled(remote, s, a)
    ensures
      var s' := Act(remote, s, a);
      forall id :: id in s'.fetches ==> FetchOk(remote, s', s'.fetches[id])
  {
    hide ChunkMap.Valid, ChunkMap.Check, ChunkMap.Done, ChunkMap.Lost, ReadOk, Promised, Agrees, ExtentOf;
    var s' := Act(remote, s, a);
    forall id | id in s'.fetches
      ensures FetchOk(remote, s', s'.fetches[id])
    {
      if id in s.fetches {
        var f := s.fetches[id];
        assert FetchOk(remote, s, f);
        AgreementKept(remote, s, a, f.part, ExtentOf(remote, f.part).offset + f.copied);
        if a.Copy? && a.id == id {
          CopyExtends(remote, s, a);
        }
      } else {
        NothingCopied(remote, s', a.part);
      }
    }
  }

  lemma NothingCopied(remote: seq<byte>, s: State, part: int)
    requires |remote| <= |s.local|
    ensures Agrees(remote, s.local, part, ExtentOf(remote, part).offset)
  {
  }

  lemma CopyExtends(remote: seq<byte>, s: State, a: Action)
    requires Enabled(remote, s, a) && a.Copy? && FetchOk(remote, s, s.fetches[a.id])
    ensures FetchOk(remote, Act(remote, s, a), Act(remote, s, a).fetches[a.id])
  {
  }

  lemma ReadsKept(remote: seq<byte>, s: State, a: Action)
    requires Inv(remote, s) && Enabled(remote, s, a)
    ensures
      var s' := Act(remote, s, a);
      forall id :: id in s'.readers ==> ReadOk(remote, s', s'.readers[id])
  {
    hide ChunkMap.Valid, ChunkMap.Check, ChunkMap.Done, ChunkMap.Lost, Promised, Agrees, ExtentOf, FetchOk, Window, FirstChunk;
    var s' := Act(remote, s, a);
    forall id | id in s'.readers
      ensures ReadOk(remote, s', s'.readers[id])
    {
      if id in s.readers {
        var r := s.readers[id];
        var c := FirstChunk(r.offset);
        assert ReadOk(remote, s, r);
        if AgreesOn(remote, s.local, c) {
          AgreementKept(remote, s, a, c, |remote|);
        }
        if a.Wake? && a.id == id {
          WokenAgrees(remote, s, id);
        } else if a.TakeByte? && a.id == id {
          TakenAgrees(remote, s, id);
        }
        AgreesLength(remote, s, a);
      } else {
        StartedRead(remote, s, a);
      }
    }
  }

  lemma AgreesLength(remote: seq<byte>, s: State, a: Action)
    requires Enabled(remote, s, a)
    ensures |Act(remote, s, a).local| == |s.local|
  {
    hide ChunkMap.Check, ChunkMap.Done, ChunkMap.Lost;
  }

  /** A read wakes only when the chunk it waited for has arrived. */
  lemma WokenAgrees(remote: seq<byte>, s: State, id: nat)
    requires Inv(remote, s) && Enabled(remote, s, Wake(id))
    ensures AgreesOn(remote, s.local, FirstChunk(s.readers[id].offset))
  {
    hide Agrees, ExtentOf, FirstChunk, FetchOk, ChunkMap.Marked;
    var r := s.readers[id];
    assert ReadOk(remote, s, r);
    if r.wait != 0 {
      assert Promised(remote, s, FirstChunk(r.offset), r.wait);
    }
  }

  lemma TakenAgrees(remote: seq<byte>, s: State, id: nat)
    requires Enabled(remote, s, TakeByte(id)) && ReadOk(remote, s, s.readers[id])
    ensures ReadOk(remote, s, Act(remote, s, TakeByte(id)).readers[id])
  {
    hide FirstChunk;
    var r := s.readers[id];
    var c := FirstChunk(r.offset);
    var x := r.offset + |r.got|;
    if ExtentOf(remote, c).Contains(x) {
      ChunkMap.ChunksTile(|remote|, x, c);
      assert s.local[x] == remote[x];
    }
  }

  lemma StartedRead(remote: seq<byte>, s: State, a: Action)
    requires Inv(remote, s) && Enabled(remote, s, a) && a.StartRead?
    ensures ReadOk(remote, Act(remote, s, a), Act(remote, s, a).readers[a.id])
  {
    hide FirstChunk, FetchOk, Promised;
    var c := FirstChunk(a.offset);
    ChunkMap.CheckValid(s.chunks, c);
    if ExtentOf(remote, c).size == 0 {
      assert AgreesOn(remote, s.local, c);
    }
  }

  lemma ActKeepsInv(remote: seq<byte>, s: State, a: Action)
    requires Inv(remote, s) && Enabled(remote, s, a)
    ensures Inv(remote, Act(remote, s, a))
  {
    ChunksKept(remote, s, a);
    MarksKept(remote, s, a);
    HandedKept(remote, s, a);
    FetchesKept(remote, s, a);
    ReadsKept(remote, s, a);
    AgreesLength(remote, s, a);
    hide Act, Enabled, ChunkMap.Valid, ChunkMap.Marked, AgreesOn, Promised, FetchOk, ReadOk;
  }

  lemma InitialInv(remote: seq<byte>, s: State)
    requires Initial(remote, s)
    ensures Inv(remote, s)
  {
    hide AgreesOn, ChunkMap.Marked;
  }

  /** In every state of every run, marked chunks, finished waits and bytes read agree with the remote object. */
  lemma {:induction false} RunsCoherent(remote: seq<byte>, states: seq<State>, k: nat)
    requires Run(remote, states) && k < |states|
    ensures Inv(remote, states[k])
    decreases k
  {
    hide Inv, Initial;
    if k == 0 {
      InitialInv(remote, states[0]);
    } else {
      RunsCoherent(remote, states, k - 1);
      assert Step(remote, states[k - 1], states[k - 1 + 1]);
      hide Act, Enabled;
      var a: Action :| Enabled(remote, states[k - 1], a) && states[k] == Act(remote, states[k - 1], a);
      ActKeepsInv(remote, states[k - 1], a);
    }
  }

  // ----- Consequences -----

  /** Agreement on a chunk, once reached, is never lost, whatever is fetched, lost or read later. */
  lemma {:induction false} AgreementLasts(remote: seq<byte>, states: seq<State>, i: nat, j: nat, c: int)
    requires Run(remote, states) && i <= j < |states| && AgreesOn(remote, states[i].local, c)
    ensures AgreesOn(remote, states[j].local, c)
    decreases j
  {
    hide Initial, Agrees;
    if i < j {
      AgreementLasts(remote, states, i, j - 1, c);
      assert Step(remote, states[j - 1], states[j - 1 + 1]);
      hide Act, Enabled;
      var a: Action :| Enabled(remote, states[j - 1], a) && states[j] == Act(remote, states[j - 1], a);
      AgreementKept(remote, states[j - 1], a, c, |remote|);
    }
  }

  /**
   No wakeup is lost: a channel handed out for a chunk is either open and still the one registered
   for the chunk, or closed after the chunk has arrived; finishing a fetch of the chunk closes it.
   */
  lemma NoLostWakeup(remote: seq<byte>, states: seq<State>, k: nat, c: int, ch: nat)
    requires Run(remote, states) && k < |states| && (c, ch) in states[k].handed
    ensures
      var s := states[k];
      && (ch !in s.chunks.closed <==> c in s.chunks.running && s.chunks.running[c] == ch)
      && (ch in s.chunks.closed ==> AgreesOn(remote, s.local, c))
      && (forall id :: Enabled(remote, s, FinishFetch(id)) && s.fetches[id].part == c ==>
            ch in Act(remote, s, FinishFetch(id)).chunks.closed)
  {
    hide Run, Agrees, ExtentOf, ChunkMap.Marked, ChunkMap.SetBit, FetchOk, ReadOk;
    RunsCoherent(remote, states, k);
    assert Promised(remote, states[k], c, ch);
  }

  /** Only the end of a fetch of the chunk it was handed out for closes a channel. */
  lemma ClosedByItsFetch(remote: seq<byte>, s: State, a: Action, c: int, ch: nat)
    requires Inv(remote, s) && Enabled(remote, s, a) && (c, ch) in s.handed
    requires ch !in s.chunks.closed && ch in Act(remote, s, a).chunks.closed
    ensures a.FinishFetch? && s.fetches[a.id].part == c
  {
    hide Agrees, ExtentOf, ChunkMap.Marked, ChunkMap.SetBit, FetchOk, ReadOk;
    assert Promised(remote, s, c, ch);
  }

  /** The bits a map may have: those of the chunks, or for a loaded map those in the loader's bytes. */
  function BitLimit(total: nat, loaded: bool): (k: nat)
    ensures ChunkMap.ChunkCount(total) <= k
  {
    if loaded then ChunkMap.LoaderBits(total) else ChunkMap.ChunkCount(total)
  }

  lemma BelowKept(remote: seq<byte>, s: State, a: Action, loaded: bool)
    requires Inv(remote, s) && Enabled(remote, s, a)
    requires ChunkMap.Below(s.chunks.bitmap, BitLimit(|remote|, loaded))
    ensures ChunkMap.Below(Act(remote, s, a).chunks.bitmap, BitLimit(|remote|, loaded))
  {
    var limit := BitLimit(|remote|, loaded);
    ChunksKept(remote, s, a);
    if a.FinishFetch? {
      assert FetchOk(remote, s, s.fetches[a.id]);
      ChunkMap.NonEmptyInRange(|remote|, s.fetches[a.id].part);
    }
    hide Act, Enabled, ChunkMap.Valid, AgreesOn, Promised, FetchOk, ReadOk, ChunkMap.Bit, BitLimit;
    var s' := Act(remote, s, a);
    forall i: nat | i >= limit ensures !ChunkMap.Bit(s'.chunks.bitmap, i) {
      assert ChunkMap.Marked(s'.chunks, i) ==> ChunkMap.Marked(s.chunks, i);
    }
  }

  /**
   Runs add bits for chunks of the object only: the bits stay below the chunk count, and those of
   a loaded map within the loader's bytes.
   */
  lemma {:induction false} BitsInRange(remote: seq<byte>, states: seq<State>, k: nat, loaded: bool)
    requires Run(remote, states) && k < |states|
    requires ChunkMap.Below(states[0].chunks.bitmap, BitLimit(|remote|, loaded))
    ensures ChunkMap.Below(states[k].chunks.bitmap, BitLimit(|remote|, loaded))
    decreases k
  {
    hide Initial, ChunkMap.Below, BitLimit;
    if k > 0 {
      BitsInRange(remote, states, k - 1, loaded);
      RunsCoherent(remote, states, k - 1);
      assert Step(remote, states[k - 1], states[k - 1 + 1]);
      hide Act, Enabled, Inv;
      var a: Action :| Enabled(remote, states[k - 1], a) && states[k] == Act(remote, states[k - 1], a);
      BelowKept(remote, states[k - 1], a, loaded);
    }
  }

  /** So the map can be saved and loaded again at any time, if it has at most the loader's ceiling of bytes. */
  lemma MapReloads(remote: seq<byte>, states: seq<State>, k: nat)
    requires Run(remote, states) && k < |states| && |remote| < 0x8000_0000_0000_0000
    requires ChunkMap.Below(states[0].chunks.bitmap, ChunkMap.LoaderBits(|remote|))
    ensures
      var m := states[k].chunks;
      ChunkMap.Loaded(ChunkMap.Saved(m.bitmap, m.size), m.size) == Ok(m.bitmap) <==>
      |ChunkMap.Minimal(m.bitmap)| <= ChunkMap.BYTE_CEILING
  {
    hide Run, ChunkMap.Below, ChunkMap.Loaded, ChunkMap.Saved, ChunkMap.ChunkCount, ChunkMap.Minimal;
    assert BitLimit(|remote|, true) == ChunkMap.LoaderBits(|remote|);
    BitsInRange(remote, states, k, true);
    SizeOfRun(remote, states, k);
    hide ChunkMap.LoaderBits;
    ChunkMap.SaveLoad(states[k].chunks.bitmap, |remote|, |remote|);
  }

  lemma SizeOfRun(remote: seq<byte>, states: seq<State>, k: nat)
    requires Run(remote, states) && k < |states|
    ensures states[k].chunks.size == |remote|
  {
    RunsCoherent(remote, states, k);
  }

  // ----- Which reads are coherent -----

  /** The bytes are exactly those of the remote object at the given offset. */
  predicate Faithful(remote: seq<byte>, offset: int, got: seq<byte>) {
    && (got != [] ==> 0 <= offset && offset + |got| <= |remote|)
    && forall j :: 0 <= j < |got| ==> got[j] == remote[offset + j]
  }

  /**
   All bytes that the read asks for, a chunk's worth at most and as far as the file goes, are bytes
   of the object in the chunk of the first one.
   */
  ghost predicate WithinChunk(total: nat, localLen: nat, offset: int, len: nat) {
    forall x :: 0 <= offset <= x < offset + len && x < offset + ChunkMap.CHUNK_SIZE && x < localLen ==>
                  x < total && x / ChunkMap.CHUNK_SIZE == offset / ChunkMap.CHUNK_SIZE
  }

  /** The read has got these bytes and can take no more. */
  ghost predicate Ended(remote: seq<byte>, s: State, id: nat, offset: int, len: nat, got: seq<byte>) {
    id in s.readers && s.readers[id] == Reading(offset, len, got) && !Enabled(remote, s, TakeByte(id))
  }

  ghost predicate HasEnded(remote: seq<byte>, s: State, offset: int, len: nat, got: seq<byte>) {
    exists id :: Ended(remote, s, id, offset, len, got)
  }

  ghost predicate Completed(remote: seq<byte>, states: seq<State>, localLen: nat, offset: int, len: nat, got: seq<byte>) {
    && Run(remote, states) && |states[|states| - 1].local| == localLen
    && HasEnded(remote, states[|states| - 1], offset, len, got)
  }

  /** No run whatsoever lets such a read return anything but remote bytes. */
  ghost predicate AlwaysFaithful(total: nat, localLen: nat, offset: int, len: nat) {
    forall remote: seq<byte>, states: seq<State>, got: seq<byte> ::
      |remote| == total && Completed(remote, states, localLen, offset, len, got) ==> Faithful(remote, offset, got)
  }

  /**
   How many bytes a read returns, in every run: as many as were asked for, a chunk's worth and what
   the file has from the offset on allow, and not one fewer.
   */
  lemma ReadLength(remote: seq<byte>, states: seq<State>, k: nat, id: nat, offset: int, len: nat, got: seq<byte>)
    requires Run(remote, states) && k < |states| && Ended(remote, states[k], id, offset, len, got)
    ensures |got| <= len && |got| <= ChunkMap.CHUNK_SIZE
    ensures got != [] ==> 0 <= offset && offset + |got| <= |states[k].local|
    ensures |got| == len || |got| == ChunkMap.CHUNK_SIZE || offset < 0 || offset + |got| >= |states[k].local|
  {
    RunsCoherent(remote, states, k);
    assert ReadOk(remote, states[k], states[k].readers[id]);
  }

  lemma TakenFromChunk(remote: seq<byte>, s: State, id: nat, offset: int, len: nat, got: seq<byte>, j: nat)
    requires Inv(remote, s) && id in s.readers && s.readers[id] == Reading(offset, len, got) && j < |got|
    requires 0 <= offset && offset + j < |remote|
    requires (offset + j) / ChunkMap.CHUNK_SIZE == offset / ChunkMap.CHUNK_SIZE
    ensures got[j] == remote[offset + j]
  {
    assert ReadOk(remote, s, s.readers[id]);
    ChunkMap.ChunksTile(|remote|, offset + j, FirstChunk(offset));
    hide Inv, Agrees, Window;
  }

  /**
   A read of bytes of the object that lie in one chunk returns exactly these bytes, all of them, in
   every run.
   */
  lemma ReadReturns(remote: seq<byte>, states: seq<State>, k: nat, id: nat, offset: nat, len: nat, got: seq<byte>)
    requires Run(remote, states) && k < |states| && Ended(remote, states[k], id, offset, len, got)
    requires offset + len <= |remote|
    requires len > 0 ==> offset / ChunkMap.CHUNK_SIZE == (offset + len - 1) / ChunkMap.CHUNK_SIZE
    ensures got == remote[offset..offset + len]
  {
    ReadLength(remote, states, k, id, offset, len, got);
    RunsCoherent(remote, states, k);
    assert |got| == len by { assert |states[k].local| >= |remote|; }
    hide Run, Inv, Enabled;
    forall j | 0 <= j < len
      ensures got[j] == remote[offset + j]
    {
      TakenFromChunk(remote, states[k], id, offset, len, got, j);
    }
  }

  lemma WithinIsFaithful(remote: seq<byte>, states: seq<State>, localLen: nat, offset: int, len: nat, got: seq<byte>)
    requires Completed(remote, states, localLen, offset, len, got)
    requires WithinChunk(|remote|, localLen, offset, len)
    ensures Faithful(remote, offset, got)
  {
    var s := states[|states| - 1];
    var id :| Ended(remote, s, id, offset, len, got);
    ReadLength(remote, states, |states| - 1, id, offset, len, got);
    RunsCoherent(remote, states, |states| - 1);
    AllTaken(remote, s, localLen, id, offset, len, got);
  }

  lemma AllTaken(remote: seq<byte>, s: State, localLen: nat, id: nat, offset: int, len: nat, got: seq<byte>)
    requires Inv(remote, s) && id in s.readers && s.readers[id] == Reading(offset, len, got)
    requires |got| <= len && |got| <= ChunkMap.CHUNK_SIZE && (got != [] ==> 0 <= offset && offset + |got| <= localLen)
    requires WithinChunk(|remote|, localLen, offset, len)
    ensures Faithful(remote, offset, got)
  {
    hide Inv, WithinChunk;
    if got != [] {
      Covered(|remote|, localLen, offset, len, offset + |got| - 1);
    }
    forall j | 0 <= j < |got|
      ensures got[j] == remote[offset + j]
    {
      Covered(|remote|, localLen, offset, len, offset + j);
      TakenFromChunk(remote, s, id, offset, len, got, j);
    }
  }

  lemma Covered(total: nat, localLen: nat, offset: int, len: nat, x: int)
    requires WithinChunk(total, localLen, offset, len)
    requires 0 <= offset <= x < offset + len && x < offset + ChunkMap.CHUNK_SIZE && x < localLen
    ensures x < total && x / ChunkMap.CHUNK_SIZE == offset / ChunkMap.CHUNK_SIZE
  {
  }

  /** A cache whose file is right on the first chunk only. */
  function Stale(remote: seq<byte>, localLen: nat, offset: int): State {
    var c := FirstChunk(offset);
    var e := ExtentOf(remote, c);
    State(seq(localLen, x => if e.Contains(x) then 0 else 1),
          ChunkMap.Opened(|remote|, if e.size > 0 && c >= 0 then ChunkMap.SetBit(0, c, true) else 0),
          map[], map[], {})
  }

  lemma {:induction false} ZeroHasNoBits(i: nat)
    ensures !ChunkMap.Bit(0, i)
  {
    if i > 0 {
      ZeroHasNoBits(i - 1);
    }
  }

  lemma StaleInitial(remote: seq<byte>, localLen: nat, offset: int)
    requires |remote| <= localLen && forall x :: 0 <= x < |remote| ==> remote[x] == 0
    ensures Initial(remote, Stale(remote, localLen, offset))
    ensures ChunkMap.Check(Stale(remote, localLen, offset).chunks, FirstChunk(offset)).done
  {
    hide FirstChunk, ChunkMap.SetBit, ChunkMap.Bit;
    var s := Stale(remote, localLen, offset);
    var c := FirstChunk(offset);
    ChunkMap.NonEmptyInRange(|remote|, c);
    forall d: nat
      ensures ChunkMap.Marked(s.chunks, d) <==> ExtentOf(remote, c).size > 0 && d == c
    {
      ZeroHasNoBits(d);
      if c >= 0 {
        ChunkMap.BitOfSetBit(0, c, true, d);
      }
    }
  }

  /** Runs a read to its end with nobody else doing anything. */
  lemma {:induction false} ReadAlone(remote: seq<byte>, states: seq<State>, id: nat, todo: nat) returns (run: seq<State>)
    requires Run(remote, states)
    requires
      var s := states[|states| - 1];
      && id in s.readers && s.readers[id].Reading? && s.readers[id].offset >= 0
      && 0 < |s.readers[id].got| + todo == Window(|s.local|, s.readers[id].offset, s.readers[id].len)
      && s.readers[id].got == s.local[s.readers[id].offset..s.readers[id].offset + |s.readers[id].got|]
    ensures Run(remote, run)
    ensures
      var s, s' := states[|states| - 1], run[|run| - 1];
      var r := s.readers[id];
      var n := Window(|s.local|, r.offset, r.len);
      && s'.local == s.local && id in s'.readers
      && s'.readers[id] == Reading(r.offset, r.len, s.local[r.offset..r.offset + n])
    decreases todo
  {
    hide Initial, Window;
    if todo == 0 {
      run := states;
    } else {
      var s := states[|states| - 1];
      WindowInside(|s.local|, s.readers[id].offset, s.readers[id].len);
      assert Enabled(remote, s, TakeByte(id));
      var s' := Act(remote, s, TakeByte(id));
      assert Step(remote, s, s');
      run := ReadAlone(remote, states + [s'], id, todo - 1);
    }
  }

  lemma WindowInside(localLen: nat, offset: int, len: nat)
    requires offset >= 0
    ensures Window(localLen, offset, len) == 0 || offset + Window(localLen, offset, len) <= localLen
  {
  }

  /** With a cache like that a read starts, finds its first chunk done and goes on. */
  lemma StaleWakes(remote: seq<byte>, localLen: nat, offset: int, len: nat) returns (states: seq<State>)
    requires |remote| <= localLen && forall x :: 0 <= x < |remote| ==> remote[x] == 0
    ensures Run(remote, states)
    ensures
      var s := states[|states| - 1];
      && s.local == Stale(remote, localLen, offset).local
      && 0 in s.readers && s.readers[0] == Reading(offset, len, [])
  {
    hide ChunkMap.SetBit, ChunkMap.Bit;
    var s0 := Stale(remote, localLen, offset);
    StaleInitial(remote, localLen, offset);
    hide Initial;
    assert Enabled(remote, s0, StartRead(0, offset, len));
    var s1 := Act(remote, s0, StartRead(0, offset, len));
    assert s1.readers[0] == Waiting(offset, len, 0);
    assert Enabled(remote, s1, Wake(0));
    var s2 := Act(remote, s1, Wake(0));
    assert Step(remote, s0, s1) && Step(remote, s1, s2);
    states := [s0, s1, s2];
  }

  /** A byte that the read gets and that is not one of the object in the first chunk. */
  lemma Outside(total: nat, localLen: nat, offset: int, len: nat) returns (x: int)
    requires !WithinChunk(total, localLen, offset, len)
    ensures 0 <= offset <= x < offset + Window(localLen, offset, len) && x < localLen
    ensures !ChunkMap.ExtentOf(total, FirstChunk(offset)).Contains(x)
  {
    x :| 0 <= offset <= x < offset + len && x < offset + ChunkMap.CHUNK_SIZE && x < localLen
         && !(x < total && x / ChunkMap.CHUNK_SIZE == offset / ChunkMap.CHUNK_SIZE);
    ChunkMap.ChunksTile(total, x, FirstChunk(offset));
  }

  /** A read whose bytes leave the chunk can return bytes that are not the remote ones. */
  lemma StraddlingReadGoesStale(total: nat, localLen: nat, offset: int, len: nat)
    returns (remote: seq<byte>, states: seq<State>, got: seq<byte>)
    requires total <= localLen && !WithinChunk(total, localLen, offset, len)
    ensures |remote| == total && Completed(remote, states, localLen, offset, len, got)
    ensures !Faithful(remote, offset, got)
  {
    remote := seq(total, _ => 0);
    var local := Stale(remote, localLen, offset).local;
    var n := Window(localLen, offset, len);
    WindowInside(localLen, offset, len);
    var x := Outside(total, localLen, offset, len);
    assert |local| == localLen && local[x] == 1;
    hide Stale, Run, Window, WithinChunk, Faithful;
    var woken := StaleWakes(remote, localLen, offset, len);
    states := ReadAlone(remote, woken, 0, n);
    got := local[offset..offset + n];
    assert Ended(remote, states[|states| - 1], 0, offset, len, got);
    assert got[x - offset] == local[x];
    OneWrongByte(remote, offset, got, x - offset);
  }

  lemma OneWrongByte(remote: seq<byte>, offset: int, got: seq<byte>, j: nat)
    requires j < |got| && got[j] == 1 && forall x :: 0 <= x < |remote| ==> remote[x] == 0
    ensures !Faithful(remote, offset, got)
  {
    assert !(0 <= offset + j < |remote| && got[j] == remote[offset + j]);
  }

  /**
   ReadAt returns nothing but the remote bytes in every run if and only if the bytes it asks for lie
   in the chunk of the first one, because that is the only chunk it waits for.
   */
  lemma CoherentExactlyWithinChunk(total: nat, localLen: nat, offset: int, len: nat)
    requires total <= localLen
    ensures AlwaysFaithful(total, localLen, offset, len) <==> WithinChunk(total, localLen, offset, len)
  {
    hide Completed, Faithful, WithinChunk;
    if WithinChunk(total, localLen, offset, len) {
      forall remote: seq<byte>, states: seq<State>, got: seq<byte>
        | |remote| == total && Completed(remote, states, localLen, offset, len, got)
        ensures Faithful(remote, offset, got)
      {
        WithinIsFaithful(remote, states, localLen, offset, len, got);
      }
    } else {
      var remote, states, got := StraddlingReadGoesStale(total, localLen, offset, len);
    }
  }

  // ----- Every read can be completed -----

  lemma Extended(remote: seq<byte>, states: seq<State>, a: Action) returns (more: seq<State>)
    requires Run(remote, states) && Enabled(remote, states[|states| - 1], a)
    ensures Run(remote, more) && more == states + [Act(remote, states[|states| - 1], a)]
  {
    hide Initial;
    var s := states[|states| - 1];
    assert Step(remote, s, Act(remote, s, a));
    more := states + [Act(remote, s, a)];
  }

  /** A fetch of a chunk that is registered, from its start to its end, closes the chunk's channel. */
  lemma FetchArrives(remote: seq<byte>, states: seq<State>, c: int) returns (more: seq<State>)
    requires Run(remote, states) && c in states[|states| - 1].chunks.running
    ensures Run(remote, more) && |states| <= |more| && more[..|states|] == states
    ensures
      var s, s' := states[|states| - 1], more[|more| - 1];
      s.chunks.running[c] in s'.chunks.closed && s'.readers == s.readers && |s'.local| == |s.local|
  {
    var s := states[|states| - 1];
    RunsCoherent(remote, states, |states| - 1);
    RegisteredNotDone(s.chunks, c);
    var id := FreshFetch(s.fetches);
    hide Run, Inv, ChunkMap.Valid;
    var one := Extended(remote, states, StartFetch(id, c));
    var size := ExtentOf(remote, c).size;
    var two := Extended(remote, one, Copy(id, size));
    var three := Extended(remote, two, FinishFetch(id));
    more := three;
  }

  lemma RegisteredNotDone(m: ChunkMap.State, c: int)
    requires ChunkMap.Valid(m) && c in m.running
    ensures c >= 0 && ChunkMap.ExtentOf(m.size, c).size > 0
    ensures ChunkMap.Check(m, c) == ChunkMap.Checked(m, m.running[c], false)
  {
  }

  lemma FreshFetch(fetches: map<nat, Fetch>) returns (id: nat)
    ensures id !in fetches
  {
    id := FreshAbove(fetches.Keys);
  }

  lemma {:induction false} FreshAbove(ids: set<nat>) returns (id: nat)
    ensures forall i :: i in ids ==> i < id
    decreases |ids|
  {
    if ids == {} {
      id := 0;
    } else {
      var x :| x in ids;
      id := FreshAbove(ids - {x});
      assert forall i :: i in ids ==> i == x || i in ids - {x};
      id := if id > x then id else x + 1;
    }
  }

  /** Whatever has happened so far, every read can still be completed. */
  lemma ReadCanEnd(remote: seq<byte>, states: seq<State>, id: nat) returns (more: seq<State>, got: seq<byte>)
    requires Run(remote, states) && id in states[|states| - 1].readers
    ensures Run(remote, more) && |states| <= |more| && more[..|states|] == states
    ensures
      var r := states[|states| - 1].readers[id];
      Ended(remote, more[|more| - 1], id, r.offset, r.len, got)
  {
    var s := states[|states| - 1];
    var r := s.readers[id];
    RunsCoherent(remote, states, |states| - 1);
    var woken := states;
    if r.Waiting? {
      if r.wait !in s.chunks.closed {
        StillRegistered(remote, s, id);
        woken := FetchArrives(remote, states, FirstChunk(r.offset));
      }
      hide Run, Inv;
      ghost var before := woken;
      woken := Extended(remote, before, Wake(id));
      assert woken[..|states|] == before[..|states|];
    }
    hide Run, Inv;
    more, got := ReadEnds(remote, woken, id);
    assert more[..|states|] == woken[..|states|];
  }

  lemma StillRegistered(remote: seq<byte>, s: State, id: nat)
    requires Inv(remote, s) && id in s.readers && s.readers[id].Waiting? && s.readers[id].wait !in s.chunks.closed
    ensures
      var c := FirstChunk(s.readers[id].offset);
      c in s.chunks.running && s.chunks.running[c] == s.readers[id].wait
  {
    assert ReadOk(remote, s, s.readers[id]);
    hide Agrees;
  }

  lemma {:induction false} ReadEnds(remote: seq<byte>, states: seq<State>, id: nat) returns (more: seq<State>, got: seq<byte>)
    requires Run(remote, states)
    requires id in states[|states| - 1].readers && states[|states| - 1].readers[id].Reading?
    ensures Run(remote, more) && |states| <= |more| && more[..|states|] == states
    ensures
      var r := states[|states| - 1].readers[id];
      Ended(remote, more[|more| - 1], id, r.offset, r.len, got)
    decreases
      var s := states[|states| - 1];
      var r := s.readers[id];
      Window(|s.local|, r.offset, r.len) - |r.got|
  {
    var s := states[|states| - 1];
    if Enabled(remote, s, TakeByte(id)) {
      hide Run, Window;
      var next := Extended(remote, states, TakeByte(id));
      more, got := ReadEnds(remote, next, id);
      assert more[..|states|] == next[..|states|];
    } else {
      more, got := states, s.readers[id].got;
    }
  }
}
