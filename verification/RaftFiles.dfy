/**
  File-backed storage of a voter: a state file replaced atomically by rename, and a log file of
  checksummed frames that is appended to byte by byte or replaced by rename. Every disk image that
  exists while a call runs is recorded, so that a crash can be placed at any of them.
 */
module RaftFiles {
  import opened Basics
  import opened RaftTypes
  import opened RaftVoter

  datatype Result<+T> = Ok(value: T) | Err(error: FileError)
  datatype FileError = BadMagic | BadChecksum | BadBody | IndexGap

  const TWO_32 := 0x1_0000_0000

  /** The body codec, whose decoder has limits of its own, and a 32-bit checksum. */
  datatype Codec = Codec(enc: Entry -> seq<Byte>, dec: seq<Byte> -> Option<Entry>, crc: seq<Byte> -> nat) {
    ghost predicate Valid() {
      forall b :: crc(b) < TWO_32
    }

    /** The entry's body is short enough for the length field. */
    ghost predicate Short(e: Entry) {
      |enc(e)| < TWO_32
    }

    /** The entry's body is within the limits of the decoder, which gives the entry back. */
    ghost predicate Fits(e: Entry) {
      Short(e) && dec(enc(e)) == Some(e)
    }

    /** The decoder gives the entry back or refuses its body; it never takes it for another. */
    ghost predicate Strict(e: Entry) {
      dec(enc(e)) == Some(e) || dec(enc(e)) == None
    }

    ghost predicate AllStrict(es: seq<Entry>) {
      forall i :: 0 <= i < |es| ==> Strict(es[i])
    }

    ghost predicate AllShort(es: seq<Entry>) {
      forall i :: 0 <= i < |es| ==> Short(es[i])
    }

    ghost predicate AllFit(es: seq<Entry>) {
      forall i :: 0 <= i < |es| ==> Fits(es[i])
    }
  }

  /** Contents of the state file; files written before compaction existed carry no base. */
  datatype StateFile = StateFile(term: nat, votedFor: Option<NodeId>, base: Option<(nat, nat)>)

  datatype Image = Image(state: Option<StateFile>, log: Option<seq<Byte>>)

  function BaseOf(s: Option<StateFile>): (nat, nat) {
    match s
    case None => (0, 0)
    case Some(f) => if f.base.Some? then f.base.value else (0, 0)
  }

  function TermVote(s: Option<StateFile>): (nat, Option<NodeId>) {
    match s
    case None => (0, None)
    case Some(f) => (f.term, f.votedFor)
  }

  // ---------------------------------------------------------------------------
  // Frames
  // ---------------------------------------------------------------------------

  const MAGIC: seq<Byte> := [67, 82, 70, 84]

  function Digit(n: nat): Byte {
    n % 256
  }

  function Le32(n: nat): (r: seq<Byte>)
    requires n < TWO_32
    ensures |r| == 4
  {
    [Digit(n), Digit(n / 256), Digit(n / 65536), Digit(n / 16777216)]
  }

  function FromLe32(b: seq<Byte>): nat
    requires |b| == 4
  {
    (b[0] as nat) + 256 * (b[1] as nat) + 65536 * (b[2] as nat) + 16777216 * (b[3] as nat)
  }

  lemma Le32Inverse(n: nat)
    requires n < TWO_32
    ensures FromLe32(Le32(n)) == n
  {
    var q1 := n / 256;
    var q2 := q1 / 256;
    var q3 := q2 / 256;
    assert n / 65536 == q2 && n / 16777216 == q3 && q3 < 256;
    assert n == Digit(n) + 256 * q1 && q1 == Digit(q1) + 256 * q2 && q2 == Digit(q2) + 256 * q3;
  }

  /** The length field keeps the low 32 bits of the length, as a truncating cast does. */
  function Frame(c: Codec, e: Entry): (r: seq<Byte>)
    requires c.Valid()
    ensures |r| == 12 + |c.enc(e)|
  {
    var body := c.enc(e);
    MAGIC + Le32(|body| % TWO_32) + Le32(c.crc(body)) + body
  }

  function Frames(c: Codec, es: seq<Entry>): seq<Byte>
    requires c.Valid()
  {
    if es == [] then [] else Frame(c, es[0]) + Frames(c, es[1..])
  }

  datatype Scanned = Scanned(entries: seq<Entry>, end: nat)

  /** One frame at `pos`: nothing complete, a damaged frame, or an entry and where the next frame starts. */
  datatype Next = Torn | Bad(error: FileError) | Found(e: Entry, at: nat)

  function ReadFrame(c: Codec, bytes: seq<Byte>, pos: nat): (r: Next)
    requires pos <= |bytes|
    ensures r.Found? ==> pos < r.at <= |bytes|
  {
    if pos + 12 > |bytes| then Torn
    else if bytes[pos..pos + 4] != MAGIC then Bad(BadMagic)
    else
      var len, start := FromLe32(bytes[pos + 4..pos + 8]), pos + 12;
      if start + len > |bytes| then Torn
      else
        var body := bytes[start..start + len];
        if c.crc(body) != FromLe32(bytes[pos + 8..pos + 12]) then Bad(BadChecksum)
        else match c.dec(body)
          case None => Bad(BadBody)
          case Some(e) => Found(e, start + len)
  }

  function Expected(base: nat, acc: seq<Entry>): nat {
    if acc == [] then base + 1 else acc[|acc| - 1].index + 1
  }

  /** Reads frames from `pos` on, skipping entries the base covers. */
  function ScanLog(c: Codec, bytes: seq<Byte>, pos: nat, base: nat, acc: seq<Entry>): Result<Scanned>
    requires pos <= |bytes|
    decreases |bytes| - pos
  {
    match ReadFrame(c, bytes, pos)
    case Torn => Ok(Scanned(acc, pos))
    case Bad(e) => Err(e)
    case Found(e, at) =>
      if e.index <= base then ScanLog(c, bytes, at, base, acc)
      else if e.index != Expected(base, acc) then Err(IndexGap)
      else ScanLog(c, bytes, at, base, acc + [e])
  }

  /** What reopening a disk image yields. */
  function Load(c: Codec, d: Image): Result<Persistent> {
    var base := BaseOf(d.state);
    match if d.log.Some? then ScanLog(c, d.log.value, 0, base.0, []) else Ok(Scanned([], 0))
    case Err(e) => Err(e)
    case Ok(s) => Ok(Persistent(TermVote(d.state).0, TermVote(d.state).1, s.entries, base.0, base.1))
  }

  // ---------------------------------------------------------------------------
  // Reading back what was written
  // ---------------------------------------------------------------------------

  lemma FrameParts(c: Codec, e: Entry)
    requires c.Valid() && c.Short(e)
    ensures var f, body := Frame(c, e), c.enc(e);
            && f[..4] == MAGIC && f[4..8] == Le32(|body|) && f[8..12] == Le32(c.crc(body)) && f[12..] == body
  {
    hide Le32;
    var f, body := Frame(c, e), c.enc(e);
    var m, n, k := MAGIC, Le32(|body|), Le32(c.crc(body));
    assert f == m + n + k + body;
    assert f[..4] == m;
    assert f[4..8] == n;
    assert f[8..12] == k;
    assert f[12..] == body;
  }

  /** The frame of a short entry: the letters CRFT, length and checksum with the low byte first, the entry. */
  lemma FrameLayout(c: Codec, e: Entry)
    requires c.Valid() && c.Short(e)
    ensures var f, body, sum := Frame(c, e), c.enc(e), c.crc(c.enc(e));
            && f[0] == 'C' as int && f[1] == 'R' as int && f[2] == 'F' as int && f[3] == 'T' as int
            && |body| == (f[4] as nat) + 256 * (f[5] as nat) + 65536 * (f[6] as nat) + 16777216 * (f[7] as nat)
            && sum == (f[8] as nat) + 256 * (f[9] as nat) + 65536 * (f[10] as nat) + 16777216 * (f[11] as nat)
            && f[12..] == body
  {
    hide Frame, Le32;
    var f, body := Frame(c, e), c.enc(e);
    FrameParts(c, e);
    Le32Inverse(|body|);
    Le32Inverse(c.crc(body));
    assert f[0] == f[..4][0] && f[1] == f[..4][1] && f[2] == f[..4][2] && f[3] == f[..4][3];
    assert f[4] == f[4..8][0] && f[5] == f[4..8][1] && f[6] == f[4..8][2] && f[7] == f[4..8][3];
    assert f[8] == f[8..12][0] && f[9] == f[8..12][1] && f[10] == f[8..12][2] && f[11] == f[8..12][3];
  }

  lemma FrameRead(c: Codec, e: Entry, bytes: seq<Byte>, pos: nat, tail: seq<Byte>)
    requires c.Valid() && c.Short(e) && pos <= |bytes| && bytes[pos..] == Frame(c, e) + tail
    ensures ReadFrame(c, bytes, pos) ==
            match c.dec(c.enc(e)) case None => Bad(BadBody) case Some(d) => Found(d, pos + |Frame(c, e)|)
  {
    hide Frame, Le32, FromLe32;
    var f, body := Frame(c, e), c.enc(e);
    FrameParts(c, e);
    Le32Inverse(|body|);
    Le32Inverse(c.crc(body));
    Within(bytes, pos, f, tail, 0, 4);
    Within(bytes, pos, f, tail, 4, 8);
    Within(bytes, pos, f, tail, 8, 12);
    Within(bytes, pos, f, tail, 12, |f|);
    assert f[0..4] == f[..4] && f[12..|f|] == f[12..];
    assert bytes[pos..pos + 4] == MAGIC;
    assert FromLe32(bytes[pos + 4..pos + 8]) == |body|;
    assert FromLe32(bytes[pos + 8..pos + 12]) == c.crc(body);
    assert bytes[pos + 12..pos + 12 + |body|] == body;
  }

  lemma Within(bytes: seq<Byte>, pos: nat, f: seq<Byte>, tail: seq<Byte>, i: nat, j: nat)
    requires pos <= |bytes| && bytes[pos..] == f + tail && i <= j <= |f|
    ensures pos + j <= |bytes| && bytes[pos + i..pos + j] == f[i..j]
  {
    var rest := bytes[pos..];
    assert |rest| == |bytes| - pos;
    forall x | i <= x < j
      ensures bytes[pos + x] == f[x]
    {
      assert rest[x] == f[x];
    }
  }

  /** Part of a frame that never became complete. */
  ghost predicate IsTorn(c: Codec, tail: seq<Byte>)
    requires c.Valid()
  {
    tail == [] || exists e, k :: TornAt(c, tail, e, k)
  }

  ghost predicate TornAt(c: Codec, tail: seq<Byte>, e: Entry, k: nat)
    requires c.Valid()
  {
    c.Short(e) && k < |Frame(c, e)| && tail == Frame(c, e)[..k]
  }

  lemma TornRead(c: Codec, bytes: seq<Byte>, pos: nat)
    requires c.Valid() && pos <= |bytes| && IsTorn(c, bytes[pos..])
    ensures ReadFrame(c, bytes, pos) == Torn
  {
    var tail := bytes[pos..];
    if |tail| >= 12 {
      var e, k :| TornAt(c, tail, e, k);
      var f := Frame(c, e);
      FrameParts(c, e);
      Le32Inverse(|c.enc(e)|);
      assert bytes[pos..pos + 4] == tail[..4] == f[..4];
      assert bytes[pos + 4..pos + 8] == tail[4..8] == f[4..8];
    }
  }

  /** Entries numbered one after another from `from + 1`. */
  ghost predicate Consecutive(from: nat, es: seq<Entry>) {
    forall i :: 0 <= i < |es| ==> es[i].index == from + i + 1
  }

  ghost predicate Covered(base: nat, es: seq<Entry>) {
    forall i :: 0 <= i < |es| ==> es[i].index <= base
  }

  lemma AfterFrame(bytes: seq<Byte>, pos: nat, f: seq<Byte>, rest: seq<Byte>)
    requires pos <= |bytes| && bytes[pos..] == f + rest
    ensures pos + |f| <= |bytes| && bytes[pos + |f|..] == rest
  {
    var all := bytes[pos..];
    assert |all| == |bytes| - pos;
    assert bytes[pos + |f|..] == all[|f|..];
  }

  lemma NextInOrder(base: nat, acc: seq<Entry>, es: seq<Entry>)
    requires Consecutive(base, acc + es) && es != []
    ensures base < es[0].index == Expected(base, acc)
    ensures (acc + [es[0]]) + es[1..] == acc + es
  {
    assert (acc + es)[|acc|] == es[0];
    if acc != [] {
      assert (acc + es)[|acc| - 1] == acc[|acc| - 1];
    }
  }

  lemma {:induction false} ScanCovered(c: Codec, bytes: seq<Byte>, pos: nat, base: nat, old_: seq<Entry>,
                                       rest: seq<Byte>)
    requires c.Valid() && c.AllFit(old_) && Covered(base, old_)
    requires pos <= |bytes| && bytes[pos..] == Frames(c, old_) + rest
    ensures pos + |Frames(c, old_)| <= |bytes|
    ensures ScanLog(c, bytes, pos, base, []) == ScanLog(c, bytes, pos + |Frames(c, old_)|, base, [])
    decreases |old_|
  {
    hide ReadFrame, Frame;
    if old_ != [] {
      var f, more := Frame(c, old_[0]), Frames(c, old_[1..]);
      assert bytes[pos..] == f + (more + rest);
      FrameRead(c, old_[0], bytes, pos, more + rest);
      AfterFrame(bytes, pos, f, more + rest);
      ScanCovered(c, bytes, pos + |f|, base, old_[1..], rest);
    }
  }

  lemma {:induction false} ScanEntries(c: Codec, bytes: seq<Byte>, pos: nat, base: nat, acc: seq<Entry>,
                                       es: seq<Entry>, tail: seq<Byte>)
    requires c.Valid() && c.AllFit(es) && IsTorn(c, tail) && Consecutive(base, acc + es)
    requires pos <= |bytes| && bytes[pos..] == Frames(c, es) + tail
    ensures pos + |Frames(c, es)| <= |bytes|
    ensures ScanLog(c, bytes, pos, base, acc) == Ok(Scanned(acc + es, pos + |Frames(c, es)|))
    decreases |es|
  {
    hide ReadFrame, Frame, IsTorn, Consecutive, Expected;
    if es == [] {
      assert bytes[pos..] == tail && acc + es == acc;
      TornRead(c, bytes, pos);
    } else {
      var f, more := Frame(c, es[0]), Frames(c, es[1..]);
      assert bytes[pos..] == f + (more + tail);
      FrameRead(c, es[0], bytes, pos, more + tail);
      AfterFrame(bytes, pos, f, more + tail);
      NextInOrder(base, acc, es);
      ScanEntries(c, bytes, pos + |f|, base, acc + [es[0]], es[1..], tail);
    }
  }

  /** A log of frames, some of them covered by the base, then entries in order, then a torn frame. */
  ghost predicate Holds(c: Codec, log: seq<Byte>, base: nat, old_: seq<Entry>, es: seq<Entry>, tail: seq<Byte>)
    requires c.Valid()
  {
    && log == Frames(c, old_) + (Frames(c, es) + tail)
    && c.AllFit(old_) && c.AllFit(es)
    && Covered(base, old_) && Consecutive(base, es) && IsTorn(c, tail)
  }

  lemma ScanWhole(c: Codec, log: seq<Byte>, base: nat, old_: seq<Entry>, es: seq<Entry>, tail: seq<Byte>)
    requires c.Valid() && Holds(c, log, base, old_, es, tail)
    ensures ScanLog(c, log, 0, base, []) == Ok(Scanned(es, |log| - |tail|))
  {
    hide ScanLog, Frames, IsTorn;
    assert log[0..] == log;
    ScanCovered(c, log, 0, base, old_, Frames(c, es) + tail);
    var pos := |Frames(c, old_)|;
    assert log[pos..] == Frames(c, es) + tail;
    assert [] + es == es;
    ScanEntries(c, log, pos, base, [], es, tail);
  }

  lemma {:induction false} FramesJoin(c: Codec, a: seq<Entry>, b: seq<Entry>)
    requires c.Valid()
    ensures Frames(c, a + b) == Frames(c, a) + Frames(c, b)
    decreases |a|
  {
    if a == [] {
      assert a + b == b;
    } else {
      assert (a + b)[0] == a[0] && (a + b)[1..] == a[1..] + b;
      FramesJoin(c, a[1..], b);
    }
  }

  /** Any prefix of the bytes of some frames is whole frames and a torn one. */
  lemma {:induction false} FramesCut(c: Codec, es: seq<Entry>, k: nat) returns (j: nat, tail: seq<Byte>)
    requires c.Valid() && c.AllShort(es) && k <= |Frames(c, es)|
    ensures j <= |es| && Frames(c, es)[..k] == Frames(c, es[..j]) + tail && IsTorn(c, tail)
    ensures k == |Frames(c, es)| ==> tail == []
    decreases |es|
  {
    hide Frame;
    if es == [] {
      j, tail := 0, [];
    } else {
      var f, more := Frame(c, es[0]), Frames(c, es[1..]);
      CutJoin(f, more, k);
      if k < |f| {
        j, tail := 0, f[..k];
        assert TornAt(c, tail, es[0], k);
        assert [] + tail == tail;
      } else {
        var i;
        i, tail := FramesCut(c, es[1..], k - |f|);
        j := i + 1;
        assert es[..j][0] == es[0] && es[..j][1..] == es[1..][..i];
        Regroup(f, Frames(c, es[1..][..i]), tail);
      }
    }
  }

  lemma CutJoin(a: seq<Byte>, b: seq<Byte>, k: nat)
    requires k <= |a| + |b|
    ensures (a + b)[..k] == if k < |a| then a[..k] else a + b[..k - |a|]
  {
  }

  // ---------------------------------------------------------------------------
  // The disk: every image it goes through is recorded
  // ---------------------------------------------------------------------------

  /** The images of a log file that grows from `was` by the first `n` bytes, one at a time. */
  ghost function Growth(state: Option<StateFile>, was: seq<Byte>, bytes: seq<Byte>, n: nat): seq<Image>
    requires n <= |bytes|
  {
    seq(n + 1, k requires 0 <= k <= n => Image(state, Some(was + bytes[..k])))
  }

  class Disk {
    var state: Option<StateFile>
    var log: Option<seq<Byte>>
    ghost var images: seq<Image>

    ghost function Now(): Image
      reads this
    {
      Image(state, log)
    }

    constructor (d: Image)
      ensures state == d.state && log == d.log && images == [d]
    {
      state, log := d.state, d.log;
      images := [d];
    }

    /** Replaces the state file by renaming a finished temporary file over it. */
    method RenameState(s: StateFile)
      modifies this
      ensures state == Some(s) && log == old(log) && images == old(images) + [Now()]
    {
      state := Some(s);
      images := images + [Now()];
    }

    /** Replaces the log file by renaming a finished temporary file over it. */
    method RenameLog(bytes: seq<Byte>)
      modifies this
      ensures state == old(state) && log == Some(bytes) && images == old(images) + [Now()]
    {
      log := Some(bytes);
      images := images + [Now()];
    }

    /** Appends to the log file; any number of the bytes may have reached it when a crash strikes. */
    method AppendLog(bytes: seq<Byte>)
      requires log.Some?
      modifies this
      ensures state == old(state) && log == Some(old(log).value + bytes)
      ensures images == old(images) + Growth(old(state), old(log).value, bytes, |bytes|)
    {
      var was := log.value;
      ghost var before := images;
      images := images + [Now()];
      assert was + bytes[..0] == was;
      for n := 0 to |bytes|
        invariant state == old(state) && log == Some(was + bytes[..n])
        invariant images == before + Growth(old(state), was, bytes, n)
      {
        log := Some(log.value + [bytes[n]]);
        assert bytes[..n + 1] == bytes[..n] + [bytes[n]];
        assert was + bytes[..n + 1] == (was + bytes[..n]) + [bytes[n]];
        images := images + [Now()];
      }
      assert bytes[..|bytes|] == bytes;
    }
  }

  /** The log has the shape that opening turns into a storage fit for further calls. */
  ghost predicate Sound(c: Codec, d: Image)
    requires c.Valid()
  {
    d.log.Some? && exists old_, es, tail :: Holds(c, d.log.value, BaseOf(d.state).0, old_, es, tail)
  }

  /** Every image recorded since position `from` is sound, and reopens as `a` or as `b`. */
  ghost predicate ReopenAs(c: Codec, images: seq<Image>, from: nat, a: Persistent, b: Persistent)
    requires c.Valid()
  {
    forall i :: from <= i < |images| ==>
                  Sound(c, images[i]) && (Load(c, images[i]) == Ok(a) || Load(c, images[i]) == Ok(b))
  }

  /** Every image recorded since position `from` is sound, and reopens as `p` with some of the new entries, in order. */
  ghost predicate ReopenWithPrefix(c: Codec, images: seq<Image>, from: nat, p: Persistent, new_: seq<Entry>)
    requires c.Valid()
  {
    forall i :: from <= i < |images| ==> Sound(c, images[i]) && LoadsPrefix(c, images[i], p, new_)
  }

  ghost predicate LoadsPrefix(c: Codec, d: Image, p: Persistent, new_: seq<Entry>) {
    exists j :: 0 <= j <= |new_| && Load(c, d) == Ok(AppendTo(p, new_[..j]))
  }

  /** The cursor loop over frames, on any bytes. */
  method ScanFile(c: Codec, bytes: seq<Byte>, base: nat) returns (r: Result<Scanned>)
    ensures r == ScanLog(c, bytes, 0, base, [])
  {
    var found: seq<Entry>, pos := [], 0;
    while true
      invariant pos <= |bytes| && ScanLog(c, bytes, pos, base, found) == ScanLog(c, bytes, 0, base, [])
      decreases |bytes| - pos
    {
      var next := ReadFrame(c, bytes, pos);
      if next.Torn? {
        return Ok(Scanned(found, pos));
      }
      if next.Bad? {
        return Err(next.error);
      }
      if next.e.index > base {
        if next.e.index != Expected(base, found) {
          return Err(IndexGap);
        }
        found := found + [next.e];
      }
      pos := next.at;
    }
  }

  /** The frames of a list of entries, built one after another. */
  method Encode(c: Codec, es: seq<Entry>) returns (buf: seq<Byte>)
    requires c.Valid()
    ensures buf == Frames(c, es)
  {
    buf := [];
    for i := 0 to |es|
      invariant buf == Frames(c, es[..i])
    {
      assert es[..i + 1] == es[..i] + [es[i]];
      FramesJoin(c, es[..i], [es[i]]);
      assert Frames(c, [es[i]]) == Frame(c, es[i]) + [];
      buf := buf + Frame(c, es[i]);
    }
    assert es[..|es|] == es;
  }

  lemma ScanEnds(c: Codec, bytes: seq<Byte>, pos: nat, base: nat, acc: seq<Entry>)
    requires pos <= |bytes|
    ensures ScanLog(c, bytes, pos, base, acc).Ok? ==> ScanLog(c, bytes, pos, base, acc).value.end <= |bytes|
    decreases |bytes| - pos
  {
    var next := ReadFrame(c, bytes, pos);
    if next.Found? {
      ScanEnds(c, bytes, next.at, base, acc);
      ScanEnds(c, bytes, next.at, base, acc + [next.e]);
    }
  }

  class FileStorage {
    const c: Codec
    const disk: Disk
    var entries: seq<Entry>
    var snapshotIndex: nat
    var snapshotTerm: nat
    ghost var covered: seq<Entry>

    /** The state the storage stands for. */
    ghost function Contents(): Persistent
      reads this, disk
    {
      Persistent(TermVote(disk.state).0, TermVote(disk.state).1, entries, snapshotIndex, snapshotTerm)
    }

    /** The files hold what the base covers, then the entries, and nothing else. */
    ghost predicate Valid()
      reads this, disk
    {
      && c.Valid()
      && BaseOf(disk.state) == (snapshotIndex, snapshotTerm)
      && disk.log.Some?
      && Holds(c, disk.log.value, snapshotIndex, covered, entries, [])
    }

    constructor (c: Codec, disk: Disk, entries: seq<Entry>, base: (nat, nat), ghost covered: seq<Entry>)
      ensures this.c == c && this.disk == disk && this.entries == entries && this.covered == covered
      ensures snapshotIndex == base.0 && snapshotTerm == base.1
    {
      this.c, this.disk, this.entries, this.covered := c, disk, entries, covered;
      snapshotIndex, snapshotTerm := base.0, base.1;
    }

    /**
      Reopens any disk: fails exactly when its log is damaged, and drops a torn last frame. A new
      disk, and any image a call can leave behind, gives a storage fit for further calls.
     */
    static method Open(c: Codec, disk: Disk) returns (error: Option<FileError>, s: FileStorage?)
      requires c.Valid()
      modifies disk
      ensures match Load(c, old(disk.Now()))
              case Err(e) => error == Some(e) && s == null && disk.Now() == old(disk.Now())
              case Ok(p) =>
                && error == None && s != null && fresh(s) && s.c == c && s.disk == disk && s.Contents() == p
                && (old(disk.log).None? || Sound(c, old(disk.Now())) ==> s.Valid())
    {
      var base := BaseOf(disk.state);
      var found: seq<Entry> := [];
      ghost var covered: seq<Entry> := [];
      if disk.log.Some? {
        var bytes := disk.log.value;
        var scan := ScanFile(c, bytes, base.0);
        if scan.Err? {
          return Some(scan.error), null;
        }
        ScanEnds(c, bytes, 0, base.0, []);
        found := scan.value.entries;
        if Sound(c, disk.Now()) {
          ghost var es, tail;
          covered, es, tail :| Holds(c, bytes, base.0, covered, es, tail);
          ScanWhole(c, bytes, base.0, covered, es, tail);
          TailCut(c, bytes, base.0, covered, es, tail);
        }
        disk.log := Some(bytes[..scan.value.end]);
      } else {
        disk.log := Some([]);
        EmptyHolds(c, base.0);
      }
      error := None;
      s := new FileStorage(c, disk, found, base, covered);
    }

    method SaveTermVote(term: nat, votedFor: Option<NodeId>)
      requires Valid()
      modifies disk
      ensures Valid() && Contents() == RaftVoter.SaveTermVote(old(Contents()), term, votedFor)
      ensures ReopenAs(c, disk.images, |old(disk.images)|, old(Contents()), Contents())
    {
      disk.RenameState(StateFile(term, votedFor, Some((snapshotIndex, snapshotTerm))));
      Reopens(c, disk.Now(), snapshotIndex, covered, entries, []);
    }

    /** Safe for entries that continue the log, as a voter's always do, and are within the decoder's limits. */
    method Append(new_: seq<Entry>)
      requires Valid()
      modifies this, disk
      ensures Contents() == AppendTo(old(Contents()), new_)
      ensures Consecutive(old(snapshotIndex + |entries|), new_) && c.AllFit(new_) ==>
                Valid() && ReopenWithPrefix(c, disk.images, |old(disk.images)|, old(Contents()), new_)
    {
      hide Holds, Frames, Consecutive;
      var buf := Encode(c, new_);
      ghost var state, was, before := disk.state, disk.log.value, |disk.images|;
      disk.AppendLog(buf);
      if Consecutive(snapshotIndex + |entries|, new_) && c.AllFit(new_) {
        GrowthReopens(c, disk.images, before, state, was, snapshotIndex, covered, entries, new_);
        AppendHolds(c, was, snapshotIndex, covered, entries, new_, |new_|, []);
        assert new_[..|new_|] == new_ && buf + [] == buf;
      }
      entries := entries + new_;
    }

    /** Whatever is on disk now reopens as what the storage stands for. */
    lemma NowLoads()
      requires Valid()
      ensures Sound(c, disk.Now()) && Load(c, disk.Now()) == Ok(Contents())
    {
      Reopens(c, disk.Now(), snapshotIndex, covered, entries, []);
    }

    method RewriteLog()
      requires c.Valid() && BaseOf(disk.state) == (snapshotIndex, snapshotTerm)
      requires Consecutive(snapshotIndex, entries) && c.AllFit(entries)
      modifies this`covered, disk
      ensures Valid() && Contents() == old(Contents()) && disk.images == old(disk.images) + [disk.Now()]
    {
      var buf := Encode(c, entries);
      disk.RenameLog(buf);
      covered := [];
      Rewritten(c, snapshotIndex, entries);
    }

    method TruncateFrom(from: nat)
      requires Valid()
      modifies this, disk
      ensures Valid() && Contents() == RaftVoter.TruncateFrom(old(Contents()), from)
      ensures ReopenAs(c, disk.images, |old(disk.images)|, old(Contents()), Contents())
    {
      BelowConsecutive(snapshotIndex, entries, from);
      BelowFits(c, entries, from);
      entries := Below(entries, from);
      RewriteLog();
      NowLoads();
    }

    /** Writes the new base; the log file still holds the entries it covers. */
    method WriteBase(index: nat, term: nat)
      requires Valid() && index > snapshotIndex
      modifies this, disk
      ensures Valid() && Contents() == RaftVoter.CompactTo(old(Contents()), index, term)
      ensures disk.images == old(disk.images) + [disk.Now()]
    {
      hide Frames, Above, Holds;
      var tv := TermVote(disk.state);
      ghost var dropped := BaseMoves(c, disk.log.value, snapshotIndex, covered, entries, index);
      snapshotIndex := index;
      snapshotTerm := term;
      disk.RenameState(StateFile(tv.0, tv.1, Some((index, term))));
      entries := Above(entries, index);
      covered := covered + dropped;
    }

    /** Below or at the base nothing happens. */
    method CompactTo(index: nat, term: nat)
      requires Valid()
      modifies this, disk
      ensures Valid()
      ensures Contents() == if index <= old(snapshotIndex) then old(Contents())
                            else RaftVoter.CompactTo(old(Contents()), index, term)
      ensures ReopenAs(c, disk.images, |old(disk.images)|, old(Contents()), Contents())
    {
      hide Load, RaftVoter.CompactTo, Holds, Sound, Consecutive;
      if index <= snapshotIndex {
        return;
      }
      ghost var before := |disk.images|;
      WriteBase(index, term);
      NowLoads();
      ghost var first := disk.Now();
      assert disk.images[before] == first;
      InOrder();
      RewriteLog();
      NowLoads();
      assert disk.images[before] == first && disk.images[before + 1] == disk.Now();
    }

    lemma InOrder()
      requires Valid()
      ensures Consecutive(snapshotIndex, entries) && c.AllFit(entries)
    {
    }
  }

  lemma Rewritten(c: Codec, base: nat, es: seq<Entry>)
    requires c.Valid() && c.AllFit(es) && Consecutive(base, es)
    ensures Holds(c, Frames(c, es), base, [], es, [])
  {
    assert Frames(c, es) == [] + (Frames(c, es) + []);
  }

  lemma {:induction false} BelowConsecutive(from: nat, es: seq<Entry>, bound: nat)
    requires Consecutive(from, es)
    ensures Consecutive(from, Below(es, bound))
    ensures bound <= from + 1 ==> Below(es, bound) == []
    decreases |es|
  {
    if es != [] {
      var rest := es[1..];
      forall i | 0 <= i < |rest|
        ensures rest[i].index == from + 1 + i + 1
      {
        assert rest[i] == es[i + 1];
      }
      BelowConsecutive(from + 1, rest, bound);
    }
  }

  lemma {:induction false} BelowFits(c: Codec, es: seq<Entry>, bound: nat)
    requires c.AllFit(es)
    ensures c.AllFit(Below(es, bound))
    decreases |es|
  {
    if es != [] {
      BelowFits(c, es[1..], bound);
    }
  }

  lemma {:induction false} AboveConsecutive(from: nat, es: seq<Entry>, index: nat)
    requires Consecutive(from, es) && index >= from
    ensures Consecutive(index, Above(es, index))
    ensures Above(es, index) == if index - from <= |es| then es[index - from..] else []
    decreases |es|
  {
    if es != [] {
      var rest := es[1..];
      forall i | 0 <= i < |rest|
        ensures rest[i].index == from + 1 + i + 1
      {
        assert rest[i] == es[i + 1];
      }
      if index > from {
        AboveConsecutive(from + 1, rest, index);
      } else {
        AboveAll(rest, index);
        assert [es[0]] + rest == es;
      }
    }
  }

  /** After the base moves and before the log is rewritten, the old log holds the remaining entries. */
  lemma BaseMoves(c: Codec, log: seq<Byte>, base: nat, old_: seq<Entry>, es: seq<Entry>, index: nat)
    returns (dropped: seq<Entry>)
    requires c.Valid() && Holds(c, log, base, old_, es, []) && index > base
    ensures Holds(c, log, index, old_ + dropped, Above(es, index), [])
  {
    hide Frames;
    AboveConsecutive(base, es, index);
    var k := if index - base <= |es| then index - base else |es|;
    dropped := es[..k];
    var kept := es[k..];
    assert es == dropped + kept;
    FramesJoin(c, dropped, kept);
    FramesJoin(c, old_, dropped);
    assert kept == Above(es, index);
    assert log == Frames(c, old_ + dropped) + (Frames(c, kept) + []);
  }

  lemma AppendHolds(c: Codec, was: seq<Byte>, base: nat, old_: seq<Entry>, es: seq<Entry>, new_: seq<Entry>, j: nat,
                    tail: seq<Byte>)
    requires c.Valid() && Holds(c, was, base, old_, es, []) && IsTorn(c, tail)
    requires Consecutive(base + |es|, new_) && c.AllFit(new_) && j <= |new_|
    ensures Holds(c, was + (Frames(c, new_[..j]) + tail), base, old_, es + new_[..j], tail)
  {
    hide Frames, IsTorn;
    FramesJoin(c, es, new_[..j]);
    var a, b, d := Frames(c, old_), Frames(c, es), Frames(c, new_[..j]);
    assert was == a + b;
    assert was + (d + tail) == a + ((b + d) + tail);
    var all := es + new_[..j];
    forall i | 0 <= i < |all|
      ensures all[i].index == base + i + 1
    {
      if i >= |es| {
        assert all[i] == new_[i - |es|];
      }
    }
  }

  lemma GrowthReopens(c: Codec, images: seq<Image>, before: nat, state: Option<StateFile>, was: seq<Byte>, base: nat,
                      old_: seq<Entry>, es: seq<Entry>, new_: seq<Entry>)
    requires c.Valid() && Holds(c, was, base, old_, es, []) && BaseOf(state).0 == base
    requires Consecutive(base + |es|, new_) && c.AllFit(new_)
    requires var buf := Frames(c, new_);
             before + |buf| + 1 == |images| && images[before..] == Growth(state, was, buf, |buf|)
    ensures ReopenWithPrefix(c, images, before,
                             Persistent(TermVote(state).0, TermVote(state).1, es, base, BaseOf(state).1), new_)
  {
    hide Frames, Holds;
    var buf := Frames(c, new_);
    var p := Persistent(TermVote(state).0, TermVote(state).1, es, base, BaseOf(state).1);
    forall i | before <= i < |images|
      ensures Sound(c, images[i]) && LoadsPrefix(c, images[i], p, new_)
    {
      var k := i - before;
      assert images[i] == images[before..][k] == Image(state, Some(was + buf[..k]));
      var j, tail := FramesCut(c, new_, k);
      AppendHolds(c, was, base, old_, es, new_, j, tail);
      Reopens(c, images[i], base, old_, es + new_[..j], tail);
      assert Load(c, images[i]) == Ok(AppendTo(p, new_[..j]));
    }
  }

  lemma EmptyHolds(c: Codec, base: nat)
    requires c.Valid()
    ensures Holds(c, [], base, [], [], [])
  {
  }

  lemma TailCut(c: Codec, bytes: seq<Byte>, base: nat, old_: seq<Entry>, es: seq<Entry>, tail: seq<Byte>)
    requires c.Valid() && Holds(c, bytes, base, old_, es, tail)
    ensures |tail| <= |bytes| && Holds(c, bytes[..|bytes| - |tail|], base, old_, es, [])
  {
    var whole := Frames(c, old_) + Frames(c, es);
    assert bytes == whole + tail;
    assert bytes[..|bytes| - |tail|] == whole;
    assert whole == Frames(c, old_) + (Frames(c, es) + []);
  }

  /** An image whose log holds `es` after what the base covers reopens with exactly `es`. */
  lemma Reopens(c: Codec, d: Image, base: nat, old_: seq<Entry>, es: seq<Entry>, tail: seq<Byte>)
    requires c.Valid() && BaseOf(d.state).0 == base && d.log.Some? && Holds(c, d.log.value, base, old_, es, tail)
    ensures Load(c, d) == Ok(Persistent(TermVote(d.state).0, TermVote(d.state).1, es, base, BaseOf(d.state).1))
    ensures Sound(c, d)
  {
    ScanWhole(c, d.log.value, base, old_, es, tail);
  }

  /** What the file storage makes of a compaction. */
  ghost function Compacted(p: Persistent, index: nat, term: nat): Persistent {
    if index <= p.snapshotIndex then p else RaftVoter.CompactTo(p, index, term)
  }

  /**
    The in-memory storage moves its base even backwards, the file storage does not: they agree
    exactly when the new base is above the old one or repeats it.
   */
  lemma CompactionsAgree(p: Persistent, index: nat, term: nat)
    requires Consecutive(p.snapshotIndex, p.entries)
    ensures Compacted(p, index, term) == RaftVoter.CompactTo(p, index, term)
            <==> index > p.snapshotIndex || (index == p.snapshotIndex && term == p.snapshotTerm)
  {
    if index <= p.snapshotIndex {
      AboveAll(p.entries, index);
    }
  }

  /** Two calls that leave the storages apart: a compaction to 2, then one to 1. */
  lemma CompactionsDiffer()
    ensures var p := Compacted(Persistent(0, None, [], 0, 0), 2, 1);
            && p == RaftVoter.CompactTo(Persistent(0, None, [], 0, 0), 2, 1)
            && Compacted(p, 1, 1).snapshotIndex == 2 && RaftVoter.CompactTo(p, 1, 1).snapshotIndex == 1
  {
  }

  // ---------------------------------------------------------------------------
  // Entries beyond the limits of the decoder
  // ---------------------------------------------------------------------------

  /** Reading some frames keeps what was read before and adds at most one entry per frame. */
  lemma {:induction false} ScanBound(c: Codec, bytes: seq<Byte>, pos: nat, base: nat, acc: seq<Entry>, es: seq<Entry>)
    requires c.Valid() && c.AllShort(es) && pos <= |bytes| && bytes[pos..] == Frames(c, es)
    ensures var r := ScanLog(c, bytes, pos, base, acc);
            r.Ok? ==> |acc| <= |r.value.entries| <= |acc| + |es| && r.value.entries[..|acc|] == acc
    decreases |es|
  {
    hide ReadFrame, Frame, Expected;
    if es == [] {
      TornRead(c, bytes, pos);
    } else {
      FrameNext(c, bytes, pos, es);
      var next, at := c.dec(c.enc(es[0])), pos + |Frame(c, es[0])|;
      if next.Some? {
        ScanBound(c, bytes, at, base, acc, es[1..]);
        ScanBound(c, bytes, at, base, acc + [next.value], es[1..]);
        var r := ScanLog(c, bytes, at, base, acc + [next.value]);
        if r.Ok? {
          assert r.value.entries[..|acc|] == r.value.entries[..|acc| + 1][..|acc|];
        }
      }
    }
  }

  lemma FrameNext(c: Codec, bytes: seq<Byte>, pos: nat, es: seq<Entry>)
    requires c.Valid() && c.AllShort(es) && es != [] && pos <= |bytes| && bytes[pos..] == Frames(c, es)
    ensures var f := Frame(c, es[0]);
            && pos + |f| <= |bytes| && bytes[pos + |f|..] == Frames(c, es[1..])
            && ReadFrame(c, bytes, pos) ==
               match c.dec(c.enc(es[0])) case None => Bad(BadBody) case Some(d) => Found(d, pos + |f|)
  {
    hide ReadFrame, Frame;
    FrameRead(c, es[0], bytes, pos, Frames(c, es[1..]));
    AfterFrame(bytes, pos, Frame(c, es[0]), Frames(c, es[1..]));
  }

  /** If one body does not decode to its entry, the entries are not read back. */
  lemma {:induction false} ScanUnfit(c: Codec, bytes: seq<Byte>, pos: nat, base: nat, acc: seq<Entry>, es: seq<Entry>)
    requires c.Valid() && c.AllShort(es) && pos <= |bytes| && bytes[pos..] == Frames(c, es)
    requires !c.AllFit(es) && Consecutive(base, acc + es)
    ensures var r := ScanLog(c, bytes, pos, base, acc); r.Ok? ==> r.value.entries != acc + es
    decreases |es|
  {
    hide ReadFrame, Frame, Expected, Consecutive;
    FrameNext(c, bytes, pos, es);
    var next, at := c.dec(c.enc(es[0])), pos + |Frame(c, es[0])|;
    if next == Some(es[0]) {
      NextInOrder(base, acc, es);
      ScanUnfit(c, bytes, at, base, acc + [es[0]], es[1..]);
    } else if next.Some? {
      ScanBound(c, bytes, at, base, acc, es[1..]);
      ScanBound(c, bytes, at, base, acc + [next.value], es[1..]);
      var r := ScanLog(c, bytes, at, base, acc + [next.value]);
      if r.Ok? {
        assert r.value.entries[|acc|] == r.value.entries[..|acc| + 1][|acc|] == next.value;
        assert (acc + es)[|acc|] == es[0];
      }
    }
  }

  /** A rewritten log reads back as its entries exactly when every entry is within the decoder's limits. */
  lemma ReadsBackExactly(c: Codec, base: nat, es: seq<Entry>)
    requires c.Valid() && c.AllShort(es) && Consecutive(base, es)
    ensures var r := ScanLog(c, Frames(c, es), 0, base, []); r.Ok? && r.value.entries == es <==> c.AllFit(es)
  {
    var log := Frames(c, es);
    if c.AllFit(es) {
      Rewritten(c, base, es);
      ScanWhole(c, log, base, [], es, []);
    } else {
      assert log[0..] == log && [] + es == es;
      ScanUnfit(c, log, 0, base, [], es);
    }
  }

  /** Appended entries survive a reopening exactly when each is within the decoder's limits. */
  lemma AppendSurvivesExactly(c: Codec, d: Image, base: nat, old_: seq<Entry>, es: seq<Entry>, new_: seq<Entry>)
    requires c.Valid() && BaseOf(d.state).0 == base && d.log.Some? && Holds(c, d.log.value, base, old_, es, [])
    requires c.AllShort(new_) && Consecutive(base + |es|, new_)
    ensures var after := Load(c, Image(d.state, Some(d.log.value + Frames(c, new_))));
            after.Ok? && after.value.entries == es + new_ <==> c.AllFit(new_)
  {
    hide Holds, Frames, ScanLog, Consecutive;
    var log := d.log.value + Frames(c, new_);
    if c.AllFit(new_) {
      AppendHolds(c, d.log.value, base, old_, es, new_, |new_|, []);
      assert new_[..|new_|] == new_ && Frames(c, new_) + [] == Frames(c, new_);
      ScanWhole(c, log, base, old_, es + new_, []);
    } else {
      var pos := |Frames(c, old_)|;
      AppendedParts(c, d.log.value, base, old_, es, new_);
      ScanCovered(c, log, 0, base, old_, Frames(c, es + new_));
      assert [] + (es + new_) == es + new_;
      ScanUnfit(c, log, pos, base, [], es + new_);
    }
  }

  /** A body the decoder refuses stops the scan with an error. */
  lemma {:induction false} ScanRefused(c: Codec, bytes: seq<Byte>, pos: nat, base: nat, acc: seq<Entry>, es: seq<Entry>)
    requires c.Valid() && c.AllShort(es) && c.AllStrict(es) && pos <= |bytes| && bytes[pos..] == Frames(c, es)
    requires !c.AllFit(es) && Consecutive(base, acc + es)
    ensures ScanLog(c, bytes, pos, base, acc) == Err(BadBody)
    decreases |es|
  {
    hide ReadFrame, Frame, Expected, Consecutive;
    FrameNext(c, bytes, pos, es);
    assert c.Strict(es[0]);
    if c.dec(c.enc(es[0])).Some? {
      NextInOrder(base, acc, es);
      ScanRefused(c, bytes, pos + |Frame(c, es[0])|, base, acc + [es[0]], es[1..]);
    }
  }

  /**
    With a decoder that gives an entry back or refuses it, the whole log, entries before the append
    included, fails to reopen exactly when one of the appended entries is beyond its limits.
   */
  lemma ReopenFailsExactly(c: Codec, d: Image, base: nat, old_: seq<Entry>, es: seq<Entry>, new_: seq<Entry>)
    requires c.Valid() && BaseOf(d.state).0 == base && d.log.Some? && Holds(c, d.log.value, base, old_, es, [])
    requires c.AllShort(new_) && c.AllStrict(new_) && Consecutive(base + |es|, new_)
    ensures var after := Load(c, Image(d.state, Some(d.log.value + Frames(c, new_))));
            && (after.Err? <==> !c.AllFit(new_))
            && (after.Err? ==> after.error == BadBody)
  {
    hide Holds, Frames, ScanLog, Consecutive;
    var log := d.log.value + Frames(c, new_);
    AppendSurvivesExactly(c, d, base, old_, es, new_);
    if !c.AllFit(new_) {
      AppendedParts(c, d.log.value, base, old_, es, new_);
      ScanCovered(c, log, 0, base, old_, Frames(c, es + new_));
      assert [] + (es + new_) == es + new_;
      AllStrictJoin(c, d.log.value, base, old_, es, new_);
      ScanRefused(c, log, |Frames(c, old_)|, base, [], es + new_);
    }
  }

  lemma AllStrictJoin(c: Codec, log: seq<Byte>, base: nat, old_: seq<Entry>, es: seq<Entry>, new_: seq<Entry>)
    requires c.Valid() && Holds(c, log, base, old_, es, []) && c.AllStrict(new_)
    ensures c.AllStrict(es + new_)
  {
  }

  lemma AppendedParts(c: Codec, was: seq<Byte>, base: nat, old_: seq<Entry>, es: seq<Entry>, new_: seq<Entry>)
    requires c.Valid() && Holds(c, was, base, old_, es, []) && c.AllShort(new_) && Consecutive(base + |es|, new_)
    ensures var log, all := was + Frames(c, new_), es + new_;
            && log[0..] == Frames(c, old_) + Frames(c, all) && log[|Frames(c, old_)|..] == Frames(c, all)
            && c.AllFit(old_) && Covered(base, old_) && c.AllShort(all) && Consecutive(base, all)
            && (c.AllFit(all) <==> c.AllFit(new_))
  {
    hide Frames;
    FramesJoin(c, es, new_);
    var all := es + new_;
    assert was == Frames(c, old_) + Frames(c, es);
    assert was + Frames(c, new_) == Frames(c, old_) + Frames(c, all);
    forall i | 0 <= i < |new_|
      ensures all[|es| + i] == new_[i]
    {
    }
    if c.AllFit(all) {
      forall i | 0 <= i < |new_|
        ensures c.Fits(new_[i])
      {
        assert c.Fits(all[|es| + i]);
      }
    }
  }

  // ---------------------------------------------------------------------------
  // A codec
  // ---------------------------------------------------------------------------

  /** One byte each for term and index, then the data; nothing for entries out of that range. */
  function PlainEnc(e: Entry): seq<Byte> {
    if e.term < 256 && e.index < 256 then [Digit(e.term), Digit(e.index)] + e.data else []
  }

  const LIMIT := 0x10_0000

  /** Refuses bodies over a limit, as the decoder of the log does. */
  function PlainDec(b: seq<Byte>): Option<Entry> {
    if |b| < 2 || |b| > LIMIT then None else Some(Entry(b[0], b[1], b[2..]))
  }

  const PLAIN := Codec(PlainEnc, PlainDec, b => |b| % TWO_32)

  /** The assumptions on a codec can be met, and by more than one entry. */
  lemma PlainFits(e: Entry)
    ensures PLAIN.Valid()
    ensures PLAIN.Fits(e) <==> e.term < 256 && e.index < 256 && |e.data| + 2 <= LIMIT
  {
    if e.term < 256 && e.index < 256 {
      assert PlainEnc(e)[2..] == e.data;
    }
  }

  /** A storage with any short log in that range is valid, whatever data it holds. */
  method PlainStorage(es: seq<Entry>) returns (s: FileStorage)
    requires Consecutive(0, es) && |es| < 256
    requires forall i :: 0 <= i < |es| ==> es[i].term < 256 && |es[i].data| + 2 <= LIMIT
    ensures s.Valid() && s.c == PLAIN && s.entries == es
  {
    forall i | 0 <= i < |es|
      ensures PLAIN.Fits(es[i])
    {
      PlainFits(es[i]);
    }
    PlainFits(Entry(0, 0, []));
    var disk := new Disk(Image(None, None));
    var error, store := FileStorage.Open(PLAIN, disk);
    s := store;
    s.Append(es);
    assert [] + es == es;
  }

  /** After an entry over the limit is appended, none of the log can be read: reopening it is an error. */
  lemma OversizedIsLost(es: seq<Entry>, e: Entry)
    requires Consecutive(0, es + [e]) && PLAIN.AllFit(es) && e.term < 256 && LIMIT < |e.data| + 2 < TWO_32
    ensures Load(PLAIN, Image(None, Some(Frames(PLAIN, es)))).Ok?
    ensures Load(PLAIN, Image(None, Some(Frames(PLAIN, es + [e])))) == Err(BadBody)
  {
    hide Load, Frames;
    PlainFits(e);
    assert Consecutive(0, es) && Consecutive(|es|, [e]) by {
      assert forall i :: 0 <= i < |es| ==> (es + [e])[i] == es[i];
      assert (es + [e])[|es|] == e;
    }
    Rewritten(PLAIN, 0, es);
    var d := Image(None, Some(Frames(PLAIN, es)));
    Reopens(PLAIN, d, 0, [], es, []);
    FramesJoin(PLAIN, es, [e]);
    assert !PLAIN.Fits([e][0]);
    ReopenFailsExactly(PLAIN, d, 0, [], es, [e]);
  }
}
