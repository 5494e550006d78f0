/** The agent's disk spool. Segments and sidecar files are part of its fields; the readings of the clock
    are a parameter. */
module SpoolQueue {
  import opened Wrappers
  import opened LittleEndian
  import opened Sequences
  import opened Frames
  import opened Counters
  import opened SpoolSpec

  const SEG_MAX_BYTES: nat := 1048576
  const SECOND: int := 1000000000
  const SEG_MAX_AGE: int := 60 * SECOND

  function Bigger(a: nat, b: nat): nat { if a >= b then a else b }

  method TotalSize(files: seq<Segment>) returns (total: nat)
    ensures total == DiskBytes(files)
  {
    total := 0;
    for i := 0 to |files|
      invariant total == DiskBytes(files[..i])
    {
      TakeTail(files, i);
      DiskBytesConcat(files[..i], [files[i]]);
      total := total + |files[i].bytes|;
    }
    assert files[..|files|] == files;
  }

  /** One round of bounds enforcement: the oldest segment goes, whole and counted. */
  method DropHead(s: Fields) returns (r: Fields)
    requires Clean(s.codec, s.files, s.view.recs) && s.files != []
    ensures r == DropOldest(s)
  {
    var oldest := s.files[0];
    r := s;
    if oldest.id == s.activeSeq && s.active {
      r := r.(active := false);
    }
    var records := CountRecords(oldest.bytes);
    CountEncode(s.codec, s.view.recs[0]);
    r := r.(files := r.files[1..]);
    if r.readSeq == oldest.id {
      r := r.(readSeq := 0, readOffset := 0);
    }
    var d := Dropped(r.drops, AsU64(records));
    r := r.(drops := d, sidecars := Persisted(r.sidecars, d, 2),
            view := DropOldest(s).view, tally := DropOldest(s).tally);
  }

  method DropForBounds(ghost s: Fields, r: Fields, k: nat, maxBytes: nat, maxAge: int, clock: Clock)
    returns (r': Fields)
    requires Inv(r) && Enforcing(s, r, k, maxBytes, maxAge, clock)
    requires !WithinBounds(r.files, maxBytes, maxAge, clock(k))
    ensures Inv(r') && Enforcing(s, r', k + 1, maxBytes, maxAge, clock) && |r'.files| < |r.files|
  {
    EnforcingStep(s, r, k, maxBytes, maxAge, clock);
    r' := DropHead(r);
  }

  /** Drops the shortest oldest-first run of segments that leaves the spool within its size and
      its oldest segment within its age. */
  method EnforceBounds(s: Fields, maxBytes: nat, maxAge: int, clock: Clock) returns (r: Fields, k: nat)
    requires Inv(s)
    ensures Inv(r) && Enforcing(s, r, k, maxBytes, maxAge, clock)
    ensures WithinBounds(r.files, maxBytes, maxAge, clock(k))
    ensures r.totalBytes == DiskBytes(r.files) && r.lastBoundsCheck == clock(k + 1)
  {
    var total;
    r, k, total := DropOverBounds(s, maxBytes, maxAge, clock);
    CheckedInv(r, total, clock(k + 1));
    EnforcingChecked(s, r, k, maxBytes, maxAge, clock, total, clock(k + 1));
    r := r.(totalBytes := total, lastBoundsCheck := clock(k + 1));
  }

  /** The loop: list, add up, and drop the oldest segment while out of bounds. */
  method DropOverBounds(s: Fields, maxBytes: nat, maxAge: int, clock: Clock) returns (r: Fields, k: nat, total: nat)
    requires Inv(s)
    ensures Inv(r) && Enforcing(s, r, k, maxBytes, maxAge, clock)
    ensures WithinBounds(r.files, maxBytes, maxAge, clock(k)) && total == DiskBytes(r.files)
  {
    r, k := s, 0;
    total := TotalSize(r.files);
    while |r.files| > 0 && (total > maxBytes || clock(k) - r.files[0].mod > maxAge)
      invariant Inv(r) && Enforcing(s, r, k, maxBytes, maxAge, clock)
      invariant total == DiskBytes(r.files)
      decreases |r.files|
    {
      r := DropForBounds(s, r, k, maxBytes, maxAge, clock);
      k := k + 1;
      total := TotalSize(r.files);
    }
  }

  /** Opens the next segment for appending. */
  method OpenActive(s: Fields, now: int) returns (r: Fields)
    ensures r == Opened(s, now)
  {
    var seqNo := s.nextSeq;
    r := s.(files := s.files + [Segment(seqNo, [], now)], active := true, activeSeq := seqNo,
            activeSize := 0, activeOpenedAt := now, nextSeq := seqNo + 1,
            view := Opened(s, now).view);
  }

  /** The three writes of a record: length, payload, checksum. */
  method WriteFrame(c: Codec, file: Bytes, p: Payload) returns (b: Bytes)
    ensures b == file + Frame(c, p)
  {
    b := file + Le32(|p|);
    b := b + p;
    b := b + Le32(c.crc(p));
    ConcatAssoc3(file, Le32(|p|), p, Le32(c.crc(p)));
  }

  /** Writes one record to the open segment. */
  method WriteRecord(s: Fields, p: Payload, now: int) returns (r: Fields)
    requires s.files != [] && s.view.recs != []
    ensures r == Written(s, p, now)
  {
    var n := |s.files| - 1;
    var b := WriteFrame(s.codec, s.files[n].bytes, p);
    r := s.(files := s.files[..n] + [s.files[n].(bytes := b, mod := now)],
            activeSize := s.activeSize + |p| + RECORD_OVERHEAD,
            totalBytes := s.totalBytes + |p| + RECORD_OVERHEAD,
            view := Written(s, p, now).view, tally := Written(s, p, now).tally);
  }

  /** Makes sure a segment with room for `p` is open: rotation by size or age. */
  method EnsureActive(s: Fields, p: Payload, now: int, openedAt: int) returns (r: Fields)
    requires Inv(s) && Spoolable(s.codec, [p])
    ensures Inv(r) && r.active && r.files != [] && r.view.recs != []
    ensures r.activeSize + |p| + RECORD_OVERHEAD <= SEG_MAX_BYTES
    ensures now - r.activeOpenedAt < SEG_MAX_AGE || (r.activeSize == 0 && r.activeOpenedAt == openedAt)
    ensures r.view == s.view || r.view == Grown(s.view)
    ensures r.tally == s.tally && r.consumed == s.consumed && r.codec == s.codec && r.drops == s.drops
    ensures r.totalBytes == s.totalBytes && r.lastBoundsCheck == s.lastBoundsCheck
    ensures DiskBytes(r.files) == DiskBytes(s.files) && |r.files| - |s.files| == r.nextSeq - s.nextSeq
    ensures r.files == s.files || r.files == s.files + [Segment(s.nextSeq, [], openedAt)]
    ensures |r.files| == |s.files| <==>
            s.active && s.activeSize + |p| + 8 <= SEG_MAX_BYTES && now - s.activeOpenedAt < 60 * SECOND
  {
    assert [p][0] == p;
    r := s;
    if r.active && (r.activeSize + |p| + RECORD_OVERHEAD > SEG_MAX_BYTES || now - r.activeOpenedAt >= SEG_MAX_AGE) {
      RotatedInv(r);
      r := r.(active := false);
    }
    if !r.active {
      OpenedInv(r, openedAt);
      OpenedBytes(r, openedAt);
      r := OpenActive(r, openedAt);
    }
  }

  /** Reads up to `max` records of a clean segment from byte `start`, its `from`-th record. */
  method ReadFrom(c: Codec, file: Bytes, ghost ps: seq<Payload>, ghost from: nat, start: nat, max: int)
    returns (more: seq<Payload>, end: nat)
    requires Spoolable(c, ps) && from <= |ps| && file == Encode(c, ps) && start == |Encode(c, ps[..from])|
    ensures more == Take(ps[from..], max) && end == start + |Encode(c, more)|
    ensures from + |more| <= |ps| && more == ps[from..from + |more|]
  {
    EncodeSplit(c, ps, from);
    var corrupt;
    more, end, corrupt := ReadSegment(c, file, start, max);
    CleanOutcome(c, file, ps, from, start, max, more, corrupt);
  }

  /** Reads up to `max` unread records of file `i`. */
  method ReadFile(s: Fields, i: nat, max: int) returns (more: seq<Payload>, end: nat, ghost part: nat)
    requires i < |s.files| && ReadyAt(s, i)
    ensures more == Take(Unread(s.view)[i], max)
    ensures |more| == part - Skipped(s.view, i)
    ensures FileRead(s.codec, s.view.recs[i], Skipped(s.view, i), part, end)
  {
    ghost var ps, from := s.view.recs[i], Skipped(s.view, i);
    more, end := ReadFrom(s.codec, s.files[i].bytes, ps, from, StartOf(s, i), max);
    part := from + |more|;
    ReadExtent(s.codec, ps, from, part, more);
  }

  /** Reads file `i` into the batch. */
  method CollectFile(s: Fields, out: seq<Payload>, consumed: seq<Consumed>, ghost part: nat, i: nat, max: int)
    returns (out': seq<Payload>, consumed': seq<Consumed>, ghost part': nat)
    requires AllReady(s) && OnlyLastActive(s)
    requires i < |s.files| && |out| < max && Collecting(s, out, consumed, part, i, max)
    ensures Collecting(s, out', consumed', part', i + 1, max)
  {
    var more, end;
    ghost var p;
    assert ReadyAt(s, i);
    more, end, p := ReadFile(s, i, max - |out|);
    var seg := s.files[i];
    if |more| == 0 && seg.id == s.activeSeq {
      CollectPass(s, out, consumed, part, i, max);
      out', consumed', part' := out, consumed, part;
    } else {
      var c := Consumed(seg.id, end, end >= |seg.bytes| && seg.id != s.activeSeq);
      CollectStep(s, out, consumed, part, i, max, more, p, c);
      out', consumed', part' := out + more, consumed + [c], p;
    }
  }

  /** The read half of Next: up to `max` unread records, oldest first, and what to do with each
      segment once they are acknowledged. */
  method Collect(s: Fields, max: int) returns (out: seq<Payload>, consumed: seq<Consumed>, ghost part: nat)
    requires FilesInv(s) && CursorInv(s) && OnlyLastActive(s)
    ensures Collected(s, out, consumed, part)
    ensures out == Take(s.view.Queue(), max)
  {
    var i;
    AllAreReady(s);
    CollectStart(s, max);
    out, consumed, part, i := CollectFiles(s, max);
    CollectDone(s, out, consumed, part, i, max);
  }

  /** File after file until the batch is full or the files are read. */
  method CollectFiles(s: Fields, max: int)
    returns (out: seq<Payload>, consumed: seq<Consumed>, ghost part: nat, i: nat)
    requires AllReady(s) && OnlyLastActive(s) && Collecting(s, [], [], 0, 0, max)
    ensures Collecting(s, out, consumed, part, i, max) && (i == |s.files| || |out| >= max)
  {
    out, consumed, part, i := [], [], 0, 0;
    while i < |s.files| && |out| < max
      invariant Collecting(s, out, consumed, part, i, max)
    {
      out, consumed, part := CollectFile(s, out, consumed, part, i, max);
      i := i + 1;
    }
  }

  /** Next: the batch, and the fields that remember what its ack has to do. */
  method HandOut(s: Fields, max: int) returns (r: Fields, out: seq<Payload>)
    requires Inv(s)
    ensures Inv(r) && SameQueue(s, r) && r.codec == s.codec && r.totalBytes == s.totalBytes
    ensures r.lastBoundsCheck == s.lastBoundsCheck
    ensures out == Take(r.view.Queue(), max) && r.view.upto == r.view.Head() + |out|
  {
    var consumed;
    ghost var part;
    out, consumed, part := Collect(s, max);
    HandedOutInv(s, out, consumed, part);
    r := s.(consumed := consumed, view := HandedOut(s, out, consumed, part).view);
  }

  /** The ack: deletes wholly consumed segments and advances the cursor into the last one. */
  method Consume(s: Fields) returns (r: Fields)
    requires Inv(s)
    ensures Inv(r) && Acking(s, r, |s.consumed|) && OnlyDeletes(s, r)
  {
    r := ConsumeUpTo(s, |s.consumed|);
  }

  /** Its first `n` segments. */
  method ConsumeUpTo(s: Fields, n: nat) returns (r: Fields)
    requires Inv(s) && n <= |s.consumed|
    ensures Inv(r) && Acking(s, r, n) && OnlyDeletes(s, r)
  {
    r := s;
    for k := 0 to n
      invariant Inv(r) && Acking(s, r, k) && OnlyDeletes(s, r)
    {
      AckStepDeletes(s, r, k);
      AckStepOk(s, r, k);
      r := ConsumeOne(r, k);
    }
  }

  method ConsumeOne(s: Fields, k: nat) returns (r: Fields)
    requires NamesInv(s) && |s.files| == |s.view.recs|
    requires k < |s.consumed| && k <= |s.consumed| - s.view.live
    ensures r == AckStep(s, k)
  {
    if s.consumed[k].complete {
      r := DeleteConsumed(s, k);
    } else {
      r := AdvanceCursor(s, k);
    }
  }

  method DeleteConsumed(s: Fields, k: nat) returns (r: Fields)
    requires NamesInv(s) && |s.files| == |s.view.recs|
    requires k < |s.consumed| && k <= |s.consumed| - s.view.live && s.consumed[k].complete
    ensures r == AckStep(s, k)
  {
    var c := s.consumed[k];
    AckDeletes(s, k);
    if k == |s.consumed| - s.view.live {
      AckHeadFile(s, k);
    }
    r := s.(files := Without(s.files, c.id), view := AckStep(s, k).view, tally := AckStep(s, k).tally);
    if r.readSeq == c.id {
      r := r.(readSeq := 0, readOffset := 0);
    }
  }

  method AdvanceCursor(s: Fields, k: nat) returns (r: Fields)
    requires NamesInv(s) && |s.files| == |s.view.recs|
    requires k < |s.consumed| && k <= |s.consumed| - s.view.live && !s.consumed[k].complete
    ensures r == AckStep(s, k)
  {
    var c := s.consumed[k];
    if k == |s.consumed| - s.view.live {
      AckHeadFile(s, k);
    }
    r := s.(readSeq := c.id, readOffset := c.end, view := AckStep(s, k).view, tally := AckStep(s, k).tally);
  }

  method TruncateSegment(c: Codec, seg: Segment, now: int) returns (r: Segment)
    ensures TruncatedFile(c, seg, r, now)
  {
    var n, kept := ScanSegment(c, seg.bytes);
    r := if |seg.bytes| > |kept| then seg.(bytes := kept, mod := now) else seg;
  }

  /** Start-up scan of every segment. */
  method ScanDirectory(c: Codec, dir: seq<Segment>, clock: Clock) returns (files: seq<Segment>, nextSeq: nat)
    requires Ascending(dir)
    ensures Truncated(c, dir, files, clock)
    ensures 1 <= nextSeq && Below(dir, nextSeq)
  {
    files, nextSeq := [], 1;
    for i := 0 to |dir|
      invariant |files| == i && Truncated(c, dir[..i], files, clock)
      invariant 1 <= nextSeq && Below(dir[..i], nextSeq)
    {
      var seg := TruncateSegment(c, dir[i], clock(i));
      TruncatedOn(c, dir, files, seg, clock);
      BelowOn(dir, i);
      files := files + [seg];
      nextSeq := dir[i].id + 1;
    }
    assert dir[..|dir|] == dir;
  }

  lemma TruncatedOn(c: Codec, dir: seq<Segment>, files: seq<Segment>, seg: Segment, clock: Clock)
    requires |files| < |dir| && Truncated(c, dir[..|files|], files, clock)
    requires TruncatedFile(c, dir[|files|], seg, clock(|files|))
    ensures Truncated(c, dir[..|files| + 1], files + [seg], clock)
  {
    var n, dir' := |files|, dir[..|files| + 1];
    forall i | 0 <= i <= n ensures TruncatedFile(c, dir'[i], (files + [seg])[i], clock(i)) {
      assert i < n ==> TruncatedFile(c, dir[..n][i], files[i], clock(i));
    }
  }

  lemma BelowOn(dir: seq<Segment>, i: nat)
    requires Ascending(dir) && i < |dir|
    ensures Below(dir[..i + 1], dir[i].id + 1)
  {
  }

  /** Writes a record that fits, rotating the segment first if it is full or old. */
  method AppendRecord(s: Fields, p: Payload, clock: Clock) returns (w: Fields)
    requires Inv(s) && Overestimates(s) && Spoolable(s.codec, [p])
    ensures Inv(w) && Overestimates(w) && Appended(s, w, p) && w.codec == s.codec
    ensures w.lastBoundsCheck == s.lastBoundsCheck && w.tally.shed == s.tally.shed
    ensures w.totalBytes == s.totalBytes + |p| + RECORD_OVERHEAD
    ensures |w.files| - |s.files| == w.nextSeq - s.nextSeq && Touched(s.files, w.files, clock(2))
  {
    var a := EnsureActive(s, p, clock(0), clock(1));
    WrittenInv(a, p, clock(2));
    w := WriteRecord(a, p, clock(2));
    WrittenAppended(a, p, clock(2));
    AppendedAfterOpen(s, a, w, p);
    WrittenTouches(s, a, p, clock(1), clock(2));
  }

  lemma WrittenTouches(s: Fields, a: Fields, p: Payload, openedAt: int, t: int)
    requires a.files == s.files || a.files == s.files + [Segment(s.nextSeq, [], openedAt)]
    requires a.files != [] && a.view.recs != []
    ensures Touched(s.files, Written(a, p, t).files, t) && |Written(a, p, t).files| == |a.files|
  {
    var n := |a.files| - 1;
    var w := Written(a, p, t).files;
    assert w[..n] == a.files[..n];
    assert a.files != s.files ==> a.files[..|s.files|] == s.files;
    TouchedLast(s.files, a.files, w, t);
  }

  /** `w` is `s`, or `s` and one more file, with its last file modified at `t` and the others as they were. */
  predicate Touched(s: seq<Segment>, w: seq<Segment>, t: int) {
    && |s| <= |w| <= |s| + 1 && w != [] && w[|w| - 1].mod == t
    && (forall i :: 0 <= i < |w| - 1 ==> w[i] == s[i])
  }

  lemma TouchedLast(s: seq<Segment>, a: seq<Segment>, w: seq<Segment>, t: int)
    requires a == s || (|a| == |s| + 1 && s == a[..|s|])
    requires |w| == |a| > 0 && w[..|a| - 1] == a[..|a| - 1] && w[|a| - 1].mod == t
    ensures Touched(s, w, t)
  {
    assert forall i :: 0 <= i < |w| - 1 ==> w[i] == w[..|a| - 1][i] == a[..|a| - 1][i] == a[i];
    assert |a| == |s| + 1 ==> forall i :: 0 <= i < |s| ==> a[i] == a[..|s|][i] == s[i];
  }

  /** The bounds held at the `i`-th reading of the clock, and the next one is remembered. */
  predicate CheckedAt(r: Fields, maxBytes: nat, maxAge: int, clock: Clock, i: nat) {
    WithinBounds(r.files, maxBytes, maxAge, clock(i)) && r.lastBoundsCheck == clock(i + 1)
  }

  /** Of `n` files the bounds dropped all but those of `r`, with a reading for each from the `k`-th on; at
      the reading after those they held. */
  ghost predicate CheckedFrom(r: Fields, maxBytes: nat, maxAge: int, clock: Clock, k: nat, n: nat) {
    exists i: nat :: k <= i && |r.files| + (i - k) == n && CheckedAt(r, maxBytes, maxAge, clock, i)
  }

  /** Enforces the bounds with the clock readings from the `k`-th on. */
  method CheckBounds(s: Fields, maxBytes: nat, maxAge: int, clock: Clock, k: nat) returns (r: Fields)
    requires Inv(s)
    ensures Inv(r) && OnlySheds(s, r) && CheckedFrom(r, maxBytes, maxAge, clock, k, |s.files|)
    ensures Suffix(r.files, s.files)
    ensures SizeOk(r, maxBytes) && Overestimates(r)
  {
    var n;
    r, n := EnforceBounds(s, maxBytes, maxAge, From(clock, k));
    EnforcedAt(s, r, n, maxBytes, maxAge, clock, k);
  }

  lemma EnforcedAt(s: Fields, r: Fields, n: nat, maxBytes: nat, maxAge: int, clock: Clock, k: nat)
    requires Enforcing(s, r, n, maxBytes, maxAge, From(clock, k))
    requires WithinBounds(r.files, maxBytes, maxAge, From(clock, k)(n)) && r.lastBoundsCheck == From(clock, k)(n + 1)
    requires r.totalBytes == DiskBytes(r.files)
    ensures OnlySheds(s, r) && CheckedFrom(r, maxBytes, maxAge, clock, k, |s.files|)
    ensures Suffix(r.files, s.files)
    ensures SizeOk(r, maxBytes) && Overestimates(r)
  {
    assert CheckedAt(r, maxBytes, maxAge, clock, k + n);
  }

  /** Append once the payload is known to fit: write it, and enforce the bounds when the byte count
      or the age cadence asks for it. */
  method SpoolRecord(s: Fields, p: Payload, maxBytes: nat, maxAge: int, clock: Clock) returns (r: Fields)
    requires Inv(s) && Overestimates(s) && Spoolable(s.codec, [p])
    ensures Inv(r) && Overestimates(r) && Appended(s, r, p) && SizeOk(r, maxBytes)
    ensures r.codec == s.codec && Bounded(s, r, |p|, maxBytes, maxAge, clock)
    ensures AgedBy(s.files, r.files, clock(2))
  {
    r := AppendRecord(s, p, clock);
    if r.totalBytes > maxBytes || clock(3) - r.lastBoundsCheck >= BoundsCheckEvery(maxAge) {
      ghost var w := r;
      r := CheckBounds(r, maxBytes, maxAge, clock, 4);
      AppendedThenShed(s, w, r, p);
      AppendChecked(s, w, r, |p|, maxBytes, maxAge, clock);
    } else {
      AppendUnchecked(s, r, |p|, maxBytes, maxAge, clock);
    }
  }

  lemma AppendChecked(s: Fields, w: Fields, r: Fields, n: nat, maxBytes: nat, maxAge: int, clock: Clock)
    requires |w.files| - |s.files| == w.nextSeq - s.nextSeq && |s.files| <= |w.files| && r.nextSeq == w.nextSeq
    requires CheckedFrom(r, maxBytes, maxAge, clock, 4, |w.files|)
    requires s.totalBytes + n + RECORD_OVERHEAD > maxBytes ||
             clock(3) - s.lastBoundsCheck >= BoundsCheckEvery(maxAge)
    ensures Bounded(s, r, n, maxBytes, maxAge, clock)
  {
  }

  lemma AppendUnchecked(s: Fields, r: Fields, n: nat, maxBytes: nat, maxAge: int, clock: Clock)
    requires r.tally.shed == s.tally.shed && r.lastBoundsCheck == s.lastBoundsCheck
    requires Touched(s.files, r.files, clock(2))
    requires r.totalBytes == s.totalBytes + n + RECORD_OVERHEAD <= maxBytes
    requires clock(3) - s.lastBoundsCheck < BoundsCheckEvery(maxAge)
    ensures Bounded(s, r, n, maxBytes, maxAge, clock)
  {
  }

  /** What an append that wrote at `t` left of the files it found and perhaps one more. */
  ghost predicate AgedBy(s: seq<Segment>, r: seq<Segment>, t: int) {
    exists w :: Touched(s, w, t) && Suffix(r, w)
  }

  /** Less than a minute, and less than half the age bound, has passed. */
  predicate NotDue(passed: int, maxAge: int) {
    passed < 60 * SECOND && (if maxAge >= 0 then 2 * passed + 1 < maxAge else 2 * passed < maxAge)
  }

  /** An append of an `n`-byte result checks the bounds, counting the segment it may have opened, exactly when
      the byte count or the age cadence asks for it; otherwise it drops nothing. */
  ghost predicate Bounded(s: Fields, r: Fields, n: nat, maxBytes: nat, maxAge: int, clock: Clock) {
    if s.totalBytes + n + RECORD_OVERHEAD <= maxBytes && NotDue(clock(3) - s.lastBoundsCheck, maxAge)
    then Touched(s.files, r.files, clock(2)) && r.tally.shed == s.tally.shed
         && r.lastBoundsCheck == s.lastBoundsCheck && r.totalBytes == s.totalBytes + n + RECORD_OVERHEAD
    else r.nextSeq >= s.nextSeq && CheckedFrom(r, maxBytes, maxAge, clock, 4, |s.files| + (r.nextSeq - s.nextSeq))
  }

  /** The fields Open finds: torn tails cut, the counters recovered. */
  method Recover(codec: Codec, dir: seq<Segment>, disk: Sidecars, clock: Clock) returns (s: Fields)
    requires Ascending(dir) && OursOnly(codec, dir)
    ensures Inv(s) && s.codec == codec && s.view.log == Flat(ScanAll(codec, dir)) && s.drops == Recovered(disk)
    ensures s.tally == Tally(0, |s.view.log|, 0, 0, 0, 0, 0, Recovered(disk).total)
    ensures Truncated(codec, dir, s.files, clock) && s.lastBoundsCheck == 0 && s.totalBytes == 0
  {
    var files, nextSeq := ScanDirectory(codec, dir, clock);
    FreshInv(codec, dir, files, disk, nextSeq, clock);
    ghost var recs := ScanAll(codec, dir);
    var d := Recovered(disk);
    s := Fields(codec, files, Repaired(disk, 2), false, 0, 0, 0, nextSeq, 0, 0, d, 0, 0, [],
                View(recs, Flat(recs), 0, 0, 0, 0, 0),
                Tally(0, |Flat(recs)|, 0, 0, 0, 0, 0, d.total));
  }

  /** Recovers the fields and enforces the bounds on what was found. */
  method OpenFields(codec: Codec, maxBytes: nat, maxAge: int, dir: seq<Segment>, disk: Sidecars, clock: Clock)
    returns (r: Fields)
    requires Ascending(dir) && OursOnly(codec, dir)
    ensures Inv(r) && Overestimates(r) && Found(codec, dir, disk, r) && SizeOk(r, maxBytes)
    ensures CheckedFrom(r, maxBytes, maxAge, clock, |dir|, |dir|)
  {
    var s := Recover(codec, dir, disk, clock);
    r := CheckBounds(s, maxBytes, maxAge, clock, |dir|);
  }

  /** The log is what start-up found in the directory, the counters what it recovered. */
  ghost predicate Found(codec: Codec, dir: seq<Segment>, disk: Sidecars, s: Fields) {
    && s.codec == codec && s.view.log == Flat(ScanAll(codec, dir))
    && s.tally.offered == s.tally.acked == s.tally.unspoolable == 0
    && s.tally.start == Recovered(disk).total && s.tally.recovered == |s.view.log|
    && s.drops.acked == Recovered(disk).acked
  }

  /** Age-check cadence: a minute, or half the age bound if that is shorter. */
  function BoundsCheckEvery(maxAge: int): int {
    var half := if maxAge >= 0 then maxAge / 2 else -(-maxAge / 2);
    if half < 60 * SECOND then half else 60 * SECOND
  }

  class Spool {
    const maxBytes: nat
    const maxAge: int
    var f: Fields

    ghost predicate Valid()
      reads this
    {
      Inv(f) && Overestimates(f)
    }

    /** Opens directory `dir` with sidecars `disk`: torn tails are cut, the drop counters
        recovered and repaired on disk, and the bounds enforced on what was found. */
    constructor Open(codec: Codec, maxBytes: nat, maxAge: int, dir: seq<Segment>, disk: Sidecars, clock: Clock)
      requires Ascending(dir) && OursOnly(codec, dir)
      ensures Valid() && this.maxBytes == maxBytes && this.maxAge == maxAge && Found(codec, dir, disk, f)
      ensures SizeOk(f, maxBytes) && CheckedFrom(f, maxBytes, maxAge, clock, |dir|, |dir|)
    {
      var s := OpenFields(codec, maxBytes, maxAge, dir, disk, clock);
      this.maxBytes, this.maxAge, f := maxBytes, maxAge, s;
    }

    /** Spools one result; None is a result that does not marshal. */
    method Append(res: Option<Payload>, clock: Clock)
      requires Valid() && (res.Some? ==> f.codec.parses(res.value))
      modifies this
      ensures Valid() && f.codec == old(f).codec
      ensures res.None? || |res.value| > MAX_RECORD_BYTES - RECORD_OVERHEAD ==> f == Refused(old(f))
      ensures res.Some? && |res.value| <= MAX_RECORD_BYTES - RECORD_OVERHEAD ==>
                Appended(old(f), f, res.value) && SizeOk(f, maxBytes) && AgedBy(old(f).files, f.files, clock(2)) &&
                Bounded(old(f), f, |res.value|, maxBytes, maxAge, clock)
    {
      if res.None? || |res.value| > MAX_RECORD_BYTES - RECORD_OVERHEAD {
        RefusedInv(f);
        var d := Dropped(f.drops, 1);
        f := f.(drops := d, sidecars := Persisted(f.sidecars, d, 2), tally := Refused(f).tally);
      } else {
        assert [res.value][0] == res.value;
        f := SpoolRecord(f, res.value, maxBytes, maxAge, clock);
      }
    }

    /** Hands out the first `max` unread records without consuming them. */
    method Next(max: int) returns (out: seq<Payload>)
      requires Valid()
      modifies this
      ensures Valid() && SameQueue(old(f), f) && f.codec == old(f).codec
      ensures out == Take(f.view.Queue(), max)
      ensures f.view.upto == f.view.Head() + |out| && OnlyDeletes(old(f), f)
    {
      f, out := HandOut(f, max);
    }

    /** Consumes the batch last handed out, as far as it was not dropped meanwhile. */
    method Ack()
      requires Valid()
      modifies this
      ensures Valid() && AckedTo(old(f), f) && f.codec == old(f).codec && OnlyDeletes(old(f), f)
    {
      var r := Consume(f);
      AckedAll(f, r);
      SettledInv(r);
      f := r.(consumed := [], view := Settled(r).view);
    }

    /** The counts to report: every drop there ever was, the remainder the server has not recorded, and
        a restart now would report the same. */
    method DropCounts() returns (total: U64, unacked: U64)
      requires Valid()
      ensures total == f.drops.total && unacked == f.drops.unacked
      ensures Lifetime(f.tally) <= MAX_U64 ==>
        total == Lifetime(f.tally) && Recovered(f.sidecars) == Drops(total, total - unacked, unacked)
    {
      total, unacked := f.drops.total, f.drops.unacked;
      if Lifetime(f.tally) <= MAX_U64 {
        SyncedRecovers(f.sidecars);
      }
    }

    /** Moves drops the server has recorded from unacked to acked. */
    method AckDropped(reported: U64)
      requires Valid()
      modifies this
      ensures Valid() && f == Reported(old(f), reported)
    {
      ReportedInv(f, reported);
      var d := Acknowledged(f.drops, reported);
      f := f.(drops := d, sidecars := Persisted(f.sidecars, d, 2));
    }

    /** Closes the append handle. */
    method Close()
      requires Valid()
      modifies this
      ensures Valid() && f == Rotated(old(f))
    {
      RotatedInv(f);
      f := f.(active := false);
    }
  }
}
