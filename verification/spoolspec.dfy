/** What a spool directory means: the segment files in name order, the queue they hold, the read
    cursor, and the batch handed out but not yet acknowledged. */
module SpoolSpec {
  import opened LittleEndian
  import opened Sequences
  import opened Frames
  import opened Counters

  /** A segment file: its sequence number, contents and modification time. */
  datatype Segment = Segment(id: nat, bytes: Bytes, mod: int)

  /** What an ack does to one segment: delete it, or advance the cursor to `end`. */
  datatype Consumed = Consumed(id: nat, end: nat, complete: bool)

  /** The abstract state. `log` is every record spooled since Open (recovered ones first) and
      `base` the number of them whose segment is gone, so `recs`, the records of each file, are
      the rest; `skip` records of the oldest file are consumed. Of the outstanding batch, `live`
      files remain, the last of them consumed up to `part` if it is not complete, and `upto` is
      the position in the log the batch reaches. */
  datatype View = View(recs: seq<seq<Payload>>, log: seq<Payload>, base: nat, skip: nat,
                       live: nat, part: nat, upto: nat)
  {
    /** The position in the log of the first unread record. */
    function Head(): nat {
      base + skip
    }

    /** The unread records, oldest first. */
    function Queue(): seq<Payload> {
      if Head() <= |log| then log[Head()..] else []
    }
  }

  function Flat<T>(s: seq<seq<T>>): seq<T> {
    if s == [] then [] else s[0] + Flat(s[1..])
  }

  lemma {:induction false} FlatConcat<T>(a: seq<seq<T>>, b: seq<seq<T>>)
    ensures Flat(a + b) == Flat(a) + Flat(b)
  {
    if a == [] {
      assert a + b == b;
    } else {
      assert (a + b)[1..] == a[1..] + b;
      FlatConcat(a[1..], b);
      ConcatAssoc(a[0], Flat(a[1..]), Flat(b));
    }
  }

  lemma FlatSnoc<T>(a: seq<seq<T>>, x: seq<T>)
    ensures Flat(a + [x]) == Flat(a) + x
  {
    FlatConcat(a, [x]);
    assert [x][1..] == [] && x + [] == x;
  }

  lemma FlatSplit<T>(s: seq<seq<T>>, i: nat)
    requires i <= |s|
    ensures Flat(s) == Flat(s[..i]) + Flat(s[i..])
  {
    SplitAt(s, i);
    FlatConcat(s[..i], s[i..]);
  }

  lemma FlatStep<T>(s: seq<seq<T>>, i: nat)
    requires i < |s|
    ensures Flat(s[..i + 1]) == Flat(s[..i]) + s[i]
  {
    TakeTail(s, i);
    FlatSnoc(s[..i], s[i]);
  }

  function DiskBytes(files: seq<Segment>): nat {
    if files == [] then 0 else |files[0].bytes| + DiskBytes(files[1..])
  }

  lemma {:induction false} DiskBytesConcat(a: seq<Segment>, b: seq<Segment>)
    ensures DiskBytes(a + b) == DiskBytes(a) + DiskBytes(b)
  {
    if a == [] {
      assert a + b == b;
    } else {
      assert (a + b)[1..] == a[1..] + b;
      DiskBytesConcat(a[1..], b);
    }
  }

  // ---------------------------------------------------------------- the invariant, piece by piece

  ghost predicate Clean(c: Codec, files: seq<Segment>, recs: seq<seq<Payload>>) {
    && |files| == |recs|
    && (forall i :: 0 <= i < |files| ==> files[i].bytes == Encode(c, recs[i]))
    && (forall i :: 0 <= i < |recs| ==> Spoolable(c, recs[i]))
  }

  predicate Ascending(files: seq<Segment>) {
    && (forall i :: 0 <= i < |files| ==> files[i].id >= 1)
    && (forall i, j :: 0 <= i < j < |files| ==> files[i].id < files[j].id)
  }

  predicate Below(files: seq<Segment>, limit: nat) {
    forall i :: 0 <= i < |files| ==> files[i].id < limit
  }

  /** An open append handle is on the newest file. */
  predicate ActiveOk(files: seq<Segment>, active: bool, activeSeq: nat, activeSize: nat) {
    && (active ==> files != [] && files[|files| - 1].id == activeSeq &&
                   activeSize == |files[|files| - 1].bytes|)
    && (forall i :: 0 <= i < |files| - 1 ==> files[i].id != activeSeq)
  }

  /** A cursor that names a file names the oldest one, at a record boundary. */
  ghost predicate CursorOk(c: Codec, files: seq<Segment>, recs: seq<seq<Payload>>,
                           readSeq: nat, readOffset: nat, skip: nat)
    requires |files| == |recs|
  {
    && (forall i :: 0 < i < |files| ==> files[i].id != readSeq)
    && (if files != [] && files[0].id == readSeq
        then skip <= |recs[0]| && readOffset == |Encode(c, recs[0][..skip])|
        else skip == 0)
  }

  ghost predicate LogOk(v: View) {
    v.base <= |v.log| && v.log[v.base..] == Flat(v.recs)
  }

  /** The files of the outstanding batch are the oldest ones still there, after those dropped
      meanwhile; all but the last are wholly consumed. */
  predicate TicketFiles(files: seq<Segment>, consumed: seq<Consumed>, live: nat) {
    var n := |consumed|;
    && live <= n && live <= |files|
    && (forall j :: 0 <= j < n - 1 ==> consumed[j].complete)
    && (forall i :: 0 <= i < live ==> files[i].id == consumed[n - live + i].id)
    && (forall i, j :: 0 <= j < n - live && 0 <= i < |files| ==> consumed[j].id < files[i].id)
  }

  /** Where the outstanding batch ends. */
  ghost predicate TicketEnd(c: Codec, v: View, consumed: seq<Consumed>) {
    && v.live <= |consumed| && v.live <= |v.recs|
    && (if v.live == 0 then v.upto <= v.Head() && (consumed != [] ==> v.skip == 0)
        else v.Head() <= v.upto && Reaches(c, v, consumed[|consumed| - 1]))
  }

  /** The batch ends at `upto`: after the last live file, or inside it. */
  ghost predicate Reaches(c: Codec, v: View, last: Consumed)
    requires 0 < v.live <= |v.recs|
  {
    if last.complete then v.upto == v.base + |Flat(v.recs[..v.live])|
    else
      && v.part <= |v.recs[v.live - 1]|
      && last.end == |Encode(c, v.recs[v.live - 1][..v.part])|
      && v.upto == v.base + |Flat(v.recs[..v.live - 1])| + v.part
  }

  /** Consumed files are older than any file to come, and never the append file when complete. */
  predicate TicketSealed(consumed: seq<Consumed>, activeSeq: nat, nextSeq: nat) {
    forall j :: 0 <= j < |consumed| ==>
      consumed[j].id < nextSeq && (consumed[j].complete ==> consumed[j].id != activeSeq)
  }

  // ---------------------------------------------------------------- appending

  /** The view after record `p` went to the newest file. */
  function Wrote(v: View, p: Payload): View
    requires v.recs != []
  {
    var n := |v.recs| - 1;
    v.(recs := v.recs[..n] + [v.recs[n] + [p]], log := v.log + [p])
  }

  function WroteFiles(files: seq<Segment>, frame: Bytes, now: int): seq<Segment>
    requires files != []
  {
    var n := |files| - 1;
    files[..n] + [files[n].(bytes := files[n].bytes + frame, mod := now)]
  }

  lemma WroteClean(c: Codec, files: seq<Segment>, v: View, p: Payload, now: int)
    requires files != [] && Clean(c, files, v.recs) && Spoolable(c, [p])
    ensures Clean(c, WroteFiles(files, Frame(c, p), now), Wrote(v, p).recs)
  {
    var n, files', recs' := |files| - 1, WroteFiles(files, Frame(c, p), now), Wrote(v, p).recs;
    WroteLast(c, files, v, p, now);
    forall i | 0 <= i < |files'| ensures files'[i].bytes == Encode(c, recs'[i]) && Spoolable(c, recs'[i]) {
      if i < n {
        assert files'[i] == files[i] && recs'[i] == v.recs[i];
      }
    }
  }

  lemma WroteLast(c: Codec, files: seq<Segment>, v: View, p: Payload, now: int)
    requires files != [] && Clean(c, files, v.recs) && Spoolable(c, [p])
    ensures var n, files', recs' := |files| - 1, WroteFiles(files, Frame(c, p), now), Wrote(v, p).recs;
      files'[n].bytes == Encode(c, recs'[n]) && Spoolable(c, recs'[n])
  {
    var ps := v.recs[|files| - 1];
    EncodeSnoc(c, ps, p);
    assert [p][0] == p;
    assert Spoolable(c, ps + [p]);
  }

  lemma WroteLog(v: View, p: Payload)
    requires v.recs != [] && LogOk(v)
    ensures LogOk(Wrote(v, p))
  {
    var n := |v.recs| - 1;
    FlatSnoc(v.recs[..n], v.recs[n]);
    FlatSnoc(v.recs[..n], v.recs[n] + [p]);
    assert v.recs == v.recs[..n] + [v.recs[n]];
    ConcatAssoc(Flat(v.recs[..n]), v.recs[n], [p]);
    assert (v.log + [p])[v.base..] == v.log[v.base..] + [p];
  }

  lemma WroteBytes(files: seq<Segment>, frame: Bytes, now: int)
    requires files != []
    ensures DiskBytes(WroteFiles(files, frame, now)) == DiskBytes(files) + |frame|
  {
    var n := |files| - 1;
    assert files == files[..n] + [files[n]];
    DiskBytesConcat(files[..n], [files[n]]);
    DiskBytesConcat(files[..n], [files[n].(bytes := files[n].bytes + frame, mod := now)]);
  }

  lemma WroteCursor(c: Codec, files: seq<Segment>, v: View, p: Payload, now: int, readSeq: nat, readOffset: nat)
    requires files != [] && |files| == |v.recs|
    requires CursorOk(c, files, v.recs, readSeq, readOffset, v.skip)
    ensures CursorOk(c, WroteFiles(files, Frame(c, p), now), Wrote(v, p).recs, readSeq, readOffset, v.skip)
  {
    var recs' := Wrote(v, p).recs;
    if files[0].id == readSeq {
      assert recs'[0][..v.skip] == v.recs[0][..v.skip];
    }
  }

  lemma WroteTicket(c: Codec, files: seq<Segment>, v: View, p: Payload, now: int,
                    consumed: seq<Consumed>, activeSeq: nat, nextSeq: nat)
    requires files != [] && |files| == |v.recs| && files[|files| - 1].id == activeSeq
    requires TicketFiles(files, consumed, v.live) && TicketEnd(c, v, consumed)
    requires TicketSealed(consumed, activeSeq, nextSeq)
    ensures TicketEnd(c, Wrote(v, p), consumed)
  {
    var v' := Wrote(v, p);
    if v.live > 0 {
      if consumed[|consumed| - 1].complete {
        assert v'.recs[..v.live] == v.recs[..v.live];
      } else {
        assert v'.recs[..v.live - 1] == v.recs[..v.live - 1];
        assert v'.recs[v.live - 1][..v.part] == v.recs[v.live - 1][..v.part];
      }
    }
  }

  lemma WroteNames(files: seq<Segment>, frame: Bytes, now: int, consumed: seq<Consumed>, live: nat, limit: nat)
    requires files != [] && TicketFiles(files, consumed, live) && Ascending(files) && Below(files, limit)
    ensures var files' := WroteFiles(files, frame, now);
      TicketFiles(files', consumed, live) && Ascending(files') && Below(files', limit)
  {
    var files' := WroteFiles(files, frame, now);
    assert forall i :: 0 <= i < |files| ==> files'[i].id == files[i].id;
  }

  // ---------------------------------------------------------------- a fresh file

  function Grown(v: View): View {
    v.(recs := v.recs + [[]])
  }

  lemma GrownOk(c: Codec, files: seq<Segment>, v: View, id: nat, now: int)
    requires Clean(c, files, v.recs) && LogOk(v)
    ensures var files' := files + [Segment(id, [], now)];
      && Clean(c, files', Grown(v).recs) && LogOk(Grown(v))
      && DiskBytes(files') == DiskBytes(files)
  {
    FlatSnoc(v.recs, []);
    DiskBytesConcat(files, [Segment(id, [], now)]);
    assert Spoolable(c, []);
  }

  lemma GrownNames(files: seq<Segment>, id: nat, now: int, consumed: seq<Consumed>, live: nat, activeSeq: nat)
    requires Ascending(files) && Below(files, id) && id >= 1
    requires TicketFiles(files, consumed, live) && TicketSealed(consumed, activeSeq, id)
    ensures var files' := files + [Segment(id, [], now)];
      && Ascending(files') && Below(files', id + 1)
      && TicketFiles(files', consumed, live) && TicketSealed(consumed, id, id + 1)
  {
  }

  lemma GrownTicket(c: Codec, files: seq<Segment>, v: View, id: nat, now: int, consumed: seq<Consumed>,
                    readSeq: nat, readOffset: nat)
    requires |files| == |v.recs| && TicketEnd(c, v, consumed)
    requires CursorOk(c, files, v.recs, readSeq, readOffset, v.skip) && readSeq < id
    ensures TicketEnd(c, Grown(v), consumed)
    ensures CursorOk(c, files + [Segment(id, [], now)], Grown(v).recs, readSeq, readOffset, v.skip)
  {
    var v' := Grown(v);
    if v.live > 0 {
      assert v'.recs[..v.live] == v.recs[..v.live];
      assert v'.recs[..v.live - 1] == v.recs[..v.live - 1];
    }
  }

  // ---------------------------------------------------------------- removing the oldest file

  /** The view after the oldest file is gone and a cursor on it reset. */
  function Shed(v: View): View
    requires v.recs != []
  {
    v.(recs := v.recs[1..], base := v.base + |v.recs[0]|, skip := 0,
       live := if v.live == 0 then 0 else v.live - 1)
  }

  lemma ShedOk(c: Codec, files: seq<Segment>, v: View)
    requires files != [] && Clean(c, files, v.recs) && LogOk(v)
    ensures Clean(c, files[1..], Shed(v).recs) && LogOk(Shed(v))
  {
    DropConcat(v.recs[0], Flat(v.recs[1..]));
    assert v.log[Shed(v).base..] == v.log[v.base..][|v.recs[0]|..];
  }

  lemma ShedCursor(c: Codec, files: seq<Segment>, v: View, readSeq: nat, readOffset: nat)
    requires files != [] && |files| == |v.recs| && Ascending(files)
    requires CursorOk(c, files, v.recs, readSeq, readOffset, v.skip)
    ensures v.Head() <= Shed(v).Head()
    ensures var hit := readSeq == files[0].id;
      CursorOk(c, files[1..], Shed(v).recs, if hit then 0 else readSeq, if hit then 0 else readOffset, 0)
  {
  }

  lemma ShedNames(files: seq<Segment>, consumed: seq<Consumed>, live: nat)
    requires files != [] && Ascending(files) && TicketFiles(files, consumed, live)
    ensures Ascending(files[1..]) && TicketFiles(files[1..], consumed, if live == 0 then 0 else live - 1)
  {
    var n, rest := |consumed|, files[1..];
    if live > 0 {
      assert files[0].id == consumed[n - live].id;
      forall i, j | 0 <= j < n - (live - 1) && 0 <= i < |rest| ensures consumed[j].id < rest[i].id {
        assert rest[i] == files[i + 1];
      }
    }
  }

  lemma ShedTicket(c: Codec, v: View, consumed: seq<Consumed>)
    requires v.recs != [] && v.skip <= |v.recs[0]| && TicketEnd(c, v, consumed)
    ensures TicketEnd(c, Shed(v), consumed)
  {
    var v' := Shed(v);
    if v.live > 0 {
      assert v.recs[..v.live][1..] == v'.recs[..v.live - 1];
      if v.live > 1 {
        assert v.recs[..v.live - 1][1..] == v'.recs[..v.live - 2];
      }
    }
  }

  // ---------------------------------------------------------------- reading

  /** The unread records of each file. */
  function Unread(v: View): seq<seq<Payload>> {
    if v.recs == [] || v.skip > |v.recs[0]| then [] else [v.recs[0][v.skip..]] + v.recs[1..]
  }

  lemma QueueIsUnread(v: View)
    requires LogOk(v) && (v.recs == [] ==> v.skip == 0) && (v.recs != [] ==> v.skip <= |v.recs[0]|)
    ensures v.Queue() == Flat(Unread(v))
  {
    if v.recs != [] {
      assert Unread(v)[1..] == v.recs[1..];
      assert v.log[v.Head()..] == v.log[v.base..][v.skip..];
      assert (v.recs[0] + Flat(v.recs[1..]))[v.skip..] == v.recs[0][v.skip..] + Flat(v.recs[1..]);
    }
  }

  /** What reading file after file comes to. */
  lemma TakeFlat<T>(u: seq<seq<T>>, i: nat, max: int)
    requires i < |u| && |Flat(u[..i])| < max
    ensures var a := Flat(u[..i]);
      var more := Take(u[i], max - |a|);
      && (|a + more| < max ==> a + more == Flat(u[..i + 1]))
      && (|a + more| >= max ==> a + more == Take(Flat(u), max))
  {
    var a := Flat(u[..i]);
    FlatStep(u, i);
    FlatSplit(u, i + 1);
    var rest := Flat(u[i + 1..]);
    if |a| + |u[i]| >= max {
      TakeWithin(a + u[i], rest, max);
      TakeConcat(a, u[i], max);
    }
  }

  /** A clean segment reads back from any of its record boundaries. */
  lemma ReadClean(c: Codec, ps: seq<Payload>, i: nat)
    requires Spoolable(c, ps) && i <= |ps|
    ensures |Encode(c, ps[..i])| <= |Encode(c, ps)|
    ensures Readable(c, Encode(c, ps)[|Encode(c, ps[..i])|..]) == ps[i..]
    ensures |Encode(c, ps[..i])| + |Encode(c, ps[i..])| == |Encode(c, ps)|
  {
    assert ps[..|ps|] == ps;
    EncodeSplit(c, ps, i);
    DropConcat(Encode(c, ps[..i]), Encode(c, ps[i..]));
    ScanEncode(c, ps[i..]);
    ParsedPrefixAll(c, ps[i..]);
  }

  // ---------------------------------------------------------------- removing a file by name

  function Without(files: seq<Segment>, id: nat): seq<Segment> {
    if files == [] then []
    else if files[0].id == id then files[1..]
    else [files[0]] + Without(files[1..], id)
  }

  lemma {:induction false} WithoutAbsent(files: seq<Segment>, id: nat)
    requires forall i :: 0 <= i < |files| ==> files[i].id != id
    ensures Without(files, id) == files
  {
    if files != [] {
      WithoutAbsent(files[1..], id);
    }
  }

  // ---------------------------------------------------------------- accounting

  /** Where every result offered so far, and every record recovered at Open, has gone. */
  datatype Tally = Tally(
    offered: nat,      // results given to Append
    recovered: nat,    // records found on disk by Open
    unspoolable: nat,  // results dropped because they cannot be spooled
    ackRemoved: nat,   // records in segments deleted by an ack
    shed: nat,         // records in segments dropped by the bounds
    acked: nat,        // records consumed by acks
    lost: nat,         // unread records dropped by the bounds
    start: nat)        // lifetime drop total that Open started from

  predicate TallyOk(t: Tally, v: View) {
    && t.offered + t.recovered == |v.log| + t.unspoolable
    && v.base == t.ackRemoved + t.shed
    && v.Head() == t.acked + t.lost
    && t.lost <= t.shed
  }

  function Lifetime(t: Tally): nat {
    t.start + t.unspoolable + t.shed
  }

  /** Until 2^64 results have been dropped, the lifetime counter is exactly the drops there were
      and the sidecar files hold it. */
  predicate CountersOk(t: Tally, disk: Sidecars, d: Drops) {
    Lifetime(t) <= MAX_U64 ==> d.total == Lifetime(t) && Synced(disk, d)
  }

  lemma DropCounted(t: Tally, t': Tally, disk: Sidecars, d: Drops, n: U64)
    requires CountersOk(t, disk, d) && Lifetime(t') == Lifetime(t) + n
    ensures CountersOk(t', Persisted(disk, Dropped(d, n), 2), Dropped(d, n))
  {
    if Lifetime(t') <= MAX_U64 {
      DropCut(disk, n, 2);
    }
  }

  lemma AckCounted(t: Tally, disk: Sidecars, d: Drops, reported: U64)
    requires CountersOk(t, disk, d)
    ensures CountersOk(t, Persisted(disk, Acknowledged(d, reported), 2), Acknowledged(d, reported))
  {
    if Lifetime(t) <= MAX_U64 {
      AckCut(disk, reported, 2);
    }
  }

  lemma OverflowCounted(t: Tally, disk: Sidecars, d: Drops)
    requires Lifetime(t) > MAX_U64
    ensures CountersOk(t, disk, d)
  {
  }

  // ---------------------------------------------------------------- the whole state

  /** The fields of a spool. `view` and `tally` are what the fields mean; no operation reads
      them. */
  datatype Fields = Fields(
    codec: Codec, files: seq<Segment>, sidecars: Sidecars,
    active: bool, activeSeq: nat, activeSize: nat, activeOpenedAt: int, nextSeq: nat,
    readSeq: nat, readOffset: nat, drops: Drops, totalBytes: nat, lastBoundsCheck: int,
    consumed: seq<Consumed>, ghost view: View, ghost tally: Tally)

  ghost predicate FilesInv(s: Fields) {
    Clean(s.codec, s.files, s.view.recs) && LogOk(s.view)
  }

  ghost predicate NamesInv(s: Fields) {
    && Ascending(s.files) && Below(s.files, s.nextSeq) && 1 <= s.nextSeq
    && ActiveOk(s.files, s.active, s.activeSeq, s.activeSize) && s.activeSeq < s.nextSeq
    && TicketFiles(s.files, s.consumed, s.view.live) && TicketSealed(s.consumed, s.activeSeq, s.nextSeq)
  }

  ghost predicate CursorInv(s: Fields) {
    && |s.files| == |s.view.recs|
    && CursorOk(s.codec, s.files, s.view.recs, s.readSeq, s.readOffset, s.view.skip)
    && s.readSeq < s.nextSeq
    && TicketEnd(s.codec, s.view, s.consumed)
  }

  ghost predicate TallyInv(s: Fields) {
    TallyOk(s.tally, s.view) && CountersOk(s.tally, s.sidecars, s.drops)
  }

  /** The invariant. The comparison keeps it one fact to check where it is passed on. */
  ghost predicate Inv(s: Fields) {
    (FilesInv(s) && NamesInv(s) && CursorInv(s) && TallyInv(s)) == true
  }

  /** uint64 of a record count. */
  function AsU64(n: nat): U64 {
    if n <= MAX_U64 then n else n % TWO64
  }

  /** The oldest segment dropped, whole and counted. */
  ghost function DropOldest(s: Fields): Fields
    requires s.files != [] && s.view.recs != []
  {
    var n := |s.view.recs[0]|;
    var hit := s.readSeq == s.files[0].id;
    var v := Shed(s.view);
    var d := Dropped(s.drops, AsU64(n));
    s.(files := s.files[1..],
       active := s.active && s.files[0].id != s.activeSeq,
       readSeq := if hit then 0 else s.readSeq,
       readOffset := if hit then 0 else s.readOffset,
       drops := d, sidecars := Persisted(s.sidecars, d, 2), view := v,
       tally := s.tally.(shed := s.tally.shed + n,
                         lost := s.tally.lost + (if v.Head() >= s.view.Head() then v.Head() - s.view.Head() else 0)))
  }

  lemma DropOldestFiles(s: Fields)
    requires s.files != [] && FilesInv(s)
    ensures FilesInv(DropOldest(s))
  {
    ShedOk(s.codec, s.files, s.view);
  }

  lemma DropOldestNames(s: Fields)
    requires s.files != [] && s.view.recs != [] && NamesInv(s)
    ensures NamesInv(DropOldest(s))
  {
    ShedNames(s.files, s.consumed, s.view.live);
  }

  lemma DropOldestCursor(s: Fields)
    requires s.files != [] && CursorInv(s) && NamesInv(s)
    ensures CursorInv(DropOldest(s)) && s.view.Head() <= DropOldest(s).view.Head()
  {
    ShedCursor(s.codec, s.files, s.view, s.readSeq, s.readOffset);
    ShedTicket(s.codec, s.view, s.consumed);
  }

  lemma DropOldestTally(s: Fields)
    requires s.files != [] && s.view.recs != [] && TallyInv(s) && s.view.Head() <= Shed(s.view).Head()
    ensures TallyInv(DropOldest(s))
  {
    var n, s' := |s.view.recs[0]|, DropOldest(s);
    if n <= MAX_U64 {
      DropCounted(s.tally, s'.tally, s.sidecars, s.drops, n);
    } else {
      OverflowCounted(s'.tally, s'.sidecars, s'.drops);
    }
  }

  lemma DropOldestInv(s: Fields)
    requires Inv(s) && s.files != []
    ensures Inv(DropOldest(s)) && s.view.Head() <= DropOldest(s).view.Head()
  {
    DropOldestFiles(s);
    DropOldestNames(s);
    DropOldestCursor(s);
    DropOldestTally(s);
  }

  // ---------------------------------------------------------------- appending

  /** A result that cannot be spooled is counted as a drop. */
  ghost function Refused(s: Fields): Fields {
    var d := Dropped(s.drops, 1);
    s.(drops := d, sidecars := Persisted(s.sidecars, d, 2),
       tally := s.tally.(offered := s.tally.offered + 1, unspoolable := s.tally.unspoolable + 1))
  }

  lemma RefusedInv(s: Fields)
    requires Inv(s)
    ensures Inv(Refused(s))
  {
    DropCounted(s.tally, Refused(s).tally, s.sidecars, s.drops, 1);
  }

  ghost function Reported(s: Fields, n: U64): Fields {
    var d := Acknowledged(s.drops, n);
    s.(drops := d, sidecars := Persisted(s.sidecars, d, 2))
  }

  lemma ReportedInv(s: Fields, n: U64)
    requires Inv(s)
    ensures Inv(Reported(s, n))
  {
    AckCounted(s.tally, s.sidecars, s.drops, n);
  }

  ghost function Rotated(s: Fields): Fields {
    s.(active := false)
  }

  lemma RotatedInv(s: Fields)
    requires Inv(s)
    ensures Inv(Rotated(s))
  {
  }

  /** A fresh segment opened for appending. */
  ghost function Opened(s: Fields, now: int): Fields {
    s.(files := s.files + [Segment(s.nextSeq, [], now)], view := Grown(s.view),
       active := true, activeSeq := s.nextSeq, activeSize := 0, activeOpenedAt := now, nextSeq := s.nextSeq + 1)
  }

  lemma OpenedNames(s: Fields, now: int)
    requires NamesInv(s)
    ensures NamesInv(Opened(s, now))
  {
    GrownNames(s.files, s.nextSeq, now, s.consumed, s.view.live, s.activeSeq);
  }

  lemma OpenedInv(s: Fields, now: int)
    requires Inv(s)
    ensures Inv(Opened(s, now))
  {
    GrownOk(s.codec, s.files, s.view, s.nextSeq, now);
    GrownTicket(s.codec, s.files, s.view, s.nextSeq, now, s.consumed, s.readSeq, s.readOffset);
    OpenedNames(s, now);
  }

  /** Record `p` written to the open segment. */
  ghost function Written(s: Fields, p: Payload, now: int): Fields
    requires s.files != [] && s.view.recs != []
  {
    s.(files := WroteFiles(s.files, Frame(s.codec, p), now), view := Wrote(s.view, p),
       activeSize := s.activeSize + |p| + RECORD_OVERHEAD,
       totalBytes := s.totalBytes + |p| + RECORD_OVERHEAD,
       tally := s.tally.(offered := s.tally.offered + 1))
  }

  lemma WrittenFiles(s: Fields, p: Payload, now: int)
    requires FilesInv(s) && s.files != [] && Spoolable(s.codec, [p])
    ensures FilesInv(Written(s, p, now))
  {
    WroteClean(s.codec, s.files, s.view, p, now);
    WroteLog(s.view, p);
  }

  lemma WrittenNames(s: Fields, p: Payload, now: int)
    requires NamesInv(s) && s.active && s.view.recs != []
    ensures NamesInv(Written(s, p, now))
  {
    WroteNames(s.files, Frame(s.codec, p), now, s.consumed, s.view.live, s.nextSeq);
  }

  lemma WrittenTicket(s: Fields, p: Payload, now: int)
    requires CursorInv(s) && NamesInv(s) && s.active
    ensures TicketEnd(s.codec, Wrote(s.view, p), s.consumed)
  {
    WroteTicket(s.codec, s.files, s.view, p, now, s.consumed, s.activeSeq, s.nextSeq);
  }

  lemma WrittenCursor(s: Fields, p: Payload, now: int)
    requires CursorInv(s) && s.files != []
    requires TicketEnd(s.codec, Wrote(s.view, p), s.consumed)
    ensures CursorInv(Written(s, p, now))
  {
    WroteCursor(s.codec, s.files, s.view, p, now, s.readSeq, s.readOffset);
  }

  lemma WrittenTally(s: Fields, p: Payload, now: int)
    requires TallyInv(s) && s.files != [] && s.view.recs != []
    ensures TallyInv(Written(s, p, now))
  {
  }

  lemma WrittenInv(s: Fields, p: Payload, now: int)
    requires Inv(s) && s.active && Spoolable(s.codec, [p])
    ensures Inv(Written(s, p, now))
  {
    WrittenFiles(s, p, now);
    WrittenNames(s, p, now);
    WrittenTicket(s, p, now);
    WrittenCursor(s, p, now);
    WrittenTally(s, p, now);
  }

  // ---------------------------------------------------------------- acknowledging

  /** The oldest segment deleted by an ack. */
  ghost function AckRemoved(s: Fields): Fields
    requires s.files != [] && s.view.recs != []
  {
    var hit := s.readSeq == s.files[0].id;
    var v := Shed(s.view);
    s.(files := s.files[1..],
       readSeq := if hit then 0 else s.readSeq,
       readOffset := if hit then 0 else s.readOffset,
       view := v,
       tally := s.tally.(ackRemoved := s.tally.ackRemoved + |s.view.recs[0]|,
                         acked := s.tally.acked + (if v.Head() >= s.view.Head() then v.Head() - s.view.Head() else 0)))
  }

  lemma AckRemovedNames(s: Fields)
    requires NamesInv(s) && s.files != [] && s.view.recs != [] && s.files[0].id != s.activeSeq
    ensures NamesInv(AckRemoved(s))
  {
    ShedNames(s.files, s.consumed, s.view.live);
  }

  lemma AckRemovedCursor(s: Fields)
    requires s.files != [] && CursorInv(s) && NamesInv(s)
    ensures CursorInv(AckRemoved(s)) && s.view.Head() <= AckRemoved(s).view.Head()
  {
    ShedCursor(s.codec, s.files, s.view, s.readSeq, s.readOffset);
    ShedTicket(s.codec, s.view, s.consumed);
  }

  lemma AckRemovedInv(s: Fields)
    requires Inv(s) && s.files != [] && s.files[0].id != s.activeSeq
    ensures Inv(AckRemoved(s)) && s.view.Head() <= AckRemoved(s).view.Head()
  {
    AckRemovedFiles(s);
    AckRemovedNames(s);
    AckRemovedCursor(s);
    AckRemovedTally(s);
  }

  lemma AckRemovedFiles(s: Fields)
    requires s.files != [] && FilesInv(s)
    ensures FilesInv(AckRemoved(s))
  {
    ShedOk(s.codec, s.files, s.view);
  }

  lemma AckRemovedTally(s: Fields)
    requires s.files != [] && s.view.recs != [] && TallyInv(s) && s.view.Head() <= Shed(s.view).Head()
    ensures TallyInv(AckRemoved(s))
  {
  }

  /** The cursor advanced into the oldest segment by an ack. */
  ghost function AckAdvanced(s: Fields): Fields
    requires s.files != [] && s.consumed != []
  {
    var v := s.view.(skip := s.view.part);
    s.(readSeq := s.files[0].id, readOffset := s.consumed[|s.consumed| - 1].end, view := v,
       tally := s.tally.(acked := s.tally.acked + (if v.Head() >= s.view.Head() then v.Head() - s.view.Head() else 0)))
  }

  lemma AckAdvancedInv(s: Fields)
    requires Inv(s) && s.view.live == 1 && !s.consumed[|s.consumed| - 1].complete
    ensures Inv(AckAdvanced(s)) && AckAdvanced(s).view.Head() == s.view.upto
  {
    assert s.view.recs[..0] == [];
  }

  /** The cursor set to a segment that is no longer there. */
  ghost function AckStray(s: Fields): Fields
    requires s.consumed != []
  {
    var last := s.consumed[|s.consumed| - 1];
    s.(readSeq := last.id, readOffset := last.end)
  }

  lemma AckStrayInv(s: Fields)
    requires Inv(s) && s.view.live == 0 && s.consumed != []
    ensures Inv(AckStray(s))
  {
    var n := |s.consumed|;
    assert forall i :: 0 <= i < |s.files| ==> s.consumed[n - 1].id < s.files[i].id;
  }

  /** No batch outstanding. */
  ghost function Settled(s: Fields): Fields {
    s.(consumed := [], view := s.view.(live := 0, upto := s.view.Head()))
  }

  lemma SettledInv(s: Fields)
    requires Inv(s)
    ensures Inv(Settled(s))
  {
  }

  // ---------------------------------------------------------------- dropping by the bounds

  /** Successive readings of the clock. */
  type Clock = nat -> int

  /** The readings from the `k`-th on. */
  function From(clock: Clock, k: nat): Clock {
    (i: nat) => clock(k + i)
  }

  /** `r` is what is left of `s` after some of its first files are gone. */
  predicate Suffix(r: seq<Segment>, s: seq<Segment>) {
    |r| <= |s| && r == s[|s| - |r|..]
  }

  predicate WithinBounds(files: seq<Segment>, maxBytes: nat, maxAge: int, now: int) {
    files == [] || (DiskBytes(files) <= maxBytes && now - files[0].mod <= maxAge)
  }

  /** From `s` to `s'` only whole oldest segments were dropped: nothing else left the queue, and
      the unread records that did are counted. */
  ghost predicate OnlySheds(s: Fields, s': Fields) {
    && s'.view.log == s.view.log
    && s.view.Head() <= s'.view.Head()
    && s'.tally == s.tally.(shed := s'.tally.shed, lost := s'.tally.lost)
    && s'.tally.lost - s.tally.lost == s'.view.Head() - s.view.Head()
    && s'.tally.shed - s.tally.shed == s'.view.base - s.view.base >= 0
    && s'.codec == s.codec && s'.drops.acked == s.drops.acked && s'.nextSeq == s.nextSeq
    && s'.consumed == s.consumed && s'.view.upto == s.view.upto
  }

  /** `r` is `s` with its `k` oldest segments dropped, each while out of bounds when it was checked. */
  ghost predicate Enforcing(s: Fields, r: Fields, k: nat, maxBytes: nat, maxAge: int, clock: Clock) {
    && OnlySheds(s, r)
    && k <= |s.files| && r.files == s.files[k..]
    && (forall j :: 0 <= j < k ==> !WithinBounds(s.files[j..], maxBytes, maxAge, clock(j)))
  }

  lemma EnforcingStep(s: Fields, r: Fields, k: nat, maxBytes: nat, maxAge: int, clock: Clock)
    requires Inv(r) && Enforcing(s, r, k, maxBytes, maxAge, clock)
    requires !WithinBounds(r.files, maxBytes, maxAge, clock(k))
    ensures r.files != [] && r.view.recs != [] && Inv(DropOldest(r))
    ensures Enforcing(s, DropOldest(r), k + 1, maxBytes, maxAge, clock)
  {
    DropOldestInv(r);
    DropOldestOnlySheds(s, r);
    assert s.files[k..][1..] == s.files[k + 1..];
  }

  ghost function Checked(r: Fields, total: nat, now: int): Fields {
    r.(totalBytes := total, lastBoundsCheck := now)
  }

  lemma CheckedInv(r: Fields, total: nat, now: int)
    requires Inv(r)
    ensures Inv(Checked(r, total, now))
  {
  }

  lemma EnforcingChecked(s: Fields, r: Fields, k: nat, maxBytes: nat, maxAge: int, clock: Clock,
                         total: nat, now: int)
    requires Enforcing(s, r, k, maxBytes, maxAge, clock)
    ensures Enforcing(s, Checked(r, total, now), k, maxBytes, maxAge, clock)
  {
  }

  lemma DropOldestOnlySheds(s0: Fields, s: Fields)
    requires OnlySheds(s0, s) && Inv(s) && s.files != []
    ensures OnlySheds(s0, DropOldest(s))
  {
    DropOldestCursor(s);
  }

  // ---------------------------------------------------------------- collecting a batch

  /** The records of file `i` already consumed. */
  function Skipped(v: View, i: nat): nat {
    if i == 0 then v.skip else 0
  }

  lemma UnreadAt(v: View, i: nat)
    requires i < |v.recs| && v.skip <= |v.recs[0]|
    ensures |Unread(v)| == |v.recs| && Skipped(v, i) <= |v.recs[i]|
    ensures Unread(v)[i] == v.recs[i][Skipped(v, i)..]
  {
  }

  /** Reading every file before `i` to its end returns all their records but the skipped ones. */
  lemma UnreadBefore(v: View, i: nat)
    requires i <= |v.recs| && (v.recs != [] ==> v.skip <= |v.recs[0]|)
    ensures i <= |Unread(v)|
    ensures |Flat(Unread(v)[..i])| + v.skip == |Flat(v.recs[..i])| + Skipped(v, i)
  {
    if i > 0 {
      assert Unread(v)[..i][1..] == v.recs[..i][1..];
    }
  }

  lemma {:induction false} EncodeSizeAtLeast(c: Codec, ps: seq<Payload>)
    ensures |Encode(c, ps)| >= RECORD_OVERHEAD * |ps|
  {
    if ps != [] {
      EncodeSizeAtLeast(c, ps[1..]);
    }
  }

  /** A read that stops after record `part` stops at the end of the file iff that is the last. */
  lemma EndOfFile(c: Codec, ps: seq<Payload>, part: nat)
    requires part <= |ps|
    ensures |Encode(c, ps[..part])| >= |Encode(c, ps)| <==> part == |ps|
  {
    EncodeSplit(c, ps, part);
    EncodeSizeAtLeast(c, ps[part..]);
    assert part == |ps| ==> ps[..part] == ps;
  }

  /** What a batch collected so far has consumed: the first files, in order, all but the last to
      their end, and the last up to where the batch reaches. */
  ghost predicate Collected(s: Fields, out: seq<Payload>, consumed: seq<Consumed>, part: nat)
    requires |s.files| == |s.view.recs|
  {
    var m := |consumed|;
    && m <= |s.files|
    && (forall j :: 0 <= j < m ==> consumed[j].id == s.files[j].id)
    && (forall j :: 0 <= j < m ==> consumed[j].complete ==> consumed[j].id != s.activeSeq)
    && (forall j :: 0 <= j < m - 1 ==> consumed[j].complete)
    && (if m == 0 then out == []
        else Reaches(s.codec, Handed(s.view, m, part, |out|), consumed[m - 1]))
  }

  /** The view once a batch of `n` records over `m` files is handed out. */
  function Handed(v: View, m: nat, part: nat, n: nat): View {
    v.(live := m, part := part, upto := v.Head() + n)
  }

  ghost function HandedOut(s: Fields, out: seq<Payload>, consumed: seq<Consumed>, part: nat): Fields {
    s.(consumed := consumed, view := Handed(s.view, |consumed|, part, |out|))
  }

  lemma HandedOutNames(s: Fields, out: seq<Payload>, consumed: seq<Consumed>, part: nat)
    requires NamesInv(s) && |s.files| == |s.view.recs| && Collected(s, out, consumed, part)
    ensures NamesInv(HandedOut(s, out, consumed, part))
  {
  }

  lemma HandedOutInv(s: Fields, out: seq<Payload>, consumed: seq<Consumed>, part: nat)
    requires Inv(s) && Collected(s, out, consumed, part)
    ensures Inv(HandedOut(s, out, consumed, part))
  {
    HandedOutNames(s, out, consumed, part);
    HandedOutCursor(s, out, consumed, part);
    HandedOutRest(s, out, consumed, part);
  }

  lemma HandedOutCursor(s: Fields, out: seq<Payload>, consumed: seq<Consumed>, part: nat)
    requires CursorInv(s) && Collected(s, out, consumed, part)
    ensures CursorInv(HandedOut(s, out, consumed, part))
  {
  }

  lemma HandedOutRest(s: Fields, out: seq<Payload>, consumed: seq<Consumed>, part: nat)
    requires FilesInv(s) && TallyInv(s)
    ensures FilesInv(HandedOut(s, out, consumed, part)) && TallyInv(HandedOut(s, out, consumed, part))
  {
  }

  // ---------------------------------------------------------------- what an append comes to

  /** From `s` to `r` record `p` joined the queue at its end, and otherwise only whole oldest
      segments were dropped, counted. */
  ghost predicate Appended(s: Fields, r: Fields, p: Payload) {
    && r.view.log == s.view.log + [p]
    && s.view.Head() <= r.view.Head()
    && r.tally == s.tally.(offered := s.tally.offered + 1, shed := r.tally.shed, lost := r.tally.lost)
    && r.tally.lost - s.tally.lost == r.view.Head() - s.view.Head()
    && r.tally.shed - s.tally.shed == r.view.base - s.view.base >= 0
    && r.consumed == s.consumed && r.view.upto == s.view.upto && r.drops.acked == s.drops.acked
  }

  lemma AppendedThenShed(s: Fields, w: Fields, r: Fields, p: Payload)
    requires Appended(s, w, p) && OnlySheds(w, r)
    ensures Appended(s, r, p)
  {
  }

  lemma AppendedAfterOpen(s: Fields, a: Fields, w: Fields, p: Payload)
    requires a.view == s.view || a.view == Grown(s.view)
    requires a.tally == s.tally && a.consumed == s.consumed && a.drops == s.drops && Appended(a, w, p)
    ensures Appended(s, w, p)
  {
  }

  lemma OpenedBytes(s: Fields, now: int)
    requires Inv(s)
    ensures Opened(s, now).files != [] && DiskBytes(Opened(s, now).files) == DiskBytes(s.files)
  {
    GrownOk(s.codec, s.files, s.view, s.nextSeq, now);
  }

  lemma WrittenAppended(s: Fields, p: Payload, now: int)
    requires s.files != [] && s.view.recs != []
    ensures Appended(s, Written(s, p, now), p)
    ensures DiskBytes(Written(s, p, now).files) == DiskBytes(s.files) + |p| + RECORD_OVERHEAD
  {
    WroteBytes(s.files, Frame(s.codec, p), now);
  }

  // ---------------------------------------------------------------- collecting, one file at a time

  /** A batch that has read the files before `i` and wants more, or is full. */
  ghost predicate Collecting(s: Fields, out: seq<Payload>, consumed: seq<Consumed>, part: nat, i: nat, max: int)
    requires |s.files| == |s.view.recs|
  {
    var u := Unread(s.view);
    && i <= |s.files| && |u| == |s.files|
    && Collected(s, out, consumed, part)
    && (if |out| < max then out == Flat(u[..i]) else out == Take(Flat(u), max))
    && (i < |s.files| && |out| < max ==> |consumed| == i && (i > 0 ==> consumed[i - 1].complete))
  }

  /** A file of records `ps` read from record `from` up to record `part`, which is byte `end`. */
  ghost predicate FileRead(c: Codec, ps: seq<Payload>, from: nat, part: nat, end: nat) {
    && from <= part <= |ps|
    && end == |Encode(c, ps[..part])|
    && (end >= |Encode(c, ps)| <==> part == |ps|)
  }

  lemma ReadExtent(c: Codec, ps: seq<Payload>, from: nat, part: nat, more: seq<Payload>)
    requires from <= part <= |ps| && more == ps[from..part]
    ensures FileRead(c, ps, from, part, |Encode(c, ps[..from])| + |Encode(c, more)|)
  {
    EncodeRange(c, ps, from, part);
    EndOfFile(c, ps, part);
  }

  /** The batch after file `i`, read to `end`, joined it. */
  lemma CollectOutput(s: Fields, out: seq<Payload>, i: nat, max: int, more: seq<Payload>)
    requires |s.files| == |s.view.recs| == |Unread(s.view)| && i < |s.files| && |out| < max
    requires out == Flat(Unread(s.view)[..i]) && more == Take(Unread(s.view)[i], max - |out|)
    ensures var out', u := out + more, Unread(s.view);
      if |out'| < max then out' == Flat(u[..i + 1]) else out' == Take(Flat(u), max)
  {
    TakeFlat(Unread(s.view), i, max);
  }

  lemma CollectReaches(s: Fields, out: seq<Payload>, i: nat, part: nat, end: nat, n: nat, complete: bool)
    requires |s.files| == |s.view.recs| && i < |s.files| && s.view.skip <= |s.view.recs[0]|
    requires out == Flat(Unread(s.view)[..i])
    requires FileRead(s.codec, s.view.recs[i], Skipped(s.view, i), part, end)
    requires n == |out| + (part - Skipped(s.view, i)) && (complete ==> part == |s.view.recs[i]|)
    ensures Reaches(s.codec, Handed(s.view, i + 1, part, n), Consumed(s.files[i].id, end, complete))
  {
    UnreadBefore(s.view, i);
    if complete {
      FlatStep(s.view.recs, i);
    }
  }

  /** Where Next starts reading file `i`. */
  function StartOf(s: Fields, i: nat): nat
    requires i < |s.files|
  {
    if s.files[i].id == s.readSeq then s.readOffset else 0
  }

  lemma StartIsBoundary(s: Fields, i: nat)
    requires CursorInv(s) && i < |s.files|
    ensures s.view.skip <= |s.view.recs[0]| && Skipped(s.view, i) <= |s.view.recs[i]|
    ensures StartOf(s, i) == |Encode(s.codec, s.view.recs[i][..Skipped(s.view, i)])|
  {
  }

  /** File `i` is clean and Next starts reading it at its first unread record. */
  ghost predicate ReadyAt(s: Fields, i: nat)
    requires i < |s.files|
  {
    && i < |s.view.recs| && Skipped(s.view, i) <= |s.view.recs[i]|
    && s.files[i].bytes == Encode(s.codec, s.view.recs[i]) && Spoolable(s.codec, s.view.recs[i])
    && StartOf(s, i) == |Encode(s.codec, s.view.recs[i][..Skipped(s.view, i)])|
    && |Unread(s.view)| == |s.files| && Unread(s.view)[i] == s.view.recs[i][Skipped(s.view, i)..]
  }

  lemma ReadyAtAny(s: Fields, i: nat)
    requires FilesInv(s) && CursorInv(s) && i < |s.files|
    ensures ReadyAt(s, i)
  {
    StartIsBoundary(s, i);
    UnreadAt(s.view, i);
  }

  /** So is every file. */
  ghost predicate AllReady(s: Fields) {
    |s.files| == |s.view.recs| && forall i :: 0 <= i < |s.files| ==> ReadyAt(s, i)
  }

  lemma AllAreReady(s: Fields)
    requires FilesInv(s) && CursorInv(s)
    ensures AllReady(s)
  {
    forall i | 0 <= i < |s.files| ensures ReadyAt(s, i) {
      ReadyAtAny(s, i);
    }
  }

  /** What reading a clean file from a record boundary gives. */
  lemma CleanOutcome(c: Codec, file: Bytes, ps: seq<Payload>, from: nat, start: nat, max: int,
                     out: seq<Payload>, corrupt: bool)
    requires Spoolable(c, ps) && from <= |ps| && file == Encode(c, ps)
    requires start == |Encode(c, ps[..from])| <= |file|
    requires ReadOutcome(c, Readable(c, file[start..]), |file| - start, max, out, corrupt)
    ensures !corrupt && out == Take(ps[from..], max)
    ensures from + |out| <= |ps| && out == ps[from..from + |out|]
  {
    ReadClean(c, ps, from);
    TakeFrom(ps, from, max);
  }

  predicate OnlyLastActive(s: Fields) {
    forall j :: 0 <= j < |s.files| - 1 ==> s.files[j].id != s.activeSeq
  }

  /** The next step of collecting: file `i` read up to record `part` and added to what is consumed. */
  lemma CollectStep(s: Fields, out: seq<Payload>, consumed: seq<Consumed>, part0: nat, i: nat, max: int,
                    more: seq<Payload>, part: nat, c: Consumed)
    requires AllReady(s) && i < |s.files| && |out| < max
    requires Collecting(s, out, consumed, part0, i, max)
    requires more == Take(Unread(s.view)[i], max - |out|) && |more| == part - Skipped(s.view, i)
    requires FileRead(s.codec, s.view.recs[i], Skipped(s.view, i), part, c.end)
    requires c.id == s.files[i].id && (c.complete <==> part == |s.view.recs[i]| && c.id != s.activeSeq)
    requires OnlyLastActive(s)
    ensures Collecting(s, out + more, consumed + [c], part, i + 1, max)
  {
    assert ReadyAt(s, i) && ReadyAt(s, 0);
    CollectOutput(s, out, i, max, more);
    CollectReaches(s, out, i, part, c.end, |out + more|, c.complete);
    UnreadAt(s.view, i);
    CollectedStep(s, out, consumed, part0, i, more, part, c);
    if |out + more| < max {
      TakeShort(Unread(s.view)[i], max - |out|);
    }
  }

  lemma TakeShort<T>(s: seq<T>, max: int)
    requires |Take(s, max)| < max
    ensures Take(s, max) == s
  {
  }

  lemma CollectedStep(s: Fields, out: seq<Payload>, consumed: seq<Consumed>, part0: nat, i: nat,
                      more: seq<Payload>, part: nat, c: Consumed)
    requires |s.files| == |s.view.recs| && i < |s.files|
    requires Collected(s, out, consumed, part0) && |consumed| == i && (i > 0 ==> consumed[i - 1].complete)
    requires c.id == s.files[i].id && (c.complete ==> c.id != s.activeSeq)
    requires Reaches(s.codec, Handed(s.view, i + 1, part, |out + more|), c)
    ensures Collected(s, out + more, consumed + [c], part)
  {
  }

  /** The append file with nothing unread is passed over. */
  lemma CollectPass(s: Fields, out: seq<Payload>, consumed: seq<Consumed>, part: nat, i: nat, max: int)
    requires |s.files| == |s.view.recs| && i < |s.files| && |out| < max
    requires Collecting(s, out, consumed, part, i, max)
    requires Take(Unread(s.view)[i], max - |out|) == [] && s.files[i].id == s.activeSeq
    requires OnlyLastActive(s)
    ensures Collecting(s, out, consumed, part, i + 1, max)
  {
    CollectOutput(s, out, i, max, []);
    assert out + [] == out;
  }

  lemma CollectStart(s: Fields, max: int)
    requires FilesInv(s) && CursorInv(s)
    ensures Collecting(s, [], [], 0, 0, max)
  {
    UnreadBefore(s.view, 0);
    assert Unread(s.view)[..0] == [];
  }

  lemma CollectDone(s: Fields, out: seq<Payload>, consumed: seq<Consumed>, part: nat, i: nat, max: int)
    requires FilesInv(s) && CursorInv(s) && Collecting(s, out, consumed, part, i, max)
    requires i == |s.files| || |out| >= max
    ensures Collected(s, out, consumed, part) && out == Take(s.view.Queue(), max)
  {
    QueueIsUnread(s.view);
    assert Unread(s.view)[..|s.files|] == Unread(s.view);
  }

  // ---------------------------------------------------------------- acknowledging a batch

  /** The cursor reset if it names segment `id`. */
  ghost function Reset(s: Fields, id: nat): Fields {
    if s.readSeq == id then s.(readSeq := 0, readOffset := 0) else s
  }

  lemma ResetInv(s: Fields, id: nat)
    requires Inv(s) && forall i :: 0 <= i < |s.files| ==> id < s.files[i].id
    ensures Inv(Reset(s, id))
  {
  }

  /** What the ack does with the `k`-th segment of the batch. */
  ghost function AckStep(r: Fields, k: nat): Fields
    requires k < |r.consumed| && |r.files| == |r.view.recs| && r.view.live <= |r.files|
  {
    var c := r.consumed[k];
    if k < |r.consumed| - r.view.live then if c.complete then Reset(r, c.id) else AckStray(r)
    else if r.view.live == 0 then r
    else if c.complete then AckRemoved(r) else AckAdvanced(r)
  }

  /** From `s` to `r` an ack consumed records, and did nothing else to the queue. */
  ghost predicate OnlyAcks(s: Fields, r: Fields) {
    && r.view.log == s.view.log && r.view.upto == s.view.upto && r.consumed == s.consumed
    && s.view.Head() <= r.view.Head()
    && r.tally == s.tally.(ackRemoved := r.tally.ackRemoved, acked := r.tally.acked)
    && r.tally.acked - s.tally.acked == r.view.Head() - s.view.Head()
    && DiskBytes(r.files) <= DiskBytes(s.files)
    && r.drops == s.drops && r.sidecars == s.sidecars && r.totalBytes == s.totalBytes
    && r.codec == s.codec && r.nextSeq == s.nextSeq
  }

  /** The ack of `s` after its first `k` segments. */
  ghost predicate Acking(s: Fields, r: Fields, k: nat) {
    var n := |s.consumed|;
    && OnlyAcks(s, r)
    && k <= n && s.view.live <= n
    && r.view.live == (if k <= n - s.view.live then s.view.live else if k == n && AckEndsInside(s) then 1 else n - k)
    && (k <= n - s.view.live ==> r.view == s.view)
    && (k == n && s.view.live > 0 ==> r.view.Head() == s.view.upto)
  }

  predicate AckEndsInside(s: Fields) {
    s.consumed != [] && !s.consumed[|s.consumed| - 1].complete
  }

  /** A segment of the batch that was dropped meanwhile. */
  lemma AckStepGone(s: Fields, r: Fields, k: nat)
    requires Inv(r) && Acking(s, r, k) && k < |s.consumed| && k < |r.consumed| - r.view.live
    ensures Inv(AckStep(r, k)) && Acking(s, AckStep(r, k), k + 1)
  {
    var c := r.consumed[k];
    AckingGone(s, r, AckStep(r, k), k);
    if c.complete {
      GoneIsOlder(r, k);
      ResetInv(r, c.id);
    } else {
      AckStrayInv(r);
    }
  }

  lemma GoneIsOlder(r: Fields, k: nat)
    requires NamesInv(r) && k < |r.consumed| - r.view.live
    ensures forall i :: 0 <= i < |r.files| ==> r.consumed[k].id < r.files[i].id
  {
  }

  lemma AckingGone(s: Fields, r: Fields, r': Fields, k: nat)
    requires Acking(s, r, k) && k < |s.consumed| - r.view.live
    requires r' == r.(readSeq := r'.readSeq, readOffset := r'.readOffset)
    ensures Acking(s, r', k + 1)
  {
  }

  lemma AckHeadFile(r: Fields, k: nat)
    requires NamesInv(r) && k < |r.consumed| && k == |r.consumed| - r.view.live
    ensures r.files != [] && r.files[0].id == r.consumed[k].id
    ensures r.consumed[k].complete ==> r.files[0].id != r.activeSeq
  {
  }

  lemma AckRemovedActs(s: Fields, r: Fields)
    requires OnlyAcks(s, r) && r.files != [] && r.view.recs != [] && r.view.Head() <= AckRemoved(r).view.Head()
    ensures OnlyAcks(s, AckRemoved(r))
  {
  }

  lemma AckRemovedReaches(r: Fields)
    requires CursorInv(r) && r.view.live == 1 && r.consumed[|r.consumed| - 1].complete
    ensures AckRemoved(r).view.Head() == r.view.upto
  {
    FlatStep(r.view.recs, 0);
    assert r.view.recs[..0] == [];
  }

  /** A segment of the batch wholly consumed. */
  lemma AckStepWhole(s: Fields, r: Fields, k: nat)
    requires Inv(r) && Acking(s, r, k) && k < |s.consumed| && k == |r.consumed| - r.view.live
    requires r.consumed[k].complete
    ensures Inv(AckStep(r, k)) && Acking(s, AckStep(r, k), k + 1)
  {
    AckHeadFile(r, k);
    AckRemovedInv(r);
    AckRemovedActs(s, r);
    if r.view.live == 1 {
      AckRemovedReaches(r);
    }
  }

  /** The last segment of the batch, consumed in part. */
  lemma AckStepInside(s: Fields, r: Fields, k: nat)
    requires Inv(r) && Acking(s, r, k) && k < |s.consumed| && k == |r.consumed| - r.view.live
    requires !r.consumed[k].complete
    ensures Inv(AckStep(r, k)) && Acking(s, AckStep(r, k), k + 1)
  {
    AckHeadFile(r, k);
    AckAdvancedInv(r);
  }

  lemma AckStepOk(s: Fields, r: Fields, k: nat)
    requires Inv(r) && Acking(s, r, k) && k < |s.consumed|
    ensures Inv(AckStep(r, k)) && Acking(s, AckStep(r, k), k + 1)
  {
    if k < |r.consumed| - r.view.live {
      AckStepGone(s, r, k);
    } else if r.consumed[k].complete {
      AckStepWhole(s, r, k);
    } else {
      AckStepInside(s, r, k);
    }
  }

  /** From `s` to `r` files were at most deleted, oldest first, and the bounds not checked. */
  predicate OnlyDeletes(s: Fields, r: Fields) {
    Suffix(r.files, s.files) && r.lastBoundsCheck == s.lastBoundsCheck
  }

  lemma AckStepDeletes(s: Fields, r: Fields, k: nat)
    requires OnlyDeletes(s, r) && k < |r.consumed| && |r.files| == |r.view.recs| && r.view.live <= |r.files|
    ensures OnlyDeletes(s, AckStep(r, k))
  {
    if r.files != [] {
      SuffixTail(r.files, s.files);
    }
  }

  lemma SuffixTail(r: seq<Segment>, s: seq<Segment>)
    requires Suffix(r, s) && r != []
    ensures Suffix(r[1..], s)
  {
  }

  /** Deleting the named segment removes the oldest file, or nothing if it was dropped. */
  lemma AckDeletes(r: Fields, k: nat)
    requires NamesInv(r) && k < |r.consumed| && k <= |r.consumed| - r.view.live
    ensures Without(r.files, r.consumed[k].id) ==
            if k < |r.consumed| - r.view.live then r.files else r.files[1..]
  {
    if k < |r.consumed| - r.view.live {
      WithoutAbsent(r.files, r.consumed[k].id);
    } else {
      AckHeadFile(r, k);
    }
  }

  // ---------------------------------------------------------------- opening

  /** The records that start-up finds in each file. */
  ghost function ScanAll(c: Codec, dir: seq<Segment>): (recs: seq<seq<Payload>>)
    ensures |recs| == |dir| && forall i :: 0 <= i < |dir| ==> recs[i] == Scan(c, dir[i].bytes)
  {
    seq(|dir|, i requires 0 <= i < |dir| => Scan(c, dir[i].bytes))
  }

  /** A file after start-up: cut after its last intact record, and touched if that changed it. */
  ghost predicate TruncatedFile(c: Codec, before: Segment, after: Segment, now: int) {
    && after.id == before.id
    && after.bytes == Encode(c, Scan(c, before.bytes))
    && after.mod == if after.bytes == before.bytes then before.mod else now
  }

  ghost predicate Truncated(c: Codec, dir: seq<Segment>, files: seq<Segment>, clock: Clock) {
    |files| == |dir| && forall i :: 0 <= i < |dir| ==> TruncatedFile(c, dir[i], files[i], clock(i))
  }

  /** Every intact record in the directory was put there by an append. */
  ghost predicate OursOnly(c: Codec, dir: seq<Segment>) {
    forall i :: 0 <= i < |dir| ==> Spoolable(c, Scan(c, dir[i].bytes))
  }

  /** The fields Open sets up before it enforces the bounds. */
  ghost function Fresh(c: Codec, files: seq<Segment>, recs: seq<seq<Payload>>, disk: Sidecars, nextSeq: nat): Fields {
    var d, log := Recovered(disk), Flat(recs);
    Fields(c, files, Repaired(disk, 2), false, 0, 0, 0, nextSeq, 0, 0, d, 0, 0, [],
           View(recs, log, 0, 0, 0, 0, 0), Tally(0, |log|, 0, 0, 0, 0, 0, d.total))
  }

  lemma FreshInv(c: Codec, dir: seq<Segment>, files: seq<Segment>, disk: Sidecars, nextSeq: nat, clock: Clock)
    requires Ascending(dir) && OursOnly(c, dir) && Truncated(c, dir, files, clock)
    requires 1 <= nextSeq && Below(dir, nextSeq)
    ensures Inv(Fresh(c, files, ScanAll(c, dir), disk, nextSeq))
  {
    FreshFiles(c, dir, files, disk, nextSeq, clock);
    FreshNames(c, dir, files, disk, nextSeq, clock);
    FreshRest(c, files, ScanAll(c, dir), disk, nextSeq);
  }

  lemma FreshNames(c: Codec, dir: seq<Segment>, files: seq<Segment>, disk: Sidecars, nextSeq: nat, clock: Clock)
    requires Ascending(dir) && Truncated(c, dir, files, clock) && 1 <= nextSeq && Below(dir, nextSeq)
    ensures NamesInv(Fresh(c, files, ScanAll(c, dir), disk, nextSeq))
  {
    assert forall i :: 0 <= i < |dir| ==> TruncatedFile(c, dir[i], files[i], clock(i)) && files[i].id == dir[i].id;
  }

  lemma FreshRest(c: Codec, files: seq<Segment>, recs: seq<seq<Payload>>, disk: Sidecars, nextSeq: nat)
    requires |files| == |recs| && 1 <= nextSeq && (forall i :: 0 <= i < |files| ==> files[i].id >= 1)
    ensures CursorInv(Fresh(c, files, recs, disk, nextSeq)) && TallyInv(Fresh(c, files, recs, disk, nextSeq))
  {
    RepairIsStable(disk, 2);
  }

  lemma FreshFiles(c: Codec, dir: seq<Segment>, files: seq<Segment>, disk: Sidecars, nextSeq: nat, clock: Clock)
    requires OursOnly(c, dir) && Truncated(c, dir, files, clock)
    ensures FilesInv(Fresh(c, files, ScanAll(c, dir), disk, nextSeq))
  {
    var recs := ScanAll(c, dir);
    assert Flat(recs)[0..] == Flat(recs);
  }

  /** A crash in the middle of an append: the directory holds what it held, except that the file
      being written ends in part of a frame. */
  ghost predicate TornAppend(c: Codec, recs: seq<seq<Payload>>, dir: seq<Segment>, p: Payload, tail: Bytes) {
    && |dir| == |recs| && (forall i :: 0 <= i < |recs| ==> Spoolable(c, recs[i]))
    && TornFrame(c, p, tail)
    && (forall i :: 0 <= i < |dir| - 1 ==> dir[i].bytes == Encode(c, recs[i]))
    && (dir != [] ==> dir[|dir| - 1].bytes == Encode(c, recs[|dir| - 1]) + tail)
  }

  /** Restarting after it finds exactly the records that were whole before the crash: every record
      spooled and neither acknowledged away nor dropped is replayed. */
  lemma TornAppendRecovers(c: Codec, recs: seq<seq<Payload>>, dir: seq<Segment>, p: Payload, tail: Bytes)
    requires TornAppend(c, recs, dir, p, tail)
    ensures ScanAll(c, dir) == recs && OursOnly(c, dir)
  {
    forall i | 0 <= i < |dir| ensures Scan(c, dir[i].bytes) == recs[i] {
      if i < |dir| - 1 {
        ScanEncode(c, recs[i]);
      } else {
        ScanTorn(c, recs[i], p, tail);
      }
    }
    assert ScanAll(c, dir) == recs;
  }

  /** A crash at any moment, the record being written cut anywhere, loses nothing that was not
      acknowledged: the directory reopens to the records on disk, of which the unread queue is the
      rest after the acknowledged start of the oldest segment, and to the drop counters in memory. */
  lemma CrashKeepsQueue(s: Fields, dir: seq<Segment>, p: Payload, tail: Bytes)
    requires Inv(s) && TornAppend(s.codec, s.view.recs, dir, p, tail)
    ensures OursOnly(s.codec, dir)
    ensures var log := Flat(ScanAll(s.codec, dir));
      s.view.skip <= |log| && log[s.view.skip..] == s.view.Queue()
    ensures Lifetime(s.tally) <= MAX_U64 ==> Recovered(s.sidecars) == s.drops
  {
    TornAppendRecovers(s.codec, s.view.recs, dir, p, tail);
    HeadInLog(s);
    assert s.view.log[s.view.base..][s.view.skip..] == s.view.log[s.view.Head()..];
    if Lifetime(s.tally) <= MAX_U64 {
      SyncedRecovers(s.sidecars);
    }
  }

  /** A cursor that names a segment on disk names the oldest one, and stands between two of its
      records: what follows it there is exactly the unread records. */
  lemma CursorNamesOldest(s: Fields, i: nat)
    requires Inv(s) && i < |s.files| && s.files[i].id == s.readSeq
    ensures i == 0 && s.view.skip <= |s.view.recs[0]| && s.readOffset <= |s.files[0].bytes|
    ensures Scan(s.codec, s.files[0].bytes[s.readOffset..]) == s.view.recs[0][s.view.skip..]
  {
    var ps, k := s.view.recs[0], s.view.skip;
    EncodeSplit(s.codec, ps, k);
    DropConcat(Encode(s.codec, ps[..k]), Encode(s.codec, ps[k..]));
    ScanEncode(s.codec, ps[k..]);
  }

  // ---------------------------------------------------------------- contracts of the public operations

  /** The byte count never falls below what is on disk. */
  predicate Overestimates(s: Fields) {
    DiskBytes(s.files) <= s.totalBytes
  }

  predicate SizeOk(s: Fields, maxBytes: nat) {
    s.files == [] || DiskBytes(s.files) <= maxBytes
  }

  /** The queue is untouched from `s` to `r`, and so is what was counted. */
  ghost predicate SameQueue(s: Fields, r: Fields) {
    && r.view.log == s.view.log && r.view.Head() == s.view.Head() && r.view.base == s.view.base
    && r.tally == s.tally && r.drops == s.drops && r.sidecars == s.sidecars && r.files == s.files
  }

  /** An ack of `s` came to `r`: the head moved to the end of the batch unless bounds drops had
      already moved it further; nothing else left the queue. */
  ghost predicate AckedTo(s: Fields, r: Fields) {
    && r.view.log == s.view.log
    && r.view.Head() == (if s.view.Head() >= s.view.upto then s.view.Head() else s.view.upto)
    && r.tally == s.tally.(ackRemoved := r.tally.ackRemoved, acked := r.tally.acked)
    && r.tally.acked - s.tally.acked == r.view.Head() - s.view.Head()
    && r.drops == s.drops && r.sidecars == s.sidecars
    && r.consumed == [] && r.view.live == 0
  }

  lemma AckedAll(s: Fields, r: Fields)
    requires Inv(s) && Acking(s, r, |s.consumed|)
    ensures AckedTo(s, Settled(r))
  {
  }

  /** Every result offered and every record recovered is on disk, in a segment deleted by an ack,
      or counted in the growth of the lifetime drop total; and every unread record that the bounds
      took is among those counted. */
  lemma Conserved(s: Fields)
    requires Inv(s)
    ensures s.tally.offered + s.tally.recovered ==
            |Flat(s.view.recs)| + s.tally.ackRemoved + (s.tally.unspoolable + s.tally.shed)
    ensures Lifetime(s.tally) <= MAX_U64 ==>
            s.drops.total - s.tally.start == s.tally.unspoolable + s.tally.shed
    ensures s.tally.offered + s.tally.recovered ==
            |s.view.Queue()| + s.tally.acked + s.tally.lost + s.tally.unspoolable
    ensures s.tally.lost <= s.tally.shed
  {
    assert |s.view.log[s.view.base..]| == |Flat(s.view.recs)|;
    HeadInLog(s);
  }

  lemma HeadInLog(s: Fields)
    requires FilesInv(s) && CursorInv(s)
    ensures s.view.Head() <= |s.view.log|
  {
    if s.view.recs != [] {
      assert |Flat(s.view.recs)| == |s.view.recs[0]| + |Flat(s.view.recs[1..])|;
    }
  }
}
