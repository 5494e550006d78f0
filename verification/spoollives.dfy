/** The spool over many lives: open, push, crash, and open again. */
module SpoolLives {
  import opened Wrappers
  import opened LittleEndian
  import opened Sequences
  import opened Ranges
  import opened Frames
  import opened Counters
  import opened SpoolSpec
  import opened SpoolQueue
  import opened SpoolRuns

  // ---------------------------------------------------------------- what became of every record

  /** A batch the server accepted, and where in the log it is. */
  datatype Delivery = Delivery(at: nat, batch: seq<Payload>)

  /** `log` is every record ever on the spool, in order: the `found` ones found at first, then each one
      spooled in some life. Those from `off` on are on disk. `sent` are the accepted batches, `missing` the
      positions of records dropped before any acceptance; `offers` results were offered in all, and `shed`
      records were in segments the bounds dropped. */
  datatype Ledger = Ledger(log: seq<Payload>, off: nat, sent: seq<Delivery>, missing: set<int>,
                           found: nat, offers: nat, shed: nat)
  {
    /** The results refused because they cannot be spooled. */
    function Refused(): int {
      offers + found - |log|
    }

    /** Every drop there was, when the drop total began at `start`. */
    function Dropped(start: nat): int {
      start + Refused() + shed
    }
  }

  predicate Holds(d: Delivery, g: int) {
    d.at <= g < d.at + |d.batch|
  }

  /** The record at position `g` is in one of the batches. */
  predicate Delivered(sent: seq<Delivery>, g: int) {
    exists i :: 0 <= i < |sent| && Holds(sent[i], g)
  }

  /** Every record before `h` was accepted or is missing. */
  ghost predicate Explained(h: nat, sent: seq<Delivery>, missing: set<int>) {
    forall g :: 0 <= g < h ==> g in missing || Delivered(sent, g)
  }

  /** Each batch is the run of the log at its position. */
  ghost predicate Sent(log: seq<Payload>, sent: seq<Delivery>) {
    forall i :: 0 <= i < |sent| ==> IsRun(log, sent[i])
  }

  predicate IsRun(log: seq<Payload>, d: Delivery) {
    d.at + |d.batch| <= |log| && d.batch == log[d.at..d.at + |d.batch|] && |d.batch| <= BATCH_SIZE
  }

  /** Every record ever spooled is on disk, was accepted in some life, or is among records no more than
      those the bounds dropped; and the drop total on disk, which was `start`, counts those and the refused
      results exactly. */
  ghost predicate Accounted(c: Codec, l: Ledger, start: nat, dir: seq<Segment>, disk: Sidecars) {
    && Sent(l.log, l.sent)
    && l.off <= |l.log| && Flat(ScanAll(c, dir)) == l.log[l.off..]
    && Explained(l.off, l.sent, l.missing) && |l.missing| <= l.shed <= l.off
    && (l.Dropped(start) <= MAX_U64 ==> Recovered(disk).total == l.Dropped(start))
    && Ascending(dir) && OursOnly(c, dir)
  }

  // ---------------------------------------------------------------- counting

  /** The batches of one life, at their positions in the log of all lives. */
  function Deliveries(acc: seq<seq<Payload>>, pos: seq<nat>, off: nat): (r: seq<Delivery>)
    requires |acc| == |pos|
    ensures |r| == |acc| && forall i :: 0 <= i < |acc| ==> r[i] == Delivery(off + pos[i], acc[i])
  {
    seq(|acc|, i requires 0 <= i < |acc| => Delivery(off + pos[i], acc[i]))
  }

  /** The batches lie between `from` and `head`, one after the other. */
  ghost predicate Spaced(from: nat, head: nat, acc: seq<seq<Payload>>, pos: seq<nat>) {
    && |pos| == |acc|
    && (forall i :: 0 <= i < |pos| ==> from <= pos[i] && pos[i] + |acc[i]| <= head)
    && (forall i, j :: 0 <= i < j < |pos| ==> pos[i] + |acc[i]| <= pos[j])
  }

  lemma SpacedInit(from: nat, head: nat, acc: seq<seq<Payload>>, pos: seq<nat>)
    requires Spaced(from, head, acc, pos) && pos != []
    ensures var n := |pos| - 1;
      from <= pos[n] && pos[n] + |acc[n]| <= head && Spaced(from, pos[n], acc[..n], pos[..n])
  {
  }

  /** Every position from `a` to `b` is in `m` or in one of the batches. */
  ghost predicate Filled(a: int, b: int, sent: seq<Delivery>, m: set<int>) {
    forall g :: a <= g < b ==> g in m || Delivered(sent, g)
  }

  lemma DeliveredOn(sent: seq<Delivery>, more: seq<Delivery>, g: int)
    requires Delivered(sent, g) || Delivered(more, g)
    ensures Delivered(sent + more, g)
  {
    if Delivered(sent, g) {
      var i :| 0 <= i < |sent| && Holds(sent[i], g);
      assert Holds((sent + more)[i], g);
    } else {
      var i :| 0 <= i < |more| && Holds(more[i], g);
      assert Holds((sent + more)[|sent| + i], g);
    }
  }

  lemma FilledLast(a: int, sent: seq<Delivery>, m: set<int>, d: Delivery, b: int)
    requires Filled(a, d.at, sent, m)
    ensures Filled(a, b, sent + [d], m + Range(d.at + |d.batch|, b))
  {
    forall g | a <= g < b ensures g in m + Range(d.at + |d.batch|, b) || Delivered(sent + [d], g) {
      if Holds(d, g) {
        assert Holds([d][0], g);
        DeliveredOn(sent, [d], g);
      } else if g < d.at && g !in m {
        DeliveredOn(sent, [d], g);
      } else if g >= d.at {
        assert g in Range(d.at + |d.batch|, b);
      }
    }
  }

  lemma DeliveriesLast(acc: seq<seq<Payload>>, pos: seq<nat>, off: nat)
    requires |acc| == |pos| && pos != []
    ensures var n := |pos| - 1;
      Deliveries(acc, pos, off) == Deliveries(acc[..n], pos[..n], off) + [Delivery(off + pos[n], acc[n])]
  {
  }

  lemma GapSize(m: set<int>, a: int, b: int)
    requires a <= b
    ensures |m + Range(a, b)| <= |m| + (b - a)
  {
    RangeSize(a, b);
    JoinSize(m, Range(a, b));
  }

  /** What the batches accepted between `from` and `head` leave out is no more than they fall short. */
  lemma {:induction false} LeftOut(off: nat, from: nat, head: nat, acc: seq<seq<Payload>>, pos: seq<nat>)
    returns (m: set<int>)
    requires Spaced(from, head, acc, pos) && from <= head
    ensures |m| + Total(acc) <= head - from
    ensures Filled(off + from, off + head, Deliveries(acc, pos, off), m)
    decreases |pos|
  {
    if pos == [] {
      m := Range(off + from, off + head);
      RangeSize(off + from, off + head);
    } else {
      var n := |pos| - 1;
      SpacedInit(from, head, acc, pos);
      var m0 := LeftOut(off, from, pos[n], acc[..n], pos[..n]);
      var d := Delivery(off + pos[n], acc[n]);
      FilledLast(off + from, Deliveries(acc[..n], pos[..n], off), m0, d, off + head);
      DeliveriesLast(acc, pos, off);
      GapSize(m0, d.at + |d.batch|, off + head);
      m := m0 + Range(d.at + |d.batch|, off + head);
    }
  }

  lemma ExplainedOn(h: nat, h': nat, sent: seq<Delivery>, m: set<int>, more: seq<Delivery>, n: set<int>)
    requires Explained(h, sent, m) && Filled(h, h', more, n)
    ensures Explained(h', sent + more, m + n)
  {
    forall g | 0 <= g < h' ensures g in m + n || Delivered(sent + more, g) {
      if g !in m + n {
        DeliveredOn(sent, more, g);
      }
    }
  }

  // ---------------------------------------------------------------- during a life

  /** The log of all lives, when this one, begun with ledger `l`, has come to `log`. */
  function Whole(l: Ledger, log: seq<Payload>): seq<Payload>
    requires l.off <= |l.log|
  {
    l.log[..l.off] + log
  }

  /** A life begun with ledger `l` has come to `f`; every record before `h` of its log was accepted by
      now, or is among the `m` missing. */
  ghost predicate Living(l: Ledger, start: nat, f: Fields, h: nat, sent: seq<Delivery>, m: set<int>) {
    && l.off <= |l.log| && Sent(Whole(l, f.view.log), sent)
    && Explained(l.off + h, sent, m) && |m| <= l.shed + f.tally.lost && l.shed <= l.off
    && (l.Dropped(start) <= MAX_U64 ==> f.tally.start == l.Dropped(start))
    && f.tally.recovered == |l.log| - l.off
  }

  lemma LifeBegins(c: Codec, l: Ledger, start: nat, dir: seq<Segment>, disk: Sidecars, f: Fields)
    returns (m: set<int>)
    requires Accounted(c, l, start, dir, disk) && TallyInv(f)
    requires f.view.log == Flat(ScanAll(c, dir)) && f.tally.acked == 0 && f.tally.start == Recovered(disk).total
    requires f.tally.recovered == |f.view.log|
    ensures Living(l, start, f, f.view.Head(), l.sent, m)
  {
    SplitAt(l.log, l.off);
    m := MissingUpTo(l, f.view.Head());
  }

  lemma MissingUpTo(l: Ledger, h: nat) returns (m: set<int>)
    requires Explained(l.off, l.sent, l.missing)
    ensures Explained(l.off + h, l.sent, m) && |m| <= |l.missing| + h
  {
    m := l.missing + Range(l.off, l.off + h);
    GapSize(l.missing, l.off, l.off + h);
    ExplainedOn(l.off, l.off + h, l.sent, l.missing, [], Range(l.off, l.off + h));
    assert l.sent + [] == l.sent;
  }

  lemma SentGrows(log: seq<Payload>, log': seq<Payload>, sent: seq<Delivery>)
    requires Sent(log, sent) && log <= log'
    ensures Sent(log', sent)
  {
    forall i | 0 <= i < |sent| ensures IsRun(log', sent[i]) {
      var d := sent[i];
      assert IsRun(log, d);
      assert log'[d.at..d.at + |d.batch|] == log[d.at..d.at + |d.batch|];
    }
  }

  lemma ShiftedRun(pre: seq<Payload>, log: seq<Payload>, a: nat, b: seq<Payload>)
    requires IsRun(log, Delivery(a, b))
    ensures IsRun(pre + log, Delivery(|pre| + a, b))
  {
  }

  lemma SentJoins(pre: seq<Payload>, log: seq<Payload>, acc: seq<seq<Payload>>, pos: seq<nat>, sent: seq<Delivery>)
    requires Sent(pre + log, sent) && |acc| == |pos|
    requires forall i :: 0 <= i < |acc| ==> IsRun(log, Delivery(pos[i], acc[i]))
    ensures Sent(pre + log, sent + Deliveries(acc, pos, |pre|))
  {
    var all := sent + Deliveries(acc, pos, |pre|);
    forall i | 0 <= i < |all| ensures IsRun(pre + log, all[i]) {
      if i >= |sent| {
        ShiftedRun(pre, log, pos[i - |sent|], acc[i - |sent|]);
      }
    }
  }

  /** A life goes on: batches are accepted up to `h`, and records lost are counted. */
  lemma LifeGoesOn(l: Ledger, start: nat, f: Fields, g: Fields, h: nat, sent: seq<Delivery>, m: set<int>,
                   acc: seq<seq<Payload>>, pos: seq<nat>)
    returns (m': set<int>)
    requires Living(l, start, f, f.view.Head(), sent, m)
    requires f.view.log <= g.view.log && f.view.Head() <= h
    requires g.tally.start == f.tally.start && g.tally.recovered == f.tally.recovered
    requires Once(g.view.log, f.view.Head(), h, acc, pos)
    requires h - f.view.Head() <= Total(acc) + (g.tally.lost - f.tally.lost)
    ensures Living(l, start, g, h, sent + Deliveries(acc, pos, l.off), m')
  {
    SentOn(l, f.view.log, g.view.log, f.view.Head(), h, sent, acc, pos);
    var n := LeftOut(l.off, f.view.Head(), h, acc, pos);
    ExplainedOn(l.off + f.view.Head(), l.off + h, sent, m, Deliveries(acc, pos, l.off), n);
    JoinSize(m, n);
    m' := m + n;
  }

  lemma SentOn(l: Ledger, log: seq<Payload>, log': seq<Payload>, from: nat, head: nat, sent: seq<Delivery>,
               acc: seq<seq<Payload>>, pos: seq<nat>)
    requires l.off <= |l.log| && Sent(Whole(l, log), sent) && log <= log' && Once(log', from, head, acc, pos)
    ensures Sent(Whole(l, log'), sent + Deliveries(acc, pos, l.off))
  {
    SentGrows(Whole(l, log), Whole(l, log'), sent);
    SentJoins(l.log[..l.off], log', acc, pos, sent);
  }

  /** The same when records were appended and whole segments shed. */
  lemma LifeSheds(l: Ledger, start: nat, f: Fields, g: Fields, sent: seq<Delivery>, m: set<int>)
    returns (m': set<int>)
    requires Living(l, start, f, f.view.Head(), sent, m)
    requires f.view.log <= g.view.log && f.view.Head() <= g.view.Head()
    requires g.tally.start == f.tally.start && g.tally.recovered == f.tally.recovered
    requires g.view.Head() - f.view.Head() <= g.tally.lost - f.tally.lost
    ensures Living(l, start, g, g.view.Head(), sent, m')
  {
    var a, b := l.off + f.view.Head(), l.off + g.view.Head();
    SentGrows(Whole(l, f.view.log), Whole(l, g.view.log), sent);
    m' := m + Range(a, b);
    GapSize(m, a, b);
    ExplainedOn(a, b, sent, m, [], Range(a, b));
    assert sent + [] == sent;
  }

  // ---------------------------------------------------------------- the crash

  /** Where a crash hits: in the writes of a record; in the enforcement of the bounds, with so many segments
      dropped and the next one half persisted, at start-up or after a record was written in the same Append; in
      the persist of a refusal or a report; or in an ack after the server accepted the batch, with so many
      of its segments done. The round of that batch may have raced any appends and drops. */
  datatype Crash =
    | MidAppend(p: Payload, cut: nat, newFile: bool, now: int)
    | MidBounds(after: Option<Payload>, clock: Clock, drops: nat, done: Renames)
    | MidRefusal(done: Renames)
    | MidReport(reported: U64, done: Renames)
    | MidAck(segments: nat, round: Round)

  /** The files a crash leaves hold the records of a spool that had come to `g`. */
  ghost predicate FilesLeft(g: Fields, dir: seq<Segment>) {
    Ascending(dir) && OursOnly(g.codec, dir) && ScanAll(g.codec, dir) == g.view.recs
  }

  /** The sidecars it leaves count `extra` drops more than `g` had. */
  ghost predicate CountLeft(g: Fields, disk: Sidecars, extra: nat) {
    Lifetime(g.tally) + extra <= MAX_U64 ==> Recovered(disk).total == Lifetime(g.tally) + extra
  }

  ghost predicate Leaves(g: Fields, dir: seq<Segment>, disk: Sidecars, extra: nat) {
    Inv(g) && FilesLeft(g, dir) && CountLeft(g, disk, extra)
  }

  /** The ledger after it. */
  ghost function After(l: Ledger, g: Fields, sent: seq<Delivery>, m: set<int>, extra: nat): Ledger
    requires l.off <= |l.log|
  {
    Ledger(Whole(l, g.view.log), l.off + g.view.base, sent, m,
           l.found, l.offers + g.tally.offered + extra, l.shed + g.tally.shed)
  }

  lemma DropBoth<T>(a: seq<T>, b: seq<T>, k: nat)
    requires k <= |b|
    ensures (a + b)[|a| + k..] == b[k..]
  {
  }

  lemma LifeEnds(l: Ledger, start: nat, g: Fields, h: nat, sent: seq<Delivery>, m: set<int>,
                 dir: seq<Segment>, disk: Sidecars, extra: nat)
    requires Living(l, start, g, h, sent, m) && g.view.base <= h && Leaves(g, dir, disk, extra)
    ensures Accounted(g.codec, After(l, g, sent, m, extra), start, dir, disk)
  {
    var l' := After(l, g, sent, m, extra);
    EndsOnDisk(l.log[..l.off], g.view);
    EndsCounted(l, g, start, sent, m, disk, extra);
    assert Explained(l'.off, sent, m);
  }

  lemma EndsCounted(l: Ledger, g: Fields, start: nat, sent: seq<Delivery>, m: set<int>, disk: Sidecars, extra: nat)
    requires TallyInv(g) && CountLeft(g, disk, extra)
    requires l.off <= |l.log| && |m| <= l.shed + g.tally.lost && l.shed <= l.off
    requires l.Dropped(start) <= MAX_U64 ==> g.tally.start == l.Dropped(start)
    requires g.tally.recovered == |l.log| - l.off
    ensures var l' := After(l, g, sent, m, extra);
      && |m| <= l'.shed <= l'.off
      && (l'.Dropped(start) <= MAX_U64 ==> Recovered(disk).total == l'.Dropped(start))
  {
    var l' := After(l, g, sent, m, extra);
    assert |l'.log| == l.off + |g.view.log|;
    assert l'.Dropped(start) == l.Dropped(start) + g.tally.unspoolable + g.tally.shed + extra;
  }

  lemma EndsOnDisk(pre: seq<Payload>, v: View)
    requires LogOk(v)
    ensures Flat(v.recs) == (pre + v.log)[|pre| + v.base..]
  {
    DropBoth(pre, v.log, v.base);
  }

  lemma CleanLeft(g: Fields)
    requires FilesInv(g) && NamesInv(g)
    ensures FilesLeft(g, g.files)
  {
    forall i | 0 <= i < |g.files| ensures Scan(g.codec, g.files[i].bytes) == g.view.recs[i] {
      ScanEncode(g.codec, g.view.recs[i]);
    }
    assert ScanAll(g.codec, g.files) == g.view.recs;
  }

  lemma SyncedLeft(g: Fields)
    requires TallyInv(g)
    ensures CountLeft(g, g.sidecars, 0)
  {
    if Lifetime(g.tally) <= MAX_U64 {
      SyncedRecovers(g.sidecars);
    }
  }

  function TornFiles(files: seq<Segment>, tail: Bytes): (dir: seq<Segment>)
    requires files != []
    ensures |dir| == |files| && forall i :: 0 <= i < |files| ==> dir[i].id == files[i].id
  {
    var n := |files| - 1;
    files[..n] + [files[n].(bytes := files[n].bytes + tail)]
  }

  lemma TornIsTorn(c: Codec, files: seq<Segment>, recs: seq<seq<Payload>>, p: Payload, tail: Bytes)
    requires files != [] && Clean(c, files, recs) && TornFrame(c, p, tail)
    ensures TornAppend(c, recs, TornFiles(files, tail), p, tail)
  {
  }

  lemma TornLeft(g: Fields, p: Payload, tail: Bytes)
    requires FilesInv(g) && NamesInv(g) && g.files != [] && TornFrame(g.codec, p, tail)
    ensures FilesLeft(g, TornFiles(g.files, tail))
  {
    TornIsTorn(g.codec, g.files, g.view.recs, p, tail);
    TornAppendRecovers(g.codec, g.view.recs, TornFiles(g.files, tail), p, tail);
  }

  /** Part of a record at the end of the newest segment. */
  method Tear(g: Fields, p: Payload, cut: nat) returns (dir: seq<Segment>)
    requires FilesInv(g) && NamesInv(g) && g.files != [] && |p| <= MAX_RECORD_BYTES
    ensures FilesLeft(g, dir)
  {
    var frame := Frame(g.codec, p);
    var tail := frame[..if cut < |frame| then cut else |frame| - 1];
    dir := TornFiles(g.files, tail);
    TornLeft(g, p, tail);
  }

  lemma CutRefusalLeft(g: Fields, done: Renames)
    requires TallyInv(g)
    ensures CountLeft(g, Persisted(g.sidecars, Dropped(g.drops, 1), done), if done == 0 then 0 else 1)
  {
    if done == 0 {
      SyncedLeft(g);
    } else if Lifetime(g.tally) + 1 <= MAX_U64 {
      DropCut(g.sidecars, 1, done);
    }
  }

  lemma CutReportLeft(g: Fields, reported: U64, done: Renames)
    requires TallyInv(g)
    ensures CountLeft(g, Persisted(g.sidecars, Acknowledged(g.drops, reported), done), 0)
  {
    if Lifetime(g.tally) <= MAX_U64 {
      AckCut(g.sidecars, reported, done);
    }
  }

  /** The unlinked segment is counted once the first rename landed. */
  lemma CutShedLeft(f: Fields, done: Renames)
    requires TallyInv(f) && f.files != [] && f.view.recs != [] && done >= 1
    ensures CountLeft(DropOldest(f), Persisted(f.sidecars, Dropped(f.drops, AsU64(|f.view.recs[0]|)), done), 0)
  {
    var n := |f.view.recs[0]|;
    if Lifetime(f.tally) + n <= MAX_U64 {
      DropCut(f.sidecars, n, done);
    }
  }

  lemma AckReach(s: Fields, r: Fields, k: nat)
    requires Inv(s) && Inv(r) && Acking(s, r, k)
    ensures r.view.base <= Bigger(s.view.Head(), s.view.upto)
  {
  }

  /** The results spooled in the operation a crash cut. */
  function SpooledLast(crash: Crash): seq<Payload> {
    match crash
    case MidBounds(p, _, _, _) => Fits1(p)
    case MidAck(_, round) => SpooledDuring(round)
    case _ => []
  }

  /** The results offered in it, as far as they left a trace. */
  function OffersLast(crash: Crash): nat {
    match crash
    case MidBounds(p, _, _, _) => |Fits1(p)|
    case MidRefusal(done) => if done == 0 then 0 else 1
    case MidAck(_, round) => OffersDuring(round)
    case _ => 0
  }

  /** From `f` to `g` results were appended and whole segments shed. */
  ghost predicate Sheds(f: Fields, g: Fields, spooled: seq<Payload>) {
    && g.codec == f.codec && g.view.log == f.view.log + spooled && f.view.Head() <= g.view.Head()
    && g.tally.start == f.tally.start && g.tally.recovered == f.tally.recovered
    && g.view.Head() - f.view.Head() == g.tally.lost - f.tally.lost
    && g.tally.offered == f.tally.offered + |spooled|
  }

  /** A state the crash may hit, its files and sidecars. Cut short, a drop by the bounds has got at least
      its first rename done. */
  method CrashAt(f: Fields, c: Crash) returns (dir: seq<Segment>, disk: Sidecars, ghost g: Fields, ghost extra: nat)
    requires Inv(f) && Overestimates(f) && !c.MidAck?
    requires c.MidBounds? && c.after.Some? ==> f.codec.parses(c.after.value)
    ensures Sheds(f, g, SpooledLast(c)) && Leaves(g, dir, disk, extra)
    ensures extra + |SpooledLast(c)| == OffersLast(c)
  {
    dir, disk, g, extra := f.files, f.sidecars, f, 0;
    match c {
      case MidAppend(p, cut, newFile, now) =>
        dir, g := CrashInAppend(f, p, cut, newFile, now);
        SyncedLeft(g);
      case MidBounds(p, clock, drops, done) =>
        dir, disk, g := CrashInBounds(f, p, clock, drops, done);
      case MidRefusal(done) =>
        CleanLeft(f);
        CutRefusalLeft(f, done);
        disk, extra := Persisted(f.sidecars, Dropped(f.drops, 1), done), if done == 0 then 0 else 1;
      case MidReport(reported, done) =>
        CleanLeft(f);
        CutReportLeft(f, reported, done);
        disk := Persisted(f.sidecars, Acknowledged(f.drops, reported), done);
    }
  }

  method CrashInBounds(f: Fields, p: Option<Payload>, clock: Clock, drops: nat, done: Renames)
    returns (dir: seq<Segment>, disk: Sidecars, ghost g: Fields)
    requires Inv(f) && Overestimates(f) && (p.Some? ==> f.codec.parses(p.value))
    ensures Sheds(f, g, Fits1(p)) && Leaves(g, dir, disk, 0)
  {
    var w := f;
    if |Fits1(p)| > 0 {
      assert [p.value][0] == p.value;
      w := AppendRecord(f, p.value, clock);
    }
    var r := DropSome(w, drops);
    dir, disk, g := r.files, r.sidecars, r;
    if r.files != [] && done >= 1 {
      dir, disk, g := CrashInShed(r, done);
      DropOldestOnlySheds(w, r);
    } else {
      CleanLeft(r);
      SyncedLeft(r);
    }
    ShedsAfter(f, w, g, Fits1(p));
  }

  /** The oldest `n` segments go, whole and counted. */
  method DropSome(s: Fields, n: nat) returns (r: Fields)
    requires Inv(s)
    ensures Inv(r) && OnlySheds(s, r)
  {
    r := s;
    for k := 0 to n
      invariant Inv(r) && OnlySheds(s, r)
    {
      if r.files == [] { return; }
      DropOldestInv(r);
      DropOldestOnlySheds(s, r);
      r := DropHead(r);
    }
  }

  lemma ShedsAfter(f: Fields, w: Fields, g: Fields, spooled: seq<Payload>)
    requires OnlySheds(w, g) && (if spooled == [] then w == f else |spooled| == 1 && Appended(f, w, spooled[0]))
    requires w.codec == f.codec
    ensures Sheds(f, g, spooled)
  {
    if spooled != [] {
      assert spooled == [spooled[0]];
    }
  }

  method CrashInAppend(f: Fields, p: Payload, cut: nat, newFile: bool, now: int)
    returns (dir: seq<Segment>, ghost g: Fields)
    requires Inv(f)
    ensures g.codec == f.codec && g.view.log == f.view.log && g.view.Head() == f.view.Head()
    ensures g.tally == f.tally && Inv(g) && FilesLeft(g, dir)
  {
    var a := f;
    if newFile || !f.active {
      OpenedInv(f, now);
      a := OpenActive(f, now);
    }
    g := a;
    if |p| <= MAX_RECORD_BYTES {
      dir := Tear(a, p, cut);
    } else {
      dir := a.files;
      CleanLeft(a);
    }
  }

  method CrashInShed(f: Fields, done: Renames) returns (dir: seq<Segment>, disk: Sidecars, ghost g: Fields)
    requires Inv(f) && f.files != [] && done >= 1
    ensures g == DropOldest(f) && f.view.Head() <= g.view.Head() && Leaves(g, dir, disk, 0)
  {
    g := DropOldest(f);
    DropOldestInv(f);
    var records := CountRecords(f.files[0].bytes);
    CountEncode(f.codec, f.view.recs[0]);
    dir, disk := f.files[1..], Persisted(f.sidecars, Dropped(f.drops, AsU64(records)), done);
    CleanLeft(g);
    CutShedLeft(f, done);
  }

  method CutAck(s: Fields, segments: nat) returns (dir: seq<Segment>, disk: Sidecars, ghost r: Fields)
    requires Inv(s)
    ensures r.codec == s.codec && r.view.log == s.view.log && r.view.base <= Bigger(s.view.Head(), s.view.upto)
    ensures r.tally.start == s.tally.start && r.tally.lost == s.tally.lost && Leaves(r, dir, disk, 0)
    ensures r.tally.offered == s.tally.offered && r.tally.recovered == s.tally.recovered
    ensures r.tally.unspoolable == s.tally.unspoolable && r.tally.shed == s.tally.shed
  {
    var n := if segments < |s.consumed| then segments else |s.consumed|;
    var cut := ConsumeUpTo(s, n);
    r := cut;
    AckReach(s, r, n);
    dir, disk := cut.files, cut.sidecars;
    CleanLeft(r);
    SyncedLeft(r);
  }

  // ---------------------------------------------------------------- life after life

  datatype Life = Life(clock: Clock, rounds: seq<Round>, crash: Crash)

  predicate LivesMarshalled(c: Codec, lives: seq<Life>) {
    forall i :: 0 <= i < |lives| ==> LifeMarshalled(c, lives[i])
  }

  predicate LifeMarshalled(c: Codec, life: Life) {
    RoundsMarshalled(c, life.rounds) && CrashMarshalled(c, life.crash)
  }

  predicate CrashMarshalled(c: Codec, crash: Crash) {
    && (crash.MidAck? ==> RoundMarshalled(c, crash.round))
    && (crash.MidBounds? && crash.after.Some? ==> c.parses(crash.after.value))
  }

  function OffersInLife(life: Life): nat {
    OffersIn(life.rounds) + OffersLast(life.crash)
  }

  function OffersOver(lives: seq<Life>): nat {
    if lives == [] then 0 else OffersOver(lives[..|lives| - 1]) + OffersInLife(lives[|lives| - 1])
  }

  /** The batches the server accepts in a life, the one a crash left half acknowledged among them. */
  function AcceptsInLife(life: Life): nat {
    AcceptsIn(life.rounds) + if life.crash.MidAck? then 1 else 0
  }

  function AcceptsOver(lives: seq<Life>): nat {
    if lives == [] then 0 else AcceptsOver(lives[..|lives| - 1]) + AcceptsInLife(lives[|lives| - 1])
  }

  function SpooledInLife(life: Life): seq<Payload> {
    SpooledIn(life.rounds) + SpooledLast(life.crash)
  }

  function SpooledOver(lives: seq<Life>): seq<Payload> {
    if lives == [] then [] else SpooledOver(lives[..|lives| - 1]) + SpooledInLife(lives[|lives| - 1])
  }

  /** These deliveries are of the batches the server accepted. */
  ghost predicate Lists(sent: seq<Delivery>, accepted: seq<seq<Payload>>) {
    |sent| == |accepted| && forall i :: 0 <= i < |accepted| ==> sent[i].batch == accepted[i]
  }

  lemma ListsOn(sent: seq<Delivery>, accepted: seq<seq<Payload>>, more: seq<Delivery>, acc: seq<seq<Payload>>)
    requires Lists(sent, accepted) && Lists(more, acc)
    ensures Lists(sent + more, accepted + acc)
  {
  }

  lemma WholeLog(l: Ledger, a: seq<Payload>, b: seq<Payload>)
    requires l.off <= |l.log|
    ensures Whole(l, l.log[l.off..] + a + b) == l.log + (a + b)
  {
    ConcatAssoc(l.log[l.off..], a, b);
    ConcatAssoc(l.log[..l.off], l.log[l.off..], a + b);
    SplitAt(l.log, l.off);
  }

  /** Opens the spool and pushes for a while. */
  method Push(c: Codec, maxBytes: nat, maxAge: int, dir: seq<Segment>, disk: Sidecars, life: Life,
              ghost l: Ledger, ghost start: nat)
    returns (sp: Spool, acc: seq<seq<Payload>>, ghost sent: seq<Delivery>, ghost m: set<int>)
    requires Accounted(c, l, start, dir, disk) && RoundsMarshalled(c, life.rounds)
    ensures fresh(sp) && sp.Valid() && sp.f.codec == c
    ensures Living(l, start, sp.f, sp.f.view.Head(), l.sent + sent, m) && Lists(sent, acc)
    ensures sp.f.view.log == l.log[l.off..] + SpooledIn(life.rounds)
    ensures sp.f.tally.offered == OffersIn(life.rounds) && |acc| == AcceptsIn(life.rounds)
  {
    sp := new Spool.Open(c, maxBytes, maxAge, dir, disk, life.clock);
    ghost var f := sp.f;
    m := LifeBegins(c, l, start, dir, disk, f);
    ghost var pos;
    acc, pos := PushRounds(sp, life.rounds);
    m := LifeGoesOn(l, start, f, sp.f, sp.f.view.Head(), l.sent, m, acc, pos);
    sent := Deliveries(acc, pos, l.off);
  }

  /** The crash that ends the life. */
  method End(sp: Spool, crash: Crash, ghost l: Ledger, ghost start: nat, ghost sent: seq<Delivery>, ghost m: set<int>)
    returns (dir: seq<Segment>, disk: Sidecars, acc: seq<seq<Payload>>, ghost l': Ledger, ghost more: seq<Delivery>)
    requires sp.Valid() && Living(l, start, sp.f, sp.f.view.Head(), sent, m)
    requires CrashMarshalled(sp.f.codec, crash)
    modifies sp
    ensures Accounted(old(sp.f).codec, l', start, dir, disk) && Lists(more, acc)
    ensures l'.sent == sent + more && l'.log == Whole(l, old(sp.f).view.log + SpooledLast(crash))
    ensures l'.found == l.found && l'.offers == l.offers + old(sp.f).tally.offered + OffersLast(crash)
    ensures |acc| == if crash.MidAck? then 1 else 0
  {
    if crash.MidAck? {
      ghost var f := sp.f;
      ghost var seen;
      var batch, total, unacked;
      batch, total, unacked, seen := UpToAck(sp, crash.round.(accepts := true));
      acc, more := [batch], [Delivery(l.off + f.view.Head(), batch)];
      dir, disk, l' := EndInAck(f, sp.f, batch, SpooledLast(crash), OffersLast(crash), crash.segments,
                                l, start, sent, m);
    } else {
      dir, disk, l' := EndElsewhere(sp.f, crash, l, start, sent, m);
      acc, more := [], [];
    }
  }

  /** The batch is accepted, and its ack cut after some segments. */
  method EndInAck(ghost f: Fields, g: Fields, batch: seq<Payload>, ghost spooled: seq<Payload>, ghost offers: nat,
                  segments: nat, ghost l: Ledger, ghost start: nat, ghost sent: seq<Delivery>, ghost m: set<int>)
    returns (dir: seq<Segment>, disk: Sidecars, ghost l': Ledger)
    requires Inv(f) && Inv(g) && HandsOut(f, g, batch, spooled, offers)
    requires Living(l, start, f, f.view.Head(), sent, m)
    ensures Accounted(f.codec, l', start, dir, disk) && l'.log == Whole(l, f.view.log + spooled)
    ensures l'.found == l.found && l'.offers == l.offers + f.tally.offered + offers
    ensures l'.sent == sent + [Delivery(l.off + f.view.Head(), batch)]
  {
    ghost var m' := AcceptedLife(l, start, f, g, sent, m, batch, spooled, offers);
    dir, disk, l' := EndCut(g, segments, l, start, sent + [Delivery(l.off + f.view.Head(), batch)], m');
  }

  method EndCut(s: Fields, segments: nat, ghost l: Ledger, ghost start: nat, ghost sent: seq<Delivery>,
                ghost m: set<int>)
    returns (dir: seq<Segment>, disk: Sidecars, ghost l': Ledger)
    requires Inv(s) && Living(l, start, s, Bigger(s.view.Head(), s.view.upto), sent, m)
    ensures Accounted(s.codec, l', start, dir, disk) && l'.sent == sent && l'.log == Whole(l, s.view.log)
    ensures l'.found == l.found && l'.offers == l.offers + s.tally.offered
  {
    ghost var h, r := Bigger(s.view.Head(), s.view.upto), s;
    dir, disk, r := CutAck(s, segments);
    SameLife(l, start, s, r, h, sent, m);
    LifeEnds(l, start, r, h, sent, m, dir, disk, 0);
    l' := After(l, r, sent, m, 0);
  }

  /** A batch accepted, whatever was appended and dropped since it was handed out. */
  lemma AcceptedLife(l: Ledger, start: nat, f: Fields, g: Fields, sent: seq<Delivery>, m: set<int>,
                     batch: seq<Payload>, spooled: seq<Payload>, offers: nat) returns (m': set<int>)
    requires FilesInv(f) && CursorInv(f) && TallyInv(f) && TallyInv(g)
    requires Living(l, start, f, f.view.Head(), sent, m) && HandsOut(f, g, batch, spooled, offers)
    ensures Living(l, start, g, Bigger(g.view.Head(), g.view.upto),
                   sent + [Delivery(l.off + f.view.Head(), batch)], m')
  {
    var h := Bigger(g.view.Head(), g.view.upto);
    HandedOnce(f, g, h, batch);
    m' := LifeGoesOn(l, start, f, g, h, sent, m, [batch], [f.view.Head()]);
    assert Deliveries([batch], [f.view.Head()], l.off) == [Delivery(l.off + f.view.Head(), batch)];
  }

  lemma HandedOnce(f: Fields, g: Fields, h: nat, batch: seq<Payload>)
    requires FilesInv(f) && CursorInv(f) && batch == Take(f.view.Queue(), BATCH_SIZE)
    requires f.view.log <= g.view.log && f.view.Head() + |batch| <= h
    ensures Once(g.view.log, f.view.Head(), h, [batch], [f.view.Head()]) && Total([batch]) == |batch|
  {
    HeadInLog(f);
    TakenIsRun(f.view, BATCH_SIZE, batch);
    OneBatch(f.view.log, g.view.log, f.view.Head(), h, batch);
  }

  lemma OneBatch(log: seq<Payload>, log': seq<Payload>, from: nat, head: nat, b: seq<Payload>)
    requires log <= log' && from + |b| <= |log| && b == log[from..from + |b|] && from + |b| <= head
    requires |b| <= BATCH_SIZE
    ensures Once(log', from, head, [b], [from]) && Total([b]) == |b|
  {
    assert log'[from..from + |b|] == log[from..from + |b|];
    assert [b][..0] == [];
  }

  lemma SameLife(l: Ledger, start: nat, f: Fields, g: Fields, h: nat, sent: seq<Delivery>, m: set<int>)
    requires Living(l, start, f, h, sent, m) && g.view.log == f.view.log
    requires g.tally.start == f.tally.start && g.tally.lost == f.tally.lost && g.tally.recovered == f.tally.recovered
    ensures Living(l, start, g, h, sent, m)
  {
  }

  method EndElsewhere(f: Fields, crash: Crash, ghost l: Ledger, ghost start: nat, ghost sent: seq<Delivery>,
                      ghost m: set<int>)
    returns (dir: seq<Segment>, disk: Sidecars, ghost l': Ledger)
    requires Inv(f) && Overestimates(f) && !crash.MidAck? && CrashMarshalled(f.codec, crash)
    requires Living(l, start, f, f.view.Head(), sent, m)
    ensures Accounted(f.codec, l', start, dir, disk) && l'.sent == sent
    ensures l'.log == Whole(l, f.view.log + SpooledLast(crash))
    ensures l'.found == l.found && l'.offers == l.offers + f.tally.offered + OffersLast(crash)
  {
    ghost var g, extra;
    dir, disk, g, extra := CrashAt(f, crash);
    ghost var m' := LifeSheds(l, start, f, g, sent, m);
    LifeEnds(l, start, g, g.view.Head(), sent, m', dir, disk, extra);
    l' := After(l, g, sent, m', extra);
  }

  /** One life. */
  method Live(c: Codec, maxBytes: nat, maxAge: int, dir: seq<Segment>, disk: Sidecars, life: Life,
              accepted: seq<seq<Payload>>, ghost l: Ledger, ghost start: nat)
    returns (dir': seq<Segment>, disk': Sidecars, accepted': seq<seq<Payload>>, ghost l': Ledger)
    requires Accounted(c, l, start, dir, disk) && Lists(l.sent, accepted) && LifeMarshalled(c, life)
    ensures Accounted(c, l', start, dir', disk') && Lists(l'.sent, accepted')
    ensures l'.log == l.log + SpooledInLife(life)
    ensures l'.found == l.found && l'.offers == l.offers + OffersInLife(life)
    ensures |accepted'| == |accepted| + AcceptsInLife(life)
  {
    ghost var sent, m, more;
    var sp, acc, last;
    sp, acc, sent, m := Push(c, maxBytes, maxAge, dir, disk, life, l, start);
    WholeLog(l, SpooledIn(life.rounds), SpooledLast(life.crash));
    dir', disk', last, l', more := End(sp, life.crash, l, start, l.sent + sent, m);
    ListsOn(l.sent, accepted, sent, acc);
    ListsOn(l.sent + sent, accepted + acc, more, last);
    accepted' := accepted + acc + last;
  }

  /** The ledger of a directory nobody has looked at yet. */
  ghost function Untouched(c: Codec, dir: seq<Segment>): Ledger {
    var log := Flat(ScanAll(c, dir));
    Ledger(log, 0, [], {}, |log|, 0, 0)
  }

  /** Of all the records `log`, the first `found` of them found at first, each is on disk, in an accepted
      batch, or among records no more than the bounds dropped; and the drop total, which was `start`, counts
      those and the refused ones of `offers` results. */
  ghost predicate AllAccounted(c: Codec, log: seq<Payload>, found: nat, offers: nat, start: nat,
                               dir: seq<Segment>, disk: Sidecars, accepted: seq<seq<Payload>>) {
    exists l: Ledger :: l.log == log && l.found == found && l.offers == offers &&
                        Lists(l.sent, accepted) && Accounted(c, l, start, dir, disk)
  }

  /** However often the agent crashes and restarts, wherever in an append, the enforcement of the bounds, a
      persist or an ack it is hit, and whatever pushes fail: every record found at first or spooled in some
      life is on disk, in a batch the server accepted, or among records that are no more than the bounds
      dropped; and the drop total on disk counts those and the refused results exactly. */
  method Lives(c: Codec, maxBytes: nat, maxAge: int, dir0: seq<Segment>, disk0: Sidecars, lives: seq<Life>)
    returns (dir: seq<Segment>, disk: Sidecars, accepted: seq<seq<Payload>>)
    requires Ascending(dir0) && OursOnly(c, dir0) && LivesMarshalled(c, lives)
    ensures var found := Flat(ScanAll(c, dir0));
      AllAccounted(c, found + SpooledOver(lives), |found|, OffersOver(lives), Recovered(disk0).total,
                   dir, disk, accepted)
    ensures |accepted| == AcceptsOver(lives)
  {
    dir, disk, accepted := dir0, disk0, [];
    ghost var l, start := Untouched(c, dir0), Recovered(disk0).total;
    ghost var found := l.log;
    assert l.log[0..] == l.log;
    for i := 0 to |lives|
      invariant Accounted(c, l, start, dir, disk) && Lists(l.sent, accepted)
      invariant l.log == found + SpooledOver(lives[..i]) && l.found == |found| && l.offers == OffersOver(lives[..i])
      invariant |accepted| == AcceptsOver(lives[..i])
    {
      SpooledOverStep(found, lives, i);
      assert lives[..i + 1][..i] == lives[..i];
      dir, disk, accepted, l := Live(c, maxBytes, maxAge, dir, disk, lives[i], accepted, l, start);
    }
    assert lives[..|lives|] == lives;
  }

  /** Unless 2^64 drops are in reach, the drop total on disk has grown by the refused results and by at least
      as many as there are records missing: nothing is lost uncounted. */
  lemma LostAreCounted(c: Codec, log: seq<Payload>, found: nat, offers: nat, start: nat,
                       dir: seq<Segment>, disk: Sidecars, accepted: seq<seq<Payload>>)
    requires AllAccounted(c, log, found, offers, start, dir, disk, accepted)
    requires start + found + offers <= MAX_U64
    ensures exists l: Ledger ::
      && l.log == log && Lists(l.sent, accepted) && Accounted(c, l, start, dir, disk)
      && |l.missing| <= Recovered(disk).total - start - (offers + found - |log|) <= l.off
  {
    var l: Ledger :| l.log == log && l.found == found && l.offers == offers &&
                     Lists(l.sent, accepted) && Accounted(c, l, start, dir, disk);
    assert l.Dropped(start) <= MAX_U64;
  }

  lemma SpooledOverStep(log: seq<Payload>, lives: seq<Life>, i: nat)
    requires i < |lives|
    ensures log + SpooledOver(lives[..i + 1]) == log + SpooledOver(lives[..i]) + SpooledInLife(lives[i])
  {
    assert lives[..i + 1][..i] == lives[..i];
    ConcatAssoc(log, SpooledOver(lives[..i]), SpooledInLife(lives[i]));
  }
}
