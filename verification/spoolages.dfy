/** How old a segment can get: the age bound, between the checks the cadence makes. */
module SpoolAges {
  import opened Wrappers
  import opened Sequences
  import opened Frames
  import opened Counters
  import opened SpoolSpec
  import opened SpoolQueue
  import opened SpoolRuns

  const MINUTE: int := 60000000000

  /** Segments were last written in the order of their numbers. */
  predicate InTimeOrder(files: seq<Segment>) {
    forall i, j :: 0 <= i <= j < |files| ==> files[i].mod <= files[j].mod
  }

  /** No segment was out of age at `t`, the reading the last check of the bounds decided by. */
  ghost predicate Young(f: Fields, t: int, maxAge: int) {
    && InTimeOrder(f.files) && t <= f.lastBoundsCheck
    && (forall i :: 0 <= i < |f.files| ==> t - f.files[i].mod <= maxAge)
  }

  /** The readings never go back, and successive ones are at most `gap` apart. */
  ghost predicate Steady(clock: Clock, gap: int) {
    && (forall i: nat, j: nat :: i <= j ==> clock(i) <= clock(j))
    && (forall i: nat, j: nat :: j == i + 1 ==> clock(j) - clock(i) <= gap)
  }

  /** Every reading of `c` comes before every one of `d`. */
  ghost predicate Precedes(c: Clock, d: Clock) {
    forall a: nat, b: nat :: c(a) <= d(b)
  }

  /** All that is on file happened before these readings. */
  ghost predicate Before(f: Fields, clock: Clock) {
    && (forall a: nat :: f.lastBoundsCheck <= clock(a))
    && (forall i, a: nat :: 0 <= i < |f.files| ==> f.files[i].mod <= clock(a))
  }

  /** Every segment is at most this old at `now`. */
  predicate AgeAtMost(files: seq<Segment>, now: int, age: int) {
    forall i :: 0 <= i < |files| ==> now - files[i].mod <= age
  }

  lemma TouchedInOrder(s: seq<Segment>, w: seq<Segment>, r: seq<Segment>, t: int)
    requires InTimeOrder(s) && Touched(s, w, t) && Suffix(r, w)
    requires forall i :: 0 <= i < |s| ==> s[i].mod <= t
    ensures InTimeOrder(r)
    ensures forall i :: 0 <= i < |r| ==> r[i].mod == t || exists j :: 0 <= j < |s| && r[i] == s[j]
  {
    forall i, j | 0 <= i <= j < |w| ensures w[i].mod <= w[j].mod {
      if j < |w| - 1 {
        assert w[i] == s[i] && w[j] == s[j];
      } else if i < j {
        assert w[i] == s[i];
      }
    }
    forall i | 0 <= i < |r| ensures r[i].mod == t || exists j :: 0 <= j < |s| && r[i] == s[j] {
      var k := |w| - |r| + i;
      assert r[i] == w[k];
      if k < |w| - 1 {
        assert w[k] == s[k];
      }
    }
  }

  /** After an append that did not check, nothing is older than the bound, the minute it may take until the
      next check, and the time a check takes between its two last readings. */
  lemma UncheckedYoung(s: Fields, r: Fields, clock: Clock, t: int, maxAge: int, gap: int)
    requires Young(s, t, maxAge) && s.lastBoundsCheck - t <= gap && maxAge >= 0
    requires Steady(clock, gap) && Before(s, clock) && AgedBy(s.files, r.files, clock(2))
    requires r.lastBoundsCheck == s.lastBoundsCheck && clock(3) - s.lastBoundsCheck < MINUTE
    ensures Young(r, t, maxAge) && AgeAtMost(r.files, clock(3), maxAge + MINUTE + gap - 1)
  {
    var w :| Touched(s.files, w, clock(2)) && Suffix(r.files, w);
    TouchedInOrder(s.files, w, r.files, clock(2));
    assert clock(2) <= clock(3) && t <= clock(2);
  }

  lemma CheckedYoung(r: Fields, maxBytes: nat, maxAge: int, clock: Clock, i: nat, gap: int)
    requires InTimeOrder(r.files) && Steady(clock, gap) && CheckedAt(r, maxBytes, maxAge, clock, i)
    ensures Young(r, clock(i), maxAge) && r.lastBoundsCheck - clock(i) <= gap
    ensures forall k: nat :: k <= i ==> AgeAtMost(r.files, clock(k), maxAge)
  {
  }

  lemma AppendedYoung(s: Fields, r: Fields, n: nat, maxBytes: nat, maxAge: int, clock: Clock, t: int, gap: int)
    returns (t': int)
    requires Young(s, t, maxAge) && s.lastBoundsCheck - t <= gap && maxAge >= 0 && gap >= 0
    requires Steady(clock, gap) && Before(s, clock) && AgedBy(s.files, r.files, clock(2))
    requires Bounded(s, r, n, maxBytes, maxAge, clock)
    ensures Young(r, t', maxAge) && r.lastBoundsCheck - t' <= gap
    ensures AgeAtMost(r.files, clock(3), maxAge + MINUTE + gap - 1)
  {
    if s.totalBytes + n + RECORD_OVERHEAD <= maxBytes && NotDue(clock(3) - s.lastBoundsCheck, maxAge) {
      UncheckedYoung(s, r, clock, t, maxAge, gap);
      t' := t;
    } else {
      t' := CheckedAppendYoung(s, r, maxBytes, maxAge, clock, |s.files| + (r.nextSeq - s.nextSeq), gap);
    }
  }

  lemma CheckedAppendYoung(s: Fields, r: Fields, maxBytes: nat, maxAge: int, clock: Clock, n: nat, gap: int)
    returns (t: int)
    requires InTimeOrder(s.files) && Steady(clock, gap) && Before(s, clock) && AgedBy(s.files, r.files, clock(2))
    requires CheckedFrom(r, maxBytes, maxAge, clock, 4, n) && gap >= 0
    ensures Young(r, t, maxAge) && r.lastBoundsCheck - t <= gap
    ensures AgeAtMost(r.files, clock(3), maxAge + MINUTE + gap - 1)
  {
    var i: nat :| 4 <= i && |r.files| + (i - 4) == n && CheckedAt(r, maxBytes, maxAge, clock, i);
    var w :| Touched(s.files, w, clock(2)) && Suffix(r.files, w);
    TouchedInOrder(s.files, w, r.files, clock(2));
    CheckedYoung(r, maxBytes, maxAge, clock, i, gap);
    assert AgeAtMost(r.files, clock(3), maxAge);
    t := clock(i);
  }

  /** A cadence of a minute, with `gap` between the two last readings of a check, does let a segment get that
      old: one that is of age exactly at the check, under an append just short of a minute later. */
  method AgeBoundIsMet(c: Codec, maxBytes: nat, maxAge: int, gap: nat) returns (s: Fields, r: Fields, clock: Clock)
    requires c.parses([]) && maxAge >= 2 * MINUTE && maxBytes >= RECORD_OVERHEAD
    ensures Inv(s) && Young(s, maxAge, maxAge) && s.lastBoundsCheck - maxAge == gap
    ensures Steady(clock, gap) && Before(s, clock)
    ensures Inv(r) && Appended(s, r, []) && Bounded(s, r, 0, maxBytes, maxAge, clock)
    ensures r.files != [] && clock(3) - r.files[0].mod == maxAge + MINUTE + gap - 1
  {
    var last := maxAge + gap;
    clock := Always(last + MINUTE - 1);
    s := TwoEmpty(c, last, clock);
    var p: Payload := [];
    assert [p][0] == p;
    r := SpoolRecord(s, p, maxBytes, maxAge, clock);
    TwoEmptyAge(s, r, maxBytes, maxAge, gap);
  }

  function Always(now: int): Clock {
    _ => now
  }

  /** A spool of two empty segments written at 0 and last checked at `last`. */
  method TwoEmpty(c: Codec, last: int, clock: Clock) returns (s: Fields)
    ensures Inv(s) && Overestimates(s) && s.codec == c && s.totalBytes == 0 && s.lastBoundsCheck == last
    ensures s.files == [Segment(1, [], 0), Segment(2, [], 0)]
  {
    var dir := [Segment(1, [], 0), Segment(2, [], 0)];
    EmptyDirectory(c, dir);
    s := Recover(c, dir, NO_SIDECARS, clock);
    EmptyStays(c, dir, s.files, clock);
    CheckedInv(s, 0, last);
    s := s.(totalBytes := 0, lastBoundsCheck := last);
  }

  lemma TwoEmptyAge(s: Fields, r: Fields, maxBytes: nat, maxAge: int, gap: nat)
    requires s.files == [Segment(1, [], 0), Segment(2, [], 0)] && s.totalBytes == 0
    requires s.lastBoundsCheck == maxAge + gap && maxAge >= 2 * MINUTE && maxBytes >= RECORD_OVERHEAD
    requires Bounded(s, r, 0, maxBytes, maxAge, Always(maxAge + gap + MINUTE - 1))
    ensures Young(s, maxAge, maxAge)
    ensures var clock := Always(maxAge + gap + MINUTE - 1);
      Steady(clock, gap) && Before(s, clock) && r.files != [] && r.files[0] == s.files[0]
  {
    assert NotDue(MINUTE - 1, maxAge);
  }

  lemma EmptyDirectory(c: Codec, dir: seq<Segment>)
    requires forall i :: 0 <= i < |dir| ==> dir[i].bytes == []
    ensures OursOnly(c, dir)
  {
    NothingStartsShort(c, []);
  }

  lemma EmptyStays(c: Codec, dir: seq<Segment>, files: seq<Segment>, clock: Clock)
    requires Truncated(c, dir, files, clock) && forall i :: 0 <= i < |dir| ==> dir[i].bytes == []
    ensures files == dir && DiskBytes(files) == 0
  {
    NothingStartsShort(c, []);
    assert forall i :: 0 <= i < |dir| ==> TruncatedFile(c, dir[i], files[i], clock(i));
    NoBytes(files);
  }

  lemma {:induction false} NoBytes(files: seq<Segment>)
    requires forall i :: 0 <= i < |files| ==> files[i].bytes == []
    ensures DiskBytes(files) == 0
  {
    if files != [] {
      NoBytes(files[1..]);
    }
  }

  /** A spool just opened is young, if its segments are in time order. */
  lemma OpenedYoung(r: Fields, maxBytes: nat, maxAge: int, clock: Clock, n: nat, gap: int) returns (t: int)
    requires InTimeOrder(r.files) && Steady(clock, gap) && CheckedFrom(r, maxBytes, maxAge, clock, n, n)
    ensures Young(r, t, maxAge) && r.lastBoundsCheck - t <= gap
  {
    var i: nat :| n <= i && |r.files| + (i - n) == n && CheckedAt(r, maxBytes, maxAge, clock, i);
    CheckedYoung(r, maxBytes, maxAge, clock, i, gap);
    t := clock(i);
  }

  lemma DeletedYoung(s: Fields, r: Fields, t: int, maxAge: int)
    requires Young(s, t, maxAge) && OnlyDeletes(s, r)
    ensures Young(r, t, maxAge)
    ensures forall clock :: Before(s, clock) ==> Before(r, clock)
  {
    assert forall i :: 0 <= i < |r.files| ==> r.files[i] == s.files[|s.files| - |r.files| + i];
  }

  // ---------------------------------------------------------------- over whole runs

  predicate Spools(op: Op) {
    op.AppendOp? && op.res.Some? && |op.res.value| <= MAX_RECORD_BYTES - RECORD_OVERHEAD
  }

  /** The appends of a run read a steady clock, each later than the ones before. */
  ghost predicate Timed(f: Fields, ops: seq<Op>, gap: int) {
    && (forall i :: 0 <= i < |ops| && ops[i].AppendOp? ==> Steady(ops[i].clock, gap) && Before(f, ops[i].clock))
    && (forall i, j :: 0 <= i < j < |ops| && ops[i].AppendOp? && ops[j].AppendOp? ==>
          Precedes(ops[i].clock, ops[j].clock))
  }

  lemma AppendedBefore(s: Fields, r: Fields, n: nat, maxBytes: nat, maxAge: int, c: Clock, later: Clock)
    requires Before(s, later) && AgedBy(s.files, r.files, c(2)) && Bounded(s, r, n, maxBytes, maxAge, c)
    requires Precedes(c, later)
    ensures Before(r, later)
  {
    var w :| Touched(s.files, w, c(2)) && Suffix(r.files, w);
    forall i, a: nat | 0 <= i < |r.files| ensures r.files[i].mod <= later(a) {
      var k := |w| - |r.files| + i;
      assert r.files[i] == w[k];
      if k < |w| - 1 {
        assert w[k] == s.files[k];
      }
    }
  }

  /** One operation. */
  method AgeOne(sp: Spool, op: Op, ghost t: int, ghost gap: int) returns (ghost t': int)
    requires sp.Valid() && (op.AppendOp? && op.res.Some? ==> sp.f.codec.parses(op.res.value))
    requires Young(sp.f, t, sp.maxAge) && sp.f.lastBoundsCheck - t <= gap && sp.maxAge >= 0 && gap >= 0
    requires op.AppendOp? ==> Steady(op.clock, gap) && Before(sp.f, op.clock)
    modifies sp
    ensures sp.Valid() && sp.f.codec == old(sp.f).codec
    ensures Young(sp.f, t', sp.maxAge) && sp.f.lastBoundsCheck - t' <= gap
    ensures Spools(op) ==> AgeAtMost(sp.f.files, op.clock(3), sp.maxAge + MINUTE + gap - 1)
    ensures forall later: Clock ::
              Before(old(sp.f), later) && (op.AppendOp? ==> Precedes(op.clock, later)) ==> Before(sp.f, later)
  {
    ghost var s := sp.f;
    var out := Perform(sp, op);
    if Spools(op) {
      t' := AppendedYoung(s, sp.f, |op.res.value|, sp.maxBytes, sp.maxAge, op.clock, t, gap);
      forall later: Clock | Before(s, later) && Precedes(op.clock, later)
        ensures Before(sp.f, later)
      {
        AppendedBefore(s, sp.f, |op.res.value|, sp.maxBytes, sp.maxAge, op.clock, later);
      }
    } else {
      DeletedYoung(s, sp.f, t, sp.maxAge);
      t' := t;
    }
  }

  /** Over any run of operations on a steady clock: right after an append has spooled its result, no segment,
      and so no head, is older than the age bound, a minute, and the time between two readings. As every
      prefix of a run is a run, that holds after each append of it. */
  method AgeRun(sp: Spool, ops: seq<Op>, ghost t: int, ghost gap: int) returns (ghost t': int)
    requires sp.Valid() && Marshalled(sp.f.codec, ops) && Timed(sp.f, ops, gap)
    requires Young(sp.f, t, sp.maxAge) && sp.f.lastBoundsCheck - t <= gap && sp.maxAge >= 0 && gap >= 0
    modifies sp
    ensures sp.Valid() && Young(sp.f, t', sp.maxAge) && sp.f.lastBoundsCheck - t' <= gap
    ensures ops != [] && Spools(ops[|ops| - 1]) ==>
              AgeAtMost(sp.f.files, ops[|ops| - 1].clock(3), sp.maxAge + MINUTE + gap - 1)
  {
    t' := t;
    for k := 0 to |ops|
      invariant sp.Valid() && sp.f.codec == old(sp.f).codec
      invariant Young(sp.f, t', sp.maxAge) && sp.f.lastBoundsCheck - t' <= gap
      invariant forall i :: k <= i < |ops| && ops[i].AppendOp? ==> Before(sp.f, ops[i].clock)
      invariant k > 0 && Spools(ops[k - 1]) ==>
                  AgeAtMost(sp.f.files, ops[k - 1].clock(3), sp.maxAge + MINUTE + gap - 1)
    {
      t' := AgeOne(sp, ops[k], t', gap);
    }
  }
}
