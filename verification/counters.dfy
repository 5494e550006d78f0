/** The three drop counters and the two sidecar files that persist them: the unacked count in one
    file, the lifetime total and the acknowledged count together in another, each replaced by an
    atomic rename, the unacked file first. */
module Counters {

  const MAX_U64: nat := 18446744073709551615
  const TWO64: nat := 18446744073709551616

  type U64 = x: int | 0 <= x < 18446744073709551616

  /** The counters in memory. */
  datatype Drops = Drops(total: U64, acked: U64, unacked: U64)

  /** The sidecar files; a file that is absent or does not parse gives nothing. */
  datatype CountFile = NoCount | CountOf(n: U64)
  datatype StateFile = NoState | StateOf(total: U64, acked: U64)
  datatype Sidecars = Sidecars(unacked: CountFile, state: StateFile)

  const NO_SIDECARS := Sidecars(NoCount, NoState)
  const NO_DROPS := Drops(0, 0, 0)

  function Min(a: U64, b: U64): U64 { if a <= b then a else b }
  function Max(a: U64, b: U64): U64 { if a >= b then a else b }

  /** Unsigned 64-bit addition wraps. */
  function WrapAdd(a: U64, n: U64): U64 {
    if a + n <= MAX_U64 then a + n else a + n - TWO64
  }

  // ---------------------------------------------------------------- the operations on the counters

  /** `n` records dropped. */
  function Dropped(d: Drops, n: U64): Drops {
    d.(total := WrapAdd(d.total, n), unacked := WrapAdd(d.unacked, n))
  }

  /** The server acknowledged `reported` drops. */
  function Acknowledged(d: Drops, reported: U64): (r: Drops)
    ensures r.total == d.total && r.acked <= r.total && r.unacked <= d.unacked
  {
    var r := Min(reported, d.unacked);
    d.(unacked := d.unacked - r, acked := Min(WrapAdd(d.acked, r), d.total))
  }

  // ---------------------------------------------------------------- persisting, cut by a crash

  /** How many of the two renames a persist got through. */
  type Renames = n: int | 0 <= n <= 2

  function Persisted(disk: Sidecars, d: Drops, done: Renames): Sidecars {
    Sidecars(
      if done >= 1 then CountOf(d.unacked) else disk.unacked,
      if done >= 2 then StateOf(d.total, d.acked) else disk.state)
  }

  /** The other order: the state file first. */
  function PersistedStateFirst(disk: Sidecars, d: Drops, done: Renames): Sidecars {
    Sidecars(
      if done >= 2 then CountOf(d.unacked) else disk.unacked,
      if done >= 1 then StateOf(d.total, d.acked) else disk.state)
  }

  // ---------------------------------------------------------------- opening

  /** The total as the state file gives it, 0 without one. */
  function LoadedTotal(disk: Sidecars): U64 {
    if disk.state.StateOf? then disk.state.total else 0
  }

  /** The acked count as the state file gives it, never above the total. */
  function LoadedAcked(disk: Sidecars): (a: U64)
    ensures a <= LoadedTotal(disk)
  {
    if disk.state.StateOf? then Min(disk.state.acked, disk.state.total) else 0
  }

  /** The unacked count as its file gives it, reconstructed from the state without one. */
  function LoadedUnacked(disk: Sidecars): U64 {
    if disk.unacked.CountOf? then disk.unacked.n else LoadedTotal(disk) - LoadedAcked(disk)
  }

  /** The counters Open starts from: acked + unacked is a floor on the total (saturating), and
      acked closes the gap. */
  function Recovered(disk: Sidecars): Drops {
    var a, u := LoadedAcked(disk), LoadedUnacked(disk);
    var t := if u > MAX_U64 - a then MAX_U64 else Max(LoadedTotal(disk), a + u);
    Drops(t, t - u, u)
  }

  /** Open writes its repair back only when there is one. */
  predicate NeedsRepair(disk: Sidecars) {
    var d := Recovered(disk);
    || d.total != LoadedTotal(disk)
    || d.acked != LoadedAcked(disk)
    || (disk.unacked.NoCount? && d.total > 0)
  }

  /** The files after an Open whose repair got through `done` renames. */
  function Repaired(disk: Sidecars, done: Renames): Sidecars {
    if NeedsRepair(disk) then Persisted(disk, Recovered(disk), done) else disk
  }

  /** The counters exactly as the files give them. */
  function Loaded(disk: Sidecars): Drops {
    Drops(LoadedTotal(disk), LoadedAcked(disk), LoadedUnacked(disk))
  }

  /** The two files agree: no slack between them that a later crash could hide a drop in. */
  predicate Agree(disk: Sidecars) {
    LoadedTotal(disk) == LoadedAcked(disk) + LoadedUnacked(disk)
  }

  /** The files hold exactly the counters in memory, and agree. */
  predicate Synced(disk: Sidecars, d: Drops) {
    d == Loaded(disk) && Agree(disk)
  }

  // ---------------------------------------------------------------- the crash theorem

  /** Whatever the files hold, Open's counters balance. */
  lemma {:induction false} RecoveredBalances(disk: Sidecars)
    ensures Recovered(disk).total == Recovered(disk).acked + Recovered(disk).unacked
  {
  }

  lemma {:induction false} SyncedRecovers(disk: Sidecars)
    requires Agree(disk)
    ensures Recovered(disk) == Loaded(disk)
  {
  }

  /** Whatever the files hold, re-crashing in the middle of Open's own repair changes nothing, and
      a repair that completes leaves the files synced. */
  lemma {:induction false} RepairIsStable(disk: Sidecars, done: Renames)
    ensures Recovered(Repaired(disk, done)) == Recovered(disk)
    ensures Synced(Repaired(disk, 2), Recovered(disk))
  {
  }

  /** Open changes the files exactly if they disagree, or the unacked file is missing and there is something
      to count. */
  lemma {:induction false} RepairedIff(disk: Sidecars)
    ensures Repaired(disk, 2) == disk <==> Agree(disk) && (disk.unacked.CountOf? || LoadedTotal(disk) == 0)
  {
    assert Agree(disk) ==> Recovered(disk) == Loaded(disk);
  }

  /** A drop of `n` cut by a crash: recovered exactly if the unacked rename landed, otherwise
      exactly as before the drop. */
  lemma {:induction false} DropCut(disk: Sidecars, n: U64, done: Renames)
    requires Agree(disk) && LoadedTotal(disk) + n <= MAX_U64
    ensures var d := Loaded(disk);
      && Dropped(d, n) == Drops(d.total + n, d.acked, d.unacked + n)
      && Recovered(Persisted(disk, Dropped(d, n), done)) == (if done == 0 then d else Dropped(d, n))
      && Synced(Persisted(disk, Dropped(d, n), 2), Dropped(d, n))
  {
  }

  /** An acknowledgement cut by a crash: the same. */
  lemma {:induction false} AckCut(disk: Sidecars, reported: U64, done: Renames)
    requires Agree(disk)
    ensures var d := Loaded(disk);
      var r := Min(reported, d.unacked);
      var d' := Acknowledged(d, reported);
      && d' == Drops(d.total, d.acked + r, d.unacked - r)
      && Recovered(Persisted(disk, d', done)) == (if done == 0 then d else d')
      && Synced(Persisted(disk, d', 2), d')
  {
  }

  /** One step of an agent's life as the counters see it. A step cut short (fewer than two
      renames) ends the process, which opens again through any number of cut repairs. */
  datatype Step =
    | Drop(n: U64, done: Renames, reopens: seq<Renames>)
    | Ack(reported: U64, done: Renames, reopens: seq<Renames>)
    | Restart(reopens: seq<Renames>)

  function Effect(d: Drops, s: Step): Drops {
    match s
    case Drop(n, _, _) => Dropped(d, n)
    case Ack(r, _, _) => Acknowledged(d, r)
    case Restart(_) => d
  }

  function Landed(s: Step): Renames {
    if s.Restart? then 0 else s.done
  }

  /** Opens that crash in their repair, one after the other, then one that completes. */
  function Reopened(disk: Sidecars, cuts: seq<Renames>): Sidecars
    decreases |cuts|
  {
    if cuts == [] then Repaired(disk, 2) else Reopened(Repaired(disk, cuts[0]), cuts[1..])
  }

  /** Memory and files after a step. */
  function After(disk: Sidecars, d: Drops, s: Step): (Sidecars, Drops) {
    var cut := Persisted(disk, Effect(d, s), Landed(s));
    if Landed(s) == 2 then (cut, Effect(d, s))
    else (Reopened(cut, s.reopens), Recovered(Reopened(cut, s.reopens)))
  }

  function Run(disk: Sidecars, d: Drops, steps: seq<Step>): (Sidecars, Drops)
    decreases |steps|
  {
    if steps == [] then (disk, d)
    else var r := After(disk, d, steps[0]); Run(r.0, r.1, steps[1..])
  }

  /** What the run should have come to: a step counts iff its first rename landed. */
  function Ideal(d: Drops, steps: seq<Step>): Drops
    decreases |steps|
  {
    if steps == [] then d
    else Ideal(if Landed(steps[0]) == 0 then d else Effect(d, steps[0]), steps[1..])
  }

  /** The results ever dropped stay below 2^64. */
  function TotalDropped(steps: seq<Step>): nat
    decreases |steps|
  {
    if steps == [] then 0
    else (if steps[0].Drop? then steps[0].n else 0) + TotalDropped(steps[1..])
  }

  lemma {:induction false} ReopenedIsStable(disk: Sidecars, cuts: seq<Renames>)
    ensures Recovered(Reopened(disk, cuts)) == Recovered(disk)
    ensures Synced(Reopened(disk, cuts), Recovered(disk))
    decreases |cuts|
  {
    RepairIsStable(disk, 2);
    if cuts != [] {
      RepairIsStable(disk, cuts[0]);
      ReopenedIsStable(Repaired(disk, cuts[0]), cuts[1..]);
    }
  }

  lemma {:induction false} StepRecovers(disk: Sidecars, d: Drops, s: Step)
    requires Synced(disk, d) && (s.Drop? ==> d.total + s.n <= MAX_U64)
    ensures var (disk', d') := After(disk, d, s);
      && Synced(disk', d')
      && d' == if Landed(s) == 0 then d else Effect(d, s)
  {
    match s {
      case Drop(n, done, _) => DropCut(disk, n, done);
      case Ack(r, done, _) => AckCut(disk, r, done);
      case Restart(_) => SyncedRecovers(disk);
    }
    var cut := Persisted(disk, Effect(d, s), Landed(s));
    if Landed(s) < 2 {
      assert Landed(s) == 0 ==> cut == disk;
      ReopenedIsStable(cut, s.reopens);
    }
  }

  /** Over any run of drops, acknowledgements, crashes inside a persist, restarts and crashes
      inside Open's repair: the recovered counters are exactly those of the steps whose first
      rename landed, and total = acked + unacked. */
  lemma {:induction false} RunRecovers(disk: Sidecars, d: Drops, steps: seq<Step>)
    requires Synced(disk, d) && d.total + TotalDropped(steps) <= MAX_U64
    ensures var (disk', d') := Run(disk, d, steps);
      && d' == Ideal(d, steps)
      && d'.total == d'.acked + d'.unacked
      && Recovered(disk') == d'
    decreases |steps|
  {
    SyncedRecovers(disk);
    if steps != [] {
      StepRecovers(disk, d, steps[0]);
      var (disk', d') := After(disk, d, steps[0]);
      RunRecovers(disk', d', steps[1..]);
    }
  }

  /** A fresh directory is in sync with zero counters, and any files at all are after one Open. */
  lemma {:induction false} OpenSyncs(disk: Sidecars, cuts: seq<Renames>)
    ensures Synced(NO_SIDECARS, NO_DROPS)
    ensures Synced(Reopened(disk, cuts), Recovered(disk))
  {
    ReopenedIsStable(disk, cuts);
  }

  // ---------------------------------------------------------------- why this write order

  /** With the state file written first, a crash between the renames hides a drop: Open takes it
      as acknowledged, so the outstanding remainder never shows it. The recovered counters are
      right exactly when the drop was empty or no unacked file existed yet. */
  lemma {:induction false} StateFirstHidesDrop(disk: Sidecars, n: U64)
    requires Agree(disk) && LoadedTotal(disk) + n <= MAX_U64
    ensures var d := Loaded(disk);
      var r := Recovered(PersistedStateFirst(disk, Dropped(d, n), 1));
      && (disk.unacked.CountOf? ==> r == Drops(d.total + n, d.acked + n, d.unacked))
      && ((r == d || r == Dropped(d, n)) <==> n == 0 || disk.unacked.NoCount?)
  {
    DropCut(disk, n, 2);
  }

  /** With the state file written first, a crash between the renames of an acknowledgement
      inflates the total by what was acknowledged, up to the largest count there is. The total is
      right exactly when nothing was acknowledged, no unacked file existed yet, or the total
      already is that count. */
  lemma {:induction false} StateFirstInflatesAck(disk: Sidecars, reported: U64)
    requires Agree(disk)
    ensures var d := Loaded(disk);
      var r := Recovered(PersistedStateFirst(disk, Acknowledged(d, reported), 1));
      var n := Min(reported, d.unacked);
      && (disk.unacked.CountOf? ==> r.total == if d.total + n <= MAX_U64 then d.total + n else MAX_U64)
      && (r.total == d.total <==> n == 0 || disk.unacked.NoCount? || d.total == MAX_U64)
  {
    AckCut(disk, reported, 2);
  }

  /** The lifetime total grows by exactly the drop unless 2^64 results have been dropped. */
  lemma {:induction false} DropWraps(d: Drops, n: U64)
    ensures Dropped(d, n).total == d.total + n <==> d.total + n <= MAX_U64
  {
  }
}
