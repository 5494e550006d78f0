/** The agent's probe workers and their reconciliation with a full snapshot. */
module Scheduler {
  import opened MeshExpand

  const MINUTE: int := 60000000000

  /** A running worker; `serial` is its identity. */
  datatype Worker = Worker(serial: nat, spec: Spec, specHash: int, interval: int, evidence: bool)

  // ---------------------------------------------------------------- what a snapshot asks for

  /** The first spec for each non-empty id. */
  function Desired(probes: seq<Spec>): map<ProbeId, Spec> {
    if probes == [] then map[]
    else
      var d, s := Desired(probes[..|probes| - 1]), probes[|probes| - 1];
      if s.probeId.NoId? || s.probeId in d then d else d[s.probeId := s]
  }

  lemma {:induction false} DesiredIsFirst(probes: seq<Spec>, id: ProbeId)
    ensures id in Desired(probes) <==> id.Id? && exists i :: 0 <= i < |probes| && probes[i].probeId == id
    ensures id in Desired(probes) ==>
      exists i :: 0 <= i < |probes| && probes[i] == Desired(probes)[id] && probes[i].probeId == id
                  && forall j :: 0 <= j < i ==> probes[j].probeId != id
  {
    if probes != [] {
      var init, s := probes[..|probes| - 1], probes[|probes| - 1];
      DesiredIsFirst(init, id);
      assert probes == init + [s];
      if id in Desired(init) {
        var i :| 0 <= i < |init| && init[i] == Desired(init)[id] && init[i].probeId == id
                 && forall j :: 0 <= j < i ==> init[j].probeId != id;
        assert probes[i] == init[i];
        assert forall j :: 0 <= j < i ==> probes[j] == init[j];
      } else if s.probeId == id && id.Id? {
        var n := |probes| - 1;
        assert probes[n] == s;
        assert forall j :: 0 <= j < n ==> probes[j] == init[j];
      } else if exists i :: 0 <= i < |probes| && probes[i].probeId == id {
        var i :| 0 <= i < |probes| && probes[i].probeId == id;
        assert i < |init| ==> init[i] == probes[i];
      }
    }
  }

  // ---------------------------------------------------------------- the state and one reconciliation

  datatype State = State(workers: map<ProbeId, Worker>, cancelled: set<nat>, nextSerial: nat)

  /** A scheduler that has been given nothing yet. */
  const IDLE := State(map[], {}, 0)

  /** The worker a spec is given: stand-ins for unsupported types and unusable intervals produce no
      evidence. */
  function NewWorker(hash: Spec -> int, supported: set<int>, spec: Spec, serial: nat): Worker {
    Worker(serial, spec, hash(spec), if spec.interval <= 0 then MINUTE else spec.interval,
           spec.probeType in supported && spec.interval > 0)
  }

  /** A worker probes at its spec's interval, or every minute if that is unusable, and produces evidence
      exactly if the type is supported and the interval usable. */
  predicate AsAsked(supported: set<int>, w: Worker) {
    && (w.spec.interval > 0 ==> w.interval == w.spec.interval)
    && (w.spec.interval <= 0 ==> w.interval == 60000000000)
    && (w.evidence <==> Measures(supported, w.spec))
  }

  predicate Measures(supported: set<int>, spec: Spec) {
    spec.probeType in supported && spec.interval > 0
  }

  ghost predicate Staffed(supported: set<int>, st: State) {
    forall id :: id in st.workers ==> AsAsked(supported, st.workers[id])
  }

  /** Over any sequence of snapshots every worker is as its spec asks. */
  lemma ReconciledStaffs(hash: Spec -> int, supported: set<int>, st: State, desired: map<ProbeId, Spec>, r: State)
    requires Staffed(supported, st) && Reconciled(hash, supported, st, desired, r)
    ensures Staffed(supported, r)
  {
  }

  /** `f` is the least interval of the specs that measure, among those the workers run; 0 if none does. */
  ghost predicate FastestSpec(supported: set<int>, workers: map<ProbeId, Worker>, f: int) {
    && (forall id :: id in workers && Measures(supported, workers[id].spec) ==> 0 < f <= workers[id].spec.interval)
    && (f != 0 ==>
          exists id :: id in workers && Measures(supported, workers[id].spec) && workers[id].spec.interval == f)
  }

  lemma FastestIsSpecs(supported: set<int>, st: State, f: int)
    requires Staffed(supported, st) && Fastest(st.workers, st.workers.Keys, f)
    ensures FastestSpec(supported, st.workers, f)
  {
    forall id | id in st.workers ensures AsAsked(supported, st.workers[id]) {
    }
    if f != 0 {
      var id :| id in st.workers && st.workers[id].evidence && st.workers[id].interval == f;
      assert Measures(supported, st.workers[id].spec) && st.workers[id].spec.interval == f;
    }
  }

  /** Worker `w` of id `id` survives a reconciliation with `desired`. */
  predicate Keeps(hash: Spec -> int, desired: map<ProbeId, Spec>, id: ProbeId, w: Worker) {
    id in desired && w.specHash == hash(desired[id])
  }

  /** Serial `n` is a worker outside `todo` that does not survive. */
  ghost predicate Displaced(hash: Spec -> int, desired: map<ProbeId, Spec>, workers: map<ProbeId, Worker>,
                            todo: set<ProbeId>, n: nat) {
    exists id :: id in workers && id !in todo && workers[id].serial == n && !Keeps(hash, desired, id, workers[id])
  }

  /** Workers have serial numbers of their own, and those that run are not cancelled. */
  ghost predicate Sane(hash: Spec -> int, st: State) {
    && (forall id :: id in st.workers ==>
          var w := st.workers[id];
          w.serial < st.nextSerial && w.serial !in st.cancelled && w.specHash == hash(w.spec) && w.interval > 0)
    && (forall a, b :: a in st.workers && b in st.workers && a != b ==>
          st.workers[a].serial != st.workers[b].serial)
    && (forall n :: n in st.cancelled ==> n < st.nextSerial)
  }

  /** `r` is `st` reconciled with `desired`: exactly the desired ids run; a worker is kept iff its
      spec hash is unchanged, every other one of `st` is cancelled, and nothing else is. */
  ghost predicate Reconciled(hash: Spec -> int, supported: set<int>, st: State, desired: map<ProbeId, Spec>, r: State) {
    && r.workers.Keys == desired.Keys
    && (forall id :: id in desired ==>
          if id in st.workers && Keeps(hash, desired, id, st.workers[id]) then r.workers[id] == st.workers[id]
          else r.workers[id].serial >= st.nextSerial &&
               r.workers[id] == NewWorker(hash, supported, desired[id], r.workers[id].serial))
    && (forall n :: n in r.cancelled <==> n in st.cancelled || Displaced(hash, desired, st.workers, {}, n))
    && st.nextSerial <= r.nextSerial
  }

  /** After the first pass over `done` of the workers: those that changed are cancelled and gone,
      those that did not are no longer wanted anew. */
  ghost predicate Displacing(hash: Spec -> int, st: State, desired: map<ProbeId, Spec>, todo: set<ProbeId>,
                             r: State, wanted: map<ProbeId, Spec>) {
    && todo <= st.workers.Keys && r.nextSerial == st.nextSerial
    && (forall id :: id in r.workers <==> id in st.workers && (id in todo || Keeps(hash, desired, id, st.workers[id])))
    && (forall id :: id in r.workers ==> r.workers[id] == st.workers[id])
    && (forall id :: id in wanted <==>
          (id in desired && !(id in st.workers && id !in todo && Keeps(hash, desired, id, st.workers[id]))))
    && (forall id :: id in wanted ==> wanted[id] == desired[id])
    && (forall n :: n in r.cancelled <==> n in st.cancelled || Displaced(hash, desired, st.workers, todo, n))
  }

  /** The first loop of Apply: workers whose spec changed or vanished are cancelled. */
  method Displace(hash: Spec -> int, st: State, desired: map<ProbeId, Spec>)
    returns (r: State, wanted: map<ProbeId, Spec>)
    ensures Displacing(hash, st, desired, {}, r, wanted)
  {
    r, wanted := st, desired;
    var todo := st.workers.Keys;
    while todo != {}
      invariant Displacing(hash, st, desired, todo, r, wanted)
      decreases |todo|
    {
      var id :| id in todo;
      var w := st.workers[id];
      assert todo == (todo - {id}) + {id};
      todo := todo - {id};
      if id in desired && w.specHash == hash(desired[id]) {
        KeptOne(hash, desired, st.workers, todo, id);
        wanted := wanted - {id};
      } else {
        DisplacedOne(hash, desired, st.workers, todo, id);
        r := r.(cancelled := r.cancelled + {w.serial}, workers := r.workers - {id});
      }
    }
  }

  lemma DisplacedOne(hash: Spec -> int, desired: map<ProbeId, Spec>, workers: map<ProbeId, Worker>,
                     todo: set<ProbeId>, id: ProbeId)
    requires id in workers && id !in todo && !Keeps(hash, desired, id, workers[id])
    ensures forall n :: Displaced(hash, desired, workers, todo, n) <==>
                        (Displaced(hash, desired, workers, todo + {id}, n) || n == workers[id].serial)
  {
    forall n ensures Displaced(hash, desired, workers, todo, n) <==>
                     (Displaced(hash, desired, workers, todo + {id}, n) || n == workers[id].serial)
    {
      if Displaced(hash, desired, workers, todo, n) {
        var x :| x in workers && x !in todo && workers[x].serial == n && !Keeps(hash, desired, x, workers[x]);
        assert x == id || x !in todo + {id};
      }
    }
  }

  lemma KeptOne(hash: Spec -> int, desired: map<ProbeId, Spec>, workers: map<ProbeId, Worker>,
                todo: set<ProbeId>, id: ProbeId)
    requires id in workers && id !in todo && Keeps(hash, desired, id, workers[id])
    ensures forall n ::
              Displaced(hash, desired, workers, todo, n) <==> Displaced(hash, desired, workers, todo + {id}, n)
  {
    forall n ensures Displaced(hash, desired, workers, todo, n) <==> Displaced(hash, desired, workers, todo + {id}, n) {
      if Displaced(hash, desired, workers, todo, n) {
        var x :| x in workers && x !in todo && workers[x].serial == n && !Keeps(hash, desired, x, workers[x]);
        assert x !in todo + {id};
      }
    }
  }

  /** Workers started for all of `wanted` but `todo`, on top of `st`. */
  ghost predicate Starting(hash: Spec -> int, supported: set<int>, st: State, wanted: map<ProbeId, Spec>,
                           todo: set<ProbeId>, r: State) {
    && todo <= wanted.Keys && st.nextSerial <= r.nextSerial && r.cancelled == st.cancelled
    && r.workers.Keys == st.workers.Keys + (wanted.Keys - todo)
    && (forall id :: id in r.workers ==>
          if id in wanted && id !in todo
          then st.nextSerial <= r.workers[id].serial < r.nextSerial &&
               r.workers[id] == NewWorker(hash, supported, wanted[id], r.workers[id].serial)
          else r.workers[id] == st.workers[id])
    && (forall a, b :: a in wanted && b in wanted && a !in todo && b !in todo && a != b ==>
          r.workers[a].serial != r.workers[b].serial)
  }

  /** The second loop of Apply: a worker for every spec still wanted. */
  method StartAll(hash: Spec -> int, supported: set<int>, st: State, wanted: map<ProbeId, Spec>) returns (r: State)
    ensures Starting(hash, supported, st, wanted, {}, r)
  {
    r := st;
    var todo := wanted.Keys;
    while todo != {}
      invariant Starting(hash, supported, st, wanted, todo, r)
      decreases |todo|
    {
      var id :| id in todo;
      todo := todo - {id};
      var w := StartWorker(hash, supported, wanted[id], r.nextSerial);
      r := State(r.workers[id := w], r.cancelled, r.nextSerial + 1);
    }
  }

  /** A worker for one spec; an unknown type or an unusable interval gets a stand-in. */
  method StartWorker(hash: Spec -> int, supported: set<int>, spec: Spec, serial: nat) returns (w: Worker)
    ensures w == NewWorker(hash, supported, spec, serial)
  {
    var interval := spec.interval;
    var standIn := spec.probeType !in supported;
    var misconfigured := false;
    if interval <= 0 {
      misconfigured, interval := true, MINUTE;
    }
    w := Worker(serial, spec, hash(spec), interval, !standIn && !misconfigured);
  }

  lemma BothLoops(hash: Spec -> int, supported: set<int>, st: State, desired: map<ProbeId, Spec>,
                  mid: State, wanted: map<ProbeId, Spec>, r: State)
    requires Displacing(hash, st, desired, {}, mid, wanted) && Starting(hash, supported, mid, wanted, {}, r)
    ensures Reconciled(hash, supported, st, desired, r)
  {
    assert forall id :: id in r.workers <==> id in desired;
  }

  lemma DisplacedEnds(hash: Spec -> int, st: State, desired: map<ProbeId, Spec>, n: nat)
    requires Sane(hash, st) && Displaced(hash, desired, st.workers, {}, n)
    ensures n < st.nextSerial
    ensures forall id :: id in st.workers && Keeps(hash, desired, id, st.workers[id]) ==> st.workers[id].serial != n
  {
  }

  lemma BothLoopsLive(hash: Spec -> int, supported: set<int>, st: State, desired: map<ProbeId, Spec>,
                      mid: State, wanted: map<ProbeId, Spec>, r: State, id: ProbeId)
    requires Sane(hash, st) && id in r.workers
    requires Displacing(hash, st, desired, {}, mid, wanted) && Starting(hash, supported, mid, wanted, {}, r)
    ensures var w := r.workers[id];
      w.serial < r.nextSerial && w.serial !in r.cancelled && w.specHash == hash(w.spec) && w.interval > 0
  {
    var n := r.workers[id].serial;
    if Displaced(hash, desired, st.workers, {}, n) {
      DisplacedEnds(hash, st, desired, n);
    }
  }

  lemma BothLoopsSane(hash: Spec -> int, supported: set<int>, st: State, desired: map<ProbeId, Spec>,
                      mid: State, wanted: map<ProbeId, Spec>, r: State)
    requires Sane(hash, st)
    requires Displacing(hash, st, desired, {}, mid, wanted) && Starting(hash, supported, mid, wanted, {}, r)
    ensures Sane(hash, r)
  {
    forall id | id in r.workers
      ensures var w := r.workers[id];
        w.serial < r.nextSerial && w.serial !in r.cancelled && w.specHash == hash(w.spec) && w.interval > 0
    {
      BothLoopsLive(hash, supported, st, desired, mid, wanted, r, id);
    }
    forall n | n in r.cancelled ensures n < r.nextSerial {
      if n !in st.cancelled {
        DisplacedEnds(hash, st, desired, n);
      }
    }
  }

  class Scheduler {
    const hash: Spec -> int
    const supported: set<int>
    var workers: map<ProbeId, Worker>
    var cancelled: set<nat>
    var nextSerial: nat
    var stopped: bool

    function St(): State
      reads this
    {
      State(workers, cancelled, nextSerial)
    }

    constructor (hash: Spec -> int, supported: set<int>)
      ensures this.hash == hash && this.supported == supported && !stopped
      ensures St() == IDLE && Sane(hash, St()) && Staffed(supported, St())
    {
      this.hash, this.supported := hash, supported;
      workers, cancelled, nextSerial, stopped := map[], {}, 0, false;
    }

    /** Builds the desired map from the specs in order. */
    method Collect(probes: seq<Spec>) returns (desired: map<ProbeId, Spec>)
      ensures desired == Desired(probes)
    {
      desired := map[];
      for i := 0 to |probes|
        invariant desired == Desired(probes[..i])
      {
        assert probes[..i + 1][..i] == probes[..i];
        var spec := probes[i];
        if spec.probeId == NoId { continue; }
        if spec.probeId in desired { continue; }
        desired := desired[spec.probeId := spec];
      }
      assert probes[..|probes|] == probes;
    }

    /** Reconciles the workers with a full snapshot. */
    method Apply(probes: seq<Spec>)
      requires Sane(hash, St())
      modifies this
      ensures Sane(hash, St()) && stopped == old(stopped)
      ensures stopped ==> St() == old(St())
      ensures !stopped ==> Reconciled(hash, supported, old(St()), Desired(probes), St())
      ensures Staffed(supported, old(St())) ==> Staffed(supported, St())
    {
      if stopped { return; }
      var desired := Collect(probes);
      var mid, wanted := Displace(hash, St(), desired);
      var r := StartAll(hash, supported, mid, wanted);
      BothLoops(hash, supported, St(), desired, mid, wanted, r);
      BothLoopsSane(hash, supported, St(), desired, mid, wanted, r);
      if Staffed(supported, St()) {
        ReconciledStaffs(hash, supported, St(), desired, r);
      }
      workers, cancelled, nextSerial := r.workers, r.cancelled, r.nextSerial;
    }

    /** The shortest interval among workers that can produce evidence, 0 without one. */
    method FastestInterval() returns (fastest: int)
      requires Sane(hash, St())
      ensures Fastest(workers, workers.Keys, fastest)
      ensures Staffed(supported, St()) ==> FastestSpec(supported, workers, fastest)
    {
      fastest := FastestOf(workers);
      if Staffed(supported, St()) {
        FastestIsSpecs(supported, St(), fastest);
      }
    }

    /** Cancels every worker; no Apply starts another one. */
    method Stop()
      requires Sane(hash, St())
      modifies this
      ensures stopped && workers == map[] && Sane(hash, St()) && Staffed(supported, St())
      ensures forall n :: n in cancelled <==>
                n in old(cancelled) || exists id :: id in old(workers) && old(workers)[id].serial == n
    {
      stopped := true;
      cancelled := cancelled + set id | id in workers :: workers[id].serial;
      workers := map[];
    }
  }

  /** `f` is the least interval of an evidence-producing worker among `ids`, or 0 if there is none. */
  ghost predicate Fastest(workers: map<ProbeId, Worker>, ids: set<ProbeId>, f: int) {
    && (forall id :: id in ids && id in workers && workers[id].evidence ==> 0 < f <= workers[id].interval)
    && (f != 0 ==> exists id :: id in ids && id in workers && workers[id].evidence && workers[id].interval == f)
  }

  method FastestOf(workers: map<ProbeId, Worker>) returns (fastest: int)
    requires forall id :: id in workers ==> workers[id].interval > 0
    ensures Fastest(workers, workers.Keys, fastest)
  {
    fastest := 0;
    var todo, seen := workers.Keys, {};
    while todo != {}
      invariant seen + todo == workers.Keys && Fastest(workers, seen, fastest)
      decreases |todo|
    {
      var id :| id in todo;
      var w := workers[id];
      FastestStep(workers, seen, id, fastest);
      if w.evidence && (fastest == 0 || w.interval < fastest) {
        fastest := w.interval;
      }
      todo, seen := todo - {id}, seen + {id};
    }
    assert seen == workers.Keys;
  }

  lemma FastestStep(workers: map<ProbeId, Worker>, ids: set<ProbeId>, id: ProbeId, f: int)
    requires id in workers && workers[id].interval > 0 && Fastest(workers, ids, f)
    ensures var w := workers[id];
      Fastest(workers, ids + {id}, if w.evidence && (f == 0 || w.interval < f) then w.interval else f)
  {
  }

  // ---------------------------------------------------------------- snapshot after snapshot

  /** Exactly the ids of a snapshot run, each worker with the hash of the spec the snapshot has for it. */
  ghost predicate Runs(hash: Spec -> int, st: State, probes: seq<Spec>) {
    && st.workers.Keys == Desired(probes).Keys
    && (forall id :: id in st.workers ==> st.workers[id].specHash == hash(Desired(probes)[id]))
  }

  lemma ReconciledRuns(hash: Spec -> int, supported: set<int>, st: State, probes: seq<Spec>, r: State)
    requires Reconciled(hash, supported, st, Desired(probes), r)
    ensures Runs(hash, r, probes)
  {
  }

  /** The workers that a reconciliation displaces, and the specs it still wants after that. */
  lemma DisplacingExists(hash: Spec -> int, st: State, desired: map<ProbeId, Spec>)
    returns (mid: State, wanted: map<ProbeId, Spec>)
    ensures Displacing(hash, st, desired, {}, mid, wanted)
  {
    var gone := set id | id in st.workers && !Keeps(hash, desired, id, st.workers[id]) :: st.workers[id].serial;
    mid := State(map id | id in st.workers && Keeps(hash, desired, id, st.workers[id]) :: st.workers[id],
                 st.cancelled + gone, st.nextSerial);
    wanted := map id | id in desired && !(id in st.workers && Keeps(hash, desired, id, st.workers[id])) :: desired[id];
    forall n ensures n in gone <==> Displaced(hash, desired, st.workers, {}, n) {
    }
  }

  lemma {:induction false} StartingExists(hash: Spec -> int, supported: set<int>, st: State,
                                          wanted: map<ProbeId, Spec>, todo: set<ProbeId>, r: State)
    returns (r': State)
    requires Starting(hash, supported, st, wanted, todo, r)
    ensures Starting(hash, supported, st, wanted, {}, r')
    decreases |todo|
  {
    if todo == {} {
      r' := r;
    } else {
      var id :| id in todo;
      var w := NewWorker(hash, supported, wanted[id], r.nextSerial);
      r' := StartingExists(hash, supported, st, wanted, todo - {id},
                           State(r.workers[id := w], r.cancelled, r.nextSerial + 1));
    }
  }

  /** There is always something to reconcile to, so an Apply never blocks. */
  lemma Reconcilable(hash: Spec -> int, supported: set<int>, st: State, desired: map<ProbeId, Spec>)
    returns (r: State)
    requires Sane(hash, st)
    ensures Reconciled(hash, supported, st, desired, r) && Sane(hash, r)
  {
    var mid, wanted := DisplacingExists(hash, st, desired);
    assert Starting(hash, supported, mid, wanted, wanted.Keys, mid);
    r := StartingExists(hash, supported, mid, wanted, wanted.Keys, mid);
    BothLoops(hash, supported, st, desired, mid, wanted, r);
    BothLoopsSane(hash, supported, st, desired, mid, wanted, r);
  }

  /** Applying the same snapshot again restarts and cancels nothing. */
  lemma ReapplyChangesNothing(hash: Spec -> int, supported: set<int>, st: State, desired: map<ProbeId, Spec>,
                              r: State, r': State)
    requires Reconciled(hash, supported, st, desired, r) && Reconciled(hash, supported, r, desired, r')
    ensures r'.workers == r.workers && r'.cancelled == r.cancelled
  {
    forall id | id in desired ensures Keeps(hash, desired, id, r.workers[id]) {
    }
    forall n ensures !Displaced(hash, desired, r.workers, {}, n) {
    }
    assert forall n :: n in r'.cancelled <==> n in r.cancelled;
  }

  /** If no changed spec has the hash of the one it replaces, every running worker runs exactly the spec the
      snapshot holds for its id. */
  lemma RunsWhatIsDesired(hash: Spec -> int, supported: set<int>, st: State, desired: map<ProbeId, Spec>, r: State)
    requires Sane(hash, st) && Reconciled(hash, supported, st, desired, r)
    requires forall id :: id in st.workers && id in desired && hash(st.workers[id].spec) == hash(desired[id]) ==>
               st.workers[id].spec == desired[id]
    ensures r.workers.Keys == desired.Keys
    ensures forall id :: id in desired ==> r.workers[id].spec == desired[id]
  {
  }

  /** A worker keeps its identity across an Apply iff its spec hash is unchanged; otherwise it is
      cancelled. */
  lemma IdentityIffUnchanged(hash: Spec -> int, supported: set<int>, st: State, desired: map<ProbeId, Spec>,
                             r: State, id: ProbeId)
    requires Sane(hash, st) && Reconciled(hash, supported, st, desired, r) && id in st.workers
    ensures (id in r.workers && r.workers[id].serial == st.workers[id].serial) <==>
            Keeps(hash, desired, id, st.workers[id])
    ensures st.workers[id].serial in r.cancelled <==> !Keeps(hash, desired, id, st.workers[id])
  {
    var n := st.workers[id].serial;
    if Keeps(hash, desired, id, st.workers[id]) {
      if Displaced(hash, desired, st.workers, {}, n) {
        DisplacedEnds(hash, st, desired, n);
      }
    } else {
      assert Displaced(hash, desired, st.workers, {}, n);
    }
  }
}
