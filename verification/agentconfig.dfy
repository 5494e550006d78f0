/** The agent's side of config distribution: the cache file that survives restarts, and the wiring of
    uplink, scheduler and cache. */
module AgentConfig {
  import opened LittleEndian
  import opened Sequences
  import opened MeshExpand
  import opened ConfigStream
  import opened Wrappers
  import P = ConfigProtocol
  import S = Scheduler

  const SUM_SIZE: nat := 32

  /** The libraries behind the cache file: the snapshot encoding and the checksum. */
  datatype Wire = Wire(marshal: seq<Spec> -> Bytes, unmarshal: Bytes -> Option<Hash>, sum: Bytes -> Bytes)

  ghost predicate WireOk(w: Wire) {
    (forall s :: w.unmarshal(w.marshal(s)) == Some(HashOf(s))) && (forall b :: |w.sum(b)| == SUM_SIZE)
  }

  datatype Loaded = NoCache | Corrupt | Cached(specs: seq<Spec>)

  /** What Load makes of the bytes of a cache file. */
  function Decoded(w: Wire, b: Bytes): Loaded {
    if |b| < SUM_SIZE then Corrupt
    else
      var payload, sum := b[..|b| - SUM_SIZE], b[|b| - SUM_SIZE..];
      if w.sum(payload) != sum then Corrupt
      else match w.unmarshal(payload)
        case None => Corrupt
        case Some(NoHash) => Corrupt
        case Some(HashOf(specs)) => Cached(specs)
  }

  function FileOf(w: Wire, specs: seq<Spec>): Bytes {
    w.marshal(specs) + w.sum(w.marshal(specs))
  }

  lemma DecodedFile(w: Wire, specs: seq<Spec>)
    requires WireOk(w)
    ensures Decoded(w, FileOf(w, specs)) == Cached(specs)
  {
    DropConcat(w.marshal(specs), w.sum(w.marshal(specs)));
  }

  /** A file loads only if it is intact: its last 32 bytes are the checksum of the rest, and the rest is the
      encoding of a snapshot with a hash; and every such file loads as that snapshot. */
  lemma OnlyIntactFilesLoad(w: Wire, b: Bytes, specs: seq<Spec>)
    ensures Decoded(w, b) == Cached(specs) <==>
      exists payload, sum :: b == payload + sum && |sum| == 32 && sum == w.sum(payload)
                             && w.unmarshal(payload) == Some(HashOf(specs))
  {
    if Decoded(w, b) == Cached(specs) {
      var n := |b| - SUM_SIZE;
      SplitAt(b, n);
      assert b == b[..n] + b[n..] && |b[n..]| == 32;
    }
    if exists payload, sum :: b == payload + sum && |sum| == 32 && sum == w.sum(payload)
                              && w.unmarshal(payload) == Some(HashOf(specs)) {
      var payload, sum :| b == payload + sum && |sum| == 32 && sum == w.sum(payload)
                          && w.unmarshal(payload) == Some(HashOf(specs));
      DropConcat(payload, sum);
    }
  }

  /** A file that is there is loaded or corrupt; a short one and a snapshot without a hash are corrupt. */
  lemma DamagedIsCorrupt(w: Wire, b: Bytes)
    ensures Decoded(w, b) != NoCache
    ensures |b| < 32 || w.unmarshal(b[..|b| - 32]) == Some(NoHash) ==> Decoded(w, b) == Corrupt
  {
  }

  /** The cache files of a state directory, by the agent identity in their name. */
  class ConfCache {
    const wire: Wire
    var files: map<Uuid, Bytes>

    function LoadedFor(id: Uuid): Loaded
      reads this
    {
      if id in files then Decoded(wire, files[id]) else NoCache
    }

    constructor (wire: Wire, files: map<Uuid, Bytes>)
      ensures this.wire == wire && this.files == files
    {
      this.wire, this.files := wire, files;
    }

    method Load(id: Uuid) returns (r: Loaded)
      ensures r == LoadedFor(id)
    {
      if id !in files { return NoCache; }
      var b := files[id];
      if |b| < SUM_SIZE { return Corrupt; }
      var payload, sum := b[..|b| - SUM_SIZE], b[|b| - SUM_SIZE..];
      if wire.sum(payload) != sum { return Corrupt; }
      var snap := wire.unmarshal(payload);
      if snap.None? || snap.value.NoHash? { return Corrupt; }
      return Cached(snap.value.specs);
    }

    /** Replaces the cache of `id` by rename; caches of other identities that can be deleted are. A
        write or rename that fails leaves every cache as it was. */
    method Store(id: Uuid, specs: seq<Spec>, writes: bool, renames: bool, stuck: set<Uuid>) returns (ok: bool)
      requires WireOk(wire)
      modifies this
      ensures ok <==> writes && renames
      ensures ok ==> LoadedFor(id) == Cached(specs)
      ensures ok ==> files.Keys <= {id} + stuck
      ensures ok ==> forall k :: k in files && k != id ==> k in old(files) && files[k] == old(files)[k]
      ensures !ok ==> files == old(files)
    {
      if !writes { return false; }
      if !renames { return false; }
      DecodedFile(wire, specs);
      files := files[id := FileOf(wire, specs)];
      files := map k | k in files && (k == id || k in stuck) :: files[k];
      return true;
    }

    method Clear(id: Uuid, removes: bool) returns (ok: bool)
      modifies this
      ensures ok <==> removes || id !in old(files)
      ensures files == if removes then old(files) - {id} else old(files)
    {
      ok := removes || id !in files;
      if removes {
        files := files - {id};
      }
    }
  }

  /** Uplink, scheduler and cache of one agent. */
  class Wiring {
    const id: Option<Uuid>         // an agent without an identity keeps no cache
    const cache: ConfCache
    const sched: S.Scheduler
    var configHash: Hash

    /** The hash advertised on connect is that of the snapshot whose ids are the running workers, each
        with its spec's hash; no hash, no workers. */
    ghost predicate Advertises()
      reads this, sched
    {
      S.Sane(sched.hash, sched.St()) && P.RunsHash(sched.hash, sched.St(), configHash)
    }

    /** What this agent would load. */
    function CachedFor(): Loaded
      reads this, cache
    {
      if id.Some? then cache.LoadedFor(id.value) else NoCache
    }

    /** Start-up: a readable cache is applied and its hash advertised. */
    constructor (id: Option<Uuid>, cache: ConfCache, sched: S.Scheduler)
      requires !sched.stopped && sched.St() == S.IDLE
      modifies sched
      ensures this.id == id && this.cache == cache && this.sched == sched && !sched.stopped
      ensures Advertises()
      ensures configHash == (match CachedFor() case Cached(specs) => HashOf(specs) case _ => NoHash)
      ensures CachedFor().Cached? ==>
        S.Reconciled(sched.hash, sched.supported, S.IDLE, S.Desired(CachedFor().specs), sched.St())
    {
      this.id, this.cache, this.sched := id, cache, sched;
      configHash := NoHash;
      new;
      if id.None? { return; }
      var r := cache.Load(id.value);
      if r.Cached? {
        sched.Apply(r.specs);
        S.ReconciledRuns(sched.hash, sched.supported, S.IDLE, r.specs, sched.St());
        configHash := HashOf(r.specs);
      }
    }

    /** A snapshot from the stream: note its hash, apply it, persist it, and clear the cache if that
        fails. */
    method OnSnapshot(specs: seq<Spec>, writes: bool, renames: bool, stuck: set<Uuid>, removes: bool)
      requires WireOk(cache.wire) && S.Sane(sched.hash, sched.St())
      modifies this, cache, sched
      ensures configHash == HashOf(specs) && sched.stopped == old(sched.stopped)
      ensures !sched.stopped ==>
        Advertises() && S.Reconciled(sched.hash, sched.supported, old(sched.St()), S.Desired(specs), sched.St())
      ensures sched.stopped ==> sched.St() == old(sched.St())
      ensures id.None? ==> cache.files == old(cache.files)
      ensures CachedFor() ==
        if id.Some? && writes && renames then Cached(specs)
        else if id.Some? && removes then NoCache
        else old(CachedFor())
    {
      configHash := HashOf(specs);
      ghost var before := sched.St();
      sched.Apply(specs);
      if !sched.stopped {
        S.ReconciledRuns(sched.hash, sched.supported, before, specs, sched.St());
      }
      if id.None? { return; }
      var ok := cache.Store(id.value, specs, writes, renames, stuck);
      if !ok {
        var cleared := cache.Clear(id.value, removes);
      }
    }
  }

  // ---------------------------------------------------------------- the protocol's steps are these

  function Received(after: S.State, ok: bool, removes: bool): seq<P.Step> {
    [P.Receive, P.Apply(after), P.Store(ok), P.Clear(removes)]
  }

  /** Receiving a snapshot without a crash takes the protocol's agent, its scheduler and its cache where
      OnSnapshot takes the wiring. */
  lemma ReceiptIsOnSnapshot(e: P.Env, s: P.Sys, after: S.State, ok: bool, removes: bool)
    requires s.agent.Up? && s.agent.task.Free? && s.channel != []
    requires P.CanApply(e, s.agent.sched, s.channel[0], after)
    ensures var t, specs := P.Run(e, s, Received(after, ok, removes)), s.channel[0];
      && t.agent == P.Up(HashOf(specs), after, P.Free)
      && t.cache == (if ok then Some(specs) else if removes then None else s.cache)
      && t.channel == s.channel[1..] && t.server == s.server && t.db == s.db && t.ver == s.ver
  {
    var s1 := P.Next(e, s, P.Receive);
    var s2 := P.Next(e, s1, P.Apply(after));
    var s3 := P.Next(e, s2, P.Store(ok));
    P.RunOne(e, s, P.Receive, [P.Apply(after), P.Store(ok), P.Clear(removes)]);
    P.RunOne(e, s1, P.Apply(after), [P.Store(ok), P.Clear(removes)]);
    P.RunOne(e, s2, P.Store(ok), [P.Clear(removes)]);
    P.RunOne(e, s3, P.Clear(removes), []);
  }

  // ---------------------------------------------------------------- an edit reaches the workers

  /** Whatever was sent can be received and applied, and each snapshot persisted or not: the scheduler
      then runs the server's snapshot. */
  lemma {:induction false} DrainedAgentRuns(e: P.Env, s: P.Sys, outcomes: seq<(bool, bool)>)
    returns (steps: seq<P.Step>)
    requires P.Inv(e, s) && s.server.Idle? && s.agent.task.Free? && |outcomes| == |s.channel|
    ensures forall i :: 0 <= i < |steps| ==> steps[i].Receive? || steps[i].Apply? || steps[i].Store? || steps[i].Clear?
    ensures var t := P.Run(e, s, steps);
      && t.channel == [] && t.server == s.server && t.db == s.db
      && t.agent.Up? && t.agent.task.Free? && S.Runs(e.hash, t.agent.sched, s.server.st.snapshot)
    decreases |outcomes|
  {
    steps := [];
    if outcomes != [] {
      var (ok, removes) := outcomes[0];
      var after := S.Reconcilable(e.hash, e.supported, s.agent.sched, S.Desired(s.channel[0]));
      var first := Received(after, ok, removes);
      ReceiptIsOnSnapshot(e, s, after, ok, removes);
      P.RunKeepsInv(e, s, first);
      var rest := DrainedAgentRuns(e, P.Run(e, s, first), outcomes[1..]);
      P.RunConcat(e, s, first, rest);
      steps := first + rest;
    }
  }

  /** From any state a run can reach with the stream up and a bump it has not seen, and in whatever order
      the steps of server, agent and writers come: once a tick could read the version and its build is
      done, and no further edit came or the stream is current, an agent that has received and applied all
      it was sent runs one worker for each id of the edited configuration, with its spec's hash, and no
      other worker. */
  lemma EditReachesAgent(e: P.Env, s: P.Sys, steps: seq<P.Step>)
    requires P.Inv(e, s) && s.server.Idle? && s.server.st.lastVer != s.ver
    requires P.Undisturbed(e, s, steps) && P.TickReads(e, s, steps)
    ensures var t := P.Run(e, s, steps);
      t.server.Idle? && (t.edits == s.edits || P.Current(t)) && t.channel == [] && t.agent.Up? && t.agent.task.Free? ==>
        var built := Build(e.lib, t.db);
        && built.Snapshot? && S.Runs(e.hash, t.agent.sched, built.specs)
        && (NoCollision(e.hash, t.agent.sched, S.Desired(built.specs)) ==>
              RunsTheSpecs(t.agent.sched, S.Desired(built.specs)))
  {
    P.EditPickedUpNextTick(e, s, steps);
    P.RunKeepsInv(e, s, steps);
  }

  /** No worker runs another spec with the hash of the one wanted for its id. */
  predicate NoCollision(hash: Spec -> int, st: S.State, desired: map<ProbeId, Spec>) {
    forall id :: id in st.workers && id in desired && hash(st.workers[id].spec) == hash(desired[id]) ==>
      st.workers[id].spec == desired[id]
  }

  /** Every worker runs the very spec wanted for its id. */
  predicate RunsTheSpecs(st: S.State, desired: map<ProbeId, Spec>) {
    st.workers.Keys == desired.Keys && forall id :: id in st.workers ==> st.workers[id].spec == desired[id]
  }
}
