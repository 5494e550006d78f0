/** Config distribution as a protocol: database writes and the version bumps that follow them, version
    reads, builds that read the database table by table, sends, receipts, the agent's cache, crashes and
    reconnects, in any order. */
module ConfigProtocol {
  import opened Wrappers
  import opened MeshExpand
  import opened ConfigStream
  import S = Scheduler

  /** What the system is built over: the expansion's library, and the agent's spec hash and registry of
      probe types. */
  datatype Env = Env(lib: Library, hash: Spec -> int, supported: set<int>)

  // ---------------------------------------------------------------- the parts

  /** A moment, by the counters it found: the version, the writes committed but not bumped yet, the edits
      that no bump will follow, and all edits so far. */
  datatype Mark = Mark(ver: int, pending: nat, lost: nat, edits: nat)

  /** A build under way: it has read the first `pos` of the four tables into `got`. `start` is the moment
      its tick read the version. */
  datatype BuildJob = BuildJob(got: Inputs, pos: nat, start: Mark)

  datatype Server =
    | Closed
    | Opening(hello: Hash)
    | FirstBuild(hello: Hash, job: BuildJob)
    | Idle(st: Stream)
    | Rebuilding(st: Stream, ver: VerRead, job: BuildJob)

  /** What the agent's stream goroutine is in the middle of. */
  datatype Task = Free | ToApply(specs: seq<Spec>) | ToStore(specs: seq<Spec>) | ToClear

  /** `hash` is what the agent advertises on connect, `sched` its scheduler. */
  datatype Agent = Down | Up(hash: Hash, sched: S.State, task: Task)

  /** The system. `ver` is the config version; `pending` writes have committed whose bump is still to come,
      `lost` edits are followed by none, and there were `edits` in all. `seen` is the start of the stream's
      last finished build. */
  datatype Sys = Sys(db: Inputs, ver: int, pending: nat, lost: nat, edits: nat, seen: Mark,
                     server: Server, channel: seq<seq<Spec>>, agent: Agent, cache: Option<seq<Spec>>)

  datatype Step =
    | Commit(db: Inputs)           // a store write; its bump is deferred
    | Bump(ok: bool)               // of a committed write, or of one that changed nothing
    | SilentWrite(db: Inputs)      // an edit behind the store's back
    | StreamOpens
    | VersionRead(ok: bool)
    | BuildRead
    | BuildEnds(dbError: bool)
    | TickFires(cert: CertAnswer, readOk: bool)
    | Receive
    | Apply(after: S.State)        // any outcome the scheduler's contract allows
    | Store(ok: bool)
    | Clear(ok: bool)
    | Disconnect
    | AgentCrash
    | AgentStart(cacheReadable: bool, after: S.State)

  const NOTHING := Inputs(0, [], [], [])

  function Now(s: Sys): Mark {
    Mark(s.ver, s.pending, s.lost, s.edits)
  }

  function NewJob(s: Sys): BuildJob {
    BuildJob(NOTHING, 0, Now(s))
  }

  function ReadTable(job: BuildJob, db: Inputs): BuildJob {
    match job.pos
    case 0 => job.(got := job.got.(siteId := db.siteId), pos := 1)
    case 1 => job.(got := job.got.(direct := db.direct), pos := 2)
    case 2 => job.(got := job.got.(mesh := db.mesh), pos := 3)
    case 3 => job.(got := job.got.(peers := db.peers), pos := 4)
    case _ => job
  }

  /** The build's outcome, once all tables are read. */
  ghost function Outcome(e: Env, job: BuildJob, dbError: bool): Built {
    if dbError || job.pos < 4 then Duplicate else Build(e.lib, job.got)
  }

  /** The first build ends: the stream is up, and the snapshot is sent unless the agent advertised
      its hash. */
  ghost function FirstBuildEnds(e: Env, s: Sys, dbError: bool): Sys
    requires s.server.FirstBuild?
  {
    match Outcome(e, s.server.job, dbError)
    case Duplicate => s.(server := Closed)
    case Snapshot(specs) =>
      s.(server := Idle(Stream(s.server.job.start.ver, specs, 0)), seen := s.server.job.start,
         channel := if s.server.hello != HashOf(specs) then s.channel + [specs] else s.channel)
  }

  ghost function RebuildEnds(e: Env, s: Sys, dbError: bool): Sys
    requires s.server.Rebuilding?
  {
    var st := s.server.st;
    match Outcome(e, s.server.job, dbError)
    case Duplicate => s.(server := Idle(Skipped(st)))
    case Snapshot(specs) =>
      s.(server := Idle(Rebuilt(st, s.server.ver, specs)), seen := s.server.job.start,
         channel := if HashOf(specs) != HashOf(st.snapshot) then s.channel + [specs] else s.channel)
  }

  function TickOf(s: Sys, cert: CertAnswer, readOk: bool): Sys
    requires s.server.Idle?
  {
    var st, ver := s.server.st, if readOk then Ver(s.ver) else VerError;
    if !cert.CertValid? then s.(server := Closed)
    else if Attempts(st, ver) then s.(server := Rebuilding(st, ver, NewJob(s)))
    else s.(server := Idle(Skipped(st)))
  }

  /** The scheduler may come from `st` to `after` by applying `specs`. */
  ghost predicate CanApply(e: Env, st: S.State, specs: seq<Spec>, after: S.State) {
    S.Reconciled(e.hash, e.supported, st, S.Desired(specs), after) && S.Sane(e.hash, after)
  }

  /** A bump runs after its write committed, in a statement of its own. One that fails, or whose process
      dies before it, leaves its edit without a bump for good. */
  function Bumped(s: Sys, ok: bool): Sys {
    var t := if ok then s.(ver := s.ver + 1) else if s.pending > 0 then s.(lost := s.lost + 1) else s;
    if s.pending > 0 then t.(pending := s.pending - 1) else t
  }

  /** One step; a step that is not enabled changes nothing. */
  ghost function Next(e: Env, s: Sys, step: Step): Sys {
    match step
    case Commit(db) => s.(db := db, edits := s.edits + 1, pending := s.pending + 1)
    case Bump(ok) => Bumped(s, ok)
    case SilentWrite(db) => s.(db := db, edits := s.edits + 1, lost := s.lost + 1)
    case StreamOpens =>
      if s.agent.Up? && s.agent.task.Free? && s.server.Closed?
      then s.(server := Opening(s.agent.hash), channel := []) else s
    case VersionRead(ok) =>
      if !s.server.Opening? then s
      else if ok then s.(server := FirstBuild(s.server.hello, NewJob(s))) else s.(server := Closed)
    case BuildRead => (match s.server
      case FirstBuild(h, job) => s.(server := FirstBuild(h, ReadTable(job, s.db)))
      case Rebuilding(st, v, job) => s.(server := Rebuilding(st, v, ReadTable(job, s.db)))
      case _ => s)
    case BuildEnds(err) =>
      if s.server.FirstBuild? && (err || s.server.job.pos == 4) then FirstBuildEnds(e, s, err)
      else if s.server.Rebuilding? && (err || s.server.job.pos == 4) then RebuildEnds(e, s, err)
      else s
    case TickFires(c, r) => if s.server.Idle? then TickOf(s, c, r) else s
    case Receive =>
      if s.agent.Up? && s.agent.task.Free? && s.channel != []
      then s.(agent := s.agent.(hash := HashOf(s.channel[0]), task := ToApply(s.channel[0])),
              channel := s.channel[1..]) else s
    case Apply(after) =>
      if s.agent.Up? && s.agent.task.ToApply? && CanApply(e, s.agent.sched, s.agent.task.specs, after)
      then s.(agent := s.agent.(sched := after, task := ToStore(s.agent.task.specs))) else s
    case Store(ok) =>
      if !(s.agent.Up? && s.agent.task.ToStore?) then s
      else if ok then s.(cache := Some(s.agent.task.specs), agent := s.agent.(task := Free))
      else s.(agent := s.agent.(task := ToClear))
    case Clear(ok) =>
      if !(s.agent.Up? && s.agent.task.ToClear?) then s
      else s.(cache := if ok then None else s.cache, agent := s.agent.(task := Free))
    case Disconnect => s.(server := Closed, channel := [])
    case AgentCrash => s.(agent := Down, server := Closed, channel := [])
    case AgentStart(readable, after) =>
      if !s.agent.Down? then s
      else if readable && s.cache.Some?
      then
        if CanApply(e, S.IDLE, s.cache.value, after)
        then s.(agent := Up(HashOf(s.cache.value), after, Free)) else s
      else s.(agent := Up(NoHash, S.IDLE, Free))
  }

  // ---------------------------------------------------------------- the invariant

  /** The workers are those of the snapshot with this hash; none run without one. */
  ghost predicate RunsHash(hash: Spec -> int, st: S.State, h: Hash) {
    match h
    case NoHash => st.workers == map[]
    case HashOf(specs) => S.Runs(hash, st, specs)
  }

  /** The hash the agent advertises is that of what its scheduler runs, except while it is about to
      apply what it just received. */
  ghost predicate AgentOk(e: Env, s: Sys) {
    s.agent.Up? ==>
      && S.Sane(e.hash, s.agent.sched)
      && (if s.agent.task.ToApply? then s.agent.hash == HashOf(s.agent.task.specs)
          else RunsHash(e.hash, s.agent.sched, s.agent.hash))
  }

  /** The hash the agent will have once the channel is drained. */
  function Drained(s: Sys): Hash
    requires s.agent.Up?
  {
    if s.channel == [] then s.agent.hash else HashOf(s.channel[|s.channel| - 1])
  }

  /** What is on its way ends with the server's snapshot. */
  predicate ChannelOk(s: Sys) {
    match s.server
    case Closed => true
    case Opening(hello) => s.agent.Up? && s.agent.task.Free? && s.channel == [] && s.agent.hash == hello
    case FirstBuild(hello, _) => s.agent.Up? && s.agent.task.Free? && s.channel == [] && s.agent.hash == hello
    case Idle(st) => s.agent.Up? && Drained(s) == HashOf(st.snapshot)
    case Rebuilding(st, _, _) => s.agent.Up? && Drained(s) == HashOf(st.snapshot)
  }

  /** What the build has read so far is what the database holds. */
  predicate ReadsMatch(job: BuildJob, db: Inputs) {
    && (job.pos >= 1 ==> job.got.siteId == db.siteId)
    && (job.pos >= 2 ==> job.got.direct == db.direct)
    && (job.pos >= 3 ==> job.got.mesh == db.mesh)
    && (job.pos >= 4 ==> job.got.peers == db.peers)
  }

  /** `m` is a moment before `s`: what was edited since is bumped, lost or pending by now. */
  predicate Past(m: Mark, s: Sys) {
    && m.ver <= s.ver && m.lost <= s.lost && m.edits <= s.edits
    && s.edits - m.edits <= (s.ver - m.ver) + (s.lost - m.lost) + (s.pending - m.pending)
  }

  predicate JobOk(s: Sys, job: BuildJob) {
    Past(job.start, s) && job.pos <= 4 && (job.start.edits == s.edits ==> ReadsMatch(job, s.db))
  }

  /** With no edit since the last build began, the snapshot is what the database holds. */
  ghost predicate StreamOk(e: Env, s: Sys, st: Stream) {
    && Past(s.seen, s) && st.lastVer <= s.seen.ver
    && (s.seen.edits == s.edits ==> Build(e.lib, s.db) == Snapshot(st.snapshot))
  }

  ghost predicate ServerOk(e: Env, s: Sys) {
    match s.server
    case Closed => true
    case Opening(_) => true
    case FirstBuild(_, job) => JobOk(s, job)
    case Idle(st) => StreamOk(e, s, st)
    case Rebuilding(st, ver, job) =>
      && StreamOk(e, s, st) && JobOk(s, job) && st.lastVer <= job.start.ver
      && (ver.Ver? ==> ver.v == job.start.ver)
  }

  ghost predicate Inv(e: Env, s: Sys) {
    AgentOk(e, s) && ChannelOk(s) && ServerOk(e, s)
  }

  lemma {:induction false} StepKeepsAgent(e: Env, s: Sys, step: Step)
    requires AgentOk(e, s)
    ensures AgentOk(e, Next(e, s, step))
  {
    if step.Apply? && s.agent.Up? && s.agent.task.ToApply? &&
       CanApply(e, s.agent.sched, s.agent.task.specs, step.after) {
      S.ReconciledRuns(e.hash, e.supported, s.agent.sched, s.agent.task.specs, step.after);
    } else if step.AgentStart? && s.cache.Some? && CanApply(e, S.IDLE, s.cache.value, step.after) {
      S.ReconciledRuns(e.hash, e.supported, S.IDLE, s.cache.value, step.after);
    }
  }

  lemma {:induction false} StepKeepsChannel(e: Env, s: Sys, step: Step)
    requires ChannelOk(s)
    ensures ChannelOk(Next(e, s, step))
  {
  }

  lemma {:induction false} StepKeepsServer(e: Env, s: Sys, step: Step)
    requires ServerOk(e, s)
    ensures ServerOk(e, Next(e, s, step))
  {
    if s.server.FirstBuild? || s.server.Rebuilding? {
      PastStep(e, s.server.job.start, s, step);
    }
    if s.server.Idle? || s.server.Rebuilding? {
      PastStep(e, s.seen, s, step);
    }
    if step.BuildEnds? {
      BuildEndsKeeps(e, s, step.dbError);
    } else if step.Commit? || step.SilentWrite? || step.Bump? {
      EditKeeps(e, s, step);
    }
  }

  lemma {:induction false} PastStep(e: Env, m: Mark, s: Sys, step: Step)
    requires Past(m, s)
    ensures Past(m, Next(e, s, step))
  {
  }

  lemma {:induction false} BuildEndsKeeps(e: Env, s: Sys, dbError: bool)
    requires ServerOk(e, s)
    ensures ServerOk(e, Next(e, s, BuildEnds(dbError)))
  {
  }

  lemma {:induction false} EditKeeps(e: Env, s: Sys, step: Step)
    requires ServerOk(e, s) && (step.Commit? || step.SilentWrite? || step.Bump?)
    ensures ServerOk(e, Next(e, s, step))
  {
  }

  lemma StepKeepsInv(e: Env, s: Sys, step: Step)
    requires Inv(e, s)
    ensures Inv(e, Next(e, s, step))
  {
    StepKeepsAgent(e, s, step);
    StepKeepsChannel(e, s, step);
    StepKeepsServer(e, s, step);
  }

  // ---------------------------------------------------------------- whole runs

  ghost function Run(e: Env, s: Sys, steps: seq<Step>): Sys
    decreases |steps|
  {
    if steps == [] then s else Run(e, Next(e, s, steps[0]), steps[1..])
  }

  /** Nothing runs yet; the database and the agent's cache hold whatever they hold. */
  predicate Initial(s: Sys) {
    s.server.Closed? && s.channel == [] && s.agent.Down?
  }

  lemma {:induction false} RunKeepsInv(e: Env, s: Sys, steps: seq<Step>)
    requires Inv(e, s)
    ensures Inv(e, Run(e, s, steps))
    decreases |steps|
  {
    if steps != [] {
      StepKeepsInv(e, s, steps[0]);
      RunKeepsInv(e, Next(e, s, steps[0]), steps[1..]);
    }
  }

  /** In every run: the hash the agent advertises whenever it opens a stream is that of what its
      scheduler runs; a stream that is current has sent what the database holds; and once everything
      sent has been received and applied, the agent runs exactly that. */
  lemma EveryRunConverges(e: Env, init: Sys, steps: seq<Step>)
    requires Initial(init)
    ensures var s := Run(e, init, steps);
      && (s.agent.Up? && s.agent.task.Free? ==> RunsHash(e.hash, s.agent.sched, s.agent.hash))
      && (s.server.Opening? ==> s.agent.Up? && RunsHash(e.hash, s.agent.sched, s.server.hello))
      && (s.server.Idle? && Current(s) ==> Settled(e, s))
  {
    RunKeepsInv(e, init, steps);
  }

  /** The stream holds the current version, nothing was lost on it, and no write committed since its last
      build began is still to be bumped. */
  predicate Current(s: Sys)
    requires s.server.Idle?
  {
    s.server.st.lastVer == s.ver && s.lost == s.seen.lost && s.pending <= s.seen.pending
  }

  /** The stream has sent what the database holds, and an agent that has received and applied all it was
      sent runs that: exactly its ids, each worker with its spec's hash. */
  ghost predicate Settled(e: Env, s: Sys) {
    && s.server.Idle? && s.agent.Up?
    && Build(e.lib, s.db) == Snapshot(s.server.st.snapshot)
    && (s.channel == [] && s.agent.task.Free? ==> S.Runs(e.hash, s.agent.sched, s.server.st.snapshot))
  }

  /** The initial send is skipped exactly when the agent advertises that snapshot, and then its
      scheduler already runs it. */
  lemma SkippedSendIsRedundant(e: Env, init: Sys, steps: seq<Step>)
    requires Initial(init)
    ensures var s := Run(e, init, steps);
      s.server.FirstBuild? && Outcome(e, s.server.job, false).Snapshot? ==>
        var specs := Outcome(e, s.server.job, false).specs;
        var t := FirstBuildEnds(e, s, false);
        && s.agent.Up? && (t.channel == [] <==> s.agent.hash == HashOf(specs))
        && (t.channel == [] ==> S.Runs(e.hash, s.agent.sched, specs))
        && (t.channel != [] ==> t.channel == [specs])
  {
    RunKeepsInv(e, init, steps);
  }

  // ---------------------------------------------------------------- the certificate

  /** `t` is what is left of `c` once some of its first messages were received. */
  predicate Remains<T(==)>(t: seq<T>, c: seq<T>) {
    |t| <= |c| && t == c[|c| - |t|..]
  }

  lemma {:induction false} ClosedStep(e: Env, s: Sys, step: Step)
    requires s.server.Closed? && !step.StreamOpens?
    ensures Next(e, s, step).server.Closed? && Shrinks(Next(e, s, step).channel, s.channel)
  {
  }

  /** Untouched, cleared, or its first element taken. */
  predicate Shrinks<T(==)>(t: seq<T>, c: seq<T>) {
    t == c || t == [] || (c != [] && t == c[1..])
  }

  lemma RemainsOn<T>(u: seq<T>, t: seq<T>, c: seq<T>)
    requires Remains(u, t) && Shrinks(t, c)
    ensures Remains(u, c)
  {
  }

  lemma {:induction false} ClosedSendsNothing(e: Env, s: Sys, steps: seq<Step>)
    requires s.server.Closed? && forall i :: 0 <= i < |steps| ==> !steps[i].StreamOpens?
    ensures Run(e, s, steps).server.Closed? && Remains(Run(e, s, steps).channel, s.channel)
    decreases |steps|
  {
    if steps != [] {
      ClosedStep(e, s, steps[0]);
      ClosedSendsNothing(e, Next(e, s, steps[0]), steps[1..]);
      RemainsOn(Run(e, s, steps).channel, Next(e, s, steps[0]).channel, s.channel);
    }
  }

  /** A tick that finds the loop waiting and the certificate revoked, or not to be confirmed, ends the stream
      there and then; whatever edits, ticks and agent steps follow, nothing more is sent until the agent
      opens another stream. */
  lemma RevokedStreamEnds(e: Env, s: Sys, cert: CertAnswer, readOk: bool, steps: seq<Step>)
    requires s.server.Idle? && !cert.CertValid? && forall i :: 0 <= i < |steps| ==> !steps[i].StreamOpens?
    ensures var t := Run(e, s, [TickFires(cert, readOk)] + steps);
      t.server.Closed? && Remains(t.channel, s.channel)
  {
    RunOne(e, s, TickFires(cert, readOk), steps);
    ClosedSendsNothing(e, Next(e, s, TickFires(cert, readOk)), steps);
  }

  /** The step on which opening a stream fails: the version cannot be read, or the first build fails. */
  ghost predicate FailsToOpen(e: Env, s: Sys, step: Step) {
    || (s.server.Opening? && step == VersionRead(false))
    || (s.server.FirstBuild? && step == BuildEnds(true))
    || (s.server.FirstBuild? && s.server.job.pos == 4 && step == BuildEnds(false)
        && Build(e.lib, s.server.job.got).Duplicate?)
  }

  /** Such a stream ends without having sent anything. */
  lemma FailedOpeningSendsNothing(e: Env, s: Sys, step: Step, steps: seq<Step>)
    requires ChannelOk(s) && FailsToOpen(e, s, step)
    requires forall i :: 0 <= i < |steps| ==> !steps[i].StreamOpens?
    ensures var t := Run(e, s, [step] + steps);
      t.server.Closed? && t.channel == []
  {
    RunOne(e, s, step, steps);
    ClosedSendsNothing(e, Next(e, s, step), steps);
  }

  /** What was on its way is lost with the connection. */
  lemma DisconnectLosesChannel(e: Env, s: Sys, step: Step, steps: seq<Step>)
    requires step.Disconnect? || step.AgentCrash?
    requires forall i :: 0 <= i < |steps| ==> !steps[i].StreamOpens?
    ensures var t := Run(e, s, [step] + steps);
      t.server.Closed? && t.channel == []
  {
    RunOne(e, s, step, steps);
    ClosedSendsNothing(e, Next(e, s, step), steps);
  }

  // ---------------------------------------------------------------- one undisturbed tick

  /** A tick with an undisturbed build, if it makes one. */
  function Round(readOk: bool): seq<Step> {
    [TickFires(CertValid, readOk), BuildRead, BuildRead, BuildRead, BuildRead, BuildEnds(false)]
  }

  /** What such a tick comes to. */
  ghost function AfterRound(e: Env, s: Sys, readOk: bool): Sys
    requires s.server.Idle?
  {
    var st, ver := s.server.st, if readOk then Ver(s.ver) else VerError;
    if !Attempts(st, ver) then s.(server := Idle(Skipped(st)))
    else RebuildEnds(e, s.(server := Rebuilding(st, ver, BuildJob(s.db, 4, Now(s)))), false)
  }

  lemma RunOne(e: Env, s: Sys, a: Step, rest: seq<Step>)
    ensures Run(e, s, [a] + rest) == Run(e, Next(e, s, a), rest)
  {
    assert ([a] + rest)[1..] == rest;
  }

  /** The four reads of a build nothing disturbs. */
  lemma FourReads(e: Env, s: Sys, st: Stream, ver: VerRead)
    requires s.server == Rebuilding(st, ver, NewJob(s))
    ensures var s4 := Next(e, Next(e, Next(e, Next(e, s, BuildRead), BuildRead), BuildRead), BuildRead);
      s4 == s.(server := Rebuilding(st, ver, BuildJob(s.db, 4, Now(s))))
  {
  }

  lemma RunReads(e: Env, s: Sys, st: Stream, ver: VerRead)
    requires s.server == Rebuilding(st, ver, NewJob(s))
    ensures Run(e, s, [BuildRead, BuildRead, BuildRead, BuildRead, BuildEnds(false)]) ==
            Next(e, s.(server := Rebuilding(st, ver, BuildJob(s.db, 4, Now(s)))), BuildEnds(false))
  {
    var s1 := Next(e, s, BuildRead);
    var s2 := Next(e, s1, BuildRead);
    var s3 := Next(e, s2, BuildRead);
    RunOne(e, s, BuildRead, [BuildRead, BuildRead, BuildRead, BuildEnds(false)]);
    RunOne(e, s1, BuildRead, [BuildRead, BuildRead, BuildEnds(false)]);
    RunOne(e, s2, BuildRead, [BuildRead, BuildEnds(false)]);
    RunOne(e, s3, BuildRead, [BuildEnds(false)]);
    RunOne(e, Next(e, s3, BuildRead), BuildEnds(false), []);
    FourReads(e, s, st, ver);
  }

  lemma RunIdles(e: Env, s: Sys)
    requires s.server.Idle?
    ensures Run(e, s, [BuildRead, BuildRead, BuildRead, BuildRead, BuildEnds(false)]) == s
  {
    RunOne(e, s, BuildRead, [BuildRead, BuildRead, BuildRead, BuildEnds(false)]);
    RunOne(e, s, BuildRead, [BuildRead, BuildRead, BuildEnds(false)]);
    RunOne(e, s, BuildRead, [BuildRead, BuildEnds(false)]);
    RunOne(e, s, BuildRead, [BuildEnds(false)]);
    RunOne(e, s, BuildEnds(false), []);
  }

  lemma RoundRuns(e: Env, s: Sys, readOk: bool)
    requires s.server.Idle?
    ensures Run(e, s, Round(readOk)) == AfterRound(e, s, readOk)
  {
    var st, ver := s.server.st, if readOk then Ver(s.ver) else VerError;
    RunOne(e, s, TickFires(CertValid, readOk), [BuildRead, BuildRead, BuildRead, BuildRead, BuildEnds(false)]);
    var t := TickOf(s, CertValid, readOk);
    assert Next(e, s, TickFires(CertValid, readOk)) == t;
    if Attempts(st, ver) {
      RunReads(e, t, st, ver);
      BuildEndsRebuild(e, s.(server := Rebuilding(st, ver, BuildJob(s.db, 4, Now(s)))));
    } else {
      RunIdles(e, t);
    }
  }

  lemma BuildEndsRebuild(e: Env, s: Sys)
    requires s.server.Rebuilding? && s.server.job.pos == 4
    ensures Next(e, s, BuildEnds(false)) == RebuildEnds(e, s, false)
  {
  }

  /** In the stream's own terms it is one tick of its loop, which sends the snapshot exactly when it is
      another one. */
  lemma RoundIsTick(e: Env, s: Sys, readOk: bool)
    requires s.server.Idle?
    ensures AfterRound(e, s, readOk).server ==
            Idle(Ticked(s.server.st, if readOk then Ver(s.ver) else VerError, Build(e.lib, s.db)))
    ensures AfterRound(e, s, readOk).channel == s.channel +
            (if AfterRound(e, s, readOk).server.st.snapshot == s.server.st.snapshot then []
             else [AfterRound(e, s, readOk).server.st.snapshot])
  {
  }

  lemma {:induction false} RunConcat(e: Env, s: Sys, a: seq<Step>, b: seq<Step>)
    ensures Run(e, s, a + b) == Run(e, Run(e, s, a), b)
    decreases |a|
  {
    if a == [] {
      assert a + b == b;
    } else {
      assert (a + b)[1..] == a[1..] + b;
      RunConcat(e, Next(e, s, a[0]), a[1..], b);
    }
  }

  // ---------------------------------------------------------------- edits, in any interleaving

  /** An agent that restarts with a readable cache runs the cached snapshot and advertises it; without one it
      runs nothing and advertises nothing. */
  lemma RestartRunsCache(e: Env, s: Sys, readable: bool, after: S.State)
    requires s.agent.Down? && (readable && s.cache.Some? ==> CanApply(e, S.IDLE, s.cache.value, after))
    ensures var a := Next(e, s, AgentStart(readable, after)).agent;
      && a.Up? && a.task.Free?
      && (a.hash == NoHash <==> !readable || s.cache.None?)
      && (a.hash != NoHash ==> a.hash == HashOf(s.cache.value) && S.Runs(e.hash, a.sched, s.cache.value))
      && (a.hash == NoHash ==> a.sched.workers == map[])
  {
  }

  /** A step that does not end the stream. */
  predicate Calm(step: Step) {
    !step.Disconnect? && !step.AgentCrash? && (step.TickFires? ==> step.cert.CertValid?)
  }

  /** If the step ends a build of the stream, that build succeeds. */
  ghost predicate BuildSucceeds(e: Env, s: Sys, step: Step) {
    step.BuildEnds? && s.server.Rebuilding? && (step.dbError || s.server.job.pos == 4) ==>
      Outcome(e, s.server.job, step.dbError).Snapshot?
  }

  /** Steps of any kind in any order, edits of every kind among them, during which the stream stays up and
      builds succeed. */
  ghost predicate Undisturbed(e: Env, s: Sys, steps: seq<Step>)
    decreases |steps|
  {
    steps != [] ==>
      Calm(steps[0]) && BuildSucceeds(e, s, steps[0]) && Undisturbed(e, Next(e, s, steps[0]), steps[1..])
  }

  function Ticked01(s: Sys, step: Step): nat {
    if step.TickFires? && s.server.Idle? then 1 else 0
  }

  /** The ticks that find the stream loop waiting. */
  ghost function Ticks(e: Env, s: Sys, steps: seq<Step>): nat
    decreases |steps|
  {
    if steps == [] then 0 else Ticked01(s, steps[0]) + Ticks(e, Next(e, s, steps[0]), steps[1..])
  }

  /** A tick among them whose version read succeeds. */
  ghost predicate TickReads(e: Env, s: Sys, steps: seq<Step>)
    decreases |steps|
  {
    steps != [] &&
    ((steps[0].TickFires? && s.server.Idle? && steps[0].readOk) || TickReads(e, Next(e, s, steps[0]), steps[1..]))
  }

  /** `m` is a moment no earlier than `s`. */
  predicate Since(m: Mark, s: Sys) {
    s.ver <= m.ver && s.lost <= m.lost && s.edits <= m.edits
  }

  /** `n` ticks after `s0` and `base` before it: a build that began after `s0` has finished or is under way,
      or a forced one is not due yet. */
  predicate Catching(s0: Sys, s: Sys, base: nat, n: nat) {
    Since(Now(s), s0) &&
    match s.server
    case Idle(st) =>
      Since(s.seen, s0) || (st.sinceRebuild == base + n && (n > 0 ==> base + n < FORCED_REBUILD_TICKS))
    case Rebuilding(st, ver, job) => Since(job.start, s0)
    case _ => false
  }

  lemma {:induction false} CatchingStep(e: Env, s0: Sys, s: Sys, step: Step, base: nat, n: nat)
    requires Catching(s0, s, base, n) && Calm(step) && BuildSucceeds(e, s, step)
    ensures Catching(s0, Next(e, s, step), base, n + Ticked01(s, step))
  {
  }

  lemma {:induction false} CatchingRun(e: Env, s0: Sys, s: Sys, steps: seq<Step>, base: nat, n: nat)
    requires Catching(s0, s, base, n) && Undisturbed(e, s, steps)
    ensures Catching(s0, Run(e, s, steps), base, n + Ticks(e, s, steps))
    decreases |steps|
  {
    if steps != [] {
      CatchingStep(e, s0, s, steps[0], base, n);
      CatchingRun(e, s0, Next(e, s, steps[0]), steps[1..], base, n + Ticked01(s, steps[0]));
    }
  }

  /** Any edit, also one that bumped no version or whose bump failed, is in the stream's snapshot after ten
      ticks: whatever further edits, agent steps and failed version reads come between, the last finished
      build then began after it. If no edit came since, the stream has sent exactly what the database
      holds, even if no version could be read at all. */
  lemma SilentEditPickedUp(e: Env, s: Sys, steps: seq<Step>)
    requires Inv(e, s) && s.server.Idle? && Undisturbed(e, s, steps)
    requires Ticks(e, s, steps) >= 1 && Ticks(e, s, steps) + s.server.st.sinceRebuild >= FORCED_REBUILD_TICKS
    ensures var t := Run(e, s, steps);
      t.server.Idle? ==> Since(t.seen, s) && (t.edits == s.edits || Current(t) ==> Settled(e, t))
  {
    CatchingRun(e, s, s, steps, s.server.st.sinceRebuild, 0);
    RunKeepsInv(e, s, steps);
  }

  predicate NoEdit(step: Step) {
    !step.Commit? && !step.SilentWrite?
  }

  lemma {:induction false} NoEditRun(e: Env, s: Sys, steps: seq<Step>)
    requires forall i :: 0 <= i < |steps| ==> NoEdit(steps[i])
    ensures Run(e, s, steps).db == s.db && Run(e, s, steps).edits == s.edits
    decreases |steps|
  {
    if steps != [] {
      NoEditStep(e, s, steps[0]);
      NoEditRun(e, Next(e, s, steps[0]), steps[1..]);
    }
  }

  lemma {:induction false} NoEditStep(e: Env, s: Sys, step: Step)
    requires NoEdit(step)
    ensures Next(e, s, step).db == s.db && Next(e, s, step).edits == s.edits
  {
  }

  /** Over steps that edit nothing, those ten ticks send exactly what the database held. */
  lemma SilentEditSent(e: Env, s: Sys, steps: seq<Step>)
    requires Inv(e, s) && s.server.Idle? && Undisturbed(e, s, steps)
    requires forall i :: 0 <= i < |steps| ==> NoEdit(steps[i])
    requires Ticks(e, s, steps) >= 1 && Ticks(e, s, steps) + s.server.st.sinceRebuild >= FORCED_REBUILD_TICKS
    ensures var t := Run(e, s, steps);
      t.db == s.db && (t.server.Idle? ==> Settled(e, t))
  {
    SilentEditPickedUp(e, s, steps);
    NoEditRun(e, s, steps);
  }

  /** On the way to a build that begins after `s0`; `got` once a tick has read the version. */
  predicate Pursuing(s0: Sys, s: Sys, got: bool) {
    Since(Now(s), s0) &&
    match s.server
    case Idle(st) => if got then s0.ver <= st.lastVer && Since(s.seen, s0) else st.lastVer < s0.ver
    case Rebuilding(st, ver, job) =>
      && Since(job.start, s0)
      && (if got then s0.ver <= (if ver.Ver? then ver.v else st.lastVer) else ver.VerError? && st.lastVer < s0.ver)
    case _ => false
  }

  lemma {:induction false} PursuingStep(e: Env, s0: Sys, s: Sys, step: Step, got: bool)
    requires Pursuing(s0, s, got) && Calm(step) && BuildSucceeds(e, s, step)
    ensures Pursuing(s0, Next(e, s, step), got || (step.TickFires? && s.server.Idle? && step.readOk))
  {
  }

  lemma {:induction false} PursuingRun(e: Env, s0: Sys, s: Sys, steps: seq<Step>, got: bool)
    requires Pursuing(s0, s, got) && Undisturbed(e, s, steps)
    ensures Pursuing(s0, Run(e, s, steps), got || TickReads(e, s, steps))
    decreases |steps|
  {
    if steps != [] {
      PursuingStep(e, s0, s, steps[0], got);
      PursuingRun(e, s0, Next(e, s, steps[0]), steps[1..],
                  got || (steps[0].TickFires? && s.server.Idle? && steps[0].readOk));
    }
  }

  /** Once an edit's bump has landed, the first tick that can read it picks the edit up, and with it every
      other edit made by then, bumped or not, in whatever order further edits and agent steps come between:
      the last finished build began after them. The stream is then settled unless yet another edit came,
      and in any case once it is current. */
  lemma EditPickedUpNextTick(e: Env, s: Sys, steps: seq<Step>)
    requires Inv(e, s) && s.server.Idle? && s.server.st.lastVer != s.ver
    requires Undisturbed(e, s, steps) && TickReads(e, s, steps)
    ensures var t := Run(e, s, steps);
      t.server.Idle? ==>
        && s.ver <= t.server.st.lastVer <= t.ver && Since(t.seen, s)
        && (t.edits == s.edits || Current(t) ==> Settled(e, t))
  {
    PursuingRun(e, s, s, steps, false);
    RunKeepsInv(e, s, steps);
  }

  /** A bump that lands always leaves the stream behind the version. */
  lemma BumpIsNoticed(e: Env, s: Sys)
    requires Inv(e, s) && s.server.Idle?
    ensures var t := Next(e, s, Bump(true));
      t.server == s.server && t.server.st.lastVer < t.ver
  {
  }

  // ---------------------------------------------------------------- between a commit and its bump

  function Commits(db: Inputs, n: nat): seq<Step> {
    if n == 0 then [] else [Commit(db)] + Commits(db, n - 1)
  }

  lemma {:induction false} CommitsRun(e: Env, s: Sys, db: Inputs, n: nat)
    ensures Run(e, s, Commits(db, n)) ==
            if n == 0 then s else s.(db := db, edits := s.edits + n, pending := s.pending + n)
    decreases n
  {
    if n > 0 {
      RunOne(e, s, Commit(db), Commits(db, n - 1));
      CommitsRun(e, Next(e, s, Commit(db)), db, n - 1);
    }
  }

  /** The run the version gate cannot see: a write commits, and a tick before its bump reads the old
      version and skips. The stream then holds the current version, nothing went behind the store's back,
      and yet it has sent what the database held before, whatever the write was. */
  lemma TickBeforeBumpSkips(e: Env, s: Sys, db: Inputs)
    requires s.server.Idle? && s.server.st.lastVer == s.ver && s.server.st.sinceRebuild + 1 < FORCED_REBUILD_TICKS
    ensures var t := Run(e, s, [Commit(db), TickFires(CertValid, true)]);
      && t.db == db && t.lost == s.lost && t.server == Idle(Skipped(s.server.st)) && t.server.st.lastVer == t.ver
      && (Settled(e, t) ==> Build(e.lib, db) == Snapshot(s.server.st.snapshot))
  {
    RunOne(e, s, Commit(db), [TickFires(CertValid, true)]);
    RunOne(e, Next(e, s, Commit(db)), TickFires(CertValid, true), []);
    assert [Commit(db), TickFires(CertValid, true)] == [Commit(db)] + [TickFires(CertValid, true)];
    assert [TickFires(CertValid, true)] == [TickFires(CertValid, true)] + [];
  }

  /** The first stream of an agent without a cache. */
  const FIRST := [AgentStart(false, S.IDLE), StreamOpens, VersionRead(true),
                  BuildRead, BuildRead, BuildRead, BuildRead, BuildEnds(false)]

  lemma FirstReads(e: Env, s: Sys, hello: Hash)
    requires s.server == FirstBuild(hello, NewJob(s))
    ensures Run(e, s, [BuildRead, BuildRead, BuildRead, BuildRead, BuildEnds(false)]) ==
            FirstBuildEnds(e, s.(server := FirstBuild(hello, BuildJob(s.db, 4, Now(s)))), false)
  {
    var s1 := Next(e, s, BuildRead);
    var s2 := Next(e, s1, BuildRead);
    var s3 := Next(e, s2, BuildRead);
    var s4 := Next(e, s3, BuildRead);
    RunOne(e, s, BuildRead, [BuildRead, BuildRead, BuildRead, BuildEnds(false)]);
    RunOne(e, s1, BuildRead, [BuildRead, BuildRead, BuildEnds(false)]);
    RunOne(e, s2, BuildRead, [BuildRead, BuildEnds(false)]);
    RunOne(e, s3, BuildRead, [BuildEnds(false)]);
    RunOne(e, s4, BuildEnds(false), []);
    assert s4 == s.(server := FirstBuild(hello, BuildJob(s.db, 4, Now(s))));
  }

  const FIRST_BUILD := [BuildRead, BuildRead, BuildRead, BuildRead, BuildEnds(false)]

  lemma OpeningSteps(e: Env, init: Sys)
    requires Initial(init)
    ensures var s1 := init.(agent := Up(NoHash, S.IDLE, Free));
      var s2 := s1.(server := Opening(NoHash));
      && Next(e, init, AgentStart(false, S.IDLE)) == s1
      && Next(e, s1, StreamOpens) == s2
      && Next(e, s2, VersionRead(true)) == s1.(server := FirstBuild(NoHash, NewJob(init)))
  {
  }

  lemma FirstOpens(e: Env, init: Sys)
    requires Initial(init)
    ensures Run(e, init, [AgentStart(false, S.IDLE)] + ([StreamOpens] + ([VersionRead(true)] + FIRST_BUILD))) ==
            Run(e, init.(agent := Up(NoHash, S.IDLE, Free), server := FirstBuild(NoHash, NewJob(init))), FIRST_BUILD)
  {
    var s1 := init.(agent := Up(NoHash, S.IDLE, Free));
    var s2 := s1.(server := Opening(NoHash));
    OpeningSteps(e, init);
    RunOne(e, init, AgentStart(false, S.IDLE), [StreamOpens] + ([VersionRead(true)] + FIRST_BUILD));
    RunOne(e, s1, StreamOpens, [VersionRead(true)] + FIRST_BUILD);
    RunOne(e, s2, VersionRead(true), FIRST_BUILD);
  }

  lemma FirstRuns(e: Env, init: Sys, specs: seq<Spec>)
    requires Initial(init) && Build(e.lib, init.db) == Snapshot(specs)
    ensures Run(e, init, FIRST) ==
            init.(server := Idle(Stream(init.ver, specs, 0)), seen := Now(init), channel := [specs],
                  agent := Up(NoHash, S.IDLE, Free))
  {
    var s := init.(agent := Up(NoHash, S.IDLE, Free), server := FirstBuild(NoHash, NewJob(init)));
    FirstOpens(e, init);
    assert [AgentStart(false, S.IDLE)] + ([StreamOpens] + ([VersionRead(true)] + FIRST_BUILD)) == FIRST;
    assert NewJob(s) == NewJob(init);
    FirstReads(e, s, NoHash);
  }

  /** In every run, a stream that holds the current version, with nothing lost on it, `p` writes pending now
      and `q` when its last build began, has sent what the database holds. */
  ghost predicate GateHolds(q: nat, p: nat) {
    forall e, init, steps :: Initial(init) && GateState(Run(e, init, steps), q, p) ==>
      Build(e.lib, Run(e, init, steps).db) == Snapshot(Run(e, init, steps).server.st.snapshot)
  }

  predicate GateState(s: Sys, q: nat, p: nat) {
    s.server.Idle? && s.server.st.lastVer == s.ver && s.lost == s.seen.lost && s.seen.pending == q && s.pending == p
  }

  /** That is so exactly when no more writes are pending now than then: the version gate alone does not
      tell that a stream is in step with the database. */
  lemma VersionGateIff(q: nat, p: nat)
    ensures GateHolds(q, p) <==> p <= q
  {
    if p <= q {
      forall e, init, steps | Initial(init) && GateState(Run(e, init, steps), q, p)
        ensures Build(e.lib, Run(e, init, steps).db) == Snapshot(Run(e, init, steps).server.st.snapshot)
      {
        EveryRunConverges(e, init, steps);
      }
    } else {
      GateFails(q, p);
    }
  }

  const ONE_PROBE := Inputs(0, [Direct(0, Settings(0, 1, 1, 0, 0, map[]), false, 0, "", 0, "")], [], [])

  lemma EmptyBuild(lib: Library)
    ensures Build(lib, NOTHING) == Snapshot([]) && Build(lib, ONE_PROBE) != Snapshot([])
  {
    assert Expanded(lib, NOTHING) == [];
    assert |Expanded(lib, ONE_PROBE)| == 1 by {
      assert ONE_PROBE.direct[..0] == [];
    }
    if Build(lib, ONE_PROBE) == Snapshot([]) {
      SnapshotHoldsExactly(lib, ONE_PROBE, DirectSpec(ONE_PROBE.direct[0]));
    }
  }

  /** `q` writes pending when the stream starts, and `n` more afterwards. */
  lemma GateRun(e: Env, init: Sys, n: nat)
    requires Initial(init) && init.db == NOTHING && n > 0
    ensures var s := Run(e, init, FIRST + Commits(ONE_PROBE, n));
      GateState(s, init.pending, init.pending + n) && s.db == ONE_PROBE && s.server.st.snapshot == []
  {
    EmptyBuild(e.lib);
    FirstRuns(e, init, []);
    RunConcat(e, init, FIRST, Commits(ONE_PROBE, n));
    CommitsRun(e, Run(e, init, FIRST), ONE_PROBE, n);
  }

  lemma GateFails(q: nat, p: nat)
    requires p > q
    ensures !GateHolds(q, p)
  {
    var e := Env(Library((a, b, c) => 0, x => 0), x => 0, {});
    var init := Sys(NOTHING, 0, q, 0, 0, Mark(0, 0, 0, 0), Closed, [], Down, None);
    GateRun(e, init, p - q);
    EmptyBuild(e.lib);
  }

  // ---------------------------------------------------------------- why the bump comes second

  function Polls(n: nat): seq<Step> {
    if n == 0 then [] else [TickFires(CertValid, true)] + Polls(n - 1)
  }

  lemma {:induction false} PollsSkip(e: Env, s: Sys, n: nat)
    requires s.server.Idle? && s.server.st.lastVer == s.ver && s.server.st.sinceRebuild + n < FORCED_REBUILD_TICKS
    ensures Run(e, s, Polls(n)) ==
            s.(server := Idle(s.server.st.(sinceRebuild := s.server.st.sinceRebuild + n)))
    decreases n
  {
    if n > 0 {
      RunOne(e, s, TickFires(CertValid, true), Polls(n - 1));
      PollsSkip(e, Next(e, s, TickFires(CertValid, true)), n - 1);
    }
  }

  /** Bumping before the commit would let a build mask the write: a tick between the two takes the new
      version for rows it has not seen, and no tick short of a forced rebuild notices. */
  lemma BumpFirstMasks(e: Env, s: Sys, db: Inputs, specs: seq<Spec>, n: nat)
    requires Inv(e, s) && s.server.Idle? && Build(e.lib, s.db) == Snapshot(specs) && n < FORCED_REBUILD_TICKS
    ensures var t := Run(e, s, [Bump(true)] + (Round(true) + ([SilentWrite(db)] + Polls(n))));
      t.db == db && t.server == Idle(Stream(t.ver, specs, n))
  {
    var s1 := Next(e, s, Bump(true));
    RunOne(e, s, Bump(true), Round(true) + ([SilentWrite(db)] + Polls(n)));
    RunConcat(e, s1, Round(true), [SilentWrite(db)] + Polls(n));
    RoundRuns(e, s1, true);
    var s2 := AfterRound(e, s1, true);
    assert s2.server == Idle(Stream(s1.ver, specs, 0));
    RunOne(e, s2, SilentWrite(db), Polls(n));
    PollsSkip(e, Next(e, s2, SilentWrite(db)), n);
  }
}
