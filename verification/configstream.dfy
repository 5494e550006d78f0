/** The server's side of a config stream: when a tick rebuilds the snapshot, and what it sends. */
module ConfigStream {
  import opened MeshExpand

  const FORCED_REBUILD_TICKS: nat := 10

  /** A content hash, taken as collision-free: the specs it was computed from. */
  datatype Hash = NoHash | HashOf(specs: seq<Spec>)

  /** The variables of the stream loop. */
  datatype Stream = Stream(lastVer: int, snapshot: seq<Spec>, sinceRebuild: nat)

  /** What the database answers about the stream's certificate; an error is no confirmation. */
  datatype CertAnswer = CertValid | CertRevoked | CertUnknown

  /** How a tick ends: the stream is closed, and the revocation cached if there is one, or it goes on. */
  datatype TickResult = Ended(revoked: bool) | Kept(sent: bool)

  datatype VerRead = VerError | Ver(v: int)

  /** A tick rebuilds when the version read differs from that of the last build, or when it is time
      for a forced rebuild. */
  predicate Attempts(st: Stream, ver: VerRead) {
    (ver.Ver? && ver.v != st.lastVer) || st.sinceRebuild + 1 >= FORCED_REBUILD_TICKS
  }

  /** The loop variables after a tick that attempted no build, or whose build failed. */
  function Skipped(st: Stream): Stream {
    st.(sinceRebuild := st.sinceRebuild + 1)
  }

  /** The loop variables after a tick whose build gave `built`. */
  function Rebuilt(st: Stream, ver: VerRead, built: seq<Spec>): Stream {
    Stream(if ver.Ver? then ver.v else st.lastVer, built, 0)
  }

  /** One tick: `built` is what a build would give. */
  function Ticked(st: Stream, ver: VerRead, built: Built): Stream {
    if Attempts(st, ver) && built.Snapshot? then Rebuilt(st, ver, built.specs) else Skipped(st)
  }

  class StreamLoop {
    var lastVer: int
    var snapshot: seq<Spec>
    var sinceRebuild: nat

    function St(): Stream
      reads this
    {
      Stream(lastVer, snapshot, sinceRebuild)
    }

    /** The initial snapshot; it is sent unless the agent advertises its hash. */
    constructor (ver: int, first: seq<Spec>)
      ensures St() == Stream(ver, first, 0)
    {
      lastVer, snapshot, sinceRebuild := ver, first, 0;
    }

    /** One tick. Without a certificate confirmed valid the stream ends and nothing is sent; otherwise it
        sends exactly when the rebuilt snapshot differs from the last one sent. */
    method Tick(cert: CertAnswer, ver: VerRead, built: Built) returns (r: TickResult)
      modifies this
      ensures cert.CertValid? <==> r.Kept?
      ensures r.Ended? ==> St() == old(St()) && (r.revoked <==> cert.CertRevoked?)
      ensures r.Kept? ==> St() == Ticked(old(St()), ver, built)
      ensures r.Kept? ==>
        if built.Snapshot? && ((ver.Ver? && ver.v != old(lastVer)) || old(sinceRebuild) >= 9)
        then snapshot == built.specs && sinceRebuild == 0 && lastVer == (if ver.Ver? then ver.v else old(lastVer))
        else snapshot == old(snapshot) && sinceRebuild == old(sinceRebuild) + 1 && lastVer == old(lastVer)
      ensures r.Kept? ==> (r.sent <==> HashOf(snapshot) != HashOf(old(snapshot)))
    {
      if cert.CertUnknown? { return Ended(false); }
      if cert.CertRevoked? { return Ended(true); }
      var send := false;
      sinceRebuild := sinceRebuild + 1;
      if (ver.Ver? && ver.v != lastVer) || sinceRebuild >= FORCED_REBUILD_TICKS {
        if built.Snapshot? {
          if HashOf(built.specs) != HashOf(snapshot) {
            send := true;
            snapshot := built.specs;
          }
          if ver.Ver? {
            lastVer := ver.v;
          }
          sinceRebuild := 0;
        }
      }
      r := Kept(send);
    }
  }

  // ---------------------------------------------------------------- ticks in a row

  datatype Tick = Tick(ver: VerRead, built: Built)

  function Run(st: Stream, ticks: seq<Tick>): Stream
    decreases |ticks|
  {
    if ticks == [] then st else Run(Ticked(st, ticks[0].ver, ticks[0].built), ticks[1..])
  }

  /** Some tick of the run finished a build. */
  predicate Rebuilds(st: Stream, ticks: seq<Tick>)
    decreases |ticks|
  {
    ticks != [] &&
    ((Attempts(st, ticks[0].ver) && ticks[0].built.Snapshot?) ||
     Rebuilds(Ticked(st, ticks[0].ver, ticks[0].built), ticks[1..]))
  }

  /** While builds succeed, no ten ticks in a row pass without one: that bounds how long an edit that
      bumps no version goes unnoticed. */
  lemma {:induction false} RebuildsWithinTen(st: Stream, ticks: seq<Tick>)
    requires forall i :: 0 <= i < |ticks| ==> ticks[i].built.Snapshot?
    requires |ticks| + st.sinceRebuild >= FORCED_REBUILD_TICKS && ticks != []
    ensures Rebuilds(st, ticks)
    decreases |ticks|
  {
    if !Attempts(st, ticks[0].ver) {
      RebuildsWithinTen(Skipped(st), ticks[1..]);
    }
  }

  /** While builds succeed, fewer than ten ticks have passed since the last one. */
  lemma {:induction false} CountStaysBelow(st: Stream, ticks: seq<Tick>)
    requires forall i :: 0 <= i < |ticks| ==> ticks[i].built.Snapshot?
    requires st.sinceRebuild < FORCED_REBUILD_TICKS
    ensures Run(st, ticks).sinceRebuild < FORCED_REBUILD_TICKS
    decreases |ticks|
  {
    if ticks != [] {
      CountStaysBelow(Ticked(st, ticks[0].ver, ticks[0].built), ticks[1..]);
    }
  }

  /** After a failed build the next tick tries again, exactly when its version read succeeds (versions
      never go back) or a forced rebuild is due. */
  lemma FailedBuildRetries(st: Stream, ver: VerRead, next: VerRead)
    requires Attempts(st, ver)
    requires ver.Ver? ==> st.lastVer <= ver.v
    requires next.Ver? && ver.Ver? ==> ver.v <= next.v
    ensures var after := Ticked(st, ver, Duplicate);
      && after.lastVer == st.lastVer && after.snapshot == st.snapshot
      && (Attempts(after, next) <==> next.Ver? || st.sinceRebuild + 2 >= FORCED_REBUILD_TICKS)
  {
  }

  /** It is not retried when the version read fails: one failed build at version 1 and one failed
      read leave the stream waiting. */
  lemma FailedReadDelaysRetry()
    ensures var st := Stream(0, [], 0);
      Attempts(st, Ver(1)) && !Attempts(Ticked(st, Ver(1), Duplicate), VerError)
  {
  }
}
