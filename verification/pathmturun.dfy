/** The path-MTU prober around the search: replies folded in as they come, the size loop, the
    result, and the server's reading of it. */
module PathMtu {
  import opened PathMtuSpec

  const RETRIES_PER_SIZE: nat := 3

  // ---------------------------------------------------------------- folding replies

  datatype Kind = Echo | Frag
  datatype Reply = Reply(kind: Kind, seqNo: int, mtu: int, at: int)
  datatype Sent = Sent(size: int, at: int)
  datatype Resolution = Unresolved | Resolved(v: Verdict, adv: int)

  datatype FolderState = FolderState(search: Search, sentAt: map<int, Sent>, rtt: map<int, int>)

  /** A duration in microseconds, truncated toward zero. */
  function Micros(ns: int): (us: int)
    ensures if ns >= 0 then 1000 * us <= ns < 1000 * us + 1000 else 1000 * us - 1000 < ns <= 1000 * us
  {
    if ns >= 0 then ns / 1000 else -(-ns / 1000)
  }

  function BestRtt(rtt: map<int, int>, size: int, r: int): map<int, int> {
    if size in rtt && rtt[size] <= r then rtt else rtt[size := r]
  }

  /** A reply for the size under test resolves it; a late one for another size is evidence. */
  function Folded(f: FolderState, ev: Reply, cur: int): (FolderState, Resolution) {
    if ev.seqNo !in f.sentAt then (f, Unresolved)
    else
      var sp := f.sentAt[ev.seqNo];
      match ev.kind
      case Echo =>
        var g := f.(rtt := BestRtt(f.rtt, sp.size, Micros(ev.at - sp.at)));
        if sp.size == cur then (g, Resolved(Delivered, 0))
        else (g.(search := Recorded(g.search, sp.size, Delivered, 0)), Unresolved)
      case Frag =>
        if sp.size == cur then (f, Resolved(TooBig, ev.mtu))
        else (f.(search := Recorded(f.search, sp.size, TooBig, ev.mtu)), Unresolved)
  }

  /** What every result rests on: a sound search whose delivered size has a round-trip time. */
  ghost predicate Converging(f: FolderState) {
    Sound(f.search) && MaxFirst(f.search) && (f.search.lo > 0 ==> f.search.lo in f.rtt)
  }

  /** Every probe in flight is of a tested size or of the one under test. */
  ghost predicate Tracking(f: FolderState, cur: int) {
    && Converging(f)
    && (forall q :: q in f.sentAt ==> f.sentAt[q].size in f.search.tested || f.sentAt[q].size == cur)
  }

  /** From `f` to `g` only late evidence arrived. */
  ghost predicate OnlyLate(f: FolderState, g: FolderState) {
    && Tighter(f.search, g.search) && g.search.tested == f.search.tested
    && f.rtt.Keys <= g.rtt.Keys
  }

  lemma {:induction false} FoldKeeps(f: FolderState, ev: Reply, cur: int)
    requires Tracking(f, cur) && cur !in f.search.tested
    ensures var (g, r) := Folded(f, ev, cur);
      && Tracking(g, cur) && OnlyLate(f, g) && g.sentAt == f.sentAt
      && (r.Resolved? && r.v.Delivered? ==> cur in g.rtt)
      && (r.Resolved? ==> r.v.Delivered? || r.v.TooBig?)
  {
    if ev.seqNo in f.sentAt {
      var sp := f.sentAt[ev.seqNo];
      if sp.size != cur {
        RecordTightens(f.search, sp.size, TooBig, ev.mtu);
        assert f.search.tested + {sp.size} == f.search.tested;
        LateEchoIsInert(f.search, sp.size);
      }
    }
  }

  // ---------------------------------------------------------------- the best round-trip time

  datatype FolderEvent =
    | Sends(seqNo: int, sent: Sent)
    | Hears(ev: Reply, cur: int)
    | Judges(size: int, v: Verdict, adv: int)

  /** The folder after packets were sent, replies folded and sizes judged, in any order. */
  function FolderAfter(f: FolderState, evs: seq<FolderEvent>): FolderState {
    if evs == [] then f
    else
      var g := FolderAfter(f, evs[..|evs| - 1]);
      match evs[|evs| - 1]
      case Sends(q, sent) => g.(sentAt := g.sentAt[q := sent])
      case Hears(ev, cur) => Folded(g, ev, cur).0
      case Judges(size, v, adv) => g.(search := Recorded(g.search, size, v, adv))
  }

  /** The evidence in these events: what was judged, and every reply to a packet of another size than the one
      under test. */
  function EvidenceIn(f: FolderState, evs: seq<FolderEvent>): seq<Evidence> {
    if evs == [] then []
    else
      var before, sent := EvidenceIn(f, evs[..|evs| - 1]), FolderAfter(f, evs[..|evs| - 1]).sentAt;
      match evs[|evs| - 1]
      case Sends(_, _) => before
      case Judges(size, v, adv) => before + [Evidence(size, v, adv)]
      case Hears(ev, cur) =>
        if ev.seqNo !in sent || sent[ev.seqNo].size == cur then before
        else if ev.kind.Echo? then before + [Evidence(sent[ev.seqNo].size, Delivered, 0)]
        else before + [Evidence(sent[ev.seqNo].size, TooBig, ev.mtu)]
  }

  /** Nothing else moves the search, and none of it is lost. */
  lemma {:induction false} AllEvidenceIsRecorded(f: FolderState, evs: seq<FolderEvent>)
    ensures FolderAfter(f, evs).search == RecordedAll(f.search, EvidenceIn(f, evs))
    decreases |evs|
  {
    if evs != [] {
      AllEvidenceIsRecorded(f, evs[..|evs| - 1]);
      var before, all := EvidenceIn(f, evs[..|evs| - 1]), EvidenceIn(f, evs);
      if all != before {
        assert all[..|all| - 1] == before;
        RecordedSnoc(f.search, all);
      }
    }
  }

  /** The round-trip times of the echoes heard of packets of this size. */
  function EchoTimes(f: FolderState, evs: seq<FolderEvent>, size: int): seq<int> {
    if evs == [] then []
    else
      var before, sent := EchoTimes(f, evs[..|evs| - 1], size), FolderAfter(f, evs[..|evs| - 1]).sentAt;
      match evs[|evs| - 1]
      case Hears(ev, _) =>
        if ev.kind.Echo? && ev.seqNo in sent && sent[ev.seqNo].size == size
        then before + [Micros(ev.at - sent[ev.seqNo].at)] else before
      case _ => before
  }

  /** `t` is the least of these. */
  predicate IsLeast(ts: seq<int>, t: int) {
    t in ts && forall i :: 0 <= i < |ts| ==> t <= ts[i]
  }

  /** The time kept for a size is the least of all its echoes; there is one exactly if it had an echo. */
  lemma {:induction false} LeastRoundTrip(f: FolderState, evs: seq<FolderEvent>, size: int)
    requires f.rtt == map[]
    ensures var g, ts := FolderAfter(f, evs), EchoTimes(f, evs, size);
      (size in g.rtt <==> ts != []) && (size in g.rtt ==> IsLeast(ts, g.rtt[size]))
    decreases |evs|
  {
    if evs != [] {
      var init := evs[..|evs| - 1];
      LeastRoundTrip(f, init, size);
      var g, ts := FolderAfter(f, init), EchoTimes(f, init, size);
      if evs[|evs| - 1].Hears? {
        var ev := evs[|evs| - 1].ev;
        if ev.kind.Echo? && ev.seqNo in g.sentAt && g.sentAt[ev.seqNo].size == size {
          LeastOn(ts, g.rtt, size, Micros(ev.at - g.sentAt[ev.seqNo].at));
        }
      }
    }
  }

  lemma LeastOn(ts: seq<int>, rtt: map<int, int>, size: int, t: int)
    requires (size in rtt <==> ts != []) && (size in rtt ==> IsLeast(ts, rtt[size]))
    ensures size in BestRtt(rtt, size, t) && IsLeast(ts + [t], BestRtt(rtt, size, t)[size])
  {
    assert (ts + [t])[|ts|] == t;
    if size in rtt {
      var i :| 0 <= i < |ts| && ts[i] == rtt[size];
      assert (ts + [t])[i] == rtt[size];
    }
  }

  // ---------------------------------------------------------------- kinds of path

  /** What may be known of a path: nothing; that it delivers exactly the packets of up to `m` bytes; that it
      moreover advertises no plausible MTU but `m`; or what becomes of larger packets: the path swallows them
      without a word, the local interface refuses them, or a router reports every one as too big. */
  datatype Path =
    | AnyPath
    | Carries(m: int)
    | Tells(m: int, v6: bool)
    | Swallows(m: int)
    | Refuses(m: int)
    | Reports(m: int)

  /** The one way larger packets fail, if it is known. */
  function FailsAs(p: Path): Cause {
    match p
    case Swallows(_) => CauseSilent
    case Refuses(_) => CauseLocal
    case Reports(_) => CauseTooBig
    case _ => NoCause
  }

  predicate OneWay(p: Path) {
    p.Swallows? || p.Refuses? || p.Reports?
  }

  /** A reply that tells the truth about the path: an echo for a packet that fits, and nothing but echoes
      if no router speaks up. */
  predicate TrueReply(p: Path, sent: map<int, Sent>, ev: Reply) {
    ev.seqNo in sent && !p.AnyPath? ==>
      && (ev.kind.Echo? <==> sent[ev.seqNo].size <= p.m)
      && (p.Swallows? || p.Refuses? ==> ev.kind.Echo?)
      && (p.Tells? ==> TrueAdvert(p, sent[ev.seqNo].size, if ev.kind.Frag? then TooBig else Delivered, ev.mtu))
  }

  /** What is advertised with this verdict is the path's own MTU, or not plausible. */
  predicate TrueAdvert(p: Path, size: int, v: Verdict, adv: int) {
    p.Tells? && Advertises(p.v6, Evidence(size, v, adv), adv) ==> adv == p.m
  }

  /** A verdict on `size` that tells the truth about the path. */
  predicate TrueVerdict(p: Path, size: int, v: Verdict, adv: int) {
    && TrueAdvert(p, size, v, adv)
    && (!p.AnyPath? ==> (v.Delivered? <==> size <= p.m))
    && (p.Swallows? ==> v.Delivered? || v.Silent?)
    && (p.Refuses? ==> v.Delivered? || v.Local?)
    && (p.Reports? ==> v.Delivered? || v.TooBig?)
  }

  /** What such verdicts make of the search: the path's MTU stays in the bracket, and every failure is of the
      one kind there is. */
  ghost predicate Fits(p: Path, s: Search) {
    && (!p.AnyPath? ==> Brackets(s, p.m))
    && (OneWay(p) ==> (s.cause.NoCause? || s.cause == FailsAs(p)) && (s.hi <= s.max ==> s.cause == FailsAs(p)))
    && (p.Swallows? || p.Refuses? ==> 0 <= s.lo && s.nextHop == 0 && s.override == 0 && !s.advConfirmed)
    && (p.Tells? ==> s.v6 == p.v6 && TrustsOnly(s, p.m))
  }

  lemma {:induction false} VerdictFits(p: Path, s: Search, size: int, v: Verdict, adv: int)
    requires Fits(p, s) && TrueVerdict(p, size, v, adv)
    ensures Fits(p, Recorded(s, size, v, adv))
  {
    if !p.AnyPath? {
      RecordBrackets(s, size, v, adv, p.m);
    }
    if p.Tells? {
      RecordTrusts(s, size, v, adv, p.m);
    }
  }

  lemma {:induction false} FoldFits(p: Path, f: FolderState, ev: Reply, cur: int)
    requires Fits(p, f.search) && TrueReply(p, f.sentAt, ev)
    ensures var (g, r) := Folded(f, ev, cur);
      Fits(p, g.search) && (r.Resolved? ==> TrueVerdict(p, cur, r.v, r.adv))
  {
    if ev.seqNo in f.sentAt {
      var n := f.sentAt[ev.seqNo].size;
      if ev.kind.Echo? {
        VerdictFits(p, f.search, n, Delivered, 0);
      } else {
        VerdictFits(p, f.search, n, TooBig, ev.mtu);
      }
    }
  }

  class PmtuSearch {
    const min: int
    const max: int
    const v6: bool
    var lo: int
    var hi: int
    var cause: Cause
    var tested: set<int>
    var nextHop: int
    var override: int
    var advConfirmed: bool

    function State(): Search
      reads this
    {
      Search(min, max, v6, lo, hi, cause, tested, nextHop, override, advConfirmed)
    }

    constructor (min: int, max: int, v6: bool)
      ensures State() == Start(min, max, v6)
    {
      this.min, this.max, this.v6 := min, max, v6;
      lo, hi, cause, tested := 0, max + 1, NoCause, {};
      nextHop, override, advConfirmed := 0, 0, false;
    }

    predicate IsDone()
      reads this
      ensures IsDone() <==> Done(State())
    {
      lo >= max || hi <= min || hi - lo <= 1 || advConfirmed
    }

    method NextSize() returns (r: Size)
      ensures r == Next(State())
    {
      if IsDone() { return NoSize; }
      if max !in tested { return Size(max); }
      if override > lo && override < hi && override !in tested { return Size(override); }
      if lo == 0 && min !in tested { return Size(min); }
      var mid := (lo + hi) / 2;
      if mid in tested || mid <= lo || mid >= hi { return NoSize; }
      return Size(mid);
    }

    method Record(size: int, v: Verdict, adv: int)
      modifies this
      ensures State() == Recorded(old(State()), size, v, adv)
    {
      tested := tested + {size};
      match v {
        case Delivered =>
          if size > lo && size < hi {
            lo := size;
            if cause == CauseTooBig && size == nextHop {
              advConfirmed := true;
            }
          }
        case TooBig =>
          if size < hi {
            hi, cause := size, CauseTooBig;
          }
          var floor := if v6 then IPV6_MIN_MTU else MTU_FLOOR;
          if adv >= floor && adv < size && (nextHop == 0 || adv < nextHop) {
            nextHop := adv;
            if adv >= min {
              override := adv;
            }
          }
        case Silent =>
          if size < hi {
            hi, cause := size, CauseSilent;
          }
        case Local =>
          if size < hi {
            hi, cause := size, CauseLocal;
          }
      }
    }
  }

  class PmtuFolder {
    const search: PmtuSearch
    var sentAt: map<int, Sent>
    var rtt: map<int, int>

    function State(): FolderState
      reads this, search
    {
      FolderState(search.State(), sentAt, rtt)
    }

    constructor (search: PmtuSearch)
      ensures this.search == search && State() == FolderState(search.State(), map[], map[])
    {
      this.search, sentAt, rtt := search, map[], map[];
    }

    method Fold(ev: Reply, cur: int) returns (r: Resolution)
      modifies this, search
      ensures (State(), r) == Folded(old(State()), ev, cur)
    {
      if ev.seqNo !in sentAt { return Unresolved; }
      var sp := sentAt[ev.seqNo];
      match ev.kind {
        case Echo =>
          var t := Micros(ev.at - sp.at);
          if sp.size !in rtt || t < rtt[sp.size] {
            rtt := rtt[sp.size := t];
          }
          if sp.size == cur { return Resolved(Delivered, 0); }
          search.Record(sp.size, Delivered, 0);
        case Frag =>
          if sp.size == cur { return Resolved(TooBig, ev.mtu); }
          search.Record(sp.size, TooBig, ev.mtu);
      }
      return Unresolved;
    }
  }

  // ---------------------------------------------------------------- one size

  /** What one send met: the deadline, a refusal by the local interface, an error, or the listed
      replies, which arrived before its timer fired or the run was cancelled. */
  datatype Attempt =
    | Deadline
    | Refused
    | SendError
    | Answered(at: int, replies: seq<Reply>, cancelled: bool)

  /** The network: what a send meets, given its number, what was sent before and its size. */
  type Network = (int, map<int, Sent>, int) -> Attempt

  datatype SizeResult = Judged(v: Verdict, adv: int) | Stopped | SendFailed

  /** An attempt on such a path: it is made in time, every reply is true, and a packet that fits is answered.
      The local interface may refuse what the path would not carry, unless larger packets are known to fail
      another way. */
  ghost predicate Meets(p: Path, a: Attempt, seqNo: int, sent: map<int, Sent>, size: int) {
    !p.AnyPath? ==>
      match a
      case Deadline => false
      case SendError => false
      case Refused => size > p.m && (!OneWay(p) || p.Refuses?)
      case Answered(at, replies, cancelled) =>
        && (forall i :: 0 <= i < |replies| ==> TrueReply(p, sent[seqNo := Sent(size, at)], replies[i]))
        && (size <= p.m || p.Reports? ==> exists i :: 0 <= i < |replies| && replies[i].seqNo == seqNo)
        && (size > p.m ==> !cancelled && !p.Refuses?)
  }

  ghost predicate Behaves(net: Network, p: Path) {
    forall q, sent, size :: Meets(p, net(q, sent, size), q, sent, size)
  }

  /** `ev` answers a packet of this size. */
  predicate Answers(sent: map<int, Sent>, ev: Reply, size: int) {
    ev.seqNo in sent && sent[ev.seqNo].size == size
  }

  /** Folds replies until one resolves the size under test. */
  method Await(folder: PmtuFolder, size: int, replies: seq<Reply>, ghost p: Path) returns (r: Resolution)
    requires Tracking(folder.State(), size) && size !in folder.search.tested && Fits(p, folder.search.State())
    requires forall i :: 0 <= i < |replies| ==> TrueReply(p, folder.sentAt, replies[i])
    modifies folder, folder.search
    ensures Tracking(folder.State(), size) && OnlyLate(old(folder.State()), folder.State())
    ensures r.Resolved? && r.v.Delivered? ==> size in folder.rtt
    ensures r.Resolved? ==> r.v.Delivered? || r.v.TooBig?
    ensures Fits(p, folder.search.State()) && (r.Resolved? ==> TrueVerdict(p, size, r.v, r.adv))
    ensures r.Unresolved? ==> forall i :: 0 <= i < |replies| ==> !Answers(old(folder.sentAt), replies[i], size)
  {
    for i := 0 to |replies|
      invariant Tracking(folder.State(), size) && OnlyLate(old(folder.State()), folder.State())
      invariant folder.sentAt == old(folder.sentAt) && Fits(p, folder.search.State())
      invariant forall k :: 0 <= k < i ==> !Answers(folder.sentAt, replies[k], size)
    {
      FoldKeeps(folder.State(), replies[i], size);
      FoldFits(p, folder.State(), replies[i], size);
      r := folder.Fold(replies[i], size);
      if r.Resolved? { return; }
    }
    return Unresolved;
  }

  /** A packet of this size may get no answer on such a path. */
  predicate Unanswered(p: Path, size: int) {
    !p.AnyPath? ==> size > p.m && !p.Refuses? && !p.Reports?
  }

  /** Sends `size` up to three times until a reply resolves it. */
  method TrySize(folder: PmtuFolder, size: int, net: Network, seqNo: int, ghost p: Path)
    returns (r: SizeResult, seqNo': int)
    requires Tracking(folder.State(), size) && size !in folder.search.tested
    requires Behaves(net, p) && Fits(p, folder.search.State())
    modifies folder, folder.search
    ensures Tracking(folder.State(), size) && OnlyLate(old(folder.State()), folder.State())
    ensures r.Judged? && r.v.Delivered? ==> size in folder.rtt
    ensures Fits(p, folder.search.State()) && (r.Judged? ==> TrueVerdict(p, size, r.v, r.adv))
    ensures !p.AnyPath? ==> r.Judged?
    ensures seqNo < seqNo' <= seqNo + 3 && (r.Judged? && r.v.Silent? ==> seqNo' == seqNo + 3)
  {
    seqNo' := seqNo;
    for a := 0 to RETRIES_PER_SIZE
      invariant seqNo' == seqNo + a
      invariant Tracking(folder.State(), size) && OnlyLate(old(folder.State()), folder.State())
      invariant Fits(p, folder.search.State()) && (a > 0 ==> Unanswered(p, size))
    {
      seqNo' := seqNo' + 1;
      var done;
      assert Meets(p, net(seqNo', folder.sentAt, size), seqNo', folder.sentAt, size);
      done, r := Send(folder, size, net(seqNo', folder.sentAt, size), seqNo', p);
      if done { return; }
    }
    return Judged(Silent, 0), seqNo';
  }

  /** One send and the wait for its replies. */
  method Send(folder: PmtuFolder, size: int, attempt: Attempt, seqNo: int, ghost p: Path)
    returns (done: bool, r: SizeResult)
    requires Tracking(folder.State(), size) && size !in folder.search.tested
    requires Fits(p, folder.search.State()) && Meets(p, attempt, seqNo, folder.sentAt, size)
    modifies folder, folder.search
    ensures Tracking(folder.State(), size) && OnlyLate(old(folder.State()), folder.State())
    ensures done && r.Judged? && r.v.Delivered? ==> size in folder.rtt
    ensures Fits(p, folder.search.State()) && (done && r.Judged? ==> TrueVerdict(p, size, r.v, r.adv))
    ensures if done then !p.AnyPath? ==> r.Judged? else Unanswered(p, size)
    ensures attempt.Refused? ==> done && r == Judged(Local, 0)
    ensures attempt.Deadline? ==> done && r.Stopped?
    ensures attempt.SendError? <==> done && r.SendFailed?
    ensures done && r.Judged? ==> !r.v.Silent?
    ensures !done ==> attempt.Answered? && !attempt.cancelled
  {
    match attempt {
      case Deadline => return true, Stopped;
      case Refused => return true, Judged(Local, 0);
      case SendError => return true, SendFailed;
      case Answered(at, replies, cancelled) =>
        folder.sentAt := folder.sentAt[seqNo := Sent(size, at)];
        var res := Await(folder, size, replies, p);
        if res.Resolved? { return true, Judged(res.v, res.adv); }
        return cancelled, Stopped;
    }
  }

  // ---------------------------------------------------------------- the result

  datatype Status = StatusOk | StatusTimeout | StatusError

  datatype Measurement = Measurement(largestOk: int, smallestFailed: int, nextHop: int, ipVersion: int,
                                     blackHole: bool, rtt: int, localConstraint: bool)

  predicate BlackHole(s: Search) {
    Done(s) && s.lo > 0 && s.cause.CauseSilent?
  }

  function Measured(s: Search, rtt: map<int, int>): Measurement {
    Measurement(s.lo, if s.hi <= s.max then s.hi else 0, s.nextHop, if s.v6 then 6 else 4,
                BlackHole(s), if s.lo in rtt then rtt[s.lo] else -1, s.cause.CauseLocal?)
  }

  function Classified(s: Search): Status {
    if !Done(s) then StatusTimeout
    else if s.cause.CauseLocal? && s.lo == 0 then StatusError
    else if BlackHole(s) then StatusTimeout
    else if s.lo == 0 && s.cause.CauseTooBig? then StatusError
    else if s.lo == 0 then StatusTimeout
    else StatusOk
  }

  /** What the status says of a search: OK, that it converged on a delivered size and no silence bounds it;
      an error, that it converged on none and the reason is known; a timeout, anything else. */
  ghost predicate StatusSays(st: Status, s: Search) {
    && (st.StatusOk? <==> Done(s) && s.lo > 0 && !s.cause.CauseSilent?)
    && (st.StatusError? <==> Done(s) && s.lo == 0 && (s.cause.CauseTooBig? || s.cause.CauseLocal?))
  }

  /** What the measurement says of it. */
  ghost predicate MeasurementSays(m: Measurement, f: FolderState) {
    var s := f.search;
    && m.largestOk == s.lo && m.nextHop == s.nextHop
    && (m.smallestFailed != 0 <==> s.hi <= s.max) && (s.hi <= s.max ==> m.smallestFailed == s.hi)
    && (m.ipVersion == 6 <==> s.v6) && (m.ipVersion == 4 <==> !s.v6)
    && (m.blackHole <==> Done(s) && s.lo > 0 && s.cause.CauseSilent?)
    && (m.localConstraint <==> s.cause.CauseLocal?)
    && (if s.lo in f.rtt then m.rtt == f.rtt[s.lo] else m.rtt == -1)
  }

  lemma ResultSays(f: FolderState)
    requires Converging(f)
    ensures StatusSays(Classified(f.search), f.search) && MeasurementSays(Measured(f.search, f.rtt), f)
  {
  }

  // ---------------------------------------------------------------- what the server makes of it

  const MAX_PATH_MTU: int := 65536

  datatype Payload = Rejected | Payload(m: Measurement, usable: bool)

  function Ingested(m: Measurement, st: Status): Payload {
    if m.largestOk > MAX_PATH_MTU || m.smallestFailed > MAX_PATH_MTU || m.nextHop > MAX_PATH_MTU then Rejected
    else if m.ipVersion != 4 && m.ipVersion != 6 then Rejected
    else Payload(m, m.largestOk > 0 && (st.StatusOk? || (st.StatusTimeout? && m.blackHole)))
  }

  /** The server rejects a measurement exactly if a size is over the limit or the IP version is neither 4 nor
      6, and otherwise keeps it as it is. */
  lemma RejectedIff(m: Measurement, st: Status)
    ensures Ingested(m, st).Rejected? <==>
      m.largestOk > 65536 || m.smallestFailed > 65536 || m.nextHop > 65536 || m.ipVersion !in {4, 6}
    ensures Ingested(m, st).Payload? ==> Ingested(m, st).m == m
  {
  }

  /** The server accepts every result of a sound search, and marks it usable exactly when the search
      was done with a delivered size, whose own round-trip time it then reports. */
  lemma {:induction false} UsableIffConverged(f: FolderState)
    requires Converging(f)
    ensures var p := Ingested(Measured(f.search, f.rtt), Classified(f.search));
      && p.Payload?
      && (p.usable <==> Done(f.search) && f.search.lo > 0)
      && (p.usable ==> f.search.lo in f.rtt && p.m.rtt == f.rtt[f.search.lo])
  {
  }

  // ---------------------------------------------------------------- the size loop

  /** Between sizes: every probe in flight is of a tested size. */
  ghost predicate NothingUntested(f: FolderState) {
    && Converging(f)
    && (forall q :: q in f.sentAt ==> f.sentAt[q].size in f.search.tested)
  }

  /** A size tested: the bracket shrank, and with no plausible MTU advertised one fewer size is to
      go. */
  lemma {:induction false} SizeTested(f: FolderState, g: FolderState, size: int, v: Verdict, adv: int)
    requires NothingUntested(f) && Next(f.search) == Size(size)
    requires Tracking(g, size) && OnlyLate(f, g) && (v.Delivered? ==> size in g.rtt)
    ensures var h := g.(search := Recorded(g.search, size, v, adv));
      && NothingUntested(h) && Tighter(f.search, h.search)
      && h.search.hi - h.search.lo < f.search.hi - f.search.lo
      && (h.search.override == 0 ==> SizesToGo(h.search) < SizesToGo(f.search))
  {
    var h := Recorded(g.search, size, v, adv);
    NextIsInside(f.search);
    VerdictRecorded(g, size, v, adv);
    TestingShrinks(f.search, h, size);
    if h.override == 0 {
      SizesToGoDrops(f.search, h, size);
    }
  }

  lemma {:induction false} VerdictRecorded(g: FolderState, size: int, v: Verdict, adv: int)
    requires Tracking(g, size) && g.search.min <= size <= g.search.max && (v.Delivered? ==> size in g.rtt)
    requires g.search.tested == {} ==> size == g.search.max
    ensures var h := g.(search := Recorded(g.search, size, v, adv));
      && NothingUntested(h) && Tighter(g.search, h.search) && h.search.tested == g.search.tested + {size}
  {
    RecordTightens(g.search, size, v, adv);
  }

  datatype RunResult = BadParams | SendFailure | Finished(status: Status, m: Measurement)

  /** The size loop's invariant: `n` sizes sent so far. */
  ghost predicate Looping(f: FolderState, start: Search, n: nat, p: Path) {
    && NothingUntested(f) && Tighter(start, f.search)
    && (f.search.override == 0 ==> n + SizesToGo(f.search) <= SizesToGo(start))
    && Fits(p, f.search)
  }

  /** One size tested and recorded, or the loop ended. */
  method TestSize(folder: PmtuFolder, size: int, net: Network, seqNo: int,
                  ghost start: Search, ghost n: nat, ghost p: Path)
    returns (r: SizeResult, seqNo': int)
    requires Looping(folder.State(), start, n, p) && Next(folder.search.State()) == Size(size) && Behaves(net, p)
    modifies folder, folder.search
    ensures !p.AnyPath? ==> r.Judged?
    ensures r.Judged? ==> Looping(folder.State(), start, n + 1, p)
    ensures r.Judged? ==> folder.search.hi - folder.search.lo < old(folder.search.hi - folder.search.lo)
    ensures r.Judged? ==> folder.search.tested == old(folder.search.tested) + {size}
    ensures !r.Judged? ==> Tracking(folder.State(), size) && OnlyLate(old(folder.State()), folder.State())
  {
    ghost var f := folder.State();
    NextIsInside(f.search);
    r, seqNo' := TrySize(folder, size, net, seqNo, p);
    if r.Judged? {
      SizeTested(f, folder.State(), size, r.v, r.adv);
      VerdictFits(p, folder.search.State(), size, r.v, r.adv);
      folder.search.Record(size, r.v, r.adv);
    }
  }

  /** `sizes` lists exactly these. */
  ghost predicate Elements(tested: set<int>, sizes: seq<int>) {
    forall n :: n in tested <==> n in sizes
  }

  ghost predicate Distinct(sizes: seq<int>) {
    forall i, j :: 0 <= i < j < |sizes| ==> sizes[i] != sizes[j]
  }

  /** Every size tested, and that of every packet sent, is listed. */
  ghost predicate SentOnly(f: FolderState, sizes: seq<int>) {
    && (forall n :: n in f.search.tested ==> n in sizes)
    && (forall q :: q in f.sentAt ==> f.sentAt[q].size in sizes)
  }

  lemma SizesOn(tested: set<int>, sizes: seq<int>, n: int)
    requires Elements(tested, sizes) && Distinct(sizes) && n !in tested
    ensures Elements(tested + {n}, sizes + [n]) && Distinct(sizes + [n])
  {
    forall x ensures x in tested + {n} <==> x in sizes + [n] {
      if x in sizes {
        assert x in sizes + [n];
      }
      assert (sizes + [n])[|sizes|] == n;
    }
  }

  lemma StoppedSent(g: FolderState, n: int, sizes: seq<int>)
    requires Tracking(g, n) && Elements(g.search.tested + {n}, sizes)
    ensures SentOnly(g, sizes)
  {
    assert n in g.search.tested + {n};
  }

  lemma EndedSent(f: FolderState, sizes: seq<int>)
    requires NothingUntested(f) && Elements(f.search.tested, sizes)
    ensures SentOnly(f, sizes)
  {
  }

  datatype LoopEnd = NoMore | CutShort | Failure

  /** The size loop's invariant with the sizes tested so far. */
  ghost predicate Listing(f: FolderState, start: Search, sizes: seq<int>, p: Path) {
    && Looping(f, start, |sizes|, p) && Elements(f.search.tested, sizes) && Distinct(sizes)
    && (forall i :: 0 <= i < |sizes| ==> start.min <= sizes[i] <= start.max)
  }

  /** One more size tested and listed, or the loop ended on it. */
  method ListSize(folder: PmtuFolder, n: int, net: Network, seqNo: int, sizes: seq<int>, ghost start: Search,
                  ghost p: Path)
    returns (r: SizeResult, seqNo': int, sizes': seq<int>)
    requires Listing(folder.State(), start, sizes, p) && Next(folder.search.State()) == Size(n) && Behaves(net, p)
    modifies folder, folder.search
    ensures sizes' == sizes + [n] && (!p.AnyPath? ==> r.Judged?)
    ensures r.Judged? ==> Listing(folder.State(), start, sizes', p)
    ensures r.Judged? ==> folder.search.hi - folder.search.lo < old(folder.search.hi - folder.search.lo)
    ensures !r.Judged? ==> Converging(folder.State()) && OnlyLate(old(folder.State()), folder.State())
    ensures !r.Judged? ==> SentOnly(folder.State(), sizes') && Distinct(sizes')
    ensures !r.Judged? ==> |sizes'| <= |sizes| + SizesToGo(old(folder.search.State()))
    ensures start.min <= n <= start.max
  {
    ghost var f := folder.State();
    LoopGoesOn(f);
    SizesOn(f.search.tested, sizes, n);
    r, seqNo' := TestSize(folder, n, net, seqNo, start, |sizes|, p);
    sizes' := sizes + [n];
    if !r.Judged? {
      StoppedSent(folder.State(), n, sizes');
    }
  }

  /** Tests sizes until the search asks for no more. */
  method SizeLoop(folder: PmtuFolder, net: Network, ghost p: Path) returns (why: LoopEnd, sizes: seq<int>)
    requires Looping(folder.State(), folder.search.State(), 0, p) && Behaves(net, p)
    requires folder.search.tested == {}
    modifies folder, folder.search
    ensures Converging(folder.State()) && Tighter(old(folder.search.State()), folder.search.State())
    ensures forall i :: 0 <= i < |sizes| ==> folder.search.min <= sizes[i] <= folder.search.max
    ensures SentOnly(folder.State(), sizes) && Distinct(sizes)
    ensures folder.search.override == 0 ==> |sizes| <= SizesToGo(old(folder.search.State()))
    ensures why.NoMore? ==> Done(folder.search.State())
    ensures !p.AnyPath? ==> why.NoMore? && Fits(p, folder.search.State())
  {
    ghost var start := folder.search.State();
    sizes := [];
    var seqNo := 0;
    while true
      invariant Listing(folder.State(), start, sizes, p)
      decreases folder.search.hi - folder.search.lo
    {
      ghost var f := folder.State();
      var next := folder.search.NextSize();
      if next.NoSize? { break; }
      LoopGoesOn(f);
      var res;
      res, seqNo, sizes := ListSize(folder, next.n, net, seqNo, sizes, start, p);
      if !res.Judged? {
        StoppedBetween(start, f, folder.State());
        why := if res.SendFailed? then Failure else CutShort;
        return;
      }
    }
    NextStopsIffDone(folder.search.State());
    EndedSent(folder.State(), sizes);
    why := NoMore;
  }

  lemma LoopGoesOn(f: FolderState)
    requires Converging(f) && Next(f.search).Size?
    ensures f.search.min <= Next(f.search).n <= f.search.max && SizesToGo(f.search) >= 1
    ensures f.search.lo < f.search.hi && Next(f.search).n !in f.search.tested
  {
    NextIsInside(f.search);
    SizesToGoPositive(f.search);
  }

  lemma StoppedBetween(start: Search, f: FolderState, g: FolderState)
    requires Tighter(start, f.search) && OnlyLate(f, g)
    ensures Tighter(start, g.search) && (g.search.override == 0 ==> f.search.override == 0)
  {
  }

  lemma StartLoops(min: int, max: int, v6: bool, p: Path)
    requires ParamsOk(min, max) && (!p.AnyPath? ==> p.m >= 0) && (p.Tells? ==> p.v6 == v6)
    ensures Looping(FolderState(Start(min, max, v6), map[], map[]), Start(min, max, v6), 0, p)
    ensures SizesToGo(Start(min, max, v6)) == 2 + CeilLog2(max - min)
  {
  }

  /** What a run has to report of such a path. */
  ghost predicate ReportsPath(p: Path, min: int, max: int, r: RunResult)
    requires !p.AnyPath?
  {
    && r.Finished?
    && (p.m >= max ==> r.status.StatusOk? && r.m.largestOk == max && r.m.smallestFailed == 0)
    && (min <= p.m < max && !p.Carries? && !p.Reports? ==> r.m.largestOk == p.m)
    && (min <= p.m < max ==>
          && (p.Reports? || p.Refuses? ==> r.status.StatusOk? && !r.m.blackHole)
          && (p.Refuses? ==> r.m.localConstraint && r.m.smallestFailed == p.m + 1)
          && (p.Swallows? ==> r.status.StatusTimeout? && r.m.blackHole && r.m.smallestFailed == p.m + 1))
    && (p.m < min ==>
          && r.m.largestOk == 0 && r.m.smallestFailed == min && !r.m.blackHole
          && (p.Swallows? ==> r.status.StatusTimeout? && !r.m.localConstraint)
          && (p.Reports? ==> r.status.StatusError? && !r.m.localConstraint)
          && (p.Refuses? ==> r.status.StatusError? && r.m.localConstraint))
    && Ingested(r.m, r.status) == Payload(r.m, p.m >= min)
  }

  lemma {:induction false} PathIsReported(p: Path, f: FolderState)
    requires !p.AnyPath? && Converging(f) && Done(f.search) && Fits(p, f.search)
    ensures ReportsPath(p, f.search.min, f.search.max, Finished(Classified(f.search), Measured(f.search, f.rtt)))
  {
    FoundWhenDone(f.search, p.m);
    UsableIffConverged(f);
    ResultSays(f);
    if p.Tells? || p.Swallows? || p.Refuses? {
      FoundWhenTrusted(f.search, p.m);
    }
  }

  /** A path-MTU run. `sizes` are the sizes it set out to test, in order, and `end` the search as it left it.
      Nothing was sent or tested but those, and none of them twice. On a path that delivers exactly the
      packets of up to `m` bytes the run finishes and has found `m`, unless it stopped at an advertised value
      that is not the path's, and it reports what became of larger packets. */
  method Run(min: int, max: int, v6: bool, net: Network, ghost p: Path)
    returns (r: RunResult, sizes: seq<int>, end: FolderState)
    requires Behaves(net, p) && (!p.AnyPath? ==> p.m >= 0) && (p.Tells? ==> p.v6 == v6)
    ensures r.BadParams? <==> !ParamsOk(min, max)
    ensures ParamsOk(min, max) ==> Converging(end) && Tighter(Start(min, max, v6), end.search)
    ensures forall i :: 0 <= i < |sizes| ==> min <= sizes[i] <= max
    ensures SentOnly(end, sizes) && Distinct(sizes)
    ensures ParamsOk(min, max) && end.search.override == 0 ==> |sizes| <= 2 + CeilLog2(max - min)
    ensures r.Finished? ==> StatusSays(r.status, end.search) && MeasurementSays(r.m, end)
    ensures ParamsOk(min, max) && !p.AnyPath? ==> r.Finished? && Done(end.search) && Found(end.search, p.m)
    ensures ParamsOk(min, max) && (p.Tells? || p.Swallows? || p.Refuses?) ==> FoundExactly(end.search, p.m)
    ensures ParamsOk(min, max) && !p.AnyPath? ==> ReportsPath(p, min, max, r)
  {
    sizes := [];
    if !ParamsOk(min, max) {
      end := FolderState(Start(min, max, v6), map[], map[]);
      return BadParams, sizes, end;
    }
    var search := new PmtuSearch(min, max, v6);
    var folder := new PmtuFolder(search);
    StartLoops(min, max, v6, p);
    var why;
    why, sizes := SizeLoop(folder, net, p);
    end := folder.State();
    ResultSays(end);
    if !p.AnyPath? { FoundWhenDone(end.search, p.m); }
    if p.Tells? || p.Swallows? || p.Refuses? { FoundWhenTrusted(end.search, p.m); }
    if !p.AnyPath? { PathIsReported(p, end); }
    r := if why.Failure? then SendFailure else Finished(Classified(end.search), Measured(end.search, end.rtt));
  }
}
