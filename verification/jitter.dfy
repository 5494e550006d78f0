/** RFC 3550 jitter carried per probe series across runs. Float64 is idealised as `real`. */
module Jitter {

  /** The accumulator of one series. */
  datatype State = State(j: real, lastRtt: int, primed: bool, hasJ: bool)

  const BLANK := State(0.0, 0, false, false)

  function Abs(d: int): (a: int)
    ensures a >= 0 && (a == d || a == -d)
  {
    if d < 0 then -d else d
  }

  /** One round-trip time through the accumulator. */
  function Folded(s: State, rtt: int): State {
    if s.primed then State(s.j + (Abs(rtt - s.lastRtt) as real - s.j) / 16.0, rtt, true, true)
    else s.(lastRtt := rtt, primed := true)
  }

  function FoldedAll(s: State, rtts: seq<int>): State
    decreases |rtts|
  {
    if rtts == [] then s else Folded(FoldedAll(s, rtts[..|rtts| - 1]), rtts[|rtts| - 1])
  }

  function Report(s: State): int {
    if s.hasJ then (s.j + 0.5).Floor else -1
  }

  function StateOf(state: map<string, State>, id: string): State {
    if id in state then state[id] else BLANK
  }

  /** The ICMP prober's keyed accumulators. */
  class Icmp {
    var state: map<string, State>

    constructor ()
      ensures state == map[]
    {
      state := map[];
    }

    method FoldJitter(id: string, rtts: seq<int>) returns (us: int)
      modifies this
      ensures state == old(state)[id := FoldedAll(StateOf(old(state), id), rtts)]
      ensures us == Report(state[id])
    {
      if id !in state {
        state := state[id := BLANK];
      }
      ghost var first := state[id];
      var k := 0;
      while k < |rtts|
        invariant k <= |rtts|
        invariant id in state && state == old(state)[id := FoldedAll(first, rtts[..k])]
      {
        var rtt, s := rtts[k], state[id];
        if s.primed {
          var d := Abs(rtt - s.lastRtt) as real;
          s := s.(j := s.j + (d - s.j) / 16.0, hasJ := true);
        }
        state := state[id := s.(lastRtt := rtt, primed := true)];
        assert rtts[..k + 1][..k] == rtts[..k];
        k := k + 1;
      }
      assert rtts[..k] == rtts;
      if !state[id].hasJ { return -1; }
      return (state[id].j + 0.5).Floor;
    }

    method Retire(id: string)
      modifies this
      ensures state == old(state) - {id}
    {
      state := state - {id};
    }
  }

  // ---------------------------------------------------------------- the series as a whole

  /** Absolute differences of neighbouring round-trip times. */
  function Gaps(h: seq<int>): (ds: seq<int>)
    ensures |ds| == if h == [] then 0 else |h| - 1
    ensures forall i :: 0 <= i < |ds| ==> ds[i] >= 0 && (ds[i] == h[i + 1] - h[i] || ds[i] == h[i] - h[i + 1])
  {
    if |h| < 2 then [] else Gaps(h[..|h| - 1]) + [Abs(h[|h| - 1] - h[|h| - 2])]
  }

  function Decay(n: nat): real {
    if n == 0 then 1.0 else Decay(n - 1) * 15.0 / 16.0
  }

  /** The jitter in closed form: each difference weighs a sixteenth, decayed by 15/16 for every later
      one. */
  function Weighted(ds: seq<int>): real {
    if ds == [] then 0.0 else ds[0] as real * Decay(|ds| - 1) / 16.0 + Weighted(ds[1..])
  }

  lemma {:induction false} WeightedSnoc(ds: seq<int>, d: int)
    ensures Weighted(ds + [d]) == Weighted(ds) * 15.0 / 16.0 + d as real / 16.0
    decreases |ds|
  {
    if ds == [] {
      assert (ds + [d])[1..] == [];
    } else {
      assert (ds + [d])[1..] == ds[1..] + [d];
      WeightedSnoc(ds[1..], d);
      var x, p := ds[0] as real, Decay(|ds| - 1);
      assert x * (p * 15.0 / 16.0) / 16.0 == (x * p / 16.0) * 15.0 / 16.0;
    }
  }

  function Largest(ds: seq<int>): (m: int)
    ensures m >= 0 && forall i :: 0 <= i < |ds| ==> ds[i] <= m
    ensures m == 0 || m in ds
  {
    if ds == [] then 0
    else var m := Largest(ds[..|ds| - 1]); if ds[|ds| - 1] > m then ds[|ds| - 1] else m
  }

  lemma {:induction false} WeightedBounded(ds: seq<int>, m: int)
    requires m >= 0 && forall i :: 0 <= i < |ds| ==> 0 <= ds[i] <= m
    ensures 0.0 <= Weighted(ds) <= m as real
    decreases |ds|
  {
    if ds != [] {
      var init, d := ds[..|ds| - 1], ds[|ds| - 1];
      assert ds == init + [d];
      WeightedBounded(init, m);
      WeightedSnoc(init, d);
    }
  }

  /** The accumulator after a whole series is a function of the series alone. */
  function Summary(h: seq<int>): State {
    State(Weighted(Gaps(h)), if h == [] then 0 else h[|h| - 1], |h| >= 1, |h| >= 2)
  }

  lemma SummaryStep(h: seq<int>, rtt: int)
    ensures Folded(Summary(h), rtt) == Summary(h + [rtt])
  {
    assert (h + [rtt])[..|h|] == h;
    if h != [] {
      WeightedSnoc(Gaps(h), Abs(rtt - h[|h| - 1]));
    }
  }

  /** Folding a run onto what came before is folding the concatenation. */
  lemma {:induction false} FoldConcat(h: seq<int>, rtts: seq<int>)
    ensures FoldedAll(Summary(h), rtts) == Summary(h + rtts)
    decreases |rtts|
  {
    if rtts == [] {
      assert h + rtts == h;
    } else {
      var init, x := rtts[..|rtts| - 1], rtts[|rtts| - 1];
      FoldConcat(h, init);
      SummaryStep(h + init, x);
      assert h + rtts == (h + init) + [x];
    }
  }

  // ---------------------------------------------------------------- whole runs of the prober

  datatype Op = Probe(id: string, rtts: seq<int>) | Retirement(id: string)

  function After(state: map<string, State>, ops: seq<Op>): map<string, State>
    decreases |ops|
  {
    if ops == [] then state
    else
      var before := After(state, ops[..|ops| - 1]);
      match ops[|ops| - 1]
      case Probe(id, rtts) => before[id := FoldedAll(StateOf(before, id), rtts)]
      case Retirement(id) => before - {id}
  }

  /** Every round-trip time of a series since it was last retired, oldest first. */
  function History(ops: seq<Op>, id: string): seq<int>
    decreases |ops|
  {
    if ops == [] then []
    else
      var before := History(ops[..|ops| - 1], id);
      match ops[|ops| - 1]
      case Probe(x, rtts) => if x == id then before + rtts else before
      case Retirement(x) => if x == id then [] else before
  }

  /** Whatever runs of other series come between, each accumulator is that of one fold over its own
      concatenated series. */
  lemma {:induction false} RunByRun(ops: seq<Op>, id: string)
    ensures StateOf(After(map[], ops), id) == Summary(History(ops, id))
    decreases |ops|
  {
    if ops != [] {
      var init := ops[..|ops| - 1];
      RunByRun(init, id);
      match ops[|ops| - 1]
      case Probe(x, rtts) =>
        if x == id { FoldConcat(History(init, id), rtts); }
      case Retirement(x) =>
    }
  }

  /** What a run reports: -1 exactly while fewer than two round-trip times of the series are known, and
      then the closed form rounded to the nearest microsecond, between 0 and the largest difference
      seen. */
  lemma ReportedJitter(ops: seq<Op>, id: string)
    ensures var h := History(ops, id);
      var us := Report(StateOf(After(map[], ops), id));
      && (us == -1 <==> |h| < 2)
      && 0.0 <= StateOf(After(map[], ops), id).j <= Largest(Gaps(h)) as real
      && (|h| >= 2 ==>
            0 <= us <= Largest(Gaps(h)) && us as real - 0.5 <= Weighted(Gaps(h)) < us as real + 0.5)
  {
    RunByRun(ops, id);
    var ds := Gaps(History(ops, id));
    WeightedBounded(ds, Largest(ds));
  }
}
