/** The path-MTU search: a bracket over packet sizes closed by verdicts, its laws under any
    evidence, and its result on a path of fixed MTU. */
module PathMtuSpec {

  const MTU_FLOOR: int := 68
  const MTU_CEIL: int := 9216
  const IPV6_MIN_MTU: int := 1280

  datatype Verdict = Delivered | TooBig | Silent | Local
  datatype Cause = NoCause | CauseTooBig | CauseSilent | CauseLocal
  datatype Size = NoSize | Size(n: int)

  /** The search: `lo` is the largest size proven delivered (0 until one is), `hi` the smallest
      proven failed (max + 1 until one is). */
  datatype Search = Search(min: int, max: int, v6: bool, lo: int, hi: int, cause: Cause, tested: set<int>,
                           nextHop: int, override: int, advConfirmed: bool)

  predicate ParamsOk(min: int, max: int) {
    MTU_FLOOR <= min < max <= MTU_CEIL
  }

  function Start(min: int, max: int, v6: bool): Search {
    Search(min, max, v6, 0, max + 1, NoCause, {}, 0, 0, false)
  }

  predicate Done(s: Search) {
    s.lo >= s.max || s.hi <= s.min || s.hi - s.lo <= 1 || s.advConfirmed
  }

  /** The next size to test. */
  function Next(s: Search): Size {
    if Done(s) then NoSize
    else if s.max !in s.tested then Size(s.max)
    else if s.lo < s.override < s.hi && s.override !in s.tested then Size(s.override)
    else if s.lo == 0 && s.min !in s.tested then Size(s.min)
    else
      var mid := (s.lo + s.hi) / 2;
      if mid in s.tested || mid <= s.lo || mid >= s.hi then NoSize else Size(mid)
  }

  function Floor(s: Search): int {
    if s.v6 then IPV6_MIN_MTU else MTU_FLOOR
  }

  /** A TooBig for `size` advertises a plausible next-hop MTU, smaller than any seen so far. */
  predicate Plausible(s: Search, size: int, adv: int) {
    Floor(s) <= adv < size && (s.nextHop == 0 || adv < s.nextHop)
  }

  function Failed(s: Search, size: int, cause: Cause): Search {
    if size < s.hi then s.(hi := size, cause := cause) else s
  }

  /** One verdict folded in. */
  function Recorded(s: Search, size: int, v: Verdict, adv: int): Search {
    var t := s.(tested := s.tested + {size});
    match v
    case Delivered =>
      if s.lo < size < s.hi
      then t.(lo := size, advConfirmed := s.advConfirmed || (s.cause.CauseTooBig? && size == s.nextHop))
      else t
    case TooBig =>
      var f := Failed(t, size, CauseTooBig);
      if Plausible(f, size, adv)
      then f.(nextHop := adv, override := if adv >= s.min then adv else s.override)
      else f
    case Silent => Failed(t, size, CauseSilent)
    case Local => Failed(t, size, CauseLocal)
  }

  // ---------------------------------------------------------------- laws under any evidence

  /** Every tested size is on or outside the bracket. */
  ghost predicate Settled(s: Search) {
    forall t :: t in s.tested ==> t <= s.lo || t >= s.hi
  }

  /** What holds of a search fed only sizes between min and max. */
  ghost predicate Sound(s: Search) {
    ParamsOk(s.min, s.max) && BracketOk(s) && AdvertOk(s)
  }

  /** Each end of the bracket was tested, and every tested size is on or outside it. */
  ghost predicate BracketOk(s: Search) {
    && Settled(s) && (forall t :: t in s.tested ==> s.min <= t <= s.max)
    && (s.lo == 0 || (s.min <= s.lo <= s.max && s.lo in s.tested))
    && (s.hi == s.max + 1 || (s.min <= s.hi <= s.max && s.hi in s.tested))
  }

  /** A failure has a cause, an advertised value is plausible, and one that is confirmed was delivered. */
  predicate AdvertOk(s: Search) {
    && (s.hi <= s.max <==> !s.cause.NoCause?) && (s.nextHop != 0 ==> s.hi <= s.max)
    && (s.override == 0 || s.min <= s.override)
    && 0 <= s.nextHop <= s.max && (s.nextHop == 0 || Floor(s) <= s.nextHop)
    && (s.advConfirmed ==> Floor(s) <= s.nextHop <= s.lo)
  }

  /** `b` has a bracket no wider than `a` has. */
  predicate Tighter(a: Search, b: Search) {
    && a.min == b.min && a.max == b.max && a.v6 == b.v6
    && a.lo <= b.lo && b.hi <= a.hi && a.tested <= b.tested
    && (a.override != 0 ==> b.override != 0)
  }

  lemma {:induction false} FailedTightens(s: Search, size: int, cause: Cause)
    requires BracketOk(s) && s.min <= size <= s.max
    ensures var r := Failed(s.(tested := s.tested + {size}), size, cause);
      BracketOk(r) && Tighter(s, r) && r.tested == s.tested + {size}
  {
  }

  lemma {:induction false} DeliveredTightens(s: Search, size: int)
    requires BracketOk(s) && s.min <= size <= s.max
    ensures var r := Recorded(s, size, Delivered, 0);
      BracketOk(r) && Tighter(s, r) && r.tested == s.tested + {size}
  {
  }

  lemma {:induction false} BracketTightens(s: Search, size: int, v: Verdict, adv: int)
    requires BracketOk(s) && 0 < s.min <= size <= s.max
    ensures var r := Recorded(s, size, v, adv);
      BracketOk(r) && Tighter(s, r) && r.tested == s.tested + {size}
  {
    match v {
      case Delivered => DeliveredTightens(s, size);
      case TooBig => FailedTightens(s, size, CauseTooBig);
      case Silent => FailedTightens(s, size, CauseSilent);
      case Local => FailedTightens(s, size, CauseLocal);
    }
  }

  lemma {:induction false} AdvertStays(s: Search, size: int, v: Verdict, adv: int)
    requires ParamsOk(s.min, s.max) && AdvertOk(s) && s.min <= size <= s.max
    ensures AdvertOk(Recorded(s, size, v, adv))
  {
  }

  lemma {:induction false} RecordTightens(s: Search, size: int, v: Verdict, adv: int)
    requires Sound(s) && s.min <= size <= s.max
    ensures var r := Recorded(s, size, v, adv);
      Sound(r) && Tighter(s, r) && r.tested == s.tested + {size}
  {
    BracketTightens(s, size, v, adv);
    AdvertStays(s, size, v, adv);
  }

  datatype Evidence = Evidence(size: int, v: Verdict, adv: int)

  predicate InRange(min: int, max: int, es: seq<Evidence>) {
    forall i :: 0 <= i < |es| ==> min <= es[i].size <= max
  }

  function RecordedAll(s: Search, es: seq<Evidence>): Search
    decreases |es|
  {
    if es == [] then s else RecordedAll(Recorded(s, es[0].size, es[0].v, es[0].adv), es[1..])
  }

  /** Whatever the verdicts, and in whatever order they arrive, the bracket only tightens and every
      tested size ends up on or outside it. */
  lemma {:induction false} AnyEvidenceTightens(s: Search, es: seq<Evidence>)
    requires Sound(s) && InRange(s.min, s.max, es)
    ensures Sound(RecordedAll(s, es)) && Tighter(s, RecordedAll(s, es))
    ensures forall i :: 0 <= i < |es| ==> es[i].size in RecordedAll(s, es).tested
    decreases |es|
  {
    if es != [] {
      var r := Recorded(s, es[0].size, es[0].v, es[0].adv);
      RecordTightens(s, es[0].size, es[0].v, es[0].adv);
      AnyEvidenceTightens(r, es[1..]);
      forall i | 0 <= i < |es| ensures es[i].size in RecordedAll(s, es).tested {
        if i > 0 {
          assert es[i] == es[1..][i - 1];
        }
      }
    }
  }

  /** A late echo for a size already tested changes nothing at all. */
  lemma LateEchoIsInert(s: Search, size: int)
    requires Settled(s) && size in s.tested
    ensures Recorded(s, size, Delivered, 0) == s
  {
    assert s.tested + {size} == s.tested;
  }

  /** A late TooBig for a size already proven good closes the bracket past its own lower end. */
  lemma LateTooBigInverts(s: Search, size: int, adv: int)
    requires Sound(s) && size in s.tested && size <= s.lo
    ensures var r := Recorded(s, size, TooBig, adv);
      r.lo == s.lo && r.hi <= r.lo && Done(r)
  {
  }

  /** One verdict leaves an open bracket open exactly when it is a delivery or is for a size above the
      largest delivered one. */
  lemma {:induction false} StaysOpenIff(s: Search, size: int, v: Verdict, adv: int)
    requires s.lo < s.hi
    ensures var r := Recorded(s, size, v, adv);
      r.lo < r.hi <==> v.Delivered? || s.lo < size
  {
  }

  /** Every failing verdict of the run was for a size above the largest one delivered by then. */
  ghost predicate NoneBelow(s: Search, es: seq<Evidence>) {
    forall i :: 0 <= i < |es| && !es[i].v.Delivered? ==> RecordedAll(s, es[..i]).lo < es[i].size
  }

  lemma {:induction false} RecordedSnoc(s: Search, es: seq<Evidence>)
    requires es != []
    ensures var init, e := es[..|es| - 1], es[|es| - 1];
      RecordedAll(s, es) == Recorded(RecordedAll(s, init), e.size, e.v, e.adv)
    decreases |es|
  {
    if |es| > 1 {
      assert es[1..][..|es| - 2] == es[..|es| - 1][1..];
      RecordedSnoc(Recorded(s, es[0].size, es[0].v, es[0].adv), es[1..]);
    } else {
      assert es[1..] == [];
    }
  }

  lemma BracketShrinks(s: Search, size: int, v: Verdict, adv: int)
    ensures var r := Recorded(s, size, v, adv);
      s.lo <= r.lo && r.hi <= s.hi
  {
  }

  lemma NoneBelowSnoc(s: Search, es: seq<Evidence>)
    requires es != []
    ensures var init, e := es[..|es| - 1], es[|es| - 1];
      NoneBelow(s, es) <==> NoneBelow(s, init) && (e.v.Delivered? || RecordedAll(s, init).lo < e.size)
  {
    var n := |es| - 1;
    var init := es[..n];
    assert forall i :: 0 <= i < n ==> init[i] == es[i] && init[..i] == es[..i];
  }

  /** Over any evidence in any order the bracket ends open exactly when no failing verdict came for a
      size that was already proven delivered, or for a smaller one. */
  lemma {:induction false} OpenIffNoneBelow(s: Search, es: seq<Evidence>)
    requires s.lo < s.hi
    ensures RecordedAll(s, es).lo < RecordedAll(s, es).hi <==> NoneBelow(s, es)
    decreases |es|
  {
    if es != [] {
      var init, e := es[..|es| - 1], es[|es| - 1];
      var r := RecordedAll(s, init);
      OpenIffNoneBelow(s, init);
      RecordedSnoc(s, es);
      NoneBelowSnoc(s, es);
      BracketShrinks(r, e.size, e.v, e.adv);
      if r.lo < r.hi {
        StaysOpenIff(r, e.size, e.v, e.adv);
      }
    }
  }

  /** From the start of any search: max is too big, min is delivered, and a late TooBig for min closes
      the bracket on itself. */
  lemma InvertedFromStart(min: int, max: int, v6: bool)
    requires ParamsOk(min, max)
    ensures var es := [Evidence(max, TooBig, 0), Evidence(min, Delivered, 0), Evidence(min, TooBig, 0)];
      var s := RecordedAll(Start(min, max, v6), es);
      s.lo == min && s.hi == min && !NoneBelow(Start(min, max, v6), es)
  {
    var e0, e1, e2 := Evidence(max, TooBig, 0), Evidence(min, Delivered, 0), Evidence(min, TooBig, 0);
    var s0 := Start(min, max, v6);
    var s1 := Recorded(s0, max, TooBig, 0);
    var s2 := Recorded(s1, min, Delivered, 0);
    assert [e0, e1, e2][1..] == [e1, e2] && [e1, e2][1..] == [e2] && [e2][1..] == [];
    assert RecordedAll(s2, [e2]) == Recorded(s2, min, TooBig, 0);
    OpenIffNoneBelow(s0, [e0, e1, e2]);
  }

  /** The search stops asking exactly when its bracket is closed. */
  lemma NextStopsIffDone(s: Search)
    requires Settled(s)
    ensures Next(s).NoSize? <==> Done(s)
  {
  }

  /** Max is tested before any other size. */
  predicate MaxFirst(s: Search) {
    if s.max in s.tested then true else s.tested == {} && s.lo == 0 && s.hi == s.max + 1
  }

  /** Each size asked for is new, between min and max, and strictly inside the bracket. */
  lemma NextIsInside(s: Search)
    requires Sound(s) && MaxFirst(s) && Next(s).Size?
    ensures var n := Next(s).n;
      s.min <= n <= s.max && s.lo < n < s.hi && n !in s.tested
  {
  }

  /** Testing it shrinks the bracket, whatever else arrived meanwhile. */
  lemma TestingShrinks(s: Search, r: Search, size: int)
    requires Tighter(s, r) && Settled(r) && s.lo < size < s.hi && size in r.tested
    ensures r.hi - r.lo < s.hi - s.lo
    ensures r.hi - r.lo <= s.hi - size || r.hi - r.lo <= size - s.lo
  {
  }

  // ---------------------------------------------------------------- a path of fixed MTU

  /** Evidence from a lossless path that carries exactly the packets of at most `m` bytes. */
  predicate FromPath(m: int, es: seq<Evidence>) {
    forall i :: 0 <= i < |es| ==> (es[i].v.Delivered? <==> es[i].size <= m)
  }

  ghost predicate Brackets(s: Search, m: int) {
    s.lo <= m && (s.hi == s.max + 1 || m < s.hi)
  }

  lemma {:induction false} RecordBrackets(s: Search, size: int, v: Verdict, adv: int, m: int)
    requires Brackets(s, m) && (v.Delivered? <==> size <= m)
    ensures Brackets(Recorded(s, size, v, adv), m)
  {
  }

  lemma {:induction false} PathStaysBracketed(s: Search, es: seq<Evidence>, m: int)
    requires FromPath(m, es) && Brackets(s, m)
    ensures Brackets(RecordedAll(s, es), m)
    decreases |es|
  {
    if es != [] {
      RecordBrackets(s, es[0].size, es[0].v, es[0].adv, m);
      PathStaysBracketed(Recorded(s, es[0].size, es[0].v, es[0].adv), es[1..], m);
    }
  }

  /** The search found `m` exactly, or which end of the range it lies beyond, unless it stopped at an
      advertised value that it saw delivered. */
  predicate Found(s: Search, m: int) {
    && s.lo <= m
    && (!s.advConfirmed && m >= s.max ==> s.lo == s.max)
    && (!s.advConfirmed && m < s.min ==> s.lo == 0 && s.hi == s.min)
    && (!s.advConfirmed && s.min <= m < s.max ==> s.lo == m && s.hi == m + 1)
  }

  lemma FoundWhenDone(s: Search, m: int)
    requires Sound(s) && Brackets(s, m) && Done(s)
    ensures Found(s, m)
  {
  }

  /** On a path of MTU `m`, a search that is done has found it, whatever order the evidence came in. */
  lemma FindsPathMtu(min: int, max: int, v6: bool, es: seq<Evidence>, m: int)
    requires ParamsOk(min, max) && 0 <= m && InRange(min, max, es) && FromPath(m, es)
    requires Done(RecordedAll(Start(min, max, v6), es))
    ensures Found(RecordedAll(Start(min, max, v6), es), m)
  {
    AnyEvidenceTightens(Start(min, max, v6), es);
    PathStaysBracketed(Start(min, max, v6), es, m);
    FoundWhenDone(RecordedAll(Start(min, max, v6), es), m);
  }

  // ---------------------------------------------------------------- advertised values

  /** `e` is a TooBig that advertises a plausible MTU `a`. */
  predicate Advertises(v6: bool, e: Evidence, a: int) {
    e.v.TooBig? && e.adv == a && (if v6 then IPV6_MIN_MTU else MTU_FLOOR) <= a < e.size
  }

  lemma {:induction false} NextHopWasAdvertised(min: int, max: int, v6: bool, es: seq<Evidence>)
    ensures var s := RecordedAll(Start(min, max, v6), es);
      s.v6 == v6 && (s.nextHop != 0 ==> exists i :: 0 <= i < |es| && Advertises(v6, es[i], s.nextHop))
    decreases |es|
  {
    if es != [] {
      var init, e := es[..|es| - 1], es[|es| - 1];
      var r := RecordedAll(Start(min, max, v6), init);
      var s := RecordedAll(Start(min, max, v6), es);
      NextHopWasAdvertised(min, max, v6, init);
      RecordedSnoc(Start(min, max, v6), es);
      if s.nextHop != 0 {
        if s.nextHop == r.nextHop {
          var i :| 0 <= i < |init| && Advertises(v6, init[i], r.nextHop);
          assert Advertises(v6, es[i], s.nextHop);
        } else {
          assert Advertises(v6, es[|es| - 1], s.nextHop);
        }
      }
    }
  }

  /** A search stops at an advertised value only if a plausible one was advertised, and a packet of exactly
      that size was delivered afterwards. */
  lemma {:induction false} ConfirmedMeansSeen(min: int, max: int, v6: bool, es: seq<Evidence>)
    requires ParamsOk(min, max) && InRange(min, max, es) && RecordedAll(Start(min, max, v6), es).advConfirmed
    ensures exists i, j :: 0 <= i < j < |es| && Advertises(v6, es[i], es[j].size) && es[j].v.Delivered?
    decreases |es|
  {
    if es != [] {
      var init, e := es[..|es| - 1], es[|es| - 1];
      var r := RecordedAll(Start(min, max, v6), init);
      RecordedSnoc(Start(min, max, v6), es);
      if r.advConfirmed {
        ConfirmedMeansSeen(min, max, v6, init);
        var i, j :| 0 <= i < j < |init| && Advertises(v6, init[i], init[j].size) && init[j].v.Delivered?;
        assert Advertises(v6, es[i], es[j].size) && es[j].v.Delivered?;
      } else {
        NextHopWasAdvertised(min, max, v6, init);
        assert e.v.Delivered? && e.size == r.nextHop;
        var i :| 0 <= i < |init| && Advertises(v6, init[i], r.nextHop);
        assert Advertises(v6, es[i], es[|es| - 1].size);
      }
    }
  }

  /** A delivery inside the bracket ends the search exactly when it closes the bracket or is of the size
      advertised with the failure that bounds it. */
  lemma DeliveryEndsIff(s: Search, size: int, adv: int)
    requires !Done(s) && s.lo < size < s.hi <= s.max + 1
    ensures Next(Recorded(s, size, Delivered, adv)).NoSize? && Done(Recorded(s, size, Delivered, adv)) <==>
            size + 1 == s.hi || (s.cause.CauseTooBig? && size == s.nextHop)
  {
  }

  /** A path that advertises its MTU takes two sizes: max, and the one advertised. */
  lemma AdvertisedTakesTwo(min: int, max: int, v6: bool, m: int)
    requires ParamsOk(min, max) && min <= m < max && (v6 ==> m >= IPV6_MIN_MTU)
    ensures var s0 := Start(min, max, v6);
      var s1 := Recorded(s0, max, TooBig, m);
      var s2 := Recorded(s1, m, Delivered, 0);
      Next(s0) == Size(max) && Next(s1) == Size(m) && Next(s2) == NoSize && s2.lo == m
  {
  }

  function CauseOf(v: Verdict): Cause {
    match v
    case Delivered => NoCause
    case TooBig => CauseTooBig
    case Silent => CauseSilent
    case Local => CauseLocal
  }

  /** `es[i]` is the first failing verdict for the smallest size that failed. */
  ghost predicate FirstLeast(es: seq<Evidence>, i: nat) {
    && i < |es| && !es[i].v.Delivered?
    && (forall j :: 0 <= j < i && !es[j].v.Delivered? ==> es[i].size < es[j].size)
    && (forall j :: i < j < |es| && !es[j].v.Delivered? ==> es[i].size <= es[j].size)
  }

  /** The upper end and its cause are those of the first failure of the smallest size that failed. */
  ghost predicate BoundedBy(s: Search, es: seq<Evidence>) {
    if s.hi == s.max + 1 then s.cause.NoCause? && forall i :: 0 <= i < |es| ==> es[i].v.Delivered?
    else exists i: nat :: FirstLeast(es, i) && s.hi == es[i].size && s.cause == CauseOf(es[i].v)
  }

  /** So it is after any evidence in any order. */
  lemma {:induction false} CauseIsOfSmallestFailure(min: int, max: int, v6: bool, es: seq<Evidence>)
    requires InRange(min, max, es)
    ensures BoundedBy(RecordedAll(Start(min, max, v6), es), es)
    decreases |es|
  {
    if es != [] {
      var init, e := es[..|es| - 1], es[|es| - 1];
      var r := RecordedAll(Start(min, max, v6), init);
      CauseIsOfSmallestFailure(min, max, v6, init);
      RecordedSnoc(Start(min, max, v6), es);
      RangeKept(Start(min, max, v6), init);
      BoundedOn(r, init, e);
      assert es == init + [e];
    }
  }

  lemma {:induction false} BoundedOn(r: Search, es: seq<Evidence>, e: Evidence)
    requires BoundedBy(r, es) && e.size <= r.max
    ensures BoundedBy(Recorded(r, e.size, e.v, e.adv), es + [e])
  {
    if !e.v.Delivered? && e.size < r.hi {
      assert FirstLeast(es + [e], |es|);
    } else if r.hi != r.max + 1 {
      var i: nat :| FirstLeast(es, i) && r.hi == es[i].size && r.cause == CauseOf(es[i].v);
      assert FirstLeast(es + [e], i);
    }
  }

  lemma {:induction false} RangeKept(s: Search, es: seq<Evidence>)
    ensures RecordedAll(s, es).max == s.max
    decreases |es|
  {
    if es != [] {
      RangeKept(Recorded(s, es[0].size, es[0].v, es[0].adv), es[1..]);
    }
  }

  /** Nothing plausible is advertised but `m` itself. */
  predicate AdvertisesOnly(v6: bool, m: int, es: seq<Evidence>) {
    forall i :: 0 <= i < |es| && Advertises(v6, es[i], es[i].adv) ==> es[i].adv == m
  }

  /** Only `m` was ever taken for an advertised value, and the search stopped at one only with `m` delivered. */
  predicate TrustsOnly(s: Search, m: int) {
    0 <= s.lo && (s.nextHop == 0 || s.nextHop == m) && (s.advConfirmed ==> s.lo == m)
  }

  lemma {:induction false} RecordTrusts(s: Search, size: int, v: Verdict, adv: int, m: int)
    requires Brackets(s, m) && TrustsOnly(s, m) && (v.Delivered? <==> size <= m)
    requires Advertises(s.v6, Evidence(size, v, adv), adv) ==> adv == m
    ensures TrustsOnly(Recorded(s, size, v, adv), m)
  {
  }

  lemma {:induction false} PathTrusts(s: Search, es: seq<Evidence>, m: int)
    requires Brackets(s, m) && TrustsOnly(s, m) && FromPath(m, es) && AdvertisesOnly(s.v6, m, es)
    ensures TrustsOnly(RecordedAll(s, es), m)
    decreases |es|
  {
    if es != [] {
      assert Advertises(s.v6, es[0], es[0].adv) ==> es[0].adv == m;
      RecordBrackets(s, es[0].size, es[0].v, es[0].adv, m);
      RecordTrusts(s, es[0].size, es[0].v, es[0].adv, m);
      PathTrusts(Recorded(s, es[0].size, es[0].v, es[0].adv), es[1..], m);
    }
  }

  /** The search found `m`, or which end of the range it lies beyond. */
  predicate FoundExactly(s: Search, m: int) {
    && (m >= s.max ==> s.lo == s.max)
    && (m < s.min ==> s.lo == 0 && s.hi == s.min)
    && (s.min <= m < s.max ==> s.lo == m && m < s.hi && (s.hi == m + 1 || s.advConfirmed))
  }

  lemma FoundWhenTrusted(s: Search, m: int)
    requires Sound(s) && Brackets(s, m) && TrustsOnly(s, m) && Done(s)
    ensures FoundExactly(s, m)
  {
  }

  /** On a path of MTU `m` that advertises nothing plausible but `m`, a search that is done has found `m`,
      whether it confirmed the advertised value or bisected. */
  lemma HonestPathIsFound(min: int, max: int, v6: bool, es: seq<Evidence>, m: int)
    requires ParamsOk(min, max) && 0 <= m && InRange(min, max, es) && FromPath(m, es)
    requires AdvertisesOnly(v6, m, es) && Done(RecordedAll(Start(min, max, v6), es))
    ensures FoundExactly(RecordedAll(Start(min, max, v6), es), m)
  {
    var s := Start(min, max, v6);
    AnyEvidenceTightens(s, es);
    PathStaysBracketed(s, es, m);
    PathTrusts(s, es, m);
    FoundWhenTrusted(RecordedAll(s, es), m);
  }

  // ---------------------------------------------------------------- how many sizes

  /** The least k with n <= 2^k. */
  function CeilLog2(n: int): nat
    decreases n
  {
    if n <= 1 then 0 else 1 + CeilLog2((n + 1) / 2)
  }

  function Pow2(k: nat): nat {
    if k == 0 then 1 else 2 * Pow2(k - 1)
  }

  lemma {:induction false} CeilLog2Meaning(n: int)
    requires n >= 1
    ensures n <= Pow2(CeilLog2(n))
    ensures n > 1 ==> Pow2(CeilLog2(n) - 1) < n
    decreases n
  {
    if n > 1 {
      CeilLog2Meaning((n + 1) / 2);
    }
  }

  lemma {:induction false} CeilLog2Monotone(a: int, b: int)
    requires a <= b
    ensures CeilLog2(a) <= CeilLog2(b)
    decreases b
  {
    if a > 1 {
      CeilLog2Monotone((a + 1) / 2, (b + 1) / 2);
    }
  }

  /** An upper bound on the sizes still to test while no plausible MTU has been advertised. */
  function SizesToGo(s: Search): nat {
    if Done(s) then 0
    else if s.max !in s.tested then 2 + CeilLog2(s.max - s.min)
    else if s.lo == 0 && s.min !in s.tested then 1 + CeilLog2(s.max - s.min)
    else CeilLog2(s.hi - s.lo)
  }

  /** Testing one size uses up one of them, whatever late evidence arrives with it. */
  lemma SizesToGoDrops(s: Search, r: Search, size: int)
    requires Sound(s) && MaxFirst(s) && Next(s) == Size(size)
    requires Sound(r) && Tighter(s, r) && r.override == 0 && size in r.tested
    requires s.max !in s.tested ==> r.tested == {s.max}
    ensures SizesToGo(r) < SizesToGo(s)
  {
    NextIsInside(s);
    if Done(r) {
      SizesToGoPositive(s);
    } else if s.max !in s.tested {
    } else if s.lo == 0 && s.min !in s.tested {
      CeilLog2Monotone(r.hi - r.lo, s.max - s.min);
    } else {
      TestingShrinks(s, r, size);
      CeilLog2Monotone(r.hi - r.lo, (s.hi - s.lo + 1) / 2);
    }
  }

  lemma SizesToGoPositive(s: Search)
    requires !Done(s)
    ensures SizesToGo(s) >= 1
  {
  }

  // ---------------------------------------------------------------- the bound is met

  /** How many sizes a search tests from here on a path that delivers exactly the packets of up to `m` bytes
      and swallows the rest. */
  ghost function SizesTested(s: Search, m: int): nat
    requires Sound(s) && MaxFirst(s)
    decreases if s.hi > s.lo then s.hi - s.lo else 0
  {
    var n := Next(s);
    if n.NoSize? then 0
    else
      var v := if n.n <= m then Delivered else Silent;
      NextIsInside(s);
      RecordTightens(s, n.n, v, 0);
      TestingShrinks(s, Recorded(s, n.n, v, 0), n.n);
      1 + SizesTested(Recorded(s, n.n, v, 0), m)
  }

  /** A search that is bisecting, with max the only size that failed. */
  ghost predicate Bisecting(s: Search) {
    && Sound(s) && MaxFirst(s) && s.hi == s.max && s.max in s.tested && s.lo >= s.min && s.lo < s.max
    && s.override == 0 && !s.advConfirmed && s.cause.CauseSilent?
  }

  lemma {:induction false} BisectionTests(s: Search)
    requires Bisecting(s)
    ensures SizesTested(s, s.max - 1) == CeilLog2(s.hi - s.lo)
    decreases s.hi - s.lo
  {
    if s.hi - s.lo > 1 {
      BisectionStep(s);
      HalfUp(s.lo, s.hi);
      BisectionTests(Recorded(s, (s.lo + s.hi) / 2, Delivered, 0));
    }
  }

  lemma HalfUp(lo: int, hi: int)
    requires hi - lo > 1
    ensures lo < (lo + hi) / 2 < hi && CeilLog2(hi - lo) == 1 + CeilLog2(hi - (lo + hi) / 2)
  {
    assert hi - (lo + hi) / 2 == (hi - lo + 1) / 2;
  }

  lemma BisectionStep(s: Search)
    requires Bisecting(s) && s.hi - s.lo > 1
    ensures var mid := (s.lo + s.hi) / 2;
      var r := Recorded(s, mid, Delivered, 0);
      && Next(s) == Size(mid) && Bisecting(r) && r.max == s.max && r.hi == s.hi && r.lo == mid
      && SizesTested(s, s.max - 1) == 1 + SizesTested(r, s.max - 1)
  {
    RecordTightens(s, (s.lo + s.hi) / 2, Delivered, 0);
  }

  /** The bound on the sizes tested cannot be lowered: on the path that swallows max alone every search tests
      exactly that many. */
  lemma BoundIsMet(min: int, max: int, v6: bool)
    requires ParamsOk(min, max)
    ensures Sound(Start(min, max, v6)) && MaxFirst(Start(min, max, v6))
    ensures SizesTested(Start(min, max, v6), max - 1) == 2 + CeilLog2(max - min)
  {
    var s := Start(min, max, v6);
    var s1 := Recorded(s, max, Silent, 0);
    RecordTightens(s, max, Silent, 0);
    assert Next(s) == Size(max);
    var s2 := Recorded(s1, min, Delivered, 0);
    assert Next(s1) == Size(min);
    RecordTightens(s1, min, Delivered, 0);
    BisectionTests(s2);
  }

  // ---------------------------------------------------------------- the estimate the waits are budgeted with

  /** The number of bits of an unsigned integer. */
  function BitLen(n: nat): nat {
    if n == 0 then 0 else 1 + BitLen(n / 2)
  }

  const TWO64: int := 18446744073709551616

  /** sizesLeft: the difference converted to an unsigned 64-bit integer, which wraps once the bracket is
      inverted. */
  function SizesLeft(s: Search): nat
    requires s.lo - s.hi < TWO64
  {
    BitLen(if s.hi >= s.lo then s.hi - s.lo else s.hi - s.lo + TWO64) + 1
  }

  lemma {:induction false} BitLenIsLog(n: nat)
    ensures BitLen(n) == CeilLog2(n + 1)
  {
    if n > 0 {
      BitLenIsLog(n / 2);
      assert (n + 2) / 2 == n / 2 + 1;
    }
  }

  /** While nothing plausible is advertised, the estimate covers the sizes still to go exactly when the search
      is done or bisecting, or the range leaves it room: it counts bits of the bracket, and not the tests of
      max and min that come first. */
  lemma EstimateIff(s: Search)
    requires Sound(s) && MaxFirst(s)
    ensures SizesToGo(s) <= SizesLeft(s) <==>
      || Done(s)
      || (s.max in s.tested && (s.lo > 0 || s.min in s.tested))
      || (s.max in s.tested && CeilLog2(s.max - s.min) <= CeilLog2(s.hi + 1))
      || (s.max !in s.tested && CeilLog2(s.max - s.min) < CeilLog2(s.max + 2))
  {
    if !Done(s) {
      BitLenIsLog(s.hi - s.lo);
      CeilLog2Monotone(s.hi - s.lo, s.hi - s.lo + 1);
    }
  }

  /** When a search starts with too little room, the estimate is one short, on a path where it matters. */
  lemma EstimateFallsShort(min: int, max: int, v6: bool)
    requires ParamsOk(min, max) && CeilLog2(max - min) == CeilLog2(max + 2)
    ensures Sound(Start(min, max, v6)) && MaxFirst(Start(min, max, v6))
    ensures SizesTested(Start(min, max, v6), max - 1) == SizesLeft(Start(min, max, v6)) + 1
  {
    BoundIsMet(min, max, v6);
    BitLenIsLog(max + 1);
  }

  lemma WidestLogs()
    ensures CeilLog2(9148) == 14 && CeilLog2(9218) == 14
  {
    assert Pow2(7) == 128 && Pow2(6) == 64;
    Pow2Sum(7, 6);
    Pow2Sum(7, 7);
    LogBetween(9148, 14);
    LogBetween(9218, 14);
  }

  lemma {:induction false} LogBetween(n: nat, k: nat)
    requires k >= 1 && Pow2(k - 1) < n <= Pow2(k)
    ensures CeilLog2(n) == k
    decreases k
  {
    if k > 1 {
      LogBetween((n + 1) / 2, k - 1);
    }
  }

  /** The widest range there is does: 16 sizes, estimated as 15. */
  lemma WidestFallsShort(v6: bool)
    ensures var s := Start(MTU_FLOOR, MTU_CEIL, v6);
      Sound(s) && MaxFirst(s) && SizesTested(s, MTU_CEIL - 1) == 16 && SizesLeft(s) == 15
  {
    WidestLogs();
    BoundIsMet(MTU_FLOOR, MTU_CEIL, v6);
    EstimateFallsShort(MTU_FLOOR, MTU_CEIL, v6);
  }

  lemma {:induction false} BitLenBetween(n: nat, k: nat)
    requires Pow2(k) <= n < Pow2(k + 1)
    ensures BitLen(n) == k + 1
    decreases k
  {
    if k > 0 {
      BitLenBetween(n / 2, k - 1);
    }
  }

  lemma {:induction false} Pow2Sum(a: nat, b: nat)
    ensures Pow2(a + b) == Pow2(a) * Pow2(b)
    decreases b
  {
    if b > 0 {
      Pow2Sum(a, b - 1);
    }
  }

  lemma TopPowers()
    ensures Pow2(63) == 9223372036854775808 && Pow2(64) == 18446744073709551616
  {
    assert Pow2(8) == 256;
    Pow2Sum(8, 8);
    assert Pow2(16) == 65536;
    Pow2Sum(16, 16);
    assert Pow2(32) == 4294967296;
    Pow2Sum(32, 32);
  }

  /** Once the bracket is inverted the estimate wraps to 65. */
  lemma InvertedEstimate(s: Search)
    requires Sound(s) && s.hi < s.lo
    ensures SizesLeft(s) == 65
  {
    TopPowers();
    BitLenBetween(s.hi - s.lo + TWO64, 63);
  }

  /** The search after `n` sizes each came back TooBig and advertised one byte less. */
  function Crawled(min: int, max: int, v6: bool, n: nat): Search
    decreases n
  {
    if n == 0 then Start(min, max, v6)
    else Recorded(Crawled(min, max, v6, n - 1), max - (n - 1), TooBig, max - n)
  }

  /** What crawling has come to: the last size failed, and the one below it is to be tested next. */
  predicate CrawledTo(s: Search, min: int, max: int, n: nat) {
    && s.min == min && s.max == max && s.lo == 0 && s.hi == max - n + 1 && !s.advConfirmed
    && (n > 0 ==> s.max in s.tested && s.nextHop == max - n && s.override == max - n)
    && (n == 0 ==> s.nextHop == 0) && (forall t :: t in s.tested ==> t > max - n)
  }

  lemma {:induction false} CrawlStep(s: Search, min: int, max: int, n: nat)
    requires ParamsOk(min, max) && n < max - min && (s.v6 ==> min >= IPV6_MIN_MTU) && CrawledTo(s, min, max, n)
    ensures CrawledTo(Recorded(s, max - n, TooBig, max - n - 1), min, max, n + 1)
    ensures Recorded(s, max - n, TooBig, max - n - 1).v6 == s.v6
  {
  }

  lemma CrawledOn(min: int, max: int, v6: bool, n: nat)
    ensures Crawled(min, max, v6, n + 1) == Recorded(Crawled(min, max, v6, n), max - n, TooBig, max - n - 1)
  {
  }

  lemma {:induction false} CrawlKeeps(min: int, max: int, v6: bool, n: nat)
    requires ParamsOk(min, max) && n <= max - min && (v6 ==> min >= IPV6_MIN_MTU)
    ensures CrawledTo(Crawled(min, max, v6, n), min, max, n) && Crawled(min, max, v6, n).v6 == v6
    decreases n
  {
    if n > 0 {
      CrawlKeeps(min, max, v6, n - 1);
      var s := Crawled(min, max, v6, n - 1);
      CrawlStep(s, min, max, n - 1);
      CrawledOn(min, max, v6, n - 1);
    }
  }

  /** Where each TooBig advertises one byte less, the search asks for every size of the range in turn: no
      estimate from the bracket covers that. */
  lemma CrawlAsksForAll(min: int, max: int, v6: bool, n: nat)
    requires ParamsOk(min, max) && n <= max - min && (v6 ==> min >= IPV6_MIN_MTU)
    ensures Next(Crawled(min, max, v6, n)) == Size(max - n)
  {
    CrawlKeeps(min, max, v6, n);
  }
}
