/** Site severity by attribution: an unhealthy direction is charged to the end where directions of its
    kind concentrate, and to both on a tie. */
module SiteBlame {
  import opened Sequences
  import opened Sorting

  type Site = string

  datatype Severity = Ok | Stale | Warn | Crit | Down
  datatype Evidence = Fault | NoData
  datatype Class = Healthy | Unhealthy(kind: Evidence)
  datatype Cell = Cell(src: Site, dst: Site, severity: Severity)

  function SiteRank(s: Severity): int {
    match s
    case Ok => 0
    case Stale => 1
    case Warn => 2
    case Crit => 2
    case Down => 3
  }

  function SeverityRank(s: Severity): int {
    match s
    case Ok => 0
    case Warn => 1
    case Stale => 2
    case Crit => 3
    case Down => 4
  }

  function Worst(a: Severity, b: Severity): Severity {
    if SeverityRank(a) >= SeverityRank(b) then a else b
  }

  function WorseSite(a: Severity, b: Severity): Severity {
    if SiteRank(a) == SiteRank(b) then Worst(a, b)
    else if SiteRank(a) > SiteRank(b) then a else b
  }

  /** The order the two rankings make together. */
  function Level(s: Severity): int {
    match s
    case Ok => 0
    case Stale => 1
    case Warn => 2
    case Crit => 3
    case Down => 4
  }

  /** Folding severities is taking the maximum of one total order, so the order of folding does not
      matter. */
  lemma WorseSiteIsMax(a: Severity, b: Severity)
    ensures WorseSite(a, b) == if Level(a) >= Level(b) then a else b
    ensures Level(a) == Level(b) ==> a == b
  {
  }

  function ClassOf(s: Severity): Class {
    match s
    case Ok => Healthy
    case Stale => Unhealthy(NoData)
    case _ => Unhealthy(Fault)
  }

  // ---------------------------------------------------------------- the specification

  function EndsOf(kind: Evidence): Cell -> seq<Site> {
    (c: Cell) => if ClassOf(c.severity) == Unhealthy(kind) then [c.src, c.dst] else []
  }

  /** How many ends of directions of a kind a site is. */
  function Count(cells: seq<Cell>, kind: Evidence, n: Site): nat {
    multiset(FlatMap(cells, EndsOf(kind)))[n]
  }

  datatype Charge = Charge(site: Site, severity: Severity)

  function When(b: bool, n: Site, v: Severity): seq<Charge> {
    if b then [Charge(n, v)] else []
  }

  /** What a cell charges to its ends, whose directions of its kind number `s` and `d`. A fault was
      measured, so an end it is not charged to is reachable; a stale direction proves nothing. */
  function ChargeList(c: Cell, s: nat, d: nat): seq<Charge> {
    match ClassOf(c.severity)
    case Healthy => [Charge(c.src, Ok), Charge(c.dst, Ok)]
    case Unhealthy(kind) =>
      When(s >= d, c.src, c.severity) + When(d >= s, c.dst, c.severity) +
      When(kind == Fault && s < d, c.src, Ok) + When(kind == Fault && d < s, c.dst, Ok)
  }

  function CountFor(cells: seq<Cell>, c: Cell, n: Site): nat {
    match ClassOf(c.severity)
    case Healthy => 0
    case Unhealthy(kind) => Count(cells, kind, n)
  }

  function ChargesIn(cells: seq<Cell>): Cell -> seq<Charge> {
    (c: Cell) => ChargeList(c, CountFor(cells, c, c.src), CountFor(cells, c, c.dst))
  }

  function AllCharges(cells: seq<Cell>): seq<Charge> {
    FlatMap(cells, ChargesIn(cells))
  }

  function Charged(m: map<Site, Severity>, x: Charge): map<Site, Severity> {
    m[x.site := if x.site in m then WorseSite(m[x.site], x.severity) else x.severity]
  }

  function Folded(m: map<Site, Severity>, xs: seq<Charge>): map<Site, Severity> {
    if xs == [] then m else Charged(Folded(m, xs[..|xs| - 1]), xs[|xs| - 1])
  }

  /** Each charged site has the worst of its charges, and no other site has any. */
  ghost predicate WorstOf(m: map<Site, Severity>, xs: seq<Charge>) {
    && (forall n :: n in m ==> Charge(n, m[n]) in xs)
    && (forall x :: x in xs ==> x.site in m && Level(x.severity) <= Level(m[x.site]))
  }

  lemma {:induction false} FoldedIsWorst(xs: seq<Charge>)
    ensures WorstOf(Folded(map[], xs), xs)
  {
    if xs != [] {
      var init, x := xs[..|xs| - 1], xs[|xs| - 1];
      FoldedIsWorst(init);
      var m := Folded(map[], init);
      assert xs == init + [x];
      if x.site in m {
        WorseSiteIsMax(m[x.site], x.severity);
      }
    }
  }

  lemma WorstIsUnique(m: map<Site, Severity>, k: map<Site, Severity>, xs: seq<Charge>, ys: seq<Charge>)
    requires WorstOf(m, xs) && WorstOf(k, ys) && multiset(xs) == multiset(ys)
    ensures m == k
  {
    assert forall x :: x in xs <==> x in multiset(xs);
    assert forall y :: y in ys <==> y in multiset(ys);
    forall n | n in m ensures n in k && m[n] == k[n] {
      assert Charge(n, m[n]) in ys;
      assert Charge(n, k[n]) in xs;
      WorseSiteIsMax(m[n], k[n]);
    }
    forall n | n in k ensures n in m {
      assert Charge(n, k[n]) in xs;
    }
  }

  /** The severity of each site. */
  function Attributed(cells: seq<Cell>): map<Site, Severity> {
    Folded(map[], AllCharges(cells))
  }

  // ---------------------------------------------------------------- the loops

  function Got(counts: map<Site, nat>, n: Site): nat {
    if n in counts then counts[n] else 0
  }

  ghost predicate Counted(cells: seq<Cell>, kind: Evidence, counts: map<Site, nat>) {
    forall n :: Got(counts, n) == Count(cells, kind, n)
  }

  function Bumped(counts: map<Site, nat>, n: Site): map<Site, nat> {
    counts[n := Got(counts, n) + 1]
  }

  /** One more cell changes a count by the ends of its kind that the site is. */
  lemma CountStep(cells: seq<Cell>, i: nat, kind: Evidence, n: Site)
    requires i < |cells|
    ensures var c := cells[i];
      Count(cells[..i + 1], kind, n) == Count(cells[..i], kind, n) +
        if ClassOf(c.severity) == Unhealthy(kind)
        then (if c.src == n then 1 else 0) + (if c.dst == n then 1 else 0) else 0
  {
    TakeTail(cells, i);
    FlatMapConcat(cells[..i], [cells[i]], EndsOf(kind));
    FlatMapOne(cells[i], EndsOf(kind));
  }

  lemma CountedStep(cells: seq<Cell>, i: nat, kind: Evidence, counts: map<Site, nat>)
    requires i < |cells| && Counted(cells[..i], kind, counts)
    ensures var c := cells[i];
      Counted(cells[..i + 1], kind,
              if ClassOf(c.severity) == Unhealthy(kind) then Bumped(Bumped(counts, c.src), c.dst) else counts)
  {
    var c := cells[i];
    var r := if ClassOf(c.severity) == Unhealthy(kind) then Bumped(Bumped(counts, c.src), c.dst) else counts;
    forall n ensures Got(r, n) == Count(cells[..i + 1], kind, n) {
      CountStep(cells, i, kind, n);
      assert Got(counts, n) == Count(cells[..i], kind, n);
      BumpedBoth(counts, c.src, c.dst, n);
    }
  }

  lemma BumpedBoth(counts: map<Site, nat>, a: Site, b: Site, n: Site)
    ensures Got(Bumped(Bumped(counts, a), b), n) ==
            Got(counts, n) + (if a == n then 1 else 0) + (if b == n then 1 else 0)
  {
  }

  method Tally(cells: seq<Cell>) returns (fault: map<Site, nat>, stale: map<Site, nat>)
    ensures Counted(cells, Fault, fault) && Counted(cells, NoData, stale)
  {
    fault, stale := map[], map[];
    for i := 0 to |cells|
      invariant Counted(cells[..i], Fault, fault) && Counted(cells[..i], NoData, stale)
    {
      CountedStep(cells, i, Fault, fault);
      CountedStep(cells, i, NoData, stale);
      var c := cells[i];
      match ClassOf(c.severity) {
        case Healthy =>
        case Unhealthy(kind) =>
          if kind == Fault {
            fault := Bumped(Bumped(fault, c.src), c.dst);
          } else {
            stale := Bumped(Bumped(stale, c.src), c.dst);
          }
      }
    }
    assert cells[..|cells|] == cells;
  }

  lemma {:induction false} FoldedConcat(m: map<Site, Severity>, xs: seq<Charge>, ys: seq<Charge>)
    ensures Folded(m, xs + ys) == Folded(Folded(m, xs), ys)
  {
    if ys == [] {
      assert xs + ys == xs;
    } else {
      assert (xs + ys)[..|xs + ys| - 1] == xs + ys[..|ys| - 1];
      FoldedConcat(m, xs, ys[..|ys| - 1]);
    }
  }

  lemma FoldedWhen(m: map<Site, Severity>, b: bool, n: Site, v: Severity)
    ensures Folded(m, When(b, n, v)) == if b then Charged(m, Charge(n, v)) else m
  {
    assert [Charge(n, v)][..0] == [];
  }

  /** Charges one cell to its ends. */
  method ChargeCell(m: map<Site, Severity>, c: Cell, s: nat, d: nat) returns (r: map<Site, Severity>)
    ensures r == Folded(m, ChargeList(c, s, d))
  {
    r := m;
    match ClassOf(c.severity) {
      case Healthy =>
        r := Charged(r, Charge(c.src, Ok));
        r := Charged(r, Charge(c.dst, Ok));
        FoldedTwo(m, Charge(c.src, Ok), Charge(c.dst, Ok));
      case Unhealthy(kind) =>
        FoldedFour(m, s >= d, c.src, c.severity, d >= s, c.dst, c.severity,
                   kind == Fault && s < d, c.src, Ok, kind == Fault && d < s, c.dst, Ok);
        if s >= d { r := Charged(r, Charge(c.src, c.severity)); }
        if d >= s { r := Charged(r, Charge(c.dst, c.severity)); }
        if kind == Fault {
          if s < d { r := Charged(r, Charge(c.src, Ok)); }
          if d < s { r := Charged(r, Charge(c.dst, Ok)); }
        }
    }
  }

  lemma FoldedTwo(m: map<Site, Severity>, x: Charge, y: Charge)
    ensures Folded(m, [x, y]) == Charged(Charged(m, x), y)
  {
    assert [x, y] == [x] + [y];
    assert [x][..0] == [] && [y][..0] == [];
    FoldedConcat(m, [x], [y]);
  }

  lemma FoldedFour(m: map<Site, Severity>, b1: bool, n1: Site, v1: Severity, b2: bool, n2: Site, v2: Severity,
                   b3: bool, n3: Site, v3: Severity, b4: bool, n4: Site, v4: Severity)
    ensures var m1 := if b1 then Charged(m, Charge(n1, v1)) else m;
      var m2 := if b2 then Charged(m1, Charge(n2, v2)) else m1;
      var m3 := if b3 then Charged(m2, Charge(n3, v3)) else m2;
      var m4 := if b4 then Charged(m3, Charge(n4, v4)) else m3;
      Folded(m, When(b1, n1, v1) + When(b2, n2, v2) + When(b3, n3, v3) + When(b4, n4, v4)) == m4
  {
    var w1, w2, w3, w4 := When(b1, n1, v1), When(b2, n2, v2), When(b3, n3, v3), When(b4, n4, v4);
    FoldedConcat(m, w1 + w2 + w3, w4);
    FoldedConcat(m, w1 + w2, w3);
    FoldedConcat(m, w1, w2);
    FoldedWhen(m, b1, n1, v1);
    var m1 := Folded(m, w1);
    FoldedWhen(m1, b2, n2, v2);
    var m2 := Folded(m1, w2);
    FoldedWhen(m2, b3, n3, v3);
    FoldedWhen(Folded(m2, w3), b4, n4, v4);
  }

  method AttributeSeverity(cells: seq<Cell>) returns (m: map<Site, Severity>)
    ensures m == Attributed(cells)
  {
    var fault, stale := Tally(cells);
    m := map[];
    for i := 0 to |cells|
      invariant m == Folded(map[], FlatMap(cells[..i], ChargesIn(cells)))
    {
      var c := cells[i];
      AttributedStep(cells, i);
      var s, d := 0, 0;
      match ClassOf(c.severity) {
        case Healthy =>
        case Unhealthy(kind) =>
          var counts := if kind == Fault then fault else stale;
          s, d := Got(counts, c.src), Got(counts, c.dst);
      }
      m := ChargeCell(m, c, s, d);
    }
    assert cells[..|cells|] == cells;
  }

  lemma AttributedStep(cells: seq<Cell>, i: nat)
    requires i < |cells|
    ensures var c := cells[i];
      Folded(map[], FlatMap(cells[..i + 1], ChargesIn(cells))) ==
      Folded(Folded(map[], FlatMap(cells[..i], ChargesIn(cells))),
             ChargeList(c, CountFor(cells, c, c.src), CountFor(cells, c, c.dst)))
  {
    var f := ChargesIn(cells);
    TakeTail(cells, i);
    FlatMapConcat(cells[..i], [cells[i]], f);
    FlatMapOne(cells[i], f);
    FoldedConcat(map[], FlatMap(cells[..i], f), f(cells[i]));
  }

  // ---------------------------------------------------------------- what attribution promises

  lemma CountPermuted(a: seq<Cell>, b: seq<Cell>, kind: Evidence, n: Site)
    requires multiset(a) == multiset(b)
    ensures Count(a, kind, n) == Count(b, kind, n)
  {
    FlatMapPermuted(a, b, EndsOf(kind));
  }

  /** Attribution does not depend on the order of the cells. */
  lemma AttributionIgnoresOrder(a: seq<Cell>, b: seq<Cell>)
    requires multiset(a) == multiset(b)
    ensures Attributed(a) == Attributed(b)
  {
    var f, g := ChargesIn(a), ChargesIn(b);
    forall c | c in a ensures multiset(f(c)) == multiset(g(c)) {
      if ClassOf(c.severity).Unhealthy? {
        CountPermuted(a, b, ClassOf(c.severity).kind, c.src);
        CountPermuted(a, b, ClassOf(c.severity).kind, c.dst);
      }
    }
    FlatMapPointwise(a, f, g);
    FlatMapPermuted(a, b, g);
    FoldedIsWorst(AllCharges(a));
    FoldedIsWorst(AllCharges(b));
    WorstIsUnique(Attributed(a), Attributed(b), AllCharges(a), AllCharges(b));
  }

  /** Every unhealthy direction is charged to at least one of its ends: that end looks no healthier
      than the direction does. */
  lemma EveryFaultIsCharged(cells: seq<Cell>, c: Cell)
    requires c in cells && ClassOf(c.severity).Unhealthy?
    ensures var m := Attributed(cells);
      || (c.src in m && Level(c.severity) <= Level(m[c.src]))
      || (c.dst in m && Level(c.severity) <= Level(m[c.dst]))
  {
    FoldedIsWorst(AllCharges(cells));
    var n := if CountFor(cells, c, c.src) >= CountFor(cells, c, c.dst) then c.src else c.dst;
    var x := Charge(n, c.severity);
    assert x in ChargesIn(cells)(c);
    FlatMapMember(cells, ChargesIn(cells), x);
  }

  /** A cell shows a site in the map: its ends if it was measured, and those it is charged to if not. */
  predicate Shows(cells: seq<Cell>, c: Cell, n: Site) {
    (n == c.src || n == c.dst) && (c.severity != Stale || Concentrates(cells, c, n))
  }

  predicate ShowsAt(c: Cell, s: nat, d: nat, n: Site) {
    || (n == c.src && (c.severity != Stale || s >= d))
    || (n == c.dst && (c.severity != Stale || d >= s))
  }

  lemma ChargedIsShown(c: Cell, s: nat, d: nat, x: Charge)
    requires x in ChargeList(c, s, d)
    ensures ShowsAt(c, s, d, x.site)
  {
  }

  lemma ShownIsCharged(c: Cell, s: nat, d: nat, n: Site) returns (x: Charge)
    requires ShowsAt(c, s, d, n)
    ensures x in ChargeList(c, s, d) && x.site == n
  {
    var charged := (n == c.src && s >= d) || (n == c.dst && d >= s);
    x := Charge(n, if charged then c.severity else Ok);
    var xs := ChargeList(c, s, d);
    if c.severity == Ok {
      assert xs == [Charge(c.src, Ok), Charge(c.dst, Ok)];
      x := Charge(n, Ok);
      assert x == xs[0] || x == xs[1];
    }
  }

  /** The sites shown are exactly the ends of measured directions, faulty or not, and the ends where stale
      ones concentrate; one that no direction makes unhealthy is shown as healthy. */
  lemma SitesShown(cells: seq<Cell>, n: Site)
    ensures n in Attributed(cells) <==> exists c :: c in cells && Shows(cells, c, n)
    ensures n in Attributed(cells) && (forall c :: c in cells && Concentrates(cells, c, n) ==> c.severity == Ok) ==>
              Attributed(cells)[n] == Ok
  {
    var xs := AllCharges(cells);
    FoldedIsWorst(xs);
    if n in Attributed(cells) {
      var x := Charge(n, Attributed(cells)[n]);
      FlatMapMember(cells, ChargesIn(cells), x);
      var c :| c in cells && x in ChargesIn(cells)(c);
      ChargedIsShown(c, CountFor(cells, c, c.src), CountFor(cells, c, c.dst), x);
      assert Shows(cells, c, n);
      if Attributed(cells)[n] != Ok {
        BlamedOnlyWhereConcentrated(cells, n);
      }
    }
    if exists c :: c in cells && Shows(cells, c, n) {
      var c :| c in cells && Shows(cells, c, n);
      var x := ShownIsCharged(c, CountFor(cells, c, c.src), CountFor(cells, c, c.dst), n);
      FlatMapMember(cells, ChargesIn(cells), x);
    }
  }

  /** `n` is an end of `c` with at least as many directions of its kind as the other end. */
  predicate Concentrates(cells: seq<Cell>, c: Cell, n: Site) {
    var s, d := CountFor(cells, c, c.src), CountFor(cells, c, c.dst);
    (n == c.src && s >= d) || (n == c.dst && d >= s)
  }

  lemma ChargedForItsOwn(c: Cell, s: nat, d: nat, x: Charge)
    requires x in ChargeList(c, s, d) && x.severity != Ok
    ensures c.severity == x.severity && ((x.site == c.src && s >= d) || (x.site == c.dst && d >= s))
  {
  }

  /** A site looks unhealthy only if it is an end of a direction that bad, and has at least as many
      directions of that kind as the other end has. */
  lemma BlamedOnlyWhereConcentrated(cells: seq<Cell>, n: Site)
    requires n in Attributed(cells) && Attributed(cells)[n] != Ok
    ensures exists c :: c in cells && c.severity == Attributed(cells)[n] && Concentrates(cells, c, n)
  {
    FoldedIsWorst(AllCharges(cells));
    var x := Charge(n, Attributed(cells)[n]);
    FlatMapMember(cells, ChargesIn(cells), x);
    var c :| c in cells && x in ChargesIn(cells)(c);
    ChargedForItsOwn(c, CountFor(cells, c, c.src), CountFor(cells, c, c.dst), x);
    assert Concentrates(cells, c, n);
  }
}
