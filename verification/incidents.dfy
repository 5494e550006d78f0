/** Incident-free time: the share of a window during which no incident was open, by a sweep over
    clipped spans. Times are whole milliseconds. */
module Incidents {
  import opened Ranges
  import opened Sorting

  /** A timestamp field: absent, not a date, or a time. */
  datatype Instant = Absent | Unparsable | At(ms: int)
  datatype Event = Event(openedAt: Instant, closedAt: Instant)
  datatype Span = Span(from: int, to: int)

  function Max(a: int, b: int): int { if a >= b then a else b }
  function Min(a: int, b: int): int { if a <= b then a else b }

  /** An event without a usable end is still open. */
  function EndOf(e: Event, now: int): int {
    if e.closedAt.At? then e.closedAt.ms else now
  }

  function FromOf(s: Span): int { s.from }

  // ---------------------------------------------------------------- the specification

  /** The event was open at `t`: from its start, up to its end if it has a usable one and up to now if not. */
  predicate Open(e: Event, now: int, t: int) {
    && e.openedAt.At? && e.openedAt.ms <= t
    && (e.closedAt.At? ==> t < e.closedAt.ms) && (!e.closedAt.At? ==> t < now)
  }

  ghost predicate AnyOpen(events: seq<Event>, now: int, t: int) {
    exists e :: e in events && Open(e, now, t)
  }

  /** The milliseconds of the window during which some incident was open. */
  ghost function OpenTime(events: seq<Event>, start: int, now: int): set<int> {
    set t | start <= t < now && AnyOpen(events, now, t)
  }

  // ---------------------------------------------------------------- unions of spans

  ghost function Union(spans: seq<Span>): set<int> {
    if spans == [] then {} else Union(spans[..|spans| - 1]) + Range(spans[|spans| - 1].from, spans[|spans| - 1].to)
  }

  lemma {:induction false} UnionMember(spans: seq<Span>, t: int)
    ensures t in Union(spans) <==> exists s :: s in spans && s.from <= t < s.to
  {
    if spans != [] {
      var init, last := spans[..|spans| - 1], spans[|spans| - 1];
      UnionMember(init, t);
      assert spans == init + [last];
    }
  }

  lemma UnionPermuted(a: seq<Span>, b: seq<Span>)
    requires multiset(a) == multiset(b)
    ensures Union(a) == Union(b)
  {
    assert forall s :: s in a <==> s in multiset(a);
    assert forall s :: s in b <==> s in multiset(b);
    forall t ensures t in Union(a) <==> t in Union(b) {
      UnionMember(a, t);
      UnionMember(b, t);
    }
  }

  // ---------------------------------------------------------------- clipping

  /** The spans of the window the sweep works on. */
  method Clip(events: seq<Event>, start: int, now: int) returns (spans: seq<Span>)
    requires start <= now
    ensures forall i :: 0 <= i < |spans| ==> start <= spans[i].from < spans[i].to <= now
    ensures Union(spans) == OpenTime(events, start, now)
  {
    spans := [];
    for i := 0 to |events|
      invariant forall k :: 0 <= k < |spans| ==> start <= spans[k].from < spans[k].to <= now
      invariant Union(spans) == OpenTime(events[..i], start, now)
    {
      OpenTimeStep(events, i, start, now);
      var e := events[i];
      if !e.openedAt.At? { continue; }
      var from := Max(e.openedAt.ms, start);
      var to := Min(EndOf(e, now), now);
      if to > from {
        ghost var before := spans;
        spans := spans + [Span(from, to)];
        assert spans[..|spans| - 1] == before;
      }
    }
    assert events[..|events|] == events;
  }

  lemma OpenTimeStep(events: seq<Event>, i: nat, start: int, now: int)
    requires i < |events|
    ensures var e := events[i];
      OpenTime(events[..i + 1], start, now) ==
        OpenTime(events[..i], start, now) +
        (if e.openedAt.At? then Range(Max(e.openedAt.ms, start), Min(EndOf(e, now), now)) else {})
  {
    var e := events[i];
    var more := if e.openedAt.At? then Range(Max(e.openedAt.ms, start), Min(EndOf(e, now), now)) else {};
    assert events[..i + 1] == events[..i] + [e];
    forall t ensures t in OpenTime(events[..i + 1], start, now) <==> t in OpenTime(events[..i], start, now) + more {
      OpenStep(events[..i], e, now, t);
      assert t in more <==> start <= t < now && Open(e, now, t);
    }
  }

  lemma OpenStep(events: seq<Event>, e: Event, now: int, t: int)
    ensures AnyOpen(events + [e], now, t) <==> AnyOpen(events, now, t) || Open(e, now, t)
  {
    if Open(e, now, t) {
      assert e in events + [e];
    } else if AnyOpen(events, now, t) {
      var x :| x in events && Open(x, now, t);
      assert x in events + [e];
    }
  }

  // ---------------------------------------------------------------- the sweep

  /** The sweep has covered `u`: everything covered lies before the cursor, and some span that
      started no later than any span to come reaches it. */
  ghost predicate Swept(u: set<int>, covered: int, cursor: int, top: Span) {
    && covered == |u| && cursor == top.to
    && (forall t :: t in u ==> t < cursor)
    && Range(top.from, top.to) <= u
  }

  lemma SweepStep(u: set<int>, covered: int, cursor: int, top: Span, s: Span)
    requires Swept(u, covered, cursor, top) && top.from <= s.from < s.to
    ensures var start := Max(s.from, cursor);
      if s.to > start
      then Swept(u + Range(s.from, s.to), covered + (s.to - start), s.to, s)
      else u + Range(s.from, s.to) == u
  {
    var start := Max(s.from, cursor);
    if s.to > start {
      RangeSize(start, s.to);
      assert u + Range(s.from, s.to) == u + Range(start, s.to);
      DisjointSize(u, Range(start, s.to));
    }
  }

  /** Total length covered by spans in order of their start. */
  method Sweep(spans: seq<Span>) returns (covered: int)
    requires Ascending(spans, FromOf)
    requires forall i :: 0 <= i < |spans| ==> spans[i].from < spans[i].to
    ensures covered == |Union(spans)|
  {
    covered := 0;
    if |spans| == 0 { return; }
    // the first span meets the initial cursor of minus infinity
    covered := spans[0].to - spans[0].from;
    var cursor := spans[0].to;
    ghost var top := spans[0];
    RangeSize(spans[0].from, spans[0].to);
    assert spans[..1][..0] == [];
    assert Union(spans[..1]) == Range(spans[0].from, spans[0].to);
    for i := 1 to |spans|
      invariant top in spans[..i] && Swept(Union(spans[..i]), covered, cursor, top)
    {
      var s := spans[i];
      assert spans[..i + 1][..i] == spans[..i];
      SweepStep(Union(spans[..i]), covered, cursor, top, s);
      var start := Max(s.from, cursor);
      if s.to > start {
        covered := covered + (s.to - start);
        cursor := s.to;
        top := s;
      }
    }
    assert spans[..|spans|] == spans;
  }

  /** The fraction of the window with no incident open. */
  method IncidentFreeRatio(events: seq<Event>, window: int, now: int) returns (ratio: real)
    ensures window <= 0 ==> ratio == 1.0
    ensures window > 0 ==>
      ratio == 1.0 - |OpenTime(events, now - window, now)| as real / window as real
    ensures 0.0 <= ratio <= 1.0
  {
    if window <= 0 { return 1.0; }
    var start := now - window;
    var spans := Clip(events, start, now);
    var sorted := SortBy(spans, FromOf);
    SortByAscends(spans, FromOf);
    SortByBag(spans, FromOf);
    SortedSpans(spans, sorted);
    var covered := Sweep(sorted);
    UnionPermuted(spans, sorted);
    WithinWindow(events, start, now);
    var free := 1.0 - covered as real / window as real;
    ShareInUnit(covered, window);
    // neither clamp applies
    ratio := if free > 1.0 then 1.0 else free;
    ratio := if ratio < 0.0 then 0.0 else ratio;
  }

  lemma SortedSpans(spans: seq<Span>, sorted: seq<Span>)
    requires multiset(spans) == multiset(sorted)
    requires forall i :: 0 <= i < |spans| ==> spans[i].from < spans[i].to
    ensures forall i :: 0 <= i < |sorted| ==> sorted[i].from < sorted[i].to
  {
    forall i | 0 <= i < |sorted| ensures sorted[i].from < sorted[i].to {
      assert sorted[i] in multiset(sorted);
      assert sorted[i] in multiset(spans);
    }
  }

  lemma WithinWindow(events: seq<Event>, start: int, now: int)
    requires start <= now
    ensures 0 <= |OpenTime(events, start, now)| <= now - start
  {
    RangeSize(start, now);
    SubsetSize(OpenTime(events, start, now), Range(start, now));
  }

  lemma ShareInUnit(part: int, whole: int)
    requires 0 <= part <= whole && whole > 0
    ensures 0.0 <= part as real / whole as real <= 1.0
  {
  }

  /** The ratio does not depend on the order of the events, nor on repeating them. */
  lemma OrderDoesNotMatter(a: seq<Event>, b: seq<Event>, start: int, now: int)
    requires forall e :: e in a <==> e in b
    ensures OpenTime(a, start, now) == OpenTime(b, start, now)
  {
    assert forall t :: AnyOpen(a, now, t) <==> AnyOpen(b, now, t);
  }
}
