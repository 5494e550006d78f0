/** The TTL cache over certificate validity, and its use by concurrent requests. Times are on one
    monotone clock, in seconds. */
module CertCache {

  const TTL: int := 30
  const SWEEP_ABOVE: nat := 4096

  datatype Key = Key(agent: int, serial: int)
  datatype Entry = Entry(valid: bool, expires: int)
  datatype Lookup = Miss | Hit(valid: bool)

  // ---------------------------------------------------------------- the cache

  function LookedUp(entries: map<Key, Entry>, k: Key, now: int): Lookup {
    if k !in entries || now > entries[k].expires then Miss else Hit(entries[k].valid)
  }

  function Swept(entries: map<Key, Entry>, now: int): map<Key, Entry> {
    map k | k in entries && now <= entries[k].expires :: entries[k]
  }

  function Put(entries: map<Key, Entry>, k: Key, valid: bool, now: int): map<Key, Entry> {
    (if |entries| > SWEEP_ABOVE then Swept(entries, now) else entries)[k := Entry(valid, now + TTL)]
  }

  /** Put without the sweep. */
  function Stored(entries: map<Key, Entry>, k: Key, valid: bool, now: int): map<Key, Entry> {
    entries[k := Entry(valid, now + TTL)]
  }

  class Cache {
    var entries: map<Key, Entry>

    constructor ()
      ensures entries == map[]
    {
      entries := map[];
    }

    method Get(k: Key, now: int) returns (valid: bool, found: bool)
      ensures found <==> LookedUp(entries, k, now).Hit?
      ensures found ==> LookedUp(entries, k, now) == Hit(valid)
    {
      if k !in entries || now > entries[k].expires { return false, false; }
      return entries[k].valid, true;
    }

    method Set(k: Key, valid: bool, now: int)
      modifies this
      ensures entries == Put(old(entries), k, valid, now)
      ensures k in entries && entries[k] == Entry(valid, now + 30)
      ensures forall x :: x != k ==>
        (x in entries <==> x in old(entries) && (|old(entries)| <= 4096 || now <= old(entries)[x].expires))
      ensures forall x :: x != k && x in entries ==> x in old(entries) && entries[x] == old(entries)[x]
    {
      if |entries| > SWEEP_ABOVE {
        var todo, kept := entries.Keys, entries;
        while todo != {}
          invariant todo <= entries.Keys && entries == old(entries)
          invariant kept.Keys <= entries.Keys
          invariant forall x :: x in kept <==> x in entries && (x in todo || now <= entries[x].expires)
          invariant forall x :: x in kept ==> kept[x] == entries[x]
          decreases |todo|
        {
          var x :| x in todo;
          todo := todo - {x};
          if now > entries[x].expires {
            kept := kept - {x};
          }
        }
        assert kept == Swept(entries, now);
        entries := kept;
      }
      entries := entries[k := Entry(valid, now + TTL)];
    }
  }

  /** The sweep changes no answer for any request stamped no earlier than it, and can only turn a hit
      into a miss for one stamped earlier, exactly when the entry expired in between. */
  lemma SweepIsInvisible(entries: map<Key, Entry>, now: int, x: Key, t: int)
    ensures t >= now ==> LookedUp(Swept(entries, now), x, t) == LookedUp(entries, x, t)
    ensures LookedUp(Swept(entries, now), x, t) == LookedUp(entries, x, t) <==>
            !(x in entries && t <= entries[x].expires < now)
    ensures LookedUp(Swept(entries, now), x, t).Hit? ==> LookedUp(Swept(entries, now), x, t) == LookedUp(entries, x, t)
  {
  }

  // ---------------------------------------------------------------- requests in flight

  /** What the database answered, and when; `no` numbers its answers. */
  datatype Answer = Answer(k: Key, valid: bool, at: int, no: nat)

  /** Each request is at one point between its steps: stamped, waiting for the database, or holding an
      answer it has yet to cache. An uncached check that proved a revocation holds that proof. */
  datatype Request =
    | Stamped(k: Key, now: int)
    | Fetching(k: Key, now: int)
    | Fetched(k: Key, now: int, a: Answer)
    | Revoking(a: Answer)

  /** An answer given to a caller at `servedAt`, on a request stamped `at`. `lag` is how long the
      database's answer waited to be cached when a revocation was written back; 0 otherwise. */
  datatype Served = Served(k: Key, valid: bool, at: int, servedAt: int, from: Answer, lag: int, cached: bool) {
    /** How long ago the database gave the answer. */
    function Age(): int {
      servedAt - from.at
    }

    /** How long the request took from its stamp. */
    function Delay(): int {
      servedAt - at
    }
  }

  /** Where a cache entry came from. */
  datatype Origin = Origin(a: Answer, lag: int)

  datatype World = World(clock: int, entries: map<Key, Entry>, origin: map<Key, Origin>,
                         requests: map<int, Request>, answers: seq<Answer>, served: seq<Served>)

  datatype Step =
    | Wait(dt: nat)
    | Arrive(id: int, k: Key)
    | LookUp(id: int)
    | DbReplies(id: int, valid: bool)
    | DbFails(id: int)
    | Cache(id: int)
    | UncachedCheck(id: int, k: Key)   // finds the certificate revoked
    | WriteBack(id: int)

  function Kept(sweeps: bool, entries: map<Key, Entry>, k: Key, valid: bool, now: int): map<Key, Entry> {
    if sweeps then Put(entries, k, valid, now) else Stored(entries, k, valid, now)
  }

  /** One step; `sweeps` is false only for the reference system that never sweeps. */
  function Next(sweeps: bool, w: World, s: Step): World {
    match s
    case Wait(dt) => w.(clock := w.clock + dt)
    case Arrive(id, k) =>
      if id in w.requests then w else w.(requests := w.requests[id := Stamped(k, w.clock)])
    case LookUp(id) =>
      if id !in w.requests || !w.requests[id].Stamped? then w
      else
        var r := w.requests[id];
        (match LookedUp(w.entries, r.k, r.now)
         case Miss => w.(requests := w.requests[id := Fetching(r.k, r.now)])
         case Hit(v) =>
           if r.k !in w.origin then w
           else w.(requests := w.requests - {id},
                   served := w.served + [Served(r.k, v, r.now, w.clock, w.origin[r.k].a, w.origin[r.k].lag, true)]))
    case DbReplies(id, v) =>
      if id !in w.requests || !w.requests[id].Fetching? then w
      else
        var r := w.requests[id];
        var a := Answer(r.k, v, w.clock, |w.answers|);
        w.(requests := w.requests[id := Fetched(r.k, r.now, a)], answers := w.answers + [a])
    case DbFails(id) =>
      if id !in w.requests || !w.requests[id].Fetching? then w else w.(requests := w.requests - {id})
    case Cache(id) =>
      if id !in w.requests || !w.requests[id].Fetched? then w
      else
        var r := w.requests[id];
        var e := Kept(sweeps, w.entries, r.k, r.a.valid, r.now);
        w.(requests := w.requests - {id}, entries := e, origin := w.origin[r.k := Origin(r.a, 0)],
           served := w.served + [Served(r.k, r.a.valid, r.now, w.clock, r.a, 0, false)])
    case UncachedCheck(id, k) =>
      if id in w.requests then w
      else
        var a := Answer(k, false, w.clock, |w.answers|);
        w.(requests := w.requests[id := Revoking(a)], answers := w.answers + [a])
    case WriteBack(id) =>
      if id !in w.requests || !w.requests[id].Revoking? then w
      else
        var a := w.requests[id].a;
        w.(requests := w.requests - {id}, entries := Kept(sweeps, w.entries, a.k, false, w.clock),
           origin := w.origin[a.k := Origin(a, w.clock - a.at)])
  }

  const START := World(0, map[], map[], map[], [], [])

  // ---------------------------------------------------------------- the invariant

  /** The database gave this answer, not later than now. */
  predicate Given(w: World, a: Answer) {
    a.no < |w.answers| && w.answers[a.no] == a && a.at <= w.clock
  }

  /** A cached entry repeats an answer of the database, and expires a TTL after that answer was given,
      or after it was written back. */
  predicate EntryOk(w: World, k: Key) {
    && k in w.entries && k in w.origin
    && var o, e := w.origin[k], w.entries[k];
       && Given(w, o.a) && o.a.k == k && o.a.valid == e.valid
       && o.lag >= 0 && e.expires <= o.a.at + o.lag + TTL
       && (o.lag > 0 ==> !e.valid)
  }

  predicate RequestOk(w: World, r: Request) {
    match r
    case Stamped(_, now) => now <= w.clock
    case Fetching(_, now) => now <= w.clock
    case Fetched(k, now, a) => Given(w, a) && a.k == k && now <= a.at
    case Revoking(a) => Given(w, a) && !a.valid
  }

  /** A served answer repeats an answer of the database. From the cache it was no older than a TTL plus
      its lag when the request was stamped; otherwise it was given after that. */
  predicate ServedOk(w: World, s: Served) {
    && Given(w, s.from) && s.from.k == s.k && s.from.valid == s.valid
    && s.lag >= 0 && (s.valid || !s.cached ==> s.lag == 0)
    && s.at <= s.servedAt && s.from.at <= s.servedAt
    && (if s.cached then s.from.at >= s.at - TTL - s.lag else s.from.at >= s.at)
  }

  ghost predicate Inv(w: World) {
    && (forall k :: k in w.entries ==> EntryOk(w, k))
    && (forall id :: id in w.requests ==> RequestOk(w, w.requests[id]))
    && (forall i :: 0 <= i < |w.served| ==> ServedOk(w, w.served[i]))
  }

  lemma {:induction false} StepKeepsEntries(sweeps: bool, w: World, s: Step)
    requires Inv(w)
    ensures forall k :: k in Next(sweeps, w, s).entries ==> EntryOk(Next(sweeps, w, s), k)
  {
    match s
    case Cache(id) => CacheKeepsEntries(sweeps, w, id);
    case WriteBack(id) => WriteBackKeepsEntries(sweeps, w, id);
    case _ =>
      OthersKeepCache(sweeps, w, s);
      EntriesStay(w, Next(sweeps, w, s));
  }

  lemma OthersKeepCache(sweeps: bool, w: World, s: Step)
    requires !s.Cache? && !s.WriteBack?
    ensures var w' := Next(sweeps, w, s);
      w'.entries == w.entries && w'.origin == w.origin && w.answers <= w'.answers && w.clock <= w'.clock
  {
  }

  lemma EntriesStay(w: World, w': World)
    requires forall k :: k in w.entries ==> EntryOk(w, k)
    requires w'.entries == w.entries && w'.origin == w.origin && w.answers <= w'.answers && w.clock <= w'.clock
    ensures forall k :: k in w'.entries ==> EntryOk(w', k)
  {
  }

  lemma CacheKeepsEntries(sweeps: bool, w: World, id: int)
    requires Inv(w)
    ensures var w' := Next(sweeps, w, Cache(id));
      forall k :: k in w'.entries ==> EntryOk(w', k)
  {
    if id in w.requests && w.requests[id].Fetched? {
      var r := w.requests[id];
      assert RequestOk(w, r);
      PutKeepsEntries(sweeps, w, Next(sweeps, w, Cache(id)), r.now, r.a, 0);
    }
  }

  lemma WriteBackKeepsEntries(sweeps: bool, w: World, id: int)
    requires Inv(w)
    ensures var w' := Next(sweeps, w, WriteBack(id));
      forall k :: k in w'.entries ==> EntryOk(w', k)
  {
    if id in w.requests && w.requests[id].Revoking? {
      var a := w.requests[id].a;
      assert RequestOk(w, w.requests[id]);
      PutKeepsEntries(sweeps, w, Next(sweeps, w, WriteBack(id)), w.clock, a, w.clock - a.at);
    }
  }

  lemma PutKeepsEntries(sweeps: bool, w: World, w': World, now: int, a: Answer, lag: int)
    requires forall k :: k in w.entries ==> EntryOk(w, k)
    requires w'.entries == Kept(sweeps, w.entries, a.k, a.valid, now)
    requires w'.origin == w.origin[a.k := Origin(a, lag)] && w'.answers == w.answers && w'.clock == w.clock
    requires Given(w, a) && 0 <= lag && now <= a.at + lag && (lag > 0 ==> !a.valid)
    ensures forall k :: k in w'.entries ==> EntryOk(w', k)
  {
    forall k | k in w'.entries ensures EntryOk(w', k) {
      if k != a.k {
        assert EntryOk(w, k);
      }
    }
  }

  lemma {:induction false} StepKeepsRequests(sweeps: bool, w: World, s: Step)
    requires Inv(w)
    ensures var w' := Next(sweeps, w, s);
      forall id :: id in w'.requests ==> RequestOk(w', w'.requests[id])
  {
  }

  lemma {:induction false} StepKeepsServed(sweeps: bool, w: World, s: Step)
    requires Inv(w)
    ensures var w' := Next(sweeps, w, s);
      forall i :: 0 <= i < |w'.served| ==> ServedOk(w', w'.served[i])
  {
  }

  function Run(sweeps: bool, w: World, steps: seq<Step>): World
    decreases |steps|
  {
    if steps == [] then w else Run(sweeps, Next(sweeps, w, steps[0]), steps[1..])
  }

  lemma {:induction false} RunKeepsInv(sweeps: bool, w: World, steps: seq<Step>)
    requires Inv(w)
    ensures Inv(Run(sweeps, w, steps))
    decreases |steps|
  {
    if steps != [] {
      StepKeepsEntries(sweeps, w, steps[0]);
      StepKeepsRequests(sweeps, w, steps[0]);
      StepKeepsServed(sweeps, w, steps[0]);
      RunKeepsInv(sweeps, Next(sweeps, w, steps[0]), steps[1..]);
    }
  }

  /** In every interleaving, each answer served is one the database gave for that certificate. From the
      cache its age is at most the TTL, plus the lag of a write-back, plus the time the request took; a
      "valid" one has no lag. Fetched, it is no older than the request. */
  lemma EveryAnswerIsTheDatabases(steps: seq<Step>, i: nat)
    requires i < |Run(true, START, steps).served|
    ensures var w := Run(true, START, steps);
      var s := w.served[i];
      && s.from in w.answers && s.from.k == s.k && s.from.valid == s.valid
      && 0 <= s.Age() <= s.Delay() + (if s.cached then TTL + s.lag else 0)
      && (s.valid ==> s.lag == 0)
  {
    RunKeepsInv(true, START, steps);
    assert ServedOk(Run(true, START, steps), Run(true, START, steps).served[i]);
  }

  // ---------------------------------------------------------------- the sweep

  /** `a` lacks only entries of `b` that have expired by `now`. */
  ghost predicate OnlyExpired(a: map<Key, Entry>, b: map<Key, Entry>, now: int) {
    && (forall k :: k in a ==> k in b && a[k] == b[k])
    && (forall k :: k in b && k !in a ==> b[k].expires < now)
  }

  /** Two worlds that differ only in cache entries that have expired by now. */
  ghost predicate Alike(w: World, u: World) {
    && w.clock == u.clock && w.origin == u.origin && w.requests == u.requests
    && w.answers == u.answers && w.served == u.served
    && OnlyExpired(w.entries, u.entries, u.clock)
  }

  lemma KeptAlike(a: map<Key, Entry>, b: map<Key, Entry>, k: Key, valid: bool, now: int, clock: int)
    requires OnlyExpired(a, b, clock) && now <= clock
    ensures OnlyExpired(Kept(true, a, k, valid, now), Kept(false, b, k, valid, now), clock)
  {
  }

  /** No lookup hits an entry that has expired since the lookup was stamped. A lookup at the second of
      its stamp never does. */
  predicate NoneOverdue(w: World, steps: seq<Step>)
    decreases |steps|
  {
    steps != [] ==> InTime(w, steps[0]) && NoneOverdue(Next(false, w, steps[0]), steps[1..])
  }

  predicate InTime(w: World, step: Step) {
    step.LookUp? && step.id in w.requests && w.requests[step.id].Stamped? ==>
      var r := w.requests[step.id];
      LookedUp(w.entries, r.k, r.now).Hit? ==> w.entries[r.k].expires >= w.clock
  }

  lemma LookUpAlike(w: World, u: World, id: int)
    requires Alike(w, u) && InTime(u, LookUp(id))
    ensures Alike(Next(true, w, LookUp(id)), Next(false, u, LookUp(id)))
  {
  }

  lemma CacheAlike(w: World, u: World, id: int)
    requires Inv(u) && Alike(w, u)
    ensures Alike(Next(true, w, Cache(id)), Next(false, u, Cache(id)))
  {
    if id in u.requests && u.requests[id].Fetched? {
      var r := u.requests[id];
      assert RequestOk(u, r);
      KeptAlike(w.entries, u.entries, r.k, r.a.valid, r.now, u.clock);
    }
  }

  lemma WriteBackAlike(w: World, u: World, id: int)
    requires Alike(w, u)
    ensures Alike(Next(true, w, WriteBack(id)), Next(false, u, WriteBack(id)))
  {
    var w', u' := Next(true, w, WriteBack(id)), Next(false, u, WriteBack(id));
    if id in u.requests && u.requests[id].Revoking? {
      var a, now := u.requests[id].a, u.clock;
      KeptAlike(w.entries, u.entries, a.k, false, now, now);
      assert w' == w.(requests := w'.requests, entries := Kept(true, w.entries, a.k, false, now), origin := w'.origin);
      assert u' == u.(requests := w'.requests, entries := Kept(false, u.entries, a.k, false, now), origin := w'.origin);
    } else {
      assert w' == w && u' == u;
    }
  }

  lemma {:induction false} StepAlike(w: World, u: World, s: Step)
    requires Inv(u) && Alike(w, u) && InTime(u, s)
    ensures Alike(Next(true, w, s), Next(false, u, s))
  {
    match s
    case LookUp(id) => LookUpAlike(w, u, id);
    case Cache(id) => CacheAlike(w, u, id);
    case WriteBack(id) => WriteBackAlike(w, u, id);
    case _ =>
  }

  /** With such lookups the sweep is invisible over whole runs: the system that sweeps serves the
      very answers, in the same order, that one which never forgets an entry serves. */
  lemma {:induction false} SweepNeverChangesAnswers(w: World, u: World, steps: seq<Step>)
    requires Inv(u) && Alike(w, u) && NoneOverdue(u, steps)
    ensures Run(true, w, steps).served == Run(false, u, steps).served
    ensures Run(true, w, steps).requests == Run(false, u, steps).requests
    decreases |steps|
  {
    if steps != [] {
      StepAlike(w, u, steps[0]);
      StepKeepsEntries(false, u, steps[0]);
      StepKeepsRequests(false, u, steps[0]);
      StepKeepsServed(false, u, steps[0]);
      SweepNeverChangesAnswers(Next(true, w, steps[0]), Next(false, u, steps[0]), steps[1..]);
    }
  }

  // ---------------------------------------------------------------- when the 30 seconds hold

  lemma RunOne(w: World, s: Step, rest: seq<Step>)
    ensures Run(true, w, [s] + rest) == Run(true, Next(true, w, s), rest)
  {
    assert ([s] + rest)[1..] == rest;
  }

  lemma RunLast(w: World, s: Step)
    ensures Run(true, w, [s]) == Next(true, w, s)
  {
    assert [s][1..] == [];
  }

  /** A request stamped a TTL from now, which looks up `d` seconds later. */
  function AskLater(k: Key, d: nat): seq<Step> {
    [Wait(TTL)] + ([Arrive(1, k)] + ([Wait(d)] + [LookUp(1)]))
  }

  lemma AskLaterServes(w: World, k: Key, d: nat)
    requires w.requests == map[] && k in w.entries && k in w.origin && w.entries[k].expires == w.clock + TTL
    ensures Run(true, w, AskLater(k, d)).served == w.served +
      [Served(k, w.entries[k].valid, w.clock + TTL, w.clock + TTL + d, w.origin[k].a, w.origin[k].lag, true)]
  {
    var w1 := Next(true, w, Wait(TTL));
    var w2 := Next(true, w1, Arrive(1, k));
    var w3 := Next(true, w2, Wait(d));
    RunOne(w, Wait(TTL), [Arrive(1, k)] + ([Wait(d)] + [LookUp(1)]));
    RunOne(w1, Arrive(1, k), [Wait(d)] + [LookUp(1)]);
    RunOne(w2, Wait(d), [LookUp(1)]);
    RunLast(w3, LookUp(1));
  }

  /** The world after a revocation proven at second 0 is written back `lag` seconds later. */
  function WrittenBack(k: Key, lag: nat): World {
    var a := Answer(k, false, 0, 0);
    World(lag, map[k := Entry(false, lag + TTL)], map[k := Origin(a, lag)], map[], [a], [])
  }

  lemma WriteBackRuns(k: Key, lag: nat, rest: seq<Step>)
    ensures Run(true, START, [UncachedCheck(0, k)] + ([Wait(lag)] + ([WriteBack(0)] + rest)))
         == Run(true, WrittenBack(k, lag), rest)
  {
    var w1 := Next(true, START, UncachedCheck(0, k));
    var w2 := Next(true, w1, Wait(lag));
    RunOne(START, UncachedCheck(0, k), [Wait(lag)] + ([WriteBack(0)] + rest));
    RunOne(w1, Wait(lag), [WriteBack(0)] + rest);
    RunOne(w2, WriteBack(0), rest);
    var w3 := Next(true, w2, WriteBack(0));
    assert w3.requests == map[];
    assert w3.answers == [Answer(k, false, 0, 0)] && w3.served == [];
    assert w3.entries == map[k := Entry(false, lag + TTL)];
    assert w3.origin == map[k := Origin(Answer(k, false, 0, 0), lag)];
  }

  /** A revocation proven at second 0 and written back `lag` seconds later, asked for as late as it is
      cached and looked up `d` seconds after that, is served with age TTL + lag + d. */
  lemma WriteBackOutlivesTtl(k: Key, lag: nat, d: nat)
    ensures var steps := [UncachedCheck(0, k)] + ([Wait(lag)] + ([WriteBack(0)] + AskLater(k, d)));
      Run(true, START, steps).served ==
        [Served(k, false, lag + TTL, lag + TTL + d, Answer(k, false, 0, 0), lag, true)]
  {
    WriteBackRuns(k, lag, AskLater(k, d));
    AskLaterServes(WrittenBack(k, lag), k, d);
  }

  /** The world after a first request was answered "valid" at second 0. */
  function Fetched0(k: Key): World {
    var a := Answer(k, true, 0, 0);
    World(0, map[k := Entry(true, TTL)], map[k := Origin(a, 0)], map[], [a], [Served(k, true, 0, 0, a, 0, false)])
  }

  lemma MissRuns(k: Key, rest: seq<Step>)
    ensures Run(true, START, [Arrive(0, k)] + ([LookUp(0)] + rest)) ==
            Run(true, START.(requests := map[0 := Fetching(k, 0)]), rest)
  {
    var w1 := Next(true, START, Arrive(0, k));
    RunOne(START, Arrive(0, k), [LookUp(0)] + rest);
    RunOne(w1, LookUp(0), rest);
    assert Next(true, w1, LookUp(0)).requests == map[0 := Fetching(k, 0)];
  }

  lemma FetchRuns(k: Key, rest: seq<Step>)
    ensures Run(true, START.(requests := map[0 := Fetching(k, 0)]), [DbReplies(0, true)] + ([Cache(0)] + rest))
         == Run(true, Fetched0(k), rest)
  {
    var w2 := START.(requests := map[0 := Fetching(k, 0)]);
    var a := Answer(k, true, 0, 0);
    var w3 := START.(requests := map[0 := Fetched(k, 0, a)], answers := [a]);
    RunOne(w2, DbReplies(0, true), [Cache(0)] + rest);
    assert Next(true, w2, DbReplies(0, true)) == w3;
    RunOne(w3, Cache(0), rest);
    var w4 := Next(true, w3, Cache(0));
    assert w4.requests == map[];
    assert w4.served == [Served(k, true, 0, 0, a, 0, false)];
    assert w4.entries == map[k := Entry(true, TTL)];
    assert w4.origin == map[k := Origin(a, 0)];
  }

  /** So is a "valid" answer, with age TTL + d: a request that dawdles between its stamp and its lookup
      is given what had expired meanwhile. */
  lemma ValidOutlivesTtl(k: Key, d: nat)
    ensures var steps := [Arrive(0, k)] + ([LookUp(0)] + ([DbReplies(0, true)] + ([Cache(0)] + AskLater(k, d))));
      var a := Answer(k, true, 0, 0);
      Run(true, START, steps).served ==
        [Served(k, true, 0, 0, a, 0, false), Served(k, true, TTL, TTL + d, a, 0, true)]
  {
    MissRuns(k, [DbReplies(0, true)] + ([Cache(0)] + AskLater(k, d)));
    FetchRuns(k, AskLater(k, d));
    AskLaterServes(Fetched0(k), k, d);
  }

  /** In every run, answers of this kind served after a write-back's lag and a request's delay are at most
      30 seconds old. */
  ghost predicate Guaranteed(valid: bool, lag: nat, delay: nat) {
    forall steps, i :: 0 <= i < |Run(true, START, steps).served| ==>
      var s := Run(true, START, steps).served[i];
      s.valid == valid && s.lag == lag && s.Delay() == delay ==> s.Age() <= 30
  }

  /** The 30 seconds hold on the clock of the caller exactly without lag and without delay; a "valid"
      answer never has lag. */
  lemma ThirtySecondsIff(valid: bool, lag: nat, delay: nat)
    ensures Guaranteed(valid, lag, delay) <==> (valid && lag > 0) || (lag == 0 && delay == 0)
  {
    if (valid && lag > 0) || (lag == 0 && delay == 0) {
      forall steps, i | 0 <= i < |Run(true, START, steps).served|
        ensures var s := Run(true, START, steps).served[i];
          s.valid == valid && s.lag == lag && s.Delay() == delay ==> s.Age() <= TTL
      {
        EveryAnswerIsTheDatabases(steps, i);
      }
    } else if valid {
      NotGuaranteedValid(delay);
    } else {
      NotGuaranteedRevoked(lag, delay);
    }
  }

  lemma NotGuaranteedRevoked(lag: nat, delay: nat)
    requires lag + delay > 0
    ensures !Guaranteed(false, lag, delay)
  {
    var k := Key(1, 1);
    var steps := [UncachedCheck(0, k)] + ([Wait(lag)] + ([WriteBack(0)] + AskLater(k, delay)));
    WriteBackOutlivesTtl(k, lag, delay);
    assert Run(true, START, steps).served[0].Age() > TTL;
  }

  lemma NotGuaranteedValid(delay: nat)
    requires delay > 0
    ensures !Guaranteed(true, 0, delay)
  {
    var k := Key(1, 1);
    var steps := [Arrive(0, k)] + ([LookUp(0)] + ([DbReplies(0, true)] + ([Cache(0)] + AskLater(k, delay))));
    ValidOutlivesTtl(k, delay);
    assert Run(true, START, steps).served[1].Age() > TTL;
  }

  // ---------------------------------------------------------------- "valid" after a revocation

  /** A request in flight holds a fetched "valid" for `k` that it has yet to cache, and was stamped no
      more than a TTL before `t`. */
  ghost predicate InFlight(w: World, k: Key, a: Answer, t: int) {
    exists id :: id in w.requests && w.requests[id].Fetched? && w.requests[id].k == k && w.requests[id].a == a &&
                 a.valid && t <= w.requests[id].now + TTL
  }

  /** Why a "valid" for `k` at `t` may follow `w0`: the database said so since, or had said so to a
      request still in flight. */
  ghost predicate Excused(w0: World, k: Key, a: Answer, t: int) {
    a.no >= |w0.answers| || InFlight(w0, k, a, t)
  }

  ghost predicate EntryExcused(w0: World, k: Key, w: World) {
    k in w.entries && w.entries[k].valid ==> k in w.origin && Excused(w0, k, w.origin[k].a, w.entries[k].expires)
  }

  ghost predicate Overtaking(w0: World, k: Key, w: World) {
    && |w0.answers| <= |w.answers| && |w0.served| <= |w.served|
    && EntryExcused(w0, k, w)
    && (forall id :: id in w.requests && w.requests[id].Fetched? && w.requests[id].k == k && w.requests[id].a.valid ==>
          Excused(w0, k, w.requests[id].a, w.requests[id].now + TTL))
    && (forall i :: |w0.served| <= i < |w.served| && w.served[i].k == k && w.served[i].valid ==>
          Excused(w0, k, w.served[i].from, w.served[i].at))
  }

  lemma ExcusedEarlier(w0: World, k: Key, a: Answer, t: int, t': int)
    requires Excused(w0, k, a, t) && t' <= t
    ensures Excused(w0, k, a, t')
  {
  }

  lemma OvertakingLookUp(w0: World, k: Key, w: World, id: int)
    requires Overtaking(w0, k, w)
    ensures Overtaking(w0, k, Next(true, w, LookUp(id)))
  {
    if id in w.requests && w.requests[id].Stamped? && w.requests[id].k == k &&
       k in w.entries && w.entries[k].valid && w.requests[id].now <= w.entries[k].expires {
      ExcusedEarlier(w0, k, w.origin[k].a, w.entries[k].expires, w.requests[id].now);
    }
  }

  lemma OvertakingCache(w0: World, k: Key, w: World, id: int)
    requires Overtaking(w0, k, w)
    ensures Overtaking(w0, k, Next(true, w, Cache(id)))
  {
    if id in w.requests && w.requests[id].Fetched? && w.requests[id].k == k && w.requests[id].a.valid {
      ExcusedEarlier(w0, k, w.requests[id].a, w.requests[id].now + TTL, w.requests[id].now);
    }
    CacheExcused(w0, k, w, id);
  }

  lemma CacheExcused(w0: World, k: Key, w: World, id: int)
    requires EntryExcused(w0, k, w)
    requires id in w.requests && w.requests[id].Fetched? && w.requests[id].k == k && w.requests[id].a.valid ==>
               Excused(w0, k, w.requests[id].a, w.requests[id].now + TTL)
    ensures EntryExcused(w0, k, Next(true, w, Cache(id)))
  {
  }

  lemma {:induction false} OvertakingStep(w0: World, k: Key, w: World, step: Step)
    requires Overtaking(w0, k, w)
    ensures Overtaking(w0, k, Next(true, w, step))
  {
    match step
    case LookUp(id) => OvertakingLookUp(w0, k, w, id);
    case Cache(id) => OvertakingCache(w0, k, w, id);
    case _ =>
  }

  lemma {:induction false} OvertakingRun(w0: World, k: Key, w: World, steps: seq<Step>)
    requires Overtaking(w0, k, w)
    ensures Overtaking(w0, k, Run(true, w, steps))
    decreases |steps|
  {
    if steps != [] {
      OvertakingStep(w0, k, w, steps[0]);
      OvertakingRun(w0, k, Next(true, w, steps[0]), steps[1..]);
    }
  }

  /** The cache holds a revocation of `k`, as it does after a write-back. */
  predicate HoldsRevocation(w: World, k: Key) {
    k in w.entries && !w.entries[k].valid
  }

  /** While the cache holds a revocation, a "valid" served later comes from a later answer of the
      database, or from one that was in flight. */
  lemma ValidAfterRevocation(w0: World, k: Key, steps: seq<Step>, i: nat)
    requires HoldsRevocation(w0, k)
    requires |w0.served| <= i < |Run(true, w0, steps).served|
    ensures var s := Run(true, w0, steps).served[i];
      s.k == k && s.valid ==> s.from.no >= |w0.answers| || InFlight(w0, k, s.from, s.at)
  {
    OvertakingRun(w0, k, w0, steps);
  }

  /** The database never says "valid" for `k` again. */
  predicate NoNewValid(w0: World, k: Key, w: World) {
    forall n :: |w0.answers| <= n < |w.answers| ==> !(w.answers[n].k == k && w.answers[n].valid)
  }

  /** A stale "valid" for `k` may still be served to a request stamped `t` or later. */
  ghost predicate MayServeStale(w0: World, k: Key, t: int) {
    exists steps, i :: |w0.served| <= i < |Run(true, w0, steps).served| && NoNewValid(w0, k, Run(true, w0, steps)) &&
      StaleFor(Run(true, w0, steps).served[i], k, t)
  }

  predicate StaleFor(s: Served, k: Key, t: int) {
    s.k == k && s.valid && s.at >= t
  }

  /** A revocation in the cache does not stop a stale "valid" exactly when one is in flight: whatever time
      from now on, one may be served then iff a request that was stamped no more than a TTL before has
      fetched it and not cached it yet. */
  lemma StaleValidIffInFlight(w0: World, k: Key, t: int)
    requires Inv(w0) && HoldsRevocation(w0, k) && t >= w0.clock
    ensures MayServeStale(w0, k, t) <==> exists a :: InFlight(w0, k, a, t)
  {
    if MayServeStale(w0, k, t) {
      var steps, i :| |w0.served| <= i < |Run(true, w0, steps).served| &&
        NoNewValid(w0, k, Run(true, w0, steps)) && StaleFor(Run(true, w0, steps).served[i], k, t);
      StaleWasInFlight(w0, k, t, steps, i);
    }
    if exists a :: InFlight(w0, k, a, t) {
      var a :| InFlight(w0, k, a, t);
      InFlightIsServed(w0, k, a, t);
    }
  }

  lemma StaleWasInFlight(w0: World, k: Key, t: int, steps: seq<Step>, i: nat)
    requires Inv(w0) && HoldsRevocation(w0, k) && |w0.served| <= i < |Run(true, w0, steps).served|
    requires NoNewValid(w0, k, Run(true, w0, steps)) && StaleFor(Run(true, w0, steps).served[i], k, t)
    ensures InFlight(w0, k, Run(true, w0, steps).served[i].from, t)
  {
    var w := Run(true, w0, steps);
    ValidAfterRevocation(w0, k, steps, i);
    RunKeepsInv(true, w0, steps);
    assert ServedOk(w, w.served[i]);
    assert InFlight(w0, k, w.served[i].from, w.served[i].at);
  }

  /** It is cached over the revocation, and the next request is given it. */
  lemma InFlightIsServed(w0: World, k: Key, a: Answer, t: int)
    requires InFlight(w0, k, a, t) && t >= w0.clock
    ensures MayServeStale(w0, k, t)
  {
    var id :| id in w0.requests && w0.requests[id].Fetched? && w0.requests[id].k == k && w0.requests[id].a == a &&
              a.valid && t <= w0.requests[id].now + TTL;
    var steps := [Cache(id)] + AskAt(id, k, t - w0.clock);
    var w1 := Next(true, w0, Cache(id));
    RunOne(w0, Cache(id), AskAt(id, k, t - w0.clock));
    AskAtServes(w1, id, k, t);
    assert StaleFor(Run(true, w0, steps).served[|w0.served| + 1], k, t);
  }

  /** A request stamped `dt` from now, looked up at once. */
  function AskAt(id: int, k: Key, dt: nat): seq<Step> {
    [Wait(dt)] + ([Arrive(id, k)] + [LookUp(id)])
  }

  lemma AskAtServes(w: World, id: int, k: Key, t: int)
    requires id !in w.requests && k in w.entries && k in w.origin && w.clock <= t <= w.entries[k].expires
    ensures var w' := Run(true, w, AskAt(id, k, t - w.clock));
      && w'.answers == w.answers
      && w'.served == w.served + [Served(k, w.entries[k].valid, t, t, w.origin[k].a, w.origin[k].lag, true)]
  {
    var w1 := Next(true, w, Wait(t - w.clock));
    var w2 := Next(true, w1, Arrive(id, k));
    RunOne(w, Wait(t - w.clock), [Arrive(id, k)] + [LookUp(id)]);
    RunOne(w1, Arrive(id, k), [LookUp(id)]);
    RunLast(w2, LookUp(id));
  }
}
