/** Whole runs of the spool, and the pusher that drains it. */
module SpoolRuns {
  import opened Wrappers
  import opened Sequences
  import opened Frames
  import opened Counters
  import opened SpoolSpec
  import opened SpoolQueue

  const BATCH_SIZE: nat := 500

  datatype Op =
    | AppendOp(res: Option<Payload>, clock: Clock)
    | NextOp(max: int)
    | AckOp
    | AckDroppedOp(reported: U64)
    | CloseOp

  /** The results offered to Append come from a marshaller the reader inverts. */
  predicate Marshalled(c: Codec, ops: seq<Op>) {
    forall i :: 0 <= i < |ops| && ops[i].AppendOp? && ops[i].res.Some? ==> c.parses(ops[i].res.value)
  }

  function Appends(ops: seq<Op>): nat {
    if ops == [] then 0 else (if ops[|ops| - 1].AppendOp? then 1 else 0) + Appends(ops[..|ops| - 1])
  }

  function Nexts(ops: seq<Op>): nat {
    if ops == [] then 0 else (if ops[|ops| - 1].NextOp? then 1 else 0) + Nexts(ops[..|ops| - 1])
  }

  /** Batches handed out in order are runs of the append log at non-decreasing positions, none
      ahead of the head. */
  ghost predicate InOrder(log: seq<Payload>, head: nat, batches: seq<seq<Payload>>, at: seq<nat>) {
    && |at| == |batches|
    && (forall i :: 0 <= i < |at| ==> at[i] <= head && at[i] + |batches[i]| <= |log| &&
                                      batches[i] == log[at[i]..at[i] + |batches[i]|])
    && (forall i, j :: 0 <= i < j < |at| ==> at[i] <= at[j])
  }

  lemma InOrderGrows(log: seq<Payload>, log': seq<Payload>, head: nat, head': nat,
                     batches: seq<seq<Payload>>, at: seq<nat>)
    requires InOrder(log, head, batches, at) && log <= log' && head <= head'
    ensures InOrder(log', head', batches, at)
  {
    forall i | 0 <= i < |at| ensures batches[i] == log'[at[i]..at[i] + |batches[i]|] {
      assert log'[at[i]..at[i] + |batches[i]|] == log[at[i]..at[i] + |batches[i]|];
    }
  }

  lemma InOrderSnoc(log: seq<Payload>, head: nat, batches: seq<seq<Payload>>, at: seq<nat>, out: seq<Payload>)
    requires InOrder(log, head, batches, at) && head + |out| <= |log| && out == log[head..head + |out|]
    ensures InOrder(log, head, batches + [out], at + [head])
  {
  }

  lemma TakenIsRun(v: View, max: int, out: seq<Payload>)
    requires out == Take(v.Queue(), max)
    ensures v.Head() <= |v.log| ==> v.Head() + |out| <= |v.log| && out == v.log[v.Head()..v.Head() + |out|]
  {
    if v.Head() <= |v.log| {
      TakeFrom(v.log, v.Head(), max);
    }
  }

  /** What one operation may do to the queue: the log only grows, and at its end; the head only
      advances. */
  ghost predicate Advances(s: Fields, r: Fields) {
    && s.view.log <= r.view.log && s.view.Head() <= r.view.Head()
    && r.codec == s.codec
    && r.tally.recovered == s.tally.recovered && r.tally.start == s.tally.start
    && s.tally.shed <= r.tally.shed && s.tally.unspoolable <= r.tally.unspoolable
  }

  method Perform(sp: Spool, op: Op) returns (out: seq<Payload>)
    requires sp.Valid() && (op.AppendOp? && op.res.Some? ==> sp.f.codec.parses(op.res.value))
    modifies sp
    ensures sp.Valid() && Advances(old(sp.f), sp.f)
    ensures sp.f.tally.offered == old(sp.f).tally.offered + (if op.AppendOp? then 1 else 0)
    ensures op.NextOp? ==> out == Take(sp.f.view.Queue(), op.max) && sp.f.view.log == old(sp.f).view.log
                           && sp.f.view.Head() == old(sp.f).view.Head()
    ensures sp.f.codec == old(sp.f).codec
    ensures if op.AppendOp? && op.res.Some? && |op.res.value| <= MAX_RECORD_BYTES - RECORD_OVERHEAD
            then AgedBy(old(sp.f).files, sp.f.files, op.clock(2)) &&
                 Bounded(old(sp.f), sp.f, |op.res.value|, sp.maxBytes, sp.maxAge, op.clock)
            else OnlyDeletes(old(sp.f), sp.f)
  {
    out := [];
    match op {
      case AppendOp(res, clock) => sp.Append(res, clock);
      case NextOp(max) => out := sp.Next(max);
      case AckOp => sp.Ack();
      case AckDroppedOp(n) => sp.AckDropped(n);
      case CloseOp => sp.Close();
    }
  }

  /** Any run of operations, with bounds drops wherever Append makes them: the batches come out in
      append order, and every result offered or recovered is queued, acknowledged, or in the drop
      counts. */
  method Run(sp: Spool, ops: seq<Op>) returns (batches: seq<seq<Payload>>, ghost at: seq<nat>)
    requires sp.Valid() && Marshalled(sp.f.codec, ops)
    modifies sp
    ensures sp.Valid() && Advances(old(sp.f), sp.f)
    ensures InOrder(sp.f.view.log, sp.f.view.Head(), batches, at) && |batches| == Nexts(ops)
    ensures sp.f.tally.offered == old(sp.f).tally.offered + Appends(ops)
    ensures sp.f.tally.offered + sp.f.tally.recovered ==
            |Flat(sp.f.view.recs)| + sp.f.tally.ackRemoved + (sp.f.tally.unspoolable + sp.f.tally.shed)
    ensures Lifetime(sp.f.tally) <= MAX_U64 ==>
            sp.f.drops.total - sp.f.tally.start == sp.f.tally.unspoolable + sp.f.tally.shed
  {
    batches, at := [], [];
    for i := 0 to |ops|
      invariant sp.Valid() && Advances(old(sp.f), sp.f)
      invariant InOrder(sp.f.view.log, sp.f.view.Head(), batches, at) && |batches| == Nexts(ops[..i])
      invariant sp.f.tally.offered == old(sp.f).tally.offered + Appends(ops[..i])
    {
      OpsOn(ops, i);
      ghost var before := sp.f;
      batches, at := Step(sp, ops[i], batches, at);
      AdvancesOn(old(sp.f), before, sp.f);
    }
    assert ops[..|ops|] == ops;
    Conserved(sp.f);
  }

  lemma OpsOn(ops: seq<Op>, i: nat)
    requires i < |ops|
    ensures Appends(ops[..i + 1]) == Appends(ops[..i]) + (if ops[i].AppendOp? then 1 else 0)
    ensures Nexts(ops[..i + 1]) == Nexts(ops[..i]) + (if ops[i].NextOp? then 1 else 0)
  {
    assert ops[..i + 1][..i] == ops[..i];
  }

  /** One operation of a run, its batch added to those handed out. */
  method Step(sp: Spool, op: Op, batches: seq<seq<Payload>>, ghost at: seq<nat>)
    returns (batches': seq<seq<Payload>>, ghost at': seq<nat>)
    requires sp.Valid() && (op.AppendOp? && op.res.Some? ==> sp.f.codec.parses(op.res.value))
    requires InOrder(sp.f.view.log, sp.f.view.Head(), batches, at)
    modifies sp
    ensures sp.Valid() && Advances(old(sp.f), sp.f)
    ensures sp.f.tally.offered == old(sp.f).tally.offered + (if op.AppendOp? then 1 else 0)
    ensures InOrder(sp.f.view.log, sp.f.view.Head(), batches', at')
    ensures |batches'| == |batches| + (if op.NextOp? then 1 else 0)
    ensures op.NextOp? ==> batches' == batches + [Take(sp.f.view.Queue(), op.max)]
    ensures !op.NextOp? ==> batches' == batches
  {
    ghost var s := sp.f;
    var out := Perform(sp, op);
    InOrderGrows(s.view.log, sp.f.view.log, s.view.Head(), sp.f.view.Head(), batches, at);
    batches', at' := batches, at;
    if op.NextOp? {
      HandedInOrder(sp.f, op.max, out, batches, at);
      batches', at' := batches + [out], at + [sp.f.view.Head()];
    }
  }

  lemma HandedInOrder(s: Fields, max: int, out: seq<Payload>, batches: seq<seq<Payload>>, at: seq<nat>)
    requires FilesInv(s) && CursorInv(s) && out == Take(s.view.Queue(), max)
    requires InOrder(s.view.log, s.view.Head(), batches, at)
    ensures InOrder(s.view.log, s.view.Head(), batches + [out], at + [s.view.Head()])
  {
    HeadInLog(s);
    TakenIsRun(s.view, max, out);
    InOrderSnoc(s.view.log, s.view.Head(), batches, at, out);
  }

  // ---------------------------------------------------------------- the pusher

  /** While a push is in flight results keep being appended: the batch handed out stays what it was,
      and nothing is acknowledged. */
  ghost predicate InFlight(s: Fields, r: Fields) {
    && Advances(s, r)
    && r.view.upto == s.view.upto
    && r.tally.acked == s.tally.acked && r.drops.acked == s.drops.acked
  }

  /** A result offered to Append; None is one that does not marshal. */
  datatype Offer = Offer(res: Option<Payload>, clock: Clock)

  predicate OffersMarshalled(c: Codec, offers: seq<Offer>) {
    forall i :: 0 <= i < |offers| && offers[i].res.Some? ==> c.parses(offers[i].res.value)
  }

  /** The results among these that are spooled, in order. */
  function Fitting(offers: seq<Offer>): seq<Payload> {
    if offers == [] then [] else Fitting(offers[..|offers| - 1]) + Fits1(offers[|offers| - 1].res)
  }

  function Fits1(res: Option<Payload>): seq<Payload> {
    if res.Some? && |res.value| <= MAX_RECORD_BYTES - RECORD_OVERHEAD then [res.value] else []
  }

  lemma FittingStep(log: seq<Payload>, offers: seq<Offer>, i: nat)
    requires i < |offers|
    ensures log + Fitting(offers[..i + 1]) == log + Fitting(offers[..i]) + Fits1(offers[i].res)
  {
    assert offers[..i + 1][..i] == offers[..i];
    ConcatAssoc(log, Fitting(offers[..i]), Fits1(offers[i].res));
  }

  method AppendOne(sp: Spool, res: Option<Payload>, clock: Clock)
    requires sp.Valid() && (res.Some? ==> sp.f.codec.parses(res.value))
    modifies sp
    ensures sp.Valid() && InFlight(old(sp.f), sp.f) && sp.f.view.log == old(sp.f).view.log + Fits1(res)
    ensures sp.f.tally.offered == old(sp.f).tally.offered + 1
  {
    sp.Append(res, clock);
  }

  lemma InFlightStays(a: Fields, b: Fields, c: Fields)
    requires InFlight(a, b) && InFlight(b, c)
    ensures InFlight(a, c)
  {
  }

  method KeepAppending(sp: Spool, offers: seq<Offer>)
    requires sp.Valid() && OffersMarshalled(sp.f.codec, offers)
    modifies sp
    ensures sp.Valid() && InFlight(old(sp.f), sp.f)
    ensures sp.f.view.log == old(sp.f).view.log + Fitting(offers)
    ensures sp.f.tally.offered == old(sp.f).tally.offered + |offers|
  {
    for i := 0 to |offers|
      invariant sp.Valid() && InFlight(old(sp.f), sp.f)
      invariant sp.f.view.log == old(sp.f).view.log + Fitting(offers[..i])
      invariant sp.f.tally.offered == old(sp.f).tally.offered + i
    {
      ghost var s := sp.f;
      FittingStep(old(sp.f).view.log, offers, i);
      AppendOne(sp, offers[i].res, offers[i].clock);
      InFlightStays(old(sp.f), s, sp.f);
    }
    assert offers[..|offers|] == offers;
  }

  /** Of the drops there are now, exactly those reported before the push are acknowledged; those
      that raced it are not. */
  lemma ReportedExactly(s: Fields, r: Fields)
    requires TallyInv(s) && TallyInv(r) && InFlight(s, r)
    ensures Lifetime(r.tally) <= MAX_U64 ==>
      var d := Acknowledged(r.drops, s.drops.unacked);
      d.acked == r.drops.acked + s.drops.unacked && d.unacked == r.drops.unacked - s.drops.unacked
  {
    if Lifetime(r.tally) <= MAX_U64 {
      AckCut(r.sidecars, s.drops.unacked, 2);
    }
  }

  /** One round of the drain loop. The lock is taken anew for each of Next, Dropped, AckDropped and the
      ack, so results are appended, and segments dropped, at every point between them. */
  datatype Round = Round(beforeReport: seq<Offer>, inFlight: seq<Offer>, beforeAck: seq<Offer>, accepts: bool)

  predicate RoundMarshalled(c: Codec, r: Round) {
    && OffersMarshalled(c, r.beforeReport)
    && OffersMarshalled(c, r.inFlight)
    && OffersMarshalled(c, r.beforeAck)
  }

  predicate RoundsMarshalled(c: Codec, rounds: seq<Round>) {
    forall k :: 0 <= k < |rounds| ==> RoundMarshalled(c, rounds[k])
  }

  /** The results spooled in the course of a round. */
  function SpooledDuring(r: Round): seq<Payload> {
    Fitting(r.beforeReport) + Fitting(r.inFlight) + Fitting(r.beforeAck)
  }

  /** The results offered in its course. */
  function OffersDuring(r: Round): nat {
    |r.beforeReport| + |r.inFlight| + |r.beforeAck|
  }

  /** From `s` to `r` a batch was handed out; meanwhile `offers` results were offered, `spooled` of them
      appended, and nothing consumed. */
  ghost predicate HandsOut(s: Fields, r: Fields, batch: seq<Payload>, spooled: seq<Payload>, offers: nat) {
    && Advances(s, r)
    && batch == Take(s.view.Queue(), BATCH_SIZE) && r.view.upto == s.view.Head() + |batch|
    && r.view.log == s.view.log + spooled && r.tally.acked == s.tally.acked
    && r.tally.offered == s.tally.offered + offers
  }

  lemma HandsOutOn(s: Fields, f: Fields, r: Fields, batch: seq<Payload>, spooled: seq<Payload>, offers: nat,
                   more: seq<Payload>, n: nat)
    requires HandsOut(s, f, batch, spooled, offers) && Advances(f, r) && r.view.log == f.view.log + more
    requires r.view.upto == f.view.upto && r.tally.acked == f.tally.acked && r.tally.offered == f.tally.offered + n
    ensures HandsOut(s, r, batch, spooled + more, offers + n)
  {
    AdvancesOn(s, f, r);
    ConcatAssoc(s.view.log, spooled, more);
  }

  lemma NextHandsOut(s: Fields, r: Fields, batch: seq<Payload>)
    requires SameQueue(s, r) && r.codec == s.codec
    requires batch == Take(r.view.Queue(), BATCH_SIZE) && r.view.upto == r.view.Head() + |batch|
    ensures HandsOut(s, r, batch, [], 0)
  {
  }

  /** A batch, and the drop counts to report with it. */
  method TakeBatch(sp: Spool, offers: seq<Offer>) returns (batch: seq<Payload>, total: U64, unacked: U64)
    requires sp.Valid() && OffersMarshalled(sp.f.codec, offers)
    modifies sp
    ensures sp.Valid() && HandsOut(old(sp.f), sp.f, batch, Fitting(offers), |offers|)
    ensures sp.f.drops.acked == old(sp.f).drops.acked
    ensures total == sp.f.drops.total && unacked == sp.f.drops.unacked
  {
    batch := sp.Next(BATCH_SIZE);
    ghost var f := sp.f;
    NextHandsOut(old(sp.f), f, batch);
    KeepAppending(sp, offers);
    HandsOutOn(old(sp.f), f, sp.f, batch, [], 0, Fitting(offers), |offers|);
    assert [] + Fitting(offers) == Fitting(offers);
    total, unacked := sp.DropCounts();
  }

  /** Acknowledges the reported drops, while results keep being appended. */
  method Report(sp: Spool, unacked: U64, offers: seq<Offer>)
    requires sp.Valid() && OffersMarshalled(sp.f.codec, offers)
    modifies sp
    ensures sp.Valid() && Advances(old(sp.f), sp.f)
    ensures sp.f.view.upto == old(sp.f).view.upto && sp.f.tally.acked == old(sp.f).tally.acked
    ensures sp.f.view.log == old(sp.f).view.log + Fitting(offers)
    ensures sp.f.tally.offered == old(sp.f).tally.offered + |offers|
    ensures sp.f.drops.acked ==
            if unacked > 0 then Acknowledged(old(sp.f).drops, unacked).acked else old(sp.f).drops.acked
  {
    if unacked > 0 {
      sp.AckDropped(unacked);
    }
    KeepAppending(sp, offers);
  }

  /** Everything of a round before the ack; `seen` is the spool when the drop counts were read. Exactly the
      drops reported are acknowledged, if the server accepted the batch. */
  method UpToAck(sp: Spool, round: Round)
    returns (batch: seq<Payload>, total: U64, unacked: U64, ghost seen: Fields)
    requires sp.Valid() && RoundMarshalled(sp.f.codec, round)
    modifies sp
    ensures sp.Valid() && HandsOut(old(sp.f), sp.f, batch, SpooledDuring(round), OffersDuring(round))
    ensures Inv(seen) && Advances(old(sp.f), seen) && Advances(seen, sp.f)
    ensures total == seen.drops.total && unacked == seen.drops.unacked
    ensures !round.accepts || batch == [] ==> sp.f.drops.acked == old(sp.f).drops.acked
    ensures round.accepts && batch != [] && Lifetime(sp.f.tally) <= MAX_U64 ==>
              sp.f.drops.acked == old(sp.f).drops.acked + unacked
  {
    ghost var s := sp.f;
    batch, total, unacked := TakeBatch(sp, round.beforeReport);
    seen := sp.f;
    KeepAppending(sp, round.inFlight);
    ghost var f := sp.f;
    HandsOutOn(s, seen, f, batch, Fitting(round.beforeReport), |round.beforeReport|,
               Fitting(round.inFlight), |round.inFlight|);
    if |batch| == 0 || !round.accepts {
      KeepAppending(sp, round.beforeAck);
    } else {
      ReportedExactly(seen, f);
      Report(sp, unacked, round.beforeAck);
    }
    HandsOutOn(s, f, sp.f, batch, Fitting(round.beforeReport) + Fitting(round.inFlight),
               |round.beforeReport| + |round.inFlight|, Fitting(round.beforeAck), |round.beforeAck|);
    AdvancesOn(seen, f, sp.f);
  }

  /** One round of the drain loop: take a batch, read the drop counts, push both, and settle what the
      server accepted, while results keep being appended at every point. A batch is consumed only once the
      server accepted it, and exactly the drops that were reported with it are acknowledged. */
  method PushOnce(sp: Spool, round: Round)
    returns (batch: seq<Payload>, total: U64, unacked: U64, ghost seen: Fields)
    requires sp.Valid() && RoundMarshalled(sp.f.codec, round)
    modifies sp
    ensures sp.Valid() && Advances(old(sp.f), sp.f)
    ensures batch == Take(old(sp.f).view.Queue(), BATCH_SIZE)
    ensures sp.f.view.log == old(sp.f).view.log + SpooledDuring(round)
    ensures sp.f.tally.offered == old(sp.f).tally.offered + OffersDuring(round)
    ensures Inv(seen) && Advances(old(sp.f), seen) && Advances(seen, sp.f)
    ensures total == seen.drops.total && unacked == seen.drops.unacked
    ensures !round.accepts || batch == [] ==> sp.f.tally.acked == old(sp.f).tally.acked
                                              && sp.f.drops.acked == old(sp.f).drops.acked
    ensures round.accepts ==> sp.f.view.Head() >= old(sp.f).view.Head() + |batch|
    ensures sp.f.tally.acked <= old(sp.f).tally.acked + (if round.accepts then |batch| else 0)
    ensures round.accepts && batch != [] && Lifetime(sp.f.tally) <= MAX_U64 ==>
              sp.f.drops.acked == old(sp.f).drops.acked + unacked
  {
    batch, total, unacked, seen := UpToAck(sp, round);
    if |batch| > 0 && round.accepts {
      sp.Ack();
    }
  }

  // ---------------------------------------------------------------- every crash-free life of the pusher

  /** The results spooled in the course of the rounds, in order. */
  function SpooledIn(rounds: seq<Round>): seq<Payload> {
    if rounds == [] then [] else SpooledIn(rounds[..|rounds| - 1]) + SpooledDuring(rounds[|rounds| - 1])
  }

  /** The results offered in the course of the rounds. */
  function OffersIn(rounds: seq<Round>): nat {
    if rounds == [] then 0 else OffersIn(rounds[..|rounds| - 1]) + OffersDuring(rounds[|rounds| - 1])
  }

  /** The rounds whose batch the server accepts. */
  function AcceptsIn(rounds: seq<Round>): nat {
    if rounds == [] then 0 else AcceptsIn(rounds[..|rounds| - 1]) + if rounds[|rounds| - 1].accepts then 1 else 0
  }

  lemma AdvancesOn(a: Fields, b: Fields, c: Fields)
    requires Advances(a, b) && Advances(b, c)
    ensures Advances(a, c)
  {
  }

  function Total(batches: seq<seq<Payload>>): nat {
    if batches == [] then 0 else Total(batches[..|batches| - 1]) + |batches[|batches| - 1]|
  }

  /** The batches, none larger than one push, are runs of the log between `from` and the head that follow
      one another without overlap. */
  ghost predicate Once(log: seq<Payload>, from: nat, head: nat, batches: seq<seq<Payload>>, at: seq<nat>) {
    && |at| == |batches|
    && (forall i :: 0 <= i < |at| ==> from <= at[i] && at[i] + |batches[i]| <= head && at[i] + |batches[i]| <= |log| &&
                                      batches[i] == log[at[i]..at[i] + |batches[i]|])
    && (forall i :: 0 <= i < |batches| ==> |batches[i]| <= BATCH_SIZE)
    && (forall i, j :: 0 <= i < j < |at| ==> at[i] + |batches[i]| <= at[j])
  }

  lemma OnceGrows(log: seq<Payload>, log': seq<Payload>, from: nat, head: nat, head': nat,
                  batches: seq<seq<Payload>>, at: seq<nat>)
    requires Once(log, from, head, batches, at) && log <= log' && head <= head'
    ensures Once(log', from, head', batches, at)
  {
    forall i | 0 <= i < |at| ensures batches[i] == log'[at[i]..at[i] + |batches[i]|] {
      assert log'[at[i]..at[i] + |batches[i]|] == log[at[i]..at[i] + |batches[i]|];
    }
  }

  /** An accepted batch joins those before it. */
  lemma OnceSnoc(s: Fields, r: Fields, from: nat, batches: seq<seq<Payload>>, at: seq<nat>, batch: seq<Payload>)
    requires FilesInv(s) && CursorInv(s) && Advances(s, r)
    requires from <= s.view.Head() && Once(s.view.log, from, s.view.Head(), batches, at)
    requires batch == Take(s.view.Queue(), BATCH_SIZE) && r.view.Head() >= s.view.Head() + |batch|
    ensures Once(r.view.log, from, r.view.Head(), batches + [batch], at + [s.view.Head()])
  {
    HeadInLog(s);
    TakenIsRun(s.view, BATCH_SIZE, batch);
    OnceJoin(s.view.log, from, s.view.Head(), batches, at, batch);
    OnceGrows(s.view.log, r.view.log, from, s.view.Head() + |batch|, r.view.Head(),
              batches + [batch], at + [s.view.Head()]);
  }

  lemma OnceJoin(log: seq<Payload>, from: nat, head: nat, batches: seq<seq<Payload>>, at: seq<nat>,
                 batch: seq<Payload>)
    requires from <= head && Once(log, from, head, batches, at)
    requires head + |batch| <= |log| && batch == log[head..head + |batch|] && |batch| <= BATCH_SIZE
    ensures Once(log, from, head + |batch|, batches + [batch], at + [head])
  {
  }

  /** From `s` to `r`, `accepted` were accepted in turn, and of `offers` results offered `spooled` were
      spooled; no record was consumed that was not accepted. */
  ghost predicate Pushed(s: Fields, r: Fields, accepted: seq<seq<Payload>>, at: seq<nat>,
                         spooled: seq<Payload>, offers: nat) {
    (&& Advances(s, r)
     && Once(r.view.log, s.view.Head(), r.view.Head(), accepted, at)
     && r.view.log == s.view.log + spooled
     && r.tally.acked - s.tally.acked <= Total(accepted)
     && r.tally.offered == s.tally.offered + offers) == true
  }

  lemma PushedOn(s: Fields, f: Fields, r: Fields, accepted: seq<seq<Payload>>, at: seq<nat>,
                 spooled: seq<Payload>, offers: nat, more: seq<Payload>, n: nat)
    requires Pushed(s, f, accepted, at, spooled, offers) && Advances(f, r)
    requires r.view.log == f.view.log + more && r.tally.acked <= f.tally.acked
    requires r.tally.offered == f.tally.offered + n
    ensures Pushed(s, r, accepted, at, spooled + more, offers + n)
  {
    AdvancesOn(s, f, r);
    ConcatAssoc(s.view.log, spooled, more);
    OnceGrows(f.view.log, r.view.log, s.view.Head(), f.view.Head(), r.view.Head(), accepted, at);
  }

  lemma PushedBatch(s: Fields, f: Fields, r: Fields, accepted: seq<seq<Payload>>, at: seq<nat>,
                    spooled: seq<Payload>, offers: nat, more: seq<Payload>, n: nat, batch: seq<Payload>)
    requires r.tally.offered == f.tally.offered + n
    requires Pushed(s, f, accepted, at, spooled, offers) && Advances(f, r) && FilesInv(f) && CursorInv(f)
    requires r.view.log == f.view.log + more && r.tally.acked <= f.tally.acked + |batch|
    requires batch == Take(f.view.Queue(), BATCH_SIZE) && r.view.Head() >= f.view.Head() + |batch|
    ensures Pushed(s, r, accepted + [batch], at + [f.view.Head()], spooled + more, offers + n)
  {
    AdvancesOn(s, f, r);
    ConcatAssoc(s.view.log, spooled, more);
    OnceSnoc(f, r, s.view.Head(), accepted, at, batch);
    assert (accepted + [batch])[..|accepted|] == accepted;
  }

  /** One round of a life: an accepted batch is noted. */
  method NoteRound(sp: Spool, round: Round, ghost s: Fields, accepted: seq<seq<Payload>>, ghost at: seq<nat>,
                   ghost spooled: seq<Payload>, ghost offers: nat)
    returns (accepted': seq<seq<Payload>>, ghost at': seq<nat>)
    requires sp.Valid() && RoundMarshalled(sp.f.codec, round) && Pushed(s, sp.f, accepted, at, spooled, offers)
    modifies sp
    ensures sp.Valid()
    ensures Pushed(s, sp.f, accepted', at', spooled + SpooledDuring(round), offers + OffersDuring(round))
    ensures |accepted'| == |accepted| + if round.accepts then 1 else 0
  {
    ghost var f := sp.f;
    var batch, total, unacked;
    ghost var seen;
    batch, total, unacked, seen := PushOnce(sp, round);
    if round.accepts {
      PushedBatch(s, f, sp.f, accepted, at, spooled, offers, SpooledDuring(round), OffersDuring(round), batch);
      accepted', at' := accepted + [batch], at + [f.view.Head()];
    } else {
      PushedOn(s, f, sp.f, accepted, at, spooled, offers, SpooledDuring(round), OffersDuring(round));
      accepted', at' := accepted, at;
    }
  }

  lemma RoundsStep(rounds: seq<Round>, k: nat)
    requires k < |rounds|
    ensures SpooledIn(rounds[..k + 1]) == SpooledIn(rounds[..k]) + SpooledDuring(rounds[k])
    ensures OffersIn(rounds[..k + 1]) == OffersIn(rounds[..k]) + OffersDuring(rounds[k])
    ensures AcceptsIn(rounds[..k + 1]) == AcceptsIn(rounds[..k]) + if rounds[k].accepts then 1 else 0
  {
    assert rounds[..k + 1][..k] == rounds[..k];
  }

  /** However pushes fail and appends and drops race them, no record is in two accepted batches, they
      are accepted in append order, and every record that has left the queue was accepted or is
      counted as lost. */
  method PushRounds(sp: Spool, rounds: seq<Round>) returns (accepted: seq<seq<Payload>>, ghost at: seq<nat>)
    requires sp.Valid() && RoundsMarshalled(sp.f.codec, rounds)
    modifies sp
    ensures sp.Valid() && Advances(old(sp.f), sp.f)
    ensures Once(sp.f.view.log, old(sp.f).view.Head(), sp.f.view.Head(), accepted, at)
    ensures sp.f.view.log == old(sp.f).view.log + SpooledIn(rounds)
    ensures sp.f.tally.offered == old(sp.f).tally.offered + OffersIn(rounds) && |accepted| == AcceptsIn(rounds)
    ensures sp.f.view.Head() - old(sp.f).view.Head() <= Total(accepted) + (sp.f.tally.lost - old(sp.f).tally.lost)
  {
    accepted, at := [], [];
    ghost var s := sp.f;
    for k := 0 to |rounds|
      invariant sp.Valid() && Pushed(s, sp.f, accepted, at, SpooledIn(rounds[..k]), OffersIn(rounds[..k]))
      invariant |accepted| == AcceptsIn(rounds[..k])
    {
      RoundsStep(rounds, k);
      accepted, at := NoteRound(sp, rounds[k], s, accepted, at, SpooledIn(rounds[..k]), OffersIn(rounds[..k]));
    }
    assert rounds[..|rounds|] == rounds;
  }
}
