/** Record framing of spool segments: a 4-byte little-endian length, the payload, and a
    4-byte little-endian checksum.  A segment file is a byte sequence. */
module Frames {
  import opened Wrappers
  import opened LittleEndian
  import opened Sequences

  const MAX_RECORD_BYTES: nat := 1048576
  const RECORD_OVERHEAD: nat := 8

  type Word = x: int | 0 <= x < 4294967296
  type Payload = seq<Byte>

  /** What the framing takes from its libraries: a checksum, and whether a payload unmarshals.
      Every result below holds for any choice of the two. */
  datatype Codec = Codec(crc: Payload -> Word, parses: Payload -> bool)

  // ---------------------------------------------------------------- encoding

  /** The low 32 bits of `n`, as `uint32(n)` puts them. */
  function Le32(n: nat): (b: Bytes)
    ensures |b| == 4 && (n < 4294967296 ==> Get(b) == n)
  {
    Limit4();
    if n < Limit(4) then GetPut(n, 4); Put(n, 4) else Put(n, 4)
  }

  predicate Fits(ps: seq<Payload>) {
    forall i :: 0 <= i < |ps| ==> |ps[i]| <= MAX_RECORD_BYTES
  }

  /** Payloads Append lets through: each fits the record limit and unmarshals again. */
  predicate Spoolable(c: Codec, ps: seq<Payload>) {
    forall i :: 0 <= i < |ps| ==> |ps[i]| <= MAX_RECORD_BYTES - RECORD_OVERHEAD && c.parses(ps[i])
  }

  function Frame(c: Codec, p: Payload): (b: Bytes)
    ensures |b| == |p| + RECORD_OVERHEAD
  {
    Le32(|p|) + p + Le32(c.crc(p))
  }

  function Encode(c: Codec, ps: seq<Payload>): Bytes
  {
    if ps == [] then [] else Frame(c, ps[0]) + Encode(c, ps[1..])
  }

  lemma {:induction false} EncodeConcat(c: Codec, a: seq<Payload>, b: seq<Payload>)
    ensures Encode(c, a + b) == Encode(c, a) + Encode(c, b)
  {
    if a == [] {
      assert a + b == b;
    } else {
      assert (a + b)[1..] == a[1..] + b;
      EncodeConcat(c, a[1..], b);
    }
  }

  lemma EncodeSnoc(c: Codec, ps: seq<Payload>, p: Payload)
    ensures Encode(c, ps + [p]) == Encode(c, ps) + Frame(c, p)
  {
    EncodeConcat(c, ps, [p]);
    assert Encode(c, [p]) == Frame(c, p);
  }

  // ---------------------------------------------------------------- decoding

  /** `b` starts with the intact frame of `p`. */
  ghost predicate StartsWith(c: Codec, b: Bytes, p: Payload) {
    |p| <= MAX_RECORD_BYTES && Frame(c, p) <= b
  }

  /** The payload whose intact frame starts `b`, if there is one. */
  ghost function Head(c: Codec, b: Bytes): (r: Option<Payload>)
    ensures r.Some? ==> StartsWith(c, b, r.value)
    ensures r.None? ==> forall p :: !StartsWith(c, b, p)
  {
    if p :| StartsWith(c, b, p) then Some(p) else None
  }

  /** The records of the longest intact prefix of `b`. */
  ghost function Scan(c: Codec, b: Bytes): (ps: seq<Payload>)
    ensures Fits(ps)
    decreases |b|
  {
    match Head(c, b)
    case None => []
    case Some(p) => [p] + Scan(c, b[|p| + RECORD_OVERHEAD..])
  }

  /** At most one payload's frame starts a byte sequence: the length prefix decides. */
  lemma StartsWithUnique(c: Codec, b: Bytes, p: Payload, q: Payload)
    requires StartsWith(c, b, p) && StartsWith(c, b, q)
    ensures p == q
  {
    FrameLength(c, p, b);
    FrameLength(c, q, b);
    assert Frame(c, p) == b[..|p| + 8] == Frame(c, q);
    assert p == Frame(c, p)[4..4 + |p|] && q == Frame(c, q)[4..4 + |q|];
  }

  lemma ScanFrame(c: Codec, p: Payload, rest: Bytes)
    requires |p| <= MAX_RECORD_BYTES
    ensures Head(c, Frame(c, p) + rest) == Some(p)
    ensures Scan(c, Frame(c, p) + rest) == [p] + Scan(c, rest)
  {
    var b := Frame(c, p) + rest;
    assert StartsWith(c, b, p);
    StartsWithUnique(c, b, p, Head(c, b).value);
    assert b[|p| + RECORD_OVERHEAD..] == rest;
  }

  lemma EncodeCons(c: Codec, ps: seq<Payload>, tail: Bytes)
    requires ps != []
    ensures Encode(c, ps) + tail == Frame(c, ps[0]) + (Encode(c, ps[1..]) + tail)
  {
    ConcatAssoc(Frame(c, ps[0]), Encode(c, ps[1..]), tail);
  }

  lemma EncodePush(c: Codec, p: Payload, ps: seq<Payload>)
    ensures Encode(c, [p] + ps) == Frame(c, p) + Encode(c, ps)
  {
    assert ([p] + ps)[1..] == ps;
  }

  /** Scanning any file, however damaged, re-encodes to a prefix of that file. */
  lemma {:induction false} ScanIsPrefix(c: Codec, b: Bytes)
    ensures Encode(c, Scan(c, b)) <= b
    decreases |b|
  {
    match Head(c, b)
    case None =>
    case Some(p) =>
      var rest := b[|p| + RECORD_OVERHEAD..];
      ScanIsPrefix(c, rest);
      EncodePush(c, p, Scan(c, rest));
      PrefixConcat(b, Frame(c, p), Encode(c, Scan(c, rest)));
  }

  /** Records scan back whatever follows them. */
  lemma {:induction false} ScanConcat(c: Codec, ps: seq<Payload>, tail: Bytes)
    requires Fits(ps)
    ensures Scan(c, Encode(c, ps) + tail) == ps + Scan(c, tail)
    decreases |ps|
  {
    if ps == [] {
      assert Encode(c, ps) + tail == tail;
    } else {
      EncodeCons(c, ps, tail);
      ScanFrame(c, ps[0], Encode(c, ps[1..]) + tail);
      ScanConcat(c, ps[1..], tail);
      ConsConcat(ps, Scan(c, tail));
    }
  }

  /** Round trip: a cleanly written segment scans back to its records. */
  lemma ScanEncode(c: Codec, ps: seq<Payload>)
    requires Fits(ps)
    ensures Scan(c, Encode(c, ps)) == ps
  {
    ScanConcat(c, ps, []);
    assert Encode(c, ps) + [] == Encode(c, ps);
    NothingStartsShort(c, []);
  }

  /** No longer intact prefix exists: every record sequence whose encoding starts the file is
      a prefix of what scanning keeps. */
  lemma ScanIsMaximal(c: Codec, b: Bytes, ps: seq<Payload>)
    requires Fits(ps) && Encode(c, ps) <= b
    ensures ps <= Scan(c, b)
  {
    var enc := Encode(c, ps);
    PrefixSplit(enc, b);
    ScanConcat(c, ps, b[|enc|..]);
  }

  lemma NothingStartsShort(c: Codec, b: Bytes)
    requires |b| < RECORD_OVERHEAD
    ensures Head(c, b).None? && Scan(c, b) == []
  {
  }

  // ---------------------------------------------------------------- counting by length prefixes

  /** What stepping over length prefixes alone counts in `b`. */
  function Count(b: Bytes): nat
    decreases |b|
  {
    if |b| < 4 || Get(b[..4]) > MAX_RECORD_BYTES then 0
    else if |b| < Get(b[..4]) + RECORD_OVERHEAD then 1
    else 1 + Count(b[Get(b[..4]) + RECORD_OVERHEAD..])
  }

  lemma CountFrame(c: Codec, p: Payload, rest: Bytes)
    requires |p| <= MAX_RECORD_BYTES
    ensures Count(Frame(c, p) + rest) == 1 + Count(rest)
  {
    var b := Frame(c, p) + rest;
    assert b[..4] == Le32(|p|);
    DropConcat(Frame(c, p), rest);
  }

  lemma {:induction false} CountConcat(c: Codec, ps: seq<Payload>, tail: Bytes)
    requires Fits(ps)
    ensures Count(Encode(c, ps) + tail) == |ps| + Count(tail)
    decreases |ps|
  {
    if ps == [] {
      assert Encode(c, ps) + tail == tail;
    } else {
      EncodeCons(c, ps, tail);
      CountFrame(c, ps[0], Encode(c, ps[1..]) + tail);
      CountConcat(c, ps[1..], tail);
    }
  }

  lemma CountEncode(c: Codec, ps: seq<Payload>)
    requires Fits(ps)
    ensures Count(Encode(c, ps)) == |ps|
  {
    CountConcat(c, ps, []);
    assert Encode(c, ps) + [] == Encode(c, ps);
  }

  // ---------------------------------------------------------------- a segment cut at any byte

  /** `m` is the number of records of `ps` that lie wholly before byte `k` of their encoding. */
  predicate WholeBefore(c: Codec, ps: seq<Payload>, k: nat, m: nat) {
    && m <= |ps|
    && |Encode(c, ps[..m])| <= k
    && (m < |ps| ==> k < |Encode(c, ps[..m + 1])|)
  }

  lemma EncodeSplit(c: Codec, ps: seq<Payload>, i: nat)
    requires i <= |ps|
    ensures Encode(c, ps) == Encode(c, ps[..i]) + Encode(c, ps[i..])
  {
    SplitAt(ps, i);
    EncodeConcat(c, ps[..i], ps[i..]);
  }

  /** `tail` is a proper part of the frame of `p`, possibly nothing. */
  predicate TornFrame(c: Codec, p: Payload, tail: Bytes) {
    |p| <= MAX_RECORD_BYTES && |tail| < |p| + RECORD_OVERHEAD && tail <= Frame(c, p)
  }

  lemma TornHead(c: Codec, ps: seq<Payload>, cut: nat)
    requires ps != [] && |ps[0]| <= MAX_RECORD_BYTES && cut < |ps[0]| + RECORD_OVERHEAD
    ensures cut <= |Encode(c, ps)| && TornFrame(c, ps[0], Encode(c, ps)[..cut])
  {
    TakeWithin(Frame(c, ps[0]), Encode(c, ps[1..]), cut);
  }

  lemma CutBound(c: Codec, ps: seq<Payload>, k: nat, m: nat)
    requires m < |ps| && WholeBefore(c, ps, k, m)
    ensures k - |Encode(c, ps[..m])| < |ps[m]| + RECORD_OVERHEAD
  {
    TakeTail(ps, m);
    EncodeSnoc(c, ps[..m], ps[m]);
  }

  /** The cut file is the records before the cut and a proper part of one more frame. */
  lemma CutShape(c: Codec, ps: seq<Payload>, k: nat, m: nat) returns (p: Payload, tail: Bytes)
    requires Fits(ps) && k <= |Encode(c, ps)| && WholeBefore(c, ps, k, m)
    ensures TornFrame(c, p, tail)
    ensures Encode(c, ps)[..k] == Encode(c, ps[..m]) + tail
  {
    EncodeSplit(c, ps, m);
    var kept, more := Encode(c, ps[..m]), Encode(c, ps[m..]);
    TakeConcat(kept, more, k);
    tail := more[..k - |kept|];
    if m < |ps| {
      p := ps[m];
      CutBound(c, ps, k, m);
      TornHead(c, ps[m..], k - |kept|);
    } else {
      p := [];
    }
  }

  /** A torn tail starts no intact frame, and counts as one record exactly when a whole length
      prefix survived. */
  lemma TornTailLaws(c: Codec, p: Payload, tail: Bytes)
    requires TornFrame(c, p, tail)
    ensures Head(c, tail).None? && Scan(c, tail) == []
    ensures Count(tail) == if |tail| >= 4 then 1 else 0
  {
    if |tail| < 4 {
      NothingStartsShort(c, tail);
    } else {
      FrameLength(c, p, tail);
      if Head(c, tail).Some? {
        FrameLength(c, Head(c, tail).value, tail);
        assert false;
      }
    }
  }

  /** Records followed by a torn record scan back to exactly those records. */
  lemma ScanTorn(c: Codec, ps: seq<Payload>, p: Payload, tail: Bytes)
    requires Fits(ps) && TornFrame(c, p, tail)
    ensures Scan(c, Encode(c, ps) + tail) == ps
  {
    TornTailLaws(c, p, tail);
    ScanConcat(c, ps, tail);
    assert ps + [] == ps;
  }

  lemma FrameLength(c: Codec, p: Payload, b: Bytes)
    requires |p| <= MAX_RECORD_BYTES && |b| >= 4
    requires b <= Frame(c, p) || Frame(c, p) <= b
    ensures Get(b[..4]) == |p|
  {
    assert Frame(c, p)[..4] == Le32(|p|);
    assert b[..4] == Frame(c, p)[..4];
  }

  /** Start-up scan after a cut at any byte keeps exactly the records wholly before the cut. */
  lemma ScanAfterCut(c: Codec, ps: seq<Payload>, k: nat, m: nat)
    requires Fits(ps) && k <= |Encode(c, ps)| && WholeBefore(c, ps, k, m)
    ensures Scan(c, Encode(c, ps)[..k]) == ps[..m]
  {
    var p, tail := CutShape(c, ps, k, m);
    ScanTorn(c, ps[..m], p, tail);
  }

  /** Counting by prefixes overcounts a cut segment by one exactly when the length prefix of
      the torn record survived. */
  lemma CountAfterCut(c: Codec, ps: seq<Payload>, k: nat, m: nat)
    requires Fits(ps) && k <= |Encode(c, ps)| && WholeBefore(c, ps, k, m)
    ensures Count(Encode(c, ps)[..k]) == if k >= |Encode(c, ps[..m])| + 4 then m + 1 else m
  {
    var p, tail := CutShape(c, ps, k, m);
    TornTailLaws(c, p, tail);
    CountConcat(c, ps[..m], tail);
  }

  /** Every cut has such a record count. */
  lemma {:induction false} WholeBeforeExists(c: Codec, ps: seq<Payload>, k: nat) returns (m: nat)
    ensures WholeBefore(c, ps, k, m)
    decreases |ps|
  {
    if k >= |Encode(c, ps)| {
      m := |ps|;
      assert ps[..m] == ps;
    } else {
      var init := ps[..|ps| - 1];
      m := WholeBeforeExists(c, init, k);
      assert ps[..m] == init[..m];
      if m < |init| {
        assert ps[..m + 1] == init[..m + 1];
      } else {
        assert ps[..m + 1] == ps;
      }
    }
  }

  // ---------------------------------------------------------------- the loops over a segment file

  /** Where the reader looks for the fields of a head frame they are: `b` starts with the frame
      of the payload its length prefix delimits, or with no intact frame. */
  lemma HeadFields(c: Codec, b: Bytes)
    requires |b| >= 4
    ensures var n := Get(b[..4]);
      Head(c, b) ==
        if n <= MAX_RECORD_BYTES && |b| >= n + 8 && Get(b[4 + n..n + 8]) == c.crc(b[4..4 + n])
        then Some(b[4..4 + n]) else None
  {
    var n := Get(b[..4]);
    if Head(c, b).Some? {
      var p := Head(c, b).value;
      FrameLength(c, p, b);
      FrameFields(c, p, b[n + 8..]);
      PrefixSplit(Frame(c, p), b);
    } else if n <= MAX_RECORD_BYTES && |b| >= n + 8 && Get(b[4 + n..n + 8]) == c.crc(b[4..4 + n]) {
      FieldsFrame(c, b, n);
      assert StartsWith(c, b, b[4..4 + n]);
    }
  }

  lemma FrameFields(c: Codec, p: Payload, rest: Bytes)
    ensures var b := Frame(c, p) + rest;
      b[4..4 + |p|] == p && Get(b[4 + |p|..|p| + 8]) == c.crc(p)
  {
    MiddleParts(Le32(|p|), p, Le32(c.crc(p)), rest);
  }

  lemma FieldsFrame(c: Codec, b: Bytes, n: nat)
    requires |b| >= n + 8 && n == Get(b[..4]) <= MAX_RECORD_BYTES
    requires Get(b[4 + n..n + 8]) == c.crc(b[4..4 + n])
    ensures Frame(c, b[4..4 + n]) == b[..n + 8]
  {
    PutGet(b[..4]);
    PutGet(b[4 + n..n + 8]);
  }

  /** One pass of the read loops over the unread part of a file: header, payload, trailer,
      checksum. */
  method ReadFrame(c: Codec, unread: Bytes) returns (r: Option<Payload>)
    ensures r == Head(c, unread)
  {
    if |unread| < 4 { return None; }
    HeadFields(c, unread);
    var length := Get(unread[..4]);
    if length > MAX_RECORD_BYTES || |unread| < 4 + length { return None; }
    var payload := unread[4..4 + length];
    if |unread| < 8 + length { return None; }
    var sum := Get(unread[4 + length..length + 8]);
    r := if sum != c.crc(payload) then None else Some(payload);
  }

  /** The size of the intact prefix of `b`. */
  ghost function IntactBytes(c: Codec, b: Bytes): nat {
    |Encode(c, Scan(c, b))|
  }

  lemma ScanStep(c: Codec, b: Bytes, p: Payload)
    requires Head(c, b) == Some(p)
    ensures var next := b[|p| + RECORD_OVERHEAD..];
      && Scan(c, b) == [p] + Scan(c, next)
      && IntactBytes(c, b) == |p| + RECORD_OVERHEAD + IntactBytes(c, next)
  {
    EncodePush(c, p, Scan(c, b[|p| + RECORD_OVERHEAD..]));
  }

  /** Start-up scan: the record count and the file truncated after the last intact record. */
  method ScanSegment(c: Codec, file: Bytes) returns (n: nat, kept: Bytes)
    ensures n == |Scan(c, file)|
    ensures kept == Encode(c, Scan(c, file)) && kept <= file
  {
    n := 0;
    var goodEnd, unread := 0, file;
    while true
      invariant goodEnd + |unread| == |file|
      invariant |Scan(c, file)| == n + |Scan(c, unread)|
      invariant IntactBytes(c, file) == goodEnd + IntactBytes(c, unread)
      decreases |unread|
    {
      var r := ReadFrame(c, unread);
      if r.None? { break; }
      ScanStep(c, unread, r.value);
      n := n + 1;
      goodEnd := goodEnd + |r.value| + RECORD_OVERHEAD;
      unread := unread[|r.value| + RECORD_OVERHEAD..];
    }
    kept := file[..goodEnd];
    ScanIsPrefix(c, file);
  }

  /** Record count by length prefixes alone; seeking past the end is not an error. */
  method CountRecords(file: Bytes) returns (n: nat)
    ensures n == Count(file)
  {
    n := 0;
    var unread := file;
    while true
      invariant Count(file) == n + Count(unread)
      decreases |unread|
    {
      if |unread| < 4 { break; }
      var length := Get(unread[..4]);
      if length > MAX_RECORD_BYTES { break; }
      unread := if 4 + length + 4 <= |unread| then unread[4 + length + 4..] else [];
      n := n + 1;
    }
  }

  /** The longest prefix whose payloads all unmarshal. */
  function ParsedPrefix(c: Codec, ps: seq<Payload>): (r: seq<Payload>)
    ensures r <= ps
  {
    if ps == [] || !c.parses(ps[0]) then [] else [ps[0]] + ParsedPrefix(c, ps[1..])
  }

  lemma {:induction false} ParsedPrefixAll(c: Codec, ps: seq<Payload>)
    requires forall i :: 0 <= i < |ps| ==> c.parses(ps[i])
    ensures ParsedPrefix(c, ps) == ps
  {
    if ps != [] {
      ParsedPrefixAll(c, ps[1..]);
    }
  }

  /** The records a reader finds at the front of `b`: intact frames that also unmarshal. */
  ghost function Readable(c: Codec, b: Bytes): (ps: seq<Payload>)
    ensures Fits(ps)
  {
    ParsedPrefix(c, Scan(c, b))
  }

  lemma ReadableStep(c: Codec, b: Bytes, p: Payload)
    requires Head(c, b) == Some(p)
    ensures Readable(c, b) == if c.parses(p) then [p] + Readable(c, b[|p| + RECORD_OVERHEAD..]) else []
  {
    assert Scan(c, b)[1..] == Scan(c, b[|p| + RECORD_OVERHEAD..]);
  }

  /** What a read of up to `max` records owes its caller when `rs` are the readable ones. */
  ghost predicate ReadOutcome(c: Codec, rs: seq<Payload>, avail: nat, max: int, out: seq<Payload>, corrupt: bool) {
    && out == Take(rs, max)
    && (corrupt <==> max > |rs| && |Encode(c, rs)| < avail)
  }

  lemma ReadExit(c: Codec, out: seq<Payload>, more: seq<Payload>, left: nat, max: int, corrupt: bool)
    requires out == [] || |out| <= max
    requires if |out| >= max then !corrupt else more == [] && (corrupt <==> left > 0)
    ensures ReadOutcome(c, out + more, |Encode(c, out)| + left, max, out, corrupt)
  {
    if |out| < max {
      assert out + more == out;
    }
  }

  /** Decodes up to `max` records from `offset`: the first `max` readable records there, the
      offset after them, and whether a corrupt tail stopped the read short of `max`. */
  method ReadSegment(c: Codec, file: Bytes, offset: nat, max: int)
    returns (out: seq<Payload>, end: nat, corrupt: bool)
    ensures end == offset + |Encode(c, out)|
    ensures offset > |file| ==> out == [] && !corrupt
    ensures offset <= |file| ==>
      ReadOutcome(c, Readable(c, file[offset..]), |file| - offset, max, out, corrupt)
  {
    out, end, corrupt := [], offset, false;
    if offset > |file| { return; }
    var unread := file[offset..];
    ghost var rs := Readable(c, unread);
    while |out| < max
      invariant end + |unread| == |file| && !corrupt
      invariant end == offset + |Encode(c, out)|
      invariant out == [] || |out| <= max
      invariant rs == out + Readable(c, unread)
      decreases max - |out|
    {
      if unread == [] { break; }
      var r := ReadFrame(c, unread);
      if r.None? { corrupt := true; break; }
      ReadableStep(c, unread, r.value);
      if !c.parses(r.value) { corrupt := true; break; }
      EncodeSnoc(c, out, r.value);
      ConcatAssoc(out, [r.value], Readable(c, unread[|r.value| + RECORD_OVERHEAD..]));
      out := out + [r.value];
      end := end + |r.value| + RECORD_OVERHEAD;
      unread := unread[|r.value| + RECORD_OVERHEAD..];
    }
    if unread == [] { NothingStartsShort(c, unread); }
    ReadExit(c, out, Readable(c, unread), |unread|, max, corrupt);
  }

  lemma EncodeRange(c: Codec, ps: seq<Payload>, i: nat, m: nat)
    requires i <= m <= |ps|
    ensures Encode(c, ps[..m]) == Encode(c, ps[..i]) + Encode(c, ps[i..m])
  {
    EncodeSplit(c, ps[..m], i);
    assert ps[..m][..i] == ps[..i] && ps[..m][i..] == ps[i..m];
  }

  lemma CutFrom(c: Codec, ps: seq<Payload>, k: nat, m: nat, i: nat) returns (p: Payload, tail: Bytes)
    requires Fits(ps) && k <= |Encode(c, ps)| && WholeBefore(c, ps, k, m) && i <= m
    ensures TornFrame(c, p, tail)
    ensures |Encode(c, ps[..i])| <= k
    ensures Encode(c, ps)[..k][|Encode(c, ps[..i])|..] == Encode(c, ps[i..m]) + tail
  {
    p, tail := CutShape(c, ps, k, m);
    EncodeRange(c, ps, i, m);
    var before, after := Encode(c, ps[..i]), Encode(c, ps[i..m]);
    ConcatAssoc(before, after, tail);
    DropConcat(before, after + tail);
  }

  /** Byte `k` of the encoding of `ps` lies between two records, or at an end. */
  ghost predicate OnBoundary(c: Codec, ps: seq<Payload>, k: nat) {
    exists j :: 0 <= j <= |ps| && |Encode(c, ps[..j])| == k
  }

  lemma BoundaryIff(c: Codec, ps: seq<Payload>, k: nat, m: nat)
    requires WholeBefore(c, ps, k, m)
    ensures OnBoundary(c, ps, k) <==> k == |Encode(c, ps[..m])|
  {
    if OnBoundary(c, ps, k) {
      var j :| 0 <= j <= |ps| && |Encode(c, ps[..j])| == k;
      if j < m {
        EncodeRange(c, ps, j, m);
      } else if j > m {
        EncodeRange(c, ps, m + 1, j);
      }
    }
  }

  lemma ReadableTorn(c: Codec, ps: seq<Payload>, p: Payload, tail: Bytes)
    requires Fits(ps) && Spoolable(c, ps) && TornFrame(c, p, tail)
    ensures Readable(c, Encode(c, ps) + tail) == ps
  {
    ScanTorn(c, ps, p, tail);
    ParsedPrefixAll(c, ps);
  }

  /** Reading a cut segment from its `i`-th record boundary finds exactly the records between
      there and the cut. */
  lemma ReadAfterCut(c: Codec, ps: seq<Payload>, k: nat, m: nat, i: nat)
    requires Spoolable(c, ps) && k <= |Encode(c, ps)|
    requires WholeBefore(c, ps, k, m) && i <= m
    ensures |Encode(c, ps[..i])| <= k
    ensures Readable(c, Encode(c, ps)[..k][|Encode(c, ps[..i])|..]) == ps[i..m]
    ensures |Encode(c, ps[..i])| + |Encode(c, ps[i..m])| == |Encode(c, ps[..m])|
  {
    var p, tail := CutFrom(c, ps, k, m, i);
    ReadableTorn(c, ps[i..m], p, tail);
    EncodeRange(c, ps, i, m);
  }

  /** So a read of up to `max` records there returns the first of them, and flags corruption exactly
      when it asks for more than there are and the cut is off every record boundary. */
  lemma CorruptIffOffBoundary(c: Codec, ps: seq<Payload>, k: nat, m: nat, i: nat,
                              max: int, out: seq<Payload>, corrupt: bool)
    requires Spoolable(c, ps) && k <= |Encode(c, ps)|
    requires WholeBefore(c, ps, k, m) && i <= m && |Encode(c, ps[..i])| <= k
    requires var start := |Encode(c, ps[..i])|;
      ReadOutcome(c, Readable(c, Encode(c, ps)[..k][start..]), k - start, max, out, corrupt)
    ensures out == Take(ps[i..m], max)
    ensures corrupt <==> max > m - i && !OnBoundary(c, ps, k)
  {
    ReadAfterCut(c, ps, k, m, i);
    BoundaryIff(c, ps, k, m);
  }
}
