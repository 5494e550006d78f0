/** Expansion of one agent's stored probe assignments into the snapshot streamed to it. */
module MeshExpand {
  import opened LittleEndian
  import opened Sequences
  import opened Sorting

  type Uuid = nat

  /** A probe id as text; every id the server derives is a UUID, whose text sorts like its number. */
  datatype ProbeId = NoId | Id(n: Uuid)

  datatype Settings = Settings(probeType: int, interval: int, timeout: int, trainCount: int, trainSpacing: int,
                               params: map<string, string>)
  datatype Target = Target(peer: bool, targetId: Uuid, address: string, port: int, url: string)
  datatype Spec = Spec(probeId: ProbeId, probeType: int, target: Target, interval: int, timeout: int,
                       trainCount: int, trainSpacing: int, params: map<string, string>)

  datatype Direct = Direct(id: Uuid, settings: Settings, agentKind: bool, targetId: Uuid, address: string,
                           port: int, url: string)
  datatype Template = Template(configId: Uuid, meshId: Uuid, settings: Settings)
  datatype Peer = Peer(meshId: Uuid, siteId: Uuid, targetId: Uuid, address: string)

  datatype Inputs = Inputs(siteId: Uuid, direct: seq<Direct>, mesh: seq<Template>, peers: seq<Peer>)

  /** The library functions the expansion calls: the name-based UUID of an expanded probe, and the
      number scanned from a port parameter. */
  datatype Library = Library(meshProbeId: (Uuid, Uuid, Uuid) -> Uuid, scanPort: string -> int)

  datatype Built = Snapshot(specs: seq<Spec>) | Duplicate

  function MakeSpec(id: Uuid, s: Settings, t: Target): Spec {
    Spec(Id(id), s.probeType, t, s.interval, s.timeout,
         if s.trainCount > 0 then s.trainCount else 0, if s.trainCount > 0 then s.trainSpacing else 0, s.params)
  }

  function DirectSpec(d: Direct): Spec {
    MakeSpec(d.id, d.settings, Target(d.agentKind, d.targetId, d.address, d.port, d.url))
  }

  /** A template probes every peer of its mesh at another site. */
  predicate Pairs(site: Uuid, m: Template, p: Peer) {
    p.meshId == m.meshId && p.siteId != site
  }

  function MeshPort(lib: Library, params: map<string, string>): int {
    lib.scanPort(if "port" in params then params["port"] else "")
  }

  function MeshSpec(lib: Library, site: Uuid, m: Template, p: Peer): Spec {
    MakeSpec(lib.meshProbeId(m.configId, site, p.targetId), m.settings,
             Target(true, p.targetId, p.address, MeshPort(lib, m.settings.params), ""))
  }

  // ---------------------------------------------------------------- the expansion as a bag of specs

  function PeerSpec(lib: Library, site: Uuid, m: Template, p: Peer): seq<Spec> {
    if Pairs(site, m, p) then [MeshSpec(lib, site, m, p)] else []
  }

  function OverPeers(lib: Library, site: Uuid, m: Template): Peer -> seq<Spec> {
    (p: Peer) => PeerSpec(lib, site, m, p)
  }

  function PeerSpecs(lib: Library, site: Uuid, ps: seq<Peer>, m: Template): seq<Spec> {
    FlatMap(ps, OverPeers(lib, site, m))
  }

  function OverDirect(): Direct -> seq<Spec> {
    (d: Direct) => [DirectSpec(d)]
  }

  function DirectSpecs(ds: seq<Direct>): seq<Spec> {
    FlatMap(ds, OverDirect())
  }

  function OverTemplates(lib: Library, site: Uuid, ps: seq<Peer>): Template -> seq<Spec> {
    (m: Template) => PeerSpecs(lib, site, ps, m)
  }

  function MeshSpecs(lib: Library, site: Uuid, ps: seq<Peer>, ms: seq<Template>): seq<Spec> {
    FlatMap(ms, OverTemplates(lib, site, ps))
  }

  function Expanded(lib: Library, input: Inputs): seq<Spec> {
    DirectSpecs(input.direct) + MeshSpecs(lib, input.siteId, input.peers, input.mesh)
  }

  /** The order of probe ids. */
  function Key(s: Spec): int {
    match s.probeId
    case NoId => -1
    case Id(n) => n
  }

  /** What BuildSnapshot returns: the expansion in id order, or an error if it derives an id
      twice. */
  ghost function Build(lib: Library, input: Inputs): Built {
    var specs := SortBy(Expanded(lib, input), Key);
    if Strict(specs, Key) then Snapshot(specs) else Duplicate
  }

  // ---------------------------------------------------------------- the loops

  method BuildSnapshot(lib: Library, input: Inputs) returns (r: Built)
    ensures r == Build(lib, input)
  {
    var direct := ExpandDirect(input.direct);
    var mesh := ExpandMesh(lib, input);
    var specs := SortBy(direct + mesh, Key);
    SortByAscends(direct + mesh, Key);
    var dup := HasDuplicate(specs);
    r := if dup then Duplicate else Snapshot(specs);
  }

  method ExpandDirect(ds: seq<Direct>) returns (specs: seq<Spec>)
    ensures specs == DirectSpecs(ds)
  {
    specs := [];
    for i := 0 to |ds|
      invariant specs == DirectSpecs(ds[..i])
    {
      assert ds[..i + 1][..i] == ds[..i];
      specs := specs + [DirectSpec(ds[i])];
    }
    assert ds[..|ds|] == ds;
  }

  /** Whether sorted specs hold an id twice; the duplicate is then next to its equal. */
  method HasDuplicate(specs: seq<Spec>) returns (dup: bool)
    requires Ascending(specs, Key)
    ensures dup <==> !Strict(specs, Key)
  {
    if |specs| > 0 {
      for i := 1 to |specs|
        invariant forall k :: 0 < k < i ==> Key(specs[k - 1]) < Key(specs[k])
      {
        if Key(specs[i]) == Key(specs[i - 1]) {
          return true;
        }
      }
    }
    AdjacentStrict(specs);
    return false;
  }

  method ExpandMesh(lib: Library, input: Inputs) returns (specs: seq<Spec>)
    ensures specs == MeshSpecs(lib, input.siteId, input.peers, input.mesh)
  {
    specs := [];
    for i := 0 to |input.mesh|
      invariant specs == MeshSpecs(lib, input.siteId, input.peers, input.mesh[..i])
    {
      var m := input.mesh[i];
      ghost var before := specs;
      for j := 0 to |input.peers|
        invariant specs == before + PeerSpecs(lib, input.siteId, input.peers[..j], m)
      {
        var p := input.peers[j];
        assert input.peers[..j + 1][..j] == input.peers[..j];
        if p.meshId != m.meshId || p.siteId == input.siteId {
          continue;
        }
        specs := specs + [MeshSpec(lib, input.siteId, m, p)];
      }
      assert input.peers[..|input.peers|] == input.peers;
      assert input.mesh[..i + 1][..i] == input.mesh[..i];
    }
    assert input.mesh[..|input.mesh|] == input.mesh;
  }

  lemma {:induction false} AdjacentStrict(s: seq<Spec>)
    requires forall k :: 0 < k < |s| ==> Key(s[k - 1]) < Key(s[k])
    ensures Strict(s, Key)
  {
    if |s| > 0 {
      var init := s[..|s| - 1];
      AdjacentStrict(init);
      forall i, j | 0 <= i < j < |s| ensures Key(s[i]) < Key(s[j]) {
        if j < |s| - 1 {
          assert init[i] == s[i] && init[j] == s[j];
        } else if i < j - 1 {
          assert init[i] == s[i] && init[j - 1] == s[j - 1];
        }
      }
    }
  }

  // ---------------------------------------------------------------- what the snapshot holds

  /** The same rows in any order. */
  predicate SameRows(a: Inputs, b: Inputs) {
    && a.siteId == b.siteId
    && multiset(a.direct) == multiset(b.direct)
    && multiset(a.mesh) == multiset(b.mesh)
    && multiset(a.peers) == multiset(b.peers)
  }

  lemma PeersPermuted(lib: Library, site: Uuid, ps: seq<Peer>, qs: seq<Peer>, m: Template)
    requires multiset(ps) == multiset(qs)
    ensures multiset(PeerSpecs(lib, site, ps, m)) == multiset(PeerSpecs(lib, site, qs, m))
  {
    FlatMapPermuted(ps, qs, OverPeers(lib, site, m));
  }

  lemma MeshPermuted(lib: Library, a: Inputs, b: Inputs)
    requires SameRows(a, b)
    ensures multiset(MeshSpecs(lib, a.siteId, a.peers, a.mesh)) == multiset(MeshSpecs(lib, b.siteId, b.peers, b.mesh))
  {
    var f, g := OverTemplates(lib, a.siteId, a.peers), OverTemplates(lib, b.siteId, b.peers);
    forall m | m in a.mesh ensures multiset(f(m)) == multiset(g(m)) {
      PeersPermuted(lib, a.siteId, a.peers, b.peers, m);
    }
    FlatMapPointwise(a.mesh, f, g);
    FlatMapPermuted(a.mesh, b.mesh, g);
  }

  lemma ExpandedPermuted(lib: Library, a: Inputs, b: Inputs)
    requires SameRows(a, b)
    ensures multiset(Expanded(lib, a)) == multiset(Expanded(lib, b))
  {
    FlatMapPermuted(a.direct, b.direct, OverDirect());
    MeshPermuted(lib, a, b);
  }

  /** Whichever way a library sorts the expansion, the outcome is Build's. */
  lemma AnySortAgrees(lib: Library, input: Inputs, sorted: seq<Spec>)
    requires Ascending(sorted, Key) && multiset(sorted) == multiset(Expanded(lib, input))
    ensures Build(lib, input) == if Strict(sorted, Key) then Snapshot(sorted) else Duplicate
  {
    var specs := SortBy(Expanded(lib, input), Key);
    SortByAscends(Expanded(lib, input), Key);
    SortByBag(Expanded(lib, input), Key);
    if Strict(sorted, Key) {
      StrictByBag(sorted, specs, Key);
      StrictUnique(sorted, specs, Key);
    } else if Strict(specs, Key) {
      StrictByBag(specs, sorted, Key);
    }
  }

  /** The snapshot, or the failure to build one, does not depend on the order of the rows. */
  lemma BuildIgnoresRowOrder(lib: Library, a: Inputs, b: Inputs)
    requires SameRows(a, b)
    ensures Build(lib, a) == Build(lib, b)
  {
    var t := SortBy(Expanded(lib, b), Key);
    SortByAscends(Expanded(lib, b), Key);
    SortByBag(Expanded(lib, b), Key);
    ExpandedPermuted(lib, a, b);
    AnySortAgrees(lib, a, t);
  }

  lemma ExpandedMember(lib: Library, input: Inputs, s: Spec)
    ensures s in Expanded(lib, input) <==>
      || (exists d :: d in input.direct && s == DirectSpec(d))
      || (exists m, p :: m in input.mesh && p in input.peers && Pairs(input.siteId, m, p)
                         && s == MeshSpec(lib, input.siteId, m, p))
  {
    FlatMapMember(input.direct, OverDirect(), s);
    FlatMapMember(input.mesh, OverTemplates(lib, input.siteId, input.peers), s);
    forall m | m in input.mesh {
      FlatMapMember(input.peers, OverPeers(lib, input.siteId, m), s);
    }
  }

  /** A snapshot holds the spec of each direct probe and of each template paired with a peer of its
      mesh at another site, exactly once, and nothing else, in id order. */
  lemma SnapshotHoldsExactly(lib: Library, input: Inputs, s: Spec)
    requires Build(lib, input).Snapshot?
    ensures var specs := Build(lib, input).specs;
      && Strict(specs, Key)
      && multiset(specs)[s] == (if s in Expanded(lib, input) then 1 else 0)
      && |specs| == |Expanded(lib, input)|
  {
    var e := Expanded(lib, input);
    SortByBag(e, Key);
    assert |multiset(e)| == |e| && |multiset(SortBy(e, Key))| == |SortBy(e, Key)|;
    if s in e {
      assert s in multiset(e);
      StrictKeysDiffer(SortBy(e, Key), s, s, Key);
    } else {
      assert s !in multiset(e);
    }
  }

  /** A snapshot is built exactly when no two rows or pairs derive the same id. */
  lemma FailsIffRepeated(lib: Library, input: Inputs)
    ensures Build(lib, input).Duplicate? <==>
      exists i, j :: 0 <= i < j < |Expanded(lib, input)|
                     && Expanded(lib, input)[i].probeId == Expanded(lib, input)[j].probeId
  {
    var e := Expanded(lib, input);
    SortByBag(e, Key);
    SortByAscends(e, Key);
    if exists i, j :: 0 <= i < j < |e| && e[i].probeId == e[j].probeId {
      var i, j :| 0 <= i < j < |e| && e[i].probeId == e[j].probeId;
      RepeatedIsNotStrict(e, SortBy(e, Key), i, j);
    } else {
      DistinctIsStrict(e, SortBy(e, Key));
    }
  }

  lemma RepeatedIsNotStrict(e: seq<Spec>, t: seq<Spec>, i: nat, j: nat)
    requires i < j < |e| && e[i].probeId == e[j].probeId && multiset(t) == multiset(e)
    ensures !Strict(t, Key)
  {
    assert e[i] in multiset(e) && e[j] in multiset(e);
    TwiceInBag(e, i, j);
    if Strict(t, Key) {
      StrictKeysDiffer(t, e[i], e[j], Key);
    }
  }

  lemma DistinctIsStrict(e: seq<Spec>, t: seq<Spec>)
    requires forall i, j :: 0 <= i < j < |e| ==> e[i].probeId != e[j].probeId
    requires Ascending(t, Key) && multiset(t) == multiset(e)
    ensures Strict(t, Key)
  {
    forall i, j | 0 <= i < j < |t| ensures Key(t[i]) < Key(t[j]) {
      assert t[i] in multiset(e) && t[j] in multiset(e);
      var a :| 0 <= a < |e| && e[a] == t[i];
      TwiceInBag(t, i, j);
      OnceInBag(e, a);
    }
  }

  // ---------------------------------------------------------------- field by field

  /** The spec carries these settings; a train only if they ask for one. */
  predicate Carries(s: Spec, t: Settings) {
    && s.probeType == t.probeType && s.interval == t.interval && s.timeout == t.timeout && s.params == t.params
    && (t.trainCount > 0 ==> s.trainCount == t.trainCount && s.trainSpacing == t.trainSpacing)
    && (t.trainCount <= 0 ==> s.trainCount == 0 && s.trainSpacing == 0)
  }

  /** The spec of a direct row: its own id, settings and target. */
  predicate IsDirect(s: Spec, d: Direct) {
    && s.probeId == Id(d.id) && Carries(s, d.settings)
    && (s.target.peer <==> d.agentKind) && s.target.targetId == d.targetId
    && s.target.address == d.address && s.target.port == d.port && s.target.url == d.url
  }

  /** The spec of a template and a peer: the derived id, the template's settings, the peer as the target, and
      the port of the template's parameters. */
  predicate IsPair(lib: Library, site: Uuid, s: Spec, m: Template, p: Peer) {
    && m.meshId == p.meshId && p.siteId != site
    && s.probeId == Id(lib.meshProbeId(m.configId, site, p.targetId)) && Carries(s, m.settings)
    && s.target.peer && s.target.targetId == p.targetId && s.target.address == p.address && s.target.url == ""
    && s.target.port == lib.scanPort(if "port" in m.settings.params then m.settings.params["port"] else "")
  }

  /** Two specs of the same row, or of the same pair, are one. */
  lemma SpecIsDetermined(lib: Library, input: Inputs, s: Spec, t: Spec)
    ensures (exists d :: IsDirect(s, d) && IsDirect(t, d)) ==> s == t
    ensures (exists m, p :: IsPair(lib, input.siteId, s, m, p) && IsPair(lib, input.siteId, t, m, p)) ==> s == t
  {
  }

  /** `s` is the one spec of the snapshot with its id. */
  ghost predicate Only(specs: seq<Spec>, s: Spec) {
    s in specs && forall t :: t in specs && t.probeId == s.probeId ==> t == s
  }

  lemma MakeSpecCarries(id: Uuid, t: Settings, target: Target)
    ensures var s := MakeSpec(id, t, target);
      Carries(s, t) && s.probeId == Id(id) && s.target == target
  {
  }

  lemma StrictIsOnly(specs: seq<Spec>, s: Spec)
    requires Strict(specs, Key) && s in specs
    ensures Only(specs, s)
  {
  }

  /** What a snapshot holds, field by field: each spec is that of a direct row or of a template paired with a
      peer of its mesh at another site; each row and each pair has its spec there, the only one with its id. */
  lemma SnapshotContents(lib: Library, input: Inputs)
    requires Build(lib, input).Snapshot?
    ensures var specs := Build(lib, input).specs;
      && (forall s :: s in specs ==>
            || (exists d :: d in input.direct && IsDirect(s, d))
            || (exists m, p :: m in input.mesh && p in input.peers && IsPair(lib, input.siteId, s, m, p)))
      && (forall d :: d in input.direct ==> exists s :: IsDirect(s, d) && Only(specs, s))
      && (forall m, p :: m in input.mesh && p in input.peers && p.meshId == m.meshId && p.siteId != input.siteId ==>
            exists s :: IsPair(lib, input.siteId, s, m, p) && Only(specs, s))
  {
    var specs := Build(lib, input).specs;
    forall s ensures s in specs <==> s in Expanded(lib, input) {
      SnapshotHoldsExactly(lib, input, s);
    }
    forall s | s in specs ensures
      || (exists d :: d in input.direct && IsDirect(s, d))
      || (exists m, p :: m in input.mesh && p in input.peers && IsPair(lib, input.siteId, s, m, p))
    {
      SpecComesFrom(lib, input, s);
    }
    forall d | d in input.direct ensures exists s :: IsDirect(s, d) && Only(specs, s) {
      var s := DirectSpec(d);
      ExpandedMember(lib, input, s);
      SnapshotHoldsExactly(lib, input, s);
      StrictIsOnly(specs, s);
      MakeSpecCarries(d.id, d.settings, s.target);
      assert IsDirect(s, d);
    }
    forall m, p | m in input.mesh && p in input.peers && p.meshId == m.meshId && p.siteId != input.siteId
      ensures exists s :: IsPair(lib, input.siteId, s, m, p) && Only(specs, s)
    {
      var s := MeshSpec(lib, input.siteId, m, p);
      ExpandedMember(lib, input, s);
      SnapshotHoldsExactly(lib, input, s);
      StrictIsOnly(specs, s);
      assert IsPair(lib, input.siteId, s, m, p);
    }
  }

  lemma SpecComesFrom(lib: Library, input: Inputs, s: Spec)
    requires s in Expanded(lib, input)
    ensures
      || (exists d :: d in input.direct && IsDirect(s, d))
      || (exists m, p :: m in input.mesh && p in input.peers && IsPair(lib, input.siteId, s, m, p))
  {
    ExpandedMember(lib, input, s);
    if exists d :: d in input.direct && s == DirectSpec(d) {
      var d :| d in input.direct && s == DirectSpec(d);
      assert IsDirect(s, d);
    } else {
      var m, p :| m in input.mesh && p in input.peers && Pairs(input.siteId, m, p)
                  && s == MeshSpec(lib, input.siteId, m, p);
      assert IsPair(lib, input.siteId, s, m, p);
    }
  }

  // ---------------------------------------------------------------- the bytes that are hashed

  /** The bytes fed to the content hash: each spec's encoding behind its 8-byte length. */
  function Preimage(enc: Spec -> Bytes, specs: seq<Spec>): Bytes {
    if specs == [] then [] else Put(|enc(specs[0])|, 8) + enc(specs[0]) + Preimage(enc, specs[1..])
  }

  lemma {:induction false} PreimageSnoc(enc: Spec -> Bytes, ss: seq<Spec>, s: Spec)
    ensures Preimage(enc, ss + [s]) == Preimage(enc, ss) + Put(|enc(s)|, 8) + enc(s)
  {
    if ss == [] {
      assert [s][1..] == [];
    } else {
      assert (ss + [s])[1..] == ss[1..] + [s];
      PreimageSnoc(enc, ss[1..], s);
    }
  }

  /** What the running hash has been fed once every spec went through it. */
  method HashSpecs(enc: Spec -> Bytes, specs: seq<Spec>) returns (fed: Bytes)
    ensures fed == Preimage(enc, specs)
  {
    fed := [];
    for i := 0 to |specs|
      invariant fed == Preimage(enc, specs[..i])
    {
      var b := enc(specs[i]);
      TakeTail(specs, i);
      PreimageSnoc(enc, specs[..i], specs[i]);
      fed := fed + Put(|b|, 8);
      fed := fed + b;
    }
    assert specs[..|specs|] == specs;
  }

  /** The encodings of these specs tell them apart and are shorter than 2^64 bytes. */
  ghost predicate Faithful(enc: Spec -> Bytes, specs: seq<Spec>) {
    && (forall x, y :: x in specs && y in specs && enc(x) == enc(y) ==> x == y)
    && (forall x :: x in specs ==> |enc(x)| < Limit(8))
  }

  lemma PreimageHead(enc: Spec -> Bytes, s: Spec, t: Spec, a: Bytes, b: Bytes)
    requires |enc(s)| < Limit(8) && |enc(t)| < Limit(8) && (enc(s) == enc(t) ==> s == t)
    requires Put(|enc(s)|, 8) + enc(s) + a == Put(|enc(t)|, 8) + enc(t) + b
    ensures s == t && a == b
  {
    GetPut(|enc(s)|, 8);
    GetPut(|enc(t)|, 8);
    LengthPrefixed(Put(|enc(s)|, 8), enc(s), a, Put(|enc(t)|, 8), enc(t), b);
    assert |enc(s)| == |enc(t)|;
  }

  lemma LengthPrefixed<T>(l: seq<T>, x: seq<T>, a: seq<T>, m: seq<T>, y: seq<T>, b: seq<T>)
    requires l + x + a == m + y + b && |l| == |m|
    ensures l == m && (|x| == |y| ==> x == y && a == b)
  {
    assert (l + x + a)[..|l|] == l && (m + y + b)[..|m|] == m;
    if |x| == |y| {
      assert (l + x + a)[|l|..|l| + |x|] == x && (m + y + b)[|m|..|m| + |y|] == y;
      assert (l + x + a)[|l| + |x|..] == a && (m + y + b)[|m| + |y|..] == b;
    }
  }

  lemma FaithfulTails(enc: Spec -> Bytes, s: seq<Spec>, t: seq<Spec>)
    requires Faithful(enc, s + t) && s != [] && t != []
    ensures |enc(s[0])| < Limit(8) && |enc(t[0])| < Limit(8) && (enc(s[0]) == enc(t[0]) ==> s[0] == t[0])
    ensures Faithful(enc, s[1..] + t[1..])
  {
    assert s[0] in s + t && t[0] in s + t;
    assert forall x :: x in s[1..] + t[1..] ==> x in s + t;
  }

  /** The hashed bytes determine the spec sequence: two snapshots whose specs the encoding tells apart
      share them only if they are the same. */
  lemma {:induction false} PreimageInjective(enc: Spec -> Bytes, s: seq<Spec>, t: seq<Spec>)
    requires Faithful(enc, s + t) && Preimage(enc, s) == Preimage(enc, t)
    ensures s == t
    decreases |s|
  {
    if s != [] && t != [] {
      FaithfulTails(enc, s, t);
      PreimageHead(enc, s[0], t[0], Preimage(enc, s[1..]), Preimage(enc, t[1..]));
      PreimageInjective(enc, s[1..], t[1..]);
      assert s == [s[0]] + s[1..] && t == [t[0]] + t[1..];
    }
  }
}
