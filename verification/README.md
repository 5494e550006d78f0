# Polarbeam, verified

Polarbeam measures network paths: agents run probes and spool the results to disk until the control
plane has accepted them; the control plane streams each agent its configuration and draws conclusions
from the results. This project models the parts of that system whose correctness is hard to see from
the code, and proves what they promise.

* **The spool** (`frames`, `counters`, `spoolspec`, `spool`, `spoolruns`, `spoolages`, `spoollives`). Segments are byte sequences
  of CRC-framed records; a spool is its files, sidecars and fields. The invariant ties them to an
  abstract append log with a head position, and every operation is proved against that log: `Next` is
  the first unread records, the ack consumes what was handed out and not dropped meanwhile, the bounds
  drop whole oldest segments and count them, on a cadence that bounds how old a segment gets. The drop counters are proved crash-safe over runs in
  which any persist, and any repair of it, is cut. Over many lives, each ended by a crash in an append, the
  enforcement of the bounds, a persist or an ack, every record is on disk, was accepted, or is a counted drop.
* **The path-MTU search** (`pathmtu`, `pathmturun`). The bracket and its laws hold for any evidence in
  any order, and say when an advertised value may end it; the driver runs against an arbitrary network, and on
  a path that carries packets of up to m bytes it finds m and reports what became of larger ones: answered,
  refused locally, or swallowed.
* **Config distribution** (`meshexpand`, `configstream`, `configprotocol`, `agentconfig`, `scheduler`).
  The expansion is a function of the rows as a bag; the stream, the agent, its cache and the database
  form a state machine whose steps interleave freely, and whose quiet states are correct.
* **Folds** (`incidents`, `siteblame`, `certcache`, `jitter`), each against a specification of its own.

`wrappers`, `littleendian`, `sequences`, `ranges` and `sorting` hold what the others share. Content hashes, checksums,
marshalling and UUID derivation are parameters or collision-free; clocks and the network are
parameters. Durations are integers, jitter and ratios are reals.

Verify with `dafny verify dfyconfig.toml`.

## What the code does not do as described

* `server.go` says a failed rebuild is retried on the next tick. It is exactly when that tick's version
  read succeeds or a forced rebuild is due (`ConfigStream.FailedBuildRetries`,
  `ConfigStream.FailedReadDelaysRetry`).
* The version gate does not tell that a stream is in step with the database. A store write bumps the version
  after it has committed (`internal/server/store/store.go:33-47`), in a statement of its own that may fail: a
  tick between the two reads the old version and skips. A stream that holds the current version, with no edit
  lost on it, is guaranteed to have sent what the database holds exactly when no more writes are pending now
  than when its last build began (`ConfigProtocol.TickBeforeBumpSkips`, `ConfigProtocol.VersionGateIff`). The
  tick after the bump picks the write up; bumping first would let a build mask it until a forced rebuild
  (`ConfigProtocol.EditPickedUpNextTick`, `ConfigProtocol.BumpFirstMasks`).
* A certificate answer is not always a database answer of the last 30 seconds, even a "valid" one. From
  the cache it is at most 30 seconds old plus the time its request took from its stamp to its lookup, plus,
  for a revocation, the time its write-back took; both excesses occur, so the 30 seconds are guaranteed
  exactly without lag and without delay (`CertCache.EveryAnswerIsTheDatabases`,
  `CertCache.ThirtySecondsIff`, `CertCache.ValidOutlivesTtl`, `CertCache.WriteBackOutlivesTtl`).
* Writing a revocation back does not end stale "valid" answers: a request that had fetched "valid" and not
  cached it yet overwrites it. One can be served at a given time exactly when such a request, stamped no
  more than 30 seconds before that time, is in flight at the write-back, or the database says "valid" again
  (`CertCache.ValidAfterRevocation`, `CertCache.StaleValidIffInFlight`).
* The cache's sweep changes the answer to a request exactly when it was stamped while the entry was
  live and looked it up after a sweep stamped later than the expiry (`CertCache.SweepIsInvisible`).
* `lo < hi` is not an invariant of the path-MTU search. The bracket stays open exactly as long as no failing
  verdict comes for a size already delivered, or for a smaller one; for every range there is an evidence
  sequence that inverts it (`PathMtuSpec.StaysOpenIff`, `PathMtuSpec.OpenIffNoneBelow`, `PathMtuSpec.InvertedFromStart`).
* `sizesLeft` is not an upper estimate of the sizes that remain. While nothing plausible is advertised it falls
  short exactly where it leaves out the tests of max and min that come first (`PathMtuSpec.EstimateIff`); on
  the widest range it says 15 where 16 sizes are tested (`PathMtuSpec.WidestFallsShort`). Advertised values
  that shrink one byte at a time make the search ask for every size of the range
  (`PathMtuSpec.CrawlAsksForAll`), and once the bracket is inverted the estimate is 65
  (`PathMtuSpec.InvertedEstimate`).
* Segments do outlive the age bound by more than the cadence: a check decides by one clock reading and remembers
  a later one. Right after an append a segment is less than the age bound, a minute and the time between two
  readings old, and that is met (`SpoolAges.AgeRun`, `SpoolAges.AgeBoundIsMet`).
* The drop counters are exact until 2^64 results have been dropped (`Counters.DropWraps`).

## Model

| member | source | states |
|---|---|---|
| `Frames.ScanEncode` | internal/agent/spool/spool.go:242-254 | records written as frames scan back to exactly themselves |
| `Frames.ScanConcat` | internal/agent/spool/spool.go:618-655 | they do whatever bytes follow them |
| `Frames.ScanIsPrefix` | internal/agent/spool/spool.go:618-655 | scanning any file, however damaged, re-encodes to a prefix of it |
| `Frames.ScanIsMaximal` | internal/agent/spool/spool.go:618-655 | no record sequence with a longer intact encoding is left behind |
| `Frames.ScanAfterCut` | internal/agent/spool/spool.go:618-655 | for any payloads and any byte cut, the scan keeps exactly the records wholly before the cut |
| `Frames.CountAfterCut` | internal/agent/spool/spool.go:657-678 | counting by length prefixes gives that count, and one more exactly when a whole length prefix survived the cut |
| `Frames.CountEncode` | internal/agent/spool/spool.go:657-678 | on a clean segment it is the number of records |
| `Frames.ReadAfterCut` | internal/agent/spool/spool.go:555-598 | from any record boundary of a cut segment, what is readable is exactly the records between there and the cut |
| `Frames.CorruptIffOffBoundary` | internal/agent/spool/spool.go:555-598 | a read there flags corruption exactly when it asks for more than those and the cut is off every record boundary |
| `Frames.WholeBeforeExists` | internal/agent/spool/spool.go:618-655 | every cut has a number of records wholly before it, so the cut laws cover all cuts |
| `Frames.HeadFields` | internal/agent/spool/spool.go:570-592 | length, bounds and checksum tests accept a file's head exactly when it starts with an intact frame |
| `Frames.ReadFrame` | internal/agent/spool/spool.go:570-586 | one pass of the read loops decodes the frame that starts the rest of the file, or fails when none does |
| `Frames.ScanSegment` | internal/agent/spool/spool.go:618-655 | start-up scan: the number of records of the longest intact prefix, and the file cut to precisely their encoding |
| `Frames.CountRecords` | internal/agent/spool/spool.go:657-678 | the prefix-stepping loop counts what its recursive definition counts, on any bytes |
| `Frames.ReadSegment` | internal/agent/spool/spool.go:555-598 | the first `max` readable records from an offset, the offset after them, and corruption flagged iff fewer than `max` are readable and bytes remain |
| `Counters.RecoveredBalances` | internal/agent/spool/spool.go:130-190 | whatever the sidecar files hold, Open yields total = acked + unacked |
| `Counters.RepairIsStable` | internal/agent/spool/spool.go:173-190 | a crash inside Open's own repair changes nothing; a complete repair leaves the files in agreement |
| `Counters.RepairedIff` | internal/agent/spool/spool.go:173-190 | Open changes the sidecar files exactly if they disagree, or the unacked file is missing and there is something to count |
| `Counters.DropCut` | internal/agent/spool/spool.go:280-290 | a drop cut by a crash is recovered exactly iff the unacked rename landed, else as if it had not happened |
| `Counters.AckCut` | internal/agent/spool/spool.go:400-416 | the same for an acknowledgement |
| `Counters.StepRecovers` | internal/agent/spool/spool.go:686-692 | a step cut anywhere and reopened through any number of cut repairs comes to the step or to nothing |
| `Counters.RunRecovers` | internal/agent/spool/spool.go:130-190 | over any run of drops, acks, crashes and restarts the counters are exactly those of the steps whose first rename landed, and balance |
| `Counters.ReopenedIsStable` | internal/agent/spool/spool.go:173-190 | any number of opens cut in their repair recover the same triple |
| `Counters.OpenSyncs` | internal/agent/spool/spool.go:130-190 | a fresh directory, and any directory after one Open, is where such runs start |
| `Counters.StateFirstHidesDrop` | internal/agent/spool/spool.go:680-692 | with the other write order a cut drop is taken as acknowledged; right iff nothing was dropped or no unacked file existed |
| `Counters.StateFirstInflatesAck` | internal/agent/spool/spool.go:407-412 | with the other write order a cut ack inflates the total; right iff nothing was acked, no unacked file existed, or the total is saturated |
| `Counters.DropWraps` | internal/agent/spool/spool.go:537-538 | the lifetime total grows by the drop iff it stays below 2^64 |
| `SpoolSpec.DropOldestInv` | internal/agent/spool/spool.go:524-541 | dropping the oldest segment, also between Next and its ack, keeps the whole invariant and never moves the head back |
| `SpoolSpec.WrittenInv` | internal/agent/spool/spool.go:242-256 | appending a record keeps it |
| `SpoolSpec.OpenedInv` | internal/agent/spool/spool.go:466-484 | so does opening a fresh segment |
| `SpoolSpec.AckStepOk` | internal/agent/spool/spool.go:353-372 | each step of an ack keeps the invariant, for a segment wholly consumed, partly consumed, or dropped meanwhile |
| `SpoolSpec.QueueIsUnread` | internal/agent/spool/spool.go:314-339 | the unread queue is the concatenation of the unread parts of the files |
| `SpoolSpec.CursorNamesOldest` | internal/agent/spool/spool.go:319-322 | a cursor that names a segment on disk names the oldest one, at a record boundary, with exactly the unread records after it |
| `SpoolSpec.TornAppendRecovers` | internal/agent/spool/spool.go:117-128 | restarting after a crash that cut the record being written finds exactly the records that were whole |
| `SpoolSpec.CrashKeepsQueue` | internal/agent/spool/spool.go:104-190 | in any state, such a crash loses no unacknowledged record and no drop count |
| `SpoolSpec.Conserved` | internal/agent/spool/spool.go:216-290 | results offered and recovered = records on disk + records removed by acks + growth of the drop total; unread records lost are never more than those counted |
| `SpoolSpec.FreshInv` | internal/agent/spool/spool.go:117-190 | the scanned directory with the recovered counters satisfies the invariant |
| `SpoolQueue.TotalSize` | internal/agent/spool/spool.go:509-512 | the byte count of the listed segments |
| `SpoolQueue.EnforceBounds` | internal/agent/spool/spool.go:503-550 | terminates having dropped the shortest oldest-first run of segments, each out of bounds at the clock reading of its pass, that leaves size and head age within bounds at the last one; all counted; byte count resynced |
| `SpoolQueue.EnsureActive` | internal/agent/spool/spool.go:228-240 | the open segment has room for the record and is under a minute old; a fresh one is opened exactly when none is open, the record does not fit or a minute has passed; the queue is untouched |
| `SpoolQueue.ReadFrom` | internal/agent/spool/spool.go:555-598 | from a record boundary of a clean segment, the next `max` records and the boundary after them |
| `SpoolQueue.Collect` | internal/agent/spool/spool.go:297-339 | the batch is the first `max` unread records over all files, with the right fate for each file |
| `SpoolQueue.Consume` | internal/agent/spool/spool.go:348-374 | the ack loop moves the head to the end of the batch and no further |
| `SpoolQueue.ConsumeUpTo` | internal/agent/spool/spool.go:353-372 | cut after any number of segments it keeps the invariant and consumes no more than the batch |
| `SpoolQueue.ScanDirectory` | internal/agent/spool/spool.go:117-128 | every file cut after its last intact record; the next number is above all of them |
| `SpoolQueue.SpoolRecord` | internal/agent/spool/spool.go:228-276 | the record joins the end of the queue; size within bounds even when the scan is skipped; the bounds are checked exactly when the byte count exceeds the maximum or a minute or half the age bound has passed since the last check, and hold at the reading taken last, which comes after one for each segment dropped; otherwise no file is dropped |
| `SpoolQueue.Spool.Open` | internal/agent/spool/spool.go:104-206 | opens any directory of the spool's own making: the log is what was whole, counters recovered, size and age within bounds at the last clock reading |
| `SpoolQueue.Spool.Append` | internal/agent/spool/spool.go:216-276 | a result too large or unmarshallable is a counted drop; any other one is appended, on-disk size at most maxBytes, the byte count never below it, the bounds checked exactly when they are due |
| `SpoolQueue.HandOut` | internal/agent/spool/spool.go:297-347 | the batch, the invariant, and an unchanged queue, on values |
| `SpoolQueue.Spool.Next` | internal/agent/spool/spool.go:297-347 | exactly the first min(max, unread) records in append order, nothing consumed |
| `SpoolQueue.Spool.Ack` | internal/agent/spool/spool.go:348-378 | the head moves to the end of the batch, unless drops had already moved it further |
| `SpoolQueue.Spool.DropCounts` | internal/agent/spool/spool.go:386-395 | the total is every drop since the spool began, and a restart now would recover the same total and remainder |
| `SpoolQueue.Spool.AckDropped` | internal/agent/spool/spool.go:400-416 | moves at most the reported amount from unacked to acked, on disk too |
| `SpoolQueue.Spool.Close` | internal/agent/spool/spool.go:422-431 | only the append handle goes |
| `SpoolRuns.Run` | internal/agent/spool/spool.go:216-550 | over any sequence of operations the batches, one for each Next, are runs of the append log at non-decreasing positions, and every result is accounted for |
| `SpoolRuns.HandedInOrder` | internal/agent/spool/spool.go:297-347 | a batch continues the order of those handed out before |
| `SpoolRuns.UpToAck` | internal/agent/uplink/pusher.go:83-104 | everything of a round before the ack, with results appended and segments dropped between any two of its calls: the batch stays what it was, nothing is consumed, exactly the drops reported are acknowledged |
| `SpoolRuns.PushOnce` | internal/agent/uplink/pusher.go:83-109 | a batch is consumed only once accepted, and exactly the drops reported with it are acknowledged, whatever is appended between any two of its calls |
| `SpoolRuns.ReportedExactly` | internal/agent/uplink/pusher.go:88-104 | drops that race a push stay unacked |
| `SpoolRuns.PushRounds` | internal/agent/uplink/pusher.go:53-111 | over any rounds of pushes that fail or succeed while appends and drops race them: accepted batches, one for each accepting round and none larger than a push, lie between the old head and the new one, in append order and without overlap; what left the queue unaccepted is no more than what is counted as lost |
| `SpoolAges.AgeRun` | internal/agent/spool/spool.go:254-276 | over any run of operations on a clock that never goes back, right after an append no segment is as old as the age bound, a minute and the time between two readings together |
| `SpoolAges.AppendedYoung` | internal/agent/spool/spool.go:254-276 | one append, checked or not, leaves every segment within that |
| `SpoolAges.AgeBoundIsMet` | internal/agent/spool/spool.go:271-276 | for every age bound of two minutes or more and every time between readings, an append that leaves a segment one nanosecond short of that |
| `SpoolAges.OpenedYoung` | internal/agent/spool/spool.go:185-206 | a spool just opened is where such runs start, if its segments are in time order |
| `SpoolLives.Lives` | internal/agent/spool/spool.go:104-550 | over any number of lives, each ended by a crash in an append, the enforcement of the bounds, a persist or an ack that raced appends and drops: every record ever found or spooled is on disk, in an accepted batch, or among records no more than the bounds dropped, and the drop total on disk counts those and the refused results exactly |
| `SpoolLives.LostAreCounted` | internal/agent/spool/spool.go:104-550 | so, unless 2^64 drops are in reach, the drop total on disk has grown by the refused results and at least the records missing |
| `SpoolLives.Live` | internal/agent/spool/spool.go:104-550 | one such life keeps that account, and adds exactly the results offered and spooled in it and its accepted batches |
| `SpoolLives.LeftOut` | internal/agent/uplink/pusher.go:83-109 | batches that follow one another between two heads leave out no more records than they fall short |
| `SpoolLives.CrashAt` | internal/agent/spool/spool.go:242-290 | what a crash in the writes of a record, in the bounds after it, or between the renames of a drop, a refusal or a report leaves on disk, and by how much the count left exceeds the spool's |
| `SpoolLives.CutAck` | internal/agent/spool/spool.go:348-374 | what a crash in an ack leaves on disk: no record beyond the batch is gone |
| `PathMtuSpec.RecordTightens` | internal/agent/probes/pathmtu.go:403-439 | one verdict never widens the bracket, and leaves every tested size on or outside it |
| `PathMtuSpec.AnyEvidenceTightens` | internal/agent/probes/pathmtu.go:400-439 | nor does any sequence of verdicts, late or contradictory |
| `PathMtuSpec.LateEchoIsInert` | internal/agent/probes/pathmtu.go:215-229 | a late echo for an earlier size changes nothing |
| `PathMtuSpec.LateTooBigInverts` | internal/agent/probes/pathmtu.go:414-418 | a late TooBig for a delivered size closes the bracket past its lower end |
| `PathMtuSpec.StaysOpenIff` | internal/agent/probes/pathmtu.go:403-439 | a verdict leaves an open bracket open iff it is a delivery or for a size above lo |
| `PathMtuSpec.OpenIffNoneBelow` | internal/agent/probes/pathmtu.go:400-439 | over any evidence in any order the bracket ends open iff no failing verdict came for a size at or below the lo of that moment |
| `PathMtuSpec.InvertedFromStart` | internal/agent/probes/pathmtu.go:403-439 | for every range an evidence sequence that ends with hi = lo |
| `PathMtuSpec.NextStopsIffDone` | internal/agent/probes/pathmtu.go:375-398 | next has no more exactly when done holds |
| `PathMtuSpec.NextIsInside` | internal/agent/probes/pathmtu.go:381-398 | each size asked for is untested, within min and max, and strictly inside the bracket |
| `PathMtuSpec.TestingShrinks` | internal/agent/probes/pathmtu.go:403-439 | recording it strictly shrinks the bracket, whatever else arrived |
| `PathMtuSpec.PathStaysBracketed` | internal/agent/probes/pathmtu.go:403-439 | true evidence keeps the path's MTU inside the bracket |
| `PathMtuSpec.FindsPathMtu` | internal/agent/probes/pathmtu.go:349-439 | with evidence from a path of MTU m in any order, a search that is done has lo = max, or lo = 0 and hi = min, or lo = m and hi = m + 1, unless an advertised value was confirmed |
| `PathMtuSpec.ConfirmedMeansSeen` | internal/agent/probes/pathmtu.go:403-412 | a search stops at an advertised value only if a plausible TooBig advertised it and a packet of exactly that size was delivered afterwards |
| `PathMtuSpec.DeliveryEndsIff` | internal/agent/probes/pathmtu.go:375-412 | a delivery inside the bracket ends the search iff it closes the bracket or is of the size advertised with the failure that bounds it |
| `PathMtuSpec.AdvertisedTakesTwo` | internal/agent/probes/pathmtu.go:381-429 | a path that advertises its MTU is settled by two sizes |
| `PathMtuSpec.NextHopWasAdvertised` | internal/agent/probes/pathmtu.go:414-429 | the next-hop value kept is one that a TooBig advertised, at least 68, or 1280 on IPv6, and below the size that failed |
| `PathMtuSpec.CauseIsOfSmallestFailure` | internal/agent/probes/pathmtu.go:403-439 | after any evidence in any order, hi and its cause are those of the first failure of the smallest size that failed |
| `PathMtuSpec.HonestPathIsFound` | internal/agent/probes/pathmtu.go:349-439 | on a path of MTU m that advertises nothing plausible but m, a search that is done has lo = m, or lo = max, or lo = 0 and hi = min, with no exemption |
| `PathMtuSpec.CeilLog2Meaning` | internal/agent/probes/pathmtu.go:349-352 | the bound's logarithm is the least k with n <= 2^k |
| `PathMtuSpec.SizesToGoDrops` | internal/agent/probes/pathmtu.go:349-398 | with no plausible MTU advertised each size tested uses up one of 2 + ceil(log2(max - min)) |
| `PathMtuSpec.BoundIsMet` | internal/agent/probes/pathmtu.go:349-352 | for every range a path on which exactly that many sizes are tested |
| `PathMtuSpec.EstimateIff` | internal/agent/probes/pathmtu.go:441-445 | sizesLeft covers the sizes to go while nothing plausible is advertised iff the search is done or bisecting, or the range leaves the stated room |
| `PathMtuSpec.EstimateFallsShort` | internal/agent/probes/pathmtu.go:441-445 | without that room it is one short of the sizes tested on some path |
| `PathMtuSpec.WidestFallsShort` | internal/agent/probes/pathmtu.go:441-445 | on the range 68 to 9216, 16 sizes against 15 |
| `PathMtuSpec.InvertedEstimate` | internal/agent/probes/pathmtu.go:441-445 | 65 for every inverted bracket |
| `PathMtuSpec.CrawlAsksForAll` | internal/agent/probes/pathmtu.go:381-429 | TooBigs that each advertise one byte less make the search ask for every size of the range in turn |
| `PathMtu.PmtuSearch.NextSize` | internal/agent/probes/pathmtu.go:381-398 | the next size of the search the laws are about |
| `PathMtu.PmtuSearch.Record` | internal/agent/probes/pathmtu.go:403-439 | the search after a verdict, on all its fields |
| `PathMtu.PmtuFolder.Fold` | internal/agent/probes/pathmtu.go:215-237 | a reply resolves the size under test or becomes evidence for another; the best round-trip time is kept |
| `PathMtu.FoldKeeps` | internal/agent/probes/pathmtu.go:215-237 | every delivered size keeps a round-trip time, and late replies only tighten |
| `PathMtu.LeastRoundTrip` | internal/agent/probes/pathmtu.go:215-225 | over any sends, replies and verdicts in any order, the time kept for a size is the least of all its echoes, and there is one iff it had an echo |
| `PathMtu.AllEvidenceIsRecorded` | internal/agent/probes/pathmtu.go:215-237 | nothing moves the search but verdicts and late replies, and none of those is lost |
| `PathMtu.TrySize` | internal/agent/probes/pathmtu.go:148-194 | at most three attempts at a size, exactly three before silence is the verdict; on a path that carries up to m bytes the verdict is whether it fits, and how larger ones fail if that is known |
| `PathMtu.SizeTested` | internal/agent/probes/pathmtu.go:137-195 | a pass of the size loop shrinks the bracket and the number of sizes to go |
| `PathMtu.SizeLoop` | internal/agent/probes/pathmtu.go:137-195 | terminates against any network, with at most the promised number of sizes; nothing is sent or tested but those, and none twice |
| `PathMtu.Run` | internal/agent/probes/pathmtu.go:66-282 | nothing is sent or tested but the listed sizes, each once and within min and max, at most 2 + ceil(log2(max - min)) of them when no plausible MTU is advertised; the status is OK iff the search was done with lo > 0 and not bounded by silence, an error iff it was done with lo = 0 after a TooBig or a local refusal, and a timeout otherwise; every field of the measurement; on a path that carries up to m bytes it finishes and has found m, exactly so if the path advertises nothing plausible but m |
| `PathMtu.PathIsReported` | internal/agent/probes/pathmtu.go:241-282 | status, largest delivered, smallest failed, black-hole and local flags, and usability, for paths that carry up to m bytes and swallow, refuse or report larger ones, with m below, inside and above the range |
| `PathMtu.ResultSays` | internal/agent/probes/pathmtu.go:241-282 | what status and measurement say of the search, field by field |
| `PathMtu.RejectedIff` | internal/server/grpcapi/ingest.go:363-377 | the server rejects a measurement iff a size exceeds 65536 or the IP version is neither 4 nor 6 |
| `PathMtu.UsableIffConverged` | internal/server/grpcapi/ingest.go:371-392 | the server accepts every result and marks it usable exactly when the search was done with lo > 0, whose own round-trip time is then reported |
| `Sorting.StrictUnique` | internal/server/meshexpand/meshexpand.go:67-72 | with distinct ids every sort gives the same sequence |
| `MeshExpand.BuildSnapshot` | internal/server/meshexpand/meshexpand.go:36-78 | the loops give the expansion in id order, or the error, that the laws below are about |
| `MeshExpand.ExpandMesh` | internal/server/meshexpand/meshexpand.go:53-65 | the nested loops give one spec per template and peer of its mesh at another site |
| `MeshExpand.HasDuplicate` | internal/server/meshexpand/meshexpand.go:68-72 | comparing neighbours of the sorted specs finds a repeated id iff there is one |
| `MeshExpand.AnySortAgrees` | internal/server/meshexpand/meshexpand.go:67-72 | the outcome does not depend on how the library sorts |
| `MeshExpand.BuildIgnoresRowOrder` | internal/server/meshexpand/meshexpand.go:36-78 | permuting direct probes, templates and peers changes neither snapshot nor error |
| `MeshExpand.ExpandedMember` | internal/server/meshexpand/meshexpand.go:39-65 | a spec is in the expansion iff a direct probe, or a template and a same-mesh peer at another site, gives it |
| `MeshExpand.SnapshotHoldsExactly` | internal/server/meshexpand/meshexpand.go:36-78 | a snapshot holds each of those exactly once and nothing else |
| `MeshExpand.SnapshotContents` | internal/server/meshexpand/meshexpand.go:39-104 | field by field: each spec has id, type, interval, timeout, train, parameters and target of a direct row, or those of a template with the derived id, a peer of its mesh at another site as target and the port from the parameters; each row and each pair has such a spec, the only one with its id |
| `MeshExpand.SpecIsDetermined` | internal/server/meshexpand/meshexpand.go:88-104 | those fields leave one spec for each row and each pair |
| `MeshExpand.FailsIffRepeated` | internal/server/meshexpand/meshexpand.go:67-72 | building fails iff two rows or pairs derive the same id |
| `MeshExpand.HashSpecs` | internal/server/meshexpand/meshexpand.go:109-127 | the bytes fed to the running hash are the length-prefixed encodings in order |
| `MeshExpand.PreimageInjective` | internal/server/meshexpand/meshexpand.go:106-127 | those bytes determine the spec sequence: two sequences whose specs the encoding tells apart share them only if they are equal |
| `ConfigStream.StreamLoop.Tick` | internal/server/grpcapi/server.go:283-338 | one tick: without a certificate confirmed valid the stream ends with nothing sent and the variables as they were; otherwise it rebuilds exactly when the version read differs from the last one or the tenth tick has come, what it keeps, and that it sends exactly when the snapshot changed |
| `ConfigStream.RebuildsWithinTen` | internal/server/grpcapi/server.go:184-202 | no ten ticks pass without a rebuild while builds succeed |
| `ConfigStream.CountStaysBelow` | internal/server/grpcapi/server.go:307-333 | fewer than ten ticks ever separate successful builds |
| `ConfigStream.FailedBuildRetries` | internal/server/grpcapi/server.go:312-335 | a failed build keeps snapshot and version, and is retried on the next tick iff its version read succeeds or a forced rebuild is due |
| `ConfigStream.FailedReadDelaysRetry` | internal/server/grpcapi/server.go:312-335 | a failed build followed by a failed version read is not retried on that tick |
| `ConfigProtocol.StepKeepsServer` | internal/server/grpcapi/server.go:252-339 | every step keeps: what was edited since a build began is bumped, lost or pending, and with nothing edited the snapshot is Build of the database, though builds read table by table while writes commit and bump |
| `ConfigProtocol.StepKeepsChannel` | internal/server/grpcapi/server.go:267-273 | every step keeps: what is on its way ends with the server's snapshot |
| `ConfigProtocol.StepKeepsAgent` | internal/agent/uplink/uplink.go:174-198 | every step, with any outcome the scheduler's contract allows, keeps: the advertised hash is that of what the workers run, or of what is about to be applied |
| `ConfigProtocol.RunKeepsInv` | internal/server/grpcapi/server.go:252-339 | so does every run |
| `ConfigProtocol.EveryRunConverges` | internal/server/grpcapi/server.go:252-339 | in every interleaving: the hash the agent advertises is that of what its scheduler's workers run; with lastVer current, nothing lost and no write since the last build began still to be bumped, the last sent snapshot is Build(DB); once drained the workers are exactly its ids, each with its spec's hash |
| `ConfigProtocol.SkippedSendIsRedundant` | internal/server/grpcapi/server.go:267-273 | the initial send is skipped exactly when the agent advertises that snapshot, and then its workers already run it |
| `ConfigProtocol.RevokedStreamEnds` | internal/server/grpcapi/server.go:288-300 | a tick that finds the certificate revoked or unconfirmable closes the stream, and whatever steps follow nothing is sent until another stream is opened |
| `ConfigProtocol.FailedOpeningSendsNothing` | internal/server/grpcapi/server.go:257-266 | a stream whose version read or first build fails ends without having sent anything |
| `ConfigProtocol.DisconnectLosesChannel` | internal/server/grpcapi/server.go:283-287 | what was on its way is lost with the connection |
| `ConfigProtocol.RestartRunsCache` | cmd/polarbeam-agent/main.go:283-292 | an agent that restarts runs and advertises the cached snapshot if it can read one, and nothing otherwise |
| `ConfigProtocol.RoundRuns` | internal/server/grpcapi/server.go:283-338 | what a tick with an undisturbed build comes to, step by step |
| `ConfigProtocol.RoundIsTick` | internal/server/grpcapi/server.go:283-338 | the protocol's tick is the loop's tick, and sends exactly when the snapshot changed |
| `ConfigProtocol.EditPickedUpNextTick` | internal/server/grpcapi/server.go:307-333 | in any interleaving with edits of every kind and agent steps, once a tick could read a bump and its build is done, the last finished build began after every edit made by then; the stream is in step with the database unless yet another edit came, and whenever it is current |
| `ConfigProtocol.BumpIsNoticed` | internal/server/store/store.go:40-46 | a bump that lands always leaves the stream behind the version |
| `ConfigProtocol.TickBeforeBumpSkips` | internal/server/store/store.go:33-46 | for every write, a tick between its commit and its bump leaves the stream at the current version with the old snapshot |
| `ConfigProtocol.VersionGateIff` | internal/server/grpcapi/server.go:252-257 | holding the current version with nothing lost guarantees that the last sent snapshot is Build(DB) iff no more writes are pending than when the last build began |
| `ConfigProtocol.BumpFirstMasks` | internal/server/grpcapi/server.go:252-257 | with the bump before the commit, a build between them takes the new version for the old rows and no tick short of a forced rebuild notices |
| `ConfigProtocol.SilentEditPickedUp` | internal/server/grpcapi/server.go:184-202 | in any interleaving with edits of every kind, after ten ticks with succeeding builds the last finished build began after every edit made before them, bumped, lost or silent; if none came since, the stream has sent what the database holds |
| `ConfigProtocol.SilentEditSent` | internal/server/grpcapi/server.go:184-202 | over steps that edit nothing they send exactly what the database held, even if no version can be read |
| `AgentConfig.DecodedFile` | internal/agent/confcache/confcache.go:42-89 | a cache file loads back as the snapshot stored |
| `AgentConfig.OnlyIntactFilesLoad` | internal/agent/confcache/confcache.go:42-67 | a file loads as a snapshot iff its last 32 bytes are the checksum of the rest and the rest is the encoding of that snapshot with a hash |
| `AgentConfig.DamagedIsCorrupt` | internal/agent/confcache/confcache.go:50-66 | a file that is there is loaded or corrupt; a short one and a snapshot without a hash are corrupt |
| `AgentConfig.ConfCache.Load` | internal/agent/confcache/confcache.go:42-67 | absent, truncated, mis-summed, unparsable and hashless files, and a good one |
| `AgentConfig.ConfCache.Store` | internal/agent/confcache/confcache.go:73-118 | success makes the snapshot loadable and sweeps other identities; failure leaves every cache as it was |
| `AgentConfig.ConfCache.Clear` | internal/agent/confcache/confcache.go:96-102 | removes that cache only; absence is success |
| `AgentConfig.Wiring.constructor` | cmd/polarbeam-agent/main.go:283-292 | start-up applies a readable cache to the scheduler and advertises the hash of exactly what the workers run; no cache or no identity, no workers and no hash |
| `AgentConfig.Wiring.OnSnapshot` | cmd/polarbeam-agent/main.go:268-279 | the scheduler is reconciled with the snapshot and its hash advertised whether or not it could be persisted; the cache then holds it, nothing, or what it held; without an identity it is left alone |
| `AgentConfig.ReceiptIsOnSnapshot` | internal/agent/uplink/uplink.go:174-198 | the protocol's receipt steps come to what the wiring does |
| `AgentConfig.DrainedAgentRuns` | internal/agent/uplink/uplink.go:183-197 | whatever was sent can be received and applied, and the workers are then those of the server's snapshot, whatever became of the cache |
| `AgentConfig.EditReachesAgent` | internal/server/grpcapi/server.go:307-333 | from any reachable state with the stream up and in any interleaving, once a tick could read and build a bumped edit, no further edit came or the stream is current, and the agent has drained, there is one worker for each id of the edited configuration, with its spec's hash, and no other |
| `Scheduler.DesiredIsFirst` | internal/agent/scheduler/scheduler.go:67-87 | the desired ids are the non-empty ids of the snapshot, each bound to its first occurrence |
| `Scheduler.Displace` | internal/agent/scheduler/scheduler.go:88-97 | exactly the workers whose spec changed or vanished are cancelled and removed |
| `Scheduler.StartAll` | internal/agent/scheduler/scheduler.go:98-102 | exactly the specs still wanted get new workers |
| `Scheduler.StartWorker` | internal/agent/scheduler/scheduler.go:120-150 | the worker of a spec; unsupported types and unusable intervals run as stand-ins without evidence |
| `Scheduler.ReconciledStaffs` | internal/agent/scheduler/scheduler.go:120-150 | over any snapshots every worker has the interval of its spec, a minute if that is not positive, and produces evidence iff its type is supported and the interval positive |
| `Scheduler.Scheduler.Apply` | internal/agent/scheduler/scheduler.go:60-102 | running ids are the desired ones; kept iff the hash is unchanged; all others cancelled and nothing else; nothing after Stop |
| `Scheduler.Scheduler.Stop` | internal/agent/scheduler/scheduler.go:105-114 | every worker cancelled, none left |
| `Scheduler.Scheduler.FastestInterval` | internal/agent/scheduler/scheduler.go:159-169 | the least interval of the specs that produce evidence among those that run, 0 iff there is none |
| `Scheduler.ReapplyChangesNothing` | internal/agent/scheduler/scheduler.go:60-102 | re-applying a snapshot restarts and cancels nothing |
| `Scheduler.RunsWhatIsDesired` | internal/agent/scheduler/scheduler.go:60-102 | if no changed spec has the hash of the one it replaces, every worker runs its snapshot's spec |
| `Scheduler.Reconcilable` | internal/agent/scheduler/scheduler.go:60-102 | from any state every snapshot can be reconciled with, so an Apply never blocks |
| `Scheduler.IdentityIffUnchanged` | internal/agent/scheduler/scheduler.go:88-102 | a worker keeps its identity iff its spec hash is unchanged, and is cancelled otherwise |
| `Incidents.Clip` | web/src/incidentGroups.ts:94-103 | the clipped spans cover exactly the open milliseconds of the window |
| `Incidents.Sweep` | web/src/incidentGroups.ts:106-114 | the sorted sweep computes the cardinality of the union of the spans |
| `Incidents.IncidentFreeRatio` | web/src/incidentGroups.ts:91-116 | one minus the share of milliseconds with some incident open, and the final clamp is a no-op |
| `Incidents.OrderDoesNotMatter` | web/src/incidentGroups.ts:91-116 | the open time depends only on the set of events |
| `SiteBlame.WorseSiteIsMax` | web/src/siteTopology.ts:14-27 | the two rankings together are one total order and the fold takes its maximum |
| `SiteBlame.FoldedIsWorst` | web/src/siteTopology.ts:96-100 | charging computes each site's worst charge and charges no other site |
| `SiteBlame.Tally` | web/src/siteTopology.ts:88-95 | the counts of both evidence classes for every site |
| `SiteBlame.AttributeSeverity` | web/src/siteTopology.ts:87-121 | the loops compute the attribution |
| `SiteBlame.AttributionIgnoresOrder` | web/src/siteTopology.ts:87-121 | it is independent of cell order |
| `SiteBlame.EveryFaultIsCharged` | web/src/siteTopology.ts:101-118 | every unhealthy direction makes at least one of its ends look no healthier |
| `SiteBlame.BlamedOnlyWhereConcentrated` | web/src/siteTopology.ts:101-118 | a site looks unhealthy only through a direction of which it has at least as many as the other end |
| `SiteBlame.SitesShown` | web/src/siteTopology.ts:101-118 | the sites in the map are exactly the ends of healthy and faulty directions and the ends where stale ones concentrate; one that nothing makes unhealthy is Ok |
| `CertCache.Cache.Get` | internal/server/grpcapi/auth.go:56-64 | a hit iff there is an entry that has not expired at the stamp |
| `CertCache.Cache.Set` | internal/server/grpcapi/auth.go:66-82 | the new entry, and above 4096 entries exactly the unexpired others |
| `CertCache.SweepIsInvisible` | internal/server/grpcapi/auth.go:72-80 | a sweep changes a lookup iff its entry was live at its stamp and expired before the sweep's |
| `CertCache.SweepNeverChangesAnswers` | internal/server/grpcapi/auth.go:66-102 | over whole runs in which no lookup hits an entry that expired since its stamp, sweeping serves the very answers that never sweeping serves |
| `CertCache.StepKeepsEntries` | internal/server/grpcapi/auth.go:86-111 | every step keeps: an entry repeats a database answer and expires a TTL after it was given or written back |
| `CertCache.RunKeepsInv` | internal/server/grpcapi/auth.go:86-111 | so does every interleaving |
| `CertCache.EveryAnswerIsTheDatabases` | internal/server/grpcapi/auth.go:86-111 | every answer served was given by the database for that certificate, at most 30 s plus its write-back's lag plus its request's delay before it is served; a valid one has no lag; errors become no answer |
| `CertCache.ThirtySecondsIff` | internal/server/grpcapi/auth.go:30-33 | the 30 s bound is guaranteed when the answer is served iff there is neither lag nor delay |
| `CertCache.ValidOutlivesTtl` | internal/server/grpcapi/auth.go:86-102 | for every delay, a run that serves a valid answer that much past the TTL |
| `CertCache.ValidAfterRevocation` | internal/server/grpcapi/auth.go:104-111 | once the cache holds a revocation, a valid answer served comes from a later database answer or one in flight |
| `CertCache.StaleValidIffInFlight` | internal/server/grpcapi/auth.go:104-111 | a stale valid can still be served at a given time iff a request stamped at most a TTL before holds one it has fetched and not cached |
| `CertCache.WriteBackOutlivesTtl` | internal/server/grpcapi/auth.go:104-111 | for every lag and delay, a run that serves a revocation that much past the TTL |
| `Jitter.Icmp.FoldJitter` | internal/agent/probes/icmp.go:159-180 | the accumulator after a run, of this series only, and the value reported |
| `Jitter.WeightedSnoc` | internal/agent/probes/icmp.go:168-175 | the recurrence of section 6.4.1 of RFC 3550 is a geometrically weighted sum of all differences |
| `Jitter.FoldConcat` | internal/agent/probes/icmp.go:159-180 | folding a run onto what came before is folding the concatenation |
| `Jitter.RunByRun` | internal/agent/probes/icmp.go:28-42 | over any interleaving of runs and retirements each accumulator is that of its own concatenated series |
| `Jitter.ReportedJitter` | internal/agent/probes/icmp.go:156-180 | -1 exactly until two round-trip times are known, then the closed form rounded, between 0 and the largest difference seen |

## Left out

- Damage to segments while the spool runs (truncateSegmentLocked): without it the corrupt branch of Next is unreachable.
- Disk errors, failed deletes, fsync and power loss; the gap between unlinking a dropped segment and the first sidecar rename; an ack persist that fails without ending the run.
- Spool.pending and the wake channel, documented as approximate.
- SpoolQueue.Spool.Open: takes directories whose intact records were written by this spool, in name order with numbers from 1; alien files, numbers written two ways and segment 0 are not modelled.
- SpoolLives.Lives: a drop by the bounds is cut after its first rename or before its unlink, not between the two.
- SpoolRuns.Run: at most one batch is outstanding; an earlier batch's ack is lost when the next one is handed out, as with the one pusher.
- SpoolAges.AgeRun: starts from segments in time order, as a spool that appends leaves them, with an age bound that is not negative and a clock that never goes back.
- SpoolRuns.PushOnce: sleeping, the batching window and back-off.
- PathMtu.Run: address resolution, sockets, packet parsing and the length of the waits; the network is a function of what was sent.
- MeshExpand.HashSpecs: the branch for an encoding that fails, which the code calls impossible.
- ConfigProtocol.EveryRunConverges: a snapshot's hash is its spec sequence; liveness touches and audit records do not appear.
- Scheduler.Scheduler.Apply: worker goroutines, their timing and retire; spec hashes are an arbitrary function, so a 64-bit collision keeps the old worker, as in the code.
- Incidents.IncidentFreeRatio: whole milliseconds and real division instead of doubles.
- Jitter.Icmp.FoldJitter: reals instead of float64.
- CertCache.EveryAnswerIsTheDatabases: whole seconds on one monotone clock; the uncached checks appear as the revocations they prove.
- The PostgreSQL store, the HTTP API, sign-in, certificate issuance, the other probers, outage and path watching, and the user interface: plumbing over libraries, or easier than what is here.
