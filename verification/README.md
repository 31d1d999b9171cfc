# HeraclitusDB: verified models

Dafny models of the parts of HeraclitusDB whose correctness is least visible
from the code, with proofs of what those parts are for. `dafny verify
dfyconfig.toml` checks everything.

**Activation (ACT-R).** A record keeps its last 8 accesses in a circular buffer
and stands in for the older ones with a closed form. Records are indexed by
`floor(log2 n)` and newest instant so that `top_k` can walk the bands by upper
bound and stop early. Proved: the buffer always is the window of the last
accesses, in any numeric order; how far the closed form can be from the exact
sum; the index always lists every record once under its current key; the bound
dominates every score; the early stop returns exactly the first `k` of the full
sort; a checkpoint restores every reachable store. Times are naturals; `ln`, the
power and the cast to `f32` are arbitrary functions with the laws `Lawful` names.
Those laws are proved for every branch of the code, `d = 0.5`, `d = 1`, `d` within
1e-12 of 1 and every other `d > 0`, from the textbook properties of a logarithm, a
power and a square root on the positive reals (`IsLog`, `IsPower`, `IsSqrt`), which
the real functions have; and one profile that can be written down in full, with a
penalty that grows without end, is shown to meet them. (`ActivationRecord`,
`ActivationTrace`, `ActivationStore`, `Decay`, `DecayWitness`, `Ranking`)

**Hybrid logical clock.** One-step facts on `u64` with the exact condition under
which they hold, and whole runs of any number of nodes with delayed, reordered,
duplicated or lost messages: causality orders the clocks, `l` is the maximum of
the causal past, `c` is bounded by a count of it, and so no run with fewer than
2^64 events and nodes overflows. (`Hlc`)

**Graphs and correlation.** The stack-based labelling of connected components,
the sources of links of both consoles, and the inverted index that scores pairs.
(`Components`, `ConsoleGraph`, `FraudGraph`, `Correlate`)

**Policy gateway.** Concurrent tool calls as interleaved atomic steps over one
approval store and one trace of evidence; the checks at the door; what each call
leaves in the trace, record by record; the approval store itself; the normalisation
of method names; the shared credential. (`Admission`, `Gateway`, `GatewayStories`,
`GatewaySubjects`, `Approvals`, `MethodNames`, `Credentials`)

**Compact algorithms.** The resumable CSV loader as a crash and restart machine,
the round-robin question sampler, and rank fusion. (`EtlFlat`, `SampleQa`,
`RankFusion`)

Where the code and its own words disagree, the models follow the code:

- `verus/hlc.rs` promises strictness for all `u64` clocks. With machine arithmetic
  it fails when the counter that is incremented is already 2^64 - 1:
  `NowStrictIff` and `ReceiveStrictIff` say exactly when it holds, `NowCanGoBack`
  and `ReceiveCanGoBack` show failures, and `MachineIsUnbounded` that short enough
  runs never get there.
- `etl_flat.py` says a run resumes without duplicating. A crash between two saves
  does duplicate: `ResumesWithoutDuplicates` gives the exact condition over whole
  histories and `ResumeCanDuplicate` a history, while `EveryRowIsLoaded` bounds the
  repetition.
- `gateway.rs` says shadow mode never blocks. It does refuse a call that needs
  approval and carries no usable JSON-RPC id (`ShadowRefusesBlankIds`), and in every
  mode a request with an oversized correlation header, a rejected identity or a body
  that is not unambiguous JSON (`DoorRefuses`). `ShadowRefusesExactly` says that these
  and calls that reach no upstream are the only tool calls it does not forward;
  `EnforcedNames` covers the names refused in every mode.
- The bound of the activation index does not hold for every record a snapshot can
  hold. `BoundHoldsExactly` says for which it does: those without accesses, and
  those that hold at least one time and no more times than accesses (one that holds
  none is bounded only if nothing decays). It assumes masses whose tail means lie
  between them, which leaves out the branch for `d` within 1e-12 of 1: there, for `d`
  slightly above 1, a record with more than 8 accesses all at one distant time exceeds
  the bound by a tiny amount, which the slack covers (`NearOneDecayLawful`,
  `LimiteDominates`). `ReplayAllSane` shows that a store's own
  operations leave no others, so `TopK` is exact on them.
- One approval is used once, but one subject can be authorized twice when approval
  identifiers come out of order: `OneUsePerSubject` shows that it cannot while each
  new record comes above the used ones of its own subject, `UsableAgainExactly` that
  the first record to come below makes it possible, and `OutOfOrderUsesTwice` a run
  with identifiers 5 and 3.

## Model

| member | source | states |
|---|---|---|
| Decays.MeanForcesAntitone | crates/heraclitus-activation/src/lib.rs:99-131 | a tail mean that lies between the masses at the ends of every age range forces the decay to be antitone |
| Decays.PowerDecayLawful | crates/heraclitus-activation/src/lib.rs:18-26 | the generic branches, for every d > 0 other than 1, meet every law the early stop needs |
| Decays.PowerMeanBetween | crates/heraclitus-activation/src/lib.rs:116-127 | the closed-form tail of the generic branch is a mean: between the masses at both ends of its range |
| Decays.HarmonicDecayLawful | crates/heraclitus-activation/src/lib.rs:118-127 | the d = 1 branch, with the logarithm as tail integral, meets the same laws |
| Decays.NearOneDecayLawful | crates/heraclitus-activation/src/lib.rs:118-127 | so does the branch for d within 1e-12 of 1, although it takes its tail from d = 1 and its masses from d: the slack covers the difference on 64-bit ages |
| Decays.HalfDecayLawful | crates/heraclitus-activation/src/lib.rs:18-25 | the d = 0.5 fast path computes the numbers of the generic branch and meets the same laws |
| Decays.SqrtIsPower | crates/heraclitus-activation/src/lib.rs:116-117 | the square root has every property asked of a power |
| OctaveDecays.LawsAreMet | crates/heraclitus-activation/src/lib.rs:205-223 | a profile given in full, halving the mass and adding 1 to the penalty at each octave of age, meets the laws of the early stop |
| ActivationRecords.FloorLog2Brackets | crates/heraclitus-activation/src/lib.rs:196-203 | the band of a count n is the b with 2^b <= n < 2^(b+1) |
| ActivationRecords.TailWrittenOut | crates/heraclitus-activation/src/lib.rs:108-128 | the tail in plain numbers: its ages are saturating differences of at least 1, put in order and at least 1 apart, and a negative tail counts as nothing |
| ActivationRecords.TRefIsNewest | crates/heraclitus-activation/src/lib.rs:186-194 | the newest instant is one of the record's times, and none is later |
| ActivationRecords.TailBounds | crates/heraclitus-activation/src/lib.rs:108-128 | the tail is between m copies of the masses at the ends of its range |
| ActivationRecords.MassBound | crates/heraclitus-activation/src/lib.rs:99-131 | raw_sum, tail included, is positive and at most n times the mass (or any envelope of masses and tail means) at the age of the newest instant, in any order of accesses and now |
| ActivationRecords.BoundHoldsExactly | crates/heraclitus-activation/src/lib.rs:205-223 | the bound holds at every instant exactly for records with no access, or with a time and no more times than accesses, or with no time when nothing decays |
| ActivationRecords.BoundNeedsSanity | crates/heraclitus-activation/src/lib.rs:525-553 | a restored record with two times and one access escapes it |
| ActivationRecords.BandHolds | crates/heraclitus-activation/src/lib.rs:214-219 | n never exceeds the largest count of its band, on all 64 bits |
| ActivationRecords.NMaxIsInBand | crates/heraclitus-activation/src/lib.rs:214-219 | that count is itself in the band, on all 64 bands |
| ActivationRecords.LimiteDominates | crates/heraclitus-activation/src/lib.rs:205-223 | the band's bound plus the slack, cast, is at least the cast score of every record with that key |
| ActivationRecords.LimiteMonotone | crates/heraclitus-activation/src/lib.rs:214-223 | within a band the bound does not grow as the newest instant gets older |
| ActivationTraces.AccessKeeps | crates/heraclitus-activation/src/lib.rs:42-68 | one access, filling or overwriting, keeps the record equal to its trace |
| ActivationTraces.ReplayRepresents | crates/heraclitus-activation/src/lib.rs:42-68 | after any accesses the buffer, read from the next slot, is the last min(n, 8) of them in order, and that slot is n mod 8 |
| ActivationTraces.OldestIsWindowStart | crates/heraclitus-activation/src/lib.rs:90-96 | mais_antigo is the first access of that window |
| ActivationTraces.RingScoresLikeWindow | crates/heraclitus-activation/src/lib.rs:46-59 | the circular buffer gives the raw_sum of the shifting window it replaced |
| ActivationTraces.ExactWhenShort | crates/heraclitus-activation/src/lib.rs:133-140 | up to 8 accesses raw_sum is the exact sum |
| ActivationTraces.EachAccessCounts | crates/heraclitus-activation/src/lib.rs:103-107 | wherever it stands among the others, an access adds the mass of its own age |
| ActivationTraces.RawSumWrittenOut | crates/heraclitus-activation/src/lib.rs:99-131 | beyond 8 accesses, in any order, raw_sum is the sum over the last 8 and n - 8 copies of the mean over the age range from the 8th access from the end to the first, with the ages written out |
| ActivationTraces.ApproximationError | crates/heraclitus-activation/src/lib.rs:70-79 | for accesses in time order the error is at most (n - 8) times the drop in mass from the age of the 8th access from the end to that of the first, with the ages written out |
| ActivationTraces.LimiteIsAttained | crates/heraclitus-activation/src/lib.rs:316-320 | as many accesses as a band holds, all at one time, reach the band's bound; with one access per record the bound is the score |
| ActivationTraces.RestoredExactly | crates/heraclitus-activation/src/lib.rs:525-553 | restore gives back the saved record exactly when its slot is the one n implies |
| ActivationTraces.RestoredTakesFirst | crates/heraclitus-activation/src/lib.rs:520-553 | of a snapshot that holds more times than fit the first 8 are taken, and mais_antigo is the one n points at |
| ActivationTraces.ReplaySurvivesRestore | crates/heraclitus-activation/src/lib.rs:533-553 | every record that accesses produce survives save and restore unchanged |
| Ranking.RankSorted | crates/heraclitus-activation/src/lib.rs:237-245 | the full sort lists every hit in score-descending, id-ascending order |
| Ranking.SortedUnique | crates/heraclitus-activation/src/lib.rs:406-416 | that order leaves no choice: the same hits sorted are the same list |
| Ranking.PushKeepsTop | crates/heraclitus-activation/src/lib.rs:370-376 | pushing one hit and dropping the worst beyond k gives the k best of the larger set |
| Ranking.EarlyStop | crates/heraclitus-activation/src/lib.rs:356-361 | hits that all come after the k-th best do not change the k best |
| ActivationStores.ActivationRecord.Access | crates/heraclitus-activation/src/lib.rs:42-68 | the in-place access computes the record's specification |
| ActivationStores.ActivationRecord.ChaveDeIndice | crates/heraclitus-activation/src/lib.rs:186-203 | the loop finds the newest instant, and with it the index key |
| ActivationStores.ActivationRecord.RawSum | crates/heraclitus-activation/src/lib.rs:99-131 | the accumulating loop and the tail compute the record's mass |
| ActivationStores.ListedOnce | crates/heraclitus-activation/src/lib.rs:157-163 | in a correct index no id is listed twice, in one band or in two |
| ActivationStores.DesindexedDrops | crates/heraclitus-activation/src/lib.rs:174-179 | removing an id's entry leaves a correct index of the others |
| ActivationStores.IndexedAdds | crates/heraclitus-activation/src/lib.rs:166-172 | inserting an id's entry, growing the bands if needed, leaves a correct index |
| ActivationStores.ActivationStore.Reindexar | crates/heraclitus-activation/src/lib.rs:296-301 | after an access the index holds exactly the new keys, even when the key went down |
| ActivationStores.ActivationStore.Touch | crates/heraclitus-activation/src/lib.rs:287-302 | one record changes, by one access; map and index stay in step |
| ActivationStores.ActivationStore.Score | crates/heraclitus-activation/src/lib.rs:304-309 | the logarithm of the record's mass, or nothing for an unknown id |
| ActivationStores.ActivationStore.MelhorCursor | crates/heraclitus-activation/src/lib.rs:344-352 | the chosen bound is that of the first entry left in its band and covers every entry left in every band |
| ActivationStores.UnseenScoresLow | crates/heraclitus-activation/src/lib.rs:205-223 | no record not yet visited scores above the chosen bound |
| ActivationStores.StopIsSafe | crates/heraclitus-activation/src/lib.rs:356-361 | stopping when that bound is strictly below the k-th score loses nothing and misses no tie |
| ActivationStores.ActivationStore.Escolher | crates/heraclitus-activation/src/lib.rs:342-361 | the walk ends only when the hits kept are the first k of the full sort, and goes on only in the band of the largest bound left, while that bound reaches the k-th score |
| ActivationStores.ActivationStore.Avancar | crates/heraclitus-activation/src/lib.rs:362-377 | one advance visits one new record and keeps the k best of those visited |
| ActivationStores.ActivationStore.TopK | crates/heraclitus-activation/src/lib.rs:311-385 | the early-stopping top_k is exactly the first k of the full sort: each hit's score is the cast logarithm of its record's raw_sum, the hits descend by score and then by id, and every record left out comes after all of them |
| ActivationStores.ActivationStore.TopKTotal | crates/heraclitus-activation/src/lib.rs:387-419 | partial selection, truncation and sort give the same, on every store |
| ActivationStores.TopIsMostActive | crates/heraclitus-activation/src/lib.rs:311-419 | the first k of the full sort are the k most active records, stated by raw_sum alone |
| ActivationStores.ActivationStore.Checkpoint | crates/heraclitus-activation/src/lib.rs:494-510 | the snapshot lists each record once, as saved, whatever order the map yields |
| ActivationStores.ActivationStore.Restore | crates/heraclitus-activation/src/lib.rs:512-568 | a restore replaces the map, rebuilds a correct index and takes the snapshot's watermark; without a snapshot nothing changes |
| ActivationStores.ActivationStore.Reconstruir | crates/heraclitus-activation/src/lib.rs:554-563 | indexing every record from nothing gives a correct index |
| ActivationStores.ActivationStore.Reset | crates/heraclitus-activation/src/lib.rs:586-589 | the store is empty again |
| ActivationStores.ActivationStore.Apply | crates/heraclitus-activation/src/lib.rs:570-580 | a replayed event touches at its own time and the watermark never goes back |
| ActivationStores.RestoreUndoesCheckpoint | crates/heraclitus-activation/src/lib.rs:494-568 | a checkpoint of records whose slots n implies restores the same map |
| ActivationStores.RestoredMapKeepsLast | crates/heraclitus-activation/src/lib.rs:512-553 | a restored map has the ids of the snapshot, each with its last record |
| ActivationStores.ReplayAllIsPerRecord | crates/heraclitus-activation/src/lib.rs:287-302 | after any touches, resets and restores each record is what its own remaining accesses left |
| ActivationStores.ReplayAllSane | crates/heraclitus-activation/src/lib.rs:205-213 | every record of a store so reached holds a time and no more times than accesses, the records the bound is for |
| ActivationStores.CheckpointRoundTrip | crates/heraclitus-activation/src/lib.rs:482-568 | checkpoint then restore is the identity on every store so reached |
| HybridClocks.NowStrictIff | verus/hlc.rs:25-33 | now is strictly later exactly when it need not increment a full counter |
| HybridClocks.ReceiveStrictIff | verus/hlc.rs:37-57 | receive is later than both clocks exactly when neither ties for the largest time with a full counter |
| HybridClocks.NowCanGoBack | verus/hlc.rs:25-33 | a full counter makes now return an earlier clock |
| HybridClocks.ReceiveCanGoBack | verus/hlc.rs:37-57 | a message with a full counter makes receive return a clock earlier than both |
| HybridClocks.ExecuteStamps | verus/hlc.rs:25-57 | stepping all nodes event by event gives each event the clock its direct causes determine |
| HybridClocks.NodeClocksIncrease | verus/hlc.rs:23-33 | in every run each node's clocks strictly increase |
| HybridClocks.CausalityOrdersClocks | verus/hlc.rs:35-57 | in every run, happened-before implies a strictly smaller clock |
| HybridClocks.PastIsHappensBefore | verus/hlc.rs:35-57 | the causal past built step by step is the transitive closure of happened-before |
| HybridClocks.PhysicalPartIsMaximum | verus/hlc.rs:30-43 | l is exactly the largest physical reading or initial l of the causal past |
| HybridClocks.CounterBound | verus/hlc.rs:31-54 | c is below the number of causal-past events and initial clocks with the same l |
| HybridClocks.MachineIsUnbounded | lean/README.md:10-11 | while events and nodes stay within 2^64, u64 clocks are the ideal clocks: no counter wraps |
| HybridClocks.MachineCausality | verus/hlc.rs:23-57 | so on u64 causality orders the clocks of every such run |
| HybridClocks.StandstillCounts | verus/hlc.rs:31-31 | the bound is tight: a node whose physical clock stands still counts every event |
| Components.SameComponents | console/server_v3.py:122-132 | links that connect each other's ends connect the same nodes |
| Components.LabelComponents | console/server_v3.py:175-187 | the search ends, labels every node, gives two nodes one group exactly when a path joins them, and uses the numbers 1 to g |
| Components.Visit | console/server_v3.py:182-187 | one pop keeps the labelled set inside one component and the stack covering its edge |
| AnalysisGraphs.StarsConnectLikePairs | console/server_v3.py:120-132 | a star per shared value connects what linking every pair of its members would |
| AnalysisGraphs.GraphBuilder.Link | console/server_v3.py:107-112 | one undirected link in the adjacency and one edge more, nothing for a loop |
| AnalysisGraphs.LinkProvenance | console/server_v3.py:114-118 | every parent inside the window is linked, once per mention and in order, and nothing else |
| AnalysisGraphs.Buckets | console/server_v3.py:122-125 | one bucket per entity value, with its members in window order, the values in the order they first occur |
| AnalysisGraphs.LinkEntities | console/server_v3.py:127-132 | the links and edges are the stars of the values shared by 2 to 150 nodes, in that order |
| AnalysisGraphs.LinkPersisted | console/server_v3.py:141-173 | a persisted edge is linked and listed exactly when both ends are in the window and differ |
| AnalysisGraphs.ValuesByFirstRow | console/server_v3.py:122-127 | the values are taken in the order in which rows first have them |
| AnalysisGraphs.LinksOfRows | console/server_v3.py:89-173 | what relates the nodes is what relates the rows: a row's parent that is the id of a row, a value that 2 to 150 rows with an id have, a persisted edge between the last rows of two positions |
| AnalysisGraphs.EdgesOfRows | console/server_v3.py:114-173 | the edges are, source after source, the parents, the first row of each shared value to each later one, and the persisted edges, of the rows |
| AnalysisGraphs.Analyze | console/server_v3.py:89-189 | on the rows: the ids of the rows are grouped exactly by the paths that parents, shared values and persisted edges make, in groups 1 to g, and the edges are those of the three sources, in this order |
| FraudGraphs.AnchorsConnectLikePairs | console/server.py:87-99 | an anchor per case connects what linking all pairs of the case would |
| FraudGraphs.FraudBuilder.Link | console/server.py:71-78 | at most one edge per unordered pair of different nodes |
| FraudGraphs.SortByLsn | console/server.py:91-91 | the nodes in order of position, those of one position in their own order |
| FraudGraphs.FindAnchors | console/server.py:90-94 | the anchor of each case is its first node by position, and by order on a tie |
| FraudGraphs.LinksOfRows | console/server.py:59-100 | what relates the nodes is what relates the rows: provenance inside the window and a common case |
| FraudGraphs.Fraudes | console/server.py:59-113 | on the rows: the ids of rows with a case are grouped exactly by the paths that provenance and common cases make; the edges are provenance and anchors, each pair at most once; no case is split |
| Correlations.Frequencies | console/server_v3.py:276-279 | the counter is the number of nodes having each feature |
| Correlations.Invert | console/server_v3.py:280-285 | the index lists, in order, the nodes of each feature of frequency 2 to cap, and no other feature |
| Correlations.AddFeature | console/server_v3.py:295-299 | the double loop adds a feature once to each pair of its members and to no other pair |
| Correlations.Accumulate | console/server_v3.py:291-299 | one feature of the index, skipped or added, keeps the pairwise definition |
| Correlations.Correlate | console/server_v3.py:276-299 | every unordered pair, once, lists exactly the counting features both nodes share, each once |
| Correlations.PairWeight | console/server_v3.py:287-299 | its weight is the sum of idf over those features |
| Correlations.NamedInCounts | console/server_v3.py:280-299 | an entry names a feature exactly when both nodes have it and from 2 to 40 nodes, and no more than 3 or a tenth of them, do |
| Correlations.WeightsInCounts | console/server_v3.py:287-299 | each with the weight log((N + 1) / df) in counts of nodes |
| Correlations.RarerWeighsMore | console/server_v3.py:287-288 | the rarer of two features weighs more |
| Approvals.AuthorizesExactly | crates/heraclitus-agent/src/action.rs:486-544 | an attempt is authorized exactly when the first approval of its subject is granted and nothing has expired |
| Approvals.NotFoundExactly | crates/heraclitus-agent/src/action.rs:490-523 | an action is new exactly when its subject and request are unknown and its subject was never used |
| Approvals.VerdictsExactly | crates/heraclitus-agent/src/action.rs:486-544 | each of the other five answers, from the store before the attempt: pending, denied, expired or used as the first record of the subject is, used too if the subject was, and otherwise a mismatch with the first record of the logical request |
| Approvals.ConsumeLeaves | crates/heraclitus-agent/src/action.rs:486-544 | an attempt consumes its record and subject, or expires a grant presented too late, and changes nothing else but what time expires |
| Approvals.DecidesExactly | crates/heraclitus-agent/src/action.rs:440-479 | a decision is accepted exactly when it is about the subject of an approval still pending, and changes that record alone |
| Approvals.AdmitsExactly | crates/heraclitus-agent/src/action.rs:388-437 | a request is refused exactly when its subject is not waiting and a ceiling is reached; otherwise its subject waits under the id returned |
| Approvals.RequestLeaves | crates/heraclitus-agent/src/action.rs:388-437 | a new record is the request itself, pending and undecided; a subject already waiting keeps its first record; nothing else changes but what time expires |
| Approvals.ConsumeKeeps | crates/heraclitus-agent/src/action.rs:486-544 | what is granted or used after an attempt was granted by a human before it |
| Approvals.UsedAtMostOnce | crates/heraclitus-agent/src/action.rs:486-544 | over any sequence of requests, decisions and uses at any times, an approval is used at most once |
| Approvals.RequestStaysWithin | crates/heraclitus-agent/src/action.rs:385-437 | admission never passes either ceiling nor queues one subject twice |
| Approvals.DecideStaysWithin | crates/heraclitus-agent/src/action.rs:440-479 | a decision keeps the queue within its ceilings |
| Approvals.ConsumeStaysWithin | crates/heraclitus-agent/src/action.rs:486-544 | so does an attempt to use an approval |
| Approvals.ApprovalStore.ExpireLocked | crates/heraclitus-agent/src/action.rs:593-601 | in place, exactly the pending and granted records whose time has come expire |
| Approvals.ApprovalStore.Find | crates/heraclitus-agent/src/action.rs:490-494 | the search finds the first matching record in id order, or that there is none |
| Approvals.ApprovalStore.Request | crates/heraclitus-agent/src/action.rs:388-437 | the in-place request computes the store function the lemmas are about |
| Approvals.ApprovalStore.DecideOn | crates/heraclitus-agent/src/action.rs:440-479 | likewise the decision |
| Approvals.ApprovalStore.Use | crates/heraclitus-agent/src/action.rs:486-544 | likewise the use |
| Admissions.Admit | crates/heraclitus-agent-gateway/src/gateway.rs:120-166 | the checks at the door, in order: a correlation header over 512 bytes, a rejected identity, a nonempty body that is not valid JSON; the first that fails gives the status, and no other request is turned away |
| Gateways.RunKeeps | crates/heraclitus-agent-gateway/src/gateway.rs:322-712 | every interleaving of requests, decisions and time keeps the invariants |
| Gateways.NothingForwardedUnrecorded | crates/heraclitus-agent-gateway/src/gateway.rs:379-712 | in enforce mode a forwarded call passed the door and was recorded first, and is unblocked, or a human approved its subject and the recorded use came after |
| Gateways.OneUsePerApproval | crates/heraclitus-agent-gateway/src/gateway.rs:496-528 | over every run an approval is used by at most one request |
| Gateways.OneForwardPerApproval | crates/heraclitus-agent-gateway/src/gateway.rs:496-711 | and lets at most one call through |
| Gateways.ForwardsWithinGrants | crates/heraclitus-agent-gateway/src/gateway.rs:447-711 | approval-gated calls forwarded are never more than approvals granted |
| Gateways.EnforceRefusesForCause | crates/heraclitus-agent-gateway/src/gateway.rs:379-712 | in enforce mode a call answered without being forwarded failed a check at the door, was blocked by policy, lacked its approval, could not be recorded, or found no upstream |
| Gateways.ShadowRefusesExactly | crates/heraclitus-agent-gateway/src/gateway.rs:120-466 | outside enforce a finished tool call was forwarded if and only if it passed the door, is not an approval-gated call without a usable id in shadow, and reached an upstream |
| Gateways.ShadowRefusesBlankIds | crates/heraclitus-agent-gateway/src/gateway.rs:454-466 | an admitted call of that kind is answered 400 at its fourth step and never forwarded |
| Gateways.DoorRefuses | crates/heraclitus-agent-gateway/src/gateway.rs:120-166 | in every mode a call that fails a check at the door is answered with that check's status at its first step, and nothing is recorded |
| Gateways.EveryCallFinishes | crates/heraclitus-agent-gateway/src/gateway.rs:322-712 | whatever others do, a call is answered or delivered after at most ten steps of its own, if identifiers are fresh |
| CallStories.EveryCallHasItsStory | crates/heraclitus-agent-gateway/src/gateway.rs:120-712 | in every mode a finished call left exactly one of the stories written out: its own records, verdict, forwarding and status, in their order |
| CallStories.DenialsAreRecorded | crates/heraclitus-agent-gateway/src/gateway.rs:425-667 | in enforce mode a call denied by policy or by an unusable approval has ToolDenied recorded before its 403 |
| CallStories.ForwardsAreFramed | crates/heraclitus-agent-gateway/src/gateway.rs:379-712 | a forwarded call was recorded as requested, evaluated outside observe, and started before, and as finished after once delivered |
| CallStories.EveryCauseHasItsStatus | crates/heraclitus-agent-gateway/src/gateway.rs:390-712 | in enforce mode an unrecorded call gets 500, a rate-limited one 429, one without a usable id 400, and one that reaches no upstream has ErrorObserved recorded before its 502 |
| CallStories.EveryVerdictHasItsStatus | crates/heraclitus-agent-gateway/src/gateway.rs:496-667 | in enforce mode a joined approval gets 202, an opened one 202 after HumanApprovalRequested, a full queue 429 after ToolDenied, an unrecorded authorization 500, and an unusable approval 403 after ToolDenied |
| CallStories.AuthorizedExactly | crates/heraclitus-agent-gateway/src/gateway.rs:476-496 | a call is authorized exactly when the first approval of its subject is granted and in time, unless policy gives authorizations no time |
| CallStories.WaitingIsAccepted | crates/heraclitus-agent-gateway/src/gateway.rs:530-545 | a call whose subject's first approval is waiting is answered 202 and nothing is denied |
| CallStories.DeniedIsForbidden | crates/heraclitus-agent-gateway/src/gateway.rs:640-667 | one whose subject's first approval was denied has its denial recorded and gets 403 |
| CallStories.OpensItsRequest | crates/heraclitus-agent-gateway/src/gateway.rs:546-578 | a call that finds nothing asks for an approval of its own subject, agent and logical request for as long as policy says, or joins the one waiting |
| Gateways.QueueStaysBounded | crates/heraclitus-agent-gateway/src/gateway.rs:573-578 | however requests race, the approval queue stays within both ceilings, one request per subject |
| SubjectUses.OneUsePerSubject | crates/heraclitus-agent-gateway/src/gateway.rs:496-578 | while each new approval id exceeds the used ones of its own subject, no subject is authorized twice in any run |
| SubjectUses.UsableAgainExactly | crates/heraclitus-agent-gateway/src/gateway.rs:496-578 | after such a run has used a subject under id a, opening its next record under b lets it be authorized again, in some continuation of that kind, if and only if b < a |
| SubjectUses.OutOfOrderUsesTwice | crates/heraclitus-agent-gateway/src/gateway.rs:496-578 | with ids out of order, two calls that both found nothing open two records, and the subject is authorized twice |
| MethodNames.ReplaceKeepsCollapse | crates/heraclitus-agent-gateway/src/gateway.rs:218-220 | a replacement pass does not change the collapsed name |
| MethodNames.CollapseSlashes | crates/heraclitus-agent-gateway/src/gateway.rs:218-220 | the replacement loop ends and equals one pass that collapses each run of slashes |
| MethodNames.CanonicalSpelling | crates/heraclitus-agent-gateway/src/gateway.rs:71-77 | for a canonical name trimming and slash or escape replacement do nothing |
| MethodNames.Classify | crates/heraclitus-agent-gateway/src/gateway.rs:195-312 | a canonical name other than the tool call is refused exactly when its lowercased, collapsed form is the tool call or below it; then control, data and unknown methods by mode |
| MethodNames.ControlIsNotConfusable | crates/heraclitus-agent-gateway/src/gateway.rs:79-90 | no allowed control method reads as a tool call |
| MethodNames.EnforcedNames | crates/heraclitus-agent-gateway/src/gateway.rs:195-312 | in enforce mode only canonical allowed control methods pass besides the tool call, the rest denied if that could be recorded; nothing is denied for its kind in another mode; nothing that reads as a tool call passes in any mode |
| MethodNames.SpellingsAreRefused | crates/heraclitus-agent-gateway/src/gateway.rs:205-228 | any letter case of tools/call, with any number of slashes and any canonical path after it, is refused in every mode unless it is exactly that |
| MethodNames.CapitalsAreRefused | crates/heraclitus-agent-gateway/src/gateway.rs:205-228 | Tools/Call is refused in every mode, tools/call is not |
| Credentials.CtEq | crates/heraclitus-agent-gateway/src/auth.rs:60-69 | the accumulated difference is zero exactly on equal bytes |
| Credentials.B64 | crates/heraclitus-agent-gateway/src/auth.rs:75-99 | the chunk loop computes the encoding the lemmas are about |
| Credentials.EncodedLength | crates/heraclitus-agent-gateway/src/auth.rs:75-99 | four characters for every three bytes, rounded up |
| Credentials.DecodeUndoesEncode | crates/heraclitus-agent-gateway/src/auth.rs:71-99 | a section 4 of RFC 4648 decoder undoes the encoding of every input |
| Credentials.EncodeUndoesDecode | crates/heraclitus-agent-gateway/src/auth.rs:71-99 | what that strict decoder accepts is the encoding of what it returns |
| Credentials.DecodesExactly | crates/heraclitus-agent-gateway/src/auth.rs:71-99 | a text decodes to the input exactly when it is the input's encoding |
| Credentials.Vectors | crates/heraclitus-agent-gateway/src/auth.rs:71-99 | the encodings of section 10 of RFC 4648 for up to three bytes |
| Credentials.Parse | crates/heraclitus-agent-gateway/src/auth.rs:122-132 | a pair is accepted exactly when both parts around the first colon are nonempty |
| Credentials.Matches | crates/heraclitus-agent-gateway/src/auth.rs:138-141 | a header matches exactly when it is the expected one |
| Credentials.AcceptedHeader | crates/heraclitus-agent-gateway/src/auth.rs:122-141 | the expected header is "Basic " and a text that decodes to the pair, as section 2 of RFC 7617 says, and no other header is |
| Credentials.HeadersDiffer | crates/heraclitus-agent-gateway/src/auth.rs:122-141 | distinct user and password pairs have distinct headers |
| FlatLoaders.Loader.LoadRow | demo/etl_flat.py:169-177 | a row is appended, and the checkpoint saved after each multiple of 5000; the process dies at the first of these it has no energy for |
| FlatLoaders.Loader.LoadFolder | demo/etl_flat.py:139-183 | a load performs its plan, from the checkpoint it read, as far as the process lives: the nonempty rows after the checkpoint in order, a save at every 5000th and one at the end; early returns do nothing |
| FlatLoaders.LoadIsLoaded | demo/etl_flat.py:139-183 | wherever a load dies, it has appended the rows after the checkpoint up to some row, each once and in order, and loses at most 5000 rows of progress; one that lives appended them all and saved |
| FlatLoaders.Loader.Run | demo/etl_flat.py:211-214 | a run loads the folders in order, each from the checkpoint the last one left, and ends at the first crash |
| FlatLoaders.RunIsRun | demo/etl_flat.py:139-214 | so every run of the process, dying after any number of actions, is one the results below speak of |
| FlatLoaders.RunKeeps | demo/etl_flat.py:139-183 | every run keeps saved rows loaded and repetitions within the crashes so far |
| FlatLoaders.EveryRowIsLoaded | demo/etl_flat.py:139-183 | after k crashes and a completed run every nonempty row is there at least once and at most 1 + k times, and the log has at most 5000 k entries too many |
| FlatLoaders.EveryLineIsLoaded | demo/etl_flat.py:144-183 | so is every nonempty line after the header of every file, under its own number |
| FlatLoaders.OnlyLinesAreLoaded | demo/etl_flat.py:144-183 | and nothing but such lines is ever in the log |
| FlatLoaders.FurtherRunsAppendNothing | demo/etl_flat.py:161-183 | after a completed run further runs append nothing, even if they die |
| FlatLoaders.ResumesWithoutDuplicates | demo/etl_flat.py:14-15 | after any crashes and a completed run every row is loaded exactly once if and only if every crash left no row in the log past its file's checkpoint |
| FlatLoaders.ResumeCanDuplicate | demo/etl_flat.py:14-15 | a process that dies after one action and another with two load the only row of a file twice |
| QuestionSampler.Group | bench/locomo/run_qa.py:105-109 | one bucket per category, each with its questions in order, the categories in the order they first occur |
| QuestionSampler.EvidenceIsKept | bench/locomo/run_qa.py:106-106 | the questions with evidence are kept as often as they occur, and no others |
| QuestionSampler.CategoriesByFirst | bench/locomo/run_qa.py:107-116 | the order of the categories is the order of their first questions |
| QuestionSampler.VisitsAre | bench/locomo/run_qa.py:114-120 | each bucket has had the full rounds, plus one turn if it is early in the unfinished one |
| QuestionSampler.TurnIsRemainder | bench/locomo/run_qa.py:117-117 | the rotation is the remainder of the turn number |
| QuestionSampler.RoundRobin | bench/locomo/run_qa.py:113-121 | the loop ends; each bucket gives up its last questions, one per visit; the picks are as many as wanted and available, fair at every prefix |
| QuestionSampler.SampleQa | bench/locomo/run_qa.py:105-121 | min(per_conv, questions with evidence) picks, none twice, category counts the minimum of size and visits in the categories' order, no category more than one ahead of an unexhausted one |
| RankFusion.Rrf | bench/locomo/run_embed.py:98-104 | every id of the union once, by score, ties in order of first appearance |
| RankFusion.Wrrf | bench/locomo/run_embed.py:152-159 | the same with weights |
| RankFusion.SortedUnique | bench/locomo/run_embed.py:104-104 | that description determines the fused list |
| RankFusion.FusionRespectsRankings | bench/locomo/run_embed.py:98-104 | with weights that are not negative, if every ranking that lists b lists a before it, a comes before b |
| RankFusion.OneAgainstTwo | bench/locomo/run_embed.py:98-104 | an id that one ranking lists at rank i comes before one that two others list at ranks j and k exactly when w / (k0 + i + 1) is at least the sum of their shares |
| RankFusion.EqualWeightsAreUnweighted | bench/locomo/run_embed.py:152-159 | one positive weight for every ranking gives the unweighted order |

## Left out

- IEEE floating point: scores are reals; the early stop is proved for every monotone rounding to `f32` and every logarithm within the slack of the exact law, and the rounding of sums is not modelled.
- ActivationStores.ActivationStore.Touch: requires fewer than 2^64 accesses per record, because the source's counter would overflow there.
- ActivationStores.ActivationStore.TopK: on the early-stop path it promises exactness for records that hold a time and no more times than accesses, which are all a store's own operations leave; a foreign snapshot can break the bound, as BoundHoldsExactly says, or hold records without accesses, whose score of minus infinity is not a real number.
- ActivationTraces.ApproximationError: asks that tail means lie between the masses, which the mixed branch for d within 1e-12 of 1 does only approximately.
- `spread`, `len`, memory estimates and the file format of checkpoints: nothing in them is hard.
- `select_nth_unstable_by`, `BinaryHeap`, `BTreeSet` and `sort_by` are modelled by simple code that meets their documented contracts.
- Locks: each store method is one step, as its single lock makes it.
- HybridClocks: messages carry the clock of any earlier event, which covers loss, delay, duplication and reordering; physical clocks are arbitrary.
- AnalysisGraphs.Analyze: edge labels, scores and counters, the focus highlight and which attribute identifies an entity are not modelled.
- FraudGraphs.Fraudes: what the database answers for provenance is a parameter.
- `suggest` of the first console, the second console and the fusion of the MCP server repeat code modelled here or, for `suggest`, weigh some pairs twice.
- Correlations.Correlate: feature extraction, the score threshold and the list of best pairs are left out; a node is its set of features.
- Approvals.ApprovalStore.Request: the two capacity errors are one refusal, and which of them is reported is not modelled.
- Approvals.ApprovalStore.DecideOn: the error kinds of a refused decision are one refusal.
- Approvals: rebuilding the store after a restart (`warm`, `warm_consumed`) and empty request ids, which the gateway never produces.
- Gateways: the policy engine's verdict and the outcomes of the identity check and of JSON validation are parameters of each call; deduplication decides only whether a write counts as accepted; identifiers from ULIDs are assumed fresh; HTTP, redaction, counters and evidence contents are not modelled. An upstream that is reached but whose answer is lost counts as forwarded.
- Gateways.ShadowRefusesExactly: what the HTTP framework rejects before the handler runs, such as an oversized body, is not modelled.
- Gateways.NothingForwardedUnrecorded: concerns tool calls; non-tool methods are classified by MethodNames.
- Credentials: strings are their bytes; timing is not modelled.
- FlatLoaders: retries inside one append are one atomic append, since whether a failed attempt stored the event is unknowable; row contents are the cells, without the derived attributes; `glob` order is the order of the folders given.
- QuestionSampler: the shuffle is any reordering.
- RankFusion: ids are strings compared for equality.
