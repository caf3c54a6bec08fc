# PathProfiler, verified

PathProfiler is a daemon that measures the BGP paths of a router and steers FRR by local-preference. Each
tick it reads per-CPU packet counters, probes candidate next hops, ranks the candidates of every prefix,
compiles one route-map per neighbour, sends it to FRR through vtysh, and remembers what was applied. This
project models that loop in Dafny, and the router it drives, and proves what the loop guarantees.

The model has five parts.

- **The route-map compiler and its machine.** `Router` is a small FRR: commands, sessions, prefix-lists,
  route-maps, bindings, first-match evaluation with the implicit final deny, and the two hazards the daemon
  must avoid (freeing a route-map that is bound, freeing a prefix-list that is referenced). Re-declaring a
  sequence may or may not keep an old `set`, detaching may or may not insist on the map's name, and numbers
  FRR does not accept abort the session; every theorem holds for all these dialects. A vtysh session may die
  after any command, and the daemon may be restarted and lose its slot counts. `Actuate`, `TierScripts`,
  `Compilation`, `Invariant`, `Isolation`, `Interrupted`, `Restart` and `Runs` prove the scripts of
  SetNeighborTiers and RemoveNeighborTiers; `RunningConfig`, `Normalization` and `Startup` print, parse and
  clean. `Names`, `Addresses`, `Octets` and `Text` carry the text-level facts those proofs need; `Example` has
  concrete neighbours, prefixes and runs, and `Literal` literal names, scripts and lines.
- **The packet program.** `Bloom` and `Transit` prove the generation-tagged, double-buffered filter against
  the plain history of packets, and how long a key is remembered.
- **The ranking.** `Score`, `Rank` and `Decision` collapse, rank and regroup; `Averages` and `Cheapest` say what
  that means in the numbers of the candidates; `Iteration` carries the decision through to the routes FRR
  accepts, and `Preference` compares them across neighbours.
- **The tick.** `Tick`, `Mirror`, `History` and `Active` are the state that survives between ticks: the dampener,
  the set of applied neighbours, the mirror of active neighbours.
- **The statistics.** `Counters` (per-CPU sums and deltas), `Metrics` (ring buffer and smoothing), `Smoothing`
  (how fast it follows), `Passive` (from packets to published loss rates), `Inside` (readings taken inside
  packets), `Wilson`, `Sprt`, `Likelihood`, `Accumulator`, `Fading`, `Probing`, `Reach` (which verdicts are
  possible), and the lookup of `Rib`.

Code that changes state step by step is a class or a method with loops, proved against a function or a
predicate on values; the theorems are lemmas about those. Real numbers stand for floating point. `sqrt`,
`log` and `exp` are parameters about which only these facts are assumed: a square root is not negative and
squares back; the logarithm is strictly increasing, 0 at 1, and at most x - 1; the exponential is positive,
at most 1 up to 0 and at least 1 from there; and, where a statement is about products, that the logarithm of a
product is a sum (`Likelihood`) and the exponential of a sum a product (`Fading`, `Smoothing`). The clock, the
outcome of each vtysh session, the text of `show running-config` and `net.ParseIP` on non-IPv4 text are
parameters too. A map that Go walks in random order is walked by choosing any remaining key.

What the proofs showed about the code, beyond what it promises:

- Slugs collide in general ("10.0.0.1" and "10.0.0/1"); among IPv4 addresses and among canonical IPv4
  prefixes they do not (`Names.SanitizeKernel`, `Names.MapNameInjective`, `Names.ScopeListInjective`).
- The slot count of a neighbour grows before vtysh runs and never shrinks, so one update of more than 6553
  prefixes fails and makes every later update of that neighbour fail while the process runs
  (`Runs.OversizedForever`).
- A daemon whose startup normalization failed runs on without slot counts. It still frees nothing in use and
  denies nothing (`Runs.RunSafe`), and an update still gives what it lists; but it delivers exactly only if no
  sequence above the rewritten slots sets a preference (`Restart.DeliversIff`), and a run in which one does is
  `Example.StaleRun`.
- Normalization frees something in use exactly when an owned map is applied outbound or by something that
  is not an IP neighbour, or when a map that stays matches on an owned list (`Normalization.NormalizeHazards`);
  a peer-group is such a case (`Example.PeerGroupHazard`).
- A drained neighbour is removed once; if that session dies before the detach, the binding stays and the
  daemon no longer knows of it (`Tick.TickEffects`).
- The configuration only checks that tiers differ. With the dedicated tier above the local one, the two best
  paths share the top tier (`Rank.TopTierSharedWhenMisordered`).
- A comment says that a challenger whose tie would need more than 100% loss is treated as always better. It
  is never judged: a verdict is possible if and only if the active composite lies strictly between the
  challenger's cost without loss and with full loss, up to the clamps (`Reach.VerdictExactly`), and an active
  composite of 1000 against an RTT of 400 is outside (`Reach.FastChallengerNeverJudged`).
- User space reads the counters at any moment, and the packet program counts a segment before its retransmit.
  A reading inside a retransmitted packet makes the next delta a retransmit without a segment
  (`Inside.RetransmitWithoutSegment`), and the published instant rate exceeds 1 exactly when fewer first
  transmissions lie in its window than retransmits were counted late (`Inside.RateExceedsOne`).
- A comment calls the rewrite of a route-map atomic. It is one session but not one step: an update that dies in
  it can leave a prefix with neither its old nor its new tier (`Interrupted.NeitherOldNorNew`), though never with
  a preference from elsewhere (`Interrupted.UnfinishedUpdate`).
- With a suppressed update two neighbours can hold the top tier for one prefix (`Preference.TwoHoldTop`).
- The Wilson width is symmetric in losses and survivals except at the ends, where the all-lost sentinel
  breaks it (`Wilson.SentinelBreaksSymmetry`).
- The filter forgets nothing across a silence, because a roll needs a packet
  (`Transit.RememberedAcrossSilence`).
- A prefix shorter than a scope network is in scope when its network address is, although it reaches beyond
  (`Rib.ScopeReach`).

## Model

| member | source | states |
|---|---|---|
| Runs.RunSafe | internal/actuate/actuate.go:150-425 | From a clean router, over any sequence of updates, removals, normalizations and restarts, each script of which may die after any command and each restart of which loses the slot counts: no bound route-map and no referenced prefix-list is ever freed, and no route through an owned map is ever denied |
| Runs.RunThenUpdate | internal/actuate/actuate.go:150-206 | After any such run, a successful update gives its neighbour's routes exactly the local-preferences it lists; all others pass unchanged, unless the counts were lost and no normalization succeeded since, when they get what the first sequence above the rewritten slots says; every other neighbour's verdicts are as they were |
| Compilation.SetTiersMeaning | internal/actuate/actuate.go:122-206 | Compiler correctness from any state the invariant allows: the update succeeds if and only if vtysh outlives the script and FRR accepts its numbers, and then the bound map evaluates to exactly the assignment |
| Compilation.SetTiersSafe | internal/actuate/actuate.go:135-149 | Wherever the session of an update dies, the invariant holds, with lost slot counts too, and no command of the script frees anything in use |
| Interrupted.UnfinishedUpdate | internal/actuate/actuate.go:176-206 | Wherever the session of an update dies, a route of its neighbour is treated as before, or accepted unchanged, or with a local-preference that the map held before or that the update lists |
| Interrupted.OldPreferenceForNewPrefix | internal/actuate/actuate.go:179-183 | Where re-declaring keeps the clauses, an update that dies between match and set gives the new prefix the old slot's preference |
| Interrupted.NoPreferenceAtAll | internal/actuate/actuate.go:179-183 | Where re-declaring clears them, an update that dies on entering its first slot lets every route pass unchanged |
| Interrupted.NeitherOldNorNew | internal/score/rank.go:256-259 | In every dialect, after a finished update some interrupted one leaves a prefix with neither what it got before nor what the update lists |
| Compilation.SetTiersListed | internal/actuate/actuate.go:150-206 | When an update succeeds, and that the prefixes it lists get exactly their preferences, does not depend on what the daemon forgot |
| Compilation.RemoveTiersSafe | internal/actuate/actuate.go:239-259 | The same for a removal: the map is detached before it is deleted |
| Compilation.RemovalMeaning | internal/actuate/actuate.go:239-259 | A removal succeeds if and only if its session lives through all six commands; then its map and its binding are gone, every route of the neighbour passes as it came, and nothing else has changed |
| Compilation.InstalledMeaning | internal/actuate/actuate.go:124-133 | Slots in sequence order, inert slots and the catch-all evaluate to the first mention of a prefix, or pass the route |
| Compilation.DetachedUnbound | internal/actuate/actuate.go:249-252 | After its own neighbour's detach nothing applies a removed map, because no other neighbour has its name |
| Example.FirstUpdate | internal/actuate/actuate.go:150-206 | On an empty router, in every dialect, a first update with one prefix does go through and gives that prefix, and no other, its local-preference: the premises of the theorems can be met |
| Literal.QuadMapName | internal/actuate/actuate.go:155-155 | The route-map of neighbour a.b.c.d is PATHPROFILER-a-b-c-d |
| Literal.PrefixListName | internal/actuate/actuate.go:169-172 | The prefix-list of a.b.c.d/l is PATHPROFILER-SCOPE-a-b-c-d-l |
| Literal.OnePrefixScript | internal/actuate/actuate.go:158-199 | The script for one prefix, command by command and with literal sequence numbers |
| Literal.SlotCount | internal/actuate/actuate.go:108-120 | 32 slots at first; 33 preferences make them 33, and fewer later leave them so |
| Literal.ReadsBinding | internal/actuate/actuate.go:285-308 | A literal binding line is read as one |
| Literal.ReadsMap | internal/actuate/actuate.go:315-333 | So is a literal route-map line |
| Literal.ReadsList | internal/actuate/actuate.go:338-357 | And a literal prefix-list line |
| Invariant.StepKeeps | internal/actuate/actuate.go:124-149 | Every command that obeys the discipline of the scripts keeps the invariant: owned maps all-permit with only slots and catch-all, lists exact, bindings complete and their neighbour's own |
| Invariant.NeverDenied | internal/actuate/actuate.go:131-133 | Under the invariant no session with an owned map reaches the implicit deny |
| TierScripts.TierScriptRun | internal/actuate/actuate.go:158-199 | The whole script, run on any configuration under the invariant, is disciplined, completes exactly when its numbers fit, and then has installed the update |
| TierScripts.SlotBlocksRun | internal/actuate/actuate.go:176-188 | The slot loop rewrites exactly the first n slots and no other clause |
| Isolation.OthersUnaffected | internal/actuate/actuate.go:34-37 | No update or removal for one neighbour, however it ends, changes another neighbour's verdicts |
| Isolation.SetTouches | internal/actuate/actuate.go:150-206 | An update changes only its own map and binding, and adds only owned lists |
| Runs.OversizedForever | internal/actuate/actuate.go:104-120 | An update of more than 6553 prefixes fails, and after it every update of that neighbour fails, however small, through any updates and removals of the process |
| Restart.RestartMeaning | cmd/daemon/main.go:217-230 | Whatever counts were lost, a successful update gives listed prefixes their preferences and any other prefix exactly what the sequences above the rewritten slots said before the call |
| Restart.DeliversIff | internal/actuate/actuate.go:359-364 | Such an update delivers exactly if and only if, for every unlisted prefix, the first sequence above the rewritten slots that applied to it before the call set no preference |
| Restart.StaleSlotDecides | internal/actuate/actuate.go:359-364 | A stale slot with a preference decides, with its old local-preference |
| Restart.StaleAfterRestart | cmd/daemon/main.go:217-230 | An update beyond the minimum of slots, a restart, a small update: every prefix beyond the minimum that the small update does not list keeps the preference of the big one |
| Example.ExampleNeighbor | internal/actuate/actuate.go:38-41 | A concrete neighbour that the model admits |
| Example.PrefixNoLegal | internal/actuate/actuate.go:28-32 | 256 concrete prefixes that the model admits |
| Example.StaleRun | cmd/daemon/main.go:217-230 | Such runs from an empty router: an update with `n` prefixes (33, say), a restart, an update with the first `m` of them (one, say); an unlisted prefix `k` beyond the slot minimum still gets 300 |
| Actuate.Actuator.SlotsFor | internal/actuate/actuate.go:108-120 | The count is at least 32, at least what is needed, never smaller than before, and stored |
| Actuate.Actuator.SetNeighborTiers | internal/actuate/actuate.go:150-206 | The method's effect on router and counts is the world function the theorems are about |
| Actuate.Actuator.RemoveNeighborTiers | internal/actuate/actuate.go:239-259 | Likewise for the removal |
| Actuate.WriteTierScript | internal/actuate/actuate.go:158-199 | The two loops write list declarations, slot blocks, catch-all and binding, in this order |
| Names.SanitizeRouteMapName | internal/actuate/actuate.go:210-221 | The loop replaces dots and slashes, character by character |
| Names.SanitizeKernel | internal/actuate/actuate.go:210-221 | Two texts get the same slug if and only if they differ at most in which separator stands where |
| Names.NamesCollideInGeneral | internal/actuate/actuate.go:210-221 | A concrete collision of two different texts |
| Names.MapNameInjective | internal/actuate/actuate.go:155-155 | Different IPv4 neighbours have different route-maps |
| Names.ScopeListInjective | internal/actuate/actuate.go:169-172 | Different canonical IPv4 prefixes have different prefix-lists |
| Startup.NormalizeStartup | internal/actuate/actuate.go:359-425 | Print, parse and clean: whichever printed form of a configuration is read, if its owned maps are bound only inbound and only to IP neighbours, a normalization that succeeds leaves exactly what is not the daemon's, exact slot counts and no unknown binding, and returns the number of claimed neighbours |
| Startup.Boot | cmd/daemon/main.go:215-231 | A daemon started over the router of an earlier process is valid in any case; if the normalization succeeded it knows its slot counts and all bindings |
| Normalization.NormalizeCleans | internal/actuate/actuate.go:397-425 | From the bindings, maps and lists that were extracted: a complete script frees nothing in use, leaves nothing owned and everything foreign as it was, and there is one binding per claimed neighbour |
| Normalization.NormalizeHazards | internal/actuate/actuate.go:365-370 | The script frees nothing in use if and only if the maps it deletes have no other users and the lists it deletes are not matched by maps that stay |
| Example.PeerGroupHazard | internal/actuate/actuate.go:298-304 | A configuration with an owned map applied by a peer-group: the parser finds no binding, and the script deletes the map in use |
| Normalization.NormalizeSafe | internal/actuate/actuate.go:371-425 | In a running daemon's router a normalization may die anywhere and the invariant survives |
| Normalization.NormalizeApplied | internal/actuate/actuate.go:371-425 | The method: no effect when the configuration cannot be read; otherwise the world function applied to what the three parsers extracted, which for any printed configuration is that configuration's owned part; counts reset only on success; returns the number of bindings on success and 0 otherwise |
| RunningConfig.ParseAppliedBindings | internal/actuate/actuate.go:285-308 | Some sorted permutation, by map name, of the bindings on the lines |
| RunningConfig.ParseAppliedRouteMaps | internal/actuate/actuate.go:315-333 | The sorted duplicate-free list of the owned route-maps on the lines |
| RunningConfig.ParseAppliedPrefixLists | internal/actuate/actuate.go:338-357 | The sorted duplicate-free list of the owned prefix-lists on the lines |
| RunningConfig.SortedNamesUnique | internal/actuate/actuate.go:327-332 | There is only one such list, so map order leaves no trace in the script |
| Sorting.StringLeMeans | internal/actuate/actuate.go:307-307 | The order of the names is lexicographic |
| RunningConfig.PrintedLine | internal/actuate/actuate.go:287-304 | In a printed line, whatever its indentation, each parser sees exactly what the shape of the words says |
| RunningConfig.Showable | internal/actuate/actuate.go:372-378 | Every configuration whose names are words has a printed form that the parsers read back |
| Bloom.PacketRepresents | bpf/transit_loss.bpf.c:142-226 | After every packet the tagged words answer, for the current and the previous generation, exactly as the set of bits inserted in that generation |
| Bloom.RollRepresents | bpf/transit_loss.bpf.c:175-194 | A roll hands the current half over as previous and hides everything older, without clearing |
| Bloom.SetThenTest | bpf/transit_loss.bpf.c:142-172 | Setting a bit, with its lazy clearing of a stale word, is visible in its own generation and the one before as exactly that bit |
| Transit.TransitMonitor.BloomSetBitGen | bpf/transit_loss.bpf.c:155-172 | Sets one bit, clearing a word of another generation |
| Transit.TransitMonitor.BloomSeenBit | bpf/transit_loss.bpf.c:217-219 | True exactly when the bit was inserted in the current or the previous generation, also at generation 0, whose predecessor wraps to 2^64 - 1 |
| Transit.TransitMonitor.BloomTestAndSet | bpf/transit_loss.bpf.c:197-226 | Returns 1 exactly when all three bits were inserted in the current or previous generation, and inserts them |
| Transit.TransitMonitor.TransitEgress | bpf/transit_loss.bpf.c:277-335 | A packet without payload, SYN, FIN and RST, or without a next hop, changes nothing; any other adds a segment to its counter and, exactly if its bits were seen, a retransmit, which a SYN with ACK, a FIN and a RST without payload never are; every counter of every CPU and path still counts exactly its packets and its seen packets, modulo 2^64 |
| Transit.RepeatCounted | bpf/transit_loss.bpf.c:321-328 | In header fields: a data segment with the addresses, ports and sequence number (in units of 16 bytes) of a counted one, or an initial SYN with those of a counted one and the same number, is a retransmit up to 1.5 s later |
| Transit.RetransmitsAreRepeats | bpf/transit_loss.bpf.c:321-328 | A packet that the hash tells apart from the other counted segments is a retransmit if and only if the same segment of the same flow was counted in the current or the previous generation |
| Transit.TransitMonitor.Detect | bpf/transit_loss.bpf.c:315-329 | Data is keyed by sequence number over 16, an initial SYN by its number; the answer is the specification's |
| Transit.RememberedForAnEpoch | bpf/transit_loss.bpf.c:175-226 | With a clock that does not go back, a key seen at t is reported whenever tested up to t + BLOOM_EPOCH_NS + 1 |
| Transit.ForgottenAfterward | bpf/transit_loss.bpf.c:190-193 | One nanosecond later it can be forgotten: the bound is sharp |
| Transit.RememberedAcrossSilence | bpf/transit_loss.bpf.c:190-193 | There is no upper bound: without packets in between a key is always still reported |
| Transit.GenerationFits | bpf/transit_loss.bpf.c:190-193 | A 64-bit nanosecond clock cannot make the generation wrap |
| Transit.GainsOrdered | bpf/transit_loss.bpf.c:312-331 | Between two points of a run a counter gains no more retransmits than segments |
| Counters.AllTransit | internal/maps/maps.go:143-163 | One entry per path, with segments and retransmits summed over the CPUs modulo 2^64 and the latest update time |
| Counters.TransitDeltas | cmd/daemon/main.go:359-366 | One delta per path now present, against zero for a path that was not there before |
| Counters.ReadingCounts | internal/maps/maps.go:143-163 | A reading between packets is the path's packet count, whichever CPUs forwarded them |
| Counters.DeltaCounts | cmd/daemon/main.go:359-369 | Without reset or wrap a delta is exactly what the path forwarded and retransmitted between the readings, so retransmits never exceed segments |
| Counters.DeltaIsRate | cmd/daemon/main.go:789-794 | For any two readings the delta is a rate if and only if retransmits did not rise or first transmissions did not fall |
| Inside.RetransmitWithoutSegment | bpf/transit_loss.bpf.c:311-329 | A reading between the two increments of a packet and the next one: the delta is 1 retransmit and no segment |
| Inside.InsideOnePacket | bpf/transit_loss.bpf.c:311-329 | Inside a retransmitted packet a reading lags by one retransmit, after it by none |
| Inside.LaggingDelta | cmd/daemon/main.go:359-366 | Of two readings taken anywhere the delta is a rate if and only if at least as many first transmissions lie between them as retransmits were counted late |
| Inside.RateExceedsOne | internal/metrics/ema.go:109-112 | The published instant rate exceeds 1 if and only if fewer first transmissions lie between the reading at which its window began and the last one than retransmits were counted late |
| Inside.RateOfTwo | internal/metrics/ema.go:109-112 | Two readings for which it is 2 |
| Metrics.EMAStore.Update | internal/metrics/ema.go:75-136 | In whatever order the deltas are walked, each path in them gains one sample and moves once, no other path changes, and every path publishes what its own samples say |
| Metrics.UpdatePath | internal/metrics/ema.go:78-134 | One path's step keeps ring, sums and published rates equal to the specification over its history; in the fields: without a segment in the window the rates stay, otherwise the instant rate times the segments is the retransmits, the first publication starts the smoothed fields there, and a later one leaves min(1, exp(-dt / half-life)) of their distance |
| Metrics.Push | internal/metrics/ema.go:91-107 | The ring holds the last min(updates, capacity) deltas with the next one to evict at the write position, and both running sums and WindowSegments are the sums over them |
| Metrics.SumStep | internal/metrics/ema.go:92-104 | The window gains the new delta and loses its oldest; the subtraction never underflows |
| Smoothing.NearsByElapsed | internal/metrics/ema.go:114-129 | In the published fields: after dt the smoothed rate keeps exp(-dt / half-life) of its distance to the instant rate, and the smoothed error likewise |
| Smoothing.StaysWhenBack | internal/metrics/ema.go:119-122 | When the clock went back the smoothed fields stay |
| Smoothing.ApproachesRate | internal/metrics/ema.go:114-129 | While the instant rate stays the same, the distance to it is multiplied over a run by that factor of each tick |
| Smoothing.ApproachesByTime | internal/metrics/ema.go:114-129 | It depends on the elapsed time only, not on how it was cut into ticks |
| Metrics.Publish | internal/metrics/ema.go:109-134 | Rates change only when the window holds a segment, and then as specified |
| Metrics.SmoothedBetween | internal/metrics/ema.go:109-131 | The instant and the smoothed rate stay within any bounds that hold of all instant rates so far, whatever the clock does |
| Metrics.PublishedBetween | internal/metrics/ema.go:109-131 | The fields a path publishes lie within any bounds that hold of its instant rates so far |
| Metrics.RatesAreRates | internal/metrics/ema.go:109-131 | If every delta is a rate, the specified instant and smoothed rates lie in [0, 1] |
| Passive.Watch | cmd/daemon/main.go:352-370 | Over any run of packets without a reset, read at any points between packets and fed to a store that starts empty, whatever CPUs forwarded them: the samples of every path add up to its packets and retransmits, each is a rate, and both published loss rates lie in [0, 1] |
| Passive.TransitTick | cmd/daemon/main.go:352-370 | One such reading: read, difference against the last reading (zero for a path that appears), and feed |
| Passive.FedPublishes | internal/metrics/ema.go:75-136 | A store whose samples add up to the packets publishes real rates |
| Metrics.WindowFits | internal/metrics/ema.go:63-71 | The capacity is the number of whole ticks that fit the window, and at least 1 |
| Metrics.EMAStore.Snapshot | internal/metrics/ema.go:139-149 | The copy equals the store |
| Score.CollapseByNeighbor | internal/score/rank.go:25-108 | One result per named neighbour in first-seen order, from its confident legs if it has any and from all otherwise |
| Score.CollapsedComposite | internal/score/rank.go:82-103 | When the averaged legs carry their own composite cost, the collapsed composite is the mean of theirs |
| Score.CollapsedErr | internal/score/rank.go:100-100 | The quadrature error is at most the mean of the legs' errors |
| Score.OrderDistinct | internal/score/rank.go:35-50 | Neighbours come out distinct |
| Averages.CountedLegs | internal/score/rank.go:60-75 | Averaged are, with multiplicity, the neighbour's legs of positive confidence, or all of its legs if it has none |
| Averages.OneMoreLeg | internal/score/rank.go:82-103 | A lone leg passes through; one more leg moves each of the four means by its own value; the composite is recomputed with the weights 1, 500, 1 and 300 |
| Averages.OneMoreErr | internal/score/rank.go:88-100 | The errors add up in quadrature |
| Averages.GreatestConfidence | internal/score/rank.go:89-101 | The collapsed confidence is at least every leg's, and one of them or 0 |
| Averages.FirstSeenOrder | internal/score/rank.go:35-50 | Neighbours come out in the order in which they are first seen |
| Rank.RankByTier | internal/score/rank.go:131-254 | The updates are the single-prefix updates of some sorted permutation of the named paths (or of the paths as they came, all at the default tier, when all are lost), grouped by neighbour |
| Cheapest.CheaperPreferred | internal/score/rank.go:165-172 | In the numbers of the candidates, for what RankByTier returns on one path per neighbour and for any tiers: a path with a lower composite gets no lower a local-preference, and of equal composites neither does the lower next hop |
| Cheapest.CheapestGetsTop | internal/score/rank.go:186-203 | With two or more paths, some sign of life, and tiers in order: the cheapest path gets the top tier if its confidence is at least 0.5, and nobody else does; if it is not, everyone gets the default |
| Cheapest.SecondGetsMid | internal/score/rank.go:204-229 | The second cheapest gets the middle tier if it and the cheapest are confident, and the default otherwise |
| Cheapest.ThirdGetsDefault | internal/score/rank.go:210-212 | A path with two cheaper ones gets exactly the default, however confident |
| Cheapest.NoChoiceGetsDefault | internal/score/rank.go:144-184 | A lone path gets the default, and so does everyone when every path is lost without any passive data |
| Cheapest.EachGetsOne | internal/score/rank.go:131-254 | One update for each named path and no other, each with one local-preference for the prefix |
| Rank.AssignTiers | internal/score/rank.go:180-235 | The loop with the error-band gate and the clamp assigns each rank the clamped tier; the gate adds nothing |
| Rank.TierIsRunningMinimum | internal/score/rank.go:194-229 | The clamped tier is the least of the top tier and the raw tiers of this and all better ranks |
| Rank.TierProperties | internal/score/rank.go:110-129 | A worse rank never gets a higher local-preference; without confidence never more than the default; top only for the best rank; a best rank without confidence pins everyone to the default |
| Rank.ConfidenceNeeded | internal/score/rank.go:112-113 | At any rank a path without confidence gets at most the default |
| Rank.TopTierSharedWhenMisordered | internal/config/config.go:147-157 | The second rank gets the top tier too if and only if the middle tier is at least the top one, which validation allows |
| Rank.RankingUnique | internal/score/rank.go:165-172 | Without equal keys the ranking does not depend on the order of the input nor on the sort |
| Rank.GroupByNeighbor | internal/score/rank.go:260-281 | One update per neighbour in first-seen order, concatenating its preferences |
| Rank.NeighborsFirstSeen | internal/score/rank.go:260-281 | Whoever comes first among the regrouped neighbours was mentioned first |
| Decision.PrefsOfAppend | internal/score/rank.go:260-281 | A neighbour's preferences are concatenated in the order of the updates |
| Decision.GroupingConserves | internal/score/rank.go:260-281 | Regrouping conserves the multiset of (neighbour, prefix, local-preference) and yields distinct neighbours |
| Decision.MentionedOnce | internal/score/rank.go:260-281 | Each (neighbour, prefix) is mentioned once: no regrouped update lists a prefix twice |
| Decision.MentionsExactly | internal/score/rank.go:260-281 | An update lists a (prefix, preference) pair once if it is the decided one for its neighbour, and not at all otherwise |
| Decision.UpdateDecides | cmd/daemon/main.go:569-584 | A neighbour's update assigns to each prefix exactly the tier of its rank there, and nothing elsewhere |
| Decision.UpdateExists | cmd/daemon/main.go:569-584 | Every ranked candidate has an update that says so |
| Decision.OrderIrrelevant | cmd/daemon/main.go:571-584 | What is decided does not depend on the order in which the prefixes are visited |
| Decision.ScopeDetermined | cmd/daemon/main.go:569-584 | Without equal keys two visits of the same input, in any order and with any sort, decide the same |
| Decision.RankScope | cmd/daemon/main.go:569-584 | The loop over the scope, in any order: one well-formed ranking of the collapsed candidates per prefix, the regrouped updates, and every candidate's composite on record |
| Decision.RankedRoutes | cmd/daemon/main.go:569-611 | From candidates to routes: after a successful SetNeighborTiers a neighbour's route for a ranked prefix carries exactly the tier of its rank, and any other passes, or, with lost slot counts, gets what is stale |
| Iteration.Iterate | cmd/daemon/main.go:569-623 | Ranking, actuation and cleanup in one: whatever the map orders and the sort, exactly the updates are applied whose neighbour's earlier actuations were all recorded at least the dwell time before, whose session outlives the script and whose numbers fit; their neighbours have exactly the tiers of their ranks, suppressed and unconcerned neighbours are as before, the neighbours on record are the ranked ones, the history grows by one actuation per applied neighbour with the composites of its tick, and the slot counts grow for those touched |
| Preference.CarriesPlanned | cmd/daemon/main.go:586-611 | After a tick without failed sessions every candidate's route carries the tier of its rank if it was applied and what it had if it was suppressed |
| Preference.BestPreferredIff | cmd/daemon/main.go:586-611 | When the best-ranked candidate was applied, no route of the prefix is preferred to its route if and only if no suppressed candidate held more than its tier before the tick |
| Preference.BestPreferredByPlan | cmd/daemon/main.go:586-611 | The general condition, also when the best-ranked candidate was itself suppressed |
| Preference.CheaperRoutePreferred | cmd/daemon/main.go:571-611 | From the composites of the candidates to the router: of two candidates that were applied the route of the cheaper one is not less preferred |
| Preference.CheapestRoutePreferred | cmd/daemon/main.go:571-611 | When all candidates were applied and some are not lost: the cheapest candidate's route carries the top tier and is strictly preferred to all others if its path is confident; if not, it carries the default and is not |
| Preference.StrictlyPreferredIff | internal/score/rank.go:186-193 | When all candidates were applied and the tiers are in order, the best-ranked route is strictly preferred to all others if and only if its path is confident |
| Preference.TwoHoldTop | cmd/daemon/main.go:590-599 | A neighbour that earned the top tier and is suppressed in the next tick holds it beside the one ranked best there |
| Iteration.RunTicks | cmd/daemon/main.go:586-623 | Any number of ticks, each with that outcome on what the one before left; and from a start without unknown bindings, if removals live through their detach, every neighbour bound to an owned map is among those ranked in the last tick, suppressed and failed ones included |
| Iteration.GroupedActionable | cmd/daemon/main.go:584-588 | Ranking hands over legal, non-empty updates, one per neighbour |
| History.MirrorOfHistory | cmd/daemon/main.go:609-610 | Over any run of applied updates the mirror names n for p if and only if some update of n made n active for p and no later mention of p made anyone active or came from n; the composite is n's among the candidates of the tick of that update; both maps have the same keys |
| History.DaemonMirror | cmd/daemon/main.go:830-842 | So it is in the daemon's own maps, at any time |
| Active.CandidateOnRecord | cmd/daemon/main.go:574-577 | The record of a tick holds, for every in-scope prefix and each of its candidates and no one else, the candidate's composite |
| Active.ConfirmedComposite | cmd/daemon/main.go:835-836 | The active composite is the composite of the candidate that an update made active |
| Active.NewestUpdate | cmd/daemon/main.go:832-841 | After an applied update the mirror names its neighbour for a prefix it mentions if and only if it got the top tier there or is the only candidate, with its composite on record |
| Mirror.MirrorMeaning | cmd/daemon/main.go:817-842 | The same over the sequence of single claims that the updates make |
| Tick.Daemon.SyncAppliedActiveMirror | cmd/daemon/main.go:830-842 | The loop over the update's preferences extends the mirror by exactly the update's claims |
| Tick.Daemon.ActuateOne | cmd/daemon/main.go:588-611 | Over the history: the update is applied and recorded if and only if every earlier actuation of the neighbour was recorded at least the dwell time before, vtysh outlives the script and the numbers fit; then its routes follow it (with lost slot counts: exactly if nothing is stale), and otherwise dampener, mirror and history are unchanged. A suppressed update does not reach the router at all |
| Tick.Daemon.ActuateAll | cmd/daemon/main.go:586-611 | The same for all updates of a tick at once, judged by the history and the slot counts before it; all applied ones are in force at its end, and only neighbours that the dampener let pass are touched |
| Tick.Daemon.Cleanup | cmd/daemon/main.go:613-622 | A drained neighbour's binding goes if and only if its session outlives the third command; nobody else is disturbed |
| Tick.Daemon.Tick | cmd/daemon/main.go:586-623 | Both steps together keep the daemon's invariant: the mirror is that of all applied updates, actuations of one neighbour are at least the dwell time apart, the router is as it should be |
| Tick.TickEffects | cmd/daemon/main.go:586-623 | Applied updates survive the cleanup; a suppressed neighbour holds exactly what it had; and a daemon that knew of all its bindings still does if and only if every removal of a bound neighbour lived through its detach |
| Tick.SpacedNext | internal/actuate/actuate.go:57-67 | Allow and Record keep actuations of one neighbour at least minDwell apart, over the whole run |
| Tick.RestedPasses | internal/actuate/actuate.go:57-63 | The dampener remembers one time per neighbour, and lets pass if and only if every actuation in the history is at least minDwell old |
| Tick.RemovalDetaches | internal/actuate/actuate.go:239-259 | A removal leaves its neighbour bound if and only if the session dies before the third command completes |
| Wilson.WilsonRoots | internal/actuate/prober.go:241-250 | Lower and upper end are exactly the two roots of (k/n - p)^2 = z^2 p(1 - p)/n |
| Wilson.WilsonInterval | internal/actuate/prober.go:234-255 | For k < n: 0 <= lower <= k/n <= upper <= 1, so the clamp never changes the value and the result is the margin |
| Wilson.WilsonSymmetric | internal/actuate/prober.go:229-255 | The width is the same for k and n - k losses, 0 < k < n |
| Wilson.SentinelBreaksSymmetry | internal/actuate/prober.go:238-240 | At the ends it is not: 0 for all lost, positive for none lost |
| Wilson.WilsonShrinks | internal/actuate/prober.go:234-255 | Scaling losses and probes by the same whole factor strictly shrinks the width |
| Wilson.NoLossWidth | internal/actuate/prober.go:241-254 | With z = 1.96: without a loss the width is 1.9208 / (n + 3.8416) |
| Wilson.WidthVanishes | internal/actuate/prober.go:235-240 | It is 0 if and only if there are at least as many losses as probes |
| Sprt.DecisionsOrdered | internal/actuate/prober.go:56-82 | For a fixed number of probes every loss count deciding Better is below every one deciding Indifferent, and those below every one deciding Worse |
| Sprt.DecisionsConvex | internal/actuate/prober.go:56-82 | Each decision is taken on an interval of loss counts |
| Sprt.DecisionsExclusive | internal/actuate/prober.go:73-81 | At most one of the three conditions holds, so their order is irrelevant |
| Sprt.DecisionsSound | internal/actuate/prober.go:56-82 | Better is only decided at a loss rate below p0, Worse only above it |
| Sprt.LLRMonotone | internal/actuate/prober.go:93-100 | The better ratio strictly falls and the worse ratio strictly rises with the number of losses |
| Likelihood.LLRIsLog | internal/actuate/prober.go:93-100 | The sum in the program is the logarithm of (p/p0)^k ((1-p)/(1-p0))^(n-k) |
| Likelihood.DecisionByRatio | internal/actuate/prober.go:56-108 | The three decisions on likelihood ratios: accepted from (1 - beta) / alpha up, rejected from beta / (1 - alpha) down, in all cases if and only if |
| Sprt.BoundariesSeparate | internal/actuate/prober.go:104-108 | For error rates below one half the boundaries lie on either side of 0 |
| Sprt.TieMeaning | internal/actuate/prober.go:335-356 | Inside (0, 1) p0 is the loss rate at which the challenger's cost equals the active composite; it is -1 exactly when there is no active path to beat or the RTT alone exceeds it, and 1 exactly when full loss would not |
| Sprt.EndsUndecided | internal/actuate/prober.go:303-307 | With p0 at either end nothing is ever decided |
| Reach.BetterPossible | internal/actuate/prober.go:56-82 | Strictly inside, enough probes without a loss decide Better |
| Reach.WorsePossible | internal/actuate/prober.go:56-82 | Strictly inside, enough losses in a row decide Worse |
| Reach.DecidableInside | internal/actuate/prober.go:303-307 | Some evidence decides, and then both Better and Worse can be decided, if and only if p0 is strictly inside the clamps |
| Reach.VerdictExactly | internal/actuate/prober.go:296-317 | A verdict is possible if and only if the active composite lies strictly between the challenger's cost without loss and with full loss, up to the clamps, and an RTT was measured |
| Reach.FastChallengerNeverJudged | internal/actuate/prober.go:352-354 | An active composite of 1000 and an RTT of 400: p0 is 1 and no evidence ever leads to a verdict |
| Reach.WithinReach | internal/actuate/prober.go:281-317 | Under a ceiling of probes Better is possible if and only if that many probes without a loss decide it, and Worse if and only if that many losses do |
| Probing.VerdictSound | internal/actuate/prober.go:296-317 | Better is only said of a challenger whose cost, from its RTT and counted loss rate, is below the active composite, Worse only of one above it |
| Probing.Conclude | internal/actuate/prober.go:281-332 | The tail of a probe: the burst is folded in with the decay of the elapsed time and the raised ceiling, the RTT baseline moves with that decay, and the verdict, the loss rate (in [0, 1], the ratio of the decayed counts), its error band and the probe count (within half a probe of the decayed one) are those of the rounded evidence, with losses at most probes |
| Accumulator.ProbeAccumulator.Ingest | internal/actuate/probe_accumulator.go:41-62 | A first burst is taken as it is; a later one leaves the old counts times exp(-dt / half-life) plus its own, or beyond the ceiling that many probes in the same ratio; the RTT baseline keeps the same factor of its distance to the measured RTT, and stays without one |
| Accumulator.RateBetween | internal/actuate/probe_accumulator.go:36-62 | Over any run the loss rate of the evidence stays within any bounds that hold of every burst, through decay and ceiling |
| Accumulator.CountsOrdered | internal/actuate/probe_accumulator.go:36-62 | 0 <= EffectiveK <= EffectiveN <= maxN |
| Accumulator.NewestCountsInFull | internal/actuate/probe_accumulator.go:36-62 | A burst that fits under the ceiling counts at least in full |
| Accumulator.RoundedNearest | internal/actuate/prober.go:310-310 | Counts are rounded to the nearest whole number |
| Fading.CountsFade | internal/actuate/probe_accumulator.go:45-49 | Below the ceiling the two counts are everything that ever came in, each burst times the product of the later decays |
| Fading.WeightByAge | internal/actuate/probe_accumulator.go:46-49 | That product is exp(-age / half-life): a burst counts by its age alone |
| Fading.EvidenceAccumulates | internal/actuate/probe_accumulator.go:48-49 | m equal bursts without decay hold m times the losses and probes of one |
| Accumulator.RoundedOrdered | internal/actuate/prober.go:310-310 | Rounded losses never exceed rounded probes |
| Accumulator.ProbeAccumulator.AdaptiveTimeout | internal/actuate/probe_accumulator.go:68-80 | The baseline times the multiplier, clamped between floor and configured; without a baseline the configured timeout |
| Rib.PrefixForSubnet | internal/bgp/rib.go:125-151 | In any map order: a key that contains the address with the greatest prefix length, or "" exactly when none does |
| Rib.LongestUnique | internal/bgp/rib.go:121-151 | With canonical keys there is only one such key |
| Rib.InScope | internal/bgp/rib.go:155-184 | Exactly the keys whose network address lies in some scope network that parses, with their paths; everything for an empty scope |
| Rib.FilterFirst | internal/bgp/rib.go:121-184 | Filtering before the lookup gives the same answer if and only if the unfiltered answer is kept (or there is none) |
| Rib.ScopeReach | internal/bgp/rib.go:177-179 | A prefix whose network address is in a scope network lies in it entirely if and only if it is no shorter |
| Addresses.CidrInjective | internal/bgp/rib.go:139-139 | Canonical prefixes that parse to the same network are the same text |
| Octets.DottedAddress | internal/bgp/rib.go:126-129 | Four numbers with dots are an address if and only if each is below 256, and they are its digits to base 256 |
| Octets.PrefixParts | internal/bgp/rib.go:139-139 | An address, a slash and a number parse as a prefix if and only if the number is at most 32 |
| Octets.ContainsByOctets | internal/bgp/rib.go:143-143 | A written /8, /16, /24 or /32 contains a written address if and only if their first one, two, three or four octets agree |

## Left out

- IPv6: addresses and prefixes are IPv4 text; net.ParseIP on anything else is a parameter of the parsers.
- Rib.PrefixForSubnet: answers "" for an IPv4 address written in its IPv6-mapped form, which the program accepts, because addresses are IPv4 text; the daemon only passes dotted quads.
- Rib.InScope: drops IPv6 keys and scope entries, which the program matches against each other, because prefixes are IPv4 text.
- The hash of the filter is an arbitrary function from keys to three bit indices; only Transit.RetransmitsAreRepeats asks that it tell a packet apart from the other segments.
- Packets are processed one at a time. The generation swap and the clearing of a word are two steps in the program, so between CPUs the exactness claims need each packet's step to be atomic.
- Failed map lookups in the packet program, parsing of headers, byte order and the destination-to-next-hop trie.
- Rounding of floating-point numbers, and infinite composites other than the absence of an active path.
- PathEMA and PathCost are values; the store's map holds the value where the program holds a pointer, so aliasing of entries is not captured.
- Metrics.Publish: does not model the conversion of 64-bit window sums to signed integers, because sums of 2^63 and more need more segments in one window than a link carries.
- Measuring: sockets, probe bursts and medians; a burst enters as its counts and median RTT.
- The transit override of step 5, Compute, FromProbeResult and ConfidenceFromSamples: straight-line arithmetic.
- ECMP weights, ProbeState, divergence checks, the slot mutex (calls are sequential), logging, configuration files, JSON, attachment of the packet programs, the loader.
- That a fully lost neighbour never outranks a live one: it is not so, because collapsing recomputes the composite and discards the sentinel.
- That the mirrored neighbour is still bound: the cleanup does not touch the mirror.
- State left by an older daemon with another route-map layout: after a failed normalization the model knows only routers that the scripts modelled here have written.
