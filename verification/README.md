# Neutral-atom moves and the compilers around them

A Dafny model of the hard core of bloqade-lanes, with its properties proved.

**Move machine.** An architecture has words of sites, zones with a position grid, and
buses that carry atoms between sites, words or zones. A lane is one entry of a bus in
one direction. An atom state keeps two maps between qubits and locations, a collision
record, the last lane and a move count of every qubit. `AtomState.dfy` has the loop that
applies lanes one by one; `Simultaneous.dfy` and `OrderIndependence.dfy` relate it to
moving all atoms at once; `History.dfy` has conservation and undo over whole runs;
`Pairing.dfy` says which qubits a CZ pulse pairs. `Arch.dfy`, `ReverseLookup.dfy`,
`Validate.dfy`, `ValidSpecs.dfy` and `GroupCheck.dfy` cover the lookups, the validator and
what its acceptance guarantees. `Lookups.dfy`, `SpecRules.dfy` and `GridShape.dfy` say what
the lookups, the rules and the grid check mean in terms of the spec's data alone. `Addr.dfy` and `MoveSet.dfy` pack addresses and sets of them.

**Firing conditions.** `Separation.dfy` has the grid distance between CZ pairs and
`EntanglingGoal.dfy` the goal that decides when a configuration may fire.

**Gate-block parallelizer.** `Circuits.dfy` says when two line lists mean the same,
`Layering.dfy` puts gates on their earliest layers, `Parallelizer.dfy` turns the layers of
each block into broadcasts.

**Bytecode.** `Codec.dfy` and `Container.dfy` are the binary form of a program,
`Text.dfy`, `Assembly.dfy` and `Disassembly.dfy` its text form. `Formats.dfy` and
`Sections.dfy` give the binary form byte by byte and say which bytes are accepted;
`PrintedForms.dfy` and `Spellings.dfy` give the printed text of every instruction and what
else the assembler accepts.

**Metrics.** `Metrics.dfy` has the second simulator of moves, which counts hops and distances per CZ.

`Basics.dfy` holds the integer widths and small list functions.

## Where the code is narrower than its documentation

- An atom state is documented as a two-way index. `from_locations` builds one only under
  the condition of `AtomStates.FromLocationsInSyncIff`, and
  `AtomStates.SharedLocationIsOutOfSync` is a list that fails it.
- A move set is documented as applied simultaneously, while `apply_moves` goes lane by lane.
  The two agree exactly on moves that share no endpoint and do not chain
  (`OrderIndependence.AtOnceIffParallel`, and `LanesOrderFreeIffParallel` there for order and
  repetition of any lanes). The validator accepts buses that chain
  (`ValidSpecs.ChainedBusIsOrderDependent`).
- The pairing lists each qubit once exactly when partner words are mutual and distinct
  (`Pairing.PartitionIffMatching`). The validator accepts a word in two pairs
  (`ValidSpecs.SharedWordBreaksPairing`).
- The group check calls lanes duplicates when their packed addresses are equal. Ids too large
  for their fields make different lanes equal (`GroupCheck.AliasedWordsAreRefused`).
- NaN and infinities print to text that does not parse (`Disassembly.NanIsRefused`).
- The code section's byte length is cast to 32 bits, so programs of 2^28 instructions or
  more lose their tail silently (`Container.RoundTripIff`).
- The metrics do not know collisions: they leave the mover where the atom state removes
  both atoms (`Metrics.CrashSeparatesThem`). They stay in step exactly as long as nothing
  collides (`Metrics.InStepIffNoCrash`).

## Hypotheses

- `CountsFit`: the numbers of zones, words and sites are below 2^32. The source casts them
  to 32 bits before it compares.
- `Addressable`: the numbers of zones, words and sites fit the bits of a packed location,
  and partner words exist. The entangling goal compares packed locations.
- `LaneInRange`, `LocationInRange`: fields fit their bits. Packing truncates.
- `Matching`: each word of a zone is in at most one entangling pair, and not with itself.
- `OneToOne`: a bus resolves injectively and no destination it resolves to is a source.
- `StandardFloats`: what Rust documents of its floats. A finite float displays as digits
  with an optional sign and point and parses back; ".0" after an integer changes nothing;
  NaN and infinities display by name, and a name followed by ".0" does not parse. The float
  formatter and parser are parameters, and `StandardFloatsExist` shows the assumptions are
  consistent. `DisplaysWords` is the part of this that line splitting needs.

## Model

| member | source | states |
|---|---|---|
| `AtomStates.ApplyMoves` | crates/bloqade-lanes-bytecode-core/src/atom_state.rs:167-202 | the loop answers None as soon as one lane does not resolve, and otherwise the state after every lane in turn, with `prevLanes` starting empty and the move counts carried on |
| `AtomStates.MoveAtom` | crates/bloqade-lanes-bytecode-core/src/atom_state.rs:174-193 | one lane on the five maps: skip an empty source, move onto a free site, or remove both atoms and record the collision |
| `AtomStates.FromLocations` | crates/bloqade-lanes-bytecode-core/src/atom_state.rs:106-122 | the two maps after inserting every pair in order, later keys replacing earlier ones |
| `AtomStates.FromLocationsInSyncIff` | crates/bloqade-lanes-bytecode-core/src/atom_state.rs:15-24 | the state that `from_locations` builds has inverse maps if and only if a listed qubit comes again later exactly when its listed location does; the promise of a two-way index fails otherwise |
| `AtomStates.SharedLocationIsOutOfSync` | crates/bloqade-lanes-bytecode-core/src/atom_state.rs:106-122 | two qubits listed at one location: both point at it, it points at the second, and the maps are not inverse |
| `AtomStates.AddAtoms` | crates/bloqade-lanes-bytecode-core/src/atom_state.rs:124-154 | succeeds if and only if every listed qubit and location is new and listed once; otherwise the error is that of the first refused pair, its qubit looked at first; the result holds the old atoms and the listed ones, without history, and stays in sync |
| `Simultaneous.StepExtends` | crates/bloqade-lanes-bytecode-core/src/atom_state.rs:174-193 | one sequential step after the simultaneous move of a set is the simultaneous move of the set with one more move |
| `Simultaneous.RepeatIsIdle` | crates/bloqade-lanes-bytecode-core/src/atom_state.rs:174-176 | a move that was already made finds its source empty and changes nothing in any of the five fields |
| `Simultaneous.RunIsMoveAtOnce` | crates/bloqade-lanes-dsl-core/src/primitives/move_set.rs:15-19 | for every list of moves without shared or chained endpoints, the loop equals the one-shot move of their set: travellers reach free sites, or are lost and recorded together with the occupant, and all other atoms stay |
| `OrderIndependence.OrderFreeIffParallel` | crates/bloqade-lanes-dsl-core/src/primitives/move_set.rs:15-19 | all lists over a set of moves give the same five-field state from every synchronised state if and only if no two moves share an endpoint and none starts where one ends |
| `OrderIndependence.AtOnceIffParallel` | crates/bloqade-lanes-dsl-core/src/primitives/move_set.rs:15-19 | over a set of moves, going one by one equals moving at once from every synchronised state and for every list if and only if no two moves share an endpoint and none starts where one ends |
| `OrderIndependence.LanesOrderFreeIffParallel` | crates/bloqade-lanes-bytecode-core/src/atom_state.rs:167-202 | for lanes of any buses that resolve, `apply_moves` ignores their order and repetition from every synchronised state if and only if their moves are parallel |
| `OrderIndependence.BusGroupIsParallel` | crates/bloqade-lanes-bytecode-core/src/arch/query.rs:428-484 | lanes of one bus, type, zone and direction, whose bus resolves one to one without chaining, share no endpoint and do not chain |
| `OrderIndependence.SequentialIsSimultaneous` | crates/bloqade-lanes-bytecode-core/src/atom_state.rs:167-202 | for such lanes `apply_moves` is the simultaneous move of their set |
| `OrderIndependence.OrderAndRepetitionDoNotMatter` | crates/bloqade-lanes-bytecode-core/src/atom_state.rs:167-202 | two lists with the same lanes, in any order and with any repetition, give the same result, failures included |
| `OrderIndependence.MoveSetRunsLikeItsLanes` | crates/bloqade-lanes-dsl-core/src/primitives/move_set.rs:29-48 | unpacking a move set and applying its lanes gives what the original list gives |
| `MoveSets.New` | crates/bloqade-lanes-dsl-core/src/primitives/move_set.rs:29-34 | the move set holds exactly the packed lanes, strictly increasing |
| `MoveSets.FromEncoded` | crates/bloqade-lanes-dsl-core/src/primitives/move_set.rs:37-41 | the same from lanes already packed |
| `MoveSets.Dedup` | crates/bloqade-lanes-dsl-core/src/primitives/move_set.rs:37-41 | dropping neighbours that are equal turns a sorted list into a strictly increasing one with the same elements |
| `MoveSets.MoveSetIsCanonical` | crates/bloqade-lanes-dsl-core/src/primitives/move_set.rs:15-19 | on in-range lanes two move sets are equal if and only if they were built from the same set of lanes |
| `MoveSets.DecodeListsTheLanes` | crates/bloqade-lanes-dsl-core/src/primitives/move_set.rs:44-48 | decoding never panics and lists exactly the lanes the set was built from, each once |
| `History.StepConserves` | crates/bloqade-lanes-bytecode-core/src/atom_state.rs:174-193 | one lane keeps the conservation invariant, keeps every recorded collision, and adds one to the total move count exactly when it finds an atom |
| `History.WholeRunConserves` | crates/bloqade-lanes-bytecode-core/src/atom_state.rs:19-40 | after any sequence of calls from a state without collisions the maps are inverse; placed qubits, recorded movers and recorded victims split the initial qubits; placed plus twice the collisions is constant; the counters grew by the lanes that found an atom |
| `History.ConservedCount` | crates/bloqade-lanes-bytecode-core/src/atom_state.rs:27-32 | the number of placed atoms plus twice the number of recorded collisions is the number of initial qubits |
| `History.CountsGrowSlowly` | crates/bloqade-lanes-bytecode-core/src/atom_state.rs:37-39 | a run raises no move counter by more than its number of moves, so a counter can leave 32 bits only after that many |
| `History.UndoRestores` | crates/bloqade-lanes-bytecode-core/src/atom_state.rs:167-202 | if the counters show that every lane found an atom and no collision was added, the flipped lanes in reverse order resolve, collide with nothing and restore both location maps |
| `History.UndoingResolves` | crates/bloqade-lanes-bytecode-core/src/arch/query.rs:428-484 | flipped and reversed lanes resolve to the same moves backwards |
| `Arch.FlipSwapsEndpoints` | crates/bloqade-lanes-bytecode-core/src/arch/query.rs:472-484 | flipping the direction of any lane swaps its endpoints and keeps whether it resolves |
| `Arch.ResolvesIffCheckIsClean` | crates/bloqade-lanes-bytecode-core/src/arch/query.rs:428-484 | on every spec, valid or not, a lane has endpoints if and only if `check_lane` reports nothing |
| `Arch.BackwardUndoesForwardIff` | crates/bloqade-lanes-bytecode-core/src/arch/query.rs:125-178 | on any bus the forward and backward lookups undo each other if and only if an entry is the first of its source exactly when it is the first of its destination |
| `Lookups.EndpointsMean` | crates/bloqade-lanes-bytecode-core/src/arch/query.rs:428-484 | exactly when a lane of any kind and direction resolves, and to what: its ids are in range, its bus exists, its word or site is listed where its kind has a list, and the first bus entry with its id gives the other end; direction says which end is the source |
| `Lookups.CheckLaneReports` | crates/bloqade-lanes-bytecode-core/src/arch/query.rs:545-650 | each kind of lane error is reported if and only if its own condition on the spec and the lane holds; nothing more once the zone is missing, and a missing entry only when all else is in order |
| `Lookups.CheckLocationReports` | crates/bloqade-lanes-bytecode-core/src/arch/query.rs:521-543 | which id decides, zone before word before site, and that a location passes if and only if all are in range |
| `Lookups.PartnerMeans` | crates/bloqade-lanes-bytecode-core/src/arch/query.rs:494-516 | the partner of a location is across the first pair of its zone that names its word, in the same zone and at the same site |
| `Lookups.AxisMeans` | crates/bloqade-lanes-bytecode-core/src/arch/types.rs:313-327 | the first point of an axis is its start, neighbouring points differ by exactly the spacing between them, and there is one point more than spacings |
| `Lookups.PositionMeans` | crates/bloqade-lanes-bytecode-core/src/arch/query.rs:410-423 | grid point (0, 0) is at the start of the grid, one point further in x or y is that spacing further in that coordinate only, and beyond the grid there is no position |
| `Lookups.NoPosition` | crates/bloqade-lanes-bytecode-core/src/arch/query.rs:410-423 | without zone, word or site there is no position |
| `ReverseLookup.TryLaneFromLocation` | crates/bloqade-lanes-bytecode-core/src/arch/query.rs:304-362 | the pruned search over site, word and zone buses finds a lane for one direction if and only if there is one |
| `ReverseLookup.LaneForEndpoints` | crates/bloqade-lanes-bytecode-core/src/arch/query.rs:292-302 | an answer if and only if some lane resolves to the two locations; the answer does; a backward lane only when no forward lane would do |
| `Validate.CheckZoneEntanglingPairs` | crates/bloqade-lanes-bytecode-core/src/arch/validate.rs:368-405 | an entangling-pair error is appended if and only if a word is out of range, paired with itself, or paired again with the same word in either order |
| `Validate.CheckZoneBuses` | crates/bloqade-lanes-bytecode-core/src/arch/validate.rs:305-365 | an inter-zone bus error is appended if and only if some bus has unequal lengths, a reference out of range, or an entry that stays in its zone |
| `Validate.CheckZoneOverlap` | crates/bloqade-lanes-bytecode-core/src/arch/validate.rs:484-512 | a structure error is appended if and only if two bounding boxes overlap in both axes |
| `Validate.ValidateSpec` | crates/bloqade-lanes-bytecode-core/src/arch/validate.rs:50-91 | accepts exactly the specs that meet all rules, and otherwise reports an error kind if and only if its rules are broken |
| `SpecRules.ValidSpecMeans` | crates/bloqade-lanes-bytecode-core/src/arch/validate.rs:50-91 | a spec is accepted if and only if its structure, every zone's buses and pairs, and the zone buses are in order |
| `SpecRules.StructureMeans` | crates/bloqade-lanes-bytecode-core/src/arch/validate.rs:94-190 | the structure rules outright: zones and words exist, spacings are not negative, grids and words have one size, sites lie on the grid, and of any two grids one ends before the other starts in x or in y |
| `SpecRules.ApartMeans` | crates/bloqade-lanes-bytecode-core/src/arch/validate.rs:484-512 | with non-negative spacings two boxes do not overlap if and only if the last point of one does not lie beyond the first of the other in x or in y; touching is allowed |
| `SpecRules.BoxIsTight` | crates/bloqade-lanes-bytecode-core/src/arch/types.rs:355-368 | the corners of the bounding box are the positions of the first and the last grid point |
| `SpecRules.BusRulesMean` | crates/bloqade-lanes-bytecode-core/src/arch/validate.rs:196-300 | the rules of a zone's buses outright: listed words and sites exist, entries are in range, sources and destinations are as many |
| `SpecRules.ZoneBusesMean` | crates/bloqade-lanes-bytecode-core/src/arch/validate.rs:305-365 | the rules of zone buses outright: as many sources as destinations, all in range, every entry in two different zones |
| `SpecRules.PairRulesMean` | crates/bloqade-lanes-bytecode-core/src/arch/validate.rs:368-405 | the rules of entangling pairs outright: both words exist and differ, and no two pairs have the same words |
| `SpecRules.TwoZonesValidIff` | crates/bloqade-lanes-bytecode-core/src/arch/validate.rs:50-91 | a spec with every kind of bus is valid if and only if its zone-bus entry crosses, its two pairs are of different words and differ, and its listed word and site exist |
| `SpecRules.CrossingIsAcceptedStayingIsNot` | crates/bloqade-lanes-bytecode-core/src/atom_state.rs:290-345 | a two-zone spec with a crossing zone bus is valid and its zone, word and site lanes lead where the bus entries say; with an entry that stays in its zone it is not valid |
| `ValidSpecs.LaneEndsAreValid` | crates/bloqade-lanes-bytecode-core/src/arch/query.rs:428-484 | on a valid spec a lane resolves if and only if its check is clean, and both its ends then pass `check_location` |
| `SpecRules.SiteEntryIsLane` | crates/bloqade-lanes-bytecode-core/src/arch/query.rs:562-590 | on a valid spec every first entry of a site bus is a lane of every listed word |
| `SpecRules.WordEntryIsLane` | crates/bloqade-lanes-bytecode-core/src/arch/query.rs:592-618 | on a valid spec every first entry of a word bus is a lane at every listed site |
| `SpecRules.ZoneEntryIsLane` | crates/bloqade-lanes-bytecode-core/src/arch/query.rs:620-645 | on a valid spec every first entry of a zone bus is a lane at every site |
| `SpecRules.LanesStayOrLeave` | crates/bloqade-lanes-bytecode-core/src/arch/validate.rs:351-360 | on a valid spec a zone-bus lane ends in another zone, a word-bus lane in its zone and at its site, a site-bus lane in its zone and word |
| `SpecRules.PartnersDiffer` | crates/bloqade-lanes-bytecode-core/src/arch/validate.rs:368-405 | on a valid spec no location is its own blockade partner, and a word and its partner both exist |
| `ValidSpecs.WholeRunStaysValid` | crates/bloqade-lanes-bytecode-core/src/atom_state.rs:167-202 | on a valid spec every state a run reaches from valid locations has all its atoms on valid locations |
| `ValidSpecs.PositionInOwnZone` | crates/bloqade-lanes-bytecode-core/src/arch/types.rs:313-368 | on a valid spec a location has a position if and only if it is valid, and the position lies in its own zone's bounding box |
| `ValidSpecs.PositionOutsideOtherZones` | crates/bloqade-lanes-bytecode-core/src/arch/validate.rs:484-512 | on a valid spec no location lies strictly inside another zone's bounding box |
| `ValidSpecs.ChainedBusIsOrderDependent` | crates/bloqade-lanes-bytecode-core/src/arch/validate.rs:230-263 | a spec that passes validation has a bus on which the order of two lanes changes the result |
| `ValidSpecs.SharedWordBreaksPairing` | crates/bloqade-lanes-bytecode-core/src/arch/validate.rs:368-405 | a spec that passes validation has a zone where the pairing lists a qubit twice |
| `Pairing.GetQubitPairing` | crates/bloqade-lanes-bytecode-core/src/atom_state.rs:220-273 | None for an unknown zone, and otherwise the three lists of the pairing of the zone's qubits in id order |
| `Pairing.PairsAreSound` | crates/bloqade-lanes-bytecode-core/src/atom_state.rs:209-219 | on every spec, from inverse maps: controls and unpaired strictly increase, and each control and its target are in the zone and sit on partner sites |
| `Pairing.ControlsPrecedeTargets` | crates/bloqade-lanes-bytecode-core/src/atom_state.rs:236-269 | with mutual, distinct partner words each control is below its target |
| `Pairing.PartnerQubitsMutual` | crates/bloqade-lanes-bytecode-core/src/arch/query.rs:500-516 | with mutual partner words and inverse maps, being partner qubits is mutual |
| `Pairing.MatchingPartitions` | crates/bloqade-lanes-bytecode-core/src/atom_state.rs:209-219 | with mutual, distinct partner words each placed qubit of the zone is listed exactly once and no other is |
| `Pairing.PartitionIffMatching` | crates/bloqade-lanes-bytecode-core/src/atom_state.rs:220-273 | the lists split the zone's qubits for every synchronised state if and only if partner words are mutual and distinct |
| `Separation.PairsGridSeparated` | crates/bloqade-lanes-search/src/goals.rs:34-66 | true if and only if there are fewer than two pairs, or all atoms resolve and those of different pairs are two grid steps apart or in different zones |
| `Separation.SeparatedPairsAreDisjoint` | crates/bloqade-lanes-search/src/goals.rs:31-33 | accepted pairs never share a qubit |
| `Separation.SeparationIsHereditary` | crates/bloqade-lanes-search/src/goals.rs:34-66 | any selection from an accepted list, in any order and orientation, is accepted |
| `Separation.SeparationIgnoresOrder` | crates/bloqade-lanes-search/src/goals.rs:34-66 | acceptance depends neither on the order of the pairs nor on their orientation |
| `Separation.PackingBound` | crates/bloqade-lanes-search/src/goals.rs:77-84 | an accepted list has at most ceil(w/2) * ceil(h/2) pairs whose first atom is in one w by h zone |
| `Separation.ApartMeans` | crates/bloqade-lanes-search/src/goals.rs:77-84 | two atoms are apart if and only if they are in different zones or at least two steps apart in x or in y |
| `Separation.PackingBoundIsReached` | crates/bloqade-lanes-search/src/goals.rs:34-66 | for every grid size there are accepted pairs that reach the bound |
| `EntanglingGoal.BuildEntanglingSet` | crates/bloqade-lanes-search/src/ops/entangling.rs:111-134 | the set holds exactly the partner-site pairs of every zone, in both orders |
| `EntanglingGoal.BuildPartnerMap` | crates/bloqade-lanes-search/src/ops/entangling.rs:1884-1896 | the map gives each first component one of its second components and nothing else |
| `EntanglingGoal.NewGoal` | crates/bloqade-lanes-search/src/goals.rs:191-200 | the goal stores the pairs and placements, the qubits of the pairs, and a partner map of the placements |
| `EntanglingGoal.IsGoal` | crates/bloqade-lanes-search/src/goals.rs:204-233 | true if and only if every requested pair is on a placement and no spectator shares a blockade with another spectator |
| `EntanglingGoal.PlacementIsPartner` | crates/bloqade-lanes-search/src/ops/entangling.rs:105-110 | on valid locations a pair is a placement if and only if the second location is the blockade partner of the first |
| `EntanglingGoal.ReportedIffPartners` | crates/bloqade-lanes-bytecode-core/src/atom_state.rs:220-273 | the pulse reports two qubits as a pair in some zone if and only if one sits on the other's partner site |
| `EntanglingGoal.AccidentIffPartners` | crates/bloqade-lanes-search/src/goals.rs:170-174 | a spectator is refused if and only if the pulse would pair it with another spectator |
| `EntanglingGoal.GoalIsExact` | crates/bloqade-lanes-search/src/goals.rs:170-233 | for every list of requested pairs, on zones whose entangling pairs are a matching, a configuration is accepted if and only if the pairs reported over all zones are the requested ones up to orientation: none missing, none accidental |
| `GroupCheck.CheckLaneGroupConsistency` | crates/bloqade-lanes-bytecode-core/src/arch/query.rs:664-700 | the mismatches of every later lane with the first, lane after lane and field after field, so a kind is reported if and only if some lane differs in that field |
| `GroupCheck.MismatchesMean` | crates/bloqade-lanes-bytecode-core/src/arch/query.rs:664-700 | zone, bus, type and direction each have their mismatch, and lanes without any go one way on one bus |
| `GroupCheck.CheckLaneGroupMembership` | crates/bloqade-lanes-bytecode-core/src/arch/query.rs:708-740 | the offending words and sites, each once and in increasing order, and no others |
| `GroupCheck.CheckLanes` | crates/bloqade-lanes-bytecode-core/src/arch/query.rs:777-820 | an error is reported if and only if it applies: an error of the first lane with its address, an address that occurs twice, and for several lanes a field that differs from the first lane, an unlisted word or site, or an incomplete grid |
| `GroupCheck.CompleteGridIffCount` | crates/bloqade-lanes-bytecode-core/src/arch/query.rs:825-868 | a set of positions is the product of its x and y values if and only if it has that many elements |
| `GridShape.GeometryIsProduct` | crates/bloqade-lanes-bytecode-core/src/arch/query.rs:823-868 | with positive spacings the geometry check passes if and only if the grid indices of the lanes are a full product of columns and rows |
| `GridShape.GroupCheckByIndices` | crates/bloqade-lanes-bytecode-core/src/arch/query.rs:777-868 | on a valid spec with positive spacings there is no error if and only if the lanes resolve, their packed addresses differ and, when there are several, they go one way on one bus from a full product of grid indices |
| `GridShape.MembershipIsLaneError` | crates/bloqade-lanes-bytecode-core/src/arch/query.rs:702-740 | the membership errors of a group are those of its lanes' own checks |
| `GroupCheck.CleanLaneIsListed` | crates/bloqade-lanes-bytecode-core/src/arch/query.rs:708-740 | a lane whose own check is clean never causes a membership error |
| `GroupCheck.GroupCheckIsExact` | crates/bloqade-lanes-bytecode-core/src/arch/query.rs:777-820 | on a valid spec, for every list of lanes, there is no error to report if and only if all lanes resolve, their packed addresses differ and, when there are several, they share zone, bus, type and direction and fill a complete grid |
| `GroupCheck.InRangeGroupCheckIsExact` | crates/bloqade-lanes-bytecode-core/src/arch/query.rs:777-820 | with ids that fit their packed fields, different lanes in place of different addresses |
| `GroupCheck.AliasedWordsAreRefused` | crates/bloqade-lanes-bytecode-core/src/arch/query.rs:777-801 | on a valid spec of 65537 words two good lanes are refused as duplicates, because their word ids are equal once packed |
| `Circuits.SameOnEveryQubitSameMeaning` | python/benchmarks/utils/qasm_to_squin_kernel.py:315-366 | two line lists that agree on every qubit are permutations of each other and denote the same transformation wherever lines on disjoint qubits commute |
| `Circuits.IndependentMeans` | python/benchmarks/utils/qasm_to_squin_kernel.py:276-297 | gates are independent if and only if they share no qubit; other lines never are |
| `Layering.LayerGates` | python/benchmarks/utils/qasm_to_squin_kernel.py:237-297 | the layers are qubit-disjoint, keep every qubit's gate order, and are as many as the depth of the gates |
| `Layering.FindLayer` | python/benchmarks/utils/qasm_to_squin_kernel.py:284-289 | the search stops at the first layer, from the start on, that is free or new |
| `Layering.TightPredecessor` | python/benchmarks/utils/qasm_to_squin_kernel.py:281-297 | every gate above the first layer shares a qubit with an earlier gate one layer below |
| `Layering.DepthIsMinimal` | python/benchmarks/utils/qasm_to_squin_kernel.py:277-297 | no assignment of gates to layers that keeps every qubit's order uses fewer layers |
| `Layering.LevelsRespect` | python/benchmarks/utils/qasm_to_squin_kernel.py:277-297 | the levels keep every qubit's order and use exactly that many layers, so the minimum is reached |
| `Layering.U3DepthIsBusiestQubit` | python/benchmarks/utils/qasm_to_squin_kernel.py:238-255 | a single-qubit block takes exactly as many layers as the busiest qubit has gates |
| `Parallelizer.EmitCzLayers` | python/benchmarks/utils/qasm_to_squin_kernel.py:276-312 | one line per layer, as many as the depth; the gates of a line are on different qubits; expanding gives every qubit its gates in order |
| `Parallelizer.GroupLayer` | python/benchmarks/utils/qasm_to_squin_kernel.py:257-266 | grouping a layer by angles keeps every qubit's gates, with no angles twice |
| `Parallelizer.EmitU3Layers` | python/benchmarks/utils/qasm_to_squin_kernel.py:237-273 | the output falls into as many runs as the depth, in each of which no angles and no qubit occur twice; expanding gives every qubit its gates in order |
| `Parallelizer.BlockParallelizer.constructor` | python/benchmarks/utils/qasm_to_squin_kernel.py:317-321 | the pass starts with no output and no open block |
| `Parallelizer.BlockParallelizer.FlushBlock` | python/benchmarks/utils/qasm_to_squin_kernel.py:323-336 | closing a block appends an emission of its gates and changes nothing for any qubit |
| `Parallelizer.BlockParallelizer.Feed` | python/benchmarks/utils/qasm_to_squin_kernel.py:338-364 | one line extends the open block, or closes it and opens another or passes through; the lines read so far keep their meaning |
| `Parallelizer.ParallelizeSquinBlocks` | python/benchmarks/utils/qasm_to_squin_kernel.py:315-366 | expanding the output gives every qubit the input's lines in order with other lines as barriers, and the output is made block by maximal block, each with the fewest layers |
| `Parallelizer.BlocksAreTheLines` | python/benchmarks/utils/qasm_to_squin_kernel.py:338-364 | the blocks one after another are the lines |
| `Parallelizer.BlocksAreMaximal` | python/benchmarks/utils/qasm_to_squin_kernel.py:338-364 | a block is gates of one kind or one other line, and no two neighbours could be one block |
| `Addr.LocationRoundTrip` | crates/bloqade-lanes-bytecode-core/src/arch/addr.rs:58-76 | a location survives packing if and only if its fields fit their bits |
| `Addr.LocationReencode` | crates/bloqade-lanes-bytecode-core/src/arch/addr.rs:62-76 | unpacking and packing 64 bits clears the padding and keeps the rest |
| `Addr.LaneRoundTrip` | crates/bloqade-lanes-bytecode-core/src/arch/addr.rs:110-165 | unpacking a packed lane never panics, keeps the low bits of every field, and is the identity if and only if the fields fit |
| `Addr.LaneEncodingInjective` | crates/bloqade-lanes-bytecode-core/src/arch/addr.rs:110-126 | in-range lanes with equal packed words, in either form, are equal |
| `Formats.LocationBits` | crates/bloqade-lanes-bytecode-core/src/arch/addr.rs:58-67 | the bits of a packed location: zone in the top 8, word in the next 16, site in the next 16, and 24 zeros |
| `Formats.LaneBits` | crates/bloqade-lanes-bytecode-core/src/arch/addr.rs:90-126 | the bits of a packed lane: word and site in the first word; direction, type, zone, 5 zeros and bus in the second; the first is the low half of the 64-bit form |
| `Codec.DecodeEncode` | crates/bloqade-lanes-bytecode-core/src/bytecode/encode.rs:40-220 | decoding an encoded instruction gives it back, for every instruction |
| `Codec.EncodeDecode` | crates/bloqade-lanes-bytecode-core/src/bytecode/encode.rs:115-220 | encoding a decoded instruction gives back the opcode and all the bits that matter, so no two kinds share an opcode |
| `Formats.CpuWords` | crates/bloqade-lanes-bytecode-core/src/bytecode/encode.rs:40-75 | the four words of each CPU instruction, with its opcode as a literal |
| `Formats.LaneConstantWords` | crates/bloqade-lanes-bytecode-core/src/bytecode/encode.rs:59-68 | the four words of each lane constant |
| `Formats.ArrangementWords` | crates/bloqade-lanes-bytecode-core/src/bytecode/encode.rs:92-101 | the four words of each atom arrangement instruction |
| `Formats.GateWords` | crates/bloqade-lanes-bytecode-core/src/bytecode/encode.rs:92-108 | the four words of each gate instruction |
| `Formats.MeasurementWords` | crates/bloqade-lanes-bytecode-core/src/bytecode/encode.rs:92-108 | the four words of each measurement instruction |
| `Formats.ArrayWords` | crates/bloqade-lanes-bytecode-core/src/bytecode/encode.rs:77-111 | the four words of each array, detector and observable instruction |
| `Formats.OpcodesInUse` | crates/bloqade-lanes-bytecode-core/src/bytecode/opcode.rs:130-200 | exactly 24 opcodes decode; of the others, one with an empty upper half and an unused low byte is an unknown device, any other an unknown opcode |
| `Formats.LittleEndianMeans` | crates/bloqade-lanes-bytecode-core/src/bytecode/encode.rs:226-243 | the bytes of a word, least significant first, in both directions |
| `Formats.BytesInOrder` | crates/bloqade-lanes-bytecode-core/src/bytecode/encode.rs:226-234 | the sixteen bytes are the four words in order |
| `Codec.ToBytes` | crates/bloqade-lanes-bytecode-core/src/bytecode/encode.rs:226-234 | the sixteen bytes are the four words, each little-endian |
| `Codec.BytesRoundTrip` | crates/bloqade-lanes-bytecode-core/src/bytecode/encode.rs:226-243 | the sixteen bytes of every instruction decode to it |
| `Container.ToBinary` | crates/bloqade-lanes-bytecode-core/src/bytecode/program.rs:64-89 | the bytes are the header, the metadata section and the code section, whose length is cut to 32 bits |
| `Formats.HeaderBytes` | crates/bloqade-lanes-bytecode-core/src/bytecode/program.rs:64-83 | the 28 bytes before the code as literals, with minor and major version and the code length in place |
| `Formats.BinaryBytes` | crates/bloqade-lanes-bytecode-core/src/bytecode/program.rs:64-89 | a written program is those 28 bytes and then 16 for each instruction, in order |
| `Container.FromBinary` | crates/bloqade-lanes-bytecode-core/src/bytecode/program.rs:92-184 | reads any bytes within bounds, advancing at least 8 bytes a section, and equals the recursive reading of the sections, errors included |
| `Container.ReadCode` | crates/bloqade-lanes-bytecode-core/src/bytecode/program.rs:157-170 | decodes the blocks in order and stops at the first that does not decode |
| `Container.ReadBackWhatWasWritten` | crates/bloqade-lanes-bytecode-core/src/bytecode/program.rs:64-184 | for every program and every trailing bytes, reading gives the version and the first n mod 2^28 of the n instructions |
| `Container.RoundTripIff` | crates/bloqade-lanes-bytecode-core/src/bytecode/program.rs:64-184 | a program survives writing and reading if and only if it has fewer than 2^28 instructions |
| `Container.PrefixIsTruncatedIff` | crates/bloqade-lanes-bytecode-core/src/bytecode/program.rs:64-184 | the first k bytes of any written program are refused as truncated if and only if k is below 28 plus 16 times (n mod 2^28); otherwise they give the instructions that the length field counts |
| `Container.EveryPrefixIsTruncated` | crates/bloqade-lanes-bytecode-core/src/bytecode/program.rs:92-139 | with fewer than 2^28 instructions every proper prefix of a written program is refused as truncated, with its length and a larger expected one |
| `Container.TrailingBytesIgnored` | crates/bloqade-lanes-bytecode-core/src/bytecode/program.rs:92-184 | bytes after an accepted file change nothing |
| `Container.AcceptedProgramsRoundTrip` | crates/bloqade-lanes-bytecode-core/src/bytecode/program.rs:92-184 | accepted bytes hold at least 8 a declared section, and what they decode to survives writing and reading |
| `Sections.SectionMeans` | crates/bloqade-lanes-bytecode-core/src/bytecode/program.rs:141-172 | one section: metadata of 4 bytes or more gives its version, a code section of blocks that all decode gives them, and any other is refused with the error of its kind, length or first bad block |
| `Sections.FileMeans` | crates/bloqade-lanes-bytecode-core/src/bytecode/program.rs:92-184 | a file of any sections, whatever follows: the first bad section refuses it; else it lacks metadata, lacks code, or gives the version of its last metadata and the code of its last code section |
| `Sections.AcceptedIsFile` | crates/bloqade-lanes-bytecode-core/src/bytecode/program.rs:92-184 | any accepted bytes are such a file of good sections with at least one of each kind, and something after it |
| `Text.LinesAppend` | crates/bloqade-lanes-bytecode-core/src/bytecode/text.rs:54-55 | splitting text after a line end splits its lines |
| `Text.ContentIgnoresComment` | crates/bloqade-lanes-bytecode-core/src/bytecode/text.rs:57-62 | what follows a semicolon does not change the content of a line |
| `Text.ContentIgnoresCr` | crates/bloqade-lanes-bytecode-core/src/bytecode/text.rs:54-62 | a carriage return at the end of a line does not change its content |
| `Text.TokensOfSpaced` | crates/bloqade-lanes-bytecode-core/src/bytecode/text.rs:81-84 | splitting words joined by blanks gives the words |
| `Spellings.WhiteMeans` | crates/bloqade-lanes-bytecode-core/src/bytecode/text.rs:62-83 | the 25 blank characters |
| `Spellings.LineEnds` | crates/bloqade-lanes-bytecode-core/src/bytecode/text.rs:54-55 | the last line needs no line end and keeps a carriage return, an empty one does not count, and one carriage return before a line end is dropped |
| `Spellings.OuterBlanksIgnored` | crates/bloqade-lanes-bytecode-core/src/bytecode/text.rs:57-66 | a blank of any kind before or after a line does not change its content |
| `Spellings.BlankFirst` | crates/bloqade-lanes-bytecode-core/src/bytecode/text.rs:81-84 | a blank of any kind in front does not change the tokens |
| `Spellings.WordFirst` | crates/bloqade-lanes-bytecode-core/src/bytecode/text.rs:81-84 | a run without blanks that a blank or the end follows is the first token |
| `Text.HexRoundTrip` | crates/bloqade-lanes-bytecode-core/src/bytecode/text.rs:232-264 | a printed hexadecimal number of any width parses to itself |
| `Text.SignedRoundTrip` | crates/bloqade-lanes-bytecode-core/src/bytecode/text.rs:243-253 | a printed signed number parses to itself, for every 64-bit value |
| `Text.UnsignedRoundTrip` | crates/bloqade-lanes-bytecode-core/src/bytecode/text.rs:266-303 | a printed decimal number below a bound parses to itself |
| `Spellings.DigitMeans` | crates/bloqade-lanes-bytecode-core/src/bytecode/text.rs:232-264 | the value of each digit, hexadecimal ones in both cases |
| `Spellings.ValueMeans` | crates/bloqade-lanes-bytecode-core/src/bytecode/text.rs:232-264 | place values: the value of a numeral in two parts |
| `Spellings.UnsignedMeans` | crates/bloqade-lanes-bytecode-core/src/bytecode/text.rs:266-303 | an unsigned operand is accepted if and only if it is one or more digits, after one plus at most, of a value below the bound |
| `Spellings.DecimalWidths` | crates/bloqade-lanes-bytecode-core/src/bytecode/text.rs:266-303 | the bounds of the 8, 16 and 32-bit operands |
| `Spellings.HexPrefixOptional` | crates/bloqade-lanes-bytecode-core/src/bytecode/text.rs:232-264 | "0x", "0X" and no prefix are the same |
| `Spellings.HexWidths` | crates/bloqade-lanes-bytecode-core/src/bytecode/text.rs:232-264 | the bounds of the 32 and 64-bit hexadecimal operands |
| `Spellings.UpperCaseSame` | crates/bloqade-lanes-bytecode-core/src/bytecode/text.rs:232-264 | upper-case hexadecimal digits are worth what lower-case ones are |
| `Spellings.HexIntegers` | crates/bloqade-lanes-bytecode-core/src/bytecode/text.rs:243-253 | `const_int` reads hexadecimal as a 64-bit pattern, the upper half negative |
| `Spellings.DecimalIntegers` | crates/bloqade-lanes-bytecode-core/src/bytecode/text.rs:243-253 | `const_int` reads decimals from -2^63 to 2^63 - 1 and refuses others; a plus does not matter |
| `Assembly.ParseText` | crates/bloqade-lanes-bytecode-core/src/bytecode/text.rs:50-93 | the loop over the lines equals the recursive reading of them, errors and line numbers included |
| `Spellings.VersionMeans` | crates/bloqade-lanes-bytecode-core/src/bytecode/text.rs:280-296 | a version is accepted if and only if it is "major.minor", or "major" alone with minor 0, of 16-bit numbers |
| `Spellings.BareVersionLine` | crates/bloqade-lanes-bytecode-core/src/bytecode/text.rs:280-296 | a source whose first line is ".version" and a bare number has that version with minor 0 |
| `Spellings.Directive` | crates/bloqade-lanes-bytecode-core/src/bytecode/text.rs:68-79 | a directive other than `.version` adds nothing; `.version` sets the version in place of an earlier one, or is refused |
| `Spellings.BareDirective` | crates/bloqade-lanes-bytecode-core/src/bytecode/text.rs:68-79 | `.version` without a value is refused, another directive is not |
| `Spellings.VersionRequired` | crates/bloqade-lanes-bytecode-core/src/bytecode/text.rs:88-93 | a source without lines, or of an instruction alone, lacks its version |
| `Spellings.KnownNames` | crates/bloqade-lanes-bytecode-core/src/bytecode/text.rs:95-219 | exactly the 24 instruction names are known |
| `Spellings.OperandRequired` | crates/bloqade-lanes-bytecode-core/src/bytecode/text.rs:221-230 | a name that takes an operand asks for it by name, one that takes none does not |
| `Spellings.MoreOperandsIgnored` | crates/bloqade-lanes-bytecode-core/src/bytecode/text.rs:95-219 | operands beyond those an instruction takes are ignored |
| `Spellings.BadOperandRefused` | crates/bloqade-lanes-bytecode-core/src/bytecode/text.rs:95-219 | an operand that is no number of its width is an invalid operand |
| `Spellings.ArrayOperands` | crates/bloqade-lanes-bytecode-core/src/bytecode/text.rs:186-200 | the operands of `new_array`, and which one is at fault or missing |
| `Assembly.BlankLineIgnored` | crates/bloqade-lanes-bytecode-core/src/bytecode/text.rs:57-66 | a blank or comment line put anywhere between lines leaves the result as it is, but for the line numbers of errors after it |
| `Assembly.OnlyContentMatters` | crates/bloqade-lanes-bytecode-core/src/bytecode/text.rs:54-66 | two lines with the same content can be exchanged anywhere in a source |
| `Assembly.CommentIgnored` | crates/bloqade-lanes-bytecode-core/src/bytecode/text.rs:57-62 | a comment put at the end of any line leaves the result as it is |
| `Disassembly.PrintText` | crates/bloqade-lanes-bytecode-core/src/bytecode/text.rs:306-318 | the version line and one line an instruction, each ended by a line feed |
| `PrintedForms.BareForms` | crates/bloqade-lanes-bytecode-core/src/bytecode/text.rs:320-330 | the text of the CPU instructions without operand |
| `PrintedForms.BareDeviceForms` | crates/bloqade-lanes-bytecode-core/src/bytecode/text.rs:346-375 | the text of the other instructions without operand |
| `PrintedForms.ConstantForms` | crates/bloqade-lanes-bytecode-core/src/bytecode/text.rs:322-338 | the text of the constants, with the widths of their hexadecimal |
| `PrintedForms.ArityForms` | crates/bloqade-lanes-bytecode-core/src/bytecode/text.rs:339-355 | the text of the instructions with an arity |
| `PrintedForms.ArrayForms` | crates/bloqade-lanes-bytecode-core/src/bytecode/text.rs:357-370 | the text of the array instructions; a zero second dimension is not printed |
| `PrintedForms.VersionForm` | crates/bloqade-lanes-bytecode-core/src/bytecode/text.rs:306-311 | a printed program starts with its version line |
| `PrintedForms.DigitsMean` | crates/bloqade-lanes-bytecode-core/src/bytecode/text.rs:320-376 | printed digits are lower-case, of their radix and without leading zeros |
| `PrintedForms.DigitCount` | crates/bloqade-lanes-bytecode-core/src/bytecode/text.rs:320-376 | a number below a power of the radix has no more digits than that power |
| `PrintedForms.HexMeans` | crates/bloqade-lanes-bytecode-core/src/bytecode/text.rs:331-337 | hexadecimal is "0x", zeros only to fill the width, and the digits |
| `PrintedForms.FloatForm` | crates/bloqade-lanes-bytecode-core/src/bytecode/text.rs:378-386 | ".0" is added exactly where the display form has neither point nor exponent |
| `Disassembly.InstructionRoundTrip` | crates/bloqade-lanes-bytecode-core/src/bytecode/text.rs:95-219 | the printed mnemonic and operands of an instruction parse to it, a float to whatever its text parses to |
| `Disassembly.VersionRoundTrip` | crates/bloqade-lanes-bytecode-core/src/bytecode/text.rs:280-296 | a printed version parses to itself |
| `Disassembly.ParsePrinted` | crates/bloqade-lanes-bytecode-core/src/bytecode/text.rs:50-386 | for every program, parsing what it prints gives its version and its instructions with each float read again, or the error of the first float that is refused, at its line |
| `Disassembly.TextRoundTripIff` | crates/bloqade-lanes-bytecode-core/src/bytecode/text.rs:50-386 | nothing but a float can be lost: the program comes back if and only if the text of each of its floats parses to that float |
| `Disassembly.FloatRoundTrip` | crates/bloqade-lanes-bytecode-core/src/bytecode/text.rs:378-386 | the printed text of a finite float parses to it, that of NaN or an infinity to nothing |
| `Disassembly.FiniteRoundTrip` | crates/bloqade-lanes-bytecode-core/src/bytecode/text.rs:50-386 | the program comes back if and only if all its floats are finite; otherwise the text is refused at the line of the first float that is not |
| `Disassembly.NanIsRefused` | crates/bloqade-lanes-bytecode-core/src/bytecode/text.rs:378-386 | a program of one NaN prints to text that is refused at its second line |
| `Metrics.RecordsPaired` | python/bloqade/lanes/metrics.py:265-269 | hops and distances are recorded together, so both averages are over the same number |
| `Metrics.BumpCounts` | python/bloqade/lanes/metrics.py:258-262 | a hop counts for its qubit only |
| `Metrics.BumpKeepsOneLeg` | python/bloqade/lanes/metrics.py:258-262 | an episode has one entry for each qubit; a first hop adds one after the others |
| `Metrics.LegsAreMoves` | python/bloqade/lanes/metrics.py:250-263 | within an episode without collisions each qubit has as many hops as its move counter grew, and no entry if it did not move |
| `Metrics.CzRecords` | python/bloqade/lanes/metrics.py:265-270 | a CZ records the hops and distance of every entry, in order, and starts a new episode |
| `Metrics.AveragesMean` | python/bloqade/lanes/metrics.py:272-277 | the averages times the number of recorded entries are the sums; without entries they are zero |
| `Metrics.AnalyzePerCzMotion` | python/bloqade/lanes/metrics.py:233-277 | zeros for a missing or empty layout, None when a lane does not resolve, and otherwise the averages of the hops and of the distances recorded at every CZ |
| `Metrics.HopAgreesIffNoCrash` | python/bloqade/lanes/metrics.py:252-257 | from the same places one lane keeps the metrics and the atom state in step if and only if no atoms crash |
| `Metrics.InStepIffNoCrash` | python/bloqade/lanes/metrics.py:250-263 | over any run from the same places, the metrics and the atom state have the same atoms in the same places after every move if and only if no collision is recorded |
| `Metrics.CrashSeparatesThem` | python/bloqade/lanes/metrics.py:252-257 | a spec, two atoms and one lane after which the metrics hold the mover and the atom state no atom |
| `Metrics.SimulatorsAgree` | python/bloqade/lanes/metrics.py:250-263 | on a run without collisions from a layout of distinct locations, the metrics have the atom state's locations, the recorded and pending hops are the total move count, and the recorded and pending distances are the length of the lanes that found an atom |
| `Metrics.RecordsAreMoves` | python/bloqade/lanes/metrics.py:265-270 | the hops recorded over all episodes are the total move count at the last CZ, the recorded distances the length of the lanes that found an atom until then |

## Left out

- Operational modes, transport paths and their validation; names, flags and blockade radius of a spec: they do not take part in any modelled lookup.
- `check_locations`, `word_partner_map`, `word_zone_map`, home words and `zone_location_index`: easy queries over the same data.
- `AllAtTarget`, `PartialPlacementGoal` and the `PairSeparationGoal` wrapper: one-line conditions; the separation rule inside the last is modelled.
- The search drivers, the lane index and the distance tables around the goals; a configuration is an injective map from qubits to locations.
- `Hash` implementations, JSON forms, the Python and C bindings, the command line, the Starlark adapter, and the rewrites over Kirin IR.
- The bytecode validator and its stack simulation.
- Error message strings: error kinds, with the data they carry, stand for them. The per-bus index a validation error names is not modelled.
- AtomStates.ApplyMoves: `moveCount` is an unbounded number where the source has 32 bits; `History.CountsGrowSlowly` bounds when they can differ; the state is a value, as in the source each call returns a new one; the loop body is a method of its own.
- Validate.ValidateSpec: reports which kinds of error occur, not how many or in what order; the checks for finite numbers have no counterpart over the reals.
- Validate.CheckZoneOverlap: boxes are over real numbers, so floating-point rounding is not modelled.
- ValidSpecs.PositionOutsideOtherZones: positions are real numbers, so floating-point rounding is not modelled.
- ValidSpecs.PositionInOwnZone: positions are real numbers, so floating-point rounding is not modelled.
- GroupCheck.CheckLanes: which errors are reported is stated, not their order and how often each is; positions are compared as real numbers where the source compares bits; zeros of different sign, which the bits tell apart, are equal here.
- Layering.LayerGates: the two emitters share one layering here; a single-qubit gate is a gate with one qubit.
- Parallelizer.ParallelizeSquinBlocks: lines are already recognised as gates or other lines; the regular expressions, the indentation and the inserted import line are not modelled.
- Codec.DecodeEncode: floats are bit patterns.
- Disassembly.FiniteRoundTrip: the float formatter and parser are parameters; that a finite float displays and parses back is an assumption about Rust.
- Assembly.ParseText: a version error carries no message, and an operand error its line but no message.
- Metrics.AnalyzePerCzMotion: the length of a lane is a parameter and distances are real numbers, so floating-point rounding is not modelled; a lane that does not resolve raises an error in the source and is None here.
- Metrics.SimulatorsAgree: layouts of at most 2^32 qubits, which is what the atom state can number.
