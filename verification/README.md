# Delta encoding of a recorded match

This project models the delta encoder inside `better` (main.go). `better`
reads a recorded match one step at a time. Each step is the list of playing
participants, each with a 64-bit identity, a name, a position and the names
of the weapons it holds. The encoder turns the steps into two things:

- two intern tables: one from identity to a short player id, kept with the
  first name seen; one from weapon name to an equipment id. Each table has
  its own counter, starting at 1;
- a timeline with one frame per step. A frame holds the spawned ids, the
  dead ids, the new positions and the equipment changes, all taken against
  the previous step.

The model has five modules:

- `Sequences`: the `contains` helper, plus the filter that the two
  equipment loops build.
- `Interning`: the two tables, interning one key, interning a player's
  weapon list, and interning a sequence of sightings.
- `Differ`: the frame for one step, computed from the previous and current
  snapshots. It also has a reference decoder, `Apply`, which is not in the
  source; it is the partner that the round-trip lemma is stated against.
- `Timeline`: reading one step into the tables and a snapshot, and the left
  fold over all steps (`After`, `Run`). It also holds the run-level
  properties, stated in terms of the input identities, including the
  first-sighting order of both kinds of id over a whole match.
- `Scenarios`: a four-step match worked through the model. A player
  appears, stands still, moves while swapping its rifle for a knife, then
  leaves.

In the source, the parser produces the steps. In the model, the input is a
sequence of steps. Positions are a type parameter with equality only, since
the source only compares them (main.go:199).

Some facts about the code that the model keeps:

- **Equipment is a list.** The code keeps a slice of ids in weapon order
  and appends one id per weapon, so a player's list can hold duplicates.
- **Additions come first.** The change list holds every addition, in the
  order of the current list, before every removal, in the order of the
  previous list. For a rifle-for-knife swap the list is `[2, 1]`
  (`Differ.EquipmentDelta`, `Scenarios.ThirdDiff`).
- **A repeated identity overwrites.** When one identity is observed twice
  in a step, the later observation replaces the earlier one in the snapshot
  (`Timeline.ReadStepLastWins`).
- **The removal loop keeps a redundant test.** It also checks that the id
  is in the previous list, which always holds. The model keeps that test.

## Model

| member | source | states |
|---|---|---|
| Sequences.Contains | main.go:305-312 | The scan answers true exactly when the value occurs in the slice. |
| Sequences.Filter | main.go:204-211 | The append loop keeps every occurrence of a kept element and drops every occurrence of the others. Each element's multiplicity in the result is its multiplicity in the input if kept, and zero otherwise. The result is a subsequence of the input, so kept elements stay in input order. Together these fix the result. |
| Interning.InternPlayer | main.go:150-161 | An unseen identity gets the current counter value. Its record stores that id and the name seen now, and the counter goes up by one. A known identity gets its stored short id, and the table, name included, is unchanged. Either way the key set grows by exactly this key, old entries are untouched, and the table stays injective and dense. |
| Interning.InternEquipment | main.go:165-172 | The same rule on the equipment table and its own counter. A known name keeps its id, a new name gets the counter and the counter goes up by one, and density is preserved. |
| Interning.InternEquipmentList | main.go:163-173 | The id list has one entry per weapon name, in weapon order, each the id the final table gives that name. The table gains exactly the list's names, keeps every old entry, and stays dense. |
| Interning.FirstSightingOrder | main.go:165-169 | A name seen for the first time gets an id larger than the id of every earlier position in the list. Ids follow first-sighting order. |
| Interning.EmptyTablesValid | main.go:128-140 | Both tables start empty with their counters at 1, which is injective and dense. |
| Interning.InternEquipmentListAppend | main.go:163-173 | Interning one name list and then another, on the table the first leaves, gives the same table as interning their concatenation, and the id lists concatenate. |
| Interning.InternPlayers | main.go:150-161 | Interning a sequence of sightings adds exactly the identities sighted, keeps every old record, and keeps the table injective and dense. |
| Interning.InternPlayersAppend | main.go:150-161 | Interning two sequences of sightings in turn is interning their concatenation. |
| Interning.PlayerFirstSightingOrder | main.go:151-154 | An identity at its first sighting gets a larger short id than every identity sighted before it. Short ids follow first-sighting order. |
| Interning.ResolvedSameElements | main.go:163-173 | Through an injective equipment table, two id lists hold the same ids exactly when the two weapon-name lists hold the same names. |
| Differ.Added | main.go:203-211 | The additions are the current ids absent from the previous list, each with its multiplicity in the current list, in the order of the current list. |
| Differ.Removed | main.go:213-221 | The removals are the previous ids absent from the current list, each with its multiplicity in the previous list, in the order of the previous list. |
| Differ.EquipmentDelta | main.go:203-221 | The change list holds exactly the symmetric difference of the two lists, each id with its multiplicity from the list it comes from. Every addition comes before every removal. The additions are a subsequence of the current list and the removals a subsequence of the previous list. The list is empty exactly when both lists hold the same ids. |
| Differ.Spawned | main.go:193-197 | Spawns and survivors partition the current ids. |
| Differ.Died | main.go:187-191 | Deaths and survivors partition the previous ids. |
| Differ.PositionChanges | main.go:195-201 | An id has a position entry exactly when it spawned or its position changed, and the entry is the current position. |
| Differ.EquipmentChanges | main.go:196-222 | An id has an equipment entry exactly when it spawned or its equipment changed as a set. A spawn's entry is its full list, and a survivor's entry is the delta of its two lists. |
| Differ.Diff | main.go:180-223 | The frame: spawns and deaths partition the current and previous ids with the survivors. It has a position entry exactly for spawned or moved ids, and an equipment entry exactly for spawned ids or ids whose equipment set changed. Spawn entries hold the full current state, even an empty list. A survivor's list is its equipment delta. |
| Differ.DiffRoundTrip | main.go:180-223 | Decoding the frame against the previous snapshot restores the current one. Spawned players come back exactly; survivors get their position exactly and their equipment as the same set of ids. |
| Differ.FirstFrame | main.go:187-197 | Against an empty previous snapshot there are no deaths, every present id is a spawn, and each carries its full position and equipment. |
| Differ.DiffSpawnDeath | main.go:187-197 | An id is spawned exactly when present now and not before, and dead exactly when present before and not now. |
| Differ.DiffSpawnEntry | main.go:194-197 | A spawned id's entries are its current position and its current equipment list. |
| Timeline.ReadStep | main.go:147-179 | Reading a step only grows the tables and keeps them injective and dense. Every identity of the step gets a record. The snapshot holds exactly the short ids of the step's identities. |
| Timeline.ReadStepLastWins | main.go:175-178 | For each identity of a step, the snapshot entry is its last observation in the step: that position, and those weapon names resolved in the tables. |
| Timeline.ReadStepKnownAll | main.go:150-178 | Every player id and equipment id in the snapshot exists in the tables just grown. |
| Timeline.ReadStepTables | main.go:147-173 | The player table after a step is the player counter run over the step's sightings in reading order. The equipment table is the equipment counter run over all the step's weapon names in reading order. |
| Timeline.AfterTables | main.go:145-173 | After n steps each table is its counter run from empty over everything seen in those steps, in reading order. |
| Timeline.PlayerIdsInSightingOrder | main.go:150-161 | Over a whole match, an identity at its first sighting gets a larger short id than every identity sighted before it, in an earlier step or earlier in the same step. |
| Timeline.EquipmentIdsInSightingOrder | main.go:163-172 | Over a whole match, a weapon name at its first sighting gets a larger id than every weapon name seen before it. |
| Timeline.TablesIndependent | main.go:139-140 | The two counters are independent: each table after a step depends only on that same table before the step. |
| Timeline.After | main.go:145-227 | After n steps the timeline holds exactly n frames. |
| Timeline.Run | main.go:145-227 | The timeline has one frame per input step. |
| Timeline.FoldInvariant | main.go:139-178 | Through the fold the tables stay injective and dense. The previous snapshot is empty before the first step and afterwards holds exactly the short ids of the last step's identities. |
| Timeline.RunValid | main.go:150-178 | At the end of the run both tables are injective and dense. Every id in any frame, and in the last snapshot, exists in the matching table. |
| Timeline.FoldGrows | main.go:225-226 | Later steps only append frames and only grow the tables. |
| Timeline.AdvanceStep | main.go:146-226 | One iteration appends exactly one frame and leaves the earlier frames alone. It only grows the tables and keeps them injective and dense. The new snapshot holds exactly the short ids of the step's identities. The new frame spawns exactly the ids that joined and kills exactly the ids that left since the previous snapshot. |
| Timeline.FrameAt | main.go:225-226 | Frame i is the diff between the snapshots of steps i-1 and i. The snapshot before the first step is empty. |
| Timeline.SpawnsAndDeathsByKey | main.go:187-197 | An identity's short id is spawned in frame i exactly when the identity plays in step i and not in step i-1. It is dead exactly when it played in step i-1 and not in step i. |
| Timeline.RespawnKeepsId | main.go:151-161 | A player who leaves for one step and returns dies and respawns under the same short id. |
| Timeline.SpawnIsComplete | main.go:193-197 | A spawn records the player's position and full weapon list from its last observation in the step, even an empty one. |
| Timeline.SnapshotEntry | main.go:175-178 | The snapshot entry kept for a player in step i is its last observation in that step. |
| Timeline.SurvivorChanges | main.go:198-221 | A player present in two consecutive steps is neither spawned nor dead. It has a position entry exactly when it moved, holding the new position. It has an equipment entry exactly when the set of its weapon names changed. |
| Scenarios.MatchTimeline | main.go:145-227 | For the sample match, the four frames are a spawn with full state, an empty frame, a move with the change list `[2, 1]`, and a death. |
| Scenarios.MatchTables | main.go:150-173 | After the sample match the player table still holds the departed player, and the equipment table holds both weapons with ids 1 and 2. |
| Scenarios.ThirdDiff | main.go:198-221 | Swapping the rifle (id 1) for the knife (id 2) while moving gives the new position and the list `[2, 1]`. |

## Left out

- The parser, file I/O and `ParseNextFrame`/`GameState()` are external. The model takes the steps as a sequence; a read error aborts the source with `log.Panic`, and the model has no such path.
- JSON and protobuf output, `convertVectorMap` and `convertEquipmentList` (main.go:233-303) only serialise the result.
- `naive` and `main` (main.go:16-94) are a baseline and a timing driver.
- Interning.InternPlayer: does not model the wrap-around of the `uint32` counter `playerIds`. The counter is unbounded, because the number of distinct players in a match is small.
- Interning.InternEquipment: does not model the overflow of the `int32` counter `equipIds`, for the same reason.
- Differ.PositionChanges: equality of positions stands for `r3.Vector.Cmp(...) == 0`. Floating-point comparison, such as NaN coordinates or signed zeros, is not modelled.
- Differ.Diff: spawns and deaths are sets. The source fills its slices in Go map-iteration order, which is unspecified, so only their contents are modelled.
- Differ.DiffRoundTrip: survivors' equipment is restored only as a set of ids. The change list does not say which ids were added and which removed, and its order depends on the source lists.
