/** The accumulator of `better` (main.go:143-227): a left fold over the
    steps of a match. Each step interns the players and their equipment,
    builds `curFrame`, appends the diff against `lastFrame` to the timeline
    and keeps `curFrame` as the next `lastFrame`. The parser is replaced by
    the sequence of steps it would yield. */
module Timeline {
  import opened Interning
  import opened Differ
  import opened Sequences

  /** One playing participant as the parser reports it in one step:
      identity, display name, position and the names of its weapons. */
  datatype Observation<P> = Observation(key: SteamId, name: string, position: P, weapons: seq<string>)

  type Step<P> = seq<Observation<P>>

  /** The two intern tables with their counters. */
  datatype Tables = Tables(players: PlayerTable, equipment: EquipmentTable)
  {
    ghost predicate Valid()
    {
      players.Valid() && equipment.Valid()
    }
  }

  ghost predicate TablesGrow(a: Tables, b: Tables)
  {
    PlayersGrow(a.players, b.players) && EquipmentGrows(a.equipment, b.equipment)
  }

  /** What reading one step yields: the tables after interning and the
      step's snapshot (`curFrame`). */
  datatype Reading<P> = Reading(tables: Tables, snapshot: Snapshot<P>)

  /** The state threaded through the loop: the tables (`game.PlayerMeta`,
      `game.EquipmentMeta` and both counters), `lastFrame` and the frames
      appended so far (`game.Frames`). */
  datatype State<P> = State(tables: Tables, lastFrame: Snapshot<P>, frames: seq<Frame<P>>)

  /** Before the first step: empty tables, counters at 1, an empty
      `lastFrame` and no frames (main.go:128-143). */
  function Initial<P>(): State<P>
  {
    State(Tables(EmptyPlayers, EmptyEquipment), map[], [])
  }

  /** Every identity of the step has a record in the table. */
  ghost predicate Observed<P>(players: PlayerTable, step: Step<P>)
  {
    forall j :: 0 <= j < |step| ==> step[j].key in players.meta
  }

  /** The short ids of the players of one step. */
  ghost function StepIds<P>(players: PlayerTable, step: Step<P>): set<nat>
    requires Observed(players, step)
  {
    set j | 0 <= j < |step| :: players.meta[step[j].key].idShort
  }

  /** No later observation of the step has the same identity as position
      `j`; that is the one `curFrame` keeps, since later writes win. */
  ghost predicate LastOfKey<P>(step: Step<P>, j: int)
    requires 0 <= j < |step|
  {
    forall j' :: j < j' < |step| ==> step[j'].key != step[j].key
  }

  ghost predicate KnownPlayer(t: Tables, id: nat)
  {
    id in ShortIds(t.players.meta).Values
  }

  ghost predicate KnownEquipment(t: Tables, e: nat)
  {
    e in t.equipment.ids.Values
  }

  /** Every id of the snapshot exists in the matching table. */
  ghost predicate SnapshotKnown<P>(s: Snapshot<P>, t: Tables)
  {
    forall id :: id in s ==>
      KnownPlayer(t, id) && forall e :: e in s[id].equipment ==> KnownEquipment(t, e)
  }

  /** Every id the frame mentions exists in the matching table. */
  ghost predicate FrameKnown<P>(f: Frame<P>, t: Tables)
  {
    && (forall id :: id in f.spawn ==> KnownPlayer(t, id))
    && (forall id :: id in f.death ==> KnownPlayer(t, id))
    && (forall id :: id in f.positionChange ==> KnownPlayer(t, id))
    && (forall id :: id in f.equipmentChange ==>
          KnownPlayer(t, id) && forall e :: e in f.equipmentChange[id] ==> KnownEquipment(t, e))
  }

  /** Reads one step (main.go:147-179): each observation, in the order the
      parser gives them, interns its identity and then its weapons, and
      writes its entry of `curFrame`. The snapshot holds exactly the short
      ids of the step's identities, and the tables only grow and stay
      injective and dense. */
  function ReadStep<P>(t: Tables, step: Step<P>): (r: Reading<P>)
    ensures TablesGrow(t, r.tables)
    ensures Observed(r.tables.players, step)
    ensures r.snapshot.Keys == StepIds(r.tables.players, step)
    ensures t.Valid() ==> r.tables.Valid()
    decreases |step|
  {
    if |step| == 0 then Reading(t, map[])
    else
      var init := step[..|step| - 1];
      var o := step[|step| - 1];
      var r1 := ReadStep(t, init);
      var (players, id) := InternPlayer(r1.tables.players, o.key, o.name);
      var (equipment, ids) := InternEquipmentList(r1.tables.equipment, o.weapons);
      var r := Reading(Tables(players, equipment), r1.snapshot[id := FrameInfo(o.position, ids)]);
      assert TablesGrow(t, r.tables) by {
        TablesGrowTransitive(t, r1.tables, r.tables);
      }
      assert Observed(r.tables.players, step) && r.snapshot.Keys == StepIds(r.tables.players, step) by {
        ReadStepKeys(step, r1.tables.players, players, r1.snapshot, o.position, ids);
      }
      r
  }

  /** One unfolding of ReadStep: the last observation is read last. */
  lemma ReadStepLast<P>(t: Tables, step: Step<P>)
    requires |step| > 0
    ensures var r1 := ReadStep(t, step[..|step| - 1]);
      var o := step[|step| - 1];
      var p := InternPlayer(r1.tables.players, o.key, o.name);
      var e := InternEquipmentList(r1.tables.equipment, o.weapons);
      ReadStep(t, step) == Reading(Tables(p.0, e.0), r1.snapshot[p.1 := FrameInfo(o.position, e.1)])
  {
  }

  /** Every id of the snapshot just read exists in the tables just grown. */
  lemma {:induction false} ReadStepKnownAll<P>(t: Tables, step: Step<P>)
    ensures SnapshotKnown(ReadStep(t, step).snapshot, ReadStep(t, step).tables)
    decreases |step|
  {
    if |step| > 0 {
      var init := step[..|step| - 1];
      var o := step[|step| - 1];
      ReadStepKnownAll(t, init);
      ReadStepLast(t, step);
      var r1 := ReadStep(t, init);
      var p := InternPlayer(r1.tables.players, o.key, o.name);
      ReadStepKnown(r1, ReadStep(t, step), o.key, o.weapons, p.1);
    }
  }

  /** When an identity occurs more than once in a step, the snapshot keeps
      its last observation: that position, and those weapons resolved in
      the tables (main.go:175-178 overwrites the entry). */
  lemma {:induction false} ReadStepLastWins<P>(t: Tables, step: Step<P>)
    requires t.Valid()
    ensures forall j :: 0 <= j < |step| && LastOfKey(step, j) ==>
              var r := ReadStep(t, step);
              var id := r.tables.players.meta[step[j].key].idShort;
              && id in r.snapshot
              && r.snapshot[id].position == step[j].position
              && Resolves(r.tables.equipment, step[j].weapons, r.snapshot[id].equipment)
    decreases |step|
  {
    if |step| > 0 {
      var init := step[..|step| - 1];
      var o := step[|step| - 1];
      ReadStepLastWins(t, init);
      ReadStepLast(t, step);
      var r1 := ReadStep(t, init);
      var p := InternPlayer(r1.tables.players, o.key, o.name);
      ReadStepContents(step, r1, ReadStep(t, step), p.1);
    }
  }

  lemma ReadStepKeys<P>(step: Step<P>, a: PlayerTable, b: PlayerTable, snap: Snapshot<P>, pos: P, ids: seq<nat>)
    requires |step| > 0
    requires Observed(a, step[..|step| - 1])
    requires snap.Keys == StepIds(a, step[..|step| - 1])
    requires b == InternPlayer(a, step[|step| - 1].key, step[|step| - 1].name).0
    ensures Observed(b, step)
    ensures snap[b.meta[step[|step| - 1].key].idShort := FrameInfo(pos, ids)].Keys == StepIds(b, step)
  {
    var n := |step| - 1;
    var init := step[..n];
    assert forall j :: 0 <= j < n ==> step[j] == init[j];
    StepIdsGrow(a, b, init);
    assert StepIds(b, step) == StepIds(b, init) + {b.meta[step[n].key].idShort};
  }

  lemma ReadStepKnown<P>(r1: Reading<P>, r: Reading<P>, key: SteamId, weapons: seq<string>, id: nat)
    requires SnapshotKnown(r1.snapshot, r1.tables)
    requires TablesGrow(r1.tables, r.tables)
    requires key in r.tables.players.meta && r.tables.players.meta[key].idShort == id
    requires r.snapshot.Keys == r1.snapshot.Keys + {id}
    requires Resolves(r.tables.equipment, weapons, r.snapshot[id].equipment)
    requires forall i :: i in r1.snapshot && i != id ==> r.snapshot[i] == r1.snapshot[i]
    ensures SnapshotKnown(r.snapshot, r.tables)
  {
    forall i | i in r.snapshot
      ensures KnownPlayer(r.tables, i)
      ensures forall e :: e in r.snapshot[i].equipment ==> KnownEquipment(r.tables, e)
    {
      if i == id {
        assert ShortIds(r.tables.players.meta)[key] == i;
        forall e | e in r.snapshot[i].equipment
          ensures KnownEquipment(r.tables, e)
        {
          var q :| 0 <= q < |r.snapshot[i].equipment| && r.snapshot[i].equipment[q] == e;
          assert r.tables.equipment.ids[weapons[q]] == e;
        }
      } else {
        PlayerIdsGrow(r1.tables.players, r.tables.players, i);
        forall e | e in r.snapshot[i].equipment
          ensures KnownEquipment(r.tables, e)
        {
          EquipmentIdsGrow(r1.tables.equipment, r.tables.equipment, e);
        }
      }
    }
  }

  lemma ReadStepContents<P>(step: Step<P>, r1: Reading<P>, r: Reading<P>, id: nat)
    requires |step| > 0
    requires TablesGrow(r1.tables, r.tables)
    requires r.tables.Valid()
    requires Observed(r1.tables.players, step[..|step| - 1])
    requires r1.snapshot.Keys == StepIds(r1.tables.players, step[..|step| - 1])
    requires forall j :: 0 <= j < |step| - 1 && LastOfKey(step[..|step| - 1], j) ==>
               var idj := r1.tables.players.meta[step[j].key].idShort;
               && r1.snapshot[idj].position == step[j].position
               && Resolves(r1.tables.equipment, step[j].weapons, r1.snapshot[idj].equipment)
    requires step[|step| - 1].key in r.tables.players.meta
    requires r.tables.players.meta[step[|step| - 1].key].idShort == id
    requires id in r.snapshot
    requires r.snapshot[id].position == step[|step| - 1].position
    requires Resolves(r.tables.equipment, step[|step| - 1].weapons, r.snapshot[id].equipment)
    requires forall i :: i in r1.snapshot && i != id ==> i in r.snapshot && r.snapshot[i] == r1.snapshot[i]
    ensures forall j :: 0 <= j < |step| && LastOfKey(step, j) ==>
              var idj := r.tables.players.meta[step[j].key].idShort;
              && r.snapshot[idj].position == step[j].position
              && Resolves(r.tables.equipment, step[j].weapons, r.snapshot[idj].equipment)
  {
    var n := |step| - 1;
    var init := step[..n];
    forall j | 0 <= j < |step| && LastOfKey(step, j)
      ensures var idj := r.tables.players.meta[step[j].key].idShort;
              && r.snapshot[idj].position == step[j].position
              && Resolves(r.tables.equipment, step[j].weapons, r.snapshot[idj].equipment)
    {
      if j < n {
        assert step[j] == init[j];
        assert LastOfKey(init, j);
        assert step[n].key != step[j].key;
        var idj := r1.tables.players.meta[step[j].key].idShort;
        assert idj in r1.snapshot;
        assert r.tables.players.meta[step[j].key].idShort == idj;
        assert ShortIds(r.tables.players.meta)[step[j].key] == idj;
        assert ShortIds(r.tables.players.meta)[step[n].key] == id;
        assert idj != id;
        ResolvesGrow(r1.tables.equipment, r.tables.equipment, step[j].weapons, r1.snapshot[idj].equipment);
      }
    }
  }

  /** The short ids of a step do not change as the player table grows. */
  lemma StepIdsGrow<P>(a: PlayerTable, b: PlayerTable, step: Step<P>)
    requires PlayersGrow(a, b)
    requires Observed(a, step)
    ensures Observed(b, step)
    ensures StepIds(a, step) == StepIds(b, step)
  {
  }

  lemma TablesGrowTransitive(a: Tables, b: Tables, c: Tables)
    requires TablesGrow(a, b) && TablesGrow(b, c)
    ensures TablesGrow(a, c)
  {
  }

  /** A frame stays known as the tables grow. */
  lemma FrameKnownGrow<P>(f: Frame<P>, a: Tables, b: Tables)
    requires TablesGrow(a, b)
    requires FrameKnown(f, a)
    ensures FrameKnown(f, b)
  {
    forall id | KnownPlayer(a, id)
      ensures KnownPlayer(b, id)
    {
      PlayerIdsGrow(a.players, b.players, id);
    }
    forall e | KnownEquipment(a, e)
      ensures KnownEquipment(b, e)
    {
      EquipmentIdsGrow(a.equipment, b.equipment, e);
    }
  }

  /** A frame built from two known snapshots is known. */
  lemma DiffKnown<P>(last: Snapshot<P>, cur: Snapshot<P>, t: Tables)
    requires SnapshotKnown(last, t) && SnapshotKnown(cur, t)
    ensures FrameKnown(Diff(last, cur), t)
  {
    var f := Diff(last, cur);
    forall id | id in f.equipmentChange
      ensures forall e :: e in f.equipmentChange[id] ==> KnownEquipment(t, e)
    {
      assert forall e :: e in f.equipmentChange[id] ==> e in cur[id].equipment || (id in last && e in last[id].equipment);
    }
  }


  /** One iteration of the loop (main.go:146-227): read the step, append the
      frame diffed against `lastFrame`, and keep `curFrame`. */
  function Advance<P(==)>(s: State<P>, step: Step<P>): State<P>
  {
    var r := ReadStep(s.tables, step);
    State(r.tables, r.snapshot, s.frames + [Diff(s.lastFrame, r.snapshot)])
  }

  /** One iteration grows the timeline by exactly one frame and only grows
      the tables. The new snapshot holds the short ids of the step's
      players, and the new frame spawns the players who joined and kills
      the players who left since the previous snapshot. */
  lemma AdvanceStep<P>(s: State<P>, step: Step<P>)
    ensures var r := Advance(s, step);
      && |r.frames| == |s.frames| + 1 && r.frames[..|s.frames|] == s.frames
      && TablesGrow(s.tables, r.tables)
      && (s.tables.Valid() ==> r.tables.Valid())
      && Observed(r.tables.players, step) && r.lastFrame.Keys == StepIds(r.tables.players, step)
      && r.frames[|s.frames|].spawn == r.lastFrame.Keys - s.lastFrame.Keys
      && r.frames[|s.frames|].death == s.lastFrame.Keys - r.lastFrame.Keys
  {
    var r := ReadStep(s.tables, step);
    var f := Diff(s.lastFrame, r.snapshot);
    assert Advance(s, step) == State(r.tables, r.snapshot, s.frames + [f]);
    assert (s.frames + [f])[..|s.frames|] == s.frames;
  }

  /** The loop state after the first `n` steps: a left fold, one frame per
      step (main.go:145-227). */
  function After<P(==)>(steps: seq<Step<P>>, n: nat): (s: State<P>)
    requires n <= |steps|
    ensures |s.frames| == n
  {
    if n == 0 then Initial()
    else Advance(After(steps, n - 1), steps[n - 1])
  }

  /** The whole loop: every step read, the timeline and both tables as
      `better` leaves them before serialising. */
  function Run<P(==)>(steps: seq<Step<P>>): (s: State<P>)
    ensures |s.frames| == |steps|
  {
    After(steps, |steps|)
  }

  /** What the fold keeps true of the tables: they stay injective and
      dense, and `lastFrame` holds exactly the players of the last step
      read. */
  lemma {:induction false} FoldInvariant<P>(steps: seq<Step<P>>, n: nat)
    requires n <= |steps|
    ensures var s := After(steps, n);
      && s.tables.Valid()
      && (n == 0 ==> s.lastFrame == map[])
      && (n > 0 ==> Observed(s.tables.players, steps[n - 1]))
      && (n > 0 ==> s.lastFrame.Keys == StepIds(s.tables.players, steps[n - 1]))
  {
    if n == 0 {
      EmptyTablesValid();
    } else {
      var prev := After(steps, n - 1);
      FoldInvariant(steps, n - 1);
      var r := ReadStep(prev.tables, steps[n - 1]);
      FoldStep(steps, n);
    }
  }

  /** Every id that `lastFrame` mentions exists in the matching table. */
  lemma LastFrameKnown<P>(steps: seq<Step<P>>, n: nat)
    requires n <= |steps|
    ensures SnapshotKnown(After(steps, n).lastFrame, After(steps, n).tables)
  {
    if n > 0 {
      var prev := After(steps, n - 1);
      var r := ReadStep(prev.tables, steps[n - 1]);
      FoldStep(steps, n);
      ReadStepKnownAll(prev.tables, steps[n - 1]);
    }
  }

  /** Every id that any frame mentions exists in the matching table. */
  lemma {:induction false} FoldKnown<P>(steps: seq<Step<P>>, n: nat)
    requires n <= |steps|
    ensures TimelineKnown(After(steps, n).frames, After(steps, n).tables)
  {
    if n > 0 {
      var prev := After(steps, n - 1);
      FoldKnown(steps, n - 1);
      LastFrameKnown(steps, n - 1);
      var r := ReadStep(prev.tables, steps[n - 1]);
      var f := Diff(prev.lastFrame, r.snapshot);
      FrameKnownStep(prev.lastFrame, prev.tables, steps[n - 1]);
      TimelineKnownExtend(prev.frames, f, prev.tables, r.tables);
      FoldStep(steps, n);
    }
  }

  /** The frame written for a step is known to the tables after the step. */
  lemma FrameKnownStep<P>(last: Snapshot<P>, t: Tables, step: Step<P>)
    requires SnapshotKnown(last, t)
    ensures TablesGrow(t, ReadStep(t, step).tables)
    ensures FrameKnown(Diff(last, ReadStep(t, step).snapshot), ReadStep(t, step).tables)
  {
    var r := ReadStep(t, step);
    ReadStepKnownAll(t, step);
    SnapshotKnownGrow(last, t, r.tables);
    DiffKnown(last, r.snapshot, r.tables);
  }

  /** Every frame of the timeline is known. */
  ghost predicate TimelineKnown<P>(frames: seq<Frame<P>>, t: Tables)
  {
    forall i :: 0 <= i < |frames| ==> FrameKnown(frames[i], t)
  }

  lemma TimelineKnownExtend<P>(frames: seq<Frame<P>>, f: Frame<P>, a: Tables, b: Tables)
    requires TablesGrow(a, b)
    requires TimelineKnown(frames, a)
    requires FrameKnown(f, b)
    ensures TimelineKnown(frames + [f], b)
  {
    forall i | 0 <= i < |frames|
      ensures FrameKnown(frames[i], b)
    {
      FrameKnownGrow(frames[i], a, b);
    }
  }

  /** At the end of the run the tables are injective and dense and every id
      of the timeline exists in the matching table. */
  lemma RunValid<P>(steps: seq<Step<P>>)
    ensures Run(steps).tables.Valid()
    ensures SnapshotKnown(Run(steps).lastFrame, Run(steps).tables)
    ensures TimelineKnown(Run(steps).frames, Run(steps).tables)
  {
    FoldInvariant(steps, |steps|);
    LastFrameKnown(steps, |steps|);
    FoldKnown(steps, |steps|);
  }

  /** A snapshot stays known as the tables grow. */
  lemma SnapshotKnownGrow<P>(snap: Snapshot<P>, a: Tables, b: Tables)
    requires TablesGrow(a, b)
    requires SnapshotKnown(snap, a)
    ensures SnapshotKnown(snap, b)
  {
    forall id | id in snap
      ensures KnownPlayer(b, id)
      ensures forall e :: e in snap[id].equipment ==> KnownEquipment(b, e)
    {
      PlayerIdsGrow(a.players, b.players, id);
      forall e | e in snap[id].equipment
        ensures KnownEquipment(b, e)
      {
        EquipmentIdsGrow(a.equipment, b.equipment, e);
      }
    }
  }

  /** The identities playing in one step. */
  ghost function Identities<P>(step: Step<P>): set<SteamId>
  {
    set j | 0 <= j < |step| :: step[j].key
  }

  /** Later steps only append frames and only grow the tables. */
  lemma FoldGrows<P>(steps: seq<Step<P>>, m: nat, n: nat)
    requires m <= n <= |steps|
    ensures After(steps, m).frames == After(steps, n).frames[..m]
    ensures TablesGrow(After(steps, m).tables, After(steps, n).tables)
  {
    FramesPrefix(steps, m, n);
    TablesGrowAcross(steps, m, n);
  }

  lemma {:induction false} FramesPrefix<P>(steps: seq<Step<P>>, m: nat, n: nat)
    requires m <= n <= |steps|
    ensures After(steps, m).frames == After(steps, n).frames[..m]
    decreases n
  {
    if m < n {
      FramesPrefix(steps, m, n - 1);
      FoldAppends(steps, n);
      PrefixOfPrefix(After(steps, m).frames, After(steps, n - 1).frames, After(steps, n).frames, m);
    }
  }

  lemma PrefixOfPrefix<T>(a: seq<T>, b: seq<T>, c: seq<T>, m: nat)
    requires m <= |b| <= |c|
    requires a == b[..m] && b == c[..|b|]
    ensures a == c[..m]
  {
  }

  lemma {:induction false} TablesGrowAcross<P>(steps: seq<Step<P>>, m: nat, n: nat)
    requires m <= n <= |steps|
    ensures TablesGrow(After(steps, m).tables, After(steps, n).tables)
    decreases n
  {
    if m < n {
      TablesGrowAcross(steps, m, n - 1);
      FoldAppends(steps, n);
      TablesGrowTransitive(After(steps, m).tables, After(steps, n - 1).tables, After(steps, n).tables);
    }
  }

  /** One step appends one frame and only grows the tables. */
  lemma FoldAppends<P>(steps: seq<Step<P>>, n: nat)
    requires 0 < n <= |steps|
    ensures After(steps, n).frames[..n - 1] == After(steps, n - 1).frames
    ensures TablesGrow(After(steps, n - 1).tables, After(steps, n).tables)
  {
    var prev := After(steps, n - 1);
    var r := ReadStep(prev.tables, steps[n - 1]);
    FoldStep(steps, n);
    assert After(steps, n).frames[..n - 1] == prev.frames;
  }

  /** Frame `i` is the diff of the snapshots of steps i-1 and i, the one
      before the first step being empty (main.go:143, 225-226). */
  lemma FrameAt<P>(steps: seq<Step<P>>, i: nat)
    requires i < |steps|
    ensures Run(steps).frames[i] == Diff(After(steps, i).lastFrame, After(steps, i + 1).lastFrame)
  {
    FoldGrows(steps, i + 1, |steps|);
    var a := After(steps, i);
    var b := After(steps, i + 1);
    var r := ReadStep(a.tables, steps[i]);
    FoldStep(steps, i + 1);
    assert b.frames[i] == Diff(a.lastFrame, b.lastFrame);
    assert b.frames == Run(steps).frames[..i + 1];
  }

  /** One unfolding of the fold. */
  lemma FoldStep<P>(steps: seq<Step<P>>, n: nat)
    requires 0 < n <= |steps|
    ensures var a := After(steps, n - 1);
      var r := ReadStep(a.tables, steps[n - 1]);
      After(steps, n) == State(r.tables, r.snapshot, a.frames + [Diff(a.lastFrame, r.snapshot)])
  {
    var a := After(steps, n - 1);
    assert After(steps, n) == Advance(a, steps[n - 1]);
  }

  /** The short id of `k` is among the ids of a step exactly when `k` plays
      in it: the player table is injective. */
  lemma StepIdsByKey<P>(players: PlayerTable, step: Step<P>, k: SteamId)
    requires players.Valid()
    requires Observed(players, step)
    requires k in players.meta
    ensures players.meta[k].idShort in StepIds(players, step) <==> k in Identities(step)
  {
    var ids := ShortIds(players.meta);
    if players.meta[k].idShort in StepIds(players, step) {
      var j :| 0 <= j < |step| && players.meta[step[j].key].idShort == players.meta[k].idShort;
      assert ids[step[j].key] == ids[k];
    }
  }

  /** The snapshot kept after step i holds exactly the short ids of the
      players of step i, read in the final tables. */
  lemma LastFrameKeys<P>(steps: seq<Step<P>>, i: nat)
    requires i < |steps|
    ensures Observed(Run(steps).tables.players, steps[i])
    ensures After(steps, i + 1).lastFrame.Keys == StepIds(Run(steps).tables.players, steps[i])
  {
    FoldGrows(steps, i + 1, |steps|);
    FoldInvariant(steps, i + 1);
    StepIdsGrow(After(steps, i + 1).tables.players, Run(steps).tables.players, steps[i]);
  }

  /** The id of `k` is in the snapshot kept after step i exactly when `k`
      plays in step i. */
  lemma PresentAfter<P>(steps: seq<Step<P>>, i: nat, k: SteamId)
    requires i < |steps|
    requires k in Run(steps).tables.players.meta
    ensures Run(steps).tables.players.meta[k].idShort in After(steps, i + 1).lastFrame <==> k in Identities(steps[i])
  {
    RunValid(steps);
    LastFrameKeys(steps, i);
    StepIdsByKey(Run(steps).tables.players, steps[i], k);
  }

  /** Spawns and deaths read against the input: the id of identity `k` is
      spawned in frame i exactly when `k` plays in step i and not in the
      step before (no step before the first), and dies exactly when it
      played in step i-1 and does not in step i (main.go:187-197). */
  lemma SpawnsAndDeathsByKey<P>(steps: seq<Step<P>>, i: nat, k: SteamId)
    requires i < |steps|
    requires k in Run(steps).tables.players.meta
    ensures var id := Run(steps).tables.players.meta[k].idShort;
      && (id in Run(steps).frames[i].spawn <==> k in Identities(steps[i]) && (i == 0 || k !in Identities(steps[i - 1])))
      && (id in Run(steps).frames[i].death <==> i > 0 && k in Identities(steps[i - 1]) && k !in Identities(steps[i]))
  {
    var id := Run(steps).tables.players.meta[k].idShort;
    var f := Run(steps).frames[i];
    var last := After(steps, i).lastFrame;
    var cur := After(steps, i + 1).lastFrame;
    assert id in cur <==> k in Identities(steps[i]) by {
      PresentAfter(steps, i, k);
    }
    assert id in last <==> i > 0 && k in Identities(steps[i - 1]) by {
      if i > 0 {
        PresentAfter(steps, i - 1, k);
      }
    }
    assert (id in f.spawn <==> id in cur && id !in last) && (id in f.death <==> id in last && id !in cur) by {
      FrameAt(steps, i);
      DiffSpawnDeath(last, cur, id);
    }
  }

  /** A player who leaves for one step and comes back with the same identity
      dies and respawns under the same short id: ids are never reassigned. */
  lemma RespawnKeepsId<P>(steps: seq<Step<P>>, i: nat, k: SteamId)
    requires i + 2 < |steps|
    requires k in Identities(steps[i]) && k !in Identities(steps[i + 1]) && k in Identities(steps[i + 2])
    ensures k in Run(steps).tables.players.meta
    ensures var id := Run(steps).tables.players.meta[k].idShort;
      id in Run(steps).frames[i + 1].death && id in Run(steps).frames[i + 2].spawn
  {
    LastFrameKeys(steps, i);
    var j :| 0 <= j < |steps[i]| && steps[i][j].key == k;
    SpawnsAndDeathsByKey(steps, i + 1, k);
    SpawnsAndDeathsByKey(steps, i + 2, k);
  }

  /** A spawn is a full record of the player's last observation in the step:
      its position, and its weapons resolved through the final equipment
      table, even when the player holds none (main.go:194-197). */
  lemma SpawnIsComplete<P>(steps: seq<Step<P>>, i: nat, j: nat)
    requires i < |steps|
    requires j < |steps[i]| && LastOfKey(steps[i], j)
    requires i == 0 || steps[i][j].key !in Identities(steps[i - 1])
    ensures steps[i][j].key in Run(steps).tables.players.meta
    ensures var id := Run(steps).tables.players.meta[steps[i][j].key].idShort;
      && id in Run(steps).frames[i].spawn
      && id in Run(steps).frames[i].positionChange
      && Run(steps).frames[i].positionChange[id] == steps[i][j].position
      && id in Run(steps).frames[i].equipmentChange
      && Resolves(Run(steps).tables.equipment, steps[i][j].weapons, Run(steps).frames[i].equipmentChange[id])
  {
    var k := steps[i][j].key;
    LastFrameKeys(steps, i);
    var id := Run(steps).tables.players.meta[k].idShort;
    SpawnsAndDeathsByKey(steps, i, k);
    FrameAt(steps, i);
    var cur := After(steps, i + 1).lastFrame;
    PresentAfter(steps, i, k);
    DiffSpawnEntry(After(steps, i).lastFrame, cur, id);
    SnapshotEntry(steps, i, j);
  }

  /** The entry the snapshot of step i keeps for a player is its last
      observation in that step, weapons resolved in the final table. */
  lemma SnapshotEntry<P>(steps: seq<Step<P>>, i: nat, j: nat)
    requires i < |steps|
    requires j < |steps[i]| && LastOfKey(steps[i], j)
    ensures steps[i][j].key in Run(steps).tables.players.meta
    ensures var id := Run(steps).tables.players.meta[steps[i][j].key].idShort;
      && id in After(steps, i + 1).lastFrame
      && After(steps, i + 1).lastFrame[id].position == steps[i][j].position
      && Resolves(Run(steps).tables.equipment, steps[i][j].weapons, After(steps, i + 1).lastFrame[id].equipment)
  {
    var k := steps[i][j].key;
    var fin := Run(steps).tables;
    var a := After(steps, i).tables;
    var r := ReadStep(a, steps[i]);
    var id := r.tables.players.meta[k].idShort;
    assert r == Reading(After(steps, i + 1).tables, After(steps, i + 1).lastFrame) by {
      FoldStep(steps, i + 1);
    }
    assert id in r.snapshot && r.snapshot[id].position == steps[i][j].position
        && Resolves(r.tables.equipment, steps[i][j].weapons, r.snapshot[id].equipment) by {
      FoldInvariant(steps, i);
      ReadStepLastWins(a, steps[i]);
    }
    assert TablesGrow(r.tables, fin) by {
      FoldGrows(steps, i + 1, |steps|);
    }
    ResolvesGrow(r.tables.equipment, fin.equipment, steps[i][j].weapons, r.snapshot[id].equipment);
  }

  /** A player present in steps i-1 and i is neither spawned nor dead in
      frame i; it has a position entry exactly when its position moved, and
      that entry is the new position; it has an equipment entry exactly
      when the set of its weapon names changed (main.go:198-221). */
  lemma SurvivorChanges<P>(steps: seq<Step<P>>, i: nat, j0: nat, j: nat)
    requires 0 < i < |steps|
    requires j0 < |steps[i - 1]| && LastOfKey(steps[i - 1], j0)
    requires j < |steps[i]| && LastOfKey(steps[i], j)
    requires steps[i - 1][j0].key == steps[i][j].key
    ensures steps[i][j].key in Run(steps).tables.players.meta
    ensures var id := Run(steps).tables.players.meta[steps[i][j].key].idShort;
      var f := Run(steps).frames[i];
      && id !in f.spawn && id !in f.death
      && (id in f.positionChange <==> steps[i - 1][j0].position != steps[i][j].position)
      && (id in f.positionChange ==> f.positionChange[id] == steps[i][j].position)
      && (id in f.equipmentChange <==> !SameElements(steps[i - 1][j0].weapons, steps[i][j].weapons))
  {
    var k := steps[i][j].key;
    var fin := Run(steps).tables;
    var f := Run(steps).frames[i];
    var last := After(steps, i).lastFrame;
    var cur := After(steps, i + 1).lastFrame;
    SnapshotEntry(steps, i, j);
    var id := fin.players.meta[k].idShort;
    assert id in last && last[id].position == steps[i - 1][j0].position
        && Resolves(fin.equipment, steps[i - 1][j0].weapons, last[id].equipment) by {
      SnapshotEntry(steps, i - 1, j0);
    }
    assert id !in f.spawn && id !in f.death by {
      assert k in Identities(steps[i]) && k in Identities(steps[i - 1]);
      SpawnsAndDeathsByKey(steps, i, k);
    }
    assert SameElements(last[id].equipment, cur[id].equipment) <==> SameElements(steps[i - 1][j0].weapons, steps[i][j].weapons) by {
      RunValid(steps);
      ResolvedSameElements(fin.equipment, steps[i - 1][j0].weapons, last[id].equipment, steps[i][j].weapons, cur[id].equipment);
    }
    FrameAt(steps, i);
  }

  /** The two counters are independent: the equipment table after a step
      depends only on the equipment table before it, and likewise for the
      player table. */
  lemma {:induction false} TablesIndependent<P>(t1: Tables, t2: Tables, step: Step<P>)
    ensures t1.equipment == t2.equipment ==> ReadStep(t1, step).tables.equipment == ReadStep(t2, step).tables.equipment
    ensures t1.players == t2.players ==> ReadStep(t1, step).tables.players == ReadStep(t2, step).tables.players
    decreases |step|
  {
    if |step| > 0 {
      TablesIndependent(t1, t2, step[..|step| - 1]);
      ReadStepLast(t1, step);
      ReadStepLast(t2, step);
    }
  }

  /** The identities of a step with the names seen, in reading order. */
  ghost function Sightings<P>(step: Step<P>): seq<(SteamId, string)>
    decreases |step|
  {
    if |step| == 0 then []
    else Sightings(step[..|step| - 1]) + [(step[|step| - 1].key, step[|step| - 1].name)]
  }

  /** The weapon names of a step, observation after observation. */
  ghost function StepWeapons<P>(step: Step<P>): seq<string>
    decreases |step|
  {
    if |step| == 0 then []
    else StepWeapons(step[..|step| - 1]) + step[|step| - 1].weapons
  }

  /** Reading a step interns its identities, in reading order, into the
      player table, and all its weapon names, in reading order, into the
      equipment table: the two interleaved loops amount to one pass each. */
  lemma {:induction false} ReadStepTables<P>(t: Tables, step: Step<P>)
    ensures ReadStep(t, step).tables.players == InternPlayers(t.players, Sightings(step))
    ensures ReadStep(t, step).tables.equipment == InternEquipmentList(t.equipment, StepWeapons(step)).0
    decreases |step|
  {
    if |step| > 0 {
      var init := step[..|step| - 1];
      var o := step[|step| - 1];
      ReadStepTables(t, init);
      ReadStepLast(t, step);
      var s := Sightings(init) + [(o.key, o.name)];
      assert s[..|s| - 1] == Sightings(init);
      InternEquipmentListAppend(t.equipment, StepWeapons(init), o.weapons);
    }
  }

  /** All sightings of the first `n` steps, step after step. */
  ghost function RunSightings<P>(steps: seq<Step<P>>, n: nat): seq<(SteamId, string)>
    requires n <= |steps|
  {
    if n == 0 then [] else RunSightings(steps, n - 1) + Sightings(steps[n - 1])
  }

  /** All weapon names of the first `n` steps, step after step. */
  ghost function RunWeapons<P>(steps: seq<Step<P>>, n: nat): seq<string>
    requires n <= |steps|
  {
    if n == 0 then [] else RunWeapons(steps, n - 1) + StepWeapons(steps[n - 1])
  }

  /** After `n` steps each table is its counter run over everything seen so
      far, from empty: the player table over every sighting and the
      equipment table over every weapon name, in reading order. */
  lemma AfterTables<P>(steps: seq<Step<P>>, n: nat)
    requires n <= |steps|
    ensures After(steps, n).tables.players == InternPlayers(EmptyPlayers, RunSightings(steps, n))
    ensures After(steps, n).tables.equipment == InternEquipmentList(EmptyEquipment, RunWeapons(steps, n)).0
  {
    AfterPlayers(steps, n);
    AfterEquipment(steps, n);
  }

  lemma {:induction false} AfterPlayers<P>(steps: seq<Step<P>>, n: nat)
    requires n <= |steps|
    ensures After(steps, n).tables.players == InternPlayers(EmptyPlayers, RunSightings(steps, n))
    decreases n
  {
    if n == 0 {
      assert RunSightings(steps, 0) == [];
    } else {
      var t := After(steps, n - 1).tables;
      var seen := RunSightings(steps, n - 1);
      var now := Sightings(steps[n - 1]);
      AfterPlayers(steps, n - 1);
      FoldTables(steps, n);
      ExtendPlayers(t, steps[n - 1], seen);
      assert RunSightings(steps, n) == seen + now;
    }
  }

  lemma ExtendPlayers<P>(t: Tables, step: Step<P>, seen: seq<(SteamId, string)>)
    requires t.players == InternPlayers(EmptyPlayers, seen)
    ensures ReadStep(t, step).tables.players == InternPlayers(EmptyPlayers, seen + Sightings(step))
  {
    ReadStepTables(t, step);
    InternPlayersAppend(EmptyPlayers, seen, Sightings(step));
  }

  lemma {:induction false} AfterEquipment<P>(steps: seq<Step<P>>, n: nat)
    requires n <= |steps|
    ensures After(steps, n).tables.equipment == InternEquipmentList(EmptyEquipment, RunWeapons(steps, n)).0
    decreases n
  {
    if n == 0 {
      assert RunWeapons(steps, 0) == [];
    } else {
      var t := After(steps, n - 1).tables;
      var seen := RunWeapons(steps, n - 1);
      var now := StepWeapons(steps[n - 1]);
      AfterEquipment(steps, n - 1);
      FoldTables(steps, n);
      ExtendEquipment(t, steps[n - 1], seen);
      assert RunWeapons(steps, n) == seen + now;
    }
  }

  lemma ExtendEquipment<P>(t: Tables, step: Step<P>, seen: seq<string>)
    requires t.equipment == InternEquipmentList(EmptyEquipment, seen).0
    ensures ReadStep(t, step).tables.equipment == InternEquipmentList(EmptyEquipment, seen + StepWeapons(step)).0
  {
    ReadStepTables(t, step);
    InternEquipmentListAppend(EmptyEquipment, seen, StepWeapons(step));
  }

  /** The tables after step `n` are the tables after step n-1 with step
      `n` read into them. */
  lemma FoldTables<P>(steps: seq<Step<P>>, n: nat)
    requires 0 < n <= |steps|
    ensures After(steps, n).tables == ReadStep(After(steps, n - 1).tables, steps[n - 1]).tables
  {
    FoldStep(steps, n);
  }

  /** Over the whole match, short ids follow first-sighting order: an
      identity at its first sighting gets a larger short id than every
      identity sighted before it, in an earlier step or earlier in the same
      step. */
  lemma PlayerIdsInSightingOrder<P>(steps: seq<Step<P>>, p: nat, q: nat)
    requires q < p < |RunSightings(steps, |steps|)|
    requires forall k :: 0 <= k < p ==> RunSightings(steps, |steps|)[k].0 != RunSightings(steps, |steps|)[p].0
    ensures var s := RunSightings(steps, |steps|);
      var meta := Run(steps).tables.players.meta;
      && s[q].0 in meta && s[p].0 in meta
      && meta[s[q].0].idShort < meta[s[p].0].idShort
  {
    AfterTables(steps, |steps|);
    EmptyTablesValid();
    PlayerFirstSightingOrder(EmptyPlayers, RunSightings(steps, |steps|), q, p);
  }

  /** Over the whole match, equipment ids follow first-sighting order: a
      weapon name at its first sighting gets a larger id than every weapon
      name seen before it. */
  lemma EquipmentIdsInSightingOrder<P>(steps: seq<Step<P>>, p: nat, q: nat)
    requires q < p < |RunWeapons(steps, |steps|)|
    requires RunWeapons(steps, |steps|)[p] !in RunWeapons(steps, |steps|)[..p]
    ensures var w := RunWeapons(steps, |steps|);
      var ids := Run(steps).tables.equipment.ids;
      && w[q] in ids && w[p] in ids
      && ids[w[q]] < ids[w[p]]
  {
    var w := RunWeapons(steps, |steps|);
    AfterTables(steps, |steps|);
    EmptyTablesValid();
    FirstSightingOrder(EmptyEquipment, w, q, p);
  }
}
