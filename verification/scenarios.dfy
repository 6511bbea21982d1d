/** A four-step match worked through the model: one player appears, stands
    still, moves and swaps its rifle for a knife, then leaves. Positions are
    integer vectors here; the model only compares them for equality. */
module Scenarios {
  import opened Interning
  import opened Differ
  import opened Timeline
  import opened Sequences

  datatype Vec = Vec(x: int, y: int, z: int)

  const Standing := Observation(100, "x", Vec(0, 0, 0), ["ak47"])
  const Moved := Observation(100, "x", Vec(1, 0, 0), ["knife"])

  /** The match: the player stands, stands again, moves with a knife
      instead of its rifle, and is gone in the last step. */
  ghost predicate IsMatch(steps: seq<Step<Vec>>)
  {
    && |steps| == 4
    && steps[0] == [Standing]
    && steps[1] == [Standing]
    && steps[2] == [Moved]
    && steps[3] == []
  }

  /** Reading a step with one observation. */
  lemma ReadOne<P>(t: Tables, o: Observation<P>)
    ensures var p := InternPlayer(t.players, o.key, o.name);
      var e := InternEquipmentList(t.equipment, o.weapons);
      ReadStep(t, [o]) == Reading(Tables(p.0, e.0), map[p.1 := FrameInfo(o.position, e.1)])
  {
    ReadStepLast(t, [o]);
    assert [o][..0] == [];
  }

  /** Interning a list of one name. */
  lemma InternOne(t: EquipmentTable, name: string)
    ensures InternEquipmentList(t, [name]) == (InternEquipment(t, name).0, [InternEquipment(t, name).1])
  {
    assert [name][..0] == [];
    var r1 := InternEquipmentList(t, []);
    assert r1 == (t, []);
    var r2 := InternEquipment(t, name);
    assert InternEquipmentList(t, [name]) == (r2.0, r1.1 + [r2.1]);
    assert r1.1 + [r2.1] == [r2.1];
  }

  /** The tables and the snapshot after the first step, and after the
      third. */
  const Tables1 := Tables(PlayerTable(map[100 := PlayerRecord(100, 1, "x")], 2), EquipmentTable(map["ak47" := 1], 2))
  const Tables3 := Tables(PlayerTable(map[100 := PlayerRecord(100, 1, "x")], 2), EquipmentTable(map["ak47" := 1, "knife" := 2], 3))
  const Standing1: Snapshot<Vec> := map[1 := FrameInfo(Vec(0, 0, 0), [1])]
  const Moved3: Snapshot<Vec> := map[1 := FrameInfo(Vec(1, 0, 0), [2])]

  /** The first sighting interns the player as 1 and its rifle as 1. */
  lemma FirstRead()
    ensures ReadStep(Initial<Vec>().tables, [Standing]) == Reading(Tables1, Standing1)
  {
    var t := Initial<Vec>().tables;
    ReadOne(t, Standing);
    InternOne(t.equipment, "ak47");
  }

  /** Seeing the same player and rifle again changes no table. */
  lemma SecondRead()
    ensures ReadStep(Tables1, [Standing]) == Reading(Tables1, Standing1)
  {
    ReadOne(Tables1, Standing);
    InternOne(Tables1.equipment, "ak47");
  }

  /** The knife is new and gets equipment id 2. */
  lemma ThirdRead()
    ensures ReadStep(Tables1, [Moved]) == Reading(Tables3, Moved3)
  {
    ReadOne(Tables1, Moved);
    InternOne(Tables1.equipment, "knife");
  }

  /** The first frame spawns the player with its position and rifle. */
  lemma FirstDiff()
    ensures Diff(map[], Standing1) == Frame({1}, {}, map[1 := Vec(0, 0, 0)], map[1 := [1]])
  {
    FirstFrame(Standing1);
  }

  /** The position entry of one player present in both snapshots: none
      when it stands still, the new position when it moved. */
  lemma StillPosition<P>(id: nat, a: FrameInfo<P>, b: FrameInfo<P>)
    requires a.position == b.position
    ensures Diff(map[id := a], map[id := b]).positionChange == map[]
  {
    assert Diff(map[id := a], map[id := b]).positionChange.Keys == {};
  }

  lemma MovedPosition<P>(id: nat, a: FrameInfo<P>, b: FrameInfo<P>)
    requires a.position != b.position
    ensures Diff(map[id := a], map[id := b]).positionChange == map[id := b.position]
  {
    var pc := Diff(map[id := a], map[id := b]).positionChange;
    assert pc.Keys == {id};
    Singleton(pc, id, b.position);
  }

  /** The equipment entry of one player present in both snapshots: none
      when it holds the same items, the delta otherwise. */
  lemma SameEquipment<P>(id: nat, a: FrameInfo<P>, b: FrameInfo<P>)
    requires SameElements(a.equipment, b.equipment)
    ensures Diff(map[id := a], map[id := b]).equipmentChange == map[]
  {
    assert Diff(map[id := a], map[id := b]).equipmentChange.Keys == {};
  }

  lemma ChangedEquipment<P>(id: nat, a: FrameInfo<P>, b: FrameInfo<P>)
    requires !SameElements(a.equipment, b.equipment)
    ensures Diff(map[id := a], map[id := b]).equipmentChange == map[id := EquipmentDelta(a.equipment, b.equipment)]
  {
    var ec := Diff(map[id := a], map[id := b]).equipmentChange;
    assert ec.Keys == {id};
    Singleton(ec, id, EquipmentDelta(a.equipment, b.equipment));
  }

  lemma Singleton<K, V>(m: map<K, V>, k: K, v: V)
    requires m.Keys == {k} && m[k] == v
    ensures m == map[k := v]
  {
  }

  /** Nobody spawns or dies when the same single player is in both. */
  lemma NoSpawnOrDeath<P>(id: nat, a: FrameInfo<P>, b: FrameInfo<P>)
    ensures Diff(map[id := a], map[id := b]).spawn == {}
    ensures Diff(map[id := a], map[id := b]).death == {}
  {
  }

  /** Standing still with the same equipment gives an empty frame. */
  lemma SecondDiff()
    ensures Diff(Standing1, Standing1) == Frame({}, {}, map[], map[])
  {
    var a := FrameInfo(Vec(0, 0, 0), [1]);
    NoSpawnOrDeath(1, a, a);
    StillPosition(1, a, a);
    SameEquipment(1, a, a);
  }

  /** Moving and swapping the rifle for a knife records the new position
      and the list [2, 1]: the knife, interned as 2, comes first because
      additions are listed before removals. */
  lemma ThirdDiff()
    ensures Diff(Standing1, Moved3) == Frame({}, {}, map[1 := Vec(1, 0, 0)], map[1 := [2, 1]])
  {
    var a := FrameInfo(Vec(0, 0, 0), [1]);
    var b := FrameInfo(Vec(1, 0, 0), [2]);
    NoSpawnOrDeath(1, a, b);
    MovedPosition(1, a, b);
    assert !SameElements(a.equipment, b.equipment) by {
      assert 1 in a.equipment;
    }
    ChangedEquipment(1, a, b);
    SwapDelta();
  }

  /** Swapping equipment 1 for 2 lists the addition before the removal. */
  lemma SwapDelta()
    ensures EquipmentDelta([1], [2]) == [2, 1]
  {
    assert Added([1], [2]) == [2];
    assert Removed([1], [2]) == [1];
  }

  /** A player missing from the step is dead and nothing else changes. */
  lemma FourthDiff()
    ensures Diff(Moved3, map[]) == Frame({}, {1}, map[], map[])
  {
  }

  /** The tables and the snapshot after each step. */
  lemma FirstStep(steps: seq<Step<Vec>>)
    requires IsMatch(steps)
    ensures After(steps, 1).tables == Tables1 && After(steps, 1).lastFrame == Standing1
  {
    FoldStep(steps, 1);
    FirstRead();
  }

  lemma SecondStep(steps: seq<Step<Vec>>)
    requires IsMatch(steps)
    ensures After(steps, 2).tables == Tables1 && After(steps, 2).lastFrame == Standing1
  {
    FirstStep(steps);
    FoldStep(steps, 2);
    SecondRead();
  }

  lemma ThirdStep(steps: seq<Step<Vec>>)
    requires IsMatch(steps)
    ensures After(steps, 3).tables == Tables3 && After(steps, 3).lastFrame == Moved3
  {
    SecondStep(steps);
    FoldStep(steps, 3);
    ThirdRead();
  }

  lemma FourthStep(steps: seq<Step<Vec>>)
    requires IsMatch(steps)
    ensures After(steps, 4).tables == Tables3 && After(steps, 4).lastFrame == map[]
  {
    ThirdStep(steps);
    FoldStep(steps, 4);
  }

  /** After the match the tables hold the one player and both weapons;
      the player's record outlives its death. */
  lemma MatchTables(steps: seq<Step<Vec>>)
    requires IsMatch(steps)
    ensures Run(steps).tables == Tables3
  {
    FourthStep(steps);
  }

  /** Each frame of the match. */
  lemma FirstFrameOf(steps: seq<Step<Vec>>)
    requires IsMatch(steps)
    ensures Run(steps).frames[0] == Frame({1}, {}, map[1 := Vec(0, 0, 0)], map[1 := [1]])
  {
    FrameAt(steps, 0);
    FirstStep(steps);
    FirstDiff();
  }

  lemma SecondFrameOf(steps: seq<Step<Vec>>)
    requires IsMatch(steps)
    ensures Run(steps).frames[1] == Frame({}, {}, map[], map[])
  {
    FrameAt(steps, 1);
    FirstStep(steps);
    SecondStep(steps);
    SecondDiff();
  }

  lemma ThirdFrameOf(steps: seq<Step<Vec>>)
    requires IsMatch(steps)
    ensures Run(steps).frames[2] == Frame({}, {}, map[1 := Vec(1, 0, 0)], map[1 := [2, 1]])
  {
    FrameAt(steps, 2);
    SecondStep(steps);
    ThirdStep(steps);
    ThirdDiff();
  }

  lemma FourthFrameOf(steps: seq<Step<Vec>>)
    requires IsMatch(steps)
    ensures Run(steps).frames[3] == Frame({}, {1}, map[], map[])
  {
    FrameAt(steps, 3);
    ThirdStep(steps);
    FourthStep(steps);
    FourthDiff();
  }

  /** The whole match: the four frames and the final tables. */
  lemma MatchTimeline(steps: seq<Step<Vec>>)
    requires IsMatch(steps)
    ensures Run(steps).frames == [
      Frame({1}, {}, map[1 := Vec(0, 0, 0)], map[1 := [1]]),
      Frame({}, {}, map[], map[]),
      Frame({}, {}, map[1 := Vec(1, 0, 0)], map[1 := [2, 1]]),
      Frame({}, {1}, map[], map[])]
  {
    var fr := Run(steps).frames;
    assert fr == [fr[0], fr[1], fr[2], fr[3]];
    FirstFrameOf(steps);
    SecondFrameOf(steps);
    ThirdFrameOf(steps);
    FourthFrameOf(steps);
  }
}
