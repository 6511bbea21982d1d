/** The per-step diff of `better` (main.go:180-223): from the previous and
    the current snapshot, keyed by short player id, it builds one frame of
    spawns, deaths, position changes and equipment changes.

    Positions are a type parameter with equality only: the source compares
    them with `r3.Vector.Cmp` at main.go:199 and does nothing else with them. */
module Differ {
  import opened Sequences

  /** What is kept of one player in one step (`FrameInfo`, main.go:134-137). */
  datatype FrameInfo<P> = FrameInfo(position: P, equipment: seq<nat>)

  /** `curFrame` / `lastFrame`: short player id to that player's state. */
  type Snapshot<P> = map<nat, FrameInfo<P>>

  /** One frame of the timeline (main.go:106-111). Go fills the spawn and
      death slices in map-iteration order, so only their contents matter. */
  datatype Frame<P> = Frame(
    spawn: set<nat>,
    death: set<nat>,
    positionChange: map<nat, P>,
    equipmentChange: map<nat, seq<nat>>)

  /** Ids held now but not before, in the order and with the repetitions of
      the current list (main.go:203-211). */
  function Added(prev: seq<nat>, cur: seq<nat>): (a: seq<nat>)
    ensures forall x :: multiset(a)[x] == if x in prev then 0 else multiset(cur)[x]
    ensures forall x :: x in a <==> x in cur && x !in prev
    ensures IsSubsequence(a, cur)
  {
    FilterMembers(cur, x => !Contains(prev, x));
    Filter(cur, x => !Contains(prev, x))
  }

  /** Ids held before but not now, in the order and with the repetitions of
      the previous list (main.go:213-221; the first conjunct of the guard
      always holds, since the id is taken from that very list). */
  function Removed(prev: seq<nat>, cur: seq<nat>): (r: seq<nat>)
    ensures forall x :: multiset(r)[x] == if x in cur then 0 else multiset(prev)[x]
    ensures forall x :: x in r <==> x in prev && x !in cur
    ensures IsSubsequence(r, prev)
  {
    FilterMembers(prev, x => Contains(prev, x) && !Contains(cur, x));
    var r := Filter(prev, x => Contains(prev, x) && !Contains(cur, x));
    assert forall x :: multiset(r)[x] == if x in cur then 0 else multiset(prev)[x] by {
      forall x
        ensures multiset(r)[x] == if x in cur then 0 else multiset(prev)[x]
      {
        if x !in prev {
          assert multiset(prev)[x] == 0;
        }
      }
    }
    r
  }

  /** The equipment change of a player present in both steps: one list that
      does not say which ids were added and which removed. Its members are
      the symmetric difference of the two lists, each with its multiplicity
      in the list it comes from, and every addition precedes every removal. */
  function EquipmentDelta(prev: seq<nat>, cur: seq<nat>): (d: seq<nat>)
    ensures forall x :: x in d <==> (x in cur <==> x !in prev)
    ensures d == [] <==> SameElements(prev, cur)
    ensures forall x :: multiset(d)[x] == (if x in prev then 0 else multiset(cur)[x]) + (if x in cur then 0 else multiset(prev)[x])
    ensures forall i, j :: 0 <= i < j < |d| && d[i] !in cur ==> d[j] !in cur
    ensures exists k :: 0 <= k <= |d| && IsSubsequence(d[..k], cur) && IsSubsequence(d[k..], prev)
  {
    DeltaParts(prev, cur);
    var a := Added(prev, cur);
    var d := a + Removed(prev, cur);
    assert d[..|a|] == a && d[|a|..] == Removed(prev, cur);
    Added(prev, cur) + Removed(prev, cur)
  }

  /** The facts about additions-then-removals that EquipmentDelta exports. */
  lemma DeltaParts(prev: seq<nat>, cur: seq<nat>)
    ensures var d := Added(prev, cur) + Removed(prev, cur);
      && (forall x :: x in d <==> (x in cur <==> x !in prev))
      && (d == [] <==> SameElements(prev, cur))
      && (forall x :: multiset(d)[x] == (if x in prev then 0 else multiset(cur)[x]) + (if x in cur then 0 else multiset(prev)[x]))
      && (forall i, j :: 0 <= i < j < |d| && d[i] !in cur ==> d[j] !in cur)
  {
    DeltaMembers(prev, cur);
    DeltaMultiplicity(prev, cur);
    DeltaOrder(prev, cur);
  }

  lemma DeltaMembers(prev: seq<nat>, cur: seq<nat>)
    ensures var d := Added(prev, cur) + Removed(prev, cur);
      && (forall x :: x in d <==> (x in cur <==> x !in prev))
      && (d == [] <==> SameElements(prev, cur))
  {
    var a := Added(prev, cur);
    var r := Removed(prev, cur);
    var d := a + r;
    assert forall x :: x in d <==> x in a || x in r;
    if d == [] {
      assert forall x :: x in prev ==> x !in r;
      assert forall x :: x in cur ==> x !in a;
    } else {
      assert d[0] in a || d[0] in r;
    }
  }

  lemma DeltaMultiplicity(prev: seq<nat>, cur: seq<nat>)
    ensures var d := Added(prev, cur) + Removed(prev, cur);
      forall x :: multiset(d)[x] == (if x in prev then 0 else multiset(cur)[x]) + (if x in cur then 0 else multiset(prev)[x])
  {
    var a := Added(prev, cur);
    var r := Removed(prev, cur);
    assert multiset(a + r) == multiset(a) + multiset(r);
  }

  lemma DeltaOrder(prev: seq<nat>, cur: seq<nat>)
    ensures var d := Added(prev, cur) + Removed(prev, cur);
      forall i, j :: 0 <= i < j < |d| && d[i] !in cur ==> d[j] !in cur
  {
    var a := Added(prev, cur);
    var r := Removed(prev, cur);
    var d := a + r;
    AddedInCur(prev, cur);
    RemovedNotInCur(prev, cur);
    forall k | 0 <= k < |a|
      ensures d[k] in cur
    {
      assert d[k] == a[k];
    }
    forall k | |a| <= k < |d|
      ensures d[k] !in cur
    {
      assert d[k] == r[k - |a|];
    }
  }

  lemma AddedInCur(prev: seq<nat>, cur: seq<nat>)
    ensures forall k :: 0 <= k < |Added(prev, cur)| ==> Added(prev, cur)[k] in cur
  {
    var a := Added(prev, cur);
    forall k | 0 <= k < |a|
      ensures a[k] in cur
    {
      assert a[k] in a;
    }
  }

  lemma RemovedNotInCur(prev: seq<nat>, cur: seq<nat>)
    ensures forall k :: 0 <= k < |Removed(prev, cur)| ==> Removed(prev, cur)[k] !in cur
  {
    var r := Removed(prev, cur);
    forall k | 0 <= k < |r|
      ensures r[k] !in cur
    {
      assert r[k] in r;
    }
  }

  /** The frame for one step (main.go:180-223). Deaths are the ids that were
      present and are gone; spawns are the ids that are present and were
      not, and a spawn carries its full position and equipment list, even an
      empty one. A player present in both steps gets a position entry
      exactly when its position differs, and an equipment entry exactly when
      its equipment, read as a set of ids, differs. */
  function Diff<P(==)>(last: Snapshot<P>, cur: Snapshot<P>): (f: Frame<P>)
    // the current ids split into spawned and surviving, the previous ones
    // into dead and surviving
    ensures f.spawn !! last.Keys && f.spawn + (cur.Keys * last.Keys) == cur.Keys
    ensures f.death !! cur.Keys && f.death + (cur.Keys * last.Keys) == last.Keys
    ensures forall id :: id in f.positionChange <==> id in cur && (id in last ==> last[id].position != cur[id].position)
    ensures forall id :: id in f.positionChange ==> f.positionChange[id] == cur[id].position
    ensures forall id :: id in f.equipmentChange <==>
              id in cur && (id in last ==> !SameElements(last[id].equipment, cur[id].equipment))
    ensures forall id :: id in f.spawn ==> id in f.equipmentChange && f.equipmentChange[id] == cur[id].equipment
    ensures forall id :: id in f.equipmentChange && id in last ==>
              f.equipmentChange[id] == EquipmentDelta(last[id].equipment, cur[id].equipment)
    ensures forall id, x :: id in f.equipmentChange && id in last ==>
              (x in f.equipmentChange[id] <==> (x in cur[id].equipment <==> x !in last[id].equipment))
  {
    Frame(Spawned(last, cur), Died(last, cur), PositionChanges(last, cur), EquipmentChanges(last, cur))
  }

  /** The ids present now and not before (main.go:193-197). */
  function Spawned<P>(last: Snapshot<P>, cur: Snapshot<P>): (s: set<nat>)
    ensures s !! last.Keys && s + (cur.Keys * last.Keys) == cur.Keys
  {
    set id | id in cur && id !in last
  }

  /** The ids present before and not now (main.go:187-191). */
  function Died<P>(last: Snapshot<P>, cur: Snapshot<P>): (d: set<nat>)
    ensures d !! cur.Keys && d + (cur.Keys * last.Keys) == last.Keys
  {
    set id | id in last && id !in cur
  }

  /** The new position of every spawned or moved player (main.go:195,
      198-201). */
  function PositionChanges<P(==)>(last: Snapshot<P>, cur: Snapshot<P>): (m: map<nat, P>)
    ensures forall id :: id in m <==> id in cur && (id in last ==> last[id].position != cur[id].position)
    ensures forall id :: id in m ==> m[id] == cur[id].position
  {
    map id | id in cur && (id !in last || last[id].position != cur[id].position) :: cur[id].position
  }

  /** The full equipment of every spawned player and the equipment delta of
      every survivor whose equipment changed (main.go:196, 203-222). */
  function EquipmentChanges<P>(last: Snapshot<P>, cur: Snapshot<P>): (m: map<nat, seq<nat>>)
    ensures forall id :: id in m <==> id in cur && (id in last ==> !SameElements(last[id].equipment, cur[id].equipment))
    ensures forall id :: id in m && id !in last ==> m[id] == cur[id].equipment
    ensures forall id :: id in m && id in last ==> m[id] == EquipmentDelta(last[id].equipment, cur[id].equipment)
    ensures forall id, x :: id in m && id in last ==>
              (x in m[id] <==> (x in cur[id].equipment <==> x !in last[id].equipment))
  {
    map id | id in cur && (id !in last || EquipmentDelta(last[id].equipment, cur[id].equipment) != [])
      :: if id in last then EquipmentDelta(last[id].equipment, cur[id].equipment) else cur[id].equipment
  }

  /** A frame that a decoder holding `last` can apply: deaths were present,
      spawns were not and come with their full state. */
  ghost predicate Applicable<P>(last: Snapshot<P>, f: Frame<P>)
  {
    && f.death <= last.Keys
    && f.spawn !! last.Keys
    && f.spawn <= f.positionChange.Keys
    && f.spawn <= f.equipmentChange.Keys
  }

  /** Flips the ids of `change` in and out of a previous equipment list: the
      decoder's reading of the undirected equipment delta. */
  function Toggle(prev: seq<nat>, change: seq<nat>): (r: seq<nat>)
    ensures forall x :: x in r <==> (x in prev <==> x !in change)
  {
    FilterMembers(prev, x => !Contains(change, x));
    FilterMembers(change, x => !Contains(prev, x));
    Filter(prev, x => !Contains(change, x)) + Filter(change, x => !Contains(prev, x))
  }

  /** A reference decoder (the source has none): rebuilds the next snapshot
      from the previous one and a frame. */
  function Apply<P>(last: Snapshot<P>, f: Frame<P>): Snapshot<P>
    requires Applicable(last, f)
  {
    map id | id in (last.Keys - f.death) + f.spawn ::
      if id in f.spawn then
        FrameInfo(f.positionChange[id], f.equipmentChange[id])
      else
        FrameInfo(
          if id in f.positionChange then f.positionChange[id] else last[id].position,
          if id in f.equipmentChange then Toggle(last[id].equipment, f.equipmentChange[id]) else last[id].equipment)
  }

  /** Same players, same positions, same equipment read as sets. */
  ghost predicate Equivalent<P>(a: Snapshot<P>, b: Snapshot<P>)
  {
    && a.Keys == b.Keys
    && forall id :: id in a ==> a[id].position == b[id].position && SameElements(a[id].equipment, b[id].equipment)
  }

  /** Applying the frame of a step to the previous snapshot gives back the
      current one: exactly for spawned players, and up to the order and
      repetition of equipment ids for players present in both steps. So a
      decoder that tracks each player's equipment can read the direction of
      every equipment change from its own state. */
  lemma DiffRoundTrip<P>(last: Snapshot<P>, cur: Snapshot<P>)
    ensures Applicable(last, Diff(last, cur))
    ensures Equivalent(Apply(last, Diff(last, cur)), cur)
    ensures forall id :: id in cur && id !in last ==> Apply(last, Diff(last, cur))[id] == cur[id]
  {
    var f := Diff(last, cur);
    assert Applicable(last, f);
    var a := Apply(last, f);
    assert a.Keys == cur.Keys;
    forall id | id in a
      ensures a[id].position == cur[id].position
      ensures SameElements(a[id].equipment, cur[id].equipment)
      ensures id !in last ==> a[id] == cur[id]
    {
      RoundTripAt(last, cur, id);
    }
  }

  /** The round trip for one player present in the current step. */
  lemma RoundTripAt<P>(last: Snapshot<P>, cur: Snapshot<P>, id: nat)
    requires id in cur
    ensures Applicable(last, Diff(last, cur))
    ensures var a := Apply(last, Diff(last, cur));
      && id in a
      && a[id].position == cur[id].position
      && SameElements(a[id].equipment, cur[id].equipment)
      && (id !in last ==> a[id] == cur[id])
  {
    if id in last {
      RoundTripSurvivor(last, cur, id);
    }
  }

  lemma RoundTripSurvivor<P>(last: Snapshot<P>, cur: Snapshot<P>, id: nat)
    requires id in cur && id in last
    ensures Applicable(last, Diff(last, cur))
    ensures var a := Apply(last, Diff(last, cur));
      id in a && SameElements(a[id].equipment, cur[id].equipment)
  {
    var f := Diff(last, cur);
    var a := Apply(last, f);
    if id in f.equipmentChange {
      var t := Toggle(last[id].equipment, f.equipmentChange[id]);
      assert a[id].equipment == t;
      forall x
        ensures x in t <==> x in cur[id].equipment
      {
        assert x in f.equipmentChange[id] <==> (x in cur[id].equipment <==> x !in last[id].equipment);
      }
    } else {
      assert a[id].equipment == last[id].equipment;
    }
  }

  /** The first step is diffed against an empty snapshot (main.go:143):
      nobody dies and everybody present spawns with full state. */
  lemma FirstFrame<P>(cur: Snapshot<P>)
    ensures Diff(map[], cur).death == {}
    ensures Diff(map[], cur).spawn == cur.Keys
    ensures Diff(map[], cur).positionChange == map id | id in cur :: cur[id].position
    ensures Diff(map[], cur).equipmentChange == map id | id in cur :: cur[id].equipment
  {
  }

  /** Spawn and death membership of one id, read off the partition in
      Diff's contract. */
  lemma DiffSpawnDeath<P>(last: Snapshot<P>, cur: Snapshot<P>, id: nat)
    ensures id in Diff(last, cur).spawn <==> id in cur && id !in last
    ensures id in Diff(last, cur).death <==> id in last && id !in cur
  {
    var f := Diff(last, cur);
    assert id in f.spawn + (cur.Keys * last.Keys) <==> id in cur.Keys;
    assert id in f.death + (cur.Keys * last.Keys) <==> id in last.Keys;
  }

  /** A spawned id carries its full current state. */
  lemma DiffSpawnEntry<P>(last: Snapshot<P>, cur: Snapshot<P>, id: nat)
    requires id in cur && id !in last
    ensures id in Diff(last, cur).positionChange && Diff(last, cur).positionChange[id] == cur[id].position
    ensures id in Diff(last, cur).equipmentChange && Diff(last, cur).equipmentChange[id] == cur[id].equipment
  {
    DiffSpawnDeath(last, cur, id);
  }
}
