/** The two intern tables of `better` (main.go:139-140, 150-173): a player
    table from 64-bit identities to short ids with the first-seen name, and
    an equipment table from item names to ids. Each owns its own counter,
    which starts at 1 and is the id handed to the next unseen key. */
module Interning {
  import opened Sequences

  /** A 64-bit player identity (`SteamID64`, a Go `uint64`). */
  newtype SteamId = x: int | 0 <= x < 0x1_0000_0000_0000_0000

  /** The record stored the first time an identity is seen (main.go:97-101). */
  datatype PlayerRecord = PlayerRecord(id: SteamId, idShort: nat, name: string)

  /** `PlayerMeta` together with the `playerIds` counter. */
  datatype PlayerTable = PlayerTable(meta: map<SteamId, PlayerRecord>, next: nat)
  {
    /** Every record is filed under its own identity and the short ids are
        a dense, injective numbering 1..next-1. */
    ghost predicate Valid()
    {
      && (forall k :: k in meta ==> meta[k].id == k)
      && Dense(ShortIds(meta), next)
    }
  }

  /** `EquipmentMeta` together with the `equipIds` counter. */
  datatype EquipmentTable = EquipmentTable(ids: map<string, nat>, next: nat)
  {
    ghost predicate Valid()
    {
      Dense(ids, next)
    }
  }

  /** Both tables start empty with their counters at 1 (main.go:128-140). */
  const EmptyPlayers := PlayerTable(map[], 1)
  const EmptyEquipment := EquipmentTable(map[], 1)

  ghost predicate Injective<K>(ids: map<K, nat>)
  {
    forall k, k' :: k in ids && k' in ids && k != k' ==> ids[k] != ids[k']
  }

  /** Distinct keys have distinct ids and the ids are exactly 1..next-1. */
  ghost predicate Dense<K>(ids: map<K, nat>, next: nat)
  {
    && next >= 1
    && Injective(ids)
    && (forall k :: k in ids ==> 1 <= ids[k] < next)
    && (forall i: nat :: 1 <= i < next ==> i in ids.Values)
  }

  /** The short-id column of the player table. */
  function ShortIds(meta: map<SteamId, PlayerRecord>): (ids: map<SteamId, nat>)
    ensures ids.Keys == meta.Keys
  {
    map k | k in meta :: meta[k].idShort
  }

  /** Every entry of `before` is still in `after`, unchanged, and the counter
      has not gone back. */
  ghost predicate PlayersGrow(before: PlayerTable, after: PlayerTable)
  {
    && before.next <= after.next
    && forall k :: k in before.meta ==> k in after.meta && after.meta[k] == before.meta[k]
  }

  ghost predicate EquipmentGrows(before: EquipmentTable, after: EquipmentTable)
  {
    && before.next <= after.next
    && forall n :: n in before.ids ==> n in after.ids && after.ids[n] == before.ids[n]
  }

  lemma EmptyTablesValid()
    ensures EmptyPlayers.Valid() && EmptyEquipment.Valid()
  {
    assert ShortIds(map[]) == map[];
  }

  /** Handing out the counter to a fresh key keeps the numbering dense. */
  lemma DenseInsert<K>(ids: map<K, nat>, next: nat, k: K)
    requires Dense(ids, next)
    requires k !in ids
    ensures Dense(ids[k := next], next + 1)
  {
    var ids' := ids[k := next];
    forall i: nat | 1 <= i < next + 1
      ensures i in ids'.Values
    {
      if i == next {
        assert ids'[k] == i;
      } else {
        assert i in ids.Values;
        var j :| j in ids && ids[j] == i;
        assert ids'[j] == i;
      }
    }
  }

  /** Resolves a player identity (main.go:150-161). An unseen identity gets
      the current counter value, its record is stored with the name seen
      now, and the counter moves on; a known identity gets its stored short
      id and the table, name included, is left as it was. */
  function InternPlayer(t: PlayerTable, key: SteamId, name: string): (r: (PlayerTable, nat))
    ensures key in r.0.meta && r.0.meta[key].idShort == r.1
    ensures key in t.meta ==> r.0 == t
    ensures key !in t.meta ==> r.1 == t.next && r.0.next == t.next + 1 && r.0.meta[key].name == name
    ensures r.0.meta.Keys == t.meta.Keys + {key}
    ensures PlayersGrow(t, r.0)
    ensures t.Valid() ==> r.0.Valid()
  {
    if key in t.meta then
      (t, t.meta[key].idShort)
    else
      var t' := PlayerTable(t.meta[key := PlayerRecord(key, t.next, name)], t.next + 1);
      assert ShortIds(t'.meta) == ShortIds(t.meta)[key := t.next];
      assert t.Valid() ==> t'.Valid() by {
        if t.Valid() {
          DenseInsert(ShortIds(t.meta), t.next, key);
        }
      }
      (t', t.next)
  }

  /** Resolves one equipment name (main.go:165-172), by the same rule as
      players but on the equipment counter. */
  function InternEquipment(t: EquipmentTable, name: string): (r: (EquipmentTable, nat))
    ensures name in r.0.ids && r.0.ids[name] == r.1
    ensures name in t.ids ==> r.0 == t
    ensures name !in t.ids ==> r.1 == t.next && r.0.next == t.next + 1
    ensures r.0.ids.Keys == t.ids.Keys + {name}
    ensures EquipmentGrows(t, r.0)
    ensures t.Valid() ==> r.0.Valid()
  {
    if name in t.ids then
      (t, t.ids[name])
    else
      assert t.Valid() ==> Dense(t.ids[name := t.next], t.next + 1) by {
        if t.Valid() {
          DenseInsert(t.ids, t.next, name);
        }
      }
      (EquipmentTable(t.ids[name := t.next], t.next + 1), t.next)
  }

  /** `ids` is what the table gives for `names`, position by position. */
  ghost predicate Resolves(t: EquipmentTable, names: seq<string>, ids: seq<nat>)
  {
    && |ids| == |names|
    && forall i :: 0 <= i < |names| ==> names[i] in t.ids && t.ids[names[i]] == ids[i]
  }

  /** Position `j` is the first sighting of its name: neither the table nor
      an earlier position holds it. */
  ghost predicate FirstSighting(t: EquipmentTable, names: seq<string>, j: int)
    requires 0 <= j < |names|
  {
    names[j] !in t.ids && names[j] !in names[..j]
  }

  /** Interns a player's equipment names left to right, collecting the ids
      (main.go:163-173). The list keeps the order and repetitions of the
      names, and only the names of the list are added to the table. */
  function InternEquipmentList(t: EquipmentTable, names: seq<string>): (r: (EquipmentTable, seq<nat>))
    ensures Resolves(r.0, names, r.1)
    ensures r.0.ids.Keys == t.ids.Keys + set n | n in names
    ensures EquipmentGrows(t, r.0)
    ensures t.Valid() ==> r.0.Valid()
    decreases |names|
  {
    if |names| == 0 then (t, [])
    else
      var init := names[..|names| - 1];
      var r1 := InternEquipmentList(t, init);
      var r2 := InternEquipment(r1.0, names[|names| - 1]);
      assert names == init + [names[|names| - 1]];
      (r2.0, r1.1 + [r2.1])
  }

  /** Ids are handed out in first-sighting order: a name seen for the first
      time gets an id larger than every id listed before it. */
  lemma {:induction false} FirstSightingOrder(t: EquipmentTable, names: seq<string>, i: nat, j: nat)
    requires t.Valid()
    requires i < j < |names|
    requires FirstSighting(t, names, j)
    ensures InternEquipmentList(t, names).1[i] < InternEquipmentList(t, names).1[j]
    decreases |names|
  {
    var init := names[..|names| - 1];
    var r1 := InternEquipmentList(t, init);
    assert names == init + [names[|names| - 1]];
    if j < |names| - 1 {
      assert init[..j] == names[..j];
      FirstSightingOrder(t, init, i, j);
    } else {
      assert names[j] !in init;
      assert names[j] !in r1.0.ids;
      assert init[i] in r1.0.ids && r1.0.ids[init[i]] == r1.1[i];
    }
  }

  /** Interning the lists `a` and then `b` is interning `a + b`: the
      table carries over from one list to the next, and the id lists
      concatenate. */
  lemma {:induction false} InternEquipmentListAppend(t: EquipmentTable, a: seq<string>, b: seq<string>)
    ensures var ra := InternEquipmentList(t, a);
      var rb := InternEquipmentList(ra.0, b);
      InternEquipmentList(t, a + b) == (rb.0, ra.1 + rb.1)
    decreases |b|
  {
    var ra := InternEquipmentList(t, a);
    if |b| == 0 {
      assert a + b == a && ra.1 + [] == ra.1;
    } else {
      var ab := a + b;
      var b' := b[..|b| - 1];
      var x := b[|b| - 1];
      assert ab[..|ab| - 1] == a + b' && ab[|ab| - 1] == x;
      InternEquipmentListAppend(t, a, b');
      var rb' := InternEquipmentList(ra.0, b');
      var e := InternEquipment(rb'.0, x);
      InternEquipmentListLast(ra.0, b);
      InternEquipmentListLast(t, ab);
      ConcatAssociative(ra.1, rb'.1, [e.1]);
    }
  }

  lemma ConcatAssociative<T>(a: seq<T>, b: seq<T>, c: seq<T>)
    ensures (a + b) + c == a + (b + c)
  {
  }

  /** One unfolding of InternEquipmentList: the last name is interned last. */
  lemma InternEquipmentListLast(t: EquipmentTable, names: seq<string>)
    requires |names| > 0
    ensures var r1 := InternEquipmentList(t, names[..|names| - 1]);
      var r2 := InternEquipment(r1.0, names[|names| - 1]);
      InternEquipmentList(t, names) == (r2.0, r1.1 + [r2.1])
  {
  }

  /** Interns a sequence of sightings (identity, name) left to right: the
      player half of reading observations one after another. */
  function InternPlayers(t: PlayerTable, sightings: seq<(SteamId, string)>): (r: PlayerTable)
    ensures r.meta.Keys == t.meta.Keys + set s | s in sightings :: s.0
    ensures PlayersGrow(t, r)
    ensures t.Valid() ==> r.Valid()
    decreases |sightings|
  {
    if |sightings| == 0 then t
    else
      var init := sightings[..|sightings| - 1];
      var s := sightings[|sightings| - 1];
      assert sightings == init + [s];
      InternPlayer(InternPlayers(t, init), s.0, s.1).0
  }

  lemma {:induction false} InternPlayersAppend(t: PlayerTable, a: seq<(SteamId, string)>, b: seq<(SteamId, string)>)
    ensures InternPlayers(t, a + b) == InternPlayers(InternPlayers(t, a), b)
    decreases |b|
  {
    if |b| == 0 {
      assert a + b == a;
    } else {
      var b' := b[..|b| - 1];
      assert (a + b)[..|a + b| - 1] == a + b';
      InternPlayersAppend(t, a, b');
    }
  }

  /** Short ids are handed out in first-sighting order: an identity seen
      for the first time gets a short id larger than that of every
      identity seen before it. */
  lemma {:induction false} PlayerFirstSightingOrder(t: PlayerTable, sightings: seq<(SteamId, string)>, i: nat, j: nat)
    requires t.Valid()
    requires i < j < |sightings|
    requires sightings[j].0 !in t.meta
    requires forall k :: 0 <= k < j ==> sightings[k].0 != sightings[j].0
    ensures var r := InternPlayers(t, sightings);
      && sightings[i].0 in r.meta && sightings[j].0 in r.meta
      && r.meta[sightings[i].0].idShort < r.meta[sightings[j].0].idShort
    decreases |sightings|
  {
    var n := |sightings| - 1;
    var init := sightings[..n];
    assert sightings == init + [sightings[n]];
    if j < n {
      PlayerFirstSightingOrder(t, init, i, j);
    } else {
      assert sightings[i] == init[i];
      UnseenIdentity(t, init, sightings[j].0);
      NewestIsLargest(InternPlayers(t, init), init[i].0, sightings[j].0, sightings[j].1);
    }
  }

  /** An identity that neither the table nor any sighting holds is not in
      the table after the sightings. */
  lemma UnseenIdentity(t: PlayerTable, sightings: seq<(SteamId, string)>, key: SteamId)
    requires key !in t.meta
    requires forall k :: 0 <= k < |sightings| ==> sightings[k].0 != key
    ensures key !in InternPlayers(t, sightings).meta
  {
    forall s | s in sightings
      ensures s.0 != key
    {
      var k :| 0 <= k < |sightings| && sightings[k] == s;
    }
  }

  /** A fresh identity gets a larger short id than every identity already
      in a dense table. */
  lemma NewestIsLargest(t: PlayerTable, known: SteamId, key: SteamId, name: string)
    requires t.Valid()
    requires known in t.meta && key !in t.meta
    ensures var r := InternPlayer(t, key, name).0;
      known in r.meta && r.meta[known].idShort < r.meta[key].idShort
  {
    assert ShortIds(t.meta)[known] == t.meta[known].idShort;
  }

  /** A resolution stays valid as the table grows. */
  lemma ResolvesGrow(a: EquipmentTable, b: EquipmentTable, names: seq<string>, ids: seq<nat>)
    requires EquipmentGrows(a, b)
    requires Resolves(a, names, ids)
    ensures Resolves(b, names, ids)
  {
  }

  /** An id found in a table is still found after the table grows. */
  lemma PlayerIdsGrow(a: PlayerTable, b: PlayerTable, id: nat)
    requires PlayersGrow(a, b)
    requires id in ShortIds(a.meta).Values
    ensures id in ShortIds(b.meta).Values
  {
    var k :| k in ShortIds(a.meta) && ShortIds(a.meta)[k] == id;
    assert ShortIds(b.meta)[k] == id;
  }

  lemma EquipmentIdsGrow(a: EquipmentTable, b: EquipmentTable, e: nat)
    requires EquipmentGrows(a, b)
    requires e in a.ids.Values
    ensures e in b.ids.Values
  {
    var n :| n in a.ids && a.ids[n] == e;
    assert b.ids[n] == e;
  }

  /** Through an injective table, two resolved lists hold the same ids
      exactly when the name lists hold the same names. */
  lemma ResolvedSameElements(t: EquipmentTable, names1: seq<string>, ids1: seq<nat>, names2: seq<string>, ids2: seq<nat>)
    requires t.Valid()
    requires Resolves(t, names1, ids1) && Resolves(t, names2, ids2)
    ensures SameElements(ids1, ids2) <==> SameElements(names1, names2)
  {
    if SameElements(names1, names2) {
      forall x | x in ids1
        ensures x in ids2
      {
        var a :| 0 <= a < |ids1| && ids1[a] == x;
        assert names1[a] in names2;
        var b :| 0 <= b < |names2| && names2[b] == names1[a];
        assert ids2[b] == x;
      }
      forall x | x in ids2
        ensures x in ids1
      {
        var b :| 0 <= b < |ids2| && ids2[b] == x;
        assert names2[b] in names1;
        var a :| 0 <= a < |names1| && names1[a] == names2[b];
        assert ids1[a] == x;
      }
    }
    if SameElements(ids1, ids2) {
      forall n | n in names1
        ensures n in names2
      {
        var a :| 0 <= a < |names1| && names1[a] == n;
        assert ids1[a] in ids2;
        var b :| 0 <= b < |ids2| && ids2[b] == ids1[a];
        assert t.ids[names2[b]] == t.ids[n];
      }
      forall n | n in names2
        ensures n in names1
      {
        var b :| 0 <= b < |names2| && names2[b] == n;
        assert ids2[b] in ids1;
        var a :| 0 <= a < |ids1| && ids1[a] == ids2[b];
        assert t.ids[names1[a]] == t.ids[n];
      }
    }
  }
}
