/**
  The race database: static events and static races, each in a table by id with a hash index
  beside it, and the vector of reported races that point into both. Objects are named by their
  ids; the hashes are sums and do collide.
 */
module RaceDbs {
  import opened Clocks

  /** A static event is an instruction and an access type; a static race is a pair of static events. */
  datatype Key = Key(first: nat, second: nat) {
    function Hash(): nat {
      first + second
    }
  }

  const NO_ID := 0

  /** `v` without the entries equal to `x`. */
  function Without(v: seq<nat>, x: nat): seq<nat> {
    if v == [] then []
    else Without(v[..|v| - 1], x) + if v[|v| - 1] == x then [] else [v[|v| - 1]]
  }

  lemma {:induction false} WithoutHas(v: seq<nat>, x: nat)
    ensures forall y :: y in Without(v, x) <==> y in v && y != x
  {
    if v != [] {
      WithoutHas(v[..|v| - 1], x);
      assert v == v[..|v| - 1] + [v[|v| - 1]];
    }
  }

  predicate Distinct(v: seq<nat>) {
    forall i, j :: 0 <= i < j < |v| ==> v[i] != v[j]
  }

  lemma {:induction false} WithoutIsDistinct(v: seq<nat>, x: nat)
    requires Distinct(v)
    ensures Distinct(Without(v, x))
  {
    if v != [] {
      var n := |v| - 1;
      WithoutIsDistinct(v[..n], x);
      WithoutHas(v[..n], x);
      var w := Without(v[..n], x);
      forall j | 0 <= j < |w| ensures w[j] != v[n] {
        assert w[j] in v[..n];
        var i :| 0 <= i < n && v[..n][i] == w[j];
      }
    }
  }

  /** A vector erased from while it is iterated over: `done` entries have been kept, `rest` are still to come. */
  method EraseAll(v: seq<nat>, x: nat) returns (w: seq<nat>)
    ensures w == Without(v, x)
  {
    w := v;
    var i := 0;
    ghost var k := 0;
    while i < |w|
      invariant k <= |v| && i == |Without(v[..k], x)| && w == Without(v[..k], x) + v[k..]
      decreases |v| - k
    {
      assert v[..k + 1][..k] == v[..k];
      assert v[k..] == [v[k]] + v[k + 1..];
      assert w[i] == v[k];
      if w[i] == x {
        w := w[..i] + w[i + 1..];
      } else {
        i := i + 1;
      }
      k := k + 1;
    }
    assert v[..|v|] == v;
  }

  /** A bucket holds each of its ids once, and only ids of keys with its hash. */
  ghost predicate BucketOk(v: seq<nat>, h: nat, table: map<nat, Key>) {
    Distinct(v) && forall id :: id in v ==> id in table && table[id].Hash() == h
  }

  class IndexedTable {
    var table: map<nat, Key>
    var index: map<nat, seq<nat>>
    var last: nat

    ghost predicate Valid()
      reads this
    {
      && (forall id :: id in table ==> NO_ID < id <= last)
      && (forall id1, id2 :: id1 in table && id2 in table && table[id1] == table[id2] ==> id1 == id2)
      && (forall id :: id in table ==> table[id].Hash() in index && id in index[table[id].Hash()])
      && (forall h :: h in index ==> BucketOk(index[h], h, table))
    }

    constructor ()
      ensures Valid() && table == map[]
    {
      table, index, last := map[], map[], 0;
    }

    /** Looks a key up through its bucket, and finds it iff it is in the table. */
    method Find(k: Key) returns (id: nat)
      requires Valid()
      ensures id != NO_ID ==> id in table && table[id] == k
      ensures id == NO_ID ==> forall i :: i in table ==> table[i] != k
    {
      if k.Hash() in index {
        var bucket := index[k.Hash()];
        for i := 0 to |bucket|
          invariant forall j :: 0 <= j < i ==> table[bucket[j]] != k
        {
          assert bucket[i] in bucket;
          if table[bucket[i]] == k {
            return bucket[i];
          }
        }
      }
      return NO_ID;
    }

    method Create(k: Key) returns (id: nat)
      requires Valid() && forall i :: i in table ==> table[i] != k
      modifies this
      ensures Valid() && id == last == old(last) + 1 && id !in old(table) && table == old(table)[id := k]
    {
      last := last + 1;
      id := last;
      var bucket := if k.Hash() in index then index[k.Hash()] else [];
      forall h | h in index ensures BucketOk(index[h], h, table[id := k]) {
      }
      table := table[id := k];
      index := index[k.Hash() := bucket + [id]];
      assert id in bucket + [id];
    }

    /** Finds the key or creates it: a key never gets two ids. */
    method Get(k: Key) returns (id: nat)
      requires Valid()
      modifies this
      ensures Valid() && id in table && table[id] == k
      ensures table == if id in old(table) then old(table) else old(table)[id := k]
    {
      id := Find(k);
      if id == NO_ID {
        id := Create(k);
      }
    }

    method Remove(id: nat)
      requires Valid() && id in table
      modifies this
      ensures Valid() && table == old(table) - {id} && last == old(last)
    {
      var h := table[id].Hash();
      var bucket := EraseAll(index[h], id);
      WithoutHas(index[h], id);
      WithoutIsDistinct(index[h], id);
      table := table - {id};
      index := index[h := bucket];
    }
  }

  /** One side of a race as the detector reports it. */
  datatype Side = Side(t: Tid, what: Key)

  datatype Report = Report(x: Addr, side0: Side, side1: Side)

  /** A stored race: its sides name static events, and it names its static race. */
  datatype Race = Race(x: Addr, t0: Tid, e0: nat, t1: Tid, e1: nat, staticRace: nat)

  predicate Concerns(r: Report, what0: Key, what1: Key) {
    r.side0.what == what0 && r.side1.what == what1
  }

  /** The reports that are not about the given ordered pair of static events, whatever their threads. */
  function Other(rs: seq<Report>, what0: Key, what1: Key): seq<Report> {
    if rs == [] then []
    else
      var r := rs[|rs| - 1];
      Other(rs[..|rs| - 1], what0, what1) + if Concerns(r, what0, what1) then [] else [r]
  }

  predicate Resolves(r: Race, events: map<nat, Key>, races: map<nat, Key>) {
    && r.e0 in events && r.e1 in events
    && r.staticRace in races && races[r.staticRace] == Key(r.e0, r.e1)
  }

  function What(events: map<nat, Key>, id: nat): Key {
    if id in events then events[id] else Key(0, 0)
  }

  function Meaning(r: Race, events: map<nat, Key>): Report {
    Report(r.x, Side(r.t0, What(events, r.e0)), Side(r.t1, What(events, r.e1)))
  }

  function Meanings(rs: seq<Race>, events: map<nat, Key>): seq<Report> {
    if rs == [] then [] else Meanings(rs[..|rs| - 1], events) + [Meaning(rs[|rs| - 1], events)]
  }

  /** All stored races name known events and the static race of that pair. */
  ghost predicate AllResolve(rs: seq<Race>, events: map<nat, Key>, races: map<nat, Key>) {
    forall i :: 0 <= i < |rs| ==> Resolves(rs[i], events, races)
  }

  ghost predicate Extends(m: map<nat, Key>, m1: map<nat, Key>) {
    forall id :: id in m ==> id in m1 && m1[id] == m[id]
  }

  /** Naming further static events and races changes no stored race. */
  lemma {:induction false} MeaningsKept(rs: seq<Race>, events: map<nat, Key>, races: map<nat, Key>,
                                        events1: map<nat, Key>, races1: map<nat, Key>)
    requires AllResolve(rs, events, races) && Extends(events, events1) && Extends(races, races1)
    ensures Meanings(rs, events1) == Meanings(rs, events)
    ensures AllResolve(rs, events1, races1)
  {
    if rs != [] {
      assert Resolves(rs[|rs| - 1], events, races);
      MeaningsKept(rs[..|rs| - 1], events, races, events1, races1);
    }
  }

  function WithoutRace(rs: seq<Race>, id: nat): seq<Race> {
    if rs == [] then []
    else WithoutRace(rs[..|rs| - 1], id) + if rs[|rs| - 1].staticRace == id then [] else [rs[|rs| - 1]]
  }

  ghost predicate Unique(table: map<nat, Key>) {
    forall i, j :: i in table && j in table && table[i] == table[j] ==> i == j
  }

  /** A stored race is about the pair of a static race iff it names that static race. */
  lemma NamesItsPair(r: Race, events: map<nat, Key>, races: map<nat, Key>, id: nat)
    requires Unique(events) && Unique(races) && Resolves(r, events, races)
    requires id in races && races[id].first in events && races[id].second in events
    ensures r.staticRace == id <==> Concerns(Meaning(r, events), events[races[id].first], events[races[id].second])
  {
  }

  lemma OtherSnoc(rs: seq<Report>, r: Report, what0: Key, what1: Key)
    ensures Other(rs + [r], what0, what1) == Other(rs, what0, what1) + if Concerns(r, what0, what1) then [] else [r]
  {
  }

  /** Dropping a static race's id drops exactly the reports about its pair. */
  lemma {:induction false} RemovalMeans(rs: seq<Race>, events: map<nat, Key>, races: map<nat, Key>, id: nat,
          what0: Key, what1: Key)
    requires Unique(events) && Unique(races) && AllResolve(rs, events, races)
    requires id in races && races[id].first in events && races[id].second in events
    requires events[races[id].first] == what0 && events[races[id].second] == what1
    ensures Meanings(WithoutRace(rs, id), events) == Other(Meanings(rs, events), what0, what1)
  {
    if rs != [] {
      var n := |rs| - 1;
      RemovalMeans(rs[..n], events, races, id, what0, what1);
      NamesItsPair(rs[n], events, races, id);
      OtherSnoc(Meanings(rs[..n], events), Meaning(rs[n], events), what0, what1);
      assert Other(Meanings(rs[..n], events), what0, what1) + [] == Other(Meanings(rs[..n], events), what0, what1);
      assert WithoutRace(rs[..n], id) + [] == WithoutRace(rs[..n], id);
    }
  }

  lemma {:induction false} RemovalResolves(rs: seq<Race>, events: map<nat, Key>, races: map<nat, Key>, id: nat)
    requires AllResolve(rs, events, races)
    ensures AllResolve(WithoutRace(rs, id), events, races - {id})
  {
    if rs != [] {
      RemovalResolves(rs[..|rs| - 1], events, races, id);
    }
  }

  ghost predicate PairsKnown(races: map<nat, Key>, events: map<nat, Key>) {
    forall id :: id in races ==> races[id].first in events && races[id].second in events
  }

  predicate IsPair(pair: Key, events: map<nat, Key>, what0: Key, what1: Key) {
    && pair.first in events && events[pair.first] == what0
    && pair.second in events && events[pair.second] == what1
  }

  lemma {:induction false} NothingConcerns(rs: seq<Race>, events: map<nat, Key>, races: map<nat, Key>, what0: Key, what1: Key)
    requires AllResolve(rs, events, races)
    requires PairsKnown(races, events)
    requires forall id :: id in races ==> !IsPair(races[id], events, what0, what1)
    ensures Other(Meanings(rs, events), what0, what1) == Meanings(rs, events)
  {
    if rs != [] {
      var n := |rs| - 1;
      assert Resolves(rs[n], events, races);
      NothingConcerns(rs[..n], events, races, what0, what1);
      OtherSnoc(Meanings(rs[..n], events), Meaning(rs[n], events), what0, what1);
    }
  }

  lemma NextRace(rs: seq<Race>, k: nat, id: nat)
    requires k < |rs|
    ensures var kept := WithoutRace(rs[..k], id);
            var w, i := kept + rs[k..], |kept|;
            && w[i] == rs[k]
            && (if rs[k].staticRace == id
                then WithoutRace(rs[..k + 1], id) == kept && w[..i] + w[i + 1..] == kept + rs[k + 1..]
                else |WithoutRace(rs[..k + 1], id)| == i + 1 && w == WithoutRace(rs[..k + 1], id) + rs[k + 1..])
  {
    assert rs[..k + 1][..k] == rs[..k];
    assert rs[k..] == [rs[k]] + rs[k + 1..];
  }

  /** Erases the races of one static race from the vector while iterating over it. */
  method EraseRaces(rs: seq<Race>, id: nat) returns (w: seq<Race>)
    ensures w == WithoutRace(rs, id)
  {
    w := rs;
    var i := 0;
    ghost var k := 0;
    while i < |w|
      invariant k <= |rs| && i == |WithoutRace(rs[..k], id)| && w == WithoutRace(rs[..k], id) + rs[k..]
      decreases |rs| - k
    {
      NextRace(rs, k, id);
      if w[i].staticRace == id {
        w := w[..i] + w[i + 1..];
      } else {
        i := i + 1;
      }
      k := k + 1;
    }
    assert rs[..|rs|] == rs;
  }

  class RaceDB {
    const events: IndexedTable
    const races: IndexedTable
    var raceVec: seq<Race>

    ghost predicate Valid()
      reads this, events, races
    {
      && events != races && events.Valid() && races.Valid()
      && PairsKnown(races.table, events.table)
      && AllResolve(raceVec, events.table, races.table)
    }

    /** The database as the list of races that were reported and not removed. */
    ghost function Reports(): seq<Report>
      reads this, events
    {
      Meanings(raceVec, events.table)
    }

    constructor ()
      ensures Valid() && Reports() == [] && fresh(events) && fresh(races)
    {
      events := new IndexedTable();
      races := new IndexedTable();
      raceVec := [];
    }

    method GetEvents(what0: Key, what1: Key) returns (e0: nat, e1: nat)
      requires Valid()
      modifies events
      ensures Valid() && Reports() == old(Reports())
      ensures e0 in events.table && events.table[e0] == what0
      ensures e1 in events.table && events.table[e1] == what1
    {
      ghost var events0 := events.table;
      e0 := events.Get(what0);
      e1 := events.Get(what1);
      MeaningsKept(raceVec, events0, races.table, events.table, races.table);
    }

    method GetRace(e0: nat, e1: nat) returns (id: nat)
      requires Valid() && e0 in events.table && e1 in events.table
      modifies races
      ensures Valid() && id in races.table && races.table[id] == Key(e0, e1)
    {
      ghost var races0 := races.table;
      id := races.Get(Key(e0, e1));
      MeaningsKept(raceVec, events.table, races0, events.table, races.table);
    }

    method AddRace(r: Race)
      requires Valid() && Resolves(r, events.table, races.table)
      modifies this
      ensures Valid() && Reports() == old(Reports()) + [Meaning(r, events.table)]
    {
      raceVec := raceVec + [r];
    }

    method CreateRace(x: Addr, t0: Tid, what0: Key, t1: Tid, what1: Key)
      requires Valid()
      modifies this, events, races
      ensures Valid()
      ensures Reports() == old(Reports()) + [Report(x, Side(t0, what0), Side(t1, what1))]
    {
      var e0, e1 := GetEvents(what0, what1);
      var id := GetRace(e0, e1);
      AddRace(Race(x, t0, e0, t1, e1, id));
    }

    /** The static race of the ordered pair, if it has one. */
    method FindPair(what0: Key, what1: Key) returns (id: nat)
      requires Valid()
      ensures id != NO_ID ==> id in races.table && IsPair(races.table[id], events.table, what0, what1)
      ensures id == NO_ID ==> forall i :: i in races.table ==> !IsPair(races.table[i], events.table, what0, what1)
    {
      var e0 := events.Find(what0);
      var e1 := events.Find(what1);
      if e0 == NO_ID || e1 == NO_ID {
        return NO_ID;
      }
      id := races.Find(Key(e0, e1));
    }

    method RemoveStatic(id: nat)
      requires Valid() && id in races.table
      modifies this, races
      ensures Valid() && races.table == old(races.table) - {id}
      ensures raceVec == WithoutRace(old(raceVec), id)
    {
      RemovalResolves(raceVec, events.table, races.table, id);
      races.Remove(id);
      raceVec := EraseRaces(raceVec, id);
    }

    /** Removes the static race of the ordered pair, if there is one, and every race that names it. */
    method RemoveRace(what0: Key, what1: Key)
      requires Valid()
      modifies this, races
      ensures Valid() && Reports() == Other(old(Reports()), what0, what1)
    {
      var id := FindPair(what0, what1);
      if id == NO_ID {
        NothingConcerns(raceVec, events.table, races.table, what0, what1);
      } else {
        RemovalMeans(raceVec, events.table, races.table, id, what0, what1);
        RemoveStatic(id);
      }
    }
  }
}
