/**
 * The path table Net._paths: for an origin and a destination, the list of
 * paths found so far for that pair. These are the value-level facts about the
 * table that the Net operations rely on.
 */
module PathTable {
  import opened Elements

  type Table = map<Vertex, map<Vertex, seq<Path>>>

  /** A list filed under (s, t): its paths run from s to t. */
  ghost predicate ListValid(ps: seq<Path>, s: Vertex, t: Vertex)
  {
    forall i :: 0 <= i < |ps| ==> ps[i].source == s && ps[i].target == t
  }

  /** Every list of the table is valid for the pair it is filed under. */
  ghost predicate TableValid(table: Table)
  {
    forall s, t :: s in table && t in table[s] ==> ListValid(table[s][t], s, t)
  }

  /** The positions of the table: one (origin, destination, index) per path filed. */
  ghost function Slots(table: Table): set<(Vertex, Vertex, int)>
  {
    set s, t, i | s in table && t in table[s] && 0 <= i < |table[s][t]| :: (s, t, i)
  }

  /** The list filed under (s, t); empty when the table has no such entry. */
  function ListOf(table: Table, s: Vertex, t: Vertex): seq<Path>
  {
    if s in table && t in table[s] then table[s][t] else []
  }

  /** The table with the list of (s, t) replaced by `ps`. */
  function WithList(table: Table, s: Vertex, t: Vertex, ps: seq<Path>): (r: Table)
    requires s in table && t in table[s]
    ensures r.Keys == table.Keys && forall u :: u in table ==> r[u].Keys == table[u].Keys
    ensures r[s][t] == ps
    ensures forall u, v :: u in table && v in table[u] && (u != s || v != t) ==> r[u][v] == table[u][v]
  {
    table[s := table[s][t := ps]]
  }

  /**
   * `next` only adds paths at the ends of `prev`'s lists: the same origins and
   * destinations, each old list as long as before or longer, with its older
   * paths (their figures may change) at the same places for the same pair.
   */
  ghost predicate Extends(prev: Table, next: Table)
  {
    prev.Keys == next.Keys
    && (forall s :: s in prev ==> prev[s].Keys == next[s].Keys)
    && (forall s, t :: s in prev && t in prev[s] ==> |prev[s][t]| <= |next[s][t]|)
  }

  lemma ExtendsTransitive(a: Table, b: Table, c: Table)
    requires Extends(a, b) && Extends(b, c)
    ensures Extends(a, c)
  {
    forall s, t | s in a && t in a[s] ensures |a[s][t]| <= |c[s][t]| {
      assert |a[s][t]| <= |b[s][t]| <= |c[s][t]|;
    }
  }

  /** A list valid for its pair keeps the table valid; one at least as long extends it. */
  lemma WithListValid(table: Table, s: Vertex, t: Vertex, ps: seq<Path>)
    requires TableValid(table) && s in table && t in table[s] && ListValid(ps, s, t)
    ensures TableValid(WithList(table, s, t, ps))
    ensures |table[s][t]| <= |ps| ==> Extends(table, WithList(table, s, t, ps))
  {
    var r: Table := WithList(table, s, t, ps);
    forall u, v | u in r && v in r[u] ensures ListValid(r[u][v], u, v) {
      if u != s || v != t {
        assert r[u][v] == table[u][v];
      }
    }
  }

  /** Replacing a list by one at least as long extends the table. */
  lemma WithListExtends(table: Table, s: Vertex, t: Vertex, ps: seq<Path>)
    requires s in table && t in table[s] && |table[s][t]| <= |ps|
    ensures Extends(table, WithList(table, s, t, ps))
  {
  }

  /** Replacing a list by itself leaves the table as it was. */
  lemma WithListSame(table: Table, s: Vertex, t: Vertex)
    requires s in table && t in table[s]
    ensures WithList(table, s, t, table[s][t]) == table
  {
    assert table[s][t := table[s][t]] == table[s];
  }

  /** Replacing the same list twice is replacing it once, by the later list. */
  lemma WithListTwice(table: Table, s: Vertex, t: Vertex, a: seq<Path>, b: seq<Path>)
    requires s in table && t in table[s]
    ensures WithList(WithList(table, s, t, a), s, t, b) == WithList(table, s, t, b)
  {
    assert table[s][t := a][t := b] == table[s][t := b];
  }

  /** Replacing a list by one of the same length keeps the positions. */
  lemma {:induction false} SlotsSameLength(table: Table, s: Vertex, t: Vertex, ps: seq<Path>)
    requires s in table && t in table[s] && |ps| == |table[s][t]|
    ensures Slots(WithList(table, s, t, ps)) == Slots(table)
  {
    var r: Table := WithList(table, s, t, ps);
    forall x | x in Slots(r) ensures x in Slots(table) {
      var u: Vertex, v: Vertex, i: int :| u in r && v in r[u] && 0 <= i < |r[u][v]| && x == (u, v, i);
      assert |r[u][v]| == |table[u][v]|;
    }
    forall x | x in Slots(table) ensures x in Slots(r) {
      var u: Vertex, v: Vertex, i: int :| u in table && v in table[u] && 0 <= i < |table[u][v]| && x == (u, v, i);
      assert |r[u][v]| == |table[u][v]|;
    }
  }

  /** Replacing a list by one a path longer adds exactly one position. */
  lemma {:induction false} SlotsOneLonger(table: Table, s: Vertex, t: Vertex, ps: seq<Path>)
    requires s in table && t in table[s] && |ps| == |table[s][t]| + 1
    ensures Slots(WithList(table, s, t, ps)) == Slots(table) + {(s, t, |table[s][t]|)}
    ensures |Slots(WithList(table, s, t, ps))| == |Slots(table)| + 1
  {
    var r: Table := WithList(table, s, t, ps);
    var x0 := (s, t, |table[s][t]|);
    forall x | x in Slots(r) ensures x in Slots(table) + {x0} {
      var u: Vertex, v: Vertex, i: int :| u in r && v in r[u] && 0 <= i < |r[u][v]| && x == (u, v, i);
      if u != s || v != t {
        assert |r[u][v]| == |table[u][v]|;
      }
    }
    forall x | x in Slots(table) + {x0} ensures x in Slots(r) {
      if x != x0 {
        var u: Vertex, v: Vertex, i: int :| u in table && v in table[u] && 0 <= i < |table[u][v]| && x == (u, v, i);
        if u != s || v != t {
          assert |r[u][v]| == |table[u][v]|;
        }
      }
    }
    assert x0 !in Slots(table);
  }

  /** Replacing a list by a longer one adds one position per path added. */
  lemma {:induction false} SlotsLonger(table: Table, s: Vertex, t: Vertex, ps: seq<Path>)
    requires s in table && t in table[s] && |table[s][t]| <= |ps|
    decreases |ps|
    ensures |Slots(WithList(table, s, t, ps))| == |Slots(table)| + |ps| - |table[s][t]|
  {
    if |ps| == |table[s][t]| {
      SlotsSameLength(table, s, t, ps);
    } else {
      var mid := ps[..|ps| - 1];
      SlotsLonger(table, s, t, mid);
      var m := WithList(table, s, t, mid);
      SlotsOneLonger(m, s, t, ps);
      WithListTwice(table, s, t, mid, ps);
    }
  }

  /**
   * Replacing an origin's row by one whose lists are either empty or the
   * row's old lists keeps the table valid.
   */
  lemma ReplacedRowValid(table: Table, s: Vertex, row: map<Vertex, seq<Path>>)
    requires TableValid(table)
    requires forall t :: t in row ==> row[t] == [] || (s in table && t in table[s] && row[t] == table[s][t])
    ensures TableValid(table[s := row])
  {
  }
  /** Every destination of `ends` with an empty path list. */
  function EmptyLists(ends: seq<Vertex>): (m: map<Vertex, seq<Path>>)
    ensures m.Keys == set t | t in ends
    ensures forall t :: t in m ==> m[t] == []
  {
    map t | t in ends :: []
  }

  /** The table after every origin of `starts` got a row of empty lists, one per destination of `ends`. */
  ghost function Initialized(table: Table, starts: seq<Vertex>, ends: seq<Vertex>): (r: Table)
    ensures r.Keys == table.Keys + set s | s in starts
    ensures forall s :: s in r ==> r[s] == if s in starts then EmptyLists(ends) else table[s]
  {
    map s | s in table.Keys + (set u | u in starts) :: if s in starts then EmptyLists(ends) else table[s]
  }

  /** Giving one more origin its row of empty lists. */
  lemma InitializedSnoc(table: Table, starts: seq<Vertex>, s: Vertex, ends: seq<Vertex>)
    ensures Initialized(table, starts + [s], ends) == Initialized(table, starts, ends)[s := EmptyLists(ends)]
  {
    var a := Initialized(table, starts + [s], ends);
    var b := Initialized(table, starts, ends)[s := EmptyLists(ends)];
    assert a.Keys == b.Keys;
  }

  /** The table after every origin of `starts` that has an entry had the lists of `ends` emptied. */
  ghost function Cleaned(table: Table, starts: seq<Vertex>, ends: seq<Vertex>): Table
  {
    map s | s in table :: if s in starts then table[s] + EmptyLists(ends) else table[s]
  }

  /** Clearing one more origin's row. */
  lemma CleanedSnoc(table: Table, starts: seq<Vertex>, s: Vertex, ends: seq<Vertex>)
    requires s in table
    ensures Cleaned(table, starts + [s], ends)
         == Cleaned(table, starts, ends)[s := Cleaned(table, starts, ends)[s] + EmptyLists(ends)]
  {
    var a := Cleaned(table, starts + [s], ends);
    var b := Cleaned(table, starts, ends)[s := Cleaned(table, starts, ends)[s] + EmptyLists(ends)];
    assert a.Keys == b.Keys;
    forall u | u in a ensures a[u] == b[u] {
      if u == s {
        assert table[s] + EmptyLists(ends) + EmptyLists(ends) == table[s] + EmptyLists(ends);
      }
    }
  }
}
