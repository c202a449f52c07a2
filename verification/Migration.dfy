/** Backfilling the order of map allow lists (internal/repo/maps.go:92-164). */
module Migration {
  /** An allow row: its list position and the SQLite rowid, which is the legacy insert order. */
  datatype Cell = Cell(position: int, rowid: int)

  /** relay_group_allows, by primary key (map id, group id). */
  type Table = map<(nat, nat), Cell>

  datatype Row = Row(mapID: nat, groupID: nat, position: int, rowid: int)

  function Key(r: Row): (nat, nat) {
    (r.mapID, r.groupID)
  }

  /** SQLite rowids are unique. */
  ghost predicate UniqueRowids(t: Table) {
    forall j, k :: j in t && k in t && t[j].rowid == t[k].rowid ==> j == k
  }

  /** The result of selecting the whole table ordered by (map id, rowid). */
  ghost predicate Lists(rows: seq<Row>, t: Table) {
    Faithful(rows, t) && Complete(rows, t) && Ascending(rows)
  }

  ghost predicate Faithful(rows: seq<Row>, t: Table) {
    forall i :: 0 <= i < |rows| ==> Key(rows[i]) in t && t[Key(rows[i])] == Cell(rows[i].position, rows[i].rowid)
  }

  ghost predicate Complete(rows: seq<Row>, t: Table) {
    forall k :: k in t ==> exists i :: 0 <= i < |rows| && Key(rows[i]) == k
  }

  ghost predicate Ascending(rows: seq<Row>) {
    forall i, j :: 0 <= i < j < |rows| ==> Before(rows[i], rows[j])
  }

  predicate Before(a: Row, b: Row) {
    a.mapID < b.mapID || (a.mapID == b.mapID && a.rowid < b.rowid)
  }

  /** Keys in the order of the query. */
  predicate Precedes(t: Table, j: (nat, nat), k: (nat, nat))
    requires j in t && k in t
  {
    j.0 < k.0 || (j.0 == k.0 && t[j].rowid < t[k].rowid)
  }

  lemma {:induction false} LastExists(t: Table) returns (k: (nat, nat))
    requires UniqueRowids(t) && t != map[]
    ensures k in t && forall j :: j in t && j != k ==> Precedes(t, j, k)
    decreases |t|
  {
    k :| k in t;
    var rest := t - {k};
    assert rest.Keys == t.Keys - {k} && |rest| == |rest.Keys| && |t| == |t.Keys|;
    if rest != map[] {
      var l := LastExists(rest);
      if Precedes(t, k, l) {
        forall j | j in t && j != l
          ensures Precedes(t, j, l)
        {
          assert j != k ==> j in rest && Precedes(rest, j, l);
        }
        k := l;
      } else {
        forall j | j in t && j != k
          ensures Precedes(t, j, k)
        {
          assert j in rest && (j != l ==> Precedes(rest, j, l));
        }
      }
    } else {
      assert forall j :: j in t && j != k ==> j in rest;
    }
  }

  /** Every table has such a listing, so the loop is about every table. */
  lemma {:induction false} CanBeListed(t: Table) returns (rows: seq<Row>)
    requires UniqueRowids(t)
    ensures Lists(rows, t)
    decreases |t|
  {
    if t == map[] {
      return [];
    }
    var k := LastExists(t);
    var rest := t - {k};
    assert rest.Keys == t.Keys - {k} && |rest| == |rest.Keys| && |t| == |t.Keys|;
    var front := CanBeListed(rest);
    rows := front + [Row(k.0, k.1, t[k].position, t[k].rowid)];
    ListedLast(front, rest, t, k, rows);
  }

  lemma ListedLast(front: seq<Row>, rest: Table, t: Table, k: (nat, nat), rows: seq<Row>)
    requires k in t && rest == t - {k} && Lists(front, rest)
    requires forall j :: j in t && j != k ==> Precedes(t, j, k)
    requires rows == front + [Row(k.0, k.1, t[k].position, t[k].rowid)]
    ensures Lists(rows, t)
  {
    forall j | j in t
      ensures exists i :: 0 <= i < |rows| && Key(rows[i]) == j
    {
      if j == k {
        assert Key(rows[|front|]) == k;
      } else {
        assert j in rest;
        var i :| 0 <= i < |front| && Key(front[i]) == j;
        assert Key(rows[i]) == j;
      }
    }
    forall i, j | 0 <= i < j < |rows|
      ensures Before(rows[i], rows[j])
    {
      if j < |front| {
        assert Before(front[i], front[j]);
      } else {
        assert rows[i] == front[i] && Key(front[i]) in rest && Precedes(t, Key(front[i]), k);
      }
    }
  }

  // ---------- What the migration is for ----------

  function RowsOf(t: Table, m: nat): set<(nat, nat)> {
    set k | k in t && k.0 == m
  }

  /** A list that was never numbered: at least two rows, all at position 0. */
  predicate Legacy(t: Table, m: nat) {
    m != 0 && |RowsOf(t, m)| >= 2 && forall k :: k in RowsOf(t, m) ==> t[k].position == 0
  }

  /** Rows of the same map inserted earlier. */
  function Earlier(t: Table, k: (nat, nat)): set<(nat, nat)>
    requires k in t
  {
    set j | j in t && j.0 == k.0 && t[j].rowid < t[k].rowid
  }

  function Rank(t: Table, k: (nat, nat)): nat
    requires k in t
  {
    |Earlier(t, k)|
  }

  function Migrated(t: Table): Table {
    map k | k in t :: if Legacy(t, k.0) then Cell(Rank(t, k), t[k].rowid) else t[k]
  }

  // ---------- The loop ----------

  datatype Pending = Pending(groupID: nat, position: int)

  /** UPDATE ... SET position WHERE relay_id AND group_id. */
  function Update(t: Table, m: nat, g: nat, position: int): Table {
    if (m, g) in t then t[(m, g) := Cell(position, t[(m, g)].rowid)] else t
  }

  predicate AllZero(ps: seq<Pending>) {
    forall i :: 0 <= i < |ps| ==> ps[i].position == 0
  }

  ghost predicate DistinctGroups(ps: seq<Pending>) {
    forall i, j :: 0 <= i < j < |ps| ==> ps[i].groupID != ps[j].groupID
  }

  /** The flush renumbers the collected rows of one map, or nothing. */
  ghost predicate Flushed(t: Table, t': Table, current: nat, ps: seq<Pending>) {
    && t'.Keys == t.Keys
    && (forall k :: k in t && !(k.0 == current && Pends(ps, k.1)) ==> t'[k] == t[k])
    && (forall i :: 0 <= i < |ps| && (current, ps[i].groupID) in t ==>
          t'[(current, ps[i].groupID)] ==
          if current != 0 && |ps| >= 2 && AllZero(ps) then Cell(i, t[(current, ps[i].groupID)].rowid)
          else t[(current, ps[i].groupID)])
  }

  ghost predicate Pends(ps: seq<Pending>, g: nat) {
    exists i :: 0 <= i < |ps| && ps[i].groupID == g
  }

  method Flush(t: Table, current: nat, positions: seq<Pending>) returns (out: Table)
    requires DistinctGroups(positions)
    ensures Flushed(t, out, current, positions)
  {
    out := t;
    if current == 0 || |positions| < 2 {
      return;
    }
    var legacy := true;
    var n := 0;
    while n < |positions|
      invariant n <= |positions| && (legacy <==> forall i :: 0 <= i < n ==> positions[i].position == 0)
    {
      if positions[n].position != 0 {
        legacy := false;
        break;
      }
      n := n + 1;
    }
    assert legacy <==> AllZero(positions);
    if legacy {
      out := Renumber(t, current, positions);
    }
  }

  /** The updates of a flush: each collected row gets its index. */
  method Renumber(t: Table, current: nat, positions: seq<Pending>) returns (out: Table)
    requires DistinctGroups(positions)
    ensures out.Keys == t.Keys
    ensures forall k :: k in t && !(k.0 == current && Pends(positions, k.1)) ==> out[k] == t[k]
    ensures forall i :: 0 <= i < |positions| && (current, positions[i].groupID) in t ==>
              out[(current, positions[i].groupID)] == Cell(i, t[(current, positions[i].groupID)].rowid)
  {
    out := t;
    for position := 0 to |positions|
      invariant out.Keys == t.Keys
      invariant forall k :: k in t && !(k.0 == current && Pends(positions[..position], k.1)) ==> out[k] == t[k]
      invariant forall i :: 0 <= i < position && (current, positions[i].groupID) in t ==>
                  out[(current, positions[i].groupID)] == Cell(i, t[(current, positions[i].groupID)].rowid)
    {
      out := Update(out, current, positions[position].groupID, position);
      PendsSnoc(positions, position);
    }
    assert positions[..|positions|] == positions;
  }

  lemma PendsSnoc(ps: seq<Pending>, n: nat)
    requires n < |ps|
    ensures forall g :: Pends(ps[..n + 1], g) <==> Pends(ps[..n], g) || g == ps[n].groupID
  {
  }

  /** The rows collected since index start. */
  function Collected(rows: seq<Row>, start: nat, r: nat): seq<Pending>
    requires start <= r <= |rows|
  {
    seq(r - start, i requires 0 <= i < r - start => Pending(rows[start + i].groupID, rows[start + i].position))
  }

  /** rows[start..r] are exactly the rows of map current. */
  ghost predicate Segment(rows: seq<Row>, start: nat, r: nat, current: nat) {
    && start <= r <= |rows|
    && (forall i :: 0 <= i < start ==> rows[i].mapID != current)
    && (forall i :: start <= i < r ==> rows[i].mapID == current)
    && (forall i :: r <= i < |rows| ==> rows[i].mapID != current)
  }

  lemma DistinctKeys(rows: seq<Row>, t: Table, i: nat, j: nat)
    requires Faithful(rows, t) && Ascending(rows) && i < j < |rows|
    ensures Key(rows[i]) != Key(rows[j])
  {
  }

  lemma SegmentDistinct(rows: seq<Row>, t: Table, start: nat, r: nat, current: nat)
    requires Faithful(rows, t) && Ascending(rows)
    requires start <= r <= |rows| && forall i :: start <= i < r ==> rows[i].mapID == current
    ensures DistinctGroups(Collected(rows, start, r))
  {
  }

  function KeysOf(rows: seq<Row>, start: nat, r: nat): set<(nat, nat)>
    requires start <= r <= |rows|
  {
    set i | start <= i < r :: Key(rows[i])
  }

  lemma {:induction false} KeysCount(rows: seq<Row>, t: Table, start: nat, r: nat)
    requires Faithful(rows, t) && Ascending(rows) && start <= r <= |rows|
    ensures |KeysOf(rows, start, r)| == r - start
    decreases r
  {
    if start < r {
      KeysCount(rows, t, start, r - 1);
      var k := Key(rows[r - 1]);
      forall i | start <= i < r - 1
        ensures Key(rows[i]) != k
      {
        DistinctKeys(rows, t, i, r - 1);
      }
      assert KeysOf(rows, start, r) == KeysOf(rows, start, r - 1) + {k};
    }
  }

  /** A segment holds the whole list of its map. */
  lemma SegmentIsList(rows: seq<Row>, t: Table, start: nat, r: nat, current: nat)
    requires Lists(rows, t) && Segment(rows, start, r, current)
    ensures RowsOf(t, current) == KeysOf(rows, start, r)
    ensures |RowsOf(t, current)| == r - start
  {
    KeysCount(rows, t, start, r);
    forall k | k in RowsOf(t, current)
      ensures k in KeysOf(rows, start, r)
    {
      var i :| 0 <= i < |rows| && Key(rows[i]) == k;
      assert start <= i < r;
    }
  }

  lemma SmallerRowidFirst(rows: seq<Row>, n: nat, i: nat)
    requires Ascending(rows) && n < |rows| && i < |rows|
    requires rows[n].mapID == rows[i].mapID && rows[n].rowid < rows[i].rowid
    ensures n < i
  {
  }

  /** In a segment, the rank of a row is its index. */
  lemma RankIsIndex(rows: seq<Row>, t: Table, start: nat, r: nat, current: nat, i: nat)
    requires Lists(rows, t) && Segment(rows, start, r, current) && start <= i < r
    ensures Rank(t, Key(rows[i])) == i - start
  {
    var k := Key(rows[i]);
    SegmentIsList(rows, t, start, r, current);
    KeysCount(rows, t, start, i);
    forall j | j in Earlier(t, k)
      ensures j in KeysOf(rows, start, i)
    {
      assert j in RowsOf(t, current);
      var n :| start <= n < r && Key(rows[n]) == j;
      SmallerRowidFirst(rows, n, i);
    }
    forall j | j in KeysOf(rows, start, i)
      ensures j in Earlier(t, k)
    {
      var n :| start <= n < i && Key(rows[n]) == j;
      assert Before(rows[n], rows[i]);
    }
    assert KeysOf(rows, start, i) == Earlier(t, k);
  }

  /** A collected position is the stored one. */
  lemma CollectedCell(rows: seq<Row>, t: Table, start: nat, r: nat, i: nat)
    requires Faithful(rows, t) && start <= i < r <= |rows|
    ensures Collected(rows, start, r)[i - start] == Pending(rows[i].groupID, rows[i].position)
    ensures Key(rows[i]) in t && t[Key(rows[i])].position == rows[i].position
  {
  }

  lemma ZeroIfLegacy(rows: seq<Row>, t: Table, start: nat, r: nat, current: nat)
    requires Lists(rows, t) && Segment(rows, start, r, current) && Legacy(t, current)
    ensures AllZero(Collected(rows, start, r))
  {
    SegmentIsList(rows, t, start, r, current);
    var ps := Collected(rows, start, r);
    forall i | 0 <= i < |ps|
      ensures ps[i].position == 0
    {
      CollectedCell(rows, t, start, r, start + i);
      assert Key(rows[start + i]) in KeysOf(rows, start, r);
    }
  }

  lemma LegacyIfZero(rows: seq<Row>, t: Table, start: nat, r: nat, current: nat)
    requires Lists(rows, t) && Segment(rows, start, r, current) && AllZero(Collected(rows, start, r))
    ensures forall k :: k in RowsOf(t, current) ==> t[k].position == 0
  {
    SegmentIsList(rows, t, start, r, current);
    forall k | k in RowsOf(t, current)
      ensures t[k].position == 0
    {
      var i :| start <= i < r && Key(rows[i]) == k;
      CollectedCell(rows, t, start, r, i);
      assert Collected(rows, start, r)[i - start].position == 0;
    }
  }

  /** The flush decides as the declarative rule does. */
  lemma SegmentLegacy(rows: seq<Row>, t: Table, start: nat, r: nat, current: nat)
    requires Lists(rows, t) && Segment(rows, start, r, current)
    ensures Legacy(t, current) <==> current != 0 && r - start >= 2 && AllZero(Collected(rows, start, r))
  {
    SegmentIsList(rows, t, start, r, current);
    if Legacy(t, current) {
      ZeroIfLegacy(rows, t, start, r, current);
    }
    if AllZero(Collected(rows, start, r)) {
      LegacyIfZero(rows, t, start, r, current);
    }
  }

  /** Rows before n are migrated and the others untouched. */
  ghost predicate Progress(rows: seq<Row>, t: Table, out: Table, n: nat) {
    && out.Keys == t.Keys && n <= |rows|
    && (forall i :: 0 <= i < |rows| && Key(rows[i]) in t && Key(rows[i]) in out ==>
          out[Key(rows[i])] == if i < n then Migrated(t)[Key(rows[i])] else t[Key(rows[i])])
  }

  /** What a flush makes of one collected row. */
  lemma RowFlushed(out: Table, out': Table, current: nat, ps: seq<Pending>, i: nat)
    requires Flushed(out, out', current, ps) && i < |ps| && (current, ps[i].groupID) in out
    ensures (current, ps[i].groupID) in out'
    ensures out'[(current, ps[i].groupID)] ==
            if current != 0 && |ps| >= 2 && AllZero(ps) then Cell(i, out[(current, ps[i].groupID)].rowid)
            else out[(current, ps[i].groupID)]
  {
  }

  lemma RowMigrated(rows: seq<Row>, t: Table, out: Table, out': Table, start: nat, r: nat, current: nat, i: nat)
    requires Lists(rows, t) && Segment(rows, start, r, current) && Progress(rows, t, out, start)
    requires Flushed(out, out', current, Collected(rows, start, r)) && start <= i < r
    ensures out'[Key(rows[i])] == Migrated(t)[Key(rows[i])]
  {
    CollectedCell(rows, t, start, r, i);
    SegmentLegacy(rows, t, start, r, current);
    RankIsIndex(rows, t, start, r, current, i);
    assert out[Key(rows[i])] == t[Key(rows[i])];
    RowFlushed(out, out', current, Collected(rows, start, r), i - start);
  }

  lemma FlushProgress(rows: seq<Row>, t: Table, out: Table, out': Table, start: nat, r: nat, current: nat)
    requires Lists(rows, t) && Segment(rows, start, r, current) && Progress(rows, t, out, start)
    requires Flushed(out, out', current, Collected(rows, start, r))
    ensures Progress(rows, t, out', r)
  {
    forall i | 0 <= i < |rows|
      ensures out'[Key(rows[i])] == if i < r then Migrated(t)[Key(rows[i])] else t[Key(rows[i])]
    {
      if start <= i < r {
        RowMigrated(rows, t, out, out', start, r, current, i);
      } else {
        assert rows[i].mapID != current;
        assert Key(rows[i]) in out;
      }
    }
  }

  /** The scan stands before row r and has collected rows[start..r], all of map current. */
  ghost predicate Scanning(rows: seq<Row>, start: nat, r: nat, current: nat, positions: seq<Pending>) {
    && start <= r <= |rows| && (start == r ==> r == 0 && current == 0)
    && (forall i :: 0 <= i < start ==> rows[i].mapID < current)
    && (forall i :: start <= i < r ==> rows[i].mapID == current)
    && positions == Collected(rows, start, r)
  }

  function Pend(row: Row): Pending {
    Pending(row.groupID, row.position)
  }

  lemma ScanSame(rows: seq<Row>, start: nat, r: nat, current: nat, positions: seq<Pending>)
    requires Scanning(rows, start, r, current, positions) && r < |rows| && rows[r].mapID == current
    ensures Scanning(rows, start, r + 1, current, positions + [Pend(rows[r])])
  {
  }

  /** When the map id changes, the segment collected so far is complete. */
  lemma ScanNext(rows: seq<Row>, start: nat, r: nat, current: nat, positions: seq<Pending>)
    requires Ascending(rows) && r < |rows| && rows[r].mapID != current
    requires Scanning(rows, start, r, current, positions)
    ensures Segment(rows, start, r, current)
    ensures Scanning(rows, r, r + 1, rows[r].mapID, [Pend(rows[r])])
  {
    assert current < rows[r].mapID by {
      assert start < r ==> Before(rows[r - 1], rows[r]);
    }
    forall i | r <= i < |rows|
      ensures rows[i].mapID != current
    {
      assert i > r ==> Before(rows[r], rows[i]);
    }
  }

  /** The grouped flush loop computes the declarative migration. */
  method Migrate(t: Table, rows: seq<Row>) returns (out: Table)
    requires Lists(rows, t)
    ensures out == Migrated(t)
  {
    var current := 0;
    var positions: seq<Pending> := [];
    ghost var start := 0;
    out := t;
    for r := 0 to |rows|
      invariant Scanning(rows, start, r, current, positions)
      invariant Progress(rows, t, out, start)
    {
      if current != rows[r].mapID {
        ScanNext(rows, start, r, current, positions);
        out := FlushSegment(t, rows, out, start, r, current, positions);
        start := r;
        positions := [];
        current := rows[r].mapID;
      } else {
        ScanSame(rows, start, r, current, positions);
      }
      positions := positions + [Pend(rows[r])];
    }
    out := FlushSegment(t, rows, out, start, |rows|, current, positions);
    ProgressDone(rows, t, out);
  }

  /** Flushing a complete segment extends the migrated part to its end. */
  method FlushSegment(ghost t: Table, ghost rows: seq<Row>, table: Table, ghost start: nat, ghost r: nat,
                      current: nat, positions: seq<Pending>)
    returns (out: Table)
    requires Lists(rows, t) && Segment(rows, start, r, current) && Progress(rows, t, table, start)
    requires positions == Collected(rows, start, r)
    ensures Progress(rows, t, out, r)
  {
    SegmentDistinct(rows, t, start, r, current);
    out := Flush(table, current, positions);
    FlushProgress(rows, t, table, out, start, r, current);
  }

  lemma ProgressDone(rows: seq<Row>, t: Table, out: Table)
    requires Complete(rows, t) && Progress(rows, t, out, |rows|)
    ensures out == Migrated(t)
  {
  }

  // ---------- What the migration achieves ----------

  /** Ranks follow insert order. */
  lemma RankMonotone(t: Table, j: (nat, nat), k: (nat, nat))
    requires j in t && k in t && j.0 == k.0 && t[j].rowid < t[k].rowid
    ensures Rank(t, j) < Rank(t, k)
  {
    assert Earlier(t, k) == Earlier(t, j) + {j} + (Earlier(t, k) - Earlier(t, j) - {j});
  }

  lemma NoLongerLegacy(t: Table, m: nat)
    requires UniqueRowids(t)
    ensures !Legacy(Migrated(t), m)
  {
    var t' := Migrated(t);
    assert RowsOf(t', m) == RowsOf(t, m);
    if Legacy(t, m) {
      var j :| j in RowsOf(t, m);
      assert RowsOf(t, m) != {j};
      var k :| k in RowsOf(t, m) && k != j;
      if t[j].rowid < t[k].rowid {
        RankMonotone(t, j, k);
        assert t'[k].position != 0;
      } else {
        RankMonotone(t, k, j);
        assert t'[j].position != 0;
      }
    } else if m != 0 && |RowsOf(t, m)| >= 2 {
      var k :| k in RowsOf(t, m) && t[k].position != 0;
      assert t'[k].position != 0;
    }
  }

  /** Running the migration twice is running it once. */
  lemma MigrationIdempotent(t: Table)
    requires UniqueRowids(t)
    ensures Migrated(Migrated(t)) == Migrated(t)
  {
    forall k | k in t
      ensures Migrated(Migrated(t))[k] == Migrated(t)[k]
    {
      NoLongerLegacy(t, k.0);
    }
  }

  /** Every row of a legacy list gets its own number below the length of the list. */
  lemma NumberedFromZero(t: Table, m: nat)
    requires UniqueRowids(t) && Legacy(t, m)
    ensures forall k :: k in RowsOf(t, m) ==> 0 <= Migrated(t)[k].position < |RowsOf(t, m)|
    ensures forall j, k :: j in RowsOf(t, m) && k in RowsOf(t, m) && j != k ==>
              Migrated(t)[j].position != Migrated(t)[k].position
  {
    forall k | k in RowsOf(t, m)
      ensures 0 <= Migrated(t)[k].position < |RowsOf(t, m)|
    {
      var rest := RowsOf(t, m) - Earlier(t, k);
      assert RowsOf(t, m) == Earlier(t, k) + rest && k in rest;
    }
    forall j, k | j in RowsOf(t, m) && k in RowsOf(t, m) && j != k
      ensures Migrated(t)[j].position != Migrated(t)[k].position
    {
      if t[j].rowid < t[k].rowid {
        RankMonotone(t, j, k);
      } else {
        RankMonotone(t, k, j);
      }
    }
  }

  /** ids is what listing map m returns: its groups ordered by (position, group id). */
  ghost predicate IsListing(t: Table, m: nat, ids: seq<nat>) {
    && (forall g :: g in ids <==> (m, g) in t)
    && (forall i, j :: 0 <= i < j < |ids| ==> ListedBefore(t, m, ids[i], ids[j]))
  }

  predicate ListedBefore(t: Table, m: nat, g: nat, h: nat) {
    (m, g) in t && (m, h) in t &&
    var p, q := t[(m, g)].position, t[(m, h)].position;
    p < q || (p == q && g < h)
  }

  /** After the migration a legacy list is returned in insert order, any other as before. */
  lemma ListingIsInsertOrder(t: Table, m: nat, ids: seq<nat>)
    requires UniqueRowids(t) && IsListing(Migrated(t), m, ids)
    ensures forall g :: g in ids <==> (m, g) in t
    ensures Legacy(t, m) ==> forall i, j :: 0 <= i < j < |ids| ==> t[(m, ids[i])].rowid < t[(m, ids[j])].rowid
    ensures !Legacy(t, m) ==> IsListing(t, m, ids)
  {
    assert forall i :: 0 <= i < |ids| ==> ids[i] in ids && (m, ids[i]) in t;
    if !Legacy(t, m) {
      assert forall i, j :: 0 <= i < j < |ids| ==> ListedBefore(Migrated(t), m, ids[i], ids[j])
                                                     && ListedBefore(t, m, ids[i], ids[j]);
    }
    if Legacy(t, m) {
      forall i, j | 0 <= i < j < |ids|
        ensures t[(m, ids[i])].rowid < t[(m, ids[j])].rowid
      {
        var a, b := (m, ids[i]), (m, ids[j]);
        assert ListedBefore(Migrated(t), m, ids[i], ids[j]);
        assert a in t && b in t && a != b;
        if t[b].rowid < t[a].rowid {
          RankMonotone(t, b, a);
        }
      }
    }
  }
}
