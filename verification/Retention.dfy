/** Rows of archived versions, the files they point to, and the rules by which both are thrown
    away: missed versions are pruned, and of the archived ones only the newest are retained. */
module Retention {
  type Id = nat
  type Parent = nat
  type FileId = nat

  /** One version of a workbook's or data source's contents.  `rank` orders the versions of a
      parent: its serial number, or its time stamp. */
  datatype Row = Row(parent: Parent, rank: int, archived: bool, files: set<FileId>)

  type Table = map<Id, Row>

  function Unarchived(rows: Table, p: Parent): set<Id> {
    set id | id in rows && rows[id].parent == p && !rows[id].archived
  }

  function Archived(rows: Table, p: Parent): set<Id> {
    set id | id in rows && rows[id].parent == p && rows[id].archived
  }

  // ---------------------------------------------------------------- what is promised

  /** `kept` are the newest of `all`. */
  ghost predicate Newest(rows: Table, all: set<Id>, kept: set<Id>)
    requires all <= rows.Keys
  {
    kept <= all && forall id, other :: id in kept && other in all - kept ==> rows[other].rank <= rows[id].rank
  }

  ghost predicate SubTable(rows: Table, rows': Table) {
    forall id :: id in rows' ==> id in rows && rows'[id] == rows[id]
  }

  /** Only archived versions of `p` are gone. */
  ghost predicate OnlyOf(rows: Table, rows': Table, p: Parent) {
    forall id :: id in rows && id !in rows' ==> id in Archived(rows, p)
  }

  function Min(a: nat, b: nat): nat { if a < b then a else b }

  /** Of each parent's archived versions the `k` newest remain, or all; nothing else goes. */
  ghost predicate Retains(rows: Table, rows': Table, k: nat) {
    && SubTable(rows, rows')
    && (forall id :: id in rows && !rows[id].archived ==> id in rows')
    && forall p :: RetainsOf(rows, rows', p, k)
  }

  ghost predicate RetainsOf(rows: Table, rows': Table, p: Parent, k: nat) {
    && Newest(rows, Archived(rows, p), Archived(rows', p))
    && |Archived(rows', p)| == Min(|Archived(rows, p)|, k)
  }

  /** A version that has no later one, among the unarchived of its parent. */
  predicate IsLatest(rows: Table, id: Id)
    requires id in rows
  {
    forall other :: other in Unarchived(rows, rows[id].parent) ==> rows[other].rank <= rows[id].rank
  }

  /** How many rows go: of each group, what is over the count. */
  function Excess(rows: Table, groups: seq<Parent>, k: nat): int {
    if groups == [] then 0
    else Excess(rows, groups[..|groups| - 1], k) + |Archived(rows, groups[|groups| - 1])| - k
  }

  /** The groups with more archived versions than `k`, as the database lists them. */
  ghost predicate Lists(groups: seq<Parent>, rows: Table, k: nat) {
    && (forall p :: p in groups <==> |Archived(rows, p)| > k)
    && (forall i, j :: 0 <= i < j < |groups| ==> groups[i] != groups[j])
  }

  function FilesOf(rows: Table, ids: set<Id>): set<FileId>
    requires ids <= rows.Keys
  {
    set id, f | id in ids && f in rows[id].files :: f
  }

  // ---------------------------------------------------------------- the archive

  class Archive {
    var rows: Table
    var files: set<FileId>

    constructor (rows: Table, files: set<FileId>)
      ensures this.rows == rows && this.files == files
    {
      this.rows, this.files := rows, files;
    }

    /** `_prune_all_missed_extracts`, `_prune_missed_revisions`: one statement. */
    method Prune() returns (count: nat)
      modifies this`rows
      ensures Pruned(old(rows), rows) && count == |old(rows)| - |rows|
    {
      var pruned := set id | id in rows && !rows[id].archived && !IsLatest(rows, id);
      SizeOfRest(rows, pruned);
      count := |pruned|;
      rows := rows - pruned;
    }

    /** `_retain_some`: a count of 0 switches retention off, -1 retains everything. */
    method RetainSome(retain: int, groups: seq<Parent>) returns (removed: nat)
      requires retain >= -1 && (retain > 0 ==> Lists(groups, rows, retain))
      modifies this
      ensures retain <= 0 ==> removed == 0 && unchanged(this)
      ensures retain > 0 ==> Retains(old(rows), rows, retain) && removed == Excess(old(rows), groups, retain)
      ensures removed == |old(rows)| - |rows|
      ensures files == old(files) - FilesOf(old(rows), old(rows).Keys - rows.Keys)
    {
      if retain == 0 || retain == -1 {
        assert FilesOf(rows, rows.Keys - rows.Keys) == {};
        return 0;
      }
      hide Progress, Newest, Archived, FilesOf, Lists, Retains, RetainsOf, SubTable, OnlyOf;
      ghost var all := rows;
      removed := 0;
      NoGroup(rows, retain);
      for n := 0 to |groups|
        invariant Progress(all, rows, groups[..n], retain)
        invariant removed == Excess(all, groups[..n], retain) == |all| - |rows|
        invariant files == old(files) - FilesOf(all, all.Keys - rows.Keys)
      {
        var p := groups[n];
        ghost var before := rows;
        NextGroup(all, rows, groups, n, retain);
        assert groups[..n + 1] == groups[..n] + [p] && groups[..n + 1][..n] == groups[..n];
        var excess := |Archived(rows, p)| - retain;
        var count := RetainOne(p, excess);
        OneGroup(all, before, rows, groups[..n], p, retain, old(files));
        removed := removed + count;
      }
      assert groups[..|groups|] == groups;
      AllGroups(all, rows, groups, retain);
    }

    /** The query for the oldest archived versions of a parent. */
    method Oldest(p: Parent, m: nat) returns (list: seq<Id>)
      requires m <= |Archived(rows, p)|
      ensures |list| == m && Listed(rows, list) && Elements(list) <= Archived(rows, p)
      ensures |Elements(list)| == m && Newest(rows, Archived(rows, p), Archived(rows, p) - Elements(list))
    {
      list := [];
      var all := Archived(rows, p);
      var rest := all;
      assert all <= rows.Keys;
      hide Archived;
      while |list| < m
        invariant all <= rows.Keys && rest == all - Elements(list) && Elements(list) <= all
        invariant |list| == |Elements(list)| <= m && |rest| == |all| - |list|
        invariant Newest(rows, all, rest) && Listed(rows, list)
      {
        MinExists(rows, rest);
        var x :| x in rest && IsOldest(rows, rest, x);
        AddOldest(rows, all, list, rest, x);
        list, rest := list + [x], rest - {x};
      }
    }

    /** Each row is removed before its files. */
    method RemoveRows(list: seq<Id>)
      requires Listed(rows, list)
      modifies this
      ensures rows == old(rows) - Elements(list) && Elements(list) <= old(rows).Keys
      ensures files == old(files) - FilesOf(old(rows), old(rows).Keys - rows.Keys)
    {
      ghost var all := rows;
      assert all.Keys - rows.Keys == {};
      for n := 0 to |list|
        invariant Elements(list[..n]) <= all.Keys && rows == all - Elements(list[..n])
        invariant files == old(files) - FilesOf(all, all.Keys - rows.Keys)
      {
        var id := list[n];
        assert Elements(list[..n + 1]) == Elements(list[..n]) + {id};
        assert id !in Elements(list[..n]);
        ghost var before := rows;
        var pointed := rows[id].files;
        rows := rows - {id};
        files := files - pointed;
        assert all.Keys - rows.Keys == (all.Keys - before.Keys) + {id};
      }
      assert list[..|list|] == list;
    }

    /** The `excess` oldest archived versions of a parent are removed, with their files. */
    method RetainOne(p: Parent, excess: nat) returns (count: nat)
      requires excess <= |Archived(rows, p)|
      modifies this
      ensures SubTable(old(rows), rows) && OnlyOf(old(rows), rows, p)
      ensures count == excess == |old(rows)| - |rows|
      ensures Newest(old(rows), Archived(old(rows), p), Archived(rows, p))
      ensures |Archived(rows, p)| == |Archived(old(rows), p)| - excess
      ensures files == old(files) - FilesOf(old(rows), old(rows).Keys - rows.Keys)
    {
      hide FilesOf, Listed, Newest;
      var oldest := Oldest(p, excess);
      ghost var all := rows;
      RemoveRows(oldest);
      count := |oldest|;
      SizeOfRest(all, Elements(oldest));
      assert all.Keys - rows.Keys == Elements(oldest);
      assert Archived(rows, p) == Archived(all, p) - Elements(oldest);
      assert |Archived(rows, p)| == |Archived(all, p)| - |Elements(oldest)|;
    }
  }

  /** Rows, in order of age. */
  ghost predicate Listed(rows: Table, list: seq<Id>) {
    && (forall i :: 0 <= i < |list| ==> list[i] in rows)
    && (forall i, j :: 0 <= i < j < |list| ==> list[i] != list[j] && rows[list[i]].rank <= rows[list[j]].rank)
  }

  lemma AddOldest(rows: Table, all: set<Id>, list: seq<Id>, rest: set<Id>, x: Id)
    requires all <= rows.Keys && rest == all - Elements(list) && Elements(list) <= all
    requires |list| == |Elements(list)| && Newest(rows, all, rest) && Listed(rows, list)
    requires x in rest && IsOldest(rows, rest, x)
    ensures Elements(list + [x]) == Elements(list) + {x} && rest - {x} == all - Elements(list + [x])
    ensures |Elements(list + [x])| == |list| + 1 && Newest(rows, all, rest - {x}) && Listed(rows, list + [x])
  {
    assert Elements(list + [x]) == Elements(list) + {x};
    forall i | 0 <= i < |list| ensures list[i] != x && rows[list[i]].rank <= rows[x].rank {
      assert list[i] in Elements(list);
    }
  }

  function Elements(list: seq<Id>): set<Id> { set id | id in list }

  predicate IsOldest(rows: Table, ids: set<Id>, x: Id)
    requires ids <= rows.Keys && x in rows
  {
    forall y :: y in ids ==> rows[x].rank <= rows[y].rank
  }

  lemma {:induction false} MinExists(rows: Table, ids: set<Id>)
    requires ids <= rows.Keys && ids != {}
    ensures exists x :: x in ids && IsOldest(rows, ids, x)
    decreases |ids|
  {
    var z :| z in ids;
    if ids == {z} {
      assert IsOldest(rows, ids, z);
    } else {
      MinExists(rows, ids - {z});
      var x :| x in ids - {z} && IsOldest(rows, ids - {z}, x);
      assert forall y :: y in ids ==> y in ids - {z} || y == z;
      assert IsOldest(rows, ids, if rows[z].rank < rows[x].rank then z else x);
    }
  }

  lemma SizeOfRest(rows: Table, gone: set<Id>)
    requires gone <= rows.Keys
    ensures |rows - gone| == |rows| - |gone|
  {
    assert (rows - gone).Keys == rows.Keys - gone;
  }

  // ---------------------------------------------------------------- group by group

  /** The groups of `done` are cut down, the others are as they were. */
  ghost predicate Progress(all: Table, rows: Table, done: seq<Parent>, k: nat) {
    && SubTable(all, rows) && (forall id :: id in all && !all[id].archived ==> id in rows)
    && forall p :: if p in done then RetainsOf(all, rows, p, k) else Archived(rows, p) == Archived(all, p)
  }

  lemma NoGroup(rows: Table, k: nat)
    ensures Progress(rows, rows, [], k) && FilesOf(rows, rows.Keys - rows.Keys) == {}
  {
  }

  lemma NextGroup(all: Table, rows: Table, groups: seq<Parent>, n: nat, k: nat)
    requires n < |groups| && Progress(all, rows, groups[..n], k) && Lists(groups, all, k)
    ensures groups[n] !in groups[..n] && |Archived(rows, groups[n])| == |Archived(all, groups[n])| > k
  {
    hide RetainsOf;
  }

  lemma OneGroup(all: Table, rows: Table, rows': Table, done: seq<Parent>, p: Parent, k: nat, files: set<FileId>)
    requires Progress(all, rows, done, k) && p !in done && |Archived(all, p)| > k
    requires SubTable(rows, rows') && OnlyOf(rows, rows', p)
    requires Newest(rows, Archived(rows, p), Archived(rows', p)) && |Archived(rows', p)| == k
    ensures Progress(all, rows', done + [p], k)
    ensures files - FilesOf(all, all.Keys - rows.Keys) - FilesOf(rows, rows.Keys - rows'.Keys)
      == files - FilesOf(all, all.Keys - rows'.Keys)
  {
    assert FilesOf(all, all.Keys - rows.Keys) + FilesOf(rows, rows.Keys - rows'.Keys) == FilesOf(all, all.Keys - rows'.Keys);
    forall q | q != p ensures Archived(rows', q) == Archived(rows, q) {
    }
    forall q | q in done + [p] ensures RetainsOf(all, rows', q, k) {
      if q != p {
        assert RetainsOf(all, rows, q, k);
      }
    }
  }

  lemma AllGroups(all: Table, rows: Table, groups: seq<Parent>, k: nat)
    requires Progress(all, rows, groups, k) && Lists(groups, all, k)
    ensures Retains(all, rows, k)
  {
    forall p ensures RetainsOf(all, rows, p, k) {
      if p !in groups {
        assert Archived(rows, p) == Archived(all, p);
      }
    }
  }

  // ---------------------------------------------------------------- what that means

  predicate DistinctRanks(rows: Table) {
    forall id, other :: id in rows && other in rows && rows[id].rank == rows[other].rank ==> id == other
  }

  /** A prune leaves `rows'` of `rows`. */
  ghost predicate Pruned(rows: Table, rows': Table) {
    SubTable(rows, rows') && forall id :: id in rows ==> (id in rows' <==> rows[id].archived || IsLatest(rows, id))
  }

  lemma PruneKeepsArchived(rows: Table, rows': Table, p: Parent)
    requires Pruned(rows, rows')
    ensures Archived(rows', p) == Archived(rows, p)
  {
  }

  /** After a prune, the latest unarchived version of a parent is left, and just that when no
      two versions have the same rank. */
  lemma PrunedToOne(rows: Table, rows': Table, x: Id)
    requires Pruned(rows, rows') && DistinctRanks(rows) && x in rows && !rows[x].archived
    ensures Unarchived(rows', rows[x].parent) == {x} <==> IsLatest(rows, x)
  {
    var ids, ids' := Unarchived(rows, rows[x].parent), Unarchived(rows', rows[x].parent);
    forall id | id in ids' ensures id in ids && IsLatest(rows, id) {
    }
    if IsLatest(rows, x) {
      forall id | id in ids' ensures id == x {
        assert rows[x].rank == rows[id].rank;
      }
      assert x in ids';
    }
  }

  /** A later unarchived version of the same parent. */
  predicate Later(rows: Table, id: Id, later: Id)
    requires id in rows
  {
    later in rows && !rows[later].archived && rows[later].parent == rows[id].parent && rows[later].rank > rows[id].rank
  }

  /** Spelt out: an unarchived version goes exactly when its parent has a later one. */
  lemma PrunedMeans(rows: Table, rows': Table)
    requires Pruned(rows, rows')
    ensures forall id :: id in rows' ==> id in rows && rows'[id] == rows[id]
    ensures forall id :: id in rows ==> (id !in rows' <==> !rows[id].archived && exists later :: Later(rows, id, later))
  {
    forall id | id in rows ensures IsLatest(rows, id) <==> forall later :: !Later(rows, id, later) {
      var ids := Unarchived(rows, rows[id].parent);
      assert forall later :: Later(rows, id, later) <==> later in ids && !(rows[later].rank <= rows[id].rank);
    }
  }

  /** Spelt out: an unarchived version stays, an archived one is no older than any that has
      gone of its parent, and of each parent `k` are left, or all. */
  lemma RetainsMeans(rows: Table, rows': Table, k: nat, p: Parent)
    requires Retains(rows, rows', k)
    ensures forall id :: id in rows' ==> id in rows && rows'[id] == rows[id]
    ensures forall id, gone :: id in rows' && gone in rows && gone !in rows' && rows[id].parent == rows[gone].parent ==>
              rows[gone].archived && (rows[id].archived ==> rows[gone].rank <= rows[id].rank)
    ensures var n, n' := |set id | id in rows && rows[id].archived && rows[id].parent == p|,
                         |set id | id in rows' && rows'[id].archived && rows'[id].parent == p|;
      n' == if n < k then n else k
  {
    assert Archived(rows, p) == set id | id in rows && rows[id].archived && rows[id].parent == p;
    assert Archived(rows', p) == set id | id in rows' && rows'[id].archived && rows'[id].parent == p;
    assert RetainsOf(rows, rows', p, k);
    forall id, gone | id in rows' && gone in rows && gone !in rows' && rows[id].parent == rows[gone].parent
      ensures rows[gone].archived && (rows[id].archived ==> rows[gone].rank <= rows[id].rank)
    {
      assert RetainsOf(rows, rows', rows[id].parent, k);
      assert rows[id].archived ==> id in Archived(rows', rows[id].parent);
      assert gone in Archived(rows, rows[id].parent) && gone !in Archived(rows', rows[id].parent);
    }
  }

  /** A file goes exactly when a row that goes points to it. */
  lemma FilesGone(rows: Table, rows': Table, files: set<FileId>, files': set<FileId>, f: FileId)
    requires files' == files - FilesOf(rows, rows.Keys - rows'.Keys)
    ensures f in files' <==> f in files && forall id :: id in rows && id !in rows' ==> f !in rows[id].files
  {
  }

  lemma {:induction false} NewestExists(rows: Table, ids: set<Id>)
    requires ids <= rows.Keys && ids != {}
    ensures exists x :: x in ids && forall y :: y in ids ==> rows[y].rank <= rows[x].rank
    decreases |ids|
  {
    var z :| z in ids;
    if ids != {z} {
      NewestExists(rows, ids - {z});
      var x :| x in ids - {z} && forall y :: y in ids - {z} ==> rows[y].rank <= rows[x].rank;
      assert forall y :: y in ids ==> y in ids - {z} || y == z;
      if rows[x].rank < rows[z].rank {
        assert z in ids && forall y :: y in ids ==> rows[y].rank <= rows[z].rank;
      }
    }
  }

  /** There is such a version, as soon as there is any. */
  lemma SomeLatest(rows: Table, p: Parent)
    requires Unarchived(rows, p) != {}
    ensures exists x :: x in Unarchived(rows, p) && IsLatest(rows, x)
  {
    NewestExists(rows, Unarchived(rows, p));
    var x :| x in Unarchived(rows, p) && forall y :: y in Unarchived(rows, p) ==> rows[y].rank <= rows[x].rank;
    assert IsLatest(rows, x);
  }

  /** After a prune each parent that had unarchived versions has one left, its latest: just
      one, when no two versions have the same rank.  Its archived versions are all there. */
  lemma OneIsLeft(rows: Table, rows': Table, p: Parent)
    requires Pruned(rows, rows')
    ensures Unarchived(rows', p) == {} <==> Unarchived(rows, p) == {}
    ensures Unarchived(rows, p) <= rows.Keys && Newest(rows, Unarchived(rows, p), Unarchived(rows', p))
    ensures forall x :: x in Unarchived(rows', p) ==> x in Unarchived(rows, p) && IsLatest(rows, x)
    ensures DistinctRanks(rows) ==> |Unarchived(rows', p)| == if Unarchived(rows, p) == {} then 0 else 1
    ensures Archived(rows', p) == Archived(rows, p)
  {
    PruneKeepsArchived(rows, rows', p);
    if Unarchived(rows, p) != {} {
      SomeLatest(rows, p);
      var x :| x in Unarchived(rows, p) && IsLatest(rows, x);
      assert x in Unarchived(rows', p);
      if DistinctRanks(rows) {
        PrunedToOne(rows, rows', x);
      }
    }
  }

  lemma Nested(rows: Table, all: set<Id>, kept: set<Id>, kept': set<Id>)
    requires DistinctRanks(rows) && all <= rows.Keys && Newest(rows, all, kept) && Newest(rows, all, kept')
    ensures kept <= kept' || kept' <= kept
  {
    if y :| y in kept' && y !in kept {
      forall x | x in kept ensures x in kept' {
        assert x != y && rows[y].rank <= rows[x].rank;
        assert rows[x].rank != rows[y].rank;
      }
    }
  }

  lemma SameSize(a: set<Id>, b: set<Id>)
    requires a <= b && |a| == |b|
    ensures a == b
  {
    assert b == a + (b - a);
  }

  /** When no two versions have the same rank, `Newest` and the number leave no choice. */
  lemma NewestIsUnique(rows: Table, all: set<Id>, kept: set<Id>, kept': set<Id>)
    requires DistinctRanks(rows) && all <= rows.Keys
    requires Newest(rows, all, kept) && Newest(rows, all, kept') && |kept| == |kept'|
    ensures kept == kept'
  {
    Nested(rows, all, kept, kept');
    if kept <= kept' {
      SameSize(kept, kept');
    } else {
      SameSize(kept', kept);
    }
  }
}
