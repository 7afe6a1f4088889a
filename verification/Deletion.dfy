/** Which records and which physical objects a deletion takes, and what is then read through the records
    that stay: models/file.go, pkg/filesystem/file.go, pkg/filesystem/manage.go. */
module Deletion {
  import opened Tables
  import opened FolderTree
  import opened TreeCopy
  import opened TreeMove
  import opened Accounts
  import opened Objects

  // ---- which objects a deletion removes ----

  function KeysOf(rows: seq<Row>): set<Key> {
    set r | r in rows :: KeyOf(r.file)
  }

  /** The keys among these rows that another record shares. */
  function Linked(g: Files, rows: seq<Row>): set<Key> {
    set r | r in rows && Shared(g, r.id, KeyOf(r.file)) :: KeyOf(r.file)
  }

  function Without(rows: seq<Row>, keys: set<Key>): seq<Row> {
    if rows == [] then []
    else Without(rows[..|rows| - 1], keys) + (if KeyOf(rows[|rows| - 1].file) in keys then [] else [rows[|rows| - 1]])
  }

  lemma {:induction false} InWithout(rows: seq<Row>, keys: set<Key>, r: Row)
    ensures r in Without(rows, keys) <==> r in rows && KeyOf(r.file) !in keys
  {
    if rows != [] {
      InWithout(rows[..|rows| - 1], keys, r);
      assert rows == rows[..|rows| - 1] + [rows[|rows| - 1]];
    }
  }

  /** The rows are what the table holds. */
  ghost predicate FreshRows(g: Files, rows: seq<Row>) {
    forall r :: r in rows ==> r.id in g && g[r.id] == r.file
  }

  /** Removes from a list the files whose object another record shares. */
  method RemoveFilesWithSoftLinks(g: Files, rows: seq<Row>) returns (kept: seq<Row>)
    ensures kept == Without(rows, Linked(g, rows))
    ensures FreshRows(g, rows) ==> forall r :: r in kept <==> r in rows && !Shared(g, r.id, KeyOf(r.file))
  {
    kept := [];
    if rows == [] {
      return;
    }
    var links: seq<Key> := [];
    for i := 0 to |rows|
      invariant forall k :: k in links <==> k in Linked(g, rows[..i])
    {
      LinkedFront(g, rows, i);
      if Shared(g, rows[i].id, KeyOf(rows[i].file)) {
        links := links + [KeyOf(rows[i].file)];
      }
    }
    assert rows[..|rows|] == rows;
    if links == [] {
      assert Linked(g, rows) == {};
      WithoutNothing(rows);
      kept := rows;
    } else {
      for i := 0 to |rows|
        invariant kept == Without(rows[..i], Linked(g, rows))
      {
        assert rows[..i + 1][..i] == rows[..i];
        if KeyOf(rows[i].file) !in links {
          kept := kept + [rows[i]];
        }
      }
    }
    if FreshRows(g, rows) {
      KeptAreSole(g, rows);
    }
  }

  lemma LinkedFront(g: Files, rows: seq<Row>, i: nat)
    requires i < |rows|
    ensures Linked(g, rows[..i + 1]) == Linked(g, rows[..i])
              + (if Shared(g, rows[i].id, KeyOf(rows[i].file)) then {KeyOf(rows[i].file)} else {})
  {
    assert rows[..i + 1] == rows[..i] + [rows[i]];
  }

  lemma {:induction false} WithoutNothing(rows: seq<Row>)
    ensures Without(rows, {}) == rows
  {
    if rows != [] {
      WithoutNothing(rows[..|rows| - 1]);
    }
  }

  /** A file is kept exactly when no other record has its object: two records of one object that are
      deleted together are both dropped from the list. */
  lemma KeptAreSole(g: Files, rows: seq<Row>)
    requires FreshRows(g, rows)
    ensures forall r :: r in Without(rows, Linked(g, rows)) <==> r in rows && !Shared(g, r.id, KeyOf(r.file))
  {
    forall r
      ensures r in Without(rows, Linked(g, rows)) <==> r in rows && !Shared(g, r.id, KeyOf(r.file))
    {
      InWithout(rows, Linked(g, rows), r);
    }
  }

  function OfPolicy(rows: seq<Row>, policy: Id): seq<Row> {
    if rows == [] then []
    else OfPolicy(rows[..|rows| - 1], policy)
         + (if rows[|rows| - 1].file.policy == policy then [rows[|rows| - 1]] else [])
  }

  lemma {:induction false} InOfPolicy(rows: seq<Row>, policy: Id, r: Row)
    ensures r in OfPolicy(rows, policy) <==> r in rows && r.file.policy == policy
  {
    if rows != [] {
      InOfPolicy(rows[..|rows| - 1], policy, r);
      assert rows == rows[..|rows| - 1] + [rows[|rows| - 1]];
    }
  }

  /** The rows of each policy, in order. */
  ghost predicate Grouped(groups: map<Id, seq<Row>>, rows: seq<Row>) {
    forall p :: if p in groups then groups[p] == OfPolicy(rows, p) && groups[p] != [] else OfPolicy(rows, p) == []
  }

  method GroupFileByPolicy(rows: seq<Row>) returns (groups: map<Id, seq<Row>>)
    ensures Grouped(groups, rows)
  {
    groups := map[];
    for i := 0 to |rows|
      invariant Grouped(groups, rows[..i])
    {
      var r, p := rows[i], rows[i].file.policy;
      assert rows[..i + 1][..i] == rows[..i];
      if p in groups {
        groups := groups[p := groups[p] + [r]];
      } else {
        groups := groups[p := [r]];
      }
    }
    assert rows[..|rows|] == rows;
  }

  /** What the storage drivers will not delete this time: every object of a policy that has no working
      driver, and single objects. */
  datatype Outage = Outage(policies: set<Id>, keys: set<Key>) {
    predicate Hits(key: Key) {
      key.policy in policies || key in keys
    }
  }

  /** The objects a driver removes when asked for those of rows. */
  ghost function Removed(rows: seq<Row>, outage: Outage): set<Key> {
    set r | r in rows && !outage.Hits(KeyOf(r.file)) :: KeyOf(r.file)
  }

  /** The failures, by policy, are exactly the hit objects of rows. */
  ghost predicate Reported(failed: map<Id, seq<string>>, rows: seq<Row>, outage: Outage) {
    forall p, s :: p in failed && s in failed[p] <==> Key(p, s) in KeysOf(rows) && outage.Hits(Key(p, s))
  }

  lemma GroupHas(groups: map<Id, seq<Row>>, rows: seq<Row>, p: Id, r: Row)
    requires Grouped(groups, rows)
    ensures (p in groups && r in groups[p]) <==> r in rows && r.file.policy == p
  {
    InOfPolicy(rows, p, r);
  }

  ghost predicate Sources(names: seq<string>, group: seq<Row>) {
    forall n :: n in names <==> exists r :: r in group && r.file.source == n
  }

  /** The objects of one policy that are asked for. */
  lemma SourcesAreKeys(groups: map<Id, seq<Row>>, rows: seq<Row>, p: Id, names: seq<string>, n: string)
    requires Grouped(groups, rows) && p in groups && Sources(names, groups[p])
    ensures n in names <==> Key(p, n) in KeysOf(rows)
  {
    if n in names {
      var r :| r in groups[p] && r.file.source == n;
      GroupHas(groups, rows, p, r);
      assert KeyOf(r.file) in KeysOf(rows);
    }
    if Key(p, n) in KeysOf(rows) {
      var r :| r in rows && KeyOf(r.file) == Key(p, n);
      GroupHas(groups, rows, p, r);
    }
  }

  /** Removed, as far as the policies in done go. */
  ghost function RemovedIn(rows: seq<Row>, outage: Outage, done: set<Id>): set<Key> {
    set k | k in KeysOf(rows) && k.policy in done && !outage.Hits(k)
  }

  ghost predicate ReportedIn(failed: map<Id, seq<string>>, rows: seq<Row>, outage: Outage, done: set<Id>) {
    && failed.Keys == done
    && forall p, n :: p in done ==> (n in failed[p] <==> Key(p, n) in KeysOf(rows) && outage.Hits(Key(p, n)))
  }

  lemma PolicyDone(rows: seq<Row>, outage: Outage, done: set<Id>, p: Id, names: seq<string>,
                   failed: map<Id, seq<string>>, bad: seq<string>, o: Store)
    requires ReportedIn(failed, rows, outage, done) && p !in done
    requires forall n :: n in names <==> Key(p, n) in KeysOf(rows)
    requires forall n :: n in bad <==> n in names && outage.Hits(Key(p, n))
    ensures ReportedIn(failed[p := bad], rows, outage, done + {p})
    ensures var gone := set n | n in names && !outage.Hits(Key(p, n)) :: Key(p, n);
            o - RemovedIn(rows, outage, done) - gone == o - RemovedIn(rows, outage, done + {p})
  {
    var gone := set n | n in names && !outage.Hits(Key(p, n)) :: Key(p, n);
    forall k
      ensures k in RemovedIn(rows, outage, done + {p}) <==> k in RemovedIn(rows, outage, done) || k in gone
    {
      if k.policy == p && k in KeysOf(rows) && !outage.Hits(k) {
        assert k == Key(p, k.source) && k.source in names;
      }
    }
  }

  lemma AllDone(groups: map<Id, seq<Row>>, rows: seq<Row>, outage: Outage, failed: map<Id, seq<string>>)
    requires Grouped(groups, rows) && ReportedIn(failed, rows, outage, groups.Keys)
    ensures RemovedIn(rows, outage, groups.Keys) == Removed(rows, outage) && Reported(failed, rows, outage)
  {
    forall r | r in rows
      ensures r.file.policy in groups
    {
      InOfPolicy(rows, r.file.policy, r);
    }
  }

  // ---- what a deletion does ----

  /** AllDeleted and SomeKept have committed; Refused has rolled the records back. */
  datatype DeleteResult = AllDeleted | SomeKept | Refused

  function RowsOf(g: Files, ids: seq<Id>): (rows: seq<Row>)
    requires forall i :: i in ids ==> i in g
  {
    seq(|ids|, n requires 0 <= n < |ids| => Row(ids[n], g[ids[n]]))
  }

  lemma RowsAreFresh(g: Files, ids: seq<Id>)
    requires (forall i :: i in ids ==> i in g) && Distinct(ids)
    ensures FreshRows(g, RowsOf(g, ids)) && IdsOf(RowsOf(g, ids)) == SetOf(ids) && DistinctRows(RowsOf(g, ids))
  {
    forall i | i in ids
      ensures i in IdsOf(RowsOf(g, ids))
    {
      var n :| 0 <= n < |ids| && ids[n] == i;
      assert RowsOf(g, ids)[n].id == i;
    }
  }

  ghost function InFolders(g: Files, folders: seq<Id>): set<Id> {
    set i | i in g && g[i].folder in folders
  }

  /** The files named, of the user; of anybody for user 0. */
  ghost function Named(g: Files, ids: seq<Id>, uid: Id): set<Id> {
    set i | i in g && i in ids && (uid > 0 ==> g[i].user == uid)
  }

  /** One list of rows after another: the files in the folders, then those named. */
  ghost predicate Targets(g: Files, rows: seq<Row>, folders: seq<Id>, ids: seq<Id>, uid: Id) {
    FreshRows(g, rows) && exists n :: 0 <= n <= |rows| && Parts(g, rows, n, folders, ids, uid)
  }

  ghost predicate Parts(g: Files, rows: seq<Row>, n: nat, folders: seq<Id>, ids: seq<Id>, uid: Id)
    requires n <= |rows|
  {
    && IdsOf(rows[..n]) == InFolders(g, folders) && DistinctRows(rows[..n])
    && IdsOf(rows[n..]) == Named(g, ids, uid) && DistinctRows(rows[n..])
  }

  lemma TargetIds(g: Files, rows: seq<Row>, folders: seq<Id>, ids: seq<Id>, uid: Id)
    requires Targets(g, rows, folders, ids, uid)
    ensures IdsOf(rows) == InFolders(g, folders) + Named(g, ids, uid)
  {
    var n :| 0 <= n <= |rows| && Parts(g, rows, n, folders, ids, uid);
    IdsOfBoth(rows[..n], rows[n..]);
    assert rows == rows[..n] + rows[n..];
  }

  lemma TargetsOfBoth(g: Files, a: seq<Row>, b: seq<Row>, folders: seq<Id>, ids: seq<Id>, uid: Id)
    requires FreshRows(g, a) && IdsOf(a) == InFolders(g, folders) && DistinctRows(a)
    requires FreshRows(g, b) && IdsOf(b) == Named(g, ids, uid) && DistinctRows(b)
    ensures Targets(g, a + b, folders, ids, uid)
  {
    assert (a + b)[..|a|] == a && (a + b)[|a|..] == b;
    assert Parts(g, a + b, |a|, folders, ids, uid);
  }

  /** The objects to remove: those of targets that no other record shares. */
  ghost function Sole(g: Files, rows: seq<Row>): set<Key> {
    set r | r in rows && !Shared(g, r.id, KeyOf(r.file)) :: KeyOf(r.file)
  }

  /** The objects that go, and those that were to go and stay. */
  ghost function Going(g: Files, rows: seq<Row>, unlink: bool, outage: Outage): set<Key> {
    set k | k in Sole(g, rows) && !unlink && !outage.Hits(k)
  }

  ghost function Staying(g: Files, rows: seq<Row>, unlink: bool, outage: Outage): set<Key> {
    set k | k in Sole(g, rows) && !unlink && outage.Hits(k)
  }

  /** The records to delete. */
  ghost function Dropped(g: Files, rows: seq<Row>, force: bool, unlink: bool, outage: Outage): seq<Row> {
    if force then rows else Without(rows, Staying(g, rows, unlink, outage))
  }

  /** No record that stays reads an object that goes: a deletion that commits is a deletion of the
      contents of the deleted records alone. */
  lemma CommitIsDeep(g: Files, o: Store, rows: seq<Row>, force: bool, unlink: bool, outage: Outage)
    requires FreshRows(g, rows)
    ensures var ids := IdsOf(Dropped(g, rows, force, unlink, outage));
            View(g - ids, o - Going(g, rows, unlink, outage)) == View(g, o) - ids
  {
    var dropped, going := Dropped(g, rows, force, unlink, outage), Going(g, rows, unlink, outage);
    var ids := IdsOf(dropped);
    forall i | i in g && i !in ids
      ensures KeyOf(g[i]) !in going
    {
      if KeyOf(g[i]) in going {
        var r :| r in rows && !Shared(g, r.id, KeyOf(r.file)) && KeyOf(r.file) == KeyOf(g[i]);
        assert r.id == i;
        InWithout(rows, Staying(g, rows, unlink, outage), r);
        assert false;
      }
    }
    DeleteIsDeepIff(g, o, ids, going);
  }

  /** A deletion that rolls back has removed the objects all the same: it is without effect exactly
      when there was no object to remove. */
  lemma RollbackIsNothingIff(g: Files, o: Store, rows: seq<Row>, unlink: bool, outage: Outage)
    requires FreshRows(g, rows)
    ensures View(g, o - Going(g, rows, unlink, outage)) == View(g, o) <==> Going(g, rows, unlink, outage) !! o.Keys
  {
    var going := Going(g, rows, unlink, outage);
    assert g - {} == g && View(g, o) - {} == View(g, o);
    DeleteIsDeepIff(g, o, {}, going);
    if k :| k in going && k in o {
      var r :| r in rows && KeyOf(r.file) == k;
      assert KeyOf(g[r.id]) in going;
    }
  }

  lemma {:induction false} WithoutBoth(a: seq<Row>, b: seq<Row>, keys: set<Key>)
    ensures Without(a + b, keys) == Without(a, keys) + Without(b, keys)
  {
    if b == [] {
      assert a + b == a;
    } else {
      var n := |b| - 1;
      WithoutBoth(a, b[..n], keys);
      assert (a + b)[..|a + b| - 1] == a + b[..n];
    }
  }

  lemma {:induction false} WithoutDistinct(rows: seq<Row>, keys: set<Key>)
    requires DistinctRows(rows)
    ensures DistinctRows(Without(rows, keys))
  {
    if rows != [] {
      var front, r := rows[..|rows| - 1], rows[|rows| - 1];
      WithoutDistinct(front, keys);
      forall x | x in Without(front, keys)
        ensures x.id != r.id
      {
        InWithout(front, keys, x);
      }
    }
  }

  lemma WithoutIds(g: Files, rows: seq<Row>, keys: set<Key>)
    requires FreshRows(g, rows)
    ensures IdsOf(Without(rows, keys)) == set i | i in IdsOf(rows) && KeyOf(g[i]) !in keys
  {
    forall r {
      InWithout(rows, keys, r);
    }
    forall i | i in IdsOf(rows) && KeyOf(g[i]) !in keys
      ensures i in IdsOf(Without(rows, keys))
    {
      var r :| r in rows && r.id == i;
      assert r in Without(rows, keys);
    }
  }

  lemma BothDistinct(a: seq<Row>, b: seq<Row>)
    requires DistinctRows(a) && DistinctRows(b)
    ensures DistinctRows(a + b) <==> IdsOf(a) !! IdsOf(b)
  {
    if i :| i in IdsOf(a) && i in IdsOf(b) {
      var x := Position(a, i);
      var y := Position(b, i);
      assert (a + b)[x].id == (a + b)[|a| + y].id;
    }
    if IdsOf(a) !! IdsOf(b) {
      forall x, y | 0 <= x < |a| && 0 <= y < |b|
        ensures a[x].id != b[y].id
      {
        assert a[x] in a && b[y] in b;
        assert a[x].id in IdsOf(a) && b[y].id in IdsOf(b);
      }
    }
  }

  lemma Position(rows: seq<Row>, i: Id) returns (x: nat)
    requires i in IdsOf(rows)
    ensures x < |rows| && rows[x].id == i
  {
    var r :| r in rows && r.id == i;
    x :| x < |rows| && rows[x] == r;
  }

  /** The objects whose records stay because they could not be removed. */
  ghost function Excused(g: Files, rows: seq<Row>, force: bool, unlink: bool, outage: Outage): set<Key> {
    if force then {} else Staying(g, rows, unlink, outage)
  }

  /** The record goes: with force, or without touching objects, or if its object is shared or can be
      removed. */
  ghost predicate Goes(g: Files, i: Id, force: bool, unlink: bool, outage: Outage)
    requires i in g
  {
    force || unlink || Shared(g, i, KeyOf(g[i])) || !outage.Hits(KeyOf(g[i]))
  }

  /** A file that is to go is named and also lies in one of the folders. */
  ghost predicate NamedTwice(g: Files, folders: seq<Id>, ids: seq<Id>, uid: Id, force: bool, unlink: bool,
                             outage: Outage) {
    exists i :: i in Named(g, ids, uid) && g[i].folder in folders && Goes(g, i, force, unlink, outage)
  }

  lemma GoesIff(g: Files, rows: seq<Row>, i: Id, force: bool, unlink: bool, outage: Outage)
    requires FreshRows(g, rows) && i in IdsOf(rows) && i in g
    ensures Goes(g, i, force, unlink, outage) <==> KeyOf(g[i]) !in Excused(g, rows, force, unlink, outage)
  {
    var r :| r in rows && r.id == i;
    assert !Shared(g, r.id, KeyOf(r.file)) ==> KeyOf(r.file) in Sole(g, rows);
    if s :| s in rows && !Shared(g, s.id, KeyOf(s.file)) && KeyOf(s.file) == KeyOf(g[i]) {
      assert s.id == i;
    }
  }

  lemma ListedAreOwned(f: Folders, dirs: set<Id>, uid: Id, levels: seq<seq<Id>>)
    requires Listing(f, dirs, uid, levels) && forall x :: x in Flatten(levels) ==> x in f
    ensures forall x :: x in WithoutRoot(f, Flatten(levels)) ==> x in f && f[x].owner == uid
  {
    ListingParentsFirst(f, dirs, uid, levels);
    forall x {
      WithoutRootKeeps(f, Flatten(levels), x);
    }
  }

  /** Where every file is its folder's owner's, the records of a deletion are refused exactly when a file
      that is to go is named and also lies in one of the folders. */
  lemma RefusedIff(f: Folders, g: Files, rows: seq<Row>, folders: seq<Id>, ids: seq<Id>, uid: Id, force: bool,
                   unlink: bool, outage: Outage)
    requires Targets(g, rows, folders, ids, uid) && Placed(f, g)
    requires forall x :: x in folders ==> x in f && f[x].owner == uid
    ensures !Deletable(g, Dropped(g, rows, force, unlink, outage), uid)
            <==> NamedTwice(g, folders, ids, uid, force, unlink, outage)
  {
    var keys := Excused(g, rows, force, unlink, outage);
    WithoutNothing(rows);
    assert Dropped(g, rows, force, unlink, outage) == Without(rows, keys);
    TargetIds(g, rows, folders, ids, uid);
    forall r | r in Without(rows, keys)
      ensures r in rows && (uid > 0 ==> r.file.user == uid)
    {
      InWithout(rows, keys, r);
      assert r.id in IdsOf(rows);
    }
    OnceEachIff(g, rows, folders, ids, uid, keys);
    forall i | i in Named(g, ids, uid)
      ensures Goes(g, i, force, unlink, outage) <==> KeyOf(g[i]) !in keys
    {
      GoesIff(g, rows, i, force, unlink, outage);
    }
  }

  lemma OnceEachIff(g: Files, rows: seq<Row>, folders: seq<Id>, ids: seq<Id>, uid: Id, keys: set<Key>)
    requires Targets(g, rows, folders, ids, uid)
    ensures !DistinctRows(Without(rows, keys))
            <==> exists i :: i in Named(g, ids, uid) && g[i].folder in folders && KeyOf(g[i]) !in keys
  {
    hide Without, IdsOf, DistinctRows;
    var n :| 0 <= n <= |rows| && Parts(g, rows, n, folders, ids, uid);
    var a, b := rows[..n], rows[n..];
    assert rows == a + b;
    WithoutBoth(a, b, keys);
    WithoutDistinct(a, keys);
    WithoutDistinct(b, keys);
    WithoutIds(g, a, keys);
    WithoutIds(g, b, keys);
    BothDistinct(Without(a, keys), Without(b, keys));
    forall i
      ensures i in IdsOf(Without(a, keys)) && i in IdsOf(Without(b, keys))
              <==> i in Named(g, ids, uid) && g[i].folder in folders && KeyOf(g[i]) !in keys
    {
    }
  }

  /** With every driver working, an object is left behind without any record exactly when all of its
      records are deleted together and there are two of them at least. */
  lemma LeftBehindIff(g: Files, o: Store, rows: seq<Row>, key: Key)
    requires FreshRows(g, rows) && key in o
    ensures var none := Outage({}, {});
            (key in o - Going(g, rows, false, none) && (exists i :: i in g && KeyOf(g[i]) == key)
              && forall i :: i in g - IdsOf(rows) ==> KeyOf(g[i]) != key)
            <==>
            (forall i :: i in g && KeyOf(g[i]) == key ==> i in IdsOf(rows))
              && exists i, j :: i in g && j in g && i != j && KeyOf(g[i]) == key && KeyOf(g[j]) == key
  {
    var none := Outage({}, {});
    if key !in Going(g, rows, false, none) {
      forall i | i in g && KeyOf(g[i]) == key && i in IdsOf(rows)
        ensures Shared(g, i, key)
      {
        var r :| r in rows && r.id == i;
        assert !Shared(g, r.id, KeyOf(r.file)) ==> KeyOf(r.file) in Sole(g, rows);
      }
    }
  }

  lemma NothingDone(rows: seq<Row>, outage: Outage, o: Store)
    ensures ReportedIn(map[], rows, outage, {}) && o - RemovedIn(rows, outage, {}) == o
  {
  }

  lemma IdsOfBoth(a: seq<Row>, b: seq<Row>)
    ensures IdsOf(a + b) == IdsOf(a) + IdsOf(b)
  {
  }

  lemma TargetsFresh(g: Files, rows: seq<Row>, folders: seq<Id>, ids: seq<Id>, uid: Id)
    requires Targets(g, rows, folders, ids, uid)
    ensures FreshRows(g, rows)
  {
  }

  lemma SoleKeys(g: Files, rows: seq<Row>, sole: seq<Row>, outage: Outage, failed: map<Id, seq<string>>)
    requires FreshRows(g, rows) && Reported(failed, sole, outage)
    requires forall r :: r in sole <==> r in rows && !Shared(g, r.id, KeyOf(r.file))
    ensures Removed(sole, outage) == Going(g, rows, false, outage)
    ensures forall p, n :: p in failed && n in failed[p] <==> Key(p, n) in Staying(g, rows, false, outage)
  {
    assert KeysOf(sole) == Sole(g, rows);
    assert forall k :: k in Removed(sole, outage) <==> k in KeysOf(sole) && !outage.Hits(k);
  }

  lemma {:induction false} WithoutIsPart(rows: seq<Row>, keys: set<Key>)
    ensures |Without(rows, keys)| <= |rows| && (|Without(rows, keys)| == |rows| ==> Without(rows, keys) == rows)
  {
    if rows != [] {
      WithoutIsPart(rows[..|rows| - 1], keys);
    }
  }

  /** A deletion loses no folder and no file outside the deleted folders, if none is deeper below the
      start than the listing goes. */
  lemma DeletionTidy(f: Folders, g: Files, dirs: set<Id>, uid: Id, levels: seq<seq<Id>>, folders: seq<Id>,
                     ids: seq<Id>, targets: seq<Row>, force: bool, unlink: bool, outage: Outage)
    requires Tidy(f, g) && Listing(f, dirs, uid, levels) && Level(f, dirs, uid, MAX_ROUNDS + 1) == {}
    requires (forall x :: x in Flatten(levels) ==> x in f) && folders == WithoutRoot(f, Flatten(levels))
    requires Targets(g, targets, folders, ids, uid)
    ensures var dropped := Dropped(g, targets, force, unlink, outage);
            Tidy(if |dropped| == |targets| then f - SetOf(folders) else f, g - IdsOf(dropped))
  {
    hide Forest, Listing, Level;
    var dropped := Dropped(g, targets, force, unlink, outage);
    WithoutIsPart(targets, Staying(g, targets, unlink, outage));
    if |dropped| == |targets| {
      TargetIds(g, targets, folders, ids, uid);
      DeleteKeepsTidy(f, g, dirs, uid, levels, SetOf(folders), IdsOf(targets));
    }
  }

  lemma DroppedCharged(g: Files, targets: seq<Row>, uid: Id, force: bool, unlink: bool, outage: Outage)
    requires FreshRows(g, targets) && uid > 0 && Deletable(g, Dropped(g, targets, force, unlink, outage), uid)
    ensures var dropped := Dropped(g, targets, force, unlink, outage);
            Charged(g, g - IdsOf(dropped), uid, 0 - SizeOf(dropped))
  {
    var dropped := Dropped(g, targets, force, unlink, outage);
    forall r | r in dropped
      ensures g[r.id].user == uid
    {
      InWithout(targets, Staying(g, targets, unlink, outage), r);
      assert r in targets && g[r.id] == r.file;
    }
    forall u {
      RemovedTotals(g, dropped, uid, u);
    }
  }

  lemma DeletionLaw(storage: Storage, g: Files, targets: seq<Row>, uid: Id, force: bool, unlink: bool, outage: Outage)
    requires Calibrated(storage, g) && FreshRows(g, targets) && uid > 0
    ensures var dropped := Dropped(g, targets, force, unlink, outage);
            Deletable(g, dropped, uid) ==> Calibrated(Change(storage, uid, 0 - SizeOf(dropped)), g - IdsOf(dropped))
  {
    var dropped := Dropped(g, targets, force, unlink, outage);
    if Deletable(g, dropped, uid) {
      forall r | r in dropped
        ensures g[r.id].user == uid
      {
        InWithout(targets, Staying(g, targets, unlink, outage), r);
        assert r in targets && g[r.id] == r.file;
      }
      DeleteKeepsLaw(storage, g, dropped, uid);
    }
  }

  /** The files are of unknown users or empty. */
  ghost predicate GivesNothingBack(storage: Storage, rows: seq<Row>) {
    forall r :: r in rows && r.file.user in storage ==> r.file.size == 0
  }

  lemma DroppedUnbilled(storage: Storage, g: Files, targets: seq<Row>, folders: seq<Id>, ids: seq<Id>, force: bool,
                        unlink: bool, outage: Outage)
    requires Calibrated(storage, g) && Targets(g, targets, folders, ids, 0)
    requires Deletable(g, Dropped(g, targets, force, unlink, outage), 0)
    ensures var dropped := Dropped(g, targets, force, unlink, outage);
            Calibrated(storage, g - IdsOf(dropped)) <==> GivesNothingBack(storage, dropped)
  {
    hide Calibrated, IdsOf;
    var dropped := Dropped(g, targets, force, unlink, outage);
    forall r | r in dropped
      ensures g[r.id] == r.file
    {
      InWithout(targets, Staying(g, targets, unlink, outage), r);
    }
    UnbilledKeepsLawIff(storage, g, dropped);
  }

  /** The end of a deletion: the records to drop can all go and have gone, with the folders if nothing
      stays, or else nothing has changed. */
  ghost predicate Ended(result: DeleteResult, f0: Folders, g0: Files, s0: Storage, f1: Folders, g1: Files,
                        s1: Storage, dropped: seq<Row>, targets: seq<Row>, folders: seq<Id>, uid: Id) {
    if !Deletable(g0, dropped, uid) then result == Refused && f1 == f0 && g1 == g0 && s1 == s0
    else
      && g1 == g0 - IdsOf(dropped)
      && s1 == (if uid > 0 then Change(s0, uid, 0 - SizeOf(dropped)) else s0)
      && f1 == (if |dropped| == |targets| then f0 - SetOf(folders) else f0)
      && result == (if |dropped| == |targets| then AllDeleted else SomeKept)
  }

  /** A deletion that commits is one of the contents of its records alone, gives back the storage of its
      files, and loses no folder and no file. */
  lemma EndedWell(result: DeleteResult, f0: Folders, g0: Files, s0: Storage, f1: Folders, g1: Files, s1: Storage,
                  o: Store, dirs: set<Id>, uid: Id, levels: seq<seq<Id>>, folders: seq<Id>, ids: seq<Id>,
                  targets: seq<Row>, force: bool, unlink: bool, outage: Outage)
    requires Ended(result, f0, g0, s0, f1, g1, s1, Dropped(g0, targets, force, unlink, outage), targets, folders, uid)
    requires Listing(f0, dirs, uid, levels) && (forall x :: x in Flatten(levels) ==> x in f0)
    requires folders == WithoutRoot(f0, Flatten(levels))
    requires Targets(g0, targets, folders, ids, uid)
    ensures result != Refused ==>
            View(g1, o - Going(g0, targets, unlink, outage))
              == View(g0, o) - IdsOf(Dropped(g0, targets, force, unlink, outage))
    ensures Calibrated(s0, g0) && uid > 0 ==> Calibrated(s1, g1)
    ensures Calibrated(s0, g0) && uid == 0 && result != Refused ==>
            (Calibrated(s1, g1) <==> GivesNothingBack(s0, Dropped(g0, targets, force, unlink, outage)))
    ensures Tidy(f0, g0) && Level(f0, dirs, uid, MAX_ROUNDS + 1) == {} ==> Tidy(f1, g1)
    ensures OneRoot(f0, uid) ==> SameRoots(f0, f1)
    ensures WellNamed(f0) ==> WellNamed(f1)
    ensures uid > 0 && result != Refused
            ==> Charged(g0, g1, uid, 0 - SizeOf(Dropped(g0, targets, force, unlink, outage)))
    ensures Placed(f0, g0) ==> (result == Refused <==> NamedTwice(g0, folders, ids, uid, force, unlink, outage))
  {
    if Placed(f0, g0) {
      ListedAreOwned(f0, dirs, uid, levels);
      RefusedIff(f0, g0, targets, folders, ids, uid, force, unlink, outage);
    }
    if OneRoot(f0, uid) {
      RootStays(f0, dirs, uid, levels);
    }
    if uid > 0 && result != Refused {
      DroppedCharged(g0, targets, uid, force, unlink, outage);
    }
    if uid == 0 && result != Refused && Calibrated(s0, g0) {
      DroppedUnbilled(s0, g0, targets, folders, ids, force, unlink, outage);
    }
    FolderEnds(result, f0, g0, s0, f1, g1, s1, dirs, uid, levels, folders, ids, targets, force, unlink, outage, o);
  }

  lemma FolderEnds(result: DeleteResult, f0: Folders, g0: Files, s0: Storage, f1: Folders, g1: Files, s1: Storage,
                   dirs: set<Id>, uid: Id, levels: seq<seq<Id>>, folders: seq<Id>, ids: seq<Id>, targets: seq<Row>,
                   force: bool, unlink: bool, outage: Outage, o: Store)
    requires Ended(result, f0, g0, s0, f1, g1, s1, Dropped(g0, targets, force, unlink, outage), targets, folders, uid)
    requires Listing(f0, dirs, uid, levels) && (forall x :: x in Flatten(levels) ==> x in f0)
    requires folders == WithoutRoot(f0, Flatten(levels))
    requires Targets(g0, targets, folders, ids, uid)
    ensures result != Refused ==>
            View(g1, o - Going(g0, targets, unlink, outage))
              == View(g0, o) - IdsOf(Dropped(g0, targets, force, unlink, outage))
    ensures Calibrated(s0, g0) && uid > 0 ==> Calibrated(s1, g1)
    ensures Tidy(f0, g0) && Level(f0, dirs, uid, MAX_ROUNDS + 1) == {} ==> Tidy(f1, g1)
  {
    hide View, Calibrated, Tidy, Listing, Level, Flatten, WithoutRoot, Dropped, Deletable, Going, SizeOf, IdsOf;
    CommitIsDeep(g0, o, targets, force, unlink, outage);
    if Calibrated(s0, g0) && uid > 0 {
      DeletionLaw(s0, g0, targets, uid, force, unlink, outage);
    }
    if Tidy(f0, g0) && Level(f0, dirs, uid, MAX_ROUNDS + 1) == {} {
      DeletionTidy(f0, g0, dirs, uid, levels, folders, ids, targets, force, unlink, outage);
    }
  }
}
