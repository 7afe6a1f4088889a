/** Storage accounting: a user's storage is the sum of the sizes of the user's files: models/file.go,
    models/user.go, models/scripts/storage.go. */
module Accounts {
  import opened Tables
  import opened TreeCopy

  type Storage = map<Id, int>

  /** A file record as a caller read it: the table may have changed since. */
  datatype Row = Row(id: Id, file: File)

  /** The law of accounting. */
  ghost predicate Calibrated(storage: Storage, g: Files) {
    forall u :: u in storage ==> storage[u] == Total(g, u)
  }

  /** An update of a row that is not there changes nothing. */
  function Change(storage: Storage, u: Id, delta: int): Storage {
    if u in storage then storage[u := storage[u] + delta] else storage
  }

  lemma ChargeKeepsLaw(storage: Storage, g: Files, h: Files, owner: Id, size: int)
    requires Calibrated(storage, g) && Charged(g, h, owner, size)
    ensures Calibrated(Change(storage, owner, size), h)
  {
  }

  /** Charging anything but what was added breaks the law. */
  lemma ChargeKeepsLawIff(storage: Storage, g: Files, h: Files, owner: Id, size: int, charge: int)
    requires Calibrated(storage, g) && Charged(g, h, owner, size) && owner in storage
    ensures Calibrated(Change(storage, owner, charge), h) <==> charge == size
    ensures Change(storage, owner, 0) == storage
  {
    if charge == size {
      ChargeKeepsLaw(storage, g, h, owner, size);
    } else {
      assert Change(storage, owner, charge)[owner] != Total(h, owner);
    }
  }

  // ---- deleting ----

  function SizeOf(rows: seq<Row>): nat {
    if rows == [] then 0 else SizeOf(rows[..|rows| - 1]) + rows[|rows| - 1].file.size
  }

  function IdsOf(rows: seq<Row>): set<Id> {
    set r | r in rows :: r.id
  }

  /** The rows can be deleted together: all are the user's, none is listed twice, and each is still in
      the table with the size it was read with. */
  ghost predicate Deletable(g: Files, rows: seq<Row>, uid: Id) {
    && (forall r :: r in rows ==> (uid > 0 ==> r.file.user == uid) && r.id in g && g[r.id].size == r.file.size)
    && DistinctRows(rows)
  }

  ghost predicate DistinctRows(rows: seq<Row>) {
    forall i, j :: 0 <= i < j < |rows| ==> rows[i].id != rows[j].id
  }

  lemma DeletableFront(g: Files, rows: seq<Row>, uid: Id, n: nat)
    requires n < |rows| && Deletable(g, rows[..n], uid)
    ensures var r := rows[n];
            Deletable(g, rows[..n + 1], uid) <==>
            (uid > 0 ==> r.file.user == uid) && r.id in g - IdsOf(rows[..n]) && g[r.id].size == r.file.size
    ensures IdsOf(rows[..n + 1]) == IdsOf(rows[..n]) + {rows[n].id}
    ensures SizeOf(rows[..n + 1]) == SizeOf(rows[..n]) + rows[n].file.size
    ensures Deletable(g, rows, uid) ==> Deletable(g, rows[..n + 1], uid)
  {
    var a, b := rows[..n], rows[..n + 1];
    assert b == a + [rows[n]] && b[..n] == a;
    if Deletable(g, b, uid) {
      assert rows[n] in b;
      forall i | 0 <= i < n
        ensures a[i].id != rows[n].id
      {
        assert b[i] == a[i] && b[n] == rows[n];
      }
    }
    if Deletable(g, rows, uid) {
      assert forall r :: r in b ==> r in rows;
    }
  }

  lemma {:induction false} RemovedTotals(g: Files, rows: seq<Row>, uid: Id, u: Id)
    requires Deletable(g, rows, uid) && forall r :: r in rows ==> g[r.id].user == uid
    ensures Total(g - IdsOf(rows), u) == Total(g, u) - (if u == uid then SizeOf(rows) else 0)
  {
    if rows == [] {
      assert g - IdsOf(rows) == g;
    } else {
      var n := |rows| - 1;
      var r := rows[n];
      assert rows[..n + 1] == rows;
      assert forall x :: x in rows[..n] ==> x in rows;
      RemovedTotals(g, rows[..n], uid, u);
      DeletableFront(g, rows, uid, n);
      TotalRemove(g - IdsOf(rows[..n]), r.id, u);
      assert r in rows;
      assert g - IdsOf(rows[..n]) - {r.id} == g - IdsOf(rows);
    }
  }

  /** Deleting keeps the law, so the storage that is given back was there. */
  lemma DeleteKeepsLaw(storage: Storage, g: Files, rows: seq<Row>, uid: Id)
    requires Calibrated(storage, g) && Deletable(g, rows, uid) && forall r :: r in rows ==> g[r.id].user == uid
    ensures Calibrated(Change(storage, uid, 0 - SizeOf(rows)), g - IdsOf(rows))
    ensures uid in storage ==> SizeOf(rows) <= storage[uid]
  {
    forall u {
      RemovedTotals(g, rows, uid, u);
    }
  }

  ghost predicate NoBytes(rows: seq<Row>, u: Id) {
    forall r :: r in rows && r.file.user == u ==> r.file.size == 0
  }

  lemma NoBytesFront(rows: seq<Row>, u: Id, n: nat)
    requires n < |rows|
    ensures NoBytes(rows[..n + 1], u) <==> NoBytes(rows[..n], u) && (rows[n].file.user == u ==> rows[n].file.size == 0)
  {
    assert rows[..n + 1] == rows[..n] + [rows[n]];
  }

  /** One row more to delete. */
  lemma OneMoreGone(g: Files, rows: seq<Row>, n: nat)
    requires n < |rows| && Deletable(g, rows, 0)
    ensures rows[n].id in g - IdsOf(rows[..n]) && (g - IdsOf(rows[..n]))[rows[n].id] == g[rows[n].id]
    ensures g - IdsOf(rows[..n]) - {rows[n].id} == g - IdsOf(rows[..n + 1])
  {
    assert rows[n] in rows && rows[..n + 1] == rows[..n] + [rows[n]];
    forall r | r in rows[..n]
      ensures r.id != rows[n].id
    {
      var i :| 0 <= i < n && rows[i] == r;
    }
    assert IdsOf(rows[..n + 1]) == IdsOf(rows[..n]) + {rows[n].id};
  }

  lemma OneLess(h: Files, id: Id, u: Id)
    requires id in h
    ensures Total(h - {id}, u) <= Total(h, u)
    ensures Total(h - {id}, u) == Total(h, u) <==> (h[id].user == u ==> h[id].size == 0)
  {
    TotalRemove(h, id, u);
  }

  lemma {:induction false} UnbilledTotals(g: Files, rows: seq<Row>, u: Id, n: nat)
    requires Deletable(g, rows, 0) && n <= |rows| && forall r :: r in rows ==> r.id in g && g[r.id] == r.file
    ensures Total(g - IdsOf(rows[..n]), u) <= Total(g, u)
    ensures Total(g - IdsOf(rows[..n]), u) == Total(g, u) <==> NoBytes(rows[..n], u)
    decreases n
  {
    if n == 0 {
      assert g - IdsOf(rows[..0]) == g;
    } else {
      hide Total, NoBytes, Deletable, IdsOf;
      var r := rows[n - 1];
      OneMoreGone(g, rows, n - 1);
      UnbilledTotals(g, rows, u, n - 1);
      NoBytesFront(rows, u, n - 1);
      OneLess(g - IdsOf(rows[..n - 1]), r.id, u);
    }
  }

  /** A deletion in nobody's name gives no storage back: the law is kept exactly when there is none to give. */
  lemma UnbilledKeepsLawIff(storage: Storage, g: Files, rows: seq<Row>)
    requires Calibrated(storage, g) && Deletable(g, rows, 0)
    requires forall r :: r in rows ==> r.id in g && g[r.id] == r.file
    ensures Calibrated(storage, g - IdsOf(rows)) <==>
            forall r :: r in rows && r.file.user in storage ==> r.file.size == 0
  {
    hide Deletable, Total, IdsOf;
    assert rows[..|rows|] == rows;
    forall u {
      UnbilledTotals(g, rows, u, |rows|);
    }
    assert Calibrated(storage, g - IdsOf(rows)) <==> forall u :: u in storage ==> NoBytes(rows, u);
  }

  // ---- resizing ----

  /** The update of a size by a caller that holds this record: the row changes only when it still has
      the size the caller knows. */
  function Resized(g: Files, row: Row, value: nat): Files {
    if row.id in g && g[row.id].size == row.file.size then g[row.id := g[row.id].(size := value)] else g
  }

  /** Whether the row changed is not looked at before the storage is: the law is kept exactly when the
      caller's size is fresh, or nothing was to change. */
  lemma ResizeKeepsLawIff(storage: Storage, g: Files, row: Row, value: nat)
    requires Calibrated(storage, g) && row.file.user in storage
    requires row.id in g ==> g[row.id].user == row.file.user
    ensures Calibrated(Change(storage, row.file.user, value - row.file.size), Resized(g, row, value))
       <==> (row.id in g && g[row.id].size == row.file.size) || value == row.file.size
  {
    var s, h, owner := Change(storage, row.file.user, value - row.file.size), Resized(g, row, value), row.file.user;
    if row.id in g && g[row.id].size == row.file.size {
      forall u {
        TotalUpdate(g, row.id, g[row.id].(size := value), u);
      }
    } else if value != row.file.size {
      assert s[owner] != Total(h, owner);
    }
  }

  lemma CreateCharged(g: Files, id: Id, row: File)
    requires id !in g
    ensures Charged(g, g[id := row], row.user, row.size)
  {
    forall u {
      TotalAdd(g, id, row, u);
    }
  }

  lemma NothingDeleted(g: Files, rows: seq<Row>, uid: Id)
    ensures g - IdsOf(rows[..0]) == g && SizeOf(rows[..0]) == 0 && Deletable(g, rows[..0], uid)
  {
  }

  ghost function Part(g: Files, ids: set<Id>): Files {
    map i | i in g && i in ids :: g[i]
  }

  lemma ChargedTwice(g0: Files, g1: Files, g2: Files, owner: Id, a: int, b: int)
    requires Charged(g0, g1, owner, a) && Charged(g1, g2, owner, b)
    ensures Charged(g0, g2, owner, a + b)
  {
  }

  lemma NothingCharged(g: Files, owner: Id)
    ensures Charged(g, g, owner, 0)
  {
  }

  lemma WrittenCharged(g: Files, id: Id, source: string, size: nat)
    requires id in g
    ensures Charged(g, g[id := g[id].(source := source, size := size)], g[id].user, size - g[id].size)
  {
    forall u {
      TotalUpdate(g, id, g[id].(source := source, size := size), u);
    }
  }
}
