/** The folder and file tables as values: rows, unique indexes, the folder forest and the sums of
    file sizes. */
module Tables {
  import opened Wrappers

  type Id = nat

  /** The bytes of a physical object. */
  type Content = string

  datatype Folder = Folder(name: string, parent: Option<Id>, owner: Id)

  /** A file record points at the physical object (policy, source); a record with an upload session
      is the placeholder of an unfinished upload. */
  datatype File = File(name: string, source: string, user: Id, size: nat, folder: Id, policy: Id,
                       session: Option<string>)

  type Folders = map<Id, Folder>
  type Files = map<Id, File>

  // ---- unique indexes ----

  /** idx_only_one_name: no two folders under one parent have the same name. Roots, with a null
      parent, are exempt. */
  predicate UniqueFolders(f: Folders) {
    forall i, j :: i in f && j in f && i != j && f[i].parent.Some? && f[i].parent == f[j].parent ==>
      f[i].name != f[j].name
  }

  /** idx_only_one and session_only_one: no two files of one user in one folder have the same name, and no
      two placeholders have the same upload session. */
  predicate UniqueFiles(f: Files) {
    && (forall i, j :: i in f && j in f && i != j && f[i].folder == f[j].folder && f[i].user == f[j].user ==>
          f[i].name != f[j].name)
    && (forall i, j :: i in f && j in f && i != j && f[i].session.Some? ==> f[i].session != f[j].session)
  }

  ghost predicate FolderConflict(f: Folders, row: Folder) {
    row.parent.Some? && exists i :: i in f && f[i].parent == row.parent && f[i].name == row.name
  }

  ghost predicate FileConflict(f: Files, row: File) {
    || (exists i :: i in f && f[i].folder == row.folder && f[i].user == row.user && f[i].name == row.name)
    || (row.session.Some? && exists i :: i in f && f[i].session == row.session)
  }

  // ---- the forest ----

  /** The folder is n steps below a root. */
  ghost predicate AtDepth(f: Folders, id: Id, n: nat)
    decreases n
  {
    id in f && match f[id].parent
      case None => n == 0
      case Some(p) => n > 0 && AtDepth(f, p, n - 1)
  }

  /** Every folder hangs, through existing folders, from a root: no cycles and no orphans. */
  ghost predicate Forest(f: Folders) {
    forall id :: id in f ==> exists n :: AtDepth(f, id, n)
  }

  lemma {:induction false} DepthUnique(f: Folders, id: Id, n: nat, m: nat)
    requires AtDepth(f, id, n) && AtDepth(f, id, m)
    ensures n == m
    decreases n
  {
    if f[id].parent.Some? {
      DepthUnique(f, f[id].parent.value, n - 1, m - 1);
    }
  }

  /** The folders of uid that are k steps below one of dirs, through folders of uid. */
  ghost function Level(f: Folders, dirs: set<Id>, uid: Id, k: nat): set<Id> {
    if k == 0 then set id | id in f && f[id].owner == uid && id in dirs
    else Children(f, Level(f, dirs, uid, k - 1), uid)
  }

  function Children(f: Folders, parents: set<Id>, uid: Id): set<Id> {
    set id | id in f && f[id].owner == uid && f[id].parent.Some? && f[id].parent.value in parents
  }

  /** The folder itself and everything below it. */
  ghost predicate Below(f: Folders, uid: Id, top: Id, id: Id) {
    exists k :: id in Level(f, {top}, uid, k)
  }

  lemma {:induction false} LevelDepth(f: Folders, top: Id, uid: Id, k: nat, id: Id, d: nat)
    requires AtDepth(f, top, d) && id in Level(f, {top}, uid, k)
    ensures AtDepth(f, id, d + k)
  {
    if k > 0 {
      LevelDepth(f, top, uid, k - 1, f[id].parent.value, d);
    }
  }

  /** In a forest a folder is at one level only. */
  lemma LevelsDisjoint(f: Folders, top: Id, uid: Id, j: nat, k: nat)
    requires Forest(f) && j != k
    ensures Level(f, {top}, uid, j) !! Level(f, {top}, uid, k)
  {
    forall id | id in Level(f, {top}, uid, j)
      ensures id !in Level(f, {top}, uid, k)
    {
      if id in Level(f, {top}, uid, k) {
        TopExists(f, top, uid, j);
        var d: nat :| AtDepth(f, top, d);
        LevelDepth(f, top, uid, j, id, d);
        LevelDepth(f, top, uid, k, id, d);
        DepthUnique(f, id, d + j, d + k);
      }
    }
  }

  lemma {:induction false} TopExists(f: Folders, top: Id, uid: Id, k: nat)
    requires Level(f, {top}, uid, k) != {}
    ensures top in f && f[top].owner == uid
  {
    var id :| id in Level(f, {top}, uid, k);
    if k > 0 {
      assert f[id].parent.value in Level(f, {top}, uid, k - 1);
      TopExists(f, top, uid, k - 1);
    }
  }

  lemma {:induction false} LevelsStop(f: Folders, dirs: set<Id>, uid: Id, k: nat, m: nat)
    requires Level(f, dirs, uid, k) == {} && k <= m
    ensures Level(f, dirs, uid, m) == {}
  {
    if k < m {
      LevelsStop(f, dirs, uid, k, m - 1);
    }
  }

  /** The folder at the end of a path of these names from start, all of one owner. */
  ghost predicate Leads(f: Folders, start: Id, es: seq<string>, id: Id)
    decreases |es|
  {
    id in f
    && if es == [] then id == start
       else
         && f[id].parent.Some? && f[id].parent.value in f && f[id].name == es[|es| - 1]
         && f[f[id].parent.value].owner == f[id].owner && Leads(f, start, es[..|es| - 1], f[id].parent.value)
  }

  // ---- sums ----

  ghost function Sum(m: map<Id, nat>): nat
    decreases |m.Keys|
  {
    if m == map[] then 0
    else
      var k :| k in m;
      assert (m - {k}).Keys == m.Keys - {k};
      m[k] + Sum(m - {k})
  }

  lemma {:induction false} SumRemove(m: map<Id, nat>, k: Id)
    requires k in m
    ensures Sum(m) == m[k] + Sum(m - {k})
    decreases |m.Keys|
  {
    var c :| c in m && Sum(m) == m[c] + Sum(m - {c});
    if c != k {
      assert (m - {c}).Keys == m.Keys - {c} && (m - {k}).Keys == m.Keys - {k};
      SumRemove(m - {c}, k);
      SumRemove(m - {k}, c);
      assert (m - {c}) - {k} == (m - {k}) - {c};
    }
  }

  lemma SumAdd(m: map<Id, nat>, k: Id, v: nat)
    requires k !in m
    ensures Sum(m[k := v]) == Sum(m) + v
  {
    SumRemove(m[k := v], k);
    assert m[k := v] - {k} == m;
  }

  ghost function SizesOf(f: Files, u: Id): map<Id, nat> {
    map i | i in f && f[i].user == u :: f[i].size
  }

  /** The total size of a user's files. */
  ghost function Total(f: Files, u: Id): nat {
    Sum(SizesOf(f, u))
  }

  lemma TotalAdd(f: Files, id: Id, row: File, u: Id)
    requires id !in f
    ensures Total(f[id := row], u) == Total(f, u) + (if row.user == u then row.size else 0)
  {
    if row.user == u {
      SumAdd(SizesOf(f, u), id, row.size);
      assert SizesOf(f[id := row], u) == SizesOf(f, u)[id := row.size];
    } else {
      assert SizesOf(f[id := row], u) == SizesOf(f, u);
    }
  }

  lemma TotalRemove(f: Files, id: Id, u: Id)
    requires id in f
    ensures Total(f, u) == Total(f - {id}, u) + (if f[id].user == u then f[id].size else 0)
  {
    assert f == (f - {id})[id := f[id]];
    TotalAdd(f - {id}, id, f[id], u);
  }

  lemma TotalUpdate(f: Files, id: Id, row: File, u: Id)
    requires id in f && row.user == f[id].user
    ensures Total(f[id := row], u) == Total(f, u) + (if row.user == u then row.size - f[id].size else 0)
  {
    TotalRemove(f, id, u);
    TotalAdd(f - {id}, id, row, u);
    assert (f - {id})[id := row] == f[id := row];
  }
}
