/** What moving and deleting folders does to the forest: models/folder.go, pkg/filesystem/manage.go. */
module TreeMove {
  import Names
  import opened Tables
  import opened FolderTree
  import opened TreeCopy
  import opened Wrappers

  // ---- moving ----

  /** The rows an update of "id in (dirs) and owner_id = uid and parent_id = from" reaches. */
  function Reach(f: Folders, dirs: set<Id>, uid: Id, from: Id): set<Id> {
    set id | id in f && id in dirs && f[id].owner == uid && f[id].parent == Some(from)
  }

  function Moved(f: Folders, ids: set<Id>, t: Target): Folders {
    map id | id in f :: if id in ids then Folder(t.NameOf(f[id].name), Some(t.folder), f[id].owner) else f[id]
  }

  /** a is k steps above id, or is id itself. */
  ghost predicate Above(f: Folders, a: Id, id: Id, k: nat)
    decreases k
  {
    id in f && if k == 0 then a == id else f[id].parent.Some? && Above(f, a, f[id].parent.value, k - 1)
  }

  /** The target is one of these folders or lies below one. */
  ghost predicate Inside(f: Folders, id: Id, ids: set<Id>) {
    exists m, k: nat :: m in ids && Above(f, m, id, k)
  }

  lemma ChildInside(f: Folders, id: Id, ids: set<Id>)
    requires id in f && f[id].parent.Some? && Inside(f, f[id].parent.value, ids)
    ensures Inside(f, id, ids)
  {
    var m, k: nat :| m in ids && Above(f, m, f[id].parent.value, k);
    assert Above(f, m, id, k + 1);
  }

  lemma {:induction false} UpStays(f: Folders, ids: set<Id>, t: Target, id: Id, n: nat)
    requires AtDepth(f, id, n) && !Inside(f, id, ids)
    ensures AtDepth(Moved(f, ids, t), id, n)
    decreases n
  {
    assert id in ids ==> Above(f, id, id, 0);
    if n > 0 {
      var p := f[id].parent.value;
      if Inside(f, p, ids) {
        ChildInside(f, id, ids);
        assert false;
      }
      UpStays(f, ids, t, p, n - 1);
    }
  }

  lemma {:induction false} MovedHangs(f: Folders, ids: set<Id>, t: Target, n: nat, id: Id, m: nat) returns (d: nat)
    requires AtDepth(Moved(f, ids, t), t.folder, n) && AtDepth(f, id, m)
    ensures AtDepth(Moved(f, ids, t), id, d)
    decreases m
  {
    if id in ids {
      d := n + 1;
    } else if m == 0 {
      d := 0;
    } else {
      d := MovedHangs(f, ids, t, n, f[id].parent.value, m - 1);
      d := d + 1;
    }
  }

  /** Walking up from id after the move still meets a moved folder: the nearest one. */
  lemma {:induction false} NearestMoved(f: Folders, ids: set<Id>, t: Target, id: Id, m: Id, k: nat)
    returns (m': Id, k': nat)
    requires m in ids && Above(f, m, id, k)
    ensures m' in ids && m' in f && Above(Moved(f, ids, t), m', id, k')
    decreases k
  {
    if id in ids {
      m', k' := id, 0;
    } else {
      m', k' := NearestMoved(f, ids, t, f[id].parent.value, m, k - 1);
      k' := k' + 1;
    }
  }

  lemma {:induction false} DepthAbove(f: Folders, a: Id, id: Id, k: nat, n: nat)
    requires Above(f, a, id, k) && AtDepth(f, id, n)
    ensures k <= n && AtDepth(f, a, n - k)
    decreases k
  {
    if k > 0 {
      DepthAbove(f, a, f[id].parent.value, k - 1, n - 1);
    }
  }

  /** A move keeps the forest exactly when the target is not inside a moved folder. */
  lemma MoveKeepsForestIff(f: Folders, ids: set<Id>, t: Target)
    requires Forest(f) && t.folder in f && ids <= f.Keys
    ensures Forest(Moved(f, ids, t)) <==> !Inside(f, t.folder, ids)
  {
    var g := Moved(f, ids, t);
    if Inside(f, t.folder, ids) {
      var m, k: nat :| m in ids && Above(f, m, t.folder, k);
      var m', k' := NearestMoved(f, ids, t, t.folder, m, k);
      if Forest(g) {
        var n: nat :| AtDepth(g, t.folder, n);
        DepthAbove(g, m', t.folder, k', n);
        DepthUnique(g, t.folder, n, n - k' - 1);
        assert false;
      }
    } else {
      var n: nat :| AtDepth(f, t.folder, n);
      UpStays(f, ids, t, t.folder, n);
      forall id | id in g
        ensures exists d :: AtDepth(g, id, d)
      {
        var m: nat :| AtDepth(f, id, m);
        var d := MovedHangs(f, ids, t, n, id, m);
      }
    }
  }

  /** The one case the guard of MoveFolderTo rejects: the target is itself in the list. */
  ghost predicate Guarded(dirs: set<Id>, uid: Id, t: Target) {
    uid == t.owner && t.folder in dirs
  }

  /** The tree /, /a, /a/b of one user. */
  function ThreeFolders(): Folders {
    map[1 := Folder("/", None, 7), 2 := Folder("a", Some(1), 7), 3 := Folder("b", Some(2), 7)]
  }

  lemma ThreeFoldersFine()
    ensures Forest(ThreeFolders()) && FoldersSound(ThreeFolders(), 4) && SameOwners(ThreeFolders())
  {
    ThreeDepths();
  }

  lemma ThreeDepths()
    ensures AtDepth(ThreeFolders(), 1, 0) && AtDepth(ThreeFolders(), 2, 1) && AtDepth(ThreeFolders(), 3, 2)
  {
    var f := ThreeFolders();
    assert AtDepth(f, 1, 0);
    assert AtDepth(f, 2, 1);
  }

  lemma MovedIntoChild()
    ensures var f, t := ThreeFolders(), Target(3, 7, "");
            Reach(f, {2}, 7, 1) == {2} && Inside(f, 3, {2}) && UniqueFolders(Moved(f, {2}, t))
  {
    var f := ThreeFolders();
    assert Above(f, 2, 2, 0);
    assert Above(f, 2, 3, 1);
  }

  /** The guard is too weak: moving /a into /a/b passes it and the unique index, and cuts both folders
      off from the root. */
  lemma GuardMissesDescendants()
    ensures var f, dirs, t := ThreeFolders(), {2}, Target(3, 7, "");
            var g := Moved(f, Reach(f, dirs, 7, 1), t);
            Forest(f) && !Guarded(dirs, 7, t) && UniqueFolders(g) && !Forest(g)
  {
    hide Forest, Inside, Reach, Moved, UniqueFolders, FoldersSound;
    ThreeFoldersFine();
    MovedIntoChild();
    MoveKeepsForestIff(ThreeFolders(), {2}, Target(3, 7, ""));
  }

  // ---- owners and files ----

  /** A folder belongs to the owner of its parent, and a file to the owner of its folder. */
  ghost predicate SameOwners(f: Folders) {
    forall id :: id in f && f[id].parent.Some? ==> f[id].parent.value in f && f[f[id].parent.value].owner == f[id].owner
  }

  ghost predicate Placed(f: Folders, g: Files) {
    forall i :: i in g ==> g[i].folder in f && f[g[i].folder].owner == g[i].user
  }

  /** A user has one root at most. */
  ghost predicate OneRoot(f: Folders, uid: Id) {
    forall i, j | && i in f && f[i].parent.None? && f[i].owner == uid
                  && j in f && f[j].parent.None? && f[j].owner == uid :: i == j
  }

  ghost predicate OneRootEach(f: Folders) {
    forall uid :: OneRoot(f, uid)
  }

  /** The roots are the same rows. */
  ghost predicate SameRoots(f0: Folders, f1: Folders) {
    && (forall id :: id in f0 && f0[id].parent.None? ==> id in f1 && f1[id] == f0[id])
    && (forall id :: id in f1 && f1[id].parent.None? ==> id in f0 && f0[id] == f1[id])
  }

  /** A user who has exactly one root keeps it. */
  lemma SameRootsKeepOne(f0: Folders, f1: Folders)
    requires SameRoots(f0, f1)
    ensures forall uid :: OneRoot(f0, uid) <==> OneRoot(f1, uid)
    ensures OneRootEach(f0) <==> OneRootEach(f1)
  {
    forall uid
      ensures OneRoot(f0, uid) <==> OneRoot(f1, uid)
    {
      assert forall id :: id in f0 && f0[id].parent.None? <==> id in f1 && f1[id].parent.None?;
    }
  }

  /** Nothing is lost: the folders are a forest, each tree has one owner and each owner one tree, and each
      file is in a folder of its user. */
  ghost predicate Tidy(f: Folders, g: Files) {
    Forest(f) && SameOwners(f) && Placed(f, g) && OneRootEach(f)
  }

  /** Every folder has a name that is a proper path element, but for the roots, which are called "/". */
  ghost predicate WellNamed(f: Folders) {
    forall id :: id in f ==> if f[id].parent.Some? then Names.Element(f[id].name) else f[id].name == "/"
  }

  lemma MoveKeepsOwners(f: Folders, ids: set<Id>, t: Target, g: Files)
    requires SameOwners(f) && Placed(f, g) && t.folder in f
    requires forall id :: id in ids ==> id in f && f[id].owner == f[t.folder].owner
    ensures SameOwners(Moved(f, ids, t)) && Placed(Moved(f, ids, t), g)
  {
    var h := Moved(f, ids, t);
    assert forall id :: id in f ==> h[id].owner == f[id].owner;
  }

  // ---- deleting ----

  /** Removing folders keeps the forest exactly when no child of a removed folder stays. */
  lemma DropKeepsForestIff(f: Folders, ids: set<Id>)
    requires Forest(f)
    ensures Forest(f - ids) <==> forall c :: c in f && f[c].parent.Some? && f[c].parent.value in ids ==> c in ids
  {
    var h := f - ids;
    if forall c :: c in f && f[c].parent.Some? && f[c].parent.value in ids ==> c in ids {
      forall id | id in h
        ensures exists n :: AtDepth(h, id, n)
      {
        var n: nat :| AtDepth(f, id, n);
        DropStays(f, ids, id, n);
      }
    } else {
      var c :| c in f && f[c].parent.Some? && f[c].parent.value in ids && c !in ids;
      assert c in h && h[c] == f[c];
      forall n: nat
        ensures !AtDepth(h, c, n)
      {
        assert n > 0 ==> !AtDepth(h, f[c].parent.value, n - 1);
      }
    }
  }

  lemma {:induction false} DropStays(f: Folders, ids: set<Id>, id: Id, n: nat)
    requires AtDepth(f, id, n) && id !in ids
    requires forall c :: c in f && f[c].parent.Some? && f[c].parent.value in ids ==> c in ids
    ensures AtDepth(f - ids, id, n)
    decreases n
  {
    if n > 0 {
      DropStays(f, ids, f[id].parent.value, n - 1);
    }
  }

  /** The folders to delete: a listing without its first root. */
  function WithoutRoot(f: Folders, list: seq<Id>): (rest: seq<Id>)
    requires forall x :: x in list ==> x in f
  {
    if list == [] then []
    else if f[list[0]].parent.None? then list[1..]
    else [list[0]] + WithoutRoot(f, list[1..])
  }

  lemma {:induction false} WithoutRootKeeps(f: Folders, list: seq<Id>, x: Id)
    requires forall y :: y in list ==> y in f
    ensures x in WithoutRoot(f, list) ==> x in list
    ensures x in list && f[x].parent.Some? ==> x in WithoutRoot(f, list)
  {
    if list != [] && f[list[0]].parent.Some? {
      WithoutRootKeeps(f, list[1..], x);
    }
  }

  lemma {:induction false} NoRootLeft(f: Folders, list: seq<Id>)
    requires forall y :: y in list ==> y in f
    requires forall i, j :: 0 <= i < j < |list| && f[list[i]].parent.None? ==> f[list[j]].parent.Some?
    ensures forall x :: x in WithoutRoot(f, list) ==> x in f && f[x].parent.Some?
  {
    if list != [] {
      if f[list[0]].parent.None? {
        assert forall k :: 1 <= k < |list| ==> f[list[k]].parent.Some?;
      } else {
        NoRootLeft(f, list[1..]);
      }
    }
  }

  /** A user's only root is listed once at most, so no root is deleted. */
  lemma RootStays(f: Folders, dirs: set<Id>, uid: Id, levels: seq<seq<Id>>)
    requires OneRoot(f, uid) && Listing(f, dirs, uid, levels) && forall x :: x in Flatten(levels) ==> x in f
    ensures forall x :: x in WithoutRoot(f, Flatten(levels)) ==> x in f && f[x].parent.Some?
  {
    var list := Flatten(levels);
    forall i, j | 0 <= i < j < |list| && f[list[i]].parent.None?
      ensures f[list[j]].parent.Some?
    {
      if f[list[j]].parent.None? {
        RootAtTop(f, dirs, uid, levels, i);
        RootAtTop(f, dirs, uid, levels, j);
        assert false;
      }
    }
    NoRootLeft(f, list);
  }

  lemma RootAtTop(f: Folders, dirs: set<Id>, uid: Id, levels: seq<seq<Id>>, i: nat)
    requires Listing(f, dirs, uid, levels) && i < |Flatten(levels)|
    requires Flatten(levels)[i] in f && f[Flatten(levels)[i]].parent.None?
    ensures i < |levels[0]| && levels[0][i] == Flatten(levels)[i] && f[Flatten(levels)[i]].owner == uid
    ensures Distinct(levels[0])
  {
    var k, j := Locate(levels, i);
    assert Enumerates(levels[k], Level(f, dirs, uid, k)) && Enumerates(levels[0], Level(f, dirs, uid, 0));
    assert Flatten(levels)[i] in Level(f, dirs, uid, k);
    assert k == 0;
    FrontLength(levels, 0, i, j);
    assert Flatten(levels[..0]) == [];
  }

  /** Deleting a listing, the first root apart, and every file in it keeps everything tidy, when no
      folder lies deeper below the start than the listing goes. */
  lemma DeleteKeepsTidy(f: Folders, g: Files, dirs: set<Id>, uid: Id, levels: seq<seq<Id>>, gone: set<Id>,
                        files: set<Id>)
    requires Tidy(f, g) && Listing(f, dirs, uid, levels) && Level(f, dirs, uid, MAX_ROUNDS + 1) == {}
    requires forall x :: x in Flatten(levels) ==> x in f
    requires forall x :: x in gone <==> x in WithoutRoot(f, Flatten(levels))
    requires forall i :: i in g && g[i].folder in gone ==> i in files
    ensures Tidy(f - gone, g - files) && SameRoots(f, f - gone)
  {
    var list := Flatten(levels);
    RootStays(f, dirs, uid, levels);
    SameRootsKeepOne(f, f - gone);
    forall c | c in f && f[c].parent.Some? && f[c].parent.value in gone
      ensures c in gone
    {
      var p := f[c].parent.value;
      WithoutRootKeeps(f, list, p);
      var k := OfFlatten(levels, p);
      assert Enumerates(levels[k], Level(f, dirs, uid, k));
      ChildListed(f, dirs, uid, levels, k, p, c);
      WithoutRootKeeps(f, list, c);
    }
    DropKeepsForestIff(f, gone);
  }

  lemma ChildListed(f: Folders, dirs: set<Id>, uid: Id, levels: seq<seq<Id>>, k: nat, p: Id, c: Id)
    requires SameOwners(f) && Listing(f, dirs, uid, levels) && Level(f, dirs, uid, MAX_ROUNDS + 1) == {}
    requires k < |levels| && p in Level(f, dirs, uid, k) && c in f && f[c].parent == Some(p)
    ensures c in Flatten(levels)
  {
    LevelInTable(f, dirs, uid, k);
    assert c in Level(f, dirs, uid, k + 1);
    assert k + 1 < |levels|;
    InFlatten(levels, k + 1, c);
  }

  // ---- copying ----

  /** Copying folders, wherever to, loses no folder and no file. */
  lemma CopyKeepsTidy(f0: Folders, f1: Folders, n0: Id, n1: Id, top: Id, t: Target, image: map<Id, Id>, g: Files)
    requires FoldersCopied(f0, f1, n0, n1, top, t, image) && FoldersSound(f0, n0) && Tidy(f0, g)
    requires t.folder in f0 && f0[t.folder].owner == t.owner
    ensures Tidy(f1, g)
    ensures forall p :: p in image ==> image[p] in f1 && f1[image[p]].owner == t.owner
  {
    CopyKeepsRoots(f0, f1, n0, n1, top, t, image);
    SameRootsKeepOne(f0, f1);
    CopyKeepsForest(f0, f1, n0, n1, top, t, image);
    forall p | p in image
      ensures image[p] in f1 && f1[image[p]].owner == t.owner
    {
      assert Imaged(f0, f1, top, t, image, p);
    }
    forall c | c in f1 && f1[c].parent.Some?
      ensures f1[c].parent.value in f1 && f1[f1[c].parent.value].owner == f1[c].owner
    {
      if c !in f0 {
        var id := OriginOf(f0, f1, n0, n1, top, t, image, c);
        assert Imaged(f0, f1, top, t, image, id);
      }
    }
  }

  lemma CopyKeepsRoots(f0: Folders, f1: Folders, n0: Id, n1: Id, top: Id, t: Target, image: map<Id, Id>)
    requires FoldersCopied(f0, f1, n0, n1, top, t, image)
    ensures SameRoots(f0, f1)
  {
    forall c | c in f1 && c !in f0
      ensures f1[c].parent.Some?
    {
      var id := OriginOf(f0, f1, n0, n1, top, t, image, c);
      assert Imaged(f0, f1, top, t, image, id);
    }
  }

  /** Copying keeps names proper if the one the copy gets is. */
  lemma CopyKeepsNames(f0: Folders, f1: Folders, n0: Id, n1: Id, top: Id, t: Target, image: map<Id, Id>)
    requires FoldersCopied(f0, f1, n0, n1, top, t, image) && WellNamed(f0)
    requires ProperTop(f0, top, t)
    ensures WellNamed(f1)
  {
    forall c | c in f1
      ensures if f1[c].parent.Some? then Names.Element(f1[c].name) else f1[c].name == "/"
    {
      if c !in f0 {
        var id := OriginOf(f0, f1, n0, n1, top, t, image, c);
        assert Imaged(f0, f1, top, t, image, id);
      }
    }
  }

  /** The target is a folder of its owner. */
  ghost predicate IsOwnTarget(f: Folders, t: Target) {
    t.folder in f && f[t.folder].owner == t.owner
  }

  /** The copy of top gets a proper name. */
  ghost predicate ProperTop(f: Folders, top: Id, t: Target) {
    top in f ==> Names.Element(t.NameOf(f[top].name))
  }

  lemma FoldersCopiedWell(f0: Folders, f1: Folders, n0: Id, n1: Id, top: Id, t: Target, image: map<Id, Id>, g: Files)
    requires FoldersCopied(f0, f1, n0, n1, top, t, image) && FoldersSound(f0, n0)
    ensures SameRoots(f0, f1)
    ensures WellNamed(f0) && ProperTop(f0, top, t) ==> WellNamed(f1)
    ensures Tidy(f0, g) && IsOwnTarget(f0, t) ==>
              Tidy(f1, g) && forall p :: p in image ==> image[p] in f1 && f1[image[p]].owner == t.owner
  {
    hide FoldersCopied, FoldersSound, Tidy, SameRoots, WellNamed;
    CopyKeepsRoots(f0, f1, n0, n1, top, t, image);
    if WellNamed(f0) && ProperTop(f0, top, t) {
      CopyKeepsNames(f0, f1, n0, n1, top, t, image);
    }
    if Tidy(f0, g) && IsOwnTarget(f0, t) {
      CopyKeepsTidy(f0, f1, n0, n1, top, t, image, g);
    }
  }

  /** So does copying files into folders of their new owner. */
  lemma FilesKeepTidy(f: Folders, g0: Files, g1: Files, n0: Id, n1: Id, into: map<Id, Id>, owner: Id, name: string,
                      image: map<Id, Id>)
    requires Tidy(f, g0) && FilesCopied(g0, g1, n0, n1, into, owner, name, image)
    requires forall p :: p in into ==> into[p] in f && f[into[p]].owner == owner
    ensures Tidy(f, g1)
  {
    forall c | c in g1
      ensures g1[c].folder in f && f[g1[c].folder].owner == g1[c].user
    {
      if c !in g0 {
        assert c in image.Values;
        var i :| i in image && image[i] == c;
        assert FileImaged(g0, g1, into, owner, name, image, i);
      }
    }
  }

  lemma MovedFilesKeepTidy(f: Folders, g: Files, ids: seq<Id>, uid: Id, from: Id, t: Target)
    requires Tidy(f, g) && t.folder in f && f[t.folder].owner == uid
    ensures Tidy(f, MovedFiles(g, ids, uid, from, t))
  {
  }

  /** Moving folders within one owner's tree keeps everything tidy exactly when the target is not inside
      a moved folder; moving files after that always does. */
  lemma MoveTidy(f: Folders, ids: set<Id>, t: Target, g: Files)
    requires t.folder in f
    requires forall id :: id in ids ==> id in f && f[id].owner == f[t.folder].owner && f[id].parent.Some?
    ensures SameRoots(f, Moved(f, ids, t))
    ensures Tidy(f, g) ==> (Tidy(Moved(f, ids, t), g) <==> !Inside(f, t.folder, ids))
    ensures Tidy(f, g) ==> t.folder in Moved(f, ids, t) && Moved(f, ids, t)[t.folder].owner == f[t.folder].owner
    ensures forall h :: Tidy(f, g) && Tidy(Moved(f, ids, t), h) ==> !Inside(f, t.folder, ids)
  {
    SameRootsKeepOne(f, Moved(f, ids, t));
    if Tidy(f, g) {
      MoveKeepsForestIff(f, ids, t);
      MoveKeepsOwners(f, ids, t, g);
    }
  }

  // ---- creating ----

  lemma CreateFolderKeepsTidy(f: Folders, g: Files, id: Id, row: Folder)
    requires Tidy(f, g) && id !in f && row.parent.Some? && row.parent.value in f
    requires f[row.parent.value].owner == row.owner
    ensures Tidy(f[id := row], g)
  {
    var h := f[id := row];
    forall i | i in h
      ensures exists n :: AtDepth(h, i, n)
    {
      var n: nat :| AtDepth(f, if i == id then row.parent.value else i, n);
      DepthStays(f, h, if i == id then row.parent.value else i, n);
      assert i == id ==> AtDepth(h, i, n + 1);
    }
    SameRootsKeepOne(f, h);
  }

  lemma FileKeepsTidy(f: Folders, g: Files, id: Id, row: File)
    requires Tidy(f, g) && row.folder in f && f[row.folder].owner == row.user
    ensures Tidy(f, g[id := row])
  {
  }

  lemma FileIsPlaced(f: Folders, g: Files, id: Id)
    requires Tidy(f, g) && id in g
    ensures g[id].folder in f && f[g[id].folder].owner == g[id].user
  {
  }
}
