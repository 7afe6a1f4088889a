/** What a copy of folders and of files is, as a relation between the tables before and after:
    models/folder.go. */
module TreeCopy {
  import opened Tables
  import opened FolderTree
  import opened Wrappers

  /** The destination folder of a copy or a move; a non-empty name replaces that of the object. */
  datatype Target = Target(folder: Id, owner: Id, name: string) {
    function NameOf(name: string): string {
      if this.name != "" then this.name else name
    }
  }

  /** Ids come from a counter, references point back, and the unique index holds. */
  ghost predicate FoldersSound(f: Folders, next: Id) {
    && (forall id :: id in f ==> id < next && (f[id].parent.Some? ==> f[id].parent.value < next))
    && UniqueFolders(f)
  }

  ghost predicate FilesSound(g: Files, next: Id, nextFolder: Id) {
    && (forall id :: id in g ==> id < next && g[id].folder < nextFolder)
    && UniqueFiles(g)
  }

  /** Some file in the folder, of whichever user, has the name. */
  predicate NameIn(g: Files, folder: Id, name: string) {
    exists i :: i in g && g[i].folder == folder && g[i].name == name
  }

  lemma FolderAdded(f: Folders, next: Id, row: Folder)
    requires FoldersSound(f, next) && !FolderConflict(f, row) && (row.parent.Some? ==> row.parent.value < next)
    ensures FoldersSound(f[next := row], next + 1)
  {
  }

  lemma FileAdded(g: Files, next: Id, nextFolder: Id, row: File)
    requires FilesSound(g, next, nextFolder) && !FileConflict(g, row) && row.folder < nextFolder
    ensures FilesSound(g[next := row], next + 1, nextFolder)
  {
  }

  // ---- folders ----

  /** The new ids are unused ones, one for each copied row. */
  ghost predicate Fresh(image: map<Id, Id>, from: Id, to: Id) {
    && (forall id :: id in image ==> from <= image[id] < to)
    && (forall i, j :: i in image && j in image && i != j ==> image[i] != image[j])
  }

  function FolderImage(row: Folder, atTop: bool, t: Target, image: map<Id, Id>): Folder
    requires atTop || (row.parent.Some? && row.parent.value in image)
  {
    if atTop then Folder(t.NameOf(row.name), Some(t.folder), t.owner)
    else Folder(row.name, Some(image[row.parent.value]), t.owner)
  }

  /** The image of id is in its place: that of the top in the target folder, that of any other folder
      in the image of its parent. */
  ghost predicate Imaged(f0: Folders, f1: Folders, top: Id, t: Target, image: map<Id, Id>, id: Id)
    requires id in image
  {
    && id in f0 && image[id] in f1
    && (id != top ==> f0[id].parent.Some? && f0[id].parent.value in image)
    && f1[image[id]] == FolderImage(f0[id], id == top, t, image)
  }

  /** f1 is f0 and an image of each folder in the domain of image. */
  ghost predicate FoldersCopied(f0: Folders, f1: Folders, n0: Id, n1: Id, top: Id, t: Target, image: map<Id, Id>) {
    && n0 <= n1 && Fresh(image, n0, n1)
    && f1.Keys == f0.Keys + image.Values
    && (forall id :: id in f0 ==> f1[id] == f0[id])
    && (forall id {:trigger Imaged(f0, f1, top, t, image, id)} :: id in image ==> Imaged(f0, f1, top, t, image, id))
  }

  lemma NothingCopied(f: Folders, n: Id, top: Id, t: Target)
    ensures FoldersCopied(f, f, n, n, top, t, map[])
  {
  }

  lemma NoFolderCopied(f0: Folders, f1: Folders, n0: Id, n1: Id, top: Id, t: Target, image: map<Id, Id>)
    requires FoldersCopied(f0, f1, n0, n1, top, t, image)
    ensures image == map[] ==> f1 == f0
  {
  }

  lemma ValuesAdd(m: map<Id, Id>, k: Id, v: Id)
    requires k !in m
    ensures m[k := v].Values == m.Values + {v}
  {
    var w := m[k := v];
    forall x | x in m.Values
      ensures x in w.Values
    {
      var i :| i in m && m[i] == x;
      assert w[i] == x;
    }
    assert w[k] == v;
  }

  lemma FolderCopiedToo(f0: Folders, f1: Folders, n0: Id, n1: Id, top: Id, t: Target, image: map<Id, Id>, id: Id)
    requires FoldersCopied(f0, f1, n0, n1, top, t, image) && FoldersSound(f0, n0)
    requires id in f0 && id !in image && (id == top || (f0[id].parent.Some? && f0[id].parent.value in image))
    ensures FoldersCopied(f0, f1[n1 := FolderImage(f0[id], id == top, t, image)], n0, n1 + 1, top, t, image[id := n1])
  {
    hide UniqueFolders, Imaged;
    ValuesAdd(image, id, n1);
    var f2, wider := f1[n1 := FolderImage(f0[id], id == top, t, image)], image[id := n1];
    assert n1 !in f1;
    forall i | i in wider
      ensures Imaged(f0, f2, top, t, wider, i)
    {
      if i != id {
        assert Imaged(f0, f1, top, t, image, i);
        ImagedStill(f0, f1, top, t, image, i, id, n1, f2[n1]);
      } else {
        ImagedNow(f0, f1, top, t, image, id, n1);
      }
    }
  }

  lemma ImagedStill(f0: Folders, f1: Folders, top: Id, t: Target, image: map<Id, Id>, i: Id, id: Id, n: Id, row: Folder)
    requires i in image && Imaged(f0, f1, top, t, image, i) && id !in image && n !in f1
    ensures Imaged(f0, f1[n := row], top, t, image[id := n], i)
  {
  }

  lemma ImagedNow(f0: Folders, f1: Folders, top: Id, t: Target, image: map<Id, Id>, id: Id, n: Id)
    requires id in f0 && id !in image && (id == top || (f0[id].parent.Some? && f0[id].parent.value in image))
    requires id == top || f0[id].parent.value != id
    ensures Imaged(f0, f1[n := FolderImage(f0[id], id == top, t, image)], top, t, image[id := n], id)
  {
  }

  lemma OriginOf(f0: Folders, f1: Folders, n0: Id, n1: Id, top: Id, t: Target, image: map<Id, Id>, c: Id)
    returns (id: Id)
    requires FoldersCopied(f0, f1, n0, n1, top, t, image) && c in f1 && c !in f0
    ensures id in image && image[id] == c
  {
    assert c in image.Values;
    id :| id in image && image[id] == c;
  }

  /** Below the top, an image never takes a name that is already there. */
  lemma ChildNeverClashes(f0: Folders, f1: Folders, n0: Id, n1: Id, top: Id, t: Target, image: map<Id, Id>, id: Id)
    requires FoldersCopied(f0, f1, n0, n1, top, t, image) && FoldersSound(f0, n0) && t.folder < n0
    requires id in f0 && id !in image && id != top && f0[id].parent.Some? && f0[id].parent.value in image
    ensures !FolderConflict(f1, FolderImage(f0[id], false, t, image))
  {
    var row := FolderImage(f0[id], false, t, image);
    forall c | c in f1 && f1[c].parent == row.parent
      ensures f1[c].name != row.name
    {
      if c in f0 {
        assert false;
      } else {
        var other := OriginOf(f0, f1, n0, n1, top, t, image, c);
        assert Imaged(f0, f1, top, t, image, other);
        assert f0[other].parent == f0[id].parent;
      }
    }
  }

  /** The image of the top clashes exactly when its name is taken in the target folder, or when it was
      already put there. */
  lemma TopClashes(f0: Folders, f1: Folders, n0: Id, n1: Id, top: Id, t: Target, image: map<Id, Id>)
    requires FoldersCopied(f0, f1, n0, n1, top, t, image) && FoldersSound(f0, n0) && t.folder < n0 && top in f0
    ensures var row := FolderImage(f0[top], true, t, image);
            FolderConflict(f1, row) <==> FolderConflict(f0, row) || top in image
  {
    var row := FolderImage(f0[top], true, t, image);
    if FolderConflict(f1, row) {
      var c :| c in f1 && f1[c].parent == row.parent && f1[c].name == row.name;
      if c !in f0 {
        var other := OriginOf(f0, f1, n0, n1, top, t, image, c);
        assert Imaged(f0, f1, top, t, image, other);
        assert other == top;
      }
    }
    if top in image {
      assert Imaged(f0, f1, top, t, image, top);
    }
    if FolderConflict(f0, row) {
      var c :| c in f0 && f0[c].parent == row.parent && f0[c].name == row.name;
      assert c in f1 && f1[c] == f0[c];
    }
  }

  /** The name the copy of top would have is taken in the target folder. */
  ghost predicate TopTaken(f: Folders, top: Id, t: Target) {
    top in f && FolderConflict(f, FolderImage(f[top], true, t, map[]))
  }

  /** Copying the folders of a listing in order, on any parent graph: the parent is always found, and
      the next folder clashes exactly when it is the top and its name is taken, by another folder or by
      its own copy. */
  lemma NextFolder(f0: Folders, f1: Folders, n0: Id, n1: Id, top: Id, t: Target, image: map<Id, Id>, uid: Id,
                   levels: seq<seq<Id>>, i: nat)
    requires FoldersCopied(f0, f1, n0, n1, top, t, image) && FoldersSound(f0, n0) && t.folder < n0
    requires Listing(f0, {top}, uid, levels) && i < |Flatten(levels)| && Distinct(Flatten(levels)[..i])
    requires image.Keys == SetOf(Flatten(levels)[..i])
    ensures var id := Flatten(levels)[i];
            && id in f0 && (i == 0 ==> id == top)
            && (id != top ==>
                  && id !in image && f0[id].parent.Some? && f0[id].parent.value in image
                  && image[f0[id].parent.value] < n1)
            && (FolderConflict(f1, FolderImage(f0[id], id == top, t, image)) <==>
                id in image || (id == top && TopTaken(f0, top, t)))
  {
    var list := Flatten(levels);
    var id := list[i];
    ListingParentsFirst(f0, {top}, uid, levels);
    assert id in list;
    if id == top {
      TopClashes(f0, f1, n0, n1, top, t, image);
    } else {
      if id in image {
        FirstRepeatIsTop(f0, top, uid, levels, i);
        assert false;
      }
      assert f0[id].parent.value in list[..i];
      ChildNeverClashes(f0, f1, n0, n1, top, t, image, id);
    }
  }

  // ---- the copy of a tree is isomorphic to it ----

  /** A folder is k levels below the original exactly when its image is k levels below the copy, and
      nothing else is below the copy, even when the copy lies inside the original. */
  lemma {:induction false} SameShape(f0: Folders, f1: Folders, n0: Id, n1: Id, top: Id, t: Target,
                                     image: map<Id, Id>, uid: Id, k: nat)
    requires FoldersCopied(f0, f1, n0, n1, top, t, image) && FoldersSound(f0, n0) && Forest(f0) && t.folder < n0
    requires top in image && forall id :: id in image ==> id in f0 && f0[id].owner == uid
    ensures forall id :: id in image
              ==> (image[id] in Level(f1, {image[top]}, t.owner, k) <==> id in Level(f0, {top}, uid, k))
    ensures Level(f1, {image[top]}, t.owner, k) <= image.Values
  {
    var copies := Level(f1, {image[top]}, t.owner, k);
    if k == 0 {
      assert Imaged(f0, f1, top, t, image, top);
    } else {
      SameShape(f0, f1, n0, n1, top, t, image, uid, k - 1);
      LevelsDisjoint(f0, top, uid, 0, k);
      forall c | c in copies
        ensures c in image.Values
      {
        assert f1[c].parent.value in image.Values;
        assert c !in f0;
      }
      forall id | id in image
        ensures image[id] in copies <==> id in Level(f0, {top}, uid, k)
      {
        SameParent(f0, f1, n0, n1, top, t, image, uid, k, id);
      }
    }
  }

  lemma SameParent(f0: Folders, f1: Folders, n0: Id, n1: Id, top: Id, t: Target, image: map<Id, Id>, uid: Id,
                   k: nat, id: Id)
    requires FoldersCopied(f0, f1, n0, n1, top, t, image) && FoldersSound(f0, n0) && t.folder < n0 && k > 0
    requires top in image && id in image && id in f0 && top in f0 && f0[id].owner == uid && f0[top].owner == uid
    requires Level(f0, {top}, uid, 0) !! Level(f0, {top}, uid, k)
    requires forall p :: p in image
               ==> (image[p] in Level(f1, {image[top]}, t.owner, k - 1) <==> p in Level(f0, {top}, uid, k - 1))
    requires Level(f1, {image[top]}, t.owner, k - 1) <= image.Values
    ensures image[id] in Level(f1, {image[top]}, t.owner, k) <==> id in Level(f0, {top}, uid, k)
  {
    assert Imaged(f0, f1, top, t, image, id);
    if id == top {
      assert top in Level(f0, {top}, uid, 0);
      assert t.folder !in image.Values;
    }
  }

  /** Seen from the rows that were there before, every level is what it was. */
  lemma {:induction false} SourceUnchanged(f0: Folders, f1: Folders, n0: Id, n1: Id, top: Id, t: Target,
                                           image: map<Id, Id>, dirs: set<Id>, uid: Id, k: nat)
    requires FoldersCopied(f0, f1, n0, n1, top, t, image) && FoldersSound(f0, n0)
    ensures Level(f1, dirs, uid, k) * f0.Keys == Level(f0, dirs, uid, k)
  {
    if k > 0 {
      SourceUnchanged(f0, f1, n0, n1, top, t, image, dirs, uid, k - 1);
      var above := Level(f1, dirs, uid, k - 1);
      forall id | id in f0
        ensures id in Level(f1, dirs, uid, k) <==> id in Level(f0, dirs, uid, k)
      {
        if f0[id].parent.Some? {
          var p := f0[id].parent.value;
          if p in above {
            LevelInTable(f1, dirs, uid, k - 1);
            assert p in f0.Keys;
            assert p in above * f0.Keys;
          }
        }
      }
      LevelInTable(f0, dirs, uid, k);
    }
  }

  lemma LevelInTable(f: Folders, dirs: set<Id>, uid: Id, k: nat)
    ensures forall id :: id in Level(f, dirs, uid, k) ==> id in f && f[id].owner == uid
  {
  }

  /** A copy keeps the forest, wherever in it the target is. */
  lemma CopyKeepsForest(f0: Folders, f1: Folders, n0: Id, n1: Id, top: Id, t: Target, image: map<Id, Id>)
    requires FoldersCopied(f0, f1, n0, n1, top, t, image) && FoldersSound(f0, n0) && Forest(f0) && t.folder in f0
    ensures Forest(f1)
  {
    forall c | c in f1
      ensures exists n :: AtDepth(f1, c, n)
    {
      if c in f0 {
        var n: nat :| AtDepth(f0, c, n);
        DepthStays(f0, f1, c, n);
      } else {
        var id := OriginOf(f0, f1, n0, n1, top, t, image, c);
        assert Imaged(f0, f1, top, t, image, id);
        var n: nat :| AtDepth(f0, id, n);
        n := ImageHangs(f0, f1, n0, n1, top, t, image, id, n);
      }
    }
  }

  lemma {:induction false} DepthStays(f0: Folders, f1: Folders, id: Id, n: nat)
    requires forall i :: i in f0 ==> i in f1 && f1[i] == f0[i]
    requires AtDepth(f0, id, n)
    ensures AtDepth(f1, id, n)
    decreases n
  {
    if n > 0 {
      DepthStays(f0, f1, f0[id].parent.value, n - 1);
    }
  }

  lemma {:induction false} ImageHangs(f0: Folders, f1: Folders, n0: Id, n1: Id, top: Id, t: Target,
                                      image: map<Id, Id>, id: Id, n: nat)
      returns (m: nat)
    requires FoldersCopied(f0, f1, n0, n1, top, t, image) && Forest(f0) && t.folder in f0
    requires id in image && AtDepth(f0, id, n)
    ensures AtDepth(f1, image[id], m)
    decreases n
  {
    assert Imaged(f0, f1, top, t, image, id);
    if id == top {
      m :| AtDepth(f0, t.folder, m);
      DepthStays(f0, f1, t.folder, m);
    } else {
      m := ImageHangs(f0, f1, n0, n1, top, t, image, f0[id].parent.value, n - 1);
    }
    m := m + 1;
  }

  // ---- files ----

  /** A copied file record aliases the physical object of the original. */
  function FileImage(row: File, into: map<Id, Id>, owner: Id, name: string): File
    requires row.folder in into
  {
    row.(name := if name != "" then name else row.name, user := owner, folder := into[row.folder])
  }

  /** The new record is that of a file that is not being uploaded, and a copy of it. */
  ghost predicate FileImaged(g0: Files, g1: Files, into: map<Id, Id>, owner: Id, name: string, image: map<Id, Id>,
                             id: Id)
    requires id in image
  {
    && id in g0 && image[id] in g1 && g0[id].session.None? && g0[id].folder in into
    && g1[image[id]] == FileImage(g0[id], into, owner, name)
  }

  /** g1 is g0 and a copy of each file in the domain of image. */
  ghost predicate FilesCopied(g0: Files, g1: Files, n0: Id, n1: Id, into: map<Id, Id>, owner: Id, name: string,
                              image: map<Id, Id>) {
    && n0 <= n1 && Fresh(image, n0, n1)
    && g1.Keys == g0.Keys + image.Values
    && (forall id :: id in g0 ==> g1[id] == g0[id])
    && (forall id {:trigger FileImaged(g0, g1, into, owner, name, image, id)} :: id in image ==>
        FileImaged(g0, g1, into, owner, name, image, id))
  }

  lemma FileCopiedToo(g0: Files, g1: Files, n0: Id, n1: Id, into: map<Id, Id>, owner: Id, name: string,
                      image: map<Id, Id>, id: Id)
    requires FilesCopied(g0, g1, n0, n1, into, owner, name, image) && n1 !in g1
    requires id in g0 && id !in image && g0[id].session.None? && g0[id].folder in into
    ensures FilesCopied(g0, g1[n1 := FileImage(g0[id], into, owner, name)], n0, n1 + 1, into, owner, name,
                        image[id := n1])
  {
    ValuesAdd(image, id, n1);
    var g2, wider := g1[n1 := FileImage(g0[id], into, owner, name)], image[id := n1];
    forall i | i in wider
      ensures FileImaged(g0, g2, into, owner, name, wider, i)
    {
      assert i != id ==> FileImaged(g0, g1, into, owner, name, image, i);
    }
  }

  ghost predicate SameSlot(a: File, b: File) {
    a.folder == b.folder && a.user == b.user && a.name == b.name
  }

  /** The copies of these files fit beside the records of g and beside each other. */
  ghost predicate FilesFit(g: Files, ids: set<Id>, into: map<Id, Id>, owner: Id, name: string)
    requires forall i :: i in ids ==> i in g && g[i].folder in into
  {
    && (forall i :: i in ids ==> !FileConflict(g, FileImage(g[i], into, owner, name)))
    && (forall i, j :: i in ids && j in ids && i != j
          ==> !SameSlot(FileImage(g[i], into, owner, name), FileImage(g[j], into, owner, name)))
  }

  /** The next copy clashes exactly when it does not fit beside the records and the copies so far. */
  lemma CopyClashes(g0: Files, g1: Files, n0: Id, n1: Id, into: map<Id, Id>, owner: Id, name: string,
                    image: map<Id, Id>, id: Id)
    requires FilesCopied(g0, g1, n0, n1, into, owner, name, image)
    requires id in g0 && id !in image && g0[id].folder in into && g0[id].session.None?
    requires (forall i :: i in image ==> i in g0 && g0[i].folder in into) && FilesFit(g0, image.Keys, into, owner, name)
    ensures FileConflict(g1, FileImage(g0[id], into, owner, name))
            <==> !FilesFit(g0, image.Keys + {id}, into, owner, name)
  {
    var row, ids := FileImage(g0[id], into, owner, name), image.Keys + {id};
    assert id in ids;
    if FileConflict(g1, row) {
      var c :| c in g1 && SameSlot(g1[c], row);
      ClashIsOld(g0, g1, n0, n1, into, owner, name, image, row, c);
    } else {
      forall i | i in image
        ensures !SameSlot(FileImage(g0[i], into, owner, name), row)
      {
        assert FileImaged(g0, g1, into, owner, name, image, i);
      }
      forall c | c in g0
        ensures !SameSlot(g0[c], row)
      {
        assert g1[c] == g0[c];
      }
    }
  }

  lemma ClashIsOld(g0: Files, g1: Files, n0: Id, n1: Id, into: map<Id, Id>, owner: Id, name: string,
                   image: map<Id, Id>, row: File, c: Id)
    requires FilesCopied(g0, g1, n0, n1, into, owner, name, image)
    requires forall i :: i in image ==> i in g0 && g0[i].folder in into
    requires c in g1 && SameSlot(g1[c], row)
    ensures FileConflict(g0, row) || exists i :: i in image && SameSlot(FileImage(g0[i], into, owner, name), row)
  {
    if c in g0 {
      assert g1[c] == g0[c];
    } else {
      assert c in image.Values;
      var i :| i in image && image[i] == c;
      assert FileImaged(g0, g1, into, owner, name, image, i);
    }
  }

  /** Copies into new folders fit. */
  lemma NewFoldersFit(g: Files, ids: set<Id>, n0: Id, uid: Id, into: map<Id, Id>, owner: Id)
    requires UniqueFiles(g) && (forall i :: i in g ==> g[i].folder < n0)
    requires forall i :: i in ids ==> i in g && g[i].folder in into && g[i].user == uid && g[i].session.None?
    requires forall p :: p in into ==> n0 <= into[p]
    requires forall p, q :: p in into && q in into && p != q ==> into[p] != into[q]
    ensures FilesFit(g, ids, into, owner, "")
  {
  }

  /** Copies of the files of one folder fit exactly when no name is taken in the target folder, and
      with a new name when there is one file at most. */
  lemma OneFolderFits(g: Files, ids: set<Id>, uid: Id, from: Id, t: Target)
    requires UniqueFiles(g)
    requires forall i :: i in ids ==> i in g && g[i].user == uid && g[i].folder == from && g[i].session.None?
    ensures FilesFit(g, ids, map[from := t.folder], t.owner, t.name)
       <==> (forall i, c :: i in ids && c in g && g[c].folder == t.folder && g[c].user == t.owner ==>
             g[c].name != t.NameOf(g[i].name))
            && (t.name != "" ==> forall i, j :: i in ids && j in ids ==> i == j)
  {
    var into := map[from := t.folder];
    forall i, c | i in ids && c in g && FilesFit(g, ids, into, t.owner, t.name) && g[c].folder == t.folder
      && g[c].user == t.owner
      ensures g[c].name != t.NameOf(g[i].name)
    {
      assert !FileConflict(g, FileImage(g[i], into, t.owner, t.name));
    }
    forall i, j | i in ids && j in ids && i != j && FilesFit(g, ids, into, t.owner, t.name)
      ensures t.name == ""
    {
      assert !SameSlot(FileImage(g[i], into, t.owner, t.name), FileImage(g[j], into, t.owner, t.name));
    }
  }

  /** The sizes of the originals of the copies. */
  ghost function CopiedSizes(g: Files, image: map<Id, Id>): map<Id, nat> {
    map i | i in image && i in g :: g[i].size
  }

  /** Files that are being uploaded are not copied. */
  ghost function Copyable(g: Files, list: seq<Id>): set<Id>
    requires forall i :: i in list ==> i in g
  {
    set i | i in list && g[i].session.None?
  }

  /** g1 has this much more than g0 of one user's bytes and the same of everyone else's. */
  ghost predicate Charged(g0: Files, g1: Files, owner: Id, size: int) {
    forall u :: Total(g1, u) == Total(g0, u) + (if u == owner then size else 0)
  }

  lemma NoFileCopied(g: Files, n: Id, into: map<Id, Id>, owner: Id, name: string)
    ensures FilesCopied(g, g, n, n, into, owner, name, map[]) && Charged(g, g, owner, 0)
    ensures var none: map<Id, Id> := map[]; Sum(CopiedSizes(g, none)) == 0 && FilesFit(g, none.Keys, into, owner, name)
  {
    assert CopiedSizes(g, map[]) == map[];
  }

  lemma CopyCharged(g0: Files, g1: Files, owner: Id, image: map<Id, Id>, id: Id, n: Id, row: File)
    requires (forall i :: i in image ==> i in g0) && id in g0 && id !in image && n !in g1
    requires row.user == owner && row.size == g0[id].size
    requires Charged(g0, g1, owner, Sum(CopiedSizes(g0, image)))
    ensures Charged(g0, g1[n := row], owner, Sum(CopiedSizes(g0, image[id := n])))
    ensures Sum(CopiedSizes(g0, image[id := n])) == Sum(CopiedSizes(g0, image)) + row.size
  {
    SumAdd(CopiedSizes(g0, image), id, row.size);
    assert CopiedSizes(g0, image[id := n]) == CopiedSizes(g0, image)[id := row.size];
    forall u {
      TotalAdd(g1, n, row, u);
    }
  }

  lemma FilesFitPart(g: Files, part: set<Id>, ids: set<Id>, into: map<Id, Id>, owner: Id, name: string)
    requires forall i :: i in ids ==> i in g && g[i].folder in into
    requires part <= ids && FilesFit(g, ids, into, owner, name)
    ensures FilesFit(g, part, into, owner, name)
  {
  }

  /** Taking one file more. */
  lemma CopyableFront(g: Files, list: seq<Id>, i: nat)
    requires (forall x :: x in list ==> x in g) && Distinct(list) && i < |list|
    ensures Copyable(g, list[..i + 1]) == Copyable(g, list[..i]) + (if g[list[i]].session.None? then {list[i]} else {})
    ensures list[i] !in Copyable(g, list[..i]) && Copyable(g, list[..i + 1]) <= Copyable(g, list)
  {
    assert list[..i + 1] == list[..i] + [list[i]];
  }

  lemma FileStep(g0: Files, g1: Files, n0: Id, n1: Id, nextFolder: Id, into: map<Id, Id>, owner: Id, name: string,
                 image: map<Id, Id>, id: Id)
    requires FilesSound(g1, n1, nextFolder) && FilesCopied(g0, g1, n0, n1, into, owner, name, image)
    requires id in g0 && id !in image && g0[id].session.None? && g0[id].folder in into
    requires (forall i :: i in image ==> i in g0) && Charged(g0, g1, owner, Sum(CopiedSizes(g0, image)))
    ensures var copy := FileImage(g0[id], into, owner, name);
            && FilesCopied(g0, g1[n1 := copy], n0, n1 + 1, into, owner, name, image[id := n1])
            && Sum(CopiedSizes(g0, image[id := n1])) == Sum(CopiedSizes(g0, image)) + copy.size
            && Charged(g0, g1[n1 := copy], owner, Sum(CopiedSizes(g0, image[id := n1])))
            && (image[id := n1]).Keys == image.Keys + {id}
  {
    FileCopiedToo(g0, g1, n0, n1, into, owner, name, image, id);
    CopyCharged(g0, g1, owner, image, id, n1, FileImage(g0[id], into, owner, name));
  }

  /** The files a copy of a tree takes along. */
  ghost function TreeFiles(g: Files, uid: Id, ids: set<Id>): set<Id> {
    set i | i in g && g[i].user == uid && g[i].folder in ids && g[i].session.None?
  }

  /** Copying the files of copied folders: they always fit. */
  lemma TreeFilesFit(f0: Folders, f1: Folders, n0: Id, n1: Id, top: Id, t: Target, image: map<Id, Id>, g: Files,
                     next: Id, list: seq<Id>, uid: Id)
    requires FoldersCopied(f0, f1, n0, n1, top, t, image) && FilesSound(g, next, n0)
    requires Enumerates(list, set i | i in g && g[i].user == uid && g[i].folder in image)
    ensures FilesSound(g, next, n1) && Distinct(list)
    ensures forall i :: i in list ==> i in g && g[i].folder in image && image[g[i].folder] < n1
    ensures Copyable(g, list) == TreeFiles(g, uid, image.Keys)
    ensures FilesFit(g, Copyable(g, list), image, t.owner, "")
  {
    NewFoldersFit(g, Copyable(g, list), n0, uid, image, t.owner);
  }

  lemma FilesStaySound(g: Files, next: Id, n0: Id, n1: Id)
    requires FilesSound(g, next, n0) && n0 <= n1
    ensures FilesSound(g, next, n1)
  {
  }

  // ---- files of one folder ----

  /** The files a copy out of one folder takes. */
  ghost function Chosen(g: Files, ids: seq<Id>, uid: Id, from: Id): set<Id> {
    set i | i in g && i in ids && g[i].user == uid && g[i].folder == from && g[i].session.None?
  }

  function MovedFiles(g: Files, ids: seq<Id>, uid: Id, from: Id, t: Target): Files {
    map i | i in g :: if i in ids && g[i].user == uid && g[i].folder == from
                      then g[i].(folder := t.folder, name := t.NameOf(g[i].name)) else g[i]
  }

  lemma MoveChargesNothing(g: Files, ids: seq<Id>, uid: Id, from: Id, t: Target)
    ensures Charged(g, MovedFiles(g, ids, uid, from, t), t.owner, 0)
  {
    hide Sum;
    var h := MovedFiles(g, ids, uid, from, t);
    assert forall i :: i in g ==> h[i].user == g[i].user && h[i].size == g[i].size;
    forall u
      ensures Total(h, u) == Total(g, u)
    {
      assert SizesOf(h, u) == SizesOf(g, u);
    }
  }

  lemma MovedSound(g: Files, next: Id, nextFolder: Id, ids: seq<Id>, uid: Id, from: Id, t: Target)
    requires FilesSound(g, next, nextFolder) && t.folder < nextFolder && UniqueFiles(MovedFiles(g, ids, uid, from, t))
    ensures FilesSound(MovedFiles(g, ids, uid, from, t), next, nextFolder)
  {
  }

  // ---- the copy operations as a whole ----

  /** The tables at one moment. */
  datatype Snapshot = Snapshot(folders: Folders, files: Files, nextFolder: Id, nextFile: Id)

  /** From s0 to s1, folders from top down and files in them were copied, of this total size. */
  ghost predicate TreeCopied(s0: Snapshot, s1: Snapshot, top: Id, t: Target, image: map<Id, Id>,
                             fileImage: map<Id, Id>, size: nat) {
    && FoldersCopied(s0.folders, s1.folders, s0.nextFolder, s1.nextFolder, top, t, image)
    && FilesCopied(s0.files, s1.files, s0.nextFile, s1.nextFile, image, t.owner, "", fileImage)
    && size == Sum(CopiedSizes(s0.files, fileImage)) && Charged(s0.files, s1.files, t.owner, size)
  }

  /** All of the tree was: the user's folders within 65535 levels of top, and the user's files in them
      that are not being uploaded. */
  ghost predicate WholeTree(s: Snapshot, top: Id, uid: Id, image: map<Id, Id>, fileImage: map<Id, Id>) {
    && (forall x :: x in image <==> Reached(s.folders, top, uid, x))
    && fileImage.Keys == TreeFiles(s.files, uid, image.Keys)
  }

  /** The tree can be copied: top is not met again below itself, and its name is free in the target. */
  ghost predicate TreeFits(f: Folders, top: Id, uid: Id, t: Target) {
    && !MetAgain(f, top, uid)
    && (top in f && f[top].owner == uid ==> !TopTaken(f, top, t))
  }

  /** In a forest only the name matters. */
  lemma ForestFits(f: Folders, top: Id, uid: Id, t: Target)
    requires Forest(f)
    ensures TreeFits(f, top, uid, t) <==> (top in f && f[top].owner == uid ==> !TopTaken(f, top, t))
  {
    NeverMetAgain(f, top, uid);
  }

  lemma FitsListing(f: Folders, top: Id, uid: Id, t: Target, levels: seq<seq<Id>>)
    requires Listing(f, {top}, uid, levels)
    ensures TreeFits(f, top, uid, t) <==> Distinct(Flatten(levels)) && (Flatten(levels) != [] ==> !TopTaken(f, top, t))
    ensures Flatten(levels) != [] <==> top in f && f[top].owner == uid
    ensures forall x :: x in SetOf(Flatten(levels)) <==> Reached(f, top, uid, x)
  {
    DistinctUnlessCycle(f, top, uid, levels);
    ListsSomethingIff(f, top, uid, levels);
    forall x {
      ListedIsReached(f, top, uid, levels, x);
    }
  }

  /** From s0 to s1, some of these files of the folder from were copied, of this total size. */
  ghost predicate SomeCopied(s0: Snapshot, s1: Snapshot, ids: seq<Id>, uid: Id, from: Id, t: Target,
                             image: map<Id, Id>, size: nat) {
    && s1.folders == s0.folders && s1.nextFolder == s0.nextFolder && image.Keys <= Chosen(s0.files, ids, uid, from)
    && FilesCopied(s0.files, s1.files, s0.nextFile, s1.nextFile, map[from := t.folder], t.owner, t.name, image)
    && size == Sum(CopiedSizes(s0.files, image)) && Charged(s0.files, s1.files, t.owner, size)
  }

  /** The files can all be copied. */
  ghost predicate SomeFit(g: Files, ids: seq<Id>, uid: Id, from: Id, t: Target) {
    FilesFit(g, Chosen(g, ids, uid, from), map[from := t.folder], t.owner, t.name)
  }

  /** All of a copy fits: the tree of the first folder, and the files. */
  ghost predicate CopyFits(f: Folders, g: Files, dirs: seq<Id>, ids: seq<Id>, uid: Id, from: Id, t: Target) {
    (dirs != [] ==> TreeFits(f, dirs[0], uid, t)) && (ids != [] ==> SomeFit(g, ids, uid, from, t))
  }

  ghost function ReachedSet(f: Folders, top: Id, uid: Id): set<Id> {
    set x | x in f && Reached(f, top, uid, x)
  }

  ghost function SizesIn(g: Files, ids: set<Id>): map<Id, nat> {
    map i | i in ids && i in g :: g[i].size
  }

  /** The size of a tree: of the files that a copy takes along. */
  ghost function TreeBytes(f: Folders, g: Files, top: Id, uid: Id): nat {
    Sum(SizesIn(g, TreeFiles(g, uid, ReachedSet(f, top, uid))))
  }

  lemma WholeTreeBytes(s0: Snapshot, s1: Snapshot, top: Id, uid: Id, t: Target, image: map<Id, Id>,
                       fileImage: map<Id, Id>, size: nat)
    requires TreeCopied(s0, s1, top, t, image, fileImage, size) && WholeTree(s0, top, uid, image, fileImage)
    ensures size == TreeBytes(s0.folders, s0.files, top, uid)
  {
    hide Reached, Sum;
    forall id | id in image
      ensures id in s0.folders
    {
      assert Imaged(s0.folders, s1.folders, top, t, image, id);
    }
    assert image.Keys == ReachedSet(s0.folders, top, uid);
    assert CopiedSizes(s0.files, fileImage)
        == SizesIn(s0.files, TreeFiles(s0.files, uid, ReachedSet(s0.folders, top, uid)));
  }

  /** A copied tree has no file in a folder that was there before, so it changes nothing about which files
      of such a folder are copied next, or whether they fit. */
  lemma SameChoice(s0: Snapshot, s1: Snapshot, top: Id, t: Target, image: map<Id, Id>, fileImage: map<Id, Id>,
                   size: nat, ids: seq<Id>, uid: Id, from: Id)
    requires TreeCopied(s0, s1, top, t, image, fileImage, size)
    requires from < s0.nextFolder && t.folder < s0.nextFolder
    ensures Chosen(s1.files, ids, uid, from) == Chosen(s0.files, ids, uid, from)
    ensures SomeFit(s1.files, ids, uid, from, t) <==> SomeFit(s0.files, ids, uid, from, t)
  {
    var g0, g1 := s0.files, s1.files;
    forall c | c in g1
      ensures c in g0 || g1[c].folder >= s0.nextFolder
    {
      if c !in g0 {
        assert c in fileImage.Values;
        var i :| i in fileImage && fileImage[i] == c;
        assert FileImaged(g0, g1, image, t.owner, "", fileImage, i);
      }
    }
    SameFit(g0, g1, s0.nextFolder, ids, uid, from, t);
  }

  lemma SameFit(g0: Files, g1: Files, n: Id, ids: seq<Id>, uid: Id, from: Id, t: Target)
    requires forall c :: c in g0 ==> c in g1 && g1[c] == g0[c]
    requires forall c :: c in g1 ==> c in g0 || g1[c].folder >= n
    requires from < n && t.folder < n
    ensures Chosen(g1, ids, uid, from) == Chosen(g0, ids, uid, from)
    ensures SomeFit(g1, ids, uid, from, t) <==> SomeFit(g0, ids, uid, from, t)
  {
    var into := map[from := t.folder];
    assert Chosen(g1, ids, uid, from) == Chosen(g0, ids, uid, from);
    forall i | i in Chosen(g0, ids, uid, from)
      ensures FileConflict(g1, FileImage(g1[i], into, t.owner, t.name))
              <==> FileConflict(g0, FileImage(g0[i], into, t.owner, t.name))
    {
      SameConflict(g0, g1, n, FileImage(g0[i], into, t.owner, t.name));
    }
  }

  lemma SameConflict(g0: Files, g1: Files, n: Id, row: File)
    requires forall c :: c in g0 ==> c in g1 && g1[c] == g0[c]
    requires forall c :: c in g1 ==> c in g0 || g1[c].folder >= n
    requires row.folder < n && row.session.None?
    ensures FileConflict(g1, row) <==> FileConflict(g0, row)
  {
    if c :| c in g0 && SameSlot(g0[c], row) {
      assert c in g1 && SameSlot(g1[c], row);
    }
  }

  /** The tree of the first folder fits and has bytes in it, and the files after it do not all fit. */
  ghost predicate Uncharged(f: Folders, g: Files, dirs: seq<Id>, ids: seq<Id>, uid: Id, from: Id, t: Target) {
    && dirs != [] && TreeFits(f, dirs[0], uid, t) && TreeBytes(f, g, dirs[0], uid) > 0
    && ids != [] && !SomeFit(g, ids, uid, from, t)
  }

  lemma FilesBelow(g: Files, next: Id, nextFolder: Id)
    requires FilesSound(g, next, nextFolder)
    ensures forall i :: i in g ==> i < next
  {
  }

  lemma FilesUnique(g: Files, next: Id, nextFolder: Id)
    requires FilesSound(g, next, nextFolder)
    ensures UniqueFiles(g)
  {
  }

  /** No file with bytes in it can be copied: a record has its name. */
  ghost predicate NoBytesFit(g: Files, ids: seq<Id>, uid: Id, from: Id, t: Target) {
    forall i :: i in Chosen(g, ids, uid, from) && g[i].size > 0 ==>
      FileConflict(g, FileImage(g[i], map[from := t.folder], t.owner, t.name))
  }

  /** A copy leaves nothing uncharged: all of it fits, or not even the tree does, or nothing with bytes in
      it can be copied. */
  ghost predicate Paid(f: Folders, g: Files, dirs: seq<Id>, ids: seq<Id>, uid: Id, from: Id, t: Target) {
    || CopyFits(f, g, dirs, ids, uid, from, t)
    || (dirs != [] && !TreeFits(f, dirs[0], uid, t))
    || ((dirs != [] ==> TreeBytes(f, g, dirs[0], uid) == 0) && NoBytesFit(g, ids, uid, from, t))
  }

  lemma {:induction false} SumOfNothing(m: map<Id, nat>)
    requires forall k :: k in m ==> m[k] == 0
    ensures Sum(m) == 0
    decreases |m|
  {
    if m != map[] {
      var k :| k in m;
      SumRemove(m, k);
      SumOfNothing(m - {k});
    }
  }

  /** What was copied did not clash. */
  lemma CopiedHasNoClash(g0: Files, g1: Files, n0: Id, n1: Id, into: map<Id, Id>, owner: Id, name: string,
                         image: map<Id, Id>, i: Id)
    requires FilesCopied(g0, g1, n0, n1, into, owner, name, image) && UniqueFiles(g1) && i in image
    requires forall c :: c in g0 ==> c < n0
    ensures i in g0 && g0[i].folder in into && !FileConflict(g0, FileImage(g0[i], into, owner, name))
  {
    assert FileImaged(g0, g1, into, owner, name, image, i);
    forall c | c in g0
      ensures !SameSlot(g0[c], FileImage(g0[i], into, owner, name))
    {
      assert g1[c] == g0[c] && image[i] != c;
    }
  }

  lemma NoBytesCopied(s0: Snapshot, s1: Snapshot, ids: seq<Id>, uid: Id, from: Id, t: Target, image: map<Id, Id>,
                      size: nat)
    requires SomeCopied(s0, s1, ids, uid, from, t, image, size) && UniqueFiles(s1.files)
    requires forall c :: c in s0.files ==> c < s0.nextFile
    requires NoBytesFit(s0.files, ids, uid, from, t)
    ensures size == 0
  {
    hide Sum, UniqueFiles, FilesCopied, FileConflict;
    var g0, g1, into := s0.files, s1.files, map[from := t.folder];
    forall i | i in image
      ensures i in g0 && g0[i].size == 0
    {
      CopiedHasNoClash(g0, g1, s0.nextFile, s1.nextFile, into, t.owner, t.name, image, i);
    }
    SumOfNothing(CopiedSizes(g0, image));
  }

  /** One file is copied or is not. */
  lemma OneOrNone(s0: Snapshot, s1: Snapshot, id: Id, uid: Id, from: Id, t: Target, image: map<Id, Id>, size: nat)
    requires SomeCopied(s0, s1, [id], uid, from, t, image, size) && UniqueFiles(s1.files)
    requires forall c :: c in s0.files ==> c < s0.nextFile
    ensures image == map[] || SomeFit(s0.files, [id], uid, from, t)
  {
    hide Sum, UniqueFiles, FilesCopied, FileConflict;
    if image != map[] {
      var i :| i in image;
      CopiedHasNoClash(s0.files, s1.files, s0.nextFile, s1.nextFile, map[from := t.folder], t.owner, t.name, image, i);
      assert Chosen(s0.files, [id], uid, from) == {id};
    }
  }

  /** A copied tree changes nothing about that either. */
  lemma SameBytesFit(s0: Snapshot, s1: Snapshot, top: Id, t: Target, image: map<Id, Id>, fileImage: map<Id, Id>,
                     size: nat, ids: seq<Id>, uid: Id, from: Id)
    requires TreeCopied(s0, s1, top, t, image, fileImage, size)
    requires from < s0.nextFolder && t.folder < s0.nextFolder && NoBytesFit(s0.files, ids, uid, from, t)
    ensures NoBytesFit(s1.files, ids, uid, from, t)
  {
    hide UniqueFiles, FoldersCopied, Sum;
    SameChoice(s0, s1, top, t, image, fileImage, size, ids, uid, from);
  }

  /** Otherwise it depends on the order in which the database returns the files: a file that fits may come
      first, and then its bytes have been copied when another one fails. */
  lemma OrderDecides(s: Snapshot, ids: seq<Id>, uid: Id, from: Id, t: Target, i: Id)
    requires i in Chosen(s.files, ids, uid, from) && s.nextFile !in s.files
    requires !FileConflict(s.files, FileImage(s.files[i], map[from := t.folder], t.owner, t.name))
    ensures var copy := FileImage(s.files[i], map[from := t.folder], t.owner, t.name);
            SomeCopied(s, s.(files := s.files[s.nextFile := copy], nextFile := s.nextFile + 1), ids, uid, from, t,
                       map[i := s.nextFile], s.files[i].size)
  {
    hide Sum, FilesCopied;
    var g, n, into := s.files, s.nextFile, map[from := t.folder];
    var copy := FileImage(g[i], into, t.owner, t.name);
    NoFileCopied(g, n, into, t.owner, t.name);
    FileCopiedToo(g, g, n, n, into, t.owner, t.name, map[], i);
    CopyCharged(g, g, t.owner, map[], i, n, copy);
    assert CopiedSizes(g, map[i := n]) == map[i := g[i].size];
    SumAdd(map[], i, g[i].size);
  }
}
