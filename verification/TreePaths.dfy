/** What a copy and a move do to rows and to paths: models/folder.go. */
module TreePaths {
  import opened Tables
  import opened FolderTree
  import opened TreeCopy
  import opened TreeMove
  import opened Wrappers

  /** What is copied or moved has the new name, if one is given. */
  function NewName(before: string, name: string): string {
    if name != "" then name else before
  }

  // ---- paths in a copied tree ----

  lemma {:induction false} LeadsIsLevel(f: Folders, top: Id, uid: Id, es: seq<string>, id: Id)
    requires Leads(f, top, es, id) && top in f && f[top].owner == uid
    ensures id in Level(f, {top}, uid, |es|)
    decreases |es|
  {
    if es != [] {
      LeadsIsLevel(f, top, uid, es[..|es| - 1], f[id].parent.value);
    }
  }

  /** Nothing leads from a new folder to an old one. */
  lemma {:induction false} LeadsFromOld(f0: Folders, f1: Folders, n0: Id, n1: Id, top: Id, t: Target,
                                        image: map<Id, Id>, start: Id, es: seq<string>, id: Id)
    requires FoldersCopied(f0, f1, n0, n1, top, t, image) && FoldersSound(f0, n0)
    requires Leads(f1, start, es, id) && id < n0
    ensures start < n0
    decreases |es|
  {
    if es != [] {
      assert id in f0 by {
        OldIsThere(f0, f1, n0, n1, top, t, image, id);
      }
      LeadsFromOld(f0, f1, n0, n1, top, t, image, start, es[..|es| - 1], f1[id].parent.value);
    }
  }

  lemma OldIsThere(f0: Folders, f1: Folders, n0: Id, n1: Id, top: Id, t: Target, image: map<Id, Id>, id: Id)
    requires FoldersCopied(f0, f1, n0, n1, top, t, image) && id in f1
    ensures id < n0 ==> id in f0
    ensures id !in f0 ==> id in image.Values
  {
  }

  /** The limit of the listing does not matter for these names. */
  ghost predicate WithinReach(f: Folders, es: seq<string>) {
    |es| <= 65535 || Forest(f)
  }

  lemma NotBelowItself(f: Folders, top: Id, uid: Id, es: seq<string>)
    requires Leads(f, top, es, top) && f[top].owner == uid && !MetAgain(f, top, uid) && WithinReach(f, es)
    ensures es == []
  {
    LeadsIsLevel(f, top, uid, es, top);
    if es != [] && Forest(f) {
      assert top in Level(f, {top}, uid, 0);
      LevelsDisjoint(f, top, uid, 0, |es|);
    }
  }

  lemma {:induction false} LeadsInCopy(f0: Folders, f1: Folders, n0: Id, n1: Id, top: Id, t: Target,
                                       image: map<Id, Id>, uid: Id, es: seq<string>, id: Id)
    requires FoldersCopied(f0, f1, n0, n1, top, t, image) && FoldersSound(f0, n0) && t.folder < n0
    requires top in image && (forall x :: x in image ==> x in f0 && f0[x].owner == uid)
    requires !MetAgain(f0, top, uid) && WithinReach(f0, es) && id in image
    ensures Leads(f0, top, es, id) <==> Leads(f1, image[top], es, image[id])
    decreases |es|
  {
    assert Imaged(f0, f1, top, t, image, top) && Imaged(f0, f1, top, t, image, id);
    if es != [] {
      var front := es[..|es| - 1];
      if id == top {
        if Leads(f0, top, es, top) {
          NotBelowItself(f0, top, uid, es);
          assert false;
        }
        if Leads(f1, image[top], es, image[top]) {
          LeadsFromOld(f0, f1, n0, n1, top, t, image, image[top], front, t.folder);
          assert false;
        }
      } else {
        var p := f0[id].parent.value;
        assert Imaged(f0, f1, top, t, image, p);
        LeadsInCopy(f0, f1, n0, n1, top, t, image, uid, front, p);
      }
    }
  }

  lemma {:induction false} CopyLeadsToCopies(f0: Folders, f1: Folders, n0: Id, n1: Id, top: Id, t: Target,
                                             image: map<Id, Id>, es: seq<string>, id: Id)
    requires FoldersCopied(f0, f1, n0, n1, top, t, image) && FoldersSound(f0, n0) && top in image
    requires Leads(f1, image[top], es, id)
    ensures id in image.Values
  {
    if id < n0 {
      LeadsFromOld(f0, f1, n0, n1, top, t, image, image[top], es, id);
      assert false;
    }
    OldIsThere(f0, f1, n0, n1, top, t, image, id);
  }

  /** The copy of a tree hangs in the target under the new name, or its own if none is given. Names lead from
      it to the copy of a folder exactly if they lead from the original to that folder, and to nothing else;
      and every folder they lead to in 65535 steps has been copied. */
  ghost predicate SamePaths(f0: Folders, f1: Folders, top: Id, uid: Id, t: Target, image: map<Id, Id>) {
    if top !in f0 || f0[top].owner != uid then image == map[]
    else
      && top in image && image[top] in f1
      && f1[image[top]] == Folder(NewName(f0[top].name, t.name), Some(t.folder), t.owner)
      && (forall es, id :: id in image && WithinReach(f0, es) ==>
            (Leads(f0, top, es, id) <==> Leads(f1, image[top], es, image[id])))
      && (forall es, id :: Leads(f1, image[top], es, id) ==> id in image.Values)
      && (forall es, id :: |es| <= 65535 && Leads(f0, top, es, id) ==> id in image)
  }

  lemma CopyHasSamePaths(f0: Folders, f1: Folders, n0: Id, n1: Id, top: Id, t: Target, image: map<Id, Id>, uid: Id)
    requires FoldersCopied(f0, f1, n0, n1, top, t, image) && FoldersSound(f0, n0) && t.folder < n0
    requires TreeFits(f0, top, uid, t) && forall x :: x in image <==> Reached(f0, top, uid, x)
    ensures SamePaths(f0, f1, top, uid, t, image)
  {
    if top !in f0 || f0[top].owner != uid {
      NothingReached(f0, top, uid);
    } else {
      hide FoldersCopied, FoldersSound, TreeFits, UniqueFolders, Reached, Leads;
      ReachedTop(f0, top, uid);
      CopyHangs(f0, f1, n0, n1, top, t, image);
      assert !MetAgain(f0, top, uid) by { FitsOnce(f0, top, uid, t); }
      forall es, id | id in image && WithinReach(f0, es)
        ensures Leads(f0, top, es, id) <==> Leads(f1, image[top], es, image[id])
      {
        LeadsInCopy(f0, f1, n0, n1, top, t, image, uid, es, id);
      }
      forall es, id | Leads(f1, image[top], es, id)
        ensures id in image.Values
      {
        CopyLeadsToCopies(f0, f1, n0, n1, top, t, image, es, id);
      }
      forall es, id | |es| <= 65535 && Leads(f0, top, es, id)
        ensures id in image
      {
        LeadsIsLevel(f0, top, uid, es, id);
        LevelIsReached(f0, top, uid, |es|, id);
      }
    }
  }

  lemma CopyHangs(f0: Folders, f1: Folders, n0: Id, n1: Id, top: Id, t: Target, image: map<Id, Id>)
    requires FoldersCopied(f0, f1, n0, n1, top, t, image) && top in image
    ensures top in f0 && image[top] in f1
    ensures f1[image[top]] == Folder(NewName(f0[top].name, t.name), Some(t.folder), t.owner)
  {
    assert Imaged(f0, f1, top, t, image, top);
  }

  lemma FitsOnce(f: Folders, top: Id, uid: Id, t: Target)
    requires TreeFits(f, top, uid, t)
    ensures !MetAgain(f, top, uid)
  {
  }

  lemma LevelIsReached(f: Folders, top: Id, uid: Id, k: nat, id: Id)
    requires k <= 65535 && id in Level(f, {top}, uid, k)
    ensures Reached(f, top, uid, id)
  {
  }

  lemma ReachedTop(f: Folders, top: Id, uid: Id)
    requires top in f && f[top].owner == uid
    ensures Reached(f, top, uid, top) && forall x :: Reached(f, top, uid, x) ==> x in f && f[x].owner == uid
  {
    assert top in Level(f, {top}, uid, 0);
    forall x | Reached(f, top, uid, x)
      ensures x in f && f[x].owner == uid
    {
      var k: nat :| k <= MAX_ROUNDS && x in Level(f, {top}, uid, k);
      LevelInTable(f, {top}, uid, k);
    }
  }

  lemma NothingReached(f: Folders, top: Id, uid: Id)
    requires top !in f || f[top].owner != uid
    ensures forall x :: !Reached(f, top, uid, x)
  {
    forall x
      ensures !Reached(f, top, uid, x)
    {
      if Reached(f, top, uid, x) {
        var k: nat :| k <= MAX_ROUNDS && x in Level(f, {top}, uid, k);
        TopExists(f, top, uid, k);
        assert false;
      }
    }
  }

  // ---- rows ----

  /** Each of these folders has a copy of the target's owner: that of the top in the target, under the new name
      if one is given, and any other under its own name in the copy of its parent. The other rows are as they
      were. */
  ghost predicate FolderRows(f: Folders, f1: Folders, top: Id, t: Target, image: map<Id, Id>) {
    && (forall x :: x in f ==> x in f1 && f1[x] == f[x])
    && (forall c :: c in f1 && c !in f ==> c in image.Values)
    && (forall i, j :: i in image && j in image && i != j ==> image[i] != image[j])
    && (forall x :: x in image ==>
          && x in f && image[x] in f1 && image[x] !in f
          && if x == top then f1[image[x]] == Folder(NewName(f[x].name, t.name), Some(t.folder), t.owner)
             else
               && f[x].parent.Some? && f[x].parent.value in image
               && f1[image[x]] == Folder(f[x].name, Some(image[f[x].parent.value]), t.owner))
  }

  lemma FoldersAreRows(f: Folders, f1: Folders, n0: Id, n1: Id, top: Id, t: Target, image: map<Id, Id>)
    requires FoldersCopied(f, f1, n0, n1, top, t, image) && FoldersSound(f, n0)
    ensures FolderRows(f, f1, top, t, image)
  {
    forall x | x in image
      ensures x in f && image[x] in f1 && image[x] !in f
      ensures x == top ==> f1[image[x]] == Folder(NewName(f[x].name, t.name), Some(t.folder), t.owner)
      ensures x != top ==>
                && f[x].parent.Some? && f[x].parent.value in image
                && f1[image[x]] == Folder(f[x].name, Some(image[f[x].parent.value]), t.owner)
    {
      assert Imaged(f, f1, top, t, image, x);
    }
  }

  /** Each of these files has a copy in the folder that belongs to its own, with the same content and size;
      the other rows are as they were. */
  ghost predicate CopyRows(g: Files, g1: Files, into: map<Id, Id>, owner: Id, name: string, image: map<Id, Id>) {
    && (forall i :: i in g ==> i in g1 && g1[i] == g[i])
    && (forall c :: c in g1 && c !in g ==> c in image.Values)
    && (forall i, j :: i in image && j in image && i != j ==> image[i] != image[j])
    && (forall i :: i in image ==>
          && i in g && g[i].folder in into && image[i] in g1 && image[i] !in g
          && g1[image[i]] == File(NewName(g[i].name, name), g[i].source, owner, g[i].size, into[g[i].folder],
                                  g[i].policy, None))
  }

  lemma CopiesAreRows(g: Files, g1: Files, n0: Id, n1: Id, into: map<Id, Id>, owner: Id, name: string,
                      image: map<Id, Id>)
    requires FilesCopied(g, g1, n0, n1, into, owner, name, image) && forall i :: i in g ==> i < n0
    ensures CopyRows(g, g1, into, owner, name, image)
  {
    forall i | i in image
      ensures i in g && g[i].folder in into && image[i] in g1 && image[i] !in g
      ensures g1[image[i]] == File(NewName(g[i].name, name), g[i].source, owner, g[i].size, into[g[i].folder],
                                   g[i].policy, None)
    {
      assert FileImaged(g, g1, into, owner, name, image, i);
    }
  }

  /** What was copied are the named files of the user in the folder from that are not being uploaded. */
  ghost predicate CopiesOf(g: Files, ids: seq<Id>, uid: Id, from: Id, image: map<Id, Id>) {
    forall i :: i in image <==>
      i in g && i in ids && g[i].user == uid && g[i].folder == from && g[i].session.None?
  }

  /** What was copied are the user's files in these folders that are not being uploaded. */
  ghost predicate CopiesIn(g: Files, uid: Id, folders: set<Id>, image: map<Id, Id>) {
    forall i :: i in image <==> i in g && g[i].user == uid && g[i].folder in folders && g[i].session.None?
  }

  /** Every named file of the user in the folder from is in the target folder now, under the new name if one
      is given; nothing else about it has changed, and nothing at all about other files. */
  ghost predicate FilesMoved(g: Files, g1: Files, ids: seq<Id>, uid: Id, from: Id, t: Target) {
    && g1.Keys == g.Keys
    && (forall i :: i in g ==>
          if i in ids && g[i].user == uid && g[i].folder == from then
            g1[i] == File(NewName(g[i].name, t.name), g[i].source, g[i].user, g[i].size, t.folder, g[i].policy,
                          g[i].session)
          else g1[i] == g[i])
    && (t.folder != from ==> forall i :: i in g1 && i in ids && g1[i].user == uid ==> g1[i].folder != from)
  }

  lemma MovedFilesAre(g: Files, ids: seq<Id>, uid: Id, from: Id, t: Target)
    ensures FilesMoved(g, MovedFiles(g, ids, uid, from, t), ids, uid, from, t)
  {
  }

  /** The same for folders. */
  ghost predicate FoldersMoved(f: Folders, f1: Folders, ids: seq<Id>, uid: Id, from: Id, t: Target) {
    && f1.Keys == f.Keys
    && (forall i :: i in f ==>
          if i in ids && f[i].owner == uid && f[i].parent == Some(from) then
            f1[i] == Folder(NewName(f[i].name, t.name), Some(t.folder), f[i].owner)
          else f1[i] == f[i])
    && (t.folder != from ==> forall i :: i in f1 && i in ids && f1[i].owner == uid ==> f1[i].parent != Some(from))
  }

  lemma MovedFoldersAre(f: Folders, ids: seq<Id>, uid: Id, from: Id, t: Target)
    ensures FoldersMoved(f, Moved(f, Reach(f, SetOf(ids), uid, from), t), ids, uid, from, t)
  {
  }
}
