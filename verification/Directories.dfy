/** Creating a directory with the directories above it: pkg/filesystem/manage.go. */
module Directories {
  import opened Database
  import opened FolderPaths
  import opened Names
  import opened Tables
  import opened TreeCopy
  import opened TreeMove
  import opened Validator
  import opened Wrappers

  /** strings.TrimRight(s, " "). */
  function TrimRight(s: string): string {
    if s != "" && s[|s| - 1] == ' ' then TrimRight(s[..|s| - 1]) else s
  }

  /** What is cut off is the spaces at the end, and all of them. */
  lemma {:induction false} TrimRightMeans(s: string) returns (n: nat)
    ensures n <= |s| && TrimRight(s) == s[..n] && (n > 0 ==> s[n - 1] != ' ')
    ensures forall i :: n <= i < |s| ==> s[i] == ' '
  {
    if s != "" && s[|s| - 1] == ' ' {
      n := TrimRightMeans(s[..|s| - 1]);
      assert s[..|s| - 1][..n] == s[..n];
    } else {
      n := |s|;
      assert s[..n] == s;
    }
  }

  // ---- what a path asks for ----

  /** The names lead somewhere. */
  ghost predicate There(f: Folders, uid: Id, preset: Option<Id>, es: seq<string>) {
    exists id :: LeadsTo(f, uid, preset, es, id)
  }

  /** The directory at position k is missing, or it is the last: then it may also be found. */
  ghost predicate Wanted(f: Folders, uid: Id, preset: Option<Id>, es: seq<string>, k: int) {
    0 <= k < |es| && (k == |es| - 1 || !There(f, uid, preset, es[..k + 1]))
  }

  /** The path that is created: a directory that is wanted gets its name without the spaces at its end. */
  ghost function Corrected(f: Folders, uid: Id, preset: Option<Id>, es: seq<string>): (c: seq<string>)
    ensures |c| == |es|
  {
    seq(|es|, k requires 0 <= k < |es| => if Wanted(f, uid, preset, es, k) then TrimRight(es[k]) else es[k])
  }

  /** A file in the parent, or a folder of somebody else, has the name. */
  ghost predicate Taken(f: Folders, g: Files, uid: Id, parent: Id, name: string) {
    || NameIn(g, parent, name)
    || exists i :: i in f && f[i].parent == Some(parent) && f[i].name == name && f[i].owner != uid
  }

  /** The last directory of the path may be made: its name is legal, and free in the directory above. */
  ghost predicate MayBeMade(f: Folders, g: Files, uid: Id, preset: Option<Id>, c: seq<string>)
    requires c != []
  {
    && LegalName(c[|c| - 1])
    && var front := c[..|c| - 1];
       forall p :: LeadsTo(f, uid, preset, front, p) ==> !Taken(f, g, uid, p, c[|c| - 1])
  }

  /** The walk has a start, and all directories that are wanted may be made. */
  ghost predicate Creatable(f: Folders, g: Files, uid: Id, preset: Option<Id>, es: seq<string>) {
    && There(f, uid, preset, [])
    && forall k :: Wanted(f, uid, preset, es, k) ==>
         MayBeMade(f, g, uid, preset, Corrected(f, uid, preset, es)[..k + 1])
  }

  /** The path of a directory that is looked up, and created if it is not found. */
  ghost function Looked(f: Folders, uid: Id, preset: Option<Id>, es: seq<string>): (c: seq<string>)
    ensures |c| == |es|
  {
    if There(f, uid, preset, es) then es else Corrected(f, uid, preset, es)
  }

  lemma FrontThere(f: Folders, uid: Id, preset: Option<Id>, es: seq<string>, n: nat)
    requires n <= |es| && There(f, uid, preset, es)
    ensures There(f, uid, preset, es[..n])
  {
    hide LeadsTo;
    var id :| LeadsTo(f, uid, preset, es, id);
    var at := FrontLeads(f, uid, preset, es, n, id);
  }

  /** What is wanted of a path, but for its end, is what is wanted of the path above, if that is not there. */
  lemma WantedAbove(f: Folders, uid: Id, preset: Option<Id>, es: seq<string>, k: nat)
    requires k < |es| - 1
    ensures var front := es[..|es| - 1];
            Wanted(f, uid, preset, es, k) <==> !There(f, uid, preset, front) && Wanted(f, uid, preset, front, k)
  {
    hide There;
    var front := es[..|es| - 1];
    assert front[..k + 1] == es[..k + 1] && front[..|front|] == front;
    if There(f, uid, preset, front) {
      FrontThere(f, uid, preset, front, k + 1);
    }
  }

  /** The path created is the path above, as it is looked up and created, and the name without spaces. */
  lemma CorrectedAbove(f: Folders, uid: Id, preset: Option<Id>, es: seq<string>)
    requires es != []
    ensures Corrected(f, uid, preset, es) == Looked(f, uid, preset, es[..|es| - 1]) + [TrimRight(es[|es| - 1])]
  {
    hide There;
    var last := |es| - 1;
    var c := Looked(f, uid, preset, es[..last]) + [TrimRight(es[last])];
    forall k | 0 <= k < |es|
      ensures Corrected(f, uid, preset, es)[k] == c[k]
    {
      if k < last {
        hide Wanted;
        WantedAbove(f, uid, preset, es, k);
      }
    }
  }

  /** A directory can be created exactly if the one above is there or can be created, and if it may itself
      be made. */
  lemma CreatableAbove(f: Folders, g: Files, uid: Id, preset: Option<Id>, es: seq<string>)
    requires es != []
    ensures var front := es[..|es| - 1];
            Creatable(f, g, uid, preset, es) <==>
            && (There(f, uid, preset, front) || Creatable(f, g, uid, preset, front))
            && MayBeMade(f, g, uid, preset, Corrected(f, uid, preset, es))
  {
    hide There, Corrected, MayBeMade;
    var front, c := es[..|es| - 1], Corrected(f, uid, preset, es);
    CorrectedAbove(f, uid, preset, es);
    assert c[..|es|] == c && Wanted(f, uid, preset, es, |es| - 1);
    if There(f, uid, preset, front) {
      FrontThere(f, uid, preset, front, 0);
    }
    forall k | 0 <= k < |es| - 1
      ensures Wanted(f, uid, preset, es, k) <==> !There(f, uid, preset, front) && Wanted(f, uid, preset, front, k)
      ensures !There(f, uid, preset, front) ==> Corrected(f, uid, preset, front)[..k + 1] == c[..k + 1]
    {
      WantedAbove(f, uid, preset, es, k);
      assert c[..|es| - 1][..k + 1] == c[..k + 1];
    }
  }

  /** The path is created as it stands exactly if no directory that is wanted has a space at its end. */
  lemma UnchangedIff(f: Folders, uid: Id, preset: Option<Id>, es: seq<string>)
    ensures Corrected(f, uid, preset, es) == es <==>
            forall k :: Wanted(f, uid, preset, es, k) ==> TrimRight(es[k]) == es[k]
  {
    hide There, TrimRight;
    var c := Corrected(f, uid, preset, es);
    assert c == es <==> forall k :: 0 <= k < |es| ==> c[k] == es[k];
  }

  // ---- what is added ----

  /** Folders of the user were added, none of them a root. */
  ghost predicate Added(f0: Folders, f1: Folders, next: Id, uid: Id) {
    && (forall id :: id in f0 ==> id in f1 && f1[id] == f0[id])
    && (forall id :: id in f1 && id !in f0 ==> id >= next && f1[id].owner == uid && f1[id].parent.Some?)
  }

  /** Some front of the path leads to the folder. */
  ghost predicate OnPath(f: Folders, uid: Id, preset: Option<Id>, c: seq<string>, id: Id) {
    exists k :: 0 <= k <= |c| && LeadsTo(f, uid, preset, c[..k], id)
  }

  /** Only folders on the path are new. */
  ghost predicate Made(f0: Folders, f1: Folders, uid: Id, preset: Option<Id>, c: seq<string>) {
    forall id :: id in f1 && id !in f0 ==> OnPath(f1, uid, preset, c, id)
  }

  lemma AddedKeepsRoots(f0: Folders, f1: Folders, next: Id, uid: Id)
    requires Added(f0, f1, next, uid)
    ensures SameRoots(f0, f1)
  {
  }

  lemma RootsStay(f: Folders)
    ensures SameRoots(f, f)
  {
  }

  lemma AddedTwice(f0: Folders, f1: Folders, f2: Folders, next0: Id, next1: Id, uid: Id)
    requires Added(f0, f1, next0, uid) && Added(f1, f2, next1, uid) && next0 <= next1
    ensures Added(f0, f2, next0, uid)
  {
  }

  lemma {:induction false} LeadsGrown(f0: Folders, f1: Folders, next: Id, uid: Id, preset: Option<Id>, es: seq<string>,
                                      id: Id)
    requires Added(f0, f1, next, uid) && LeadsTo(f0, uid, preset, es, id)
    ensures LeadsTo(f1, uid, preset, es, id)
    decreases |es|
  {
    if es == [] {
      StartLeads(f0, uid, preset, id);
      StartLeads(f1, uid, preset, id);
    } else {
      hide LeadsTo;
      LeadsToChild(f0, uid, preset, es, id);
      LeadsGrown(f0, f1, next, uid, preset, es[..|es| - 1], f0[id].parent.value);
      LeadsToChild(f1, uid, preset, es, id);
    }
  }

  /** The new folder is the end of the path, and every other new one is on it. */
  lemma MadeOneMore(f0: Folders, f1: Folders, f2: Folders, next: Id, uid: Id, preset: Option<Id>, c: seq<string>, p: Id,
                    r: Id)
    requires c != [] && Made(f0, f1, uid, preset, c[..|c| - 1]) && LeadsTo(f1, uid, preset, c[..|c| - 1], p) && p in f1
    requires Added(f1, f2, next, uid) && f2.Keys <= f1.Keys + {r}
    requires r in f2 && f2[r].parent == Some(p) && f2[r].name == c[|c| - 1] && f2[r].owner == f1[p].owner
    ensures Made(f0, f2, uid, preset, c) && LeadsTo(f2, uid, preset, c, r)
  {
    hide LeadsTo;
    var last := |c| - 1;
    LeadsGrown(f1, f2, next, uid, preset, c[..last], p);
    LeadsToChild(f2, uid, preset, c, r);
    assert c[..|c|] == c;
    forall id | id in f2 && id !in f0 && id != r
      ensures OnPath(f2, uid, preset, c, id)
    {
      var k :| 0 <= k <= last && LeadsTo(f1, uid, preset, c[..last][..k], id);
      assert c[..last][..k] == c[..k];
      LeadsGrown(f1, f2, next, uid, preset, c[..k], id);
    }
  }

  /** In a parent that has just been made nothing has a name yet, so what decides is the folders that were
      there before. */
  lemma FreeInNew(f0: Folders, f1: Folders, g: Files, next: Id, nextFile: Id, uid: Id, preset: Option<Id>,
                  c: seq<string>, p: Id)
    requires c != [] && FoldersSound(f0, next) && FilesSound(g, nextFile, next) && Added(f0, f1, next, uid)
    requires UniqueFolders(f1) && LeadsTo(f1, uid, preset, c[..|c| - 1], p) && (f1 == f0 || p !in f0) && p in f1
    ensures MayBeMade(f0, g, uid, preset, c) <==>
            LegalName(c[|c| - 1]) && !Taken(f1, g, uid, p, c[|c| - 1])
    ensures p !in f0 ==> !Taken(f1, g, uid, p, c[|c| - 1])
  {
    hide LeadsTo, LegalName, UniqueFolders;
    var front, name := c[..|c| - 1], c[|c| - 1];
    forall q | LeadsTo(f0, uid, preset, front, q)
      ensures q == p && q in f0
    {
      LeadsGrown(f0, f1, next, uid, preset, front, q);
      LeadsToOne(f1, uid, preset, front, p, q);
      LeadsIn(f0, uid, preset, front, q);
    }
    if p !in f0 {
      assert !Taken(f1, g, uid, p, name);
      assert forall q :: !LeadsTo(f0, uid, preset, front, q);
    } else {
      hide Taken;
      assert LeadsTo(f0, uid, preset, front, p);
    }
  }

  lemma LeadsIn(f: Folders, uid: Id, preset: Option<Id>, es: seq<string>, id: Id)
    requires LeadsTo(f, uid, preset, es, id)
    ensures id in f
  {
  }

  /** The user's folder, if there is one. */
  ghost predicate Owned(f: Folders, uid: Id, folder: Option<Id>) {
    folder.Some? ==> folder.value in f && f[folder.value].owner == uid
  }

  /** What it means to find or create the directory c, in folders f0 and files g, with the result r. */
  ghost predicate Provided(f0: Folders, f1: Folders, next: Id, uid: Id, preset: Option<Id>, c: seq<string>,
                           r: Option<Id>) {
    && Added(f0, f1, next, uid)
    && if r.None? then f1 == f0
       else
         && r.value in f1 && f1[r.value].owner == uid && LeadsTo(f1, uid, preset, c, r.value)
         && Made(f0, f1, uid, preset, c) && (f1 == f0 || r.value !in f0)
  }

  lemma NothingMade(f: Folders, next: Id, uid: Id, preset: Option<Id>, c: seq<string>, r: Option<Id>)
    requires r.Some? ==> LeadsTo(f, uid, preset, c, r.value) && Owned(f, uid, r)
    ensures Provided(f, f, next, uid, preset, c, r)
  {
  }

  /** Finds or creates a directory in its parent, where no file may have its name. */
  method AddDirectory(db: DB, uid: Id, dir: string, parent: Id) returns (r: Option<Id>)
    requires db.Valid() && uid > 0 && dir != "" && Owned(db.folders, uid, Some(parent))
    modifies db`folders, db`nextFolder
    ensures db.Valid() && old(db.nextFolder) <= db.nextFolder
    ensures Added(old(db.folders), db.folders, old(db.nextFolder), uid)
    ensures r.Some? <==> !Taken(old(db.folders), db.files, uid, parent, dir)
    ensures r.Some? ==> !NameIn(db.files, parent, dir)
    ensures r.None? ==> db.folders == old(db.folders)
    ensures r.Some? ==> r.value in db.folders && db.folders[r.value] == Folder(dir, Some(parent), uid)
                        && db.folders.Keys <= old(db.folders).Keys + {r.value}
                        && (db.folders == old(db.folders) || r.value !in old(db.folders))
    ensures Tidy(old(db.folders), db.files) ==> Tidy(db.folders, db.files)
  {
    hide Tidy, WellNamed, FilesSound;
    if NameIn(db.files, parent, dir) {
      return None;
    }
    ghost var row := Folder(dir, Some(parent), uid);
    LikeOrTaken(db.folders, db.files, db.nextFolder, uid, parent, dir);
    r := db.CreateFolder(dir, parent, uid);
  }

  /** A name is taken by a folder of somebody else exactly if there is a conflict and no folder like it. */
  lemma LikeOrTaken(f: Folders, g: Files, next: Id, uid: Id, parent: Id, dir: string)
    requires FoldersSound(f, next) && uid > 0 && dir != "" && !NameIn(g, parent, dir)
    ensures var row := Folder(dir, Some(parent), uid);
            Taken(f, g, uid, parent, dir) <==> FolderConflict(f, row) && !exists i :: i in f && Like(f[i], row)
    ensures forall i :: i in f && Like(f[i], Folder(dir, Some(parent), uid)) ==> f[i] == Folder(dir, Some(parent), uid)
  {
  }

  /** The parent of a directory: found by its path, or else created. */
  method FindOrMake(db: DB, uid: Id, preset: Option<Id>, es: seq<string>) returns (r: Option<Id>)
    requires db.Valid() && uid > 0 && Elements(es) && Owned(db.folders, uid, preset)
    modifies db`folders, db`nextFolder
    ensures db.Valid() && old(db.nextFolder) <= db.nextFolder
    ensures var f, g, next := old(db.folders), db.files, old(db.nextFolder);
            && (r.Some? <==> There(f, uid, preset, es) || Creatable(f, g, uid, preset, es))
            && Provided(f, db.folders, next, uid, preset, Looked(f, uid, preset, es), r)
    ensures Tidy(old(db.folders), db.files) ==> Tidy(db.folders, db.files)
    decreases |es|, 1
  {
    hide Tidy, FilesSound, FoldersSound, Elements, Name, LeadsTo, Creatable, Added, Made, Corrected;
    assert UniqueFolders(db.folders) by { SoundIsUnique(db.folders, db.nextFolder); }
    r := IsPathExist(db.folders, uid, preset, Name(es));
    SplitOfName(es);
    assert (["/"] + es)[1..] == es;
    if r.Some? {
      LeadsWithin(db.folders, uid, preset, es, r.value);
      NothingMade(db.folders, db.nextFolder, uid, preset, es, r);
    } else {
      r := MakeDirectory(db, uid, preset, es);
    }
  }

  lemma SoundIsUnique(f: Folders, next: Id)
    requires FoldersSound(f, next)
    ensures UniqueFolders(f) && forall id :: id in f ==> id < next
  {
  }

  lemma FrontElements(es: seq<string>)
    requires Elements(es) && es != []
    ensures Elements(es[..|es| - 1])
  {
  }

  lemma LegalIsNotEmpty(name: string)
    requires LegalName(name)
    ensures name != ""
  {
  }

  lemma StartIsThere(f: Folders, g: Files, next: Id, uid: Id, preset: Option<Id>, r: Option<Id>)
    requires if r.Some? then IsStart(f, uid, preset, r.value) else forall start :: !IsStart(f, uid, preset, start)
    requires Owned(f, uid, preset)
    ensures r.Some? <==> Creatable(f, g, uid, preset, [])
    ensures Provided(f, f, next, uid, preset, Corrected(f, uid, preset, []), r)
  {
    if r.Some? {
      StartLeads(f, uid, preset, r.value);
    }
  }

  lemma NotLegal(f: Folders, g: Files, next: Id, uid: Id, preset: Option<Id>, c: seq<string>)
    requires c != [] && !LegalName(c[|c| - 1])
    ensures !MayBeMade(f, g, uid, preset, c) && Provided(f, f, next, uid, preset, c, None)
  {
  }

  lemma ParentProvided(f: Folders, f1: Folders, g: Files, next: Id, nextFile: Id, uid: Id, preset: Option<Id>,
                       c: seq<string>, p: Id)
    requires c != [] && Provided(f, f1, next, uid, preset, c[..|c| - 1], Some(p)) && LegalName(c[|c| - 1])
    requires FoldersSound(f, next) && FilesSound(g, nextFile, next) && UniqueFolders(f1)
    ensures p in f1 && f1[p].owner == uid
    ensures MayBeMade(f, g, uid, preset, c) <==> !Taken(f1, g, uid, p, c[|c| - 1])
    ensures f1 != f ==> !Taken(f1, g, uid, p, c[|c| - 1])
  {
    hide FoldersSound, FilesSound, Added, Made, MayBeMade, Taken, UniqueFolders, LegalName, LeadsTo;
    FreeInNew(f, f1, g, next, nextFile, uid, preset, c, p);
  }

  lemma ChildProvided(f: Folders, f1: Folders, f2: Folders, next: Id, next1: Id, uid: Id, preset: Option<Id>,
                      c: seq<string>, p: Id, r: Option<Id>)
    requires c != [] && FoldersSound(f, next) && Provided(f, f1, next, uid, preset, c[..|c| - 1], Some(p))
    requires next <= next1 && Added(f1, f2, next1, uid)
    requires r.None? ==> f1 == f && f2 == f1
    requires r.Some? ==> r.value in f2 && f2[r.value] == Folder(c[|c| - 1], Some(p), uid)
                         && f2.Keys <= f1.Keys + {r.value} && (f2 == f1 || r.value !in f1)
    ensures Provided(f, f2, next, uid, preset, c, r)
  {
    hide LeadsTo;
    AddedTwice(f, f1, f2, next, next1, uid);
    if r.Some? {
      MadeOneMore(f, f1, f2, next1, uid, preset, c, p, r.value);
    }
  }

  /** No file beside the folder has its name. */
  ghost predicate NoFileLike(f: Folders, g: Files, id: Id) {
    id in f && f[id].parent.Some? && forall i :: i in g && g[i].folder == f[id].parent.value ==> g[i].name != f[id].name
  }

  /** Finds or creates the directory with these elements. Missing directories above it are created first;
      spaces at the end of a name are cut off. */
  method MakeDirectory(db: DB, uid: Id, preset: Option<Id>, es: seq<string>) returns (r: Option<Id>)
    requires db.Valid() && uid > 0 && Elements(es) && Owned(db.folders, uid, preset)
    modifies db`folders, db`nextFolder
    ensures db.Valid() && old(db.nextFolder) <= db.nextFolder
    ensures var f, g, next := old(db.folders), db.files, old(db.nextFolder);
            && (r.Some? <==> Creatable(f, g, uid, preset, es))
            && Provided(f, db.folders, next, uid, preset, Corrected(f, uid, preset, es), r)
    ensures r.Some? && es != [] ==> NoFileLike(db.folders, db.files, r.value)
    ensures Tidy(old(db.folders), db.files) ==> Tidy(db.folders, db.files)
    decreases |es|, 0
  {
    hide Tidy, FilesSound, FoldersSound, Elements, LeadsTo, Creatable, Added, Made, Corrected, TrimRight, Taken;
    hide LegalName, There, MayBeMade, Looked, UniqueFolders;
    ghost var f, g, next, c := db.folders, db.files, db.nextFolder, Corrected(db.folders, uid, preset, es);
    if es == [] {
      r := preset;
      if r.None? {
        r := GetRoot(db.folders, uid);
      }
      StartIsThere(f, g, next, uid, preset, r);
      return;
    }
    var dir, front := TrimRight(es[|es| - 1]), es[..|es| - 1];
    CreatableAbove(f, g, uid, preset, es);
    CorrectedAbove(f, uid, preset, es);
    if !LegalName(dir) {
      NotLegal(f, g, next, uid, preset, c);
      return None;
    }
    FrontElements(es);
    var parent := FindOrMake(db, uid, preset, front);
    if parent.None? {
      NothingMade(f, next, uid, preset, c, None);
      return None;
    }
    ghost var f1, next1 := db.folders, db.nextFolder;
    SoundIsUnique(f1, next1);
    LegalIsNotEmpty(dir);
    ParentProvided(f, f1, g, next, db.nextFile, uid, preset, c, parent.value);
    r := AddDirectory(db, uid, dir, parent.value);
    ChildProvided(f, f1, db.folders, next, next1, uid, preset, c, parent.value, r);
  }

  // ---- creating a directory by its path ----

  /** The path is rooted, names something, and that can be created. */
  ghost predicate DirectoryFits(f: Folders, g: Files, uid: Id, preset: Option<Id>, fullPath: string) {
    var es := Resolve(Split(fullPath));
    fullPath != "" && fullPath[0] == '/' && (es == [] ==> fullPath == "/") && Creatable(f, g, uid, preset, es)
  }

  lemma {:induction false} SameNames(f: Folders, uid: Id, preset: Option<Id>, a: seq<string>, b: seq<string>, id: Id)
    requires LeadsTo(f, uid, preset, a, id) && LeadsTo(f, uid, preset, b, id) && |a| == |b|
    ensures a == b
    decreases |a|
  {
    if a != [] {
      hide LeadsTo;
      var last := |a| - 1;
      LeadsToChild(f, uid, preset, a, id);
      LeadsToChild(f, uid, preset, b, id);
      SameNames(f, uid, preset, a[..last], b[..last], f[id].parent.value);
      assert a == a[..last] + [a[last]] && b == b[..last] + [b[last]];
    }
  }

  /** The path asked for leads to the directory exactly if it is the path created. */
  lemma FoundIff(f: Folders, uid: Id, preset: Option<Id>, c: seq<string>, es: seq<string>, id: Id)
    requires LeadsTo(f, uid, preset, c, id) && |c| == |es|
    ensures LeadsTo(f, uid, preset, es, id) <==> c == es
  {
    if LeadsTo(f, uid, preset, es, id) {
      SameNames(f, uid, preset, c, es, id);
    }
  }

  /** Names stay proper path elements exactly if those on the path created are. */
  lemma NamesKeptIff(f0: Folders, f1: Folders, next: Id, uid: Id, preset: Option<Id>, c: seq<string>, r: Option<Id>)
    requires Provided(f0, f1, next, uid, preset, c, r) && WellNamed(f0) && Owned(f0, uid, preset)
    ensures WellNamed(f1) <==> r.None? || Elements(c)
  {
    hide LeadsTo, Element;
    if r.Some? && WellNamed(f1) {
      forall k | 0 <= k < |c|
        ensures Element(c[k])
      {
        var at := FrontLeads(f1, uid, preset, c, k + 1, r.value);
        LeadsToChild(f1, uid, preset, c[..k + 1], at);
      }
    }
    if r.Some? && Elements(c) {
      forall id | id in f1 && id !in f0
        ensures Element(f1[id].name)
      {
        var k :| 0 <= k <= |c| && LeadsTo(f1, uid, preset, c[..k], id);
        if k == 0 {
          StartLeads(f1, uid, preset, id);
          assert false;
        }
        LeadsToChild(f1, uid, preset, c[..k], id);
      }
    }
  }

  /** They are exactly if none that is wanted becomes "." or "..". */
  lemma ElementsIff(f: Folders, g: Files, uid: Id, preset: Option<Id>, es: seq<string>)
    requires Elements(es) && Creatable(f, g, uid, preset, es)
    ensures Elements(Corrected(f, uid, preset, es)) <==>
            forall k :: Wanted(f, uid, preset, es, k) ==> TrimRight(es[k]) != "." && TrimRight(es[k]) != ".."
  {
    hide There, TrimRight;
    var c := Corrected(f, uid, preset, es);
    forall k | 0 <= k < |es|
      ensures Wanted(f, uid, preset, es, k) ==> c[k] == TrimRight(es[k]) && c[k] != "" && '/' !in c[k]
      ensures !Wanted(f, uid, preset, es, k) ==> Element(c[k])
    {
      if Wanted(f, uid, preset, es, k) {
        var front := c[..k + 1];
        assert MayBeMade(f, g, uid, preset, front) && front[|front| - 1] == c[k];
        NoSlash(c[k]);
      }
    }
  }

  lemma NoSlash(name: string)
    requires LegalName(name)
    ensures name != "" && '/' !in name
  {
    assert RESERVED[7] == '/';
  }

  /** Creates a directory by its path, or changes nothing. */
  method CreateDirectory(db: DB, uid: Id, preset: Option<Id>, fullPath: string) returns (r: Option<Id>)
    requires db.Valid() && uid > 0 && Owned(db.folders, uid, preset)
    modifies db`folders, db`nextFolder
    ensures db.Valid() && old(db.nextFolder) <= db.nextFolder
    ensures var f, es := old(db.folders), Resolve(Split(fullPath));
            var c := Corrected(f, uid, preset, es);
            && (r.Some? <==> DirectoryFits(f, db.files, uid, preset, fullPath))
            && Provided(f, db.folders, old(db.nextFolder), uid, preset, c, r)
            && (r.Some? ==> (LeadsTo(db.folders, uid, preset, es, r.value) <==> c == es))
            && (r.Some? && es != [] ==> NoFileLike(db.folders, db.files, r.value))
            && (WellNamed(f) ==> (WellNamed(db.folders) <==> r.None? || Elements(c)))
    ensures Tidy(old(db.folders), db.files) ==> Tidy(db.folders, db.files)
  {
    hide Tidy, WellNamed, LeadsTo, Made, FoldersSound, FilesSound, Resolve, Split, Added, Corrected, Creatable;
    hide Elements;
    ghost var f, next, es := db.folders, db.nextFolder, Resolve(Split(fullPath));
    ghost var c := Corrected(f, uid, preset, es);
    if fullPath == "" || fullPath[0] != '/' {
      NothingMade(f, next, uid, preset, c, None);
      return None;
    }
    SplitFieldsHaveNoSlash(fullPath);
    ResolveKeepsElements(Split(fullPath));
    var names := Resolve(Split(fullPath));
    if names == [] && fullPath != "/" {
      NothingMade(f, next, uid, preset, c, None);
      return None;
    }
    r := MakeDirectory(db, uid, preset, names);
    if r.Some? {
      FoundIff(db.folders, uid, preset, c, es, r.value);
    }
    if WellNamed(f) {
      NamesKeptIff(f, db.folders, next, uid, preset, c, r);
    }
  }

  /** Where the path created was there before, its folder is the one returned, and nothing was created. */
  lemma ExistingIsFound(f: Folders, f1: Folders, next: Id, uid: Id, preset: Option<Id>, c: seq<string>, r: Id, id: Id)
    requires Provided(f, f1, next, uid, preset, c, Some(r)) && UniqueFolders(f1) && LeadsTo(f, uid, preset, c, id)
    ensures r == id && f1 == f
  {
    hide LeadsTo, UniqueFolders;
    LeadsGrown(f, f1, next, uid, preset, c, id);
    LeadsToOne(f1, uid, preset, c, id, r);
    LeadsIn(f, uid, preset, c, id);
  }

  /** After a success a lookup of the path created finds exactly the folder returned. */
  lemma CreatedIsFound(f: Folders, uid: Id, preset: Option<Id>, c: seq<string>, id: Id)
    requires Elements(c) && UniqueFolders(f) && LeadsTo(f, uid, preset, c, id)
    ensures var list := FolderPaths.SplitPath(Name(c));
            list != [] && forall found :: LeadsTo(f, uid, preset, list[1..], found) <==> found == id
  {
    hide LeadsTo, UniqueFolders;
    SplitOfName(c);
    assert (["/"] + c)[1..] == c;
    forall found | LeadsTo(f, uid, preset, c, found)
      ensures found == id
    {
      LeadsToOne(f, uid, preset, c, found, id);
    }
  }

  // ---- a file in a directory that is created for it ----

  /** The directory fits, and if it is there no file in it has the name. */
  ghost predicate FileFits(f: Folders, g: Files, uid: Id, preset: Option<Id>, virtualPath: string, name: string) {
    var c := Corrected(f, uid, preset, Resolve(Split(virtualPath)));
    DirectoryFits(f, g, uid, preset, virtualPath) && forall p :: LeadsTo(f, uid, preset, c, p) ==> !NameIn(g, p, name)
  }

  /** A directory that was not there before has no file of this name. */
  lemma NameFreeIff(f: Folders, f1: Folders, g: Files, next: Id, nextFile: Id, uid: Id, preset: Option<Id>,
                    c: seq<string>, folder: Id, name: string)
    requires Provided(f, f1, next, uid, preset, c, Some(folder)) && FilesSound(g, nextFile, next) && UniqueFolders(f1)
    ensures NameIn(g, folder, name) <==> exists p :: LeadsTo(f, uid, preset, c, p) && NameIn(g, p, name)
    ensures NameIn(g, folder, name) ==> f1 == f
  {
    hide LeadsTo, UniqueFolders;
    forall p | LeadsTo(f, uid, preset, c, p)
      ensures p == folder && p in f
    {
      LeadsGrown(f, f1, next, uid, preset, c, p);
      LeadsToOne(f1, uid, preset, c, p, folder);
      LeadsIn(f, uid, preset, c, p);
    }
  }
}
