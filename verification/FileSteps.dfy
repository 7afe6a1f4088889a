/** What the operations of the file system do to tables, storage and objects:
    pkg/filesystem/manage.go, pkg/filesystem/upload.go, pkg/filesystem/hooks.go. */
module FileSteps {
  import opened Accounts
  import opened Deletion
  import opened Directories
  import opened FolderTree
  import opened Names
  import opened Objects
  import opened Tables
  import opened TreeCopy
  import opened TreeMove
  import opened TreePaths
  import opened Validator
  import opened Wrappers

  /** The whole file system at one moment. */
  datatype World = World(now: Snapshot, storage: Storage, objects: Store)

  // ---- uploading whole files ----

  /** There is room for this many more bytes of the user. */
  predicate Room(storage: Storage, uid: Id, size: nat, max: nat) {
    uid in storage && size <= if max <= storage[uid] then 0 else max - storage[uid]
  }

  /** The size fits the quota. */
  ghost predicate HasRoom(storage: Storage, uid: Id, size: nat, max: nat) {
    uid in storage && (size > 0 ==> storage[uid] + size <= max)
  }

  lemma RoomIff(storage: Storage, uid: Id, size: nat, max: nat)
    ensures Room(storage, uid, size, max) <==> HasRoom(storage, uid, size, max)
  {
  }

  /** A file was recorded in the directory of a path that was found or created, or, exactly if one of the
      two does not fit, nothing was. */
  ghost predicate Filed(w0: World, w1: World, name: string, uid: Id, preset: Option<Id>, virtualPath: string,
                        policy: Id, path: string, length: nat, r: Option<Id>) {
    var f, g := w0.now.folders, w0.now.files;
    var f1, g1, c := w1.now.folders, w1.now.files, Corrected(f, uid, preset, Resolve(Split(virtualPath)));
    if !FileFits(f, g, uid, preset, virtualPath, name) then
      r.None? && f1 == f && g1 == g && w1.storage == w0.storage
    else
      && r == Some(w0.now.nextFile) && r.value !in g && r.value in g1
      && g1[r.value] == File(name, path, uid, length, g1[r.value].folder, policy, None)
      && g1 == g[r.value := g1[r.value]] && w1.storage == Change(w0.storage, uid, length)
      && Provided(f, f1, w0.now.nextFolder, uid, preset, c, Some(g1[r.value].folder))
  }

  /** A new object was stored at the path and recorded, exactly if nothing was there, all of it arrived, and it
      could be recorded. What arrives of a body that breaks off stays. */
  ghost predicate Stored(w0: World, w1: World, name: string, uid: Id, preset: Option<Id>, virtualPath: string,
                         policy: Id, path: string, body: Content, length: nat, r: Option<Id>) {
    var key, free := Key(policy, path), Key(policy, path) !in w0.objects;
    && (if free && |body| == length then Filed(w0, w1, name, uid, preset, virtualPath, policy, path, length, r)
        else r.None? && w1.(objects := w0.objects) == w0)
    && w1.objects == if r.Some? || (free && |body| < length) then w0.objects[key := body] else w0.objects
  }

  /** A new file was uploaded: nothing has happened unless the policy accepts it and there is room for it. */
  ghost predicate Uploaded(w0: World, w1: World, name: string, uid: Id, preset: Option<Id>, virtualPath: string,
                           policy: Policy, path: string, body: Content, length: nat, max: nat, r: Option<Id>) {
    if Acceptable(policy, name, length) && HasRoom(w0.storage, uid, length, max) then
      Stored(w0, w1, name, uid, preset, virtualPath, policy.id, path, body, length, r)
    else r.None? && w1 == w0
  }

  /** No other record has the policy and the path of this one. */
  ghost predicate Alone(g: Files, id: Id)
    requires id in g
  {
    forall j :: j in g && j != id ==> g[j].policy != g[id].policy || g[j].source != g[id].source
  }

  lemma AloneIff(g: Files, id: Id)
    requires id in g
    ensures Alone(g, id) <==> !Shared(g, id, KeyOf(g[id]))
  {
    forall j | j in g
      ensures KeyOf(g[j]) == KeyOf(g[id]) <==> g[j].policy == g[id].policy && g[j].source == g[id].source
    {
    }
  }

  /** The user's file may get the new size; if its object is not its own, with a PUT of the file service
      nothing is at the generated path. */
  ghost predicate Writable(w: World, id: Id, uid: Id, policy: Policy, path: string, length: nat, max: nat,
                             webdav: bool) {
    var g := w.now.files;
    && id in g && g[id].user == uid && Acceptable(policy, g[id].name, length)
    && (length > g[id].size ==> HasRoom(w.storage, uid, length, max))
    && (Alone(g, id) || webdav || Key(g[id].policy, path) !in w.objects)
  }

  lemma WritableIff(w: World, id: Id, uid: Id, policy: Policy, path: string, length: nat, max: nat, webdav: bool)
    ensures var g := w.now.files;
            Writable(w, id, uid, policy, path, length, max, webdav) <==>
            && id in g && g[id].user == uid && Allowed(policy, g[id].name, length)
            && (length <= g[id].size || Room(w.storage, uid, length, max))
            && (Shared(g, id, KeyOf(g[id])) && !webdav ==> Key(g[id].policy, path) !in w.objects)
  {
    hide Allowed, Acceptable, Alone, Shared;
    if id in w.now.files {
      AllowedIff(policy, w.now.files[id].name, length);
      AloneIff(w.now.files, id);
    }
  }

  /** A file was overwritten by body, exactly if it may be and all of it arrived. */
  ghost predicate Overwritten(w0: World, w1: World, id: Id, uid: Id, policy: Policy, path: string, body: Content,
                              length: nat, max: nat, webdav: bool, ok: bool) {
    var may, g := Writable(w0, id, uid, policy, path, length, max, webdav), w0.now.files;
    && (ok <==> may && |body| == length)
    && w1.now == (if ok then w0.now.(files := Written(g, id, WriteTo(g, id, path), length)) else w0.now)
    && w1.storage == (if ok then Change(w0.storage, uid, length - g[id].size) else w0.storage)
    && w1.objects == (if may then w0.objects[Key(g[id].policy, WriteTo(g, id, path)) := body] else w0.objects)
  }

  // ---- copying and moving ----

  /** What was copied: a tree of folders with its files, of size a, and after that files, of size b. */
  datatype Copies = Copies(folderImage: map<Id, Id>, image0: map<Id, Id>, a: nat, mid: Snapshot,
                           image1: map<Id, Id>, b: nat)

  /** The tree was copied, of this size: all of it exactly if it fits, and otherwise no file. */
  ghost predicate TreeDone(s0: Snapshot, s1: Snapshot, top: Id, uid: Id, t: Target, folderImage: map<Id, Id>,
                           image: map<Id, Id>, size: nat, ok: bool) {
    && TreeCopied(s0, s1, top, t, folderImage, image, size)
    && FolderRows(s0.folders, s1.folders, top, t, folderImage)
    && CopyRows(s0.files, s1.files, folderImage, t.owner, "", image)
    && (ok <==> TreeFits(s0.folders, top, uid, t))
    && (if ok then
          && WholeTree(s0, top, uid, folderImage, image) && size == TreeBytes(s0.folders, s0.files, top, uid)
          && SamePaths(s0.folders, s1.folders, top, uid, t, folderImage)
          && CopiesIn(s0.files, uid, folderImage.Keys, image)
        else image == map[] && size == 0)
  }

  /** Files of the folder from were copied, of this size: all of them exactly if they fit. */
  ghost predicate SomeDone(s0: Snapshot, s1: Snapshot, ids: seq<Id>, uid: Id, from: Id, t: Target,
                           image: map<Id, Id>, size: nat, ok: bool) {
    && SomeCopied(s0, s1, ids, uid, from, t, image, size)
    && CopyRows(s0.files, s1.files, map[from := t.folder], t.owner, t.name, image)
    && (ok <==> SomeFit(s0.files, ids, uid, from, t))
    && (ok ==> CopiesOf(s0.files, ids, uid, from, image))
  }

  /** The tree of the first folder was copied, and then, if it fits, files of the folder from. */
  ghost predicate CopiedBoth(s0: Snapshot, s1: Snapshot, dirs: seq<Id>, ids: seq<Id>, uid: Id, from: Id, t: Target,
                             c: Copies, ok: bool) {
    var fits := dirs == [] || TreeFits(s0.folders, dirs[0], uid, t);
    && (ok <==> CopyFits(s0.folders, s0.files, dirs, ids, uid, from, t))
    && (if dirs != [] then TreeDone(s0, c.mid, dirs[0], uid, t, c.folderImage, c.image0, c.a, fits)
        else c.mid == s0 && c.image0 == map[] && c.a == 0)
    && (if ids != [] && fits then
          && SomeDone(c.mid, s1, ids, uid, from, t, c.image1, c.b, ok)
          && (ok ==> CopiesOf(s0.files, ids, uid, from, c.image1))
        else s1 == c.mid && c.image1 == map[] && c.b == 0)
  }

  /** A tree that was copied first makes no difference to which files are copied next. */
  lemma AfterTree(s0: Snapshot, s1: Snapshot, top: Id, uid: Id, t: Target, folderImage: map<Id, Id>,
                  image: map<Id, Id>, size: nat, ok: bool, ids: seq<Id>, from: Id)
    requires TreeDone(s0, s1, top, uid, t, folderImage, image, size, ok)
    requires from < s0.nextFolder && t.folder < s0.nextFolder
    ensures SomeFit(s1.files, ids, uid, from, t) <==> SomeFit(s0.files, ids, uid, from, t)
    ensures NoBytesFit(s0.files, ids, uid, from, t) ==> NoBytesFit(s1.files, ids, uid, from, t)
    ensures forall m :: CopiesOf(s1.files, ids, uid, from, m) ==> CopiesOf(s0.files, ids, uid, from, m)
    ensures size == if ok then TreeBytes(s0.folders, s0.files, top, uid) else 0
    ensures ok <==> TreeFits(s0.folders, top, uid, t)
  {
    hide TreeCopied, FolderRows, CopyRows, WholeTree, SamePaths, CopiesIn, SomeFit, NoBytesFit;
    SameChoice(s0, s1, top, t, folderImage, image, size, ids, uid, from);
    if NoBytesFit(s0.files, ids, uid, from, t) {
      SameBytesFit(s0, s1, top, t, folderImage, image, size, ids, uid, from);
    }
    forall m: map<Id, Id> | CopiesOf(s1.files, ids, uid, from, m)
      ensures CopiesOf(s0.files, ids, uid, from, m)
    {
      ChosenAre(s1.files, ids, uid, from, m);
      ChosenAre(s0.files, ids, uid, from, m);
    }
  }

  lemma ChosenAre(g: Files, ids: seq<Id>, uid: Id, from: Id, image: map<Id, Id>)
    ensures CopiesOf(g, ids, uid, from, image) <==> image.Keys == Chosen(g, ids, uid, from)
  {
  }

  /** A shared tree, or else a shared file, was copied: all of it exactly if it fits, and otherwise no file. */
  ghost predicate Saved(s0: Snapshot, s1: Snapshot, dir: Option<Id>, file: Row, owner: Id, t: Target,
                        folderImage: map<Id, Id>, image: map<Id, Id>, size: nat, ok: bool) {
    if dir.Some? then TreeDone(s0, s1, dir.value, owner, t, folderImage, image, size, ok)
    else
      && SomeDone(s0, s1, [file.id], file.file.user, file.file.folder, t, image, size, ok)
      && (!ok ==> image == map[])
  }

  /** Folders were moved, exactly if the guard passes and their names are free, and then files, exactly if
      their names are free too. */
  ghost predicate MovedBoth(s0: Snapshot, s1: Snapshot, dirs: seq<Id>, ids: seq<Id>, uid: Id, from: Id, t: Target,
                            foldersMoved: bool, ok: bool) {
    var f, g, moved := s0.folders, s0.files, Reach(s0.folders, SetOf(dirs), uid, from);
    && (foldersMoved <==> !Guarded(SetOf(dirs), uid, t) && UniqueFolders(Moved(f, moved, t)))
    && (ok <==> foldersMoved && UniqueFiles(MovedFiles(g, ids, uid, from, t)))
    && s1.folders == (if foldersMoved then Moved(f, moved, t) else f)
    && s1.files == (if ok then MovedFiles(g, ids, uid, from, t) else g)
    && (foldersMoved ==> FoldersMoved(f, s1.folders, dirs, uid, from, t))
    && (ok ==> FilesMoved(g, s1.files, ids, uid, from, t))
  }

  // ---- deleting ----

  /** What was deleted: the files listed, the folders, and the levels of the listing. */
  datatype Listed = Listed(targets: seq<Row>, folders: seq<Id>, levels: seq<seq<Id>>)

  /** Folders with all they hold and files were listed; the objects of theirs that nobody shares and that
      the drivers can delete are gone; and the records went, or were refused. */
  ghost predicate Deleted(w0: World, w1: World, dirs: seq<Id>, ids: seq<Id>, uid: Id, force: bool, unlink: bool,
                          outage: Outage, l: Listed, result: DeleteResult) {
    var f, g := w0.now.folders, w0.now.files;
    && Listing(f, SetOf(dirs), uid, l.levels) && (forall x :: x in Flatten(l.levels) ==> x in f)
    && l.folders == WithoutRoot(f, Flatten(l.levels)) && Targets(g, l.targets, l.folders, ids, uid)
    && w1.objects == w0.objects - Going(g, l.targets, unlink, outage)
    && Ended(result, f, g, w0.storage, w1.now.folders, w1.now.files, w1.storage,
             Dropped(g, l.targets, force, unlink, outage), l.targets, l.folders, uid)
    && (Placed(f, g) ==> (result == Refused <==> NamedTwice(g, l.folders, ids, uid, force, unlink, outage)))
  }

  // ---- what that means, row by row ----

  /** One record has the new size, and its own path or the generated one; nothing else about it has changed,
      and nothing about other records. */
  ghost predicate Replaced(g: Files, g1: Files, id: Id, path: string, length: nat) {
    && id in g && g1.Keys == g.Keys && (forall j :: j in g && j != id ==> g1[j] == g[j])
    && g1[id] == File(g[id].name, if Alone(g, id) then g[id].source else path, g[id].user, length, g[id].folder,
                      g[id].policy, g[id].session)
  }

  lemma WrittenIsReplaced(g: Files, id: Id, path: string, length: nat)
    requires id in g
    ensures Replaced(g, Written(g, id, WriteTo(g, id, path), length), id, path, length)
  {
    AloneIff(g, id);
  }

  /** The file lies in one of the folders, or is named and the user's; for user 0, or anybody's. */
  ghost predicate Aimed(g: Files, folders: seq<Id>, ids: seq<Id>, uid: Id, i: Id) {
    i in g && (g[i].folder in folders || (i in ids && (uid > 0 ==> g[i].user == uid)))
  }

  /** The file's object goes: nobody shares it, objects are to be removed, and its driver can. */
  ghost predicate ObjectGoes(g: Files, unlink: bool, outage: Outage, i: Id)
    requires i in g
  {
    Alone(g, i) && !unlink && g[i].policy !in outage.policies && Key(g[i].policy, g[i].source) !in outage.keys
  }

  /** The file's record goes: with force, or if its object goes, need not go, or is not to be removed. */
  ghost predicate RecordGoes(g: Files, force: bool, unlink: bool, outage: Outage, i: Id)
    requires i in g
  {
    force || unlink || !Alone(g, i) || ObjectGoes(g, unlink, outage, i)
  }

  /** A deletion, file by file, object by object and folder by folder. */
  ghost predicate DeletedRows(w0: World, w1: World, ids: seq<Id>, uid: Id, force: bool, unlink: bool, outage: Outage,
                              folders: seq<Id>, result: DeleteResult) {
    var f, g, f1, g1 := w0.now.folders, w0.now.files, w1.now.folders, w1.now.files;
    && (forall k :: k in w1.objects ==> k in w0.objects && w1.objects[k] == w0.objects[k])
    && (forall k :: k in w0.objects ==>
          (k !in w1.objects <==>
           exists i :: Aimed(g, folders, ids, uid, i) && Key(g[i].policy, g[i].source) == k
                       && ObjectGoes(g, unlink, outage, i)))
    && if result == Refused then f1 == f && g1 == g && w1.storage == w0.storage
       else
         && (forall i :: i in g1 ==> i in g && g1[i] == g[i])
         && (forall i :: i in g ==>
               (i !in g1 <==> Aimed(g, folders, ids, uid, i) && RecordGoes(g, force, unlink, outage, i)))
         && (forall x :: x in f1 ==> x in f && f1[x] == f[x])
         && (forall x :: x in f ==> (x !in f1 <==> result == AllDeleted && x in folders))
         && (result == AllDeleted <==>
             forall i :: Aimed(g, folders, ids, uid, i) ==> RecordGoes(g, force, unlink, outage, i))
  }

  lemma GoneIff(g: Files, rows: seq<Row>, folders: seq<Id>, ids: seq<Id>, uid: Id, unlink: bool, outage: Outage, k: Key)
    requires Targets(g, rows, folders, ids, uid)
    ensures k in Going(g, rows, unlink, outage) <==>
            exists i :: Aimed(g, folders, ids, uid, i) && Key(g[i].policy, g[i].source) == k
                        && ObjectGoes(g, unlink, outage, i)
  {
    TargetIds(g, rows, folders, ids, uid);
    if k in Going(g, rows, unlink, outage) {
      var r :| r in rows && !Shared(g, r.id, KeyOf(r.file)) && KeyOf(r.file) == k;
      AloneIff(g, r.id);
      assert r.id in IdsOf(rows) && Aimed(g, folders, ids, uid, r.id) && ObjectGoes(g, unlink, outage, r.id);
    }
    if i :| Aimed(g, folders, ids, uid, i) && Key(g[i].policy, g[i].source) == k && ObjectGoes(g, unlink, outage, i) {
      AloneIff(g, i);
      assert i in IdsOf(rows);
      var r :| r in rows && r.id == i;
      assert k in Sole(g, rows);
    }
  }

  lemma DroppedIff(g: Files, rows: seq<Row>, folders: seq<Id>, ids: seq<Id>, uid: Id, force: bool, unlink: bool,
                   outage: Outage, i: Id)
    requires Targets(g, rows, folders, ids, uid) && i in g
    ensures i in IdsOf(Dropped(g, rows, force, unlink, outage)) <==>
            Aimed(g, folders, ids, uid, i) && RecordGoes(g, force, unlink, outage, i)
  {
    hide Dropped, Goes;
    TargetIds(g, rows, folders, ids, uid);
    DroppedIds(g, rows, force, unlink, outage);
    AloneIff(g, i);
    if i in IdsOf(rows) {
      GoesIff(g, rows, i, force, unlink, outage);
      GoesMeans(g, i, force, unlink, outage);
    }
  }

  lemma DroppedIds(g: Files, rows: seq<Row>, force: bool, unlink: bool, outage: Outage)
    requires FreshRows(g, rows)
    ensures IdsOf(Dropped(g, rows, force, unlink, outage))
            == set i | i in IdsOf(rows) && KeyOf(g[i]) !in Excused(g, rows, force, unlink, outage)
  {
    WithoutIds(g, rows, Staying(g, rows, unlink, outage));
  }

  lemma GoesMeans(g: Files, i: Id, force: bool, unlink: bool, outage: Outage)
    requires i in g
    ensures Goes(g, i, force, unlink, outage) <==> RecordGoes(g, force, unlink, outage, i)
  {
    AloneIff(g, i);
  }

  lemma {:induction false} WithoutNone(rows: seq<Row>, keys: set<Key>)
    ensures |Without(rows, keys)| <= |rows|
    ensures |Without(rows, keys)| == |rows| <==> forall r :: r in rows ==> KeyOf(r.file) !in keys
  {
    if rows != [] {
      var n := |rows| - 1;
      WithoutNone(rows[..n], keys);
      assert rows == rows[..n] + [rows[n]];
    }
  }

  lemma AllDroppedIff(g: Files, rows: seq<Row>, folders: seq<Id>, ids: seq<Id>, uid: Id, force: bool, unlink: bool,
                      outage: Outage)
    requires Targets(g, rows, folders, ids, uid)
    ensures |Dropped(g, rows, force, unlink, outage)| == |rows| <==>
            forall i :: Aimed(g, folders, ids, uid, i) ==> RecordGoes(g, force, unlink, outage, i)
  {
    hide RecordGoes, Alone, ObjectGoes, Goes;
    TargetIds(g, rows, folders, ids, uid);
    WithoutNone(rows, Staying(g, rows, unlink, outage));
    forall i | i in IdsOf(rows)
      ensures RecordGoes(g, force, unlink, outage, i) <==> KeyOf(g[i]) !in Excused(g, rows, force, unlink, outage)
    {
      GoesIff(g, rows, i, force, unlink, outage);
      GoesMeans(g, i, force, unlink, outage);
    }
    forall i
      ensures Aimed(g, folders, ids, uid, i) <==> i in IdsOf(rows)
    {
    }
    assert force ==> forall i :: i in IdsOf(rows) ==> RecordGoes(g, force, unlink, outage, i);
  }

  lemma DeletedIsRows(w0: World, w1: World, dirs: seq<Id>, ids: seq<Id>, uid: Id, force: bool, unlink: bool,
                      outage: Outage, l: Listed, result: DeleteResult)
    requires Deleted(w0, w1, dirs, ids, uid, force, unlink, outage, l, result)
    ensures DeletedRows(w0, w1, ids, uid, force, unlink, outage, l.folders, result)
  {
    hide Listing, Flatten, WithoutRoot, Targets, Going, Dropped, Deletable, IdsOf, SizeOf, NamedTwice, Placed;
    hide Aimed, ObjectGoes, RecordGoes;
    var g := w0.now.files;
    forall k {
      GoneIff(g, l.targets, l.folders, ids, uid, unlink, outage, k);
    }
    forall i | i in g
      ensures i in IdsOf(Dropped(g, l.targets, force, unlink, outage)) <==>
              Aimed(g, l.folders, ids, uid, i) && RecordGoes(g, force, unlink, outage, i)
    {
      DroppedIff(g, l.targets, l.folders, ids, uid, force, unlink, outage, i);
    }
    AimedAreFiles(g, l.folders, ids, uid);
    AllDroppedIff(g, l.targets, l.folders, ids, uid, force, unlink, outage);
  }

  lemma AimedAreFiles(g: Files, folders: seq<Id>, ids: seq<Id>, uid: Id)
    ensures forall i :: Aimed(g, folders, ids, uid, i) ==> i in g
  {
  }

  /** Names lead, in 65535 steps at most, to the folder from one of these folders of the user. */
  ghost predicate BelowOne(f: Folders, dirs: seq<Id>, uid: Id, x: Id) {
    exists d, es :: d in dirs && d in f && f[d].owner == uid && |es| <= 65535 && Leads(f, d, es, x)
  }

  lemma {:induction false} LevelLeads(f: Folders, dirs: set<Id>, uid: Id, k: nat, x: Id)
    returns (d: Id, es: seq<string>)
    requires x in Level(f, dirs, uid, k)
    ensures d in dirs && d in f && f[d].owner == uid && |es| == k && Leads(f, d, es, x)
  {
    if k == 0 {
      d, es := x, [];
    } else {
      LevelInTable(f, dirs, uid, k - 1);
      var front;
      d, front := LevelLeads(f, dirs, uid, k - 1, f[x].parent.value);
      es := front + [f[x].name];
      assert es[..k - 1] == front;
    }
  }

  lemma {:induction false} LeadsToLevel(f: Folders, dirs: set<Id>, uid: Id, d: Id, es: seq<string>, x: Id)
    requires Leads(f, d, es, x) && d in dirs && d in f && f[d].owner == uid
    ensures x in Level(f, dirs, uid, |es|)
    decreases |es|
  {
    if es != [] {
      LeadsToLevel(f, dirs, uid, d, es[..|es| - 1], f[x].parent.value);
    }
  }

  /** What is listed is what lies below one of the folders, without the root. */
  lemma FoldersListedIff(f: Folders, dirs: seq<Id>, uid: Id, levels: seq<seq<Id>>, x: Id)
    requires Listing(f, SetOf(dirs), uid, levels) && (forall y :: y in Flatten(levels) ==> y in f) && OneRoot(f, uid)
    ensures x in WithoutRoot(f, Flatten(levels)) <==> x in f && f[x].parent.Some? && BelowOne(f, dirs, uid, x)
  {
    hide Flatten, Listing, Level, Leads, OneRoot, WithoutRoot;
    RootStays(f, SetOf(dirs), uid, levels);
    WithoutRootKeeps(f, Flatten(levels), x);
    ListedIsLevel(f, SetOf(dirs), uid, levels, x);
    if x in Flatten(levels) {
      var k: nat :| k <= MAX_ROUNDS && x in Level(f, SetOf(dirs), uid, k);
      var d, es := LevelLeads(f, SetOf(dirs), uid, k, x);
    }
    if BelowOne(f, dirs, uid, x) {
      var d, es :| d in dirs && d in f && f[d].owner == uid && |es| <= 65535 && Leads(f, d, es, x);
      LeadsToLevel(f, SetOf(dirs), uid, d, es, x);
    }
  }
}
