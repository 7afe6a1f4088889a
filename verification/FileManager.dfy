/** The file system over the database and the physical objects: pkg/filesystem/manage.go,
    pkg/filesystem/file.go, pkg/filesystem/upload.go, pkg/filesystem/hooks.go, service/explorer/file.go,
    pkg/webdav/webdav.go. */
module FileManager {
  import opened Tables
  import opened FolderTree
  import opened TreeCopy
  import opened TreeMove
  import opened TreePaths
  import opened Accounts
  import opened Objects
  import opened Database
  import opened Deletion
  import opened Directories
  import opened FileSteps
  import opened FolderPaths
  import opened Names
  import opened Validator
  import opened Wrappers

  class FileSystem {
    const db: DB
    var objects: Store

    constructor (db: DB)
      ensures this.db == db && objects == map[]
    {
      this.db := db;
      objects := map[];
    }

    ghost function World(): World
      reads this, db
    {
      FileSteps.World(db.Now(), db.storage, objects)
    }

    // ---- deleting objects ----

    /** The driver of one policy deletes these objects and returns those it could not delete. */
    method DeleteObjects(policy: Id, sources: seq<string>, outage: Outage) returns (failed: seq<string>)
      modifies `objects
      ensures forall s :: s in failed <==> s in sources && Key(policy, s) in outage.keys
      ensures objects == old(objects) - set s | s in sources && Key(policy, s) !in outage.keys :: Key(policy, s)
    {
      failed := [];
      for i := 0 to |sources|
        invariant forall s :: s in failed <==> s in sources[..i] && Key(policy, s) in outage.keys
        invariant objects == old(objects) -
                             set s | s in sources[..i] && Key(policy, s) !in outage.keys :: Key(policy, s)
      {
        assert sources[..i + 1] == sources[..i] + [sources[i]];
        if Key(policy, sources[i]) in outage.keys {
          failed := failed + [sources[i]];
        } else {
          objects := objects - {Key(policy, sources[i])};
        }
      }
      assert sources[..|sources|] == sources;
    }

    method DeleteGroupedFile(groups: map<Id, seq<Row>>, outage: Outage, ghost rows: seq<Row>)
      returns (failed: map<Id, seq<string>>)
      requires Grouped(groups, rows)
      modifies `objects
      ensures objects == old(objects) - Removed(rows, outage) && Reported(failed, rows, outage)
    {
      hide *;
      failed := map[];
      ghost var done: set<Id> := {};
      var left := groups.Keys;
      NothingDone(rows, outage, objects);
      while left != {}
        invariant left !! done && left + done == groups.Keys
        invariant ReportedIn(failed, rows, outage, done) && objects == old(objects) - RemovedIn(rows, outage, done)
        decreases |left|
      {
        var p :| p in left;
        var bad := DeleteOfPolicy(p, groups, outage, rows, done, failed, old(objects));
        failed, left, done := failed[p := bad], left - {p}, done + {p};
      }
      AllDone(groups, rows, outage, failed);
    }

    method DeleteOfPolicy(p: Id, groups: map<Id, seq<Row>>, outage: Outage, ghost rows: seq<Row>,
                          ghost done: set<Id>, ghost failed: map<Id, seq<string>>, ghost o: Store)
      returns (bad: seq<string>)
      requires Grouped(groups, rows) && p in groups && p !in done
      requires ReportedIn(failed, rows, outage, done) && objects == o - RemovedIn(rows, outage, done)
      modifies `objects
      ensures ReportedIn(failed[p := bad], rows, outage, done + {p})
      ensures objects == o - RemovedIn(rows, outage, done + {p})
    {
      hide Grouped, RemovedIn, ReportedIn, Sources, KeysOf;
      var names := CollectSources(groups[p]);
      forall n {
        SourcesAreKeys(groups, rows, p, names, n);
      }
      if p in outage.policies {
        bad := names;
        assert (set n | n in names && !outage.Hits(Key(p, n)) :: Key(p, n)) == {};
      } else {
        bad := DeleteObjects(p, names, outage);
        assert (set n | n in names && !outage.Hits(Key(p, n)) :: Key(p, n))
            == set n | n in names && Key(p, n) !in outage.keys :: Key(p, n);
      }
      PolicyDone(rows, outage, done, p, names, failed, bad, o);
    }

    static method CollectSources(group: seq<Row>) returns (names: seq<string>)
      ensures Sources(names, group)
    {
      names := [];
      for i := 0 to |group|
        invariant Sources(names, group[..i])
      {
        assert group[..i + 1] == group[..i] + [group[i]];
        names := names + [group[i].file.source];
      }
      assert group[..|group|] == group;
    }

    // ---- deleting files and folders ----

    method ListDeleteDirs(dirs: seq<Id>, uid: Id) returns (folders: seq<Id>, rows: seq<Row>, ghost levels: seq<seq<Id>>)
      ensures Listing(db.folders, SetOf(dirs), uid, levels)
      ensures forall x :: x in Flatten(levels) ==> x in db.folders
      ensures folders == WithoutRoot(db.folders, Flatten(levels))
      ensures FreshRows(db.files, rows) && IdsOf(rows) == InFolders(db.files, folders) && DistinctRows(rows)
    {
      var list;
      list, levels := db.GetRecursiveChildFolder(dirs, uid, true);
      ListingParentsFirst(db.folders, SetOf(dirs), uid, levels);
      assert list == Flatten(levels);
      folders := WithoutRoot(db.folders, list);
      var ids := db.Find(set i | i in db.files && db.files[i].folder in folders);
      rows := RowsOf(db.files, ids);
      RowsAreFresh(db.files, ids);
    }

    method ListDeleteFiles(ids: seq<Id>, uid: Id) returns (rows: seq<Row>)
      ensures FreshRows(db.files, rows) && IdsOf(rows) == Named(db.files, ids, uid) && DistinctRows(rows)
    {
      var found := db.Find(set i | i in db.files && i in ids && (uid > 0 ==> db.files[i].user == uid));
      rows := RowsOf(db.files, found);
      RowsAreFresh(db.files, found);
    }

    method ListTargets(dirs: seq<Id>, ids: seq<Id>, uid: Id)
      returns (folders: seq<Id>, rows: seq<Row>, ghost levels: seq<seq<Id>>)
      ensures Targets(db.files, rows, folders, ids, uid)
      ensures Listing(db.folders, SetOf(dirs), uid, levels)
      ensures forall x :: x in Flatten(levels) ==> x in db.folders
      ensures folders == WithoutRoot(db.folders, Flatten(levels))
    {
      folders, rows, levels := [], [], [[]];
      if dirs != [] {
        folders, rows, levels := ListDeleteDirs(dirs, uid);
      } else {
        assert Level(db.folders, {}, uid, 0) == {} && Level(db.folders, {}, uid, 1) == {};
      }
      var named: seq<Row> := [];
      if ids != [] {
        named := ListDeleteFiles(ids, uid);
      }
      TargetsOfBoth(db.files, rows, named, folders, ids, uid);
      rows := rows + named;
    }

    /** Removes the objects of targets that no other record shares, and tells which could not be. */
    method DeletePhysically(rows: seq<Row>, unlink: bool, outage: Outage) returns (failed: map<Id, seq<string>>)
      requires FreshRows(db.files, rows)
      modifies `objects
      ensures objects == old(objects) - Going(db.files, rows, unlink, outage)
      ensures forall p, n :: p in failed && n in failed[p] <==> Key(p, n) in Staying(db.files, rows, unlink, outage)
    {
      hide Grouped, Reported, Without, Removed, Linked;
      var sole := RemoveFilesWithSoftLinks(db.files, rows);
      var groups := GroupFileByPolicy(sole);
      failed := map[];
      if !unlink {
        failed := DeleteGroupedFile(groups, outage, sole);
        SoleKeys(db.files, rows, sole, outage, failed);
      } else {
        assert Going(db.files, rows, unlink, outage) == {};
      }
    }

    /** The targets whose object did not fail. */
    static method Succeeded(rows: seq<Row>, failed: map<Id, seq<string>>, ghost staying: set<Key>)
      returns (deleted: seq<Row>)
      requires forall p, n :: p in failed && n in failed[p] <==> Key(p, n) in staying
      ensures deleted == Without(rows, staying)
    {
      deleted := [];
      for i := 0 to |rows|
        invariant deleted == Without(rows[..i], staying)
      {
        assert rows[..i + 1][..i] == rows[..i];
        var r := rows[i].file;
        assert KeyOf(r) == Key(r.policy, r.source);
        if !(r.policy in failed && r.source in failed[r.policy]) {
          deleted := deleted + [rows[i]];
        }
      }
      assert rows[..|rows|] == rows;
    }

    method DeleteRecords(deleted: seq<Row>, targets: seq<Row>, folders: seq<Id>, uid: Id) returns (result: DeleteResult)
      requires db.Valid()
      modifies db`files, db`storage, db`folders
      ensures db.Valid()
      ensures Ended(result, old(db.folders), old(db.files), old(db.storage), db.folders, db.files, db.storage,
                    deleted, targets, folders, uid)
    {
      hide Deletable, IdsOf, SizeOf;
      var ok := db.DeleteFiles(deleted, uid);
      if !ok {
        return Refused;
      }
      if |deleted| == |targets| {
        db.DeleteFolderByIDs(folders);
        result := AllDeleted;
      } else {
        result := SomeKept;
      }
    }

    /** Deletes folders with all they hold, and files. With force the records go whether or not their
        objects could be removed; with unlink no object is touched. */
    method Delete(dirs: seq<Id>, ids: seq<Id>, uid: Id, force: bool, unlink: bool, outage: Outage)
      returns (result: DeleteResult, ghost l: Listed)
      requires db.Valid()
      modifies `objects, db`files, db`storage, db`folders
      ensures db.Valid()
      ensures Deleted(old(World()), World(), dirs, ids, uid, force, unlink, outage, l, result)
      ensures DeletedRows(old(World()), World(), ids, uid, force, unlink, outage, l.folders, result)
      ensures OneRoot(old(db.folders), uid) ==> forall x :: x in l.folders <==>
                x in old(db.folders) && old(db.folders)[x].parent.Some? && BelowOne(old(db.folders), dirs, uid, x)
      ensures OneRoot(old(db.folders), uid) ==> SameRoots(old(db.folders), db.folders)
      ensures WellNamed(old(db.folders)) ==> WellNamed(db.folders)
      ensures uid > 0 && result != Refused ==>
              Charged(old(db.files), db.files, uid,
                      0 - SizeOf(Dropped(old(db.files), l.targets, force, unlink, outage)))
      ensures result != Refused ==>
              View(db.files, objects) ==
              View(old(db.files), old(objects)) - IdsOf(Dropped(old(db.files), l.targets, force, unlink, outage))
      ensures Calibrated(old(db.storage), old(db.files)) && uid > 0 ==> Calibrated(db.storage, db.files)
      ensures Calibrated(old(db.storage), old(db.files)) && uid == 0 && result != Refused ==>
              (Calibrated(db.storage, db.files) <==>
               GivesNothingBack(old(db.storage), Dropped(old(db.files), l.targets, force, unlink, outage)))
      ensures Tidy(old(db.folders), old(db.files)) && Level(old(db.folders), SetOf(dirs), uid, MAX_ROUNDS + 1) == {}
              ==> Tidy(db.folders, db.files)
    {
      hide Targets, Listing, Flatten, WithoutRoot, Going, Staying, IdsOf, View, Calibrated, Tidy, Level, Ended;
      hide GivesNothingBack, SizeOf, Charged, SameRoots, OneRoot, WellNamed, Placed, NamedTwice, Deletable;
      hide DeletedRows, BelowOne;
      var folders, rows;
      ghost var levels;
      folders, rows, levels := ListTargets(dirs, ids, uid);
      l := Listed(rows, folders, levels);
      assert FreshRows(db.files, rows) by { TargetsFresh(db.files, rows, folders, ids, uid); }
      ghost var staying := Staying(db.files, rows, unlink, outage);
      var failed := DeletePhysically(rows, unlink, outage);
      var deleted := Succeeded(rows, failed, staying);
      if force {
        deleted := rows;
      }
      result := DeleteRecords(deleted, rows, folders, uid);
      EndedWell(result, old(db.folders), old(db.files), old(db.storage), db.folders, db.files, db.storage, old(objects),
                SetOf(dirs), uid, levels, folders, ids, rows, force, unlink, outage);
      DeletedIsRows(old(World()), World(), dirs, ids, uid, force, unlink, outage, l, result);
      if OneRoot(old(db.folders), uid) {
        forall x {
          FoldersListedIff(old(db.folders), dirs, uid, levels, x);
        }
      }
    }

    // ---- uploading whole files ----

    /** Stores an object, of which body arrives. Without overwrite an object that is there is an error; a
        body that breaks off leaves what has arrived. */
    method Put(key: Key, body: Content, length: nat, overwrite: bool) returns (ok: bool)
      requires |body| <= length
      modifies `objects
      ensures ok <==> (overwrite || key !in old(objects)) && |body| == length
      ensures objects == if overwrite || key !in old(objects) then old(objects)[key := body] else old(objects)
    {
      if !overwrite && key in objects {
        return false;
      }
      objects, ok := objects[key := body], |body| == length;
    }

    /** The record of a stored upload: its directory is found or created, and the file goes there unless its
        name is taken; then nothing changes. */
    method GenericAfterUpload(name: string, uid: Id, preset: Option<Id>, virtualPath: string, policy: Id,
                              path: string, length: nat)
      returns (r: Option<Id>)
      requires db.Valid() && uid in db.storage && uid > 0 && Owned(db.folders, uid, preset)
      modifies db`folders, db`nextFolder, db`files, db`nextFile, db`storage
      ensures db.Valid() && SameRoots(old(db.folders), db.folders)
      ensures Filed(old(World()), World(), name, uid, preset, virtualPath, policy, path, length, r)
      ensures var c := Corrected(old(db.folders), uid, preset, Resolve(Split(virtualPath)));
              WellNamed(old(db.folders)) ==> (WellNamed(db.folders) <==> r.None? || Elements(c))
      ensures Charged(old(db.files), db.files, uid, if r.Some? then length else 0)
      ensures Calibrated(old(db.storage), old(db.files)) ==> Calibrated(db.storage, db.files)
      ensures Tidy(old(db.folders), old(db.files)) ==> Tidy(db.folders, db.files)
    {
      hide Calibrated, UniqueFolders, FilesSound, Tidy, Charged, Total, Made, LeadsTo, Added, Resolve, Split;
      hide WellNamed, DirectoryFits, Corrected, FoldersSound, Elements, SameRoots;
      ghost var f, g, next, nextFile := db.folders, db.files, db.nextFolder, db.nextFile;
      ghost var c := Corrected(f, uid, preset, Resolve(Split(virtualPath)));
      NothingCharged(g, uid);
      r := None;
      var folder := CreateDirectory(db, uid, preset, virtualPath);
      AddedKeepsRoots(f, db.folders, next, uid);
      if folder.None? {
        return;
      }
      SoundIsUnique(db.folders, db.nextFolder);
      NameFreeIff(f, db.folders, g, next, nextFile, uid, preset, c, folder.value, name);
      if NameIn(db.files, folder.value, name) {
        return;
      }
      var row := File(name, path, uid, length, folder.value, policy, None);
      r := db.CreateFile(row);
      CreateCharged(g, nextFile, row);
    }

    /** Stores a new object, of which body arrives, and records it. */
    method StoreNew(name: string, uid: Id, preset: Option<Id>, virtualPath: string, policy: Id, path: string,
                    body: Content, length: nat)
      returns (r: Option<Id>)
      requires db.Valid() && uid in db.storage && uid > 0 && Owned(db.folders, uid, preset) && |body| <= length
      modifies `objects, db`folders, db`nextFolder, db`files, db`nextFile, db`storage
      ensures db.Valid() && SameRoots(old(db.folders), db.folders)
      ensures Stored(old(World()), World(), name, uid, preset, virtualPath, policy, path, body, length, r)
      ensures var c := Corrected(old(db.folders), uid, preset, Resolve(Split(virtualPath)));
              WellNamed(old(db.folders)) ==> (WellNamed(db.folders) <==> r.None? || Elements(c))
      ensures var key, before := Key(policy, path), View(old(db.files), old(objects));
              (forall i :: i in old(db.files) ==> KeyOf(old(db.files)[i]) != key) ==>
                View(db.files, objects) == if r.Some? then before[r.value := body] else before
      ensures Charged(old(db.files), db.files, uid, if r.Some? then length else 0)
      ensures Calibrated(old(db.storage), old(db.files)) ==> Calibrated(db.storage, db.files)
      ensures db.storage == if r.Some? then Change(old(db.storage), uid, length) else old(db.storage)
      ensures Tidy(old(db.folders), old(db.files)) ==> Tidy(db.folders, db.files)
    {
      hide Calibrated, View, FoldersSound, FilesSound, Tidy, Charged, Total, Provided, SameRoots;
      hide Resolve, Split, Corrected, WellNamed, FileFits, Elements;
      r := None;
      NothingCharged(db.files, uid);
      RootsStay(db.folders);
      var key := Key(policy, path);
      var stored := Put(key, body, length, false);
      ghost var unused := forall i :: i in db.files ==> KeyOf(db.files[i]) != key;
      if unused {
        UnreadObject(db.files, old(objects), key, body);
      }
      if !stored {
        return;
      }
      r := GenericAfterUpload(name, uid, preset, virtualPath, policy, path, length);
      if r.None? {
        objects := objects - {key};
        assert objects == old(objects);
      } else if unused {
        CreateIsDeep(old(db.files), old(objects), r.value, db.files[r.value], body);
      }
    }

    /** Uploads a new file, of which body arrives, to a path that was generated for it. */
    method CreateFile(name: string, uid: Id, preset: Option<Id>, virtualPath: string, policy: Policy, path: string,
                      body: Content, length: nat, max: nat)
      returns (r: Option<Id>)
      requires db.Valid() && uid in db.storage && uid > 0 && Owned(db.folders, uid, preset) && |body| <= length
      modifies `objects, db`folders, db`nextFolder, db`files, db`nextFile, db`storage
      ensures db.Valid() && SameRoots(old(db.folders), db.folders)
      ensures Uploaded(old(World()), World(), name, uid, preset, virtualPath, policy, path, body, length, max, r)
      ensures var c := Corrected(old(db.folders), uid, preset, Resolve(Split(virtualPath)));
              WellNamed(old(db.folders)) ==> (WellNamed(db.folders) <==> r.None? || Elements(c))
      ensures var key, before := Key(policy.id, path), View(old(db.files), old(objects));
              (forall i :: i in old(db.files) ==> KeyOf(old(db.files)[i]) != key) ==>
                View(db.files, objects) == if r.Some? then before[r.value := body] else before
      ensures Charged(old(db.files), db.files, uid, if r.Some? then length else 0)
      ensures Calibrated(old(db.storage), old(db.files)) ==> Calibrated(db.storage, db.files)
      ensures old(db.storage)[uid] <= max ==> uid in db.storage && db.storage[uid] <= max
      ensures Tidy(old(db.folders), old(db.files)) ==> Tidy(db.folders, db.files)
    {
      hide Calibrated, View, FoldersSound, FilesSound, Tidy, Charged, Allowed, Acceptable, SameRoots, Stored;
      hide Resolve, Split, Corrected, WellNamed, Elements, KeyOf;
      r := None;
      NothingCharged(db.files, uid);
      RootsStay(db.folders);
      AllowedIff(policy, name, length);
      RoomIff(db.storage, uid, length, max);
      if !Allowed(policy, name, length) || !Room(db.storage, uid, length, max) {
        return;
      }
      r := StoreNew(name, uid, preset, virtualPath, policy.id, path, body, length);
    }

    /** Replaces the content of a file of the user by body, if all of it arrives. If the object is shared the
        content goes to the path generated for it and the record is pointed there: with a PUT of the file
        service an object that is already there is an error, with a WebDAV PUT it is overwritten. */
    method PutContent(id: Id, uid: Id, policy: Policy, path: string, body: Content, length: nat, max: nat, webdav: bool)
      returns (ok: bool)
      requires db.Valid() && uid in db.storage && |body| <= length
      requires id in db.files ==> policy.id == db.files[id].policy
      modifies `objects, db`files, db`storage
      ensures db.Valid()
      ensures Overwritten(old(World()), World(), id, uid, policy, path, body, length, max, webdav, ok)
      ensures ok ==> Replaced(old(db.files), db.files, id, path, length)
      ensures id in old(db.files) && PathUnused(old(db.files), id, path) ==>
              View(db.files, objects) ==
              if Writable(old(World()), id, uid, policy, path, length, max, webdav)
              then ViewAfter(old(db.files), old(objects), id, body, ok) else View(old(db.files), old(objects))
      ensures Charged(old(db.files), db.files, uid, if ok then length - old(db.files)[id].size else 0)
      ensures Calibrated(old(db.storage), old(db.files)) ==> Calibrated(db.storage, db.files)
      ensures old(db.storage)[uid] <= max ==> uid in db.storage && db.storage[uid] <= max
      ensures Tidy(db.folders, old(db.files)) ==> Tidy(db.folders, db.files)
    {
      hide Calibrated, View, FoldersSound, FilesSound, Tidy, Charged, Total, Allowed, Replaced, Writable;
      NothingCharged(db.files, uid);
      WritableIff(World(), id, uid, policy, path, length, max, webdav);
      if id in db.files {
        WrittenIsReplaced(db.files, id, path, length);
      }
      if id !in db.files || db.files[id].user != uid {
        return false;
      }
      var origin := Row(id, db.files[id]);
      var sole := RemoveFilesWithSoftLinks(db.files, [origin]);
      var source, overwrite := origin.file.source, true;
      var shared := sole == [];
      if shared {
        source, overwrite := path, webdav;
      }
      if !Allowed(policy, origin.file.name, length)
         || (length > origin.file.size && !Room(db.storage, uid, length, max)) {
        return false;
      }
      ok := Put(Key(origin.file.policy, source), body, length, overwrite);
      if !ok {
        if |body| < length && PathUnused(db.files, id, path) {
          BrokenWrite(db.files, old(objects), id, path, body);
        }
        return;
      }
      Recorded(origin, source, length, shared);
      if PathUnused(old(db.files), id, path) {
        WriteIsDeep(old(db.files), old(objects), id, source, body);
      }
    }

    /** The record of an overwritten file gets its path, if that is new, and its size. */
    method Recorded(origin: Row, source: string, length: nat, shared: bool)
      requires db.Valid() && origin.id in db.files && origin.file == db.files[origin.id]
      requires !shared ==> source == origin.file.source
      modifies db`files, db`storage
      ensures db.Valid() && db.files == Written(old(db.files), origin.id, source, length)
      ensures db.storage == Change(old(db.storage), origin.file.user, length - origin.file.size)
      ensures Charged(old(db.files), db.files, origin.file.user, length - origin.file.size)
      ensures Calibrated(old(db.storage), old(db.files)) ==> Calibrated(db.storage, db.files)
      ensures Tidy(db.folders, old(db.files)) ==> Tidy(db.folders, db.files)
    {
      hide Calibrated, FoldersSound, FilesSound, Tidy, Charged, Total;
      var row := Row(origin.id, origin.file.(source := source));
      if shared {
        db.UpdateSourceName(row);
      }
      var after := db.UpdateSize(row, length);
      assert db.files == old(db.files)[origin.id := origin.file.(source := source, size := length)];
      WrittenCharged(old(db.files), origin.id, source, length);
      if Calibrated(old(db.storage), old(db.files)) {
        ChargeKeepsLaw(old(db.storage), old(db.files), db.files, origin.file.user, length - origin.file.size);
      }
      if Tidy(db.folders, old(db.files)) {
        assert db.folders[origin.file.folder].owner == origin.file.user by {
          FileIsPlaced(db.folders, old(db.files), origin.id);
        }
        FileKeepsTidy(db.folders, old(db.files), origin.id, db.files[origin.id]);
      }
    }

    // ---- copying and moving ----

    /** A folder that a path of the user leads to. */
    ghost predicate Found(folder: Id, uid: Id)
      reads db`folders
    {
      folder in db.folders && db.folders[folder].owner == uid
    }

    method CopyTree(top: Id, uid: Id, t: Target)
      returns (size: nat, ok: bool, ghost folderImage: map<Id, Id>, ghost image: map<Id, Id>)
      requires db.Valid() && Found(t.folder, t.owner)
      modifies db`folders, db`files, db`nextFolder, db`nextFile
      ensures db.Valid() && forall x :: x in old(db.folders) ==> x in db.folders && db.folders[x] == old(db.folders)[x]
      ensures TreeDone(old(db.Now()), db.Now(), top, uid, t, folderImage, image, size, ok)
      ensures CopiedWell(old(db.folders), old(db.files), db.folders, db.files, objects, t.owner, size, image)
      ensures WellNamed(old(db.folders)) && ProperTop(old(db.folders), top, t) ==> WellNamed(db.folders)
    {
      hide WellNamed, ProperTop, SameRoots, View, DeepCopied, FilesSound, Tidy, Charged, FilesCopied, Sum;
      hide CopiedSizes, TreeFits, Reached, SamePaths, CopiesIn, FolderRows, CopyRows;
      ghost var next, g := db.nextFile, db.files;
      assert forall i :: i in g ==> i < next by { FilesBelow(g, next, db.nextFolder); }
      var error;
      size, error, folderImage, image := db.CopyFolderTo(top, uid, t);
      ok := error.None?;
      if ok {
        WholeTreeBytes(old(db.Now()), db.Now(), top, uid, t, folderImage, image, size);
      }
      CopyIsDeep(g, db.files, next, db.nextFile, folderImage, t.owner, "", image, objects);
    }

    method CopySome(ids: seq<Id>, uid: Id, from: Id, t: Target) returns (size: nat, ok: bool, ghost image: map<Id, Id>)
      requires db.Valid() && Found(t.folder, t.owner)
      modifies db`files, db`nextFile
      ensures db.Valid()
      ensures SomeDone(old(db.Now()), db.Now(), ids, uid, from, t, image, size, ok)
      ensures ok <==> SomeFit(old(db.files), ids, uid, from, t)
      ensures ok ==> CopiesOf(old(db.files), ids, uid, from, image)
      ensures NoBytesFit(old(db.files), ids, uid, from, t) ==> size == 0
      ensures |ids| == 1 && !ok ==> image == map[]
      ensures CopiedWell(db.folders, old(db.files), db.folders, db.files, objects, t.owner, size, image)
    {
      hide View, DeepCopied, FilesSound, Tidy, Charged, FilesCopied, Sum, CopiedSizes, SomeFit, Chosen;
      hide NoBytesFit, UniqueFiles, CopiesOf, CopyRows;
      ghost var next, g := db.nextFile, db.files;
      assert forall i :: i in g ==> i < next by { FilesBelow(g, next, db.nextFolder); }
      ghost var before := db.Now();
      size, ok, image := db.MoveOrCopyFileTo(ids, uid, from, t, true);
      FilesUnique(db.files, db.nextFile, db.nextFolder);
      if |ids| == 1 {
        assert ids == [ids[0]];
        OneOrNone(before, db.Now(), ids[0], uid, from, t, image, size);
      }
      if NoBytesFit(g, ids, uid, from, t) {
        NoBytesCopied(before, db.Now(), ids, uid, from, t, image, size);
      }
      CopyIsDeep(g, db.files, next, db.nextFile, map[from := t.folder], t.owner, t.name, image, objects);
    }

    /** Copies the first folder of dirs, then files of src, to dst; src and dst are what the paths lead
        to. The storage is charged after both, so an error on the way leaves the copies made so far
        uncharged, and the law broken if there are any bytes in them. */
    method Copy(dirs: seq<Id>, ids: seq<Id>, uid: Id, src: Option<Id>, dst: Option<Id>, name: string)
      returns (ok: bool, ghost c: Copies)
      requires db.Valid() && uid in db.storage
      requires (src.Some? ==> Found(src.value, uid)) && (dst.Some? ==> Found(dst.value, uid))
      modifies db`folders, db`files, db`nextFolder, db`nextFile, db`storage
      ensures db.Valid()
      ensures if src.None? || dst.None? then !ok && c.a == c.b == 0 && World() == old(World())
              else CopiedBoth(old(db.Now()), db.Now(), dirs, ids, uid, src.value, Target(dst.value, uid, name), c, ok)
      ensures CopiedWell(old(db.folders), old(db.files), c.mid.folders, c.mid.files, objects, uid, c.a, c.image0)
      ensures CopiedWell(c.mid.folders, c.mid.files, db.folders, db.files, objects, uid, c.b, c.image1)
      ensures db.storage == if ok then Change(old(db.storage), uid, c.a + c.b) else old(db.storage)
      ensures Calibrated(old(db.storage), old(db.files)) ==>
              (Calibrated(db.storage, db.files) <==> ok || c.a + c.b == 0)
      ensures Calibrated(old(db.storage), old(db.files)) && src.Some? && dst.Some? ==>
              var t, f, g := Target(dst.value, uid, name), old(db.folders), old(db.files);
              && (Paid(f, g, dirs, ids, uid, src.value, t) ==> Calibrated(db.storage, db.files))
              && (Uncharged(f, g, dirs, ids, uid, src.value, t) ==> !Calibrated(db.storage, db.files))
      ensures && WellNamed(old(db.folders))
              && (dst.Some? && dirs != [] ==> ProperTop(old(db.folders), dirs[0], Target(dst.value, uid, name)))
              ==> WellNamed(db.folders)
    {
      hide CopiedWell, Calibrated, TreeDone, TreeFits, SomeDone, SomeFit, FilesSound, TreeBytes, UniqueFolders;
      hide WellNamed, NoBytesFit, CopiesOf;
      ghost var s0 := db.Now();
      ok, c := false, Copies(map[], map[], 0, s0, map[], 0);
      NoCopy(db.folders, db.files, objects, uid);
      if src.None? || dst.None? {
        CopyLaw(db.storage, s0, s0, s0, objects, uid, 0, map[], 0, map[]);
        return;
      }
      var t := Target(dst.value, db.folders[dst.value].owner, name);
      var used := 0;
      if dirs != [] {
        ghost var folderImage, image0;
        used, ok, folderImage, image0 := CopyTree(dirs[0], db.folders[src.value].owner, t);
        c := Copies(folderImage, image0, used, db.Now(), map[], 0);
        AfterTree(s0, c.mid, dirs[0], uid, t, folderImage, image0, used, ok, ids, src.value);
        NoCopy(db.folders, db.files, objects, uid);
        CopyLaw(db.storage, s0, c.mid, c.mid, objects, uid, c.a, image0, 0, map[]);
        if !ok {
          return;
        }
      }
      if ids != [] {
        var size;
        ghost var image1;
        size, ok, image1 := CopySome(ids, db.folders[src.value].owner, src.value, t);
        c := c.(image1 := image1, b := size);
        CopyLaw(db.storage, s0, c.mid, db.Now(), objects, uid, c.a, c.image0, c.b, c.image1);
        if !ok {
          return;
        }
        used := used + size;
      }
      ok := true;
      CopyLaw(db.storage, s0, c.mid, db.Now(), objects, uid, c.a, c.image0, c.b, c.image1);
      db.ChangeStorage(uid, used);
    }

    /** Saves a shared folder, or else a shared file, of another user to a folder of the user. Whatever was
        copied is charged, so the law is kept even after an error. */
    method SaveTo(dir: Option<Id>, file: Row, owner: Id, uid: Id, dst: Option<Id>)
      returns (ok: bool, ghost folderImage: map<Id, Id>, ghost image: map<Id, Id>, ghost size: nat)
      requires db.Valid() && uid in db.storage && (dst.Some? ==> Found(dst.value, uid))
      modifies db`folders, db`files, db`nextFolder, db`nextFile, db`storage
      ensures db.Valid()
      ensures dst.None? ==> !ok && size == 0 && image == map[] && World() == old(World())
      ensures dst.Some? ==> Saved(old(db.Now()), db.Now(), dir, file, owner, Target(dst.value, uid, ""),
                                  folderImage, image, size, ok)
      ensures CopiedWell(old(db.folders), old(db.files), db.folders, db.files, objects, uid, size, image)
      ensures db.storage == Change(old(db.storage), uid, size)
      ensures Calibrated(old(db.storage), old(db.files)) ==> Calibrated(db.storage, db.files)
      ensures && WellNamed(old(db.folders))
              && (dst.Some? && dir.Some? ==> ProperTop(old(db.folders), dir.value, Target(dst.value, uid, "")))
              ==> WellNamed(db.folders)
    {
      hide WellNamed, CopiedWell, Calibrated, TreeDone, SomeDone, FoldersSound, FilesSound;
      folderImage, image, size := map[], map[], 0;
      NoCopy(db.folders, db.files, objects, uid);
      if dst.None? {
        return false, folderImage, image, size;
      }
      var t, total := Target(dst.value, db.folders[dst.value].owner, ""), 0;
      if dir.Some? {
        total, ok, folderImage, image := CopyTree(dir.value, owner, t);
      } else {
        total, ok, image := CopySome([file.id], file.file.user, file.file.folder, t);
      }
      size := total;
      NoCopy(db.folders, db.files, objects, uid);
      CopyLaw(db.storage, old(db.Now()), db.Now(), db.Now(), objects, uid, size, image, 0, map[]);
      db.ChangeStorage(uid, total);
    }

    /** Moves folders and files of src to dst. An error in the files leaves the folders moved. */
    method Move(dirs: seq<Id>, ids: seq<Id>, uid: Id, src: Option<Id>, dst: Option<Id>, name: string)
      returns (ok: bool, ghost foldersMoved: bool)
      requires db.Valid()
      requires (src.Some? ==> Found(src.value, uid)) && (dst.Some? ==> Found(dst.value, uid))
      modifies db`folders, db`files, db`nextFile
      ensures db.Valid()
      ensures src.None? || dst.None? ==> !ok && !foldersMoved
      ensures src.Some? && dst.Some? ==>
              && MovedBoth(old(db.Now()), db.Now(), dirs, ids, uid, src.value, Target(dst.value, uid, name),
                           foldersMoved, ok)
              && (Tidy(old(db.folders), old(db.files)) ==>
                    (Tidy(db.folders, db.files) <==>
                     foldersMoved ==> !Inside(old(db.folders), dst.value,
                                              Reach(old(db.folders), SetOf(dirs), uid, src.value))))
      ensures !foldersMoved ==> db.folders == old(db.folders) && db.files == old(db.files)
      ensures View(db.files, objects) == View(old(db.files), objects)
      ensures Calibrated(db.storage, old(db.files)) ==> Calibrated(db.storage, db.files)
      ensures Charged(old(db.files), db.files, uid, 0) && SameRoots(old(db.folders), db.folders)
      ensures WellNamed(old(db.folders)) && (name == "" || Element(name)) ==> WellNamed(db.folders)
    {
      hide WellNamed, View, Calibrated, Tidy, Inside, FilesSound, Charged, Guarded, UniqueFolders, UniqueFiles;
      hide FilesMoved, FoldersMoved;
      ok, foldersMoved := false, false;
      NothingCharged(db.files, uid);
      if src.None? || dst.None? {
        return;
      }
      ghost var f, g := db.folders, db.files;
      var t := Target(dst.value, db.folders[dst.value].owner, name);
      ok := db.MoveFolderTo(dirs, db.folders[src.value].owner, src.value, t);
      foldersMoved := ok;
      MoveTidy(f, Reach(f, SetOf(dirs), uid, src.value), t, g);
      if !ok {
        return;
      }
      var size;
      ghost var image;
      size, ok, image := db.MoveOrCopyFileTo(ids, db.folders[src.value].owner, src.value, t, false);
      MoveIsDeep(g, ids, uid, src.value, t, objects);
      MoveCharges(db.storage, g, db.files, uid);
    }
  }
}
