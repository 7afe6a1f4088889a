/** The folder and file tables with their operations: models/folder.go, models/file.go,
    models/user.go, models/scripts/storage.go. A query is answered in any order; a statement fails
    when it breaks a unique index and for no other reason. */
module Database {
  import opened Names
  import opened Tables
  import opened FolderTree
  import opened TreeCopy
  import opened TreeMove
  import opened TreePaths
  import opened Accounts
  import opened Wrappers

  datatype CopyError = NameTaken | NoParent

  /** A row that a query by the fields of row finds: fields with zero values are not asked about. */
  predicate Like(other: Folder, row: Folder) {
    && (row.name != "" ==> other.name == row.name) && (row.owner != 0 ==> other.owner == row.owner)
    && (row.parent.Some? ==> other.parent == row.parent)
  }

  class DB {
    var folders: Folders
    var files: Files
    var storage: Storage
    var nextFolder: Id
    var nextFile: Id

    ghost predicate Valid()
      reads this
    {
      FoldersSound(folders, nextFolder) && FilesSound(files, nextFile, nextFolder)
    }

    ghost function Now(): Snapshot
      reads this
    {
      Snapshot(folders, files, nextFolder, nextFile)
    }

    constructor ()
      ensures Valid() && folders == map[] && files == map[] && storage == map[]
    {
      folders, files, storage := map[], map[], map[];
      nextFolder, nextFile := 1, 1;
    }

    // ---- single statements ----

    method InsertFolder(row: Folder) returns (r: Option<Id>)
      requires FoldersSound(folders, nextFolder) && (row.parent.Some? ==> row.parent.value < nextFolder)
      modifies `folders, `nextFolder
      ensures FoldersSound(folders, nextFolder)
      ensures r.None? <==> FolderConflict(old(folders), row)
      ensures r.None? ==> folders == old(folders) && nextFolder == old(nextFolder)
      ensures r.Some? ==>
                && r.value == old(nextFolder) && nextFolder == old(nextFolder) + 1
                && folders == old(folders)[r.value := row]
    {
      if row.parent.Some?
         && exists i :: i in folders && folders[i].parent == row.parent && folders[i].name == row.name {
        return None;
      }
      FolderAdded(folders, nextFolder, row);
      folders, nextFolder, r := folders[nextFolder := row], nextFolder + 1, Some(nextFolder);
    }

    method InsertFile(row: File) returns (r: Option<Id>)
      requires FilesSound(files, nextFile, nextFolder) && row.folder < nextFolder
      modifies `files, `nextFile
      ensures FilesSound(files, nextFile, nextFolder)
      ensures r.None? <==> FileConflict(old(files), row)
      ensures r.None? ==> files == old(files) && nextFile == old(nextFile)
      ensures r.Some? ==>
                r.value == old(nextFile) && nextFile == old(nextFile) + 1 && files == old(files)[r.value := row]
    {
      if || (exists i :: && i in files && files[i].folder == row.folder && files[i].user == row.user
                         && files[i].name == row.name)
         || (row.session.Some? && exists i :: i in files && files[i].session == row.session) {
        return None;
      }
      FileAdded(files, nextFile, nextFolder, row);
      files, nextFile, r := files[nextFile := row], nextFile + 1, Some(nextFile);
    }

    method ChangeStorage(u: Id, delta: int)
      modifies `storage
      ensures storage == Change(old(storage), u, delta)
    {
      if u in storage {
        storage := storage[u := storage[u] + delta];
      }
    }

    /** The answer of a query that these rows match. */
    method Find(ids: set<Id>) returns (r: seq<Id>)
      ensures Enumerates(r, ids)
    {
      r := [];
      var left := ids;
      while left != {}
        invariant left <= ids && Enumerates(r, ids - left)
        decreases |left|
      {
        var i :| i in left;
        r, left := r + [i], left - {i};
      }
    }

    // ---- listing ----

    /** Breadth first, one query a level, at most 65535 levels below the start. */
    method GetRecursiveChildFolder(dirs: seq<Id>, uid: Id, includeSelf: bool)
      returns (list: seq<Id>, ghost levels: seq<seq<Id>>)
      ensures Listing(folders, SetOf(dirs), uid, levels)
      ensures Flatten(levels) == (if includeSelf then [] else levels[0]) + list
      ensures forall x :: x in list ==> x in folders && folders[x].owner == uid
      ensures includeSelf ==> ParentsFirst(folders, SetOf(dirs), list)
      ensures includeSelf ==> forall x :: x in folders && folders[x].owner == uid && x in dirs ==> x in list
    {
      hide Flatten, Level, ParentsFirst;
      ghost var start := SetOf(dirs);
      var parents := Find(set id | id in folders && folders[id].owner == uid && id in dirs);
      list := if includeSelf then parents else [];
      levels := [parents];
      FirstLevel(folders, start, uid, parents);
      var i := 0;
      while i < MAX_ROUNDS
        invariant 0 <= i <= MAX_ROUNDS && |levels| == i + 1 && levels[i] == parents
        invariant Listed(folders, start, uid, levels)
        invariant Flatten(levels) == (if includeSelf then [] else levels[0]) + list
      {
        var children := Find(Children(folders, SetOf(parents), uid));
        if children == [] {
          NoNextLevel(folders, start, uid, levels);
          break;
        }
        NextLevel(folders, start, uid, levels, if includeSelf then [] else levels[0], list, children);
        parents, list, i := children, list + children, i + 1;
        levels := levels + [children];
      }
      ListingParentsFirst(folders, start, uid, levels);
      StartsListed(folders, start, uid, levels);
      if includeSelf {
        assert [] + list == list;
      } else {
        assert forall x :: x in list ==> x in levels[0] + list;
      }
    }

    // ---- copying ----

    method CopyFolders(list: seq<Id>, top: Id, t: Target, ghost uid: Id, ghost levels: seq<seq<Id>>)
      returns (image: map<Id, Id>, error: Option<CopyError>)
      requires FoldersSound(folders, nextFolder) && t.folder < nextFolder
      requires Listing(folders, {top}, uid, levels) && list == Flatten(levels)
      modifies `folders, `nextFolder
      ensures FoldersSound(folders, nextFolder)
      ensures FoldersCopied(old(folders), folders, old(nextFolder), nextFolder, top, t, image)
      ensures error.None? ==> image.Keys == SetOf(list)
      ensures error != Some(NoParent) && old(nextFolder) <= nextFolder
      ensures error.None? <==> Distinct(list) && (list != [] ==> !TopTaken(old(folders), top, t))
      ensures list != [] && TopTaken(old(folders), top, t) ==> image == map[]
      ensures FolderRows(old(folders), folders, top, t, image)
    {
      hide FoldersCopied, FoldersSound, Listing, Flatten, Distinct, SetOf, FolderConflict, TopTaken, FolderRows;
      ghost var f0, n0 := folders, nextFolder;
      var rows := folders;
      image, error := map[], None;
      NothingCopied(f0, n0, top, t);
      FoldersAreRows(f0, f0, n0, n0, top, t, image);
      FrontEnds(list);
      var i := 0;
      while i < |list|
        invariant 0 <= i <= |list| && FoldersSound(folders, nextFolder) && n0 <= nextFolder
        invariant FoldersCopied(f0, folders, n0, nextFolder, top, t, image)
        invariant FolderRows(f0, folders, top, t, image)
        invariant image.Keys == SetOf(list[..i]) && Distinct(list[..i])
        invariant i > 0 ==> !TopTaken(f0, top, t)
        invariant i == 0 ==> image == map[]
      {
        var id := list[i];
        NextFolder(f0, folders, n0, nextFolder, top, t, image, uid, levels, i);
        Front(list, i);
        var parent, name := t.folder, rows[id].name;
        if id == top {
          if t.name != "" {
            name := t.name;
          }
        } else if rows[id].parent.value in image {
          parent := image[rows[id].parent.value];
        } else {
          return image, Some(NoParent);
        }
        assert Folder(name, Some(parent), t.owner) == FolderImage(f0[id], id == top, t, image);
        ghost var f1, n1 := folders, nextFolder;
        var created := InsertFolder(Folder(name, Some(parent), t.owner));
        if created.None? {
          return image, Some(NameTaken);
        }
        FolderCopiedToo(f0, f1, n0, n1, top, t, image, id);
        image, i := image[id := created.value], i + 1;
        FoldersAreRows(f0, folders, n0, nextFolder, top, t, image);
      }
    }

    method CopyFiles(list: seq<Id>, into: map<Id, Id>, owner: Id, name: string)
      returns (size: nat, ok: bool, ghost image: map<Id, Id>)
      requires FilesSound(files, nextFile, nextFolder) && Distinct(list)
      requires forall i :: i in list ==> i in files && files[i].folder in into && into[files[i].folder] < nextFolder
      modifies `files, `nextFile
      ensures FilesSound(files, nextFile, nextFolder)
      ensures FilesCopied(old(files), files, old(nextFile), nextFile, into, owner, name, image)
      ensures image.Keys <= Copyable(old(files), list) && (ok ==> image.Keys == Copyable(old(files), list))
      ensures ok <==> FilesFit(old(files), Copyable(old(files), list), into, owner, name)
      ensures size == Sum(CopiedSizes(old(files), image)) && Charged(old(files), files, owner, size)
      ensures CopyRows(old(files), files, into, owner, name, image)
    {
      hide FilesCopied, FilesFit, FilesSound, FileConflict, Sum, Total, Charged, Distinct, CopiedSizes, CopyRows;
      ghost var g0, n0 := files, nextFile;
      FilesBelow(g0, n0, nextFolder);
      var rows := files;
      size, image := 0, map[];
      NoFileCopied(g0, n0, into, owner, name);
      var i := 0;
      while i < |list|
        invariant 0 <= i <= |list| && FilesSound(files, nextFile, nextFolder)
        invariant FilesCopied(g0, files, n0, nextFile, into, owner, name, image)
        invariant image.Keys == Copyable(g0, list[..i]) && FilesFit(g0, image.Keys, into, owner, name)
        invariant size == Sum(CopiedSizes(g0, image)) && Charged(g0, files, owner, size)
      {
        var id := list[i];
        CopyableFront(g0, list, i);
        if rows[id].session.None? {
          var copy := FileImage(rows[id], into, owner, name);
          CopyClashes(g0, files, n0, nextFile, into, owner, name, image, id);
          FileStep(g0, files, n0, nextFile, nextFolder, into, owner, name, image, id);
          var created := InsertFile(copy);
          if created.None? {
            ok := false;
            CopiesAreRows(g0, files, n0, nextFile, into, owner, name, image);
            if FilesFit(g0, Copyable(g0, list), into, owner, name) {
              FilesFitPart(g0, image.Keys + {id}, Copyable(g0, list), into, owner, name);
            }
            return;
          }
          size, image := size + copy.size, image[id := created.value];
        }
        i := i + 1;
      }
      ok := true;
      CopiesAreRows(g0, files, n0, nextFile, into, owner, name, image);
      assert list[..i] == list;
    }

    /** The folders of a tree copy: a name that is taken is noticed before anything is copied. */
    method CopyTreeFolders(top: Id, uid: Id, t: Target) returns (newIDs: map<Id, Id>, error: Option<CopyError>)
      requires Valid() && t.folder < nextFolder
      modifies `folders, `nextFolder
      ensures Valid() && old(nextFolder) <= nextFolder
      ensures FoldersCopied(old(folders), folders, old(nextFolder), nextFolder, top, t, newIDs)
      ensures error != Some(NoParent) && (error.None? <==> TreeFits(old(folders), top, uid, t))
      ensures error.None? ==> forall x :: x in newIDs <==> Reached(old(folders), top, uid, x)
      ensures error.Some? && !MetAgain(old(folders), top, uid) ==> folders == old(folders)
      ensures FolderRows(old(folders), folders, top, t, newIDs)
      ensures error.None? ==> SamePaths(old(folders), folders, top, uid, t, newIDs)
    {
      hide FoldersSound, FilesSound, Listing, Flatten, FoldersCopied, TopTaken, MetAgain, Reached, ParentsFirst;
      hide FolderRows, SamePaths;
      var list;
      ghost var levels;
      list, levels := GetRecursiveChildFolder([top], uid, true);
      assert SetOf([top]) == {top};
      ghost var f0, n0 := folders, nextFolder;
      FitsListing(f0, top, uid, t, levels);
      newIDs, error := CopyFolders(list, top, t, uid, levels);
      FilesStaySound(files, nextFile, n0, nextFolder);
      NoFolderCopied(f0, folders, n0, nextFolder, top, t, newIDs);
      if error.None? {
        CopyHasSamePaths(f0, folders, n0, nextFolder, top, t, newIDs, uid);
      }
    }

    /** Copies the folder top of user uid, with the folders and files below it, to t. */
    method CopyFolderTo(top: Id, uid: Id, t: Target)
      returns (size: nat, error: Option<CopyError>, ghost image: map<Id, Id>, ghost fileImage: map<Id, Id>)
      requires Valid() && t.folder < nextFolder
      modifies `folders, `nextFolder, `files, `nextFile
      ensures Valid()
      ensures TreeCopied(old(Now()), Now(), top, t, image, fileImage, size)
      ensures error != Some(NoParent) && (error.None? <==> TreeFits(old(folders), top, uid, t))
      ensures error.None? ==> WholeTree(old(Now()), top, uid, image, fileImage)
      ensures error.None? ==> SamePaths(old(folders), folders, top, uid, t, image)
      ensures FolderRows(old(folders), folders, top, t, image)
      ensures CopyRows(old(files), files, image, t.owner, "", fileImage)
      ensures error.None? ==> CopiesIn(old(files), uid, image.Keys, fileImage)
      ensures error.Some? ==> files == old(files) && size == 0 && fileImage == map[]
      ensures error.Some? && !MetAgain(old(folders), top, uid) ==> folders == old(folders)
      ensures SameRoots(old(folders), folders)
      ensures WellNamed(old(folders)) && ProperTop(old(folders), top, t) ==> WellNamed(folders)
      ensures Tidy(old(folders), old(files)) && IsOwnTarget(old(folders), t) ==> Tidy(folders, files)
    {
      hide SameRoots, WellNamed, FoldersSound, FilesSound, FoldersCopied, FilesCopied, Charged, Sum;
      hide CopiedSizes, FilesFit, Tidy, FolderRows, SamePaths, CopyRows;
      hide MetAgain, Reached, TreeFits, ProperTop, IsOwnTarget, Distinct, Level;
      ghost var f0, n0, g, next := folders, nextFolder, files, nextFile;
      var newIDs;
      newIDs, error := CopyTreeFolders(top, uid, t);
      size, image, fileImage := 0, newIDs, map[];
      FoldersCopiedWell(f0, folders, n0, nextFolder, top, t, image, g);
      NoFileCopied(g, nextFile, image, t.owner, "");
      FilesBelow(g, next, n0);
      if error.Some? {
        CopiesAreRows(g, g, next, next, image, t.owner, "", fileImage);
        return;
      }
      var found := Find(set i | i in files && files[i].user == uid && files[i].folder in newIDs);
      TreeFilesFit(f0, folders, n0, nextFolder, top, t, newIDs, files, nextFile, found, uid);
      var ok;
      size, ok, fileImage := CopyFiles(found, newIDs, t.owner, "");
      if Tidy(f0, g) && IsOwnTarget(f0, t) {
        FilesKeepTidy(folders, g, files, next, nextFile, image, t.owner, "", fileImage);
      }
      if !ok {
        error := Some(NameTaken);
      }
    }

    /** Copies or moves some files of one folder to t. A copy that clashes leaves the copies made so far. */
    method MoveOrCopyFileTo(ids: seq<Id>, uid: Id, from: Id, t: Target, isCopy: bool)
      returns (size: nat, ok: bool, ghost image: map<Id, Id>)
      requires Valid() && t.folder < nextFolder
      modifies `files, `nextFile
      ensures Valid()
      ensures isCopy ==> SomeCopied(old(Now()), Now(), ids, uid, from, t, image, size)
      ensures isCopy ==> CopyRows(old(files), files, map[from := t.folder], t.owner, t.name, image)
      ensures isCopy && ok ==> CopiesOf(old(files), ids, uid, from, image)
      ensures !isCopy && ok ==> FilesMoved(old(files), files, ids, uid, from, t)
      ensures isCopy ==>
                && (ok <==> SomeFit(old(files), ids, uid, from, t))
                && (ok ==> image.Keys == Chosen(old(files), ids, uid, from))
      ensures !isCopy ==> var after := MovedFiles(old(files), ids, uid, from, t);
                          && (ok <==> UniqueFiles(after)) && files == (if ok then after else old(files))
                          && Charged(old(files), files, t.owner, 0)
      ensures && Tidy(folders, old(files)) && t.folder in folders && folders[t.folder].owner == t.owner
              && (isCopy || uid == t.owner)
              ==> Tidy(folders, files)
    {
      hide Charged, Sum, Total, FilesFit, FilesCopied, Tidy, FilesSound, CopyRows, FilesMoved;
      size, image := 0, map[];
      ghost var g, next := files, nextFile;
      ghost var tidy := Tidy(folders, g) && t.folder in folders && folders[t.folder].owner == t.owner;
      if isCopy {
        var found := Find(set i | i in files && i in ids && files[i].user == uid && files[i].folder == from);
        assert Copyable(files, found) == Chosen(files, ids, uid, from);
        size, ok, image := CopyFiles(found, map[from := t.folder], t.owner, t.name);
        if tidy {
          FilesKeepTidy(folders, g, files, next, nextFile, map[from := t.folder], t.owner, t.name, image);
        }
      } else {
        var after := MovedFiles(files, ids, uid, from, t);
        MoveChargesNothing(files, ids, uid, from, t);
        MovedFilesAre(files, ids, uid, from, t);
        NoFileCopied(files, nextFile, map[], t.owner, "");
        if tidy && uid == t.owner {
          MovedFilesKeepTidy(folders, files, ids, uid, from, t);
        }
        ok := UniqueFiles(after);
        if ok {
          MovedSound(files, nextFile, nextFolder, ids, uid, from, t);
          files := after;
        }
      }
    }

    /** Moves some child folders of from to t, all of them or none. */
    method MoveFolderTo(dirs: seq<Id>, uid: Id, from: Id, t: Target) returns (ok: bool)
      requires Valid() && t.folder < nextFolder
      modifies `folders
      ensures Valid()
      ensures var after := Moved(old(folders), Reach(old(folders), SetOf(dirs), uid, from), t);
              && (ok <==> !Guarded(SetOf(dirs), uid, t) && UniqueFolders(after))
              && folders == if ok then after else old(folders)
      ensures ok ==> FoldersMoved(old(folders), folders, dirs, uid, from, t)
      ensures uid == t.owner && t.folder in dirs ==> !ok
      ensures SameRoots(old(folders), folders)
      ensures WellNamed(old(folders)) && (t.name == "" || Element(t.name)) ==> WellNamed(folders)
    {
      if uid == t.owner && t.folder in dirs {
        return false;
      }
      MovedFoldersAre(folders, dirs, uid, from, t);
      var after := Moved(folders, Reach(folders, SetOf(dirs), uid, from), t);
      ok := UniqueFolders(after);
      if ok {
        folders := after;
      }
    }

    // ---- file records and storage ----

    /** Inserts a record and charges its owner, or neither. */
    method CreateFile(row: File) returns (r: Option<Id>)
      requires Valid() && row.folder < nextFolder
      modifies `files, `nextFile, `storage
      ensures Valid()
      ensures r.None? <==> FileConflict(old(files), row)
      ensures r.None? ==> files == old(files) && storage == old(storage) && nextFile == old(nextFile)
      ensures r.Some? ==>
                r.value == old(nextFile) && nextFile == old(nextFile) + 1 && files == old(files)[r.value := row]
      ensures r.Some? ==> r.value !in old(files) && storage == Change(old(storage), row.user, row.size)
      ensures Calibrated(old(storage), old(files)) ==> Calibrated(storage, files)
      ensures Tidy(folders, old(files)) && row.folder in folders && folders[row.folder].owner == row.user
              ==> Tidy(folders, files)
    {
      hide Calibrated, Total, Tidy;
      ghost var g, s := files, storage;
      if Tidy(folders, files) && row.folder in folders && folders[row.folder].owner == row.user {
        FileKeepsTidy(folders, files, nextFile, row);
      }
      r := InsertFile(row);
      if r.Some? {
        ChangeStorage(row.user, row.size);
        CreateCharged(g, r.value, row);
        if Calibrated(s, g) {
          ChargeKeepsLaw(s, g, files, row.user, row.size);
        }
      }
    }

    /** Deletes records and gives their storage back, all or none. */
    method DeleteFiles(rows: seq<Row>, uid: Id) returns (ok: bool)
      requires Valid()
      modifies `files, `storage
      ensures Valid()
      ensures ok <==> Deletable(old(files), rows, uid)
      ensures ok ==> files == old(files) - IdsOf(rows)
      ensures ok ==> storage == if uid > 0 then Change(old(storage), uid, 0 - SizeOf(rows)) else old(storage)
      ensures !ok ==> files == old(files) && storage == old(storage)
    {
      hide Deletable, IdsOf, SizeOf;
      var tx, size := files, 0;
      NothingDeleted(files, rows, uid);
      var i := 0;
      while i < |rows|
        invariant 0 <= i <= |rows| && tx == files - IdsOf(rows[..i]) && size == SizeOf(rows[..i])
        invariant Deletable(files, rows[..i], uid) && files == old(files) && storage == old(storage)
      {
        var row := rows[i];
        DeletableFront(files, rows, uid, i);
        if uid > 0 && row.file.user != uid {
          return false;
        }
        if row.id !in tx || tx[row.id].size != row.file.size {
          return false;
        }
        tx, size, i := tx - {row.id}, size + row.file.size, i + 1;
      }
      assert rows[..i] == rows;
      files, ok := tx, true;
      if uid > 0 {
        ChangeStorage(uid, 0 - size);
      }
    }

    /** Sets the size of a record that the caller holds and moves the owner's storage by the difference
        the caller sees. */
    method UpdateSize(row: Row, value: nat) returns (after: Row)
      requires Valid()
      modifies `files, `storage
      ensures Valid() && after == Row(row.id, row.file.(size := value))
      ensures files == Resized(old(files), row, value)
      ensures files.Keys == old(files).Keys && forall i :: i in files ==>
                files[i] == if i == row.id && old(files)[i].size == row.file.size then old(files)[i].(size := value)
                            else old(files)[i]
      ensures storage == Change(old(storage), row.file.user, value - row.file.size)
    {
      var delta := if value > row.file.size then value - row.file.size else 0 - (row.file.size - value);
      if row.id in files && files[row.id].size == row.file.size {
        files := files[row.id := files[row.id].(size := value)];
      }
      ChangeStorage(row.file.user, delta);
      after := row.(file := row.file.(size := value));
    }

    /** Stores the path that the caller's record has. */
    method UpdateSourceName(row: Row)
      requires Valid()
      modifies `files
      ensures Valid()
      ensures files == if row.id !in old(files) then old(files)
                       else old(files)[row.id := old(files)[row.id].(source := row.file.source)]
    {
      if row.id in files {
        files := files[row.id := files[row.id].(source := row.file.source)];
      }
    }

    method SumOfSizes(u: Id) returns (total: nat)
      ensures total == Total(files, u)
    {
      total := 0;
      var left := files.Keys;
      assert Part(files, left) == files;
      while left != {}
        invariant left <= files.Keys && total + Total(Part(files, left), u) == Total(files, u)
        decreases |left|
      {
        var i :| i in left;
        TotalRemove(Part(files, left), i, u);
        assert Part(files, left) - {i} == Part(files, left - {i});
        if files[i].user == u {
          total := total + files[i].size;
        }
        left := left - {i};
      }
    }

    /** Recomputes every user's storage: the law holds, and if it held before nothing changes. */
    method Calibrate()
      modifies `storage
      ensures Calibrated(storage, files) && storage.Keys == old(storage).Keys
      ensures Calibrated(old(storage), files) ==> storage == old(storage)
    {
      hide Total;
      var left := storage.Keys;
      while left != {}
        invariant left <= storage.Keys == old(storage).Keys
        invariant forall u :: u in storage ==> storage[u] == if u in left then old(storage)[u] else Total(files, u)
        decreases |left|
      {
        var u :| u in left;
        var total := SumOfSizes(u);
        storage := storage[u := total];
        left := left - {u};
      }
    }

    // ---- folder records ----

    /** Creates a folder, or finds one like it. It fails only when no folder is like it and its name is
        taken, by another owner's folder. */
    method CreateFolder(name: string, parent: Id, owner: Id) returns (r: Option<Id>)
      requires Valid() && parent < nextFolder
      modifies `folders, `nextFolder
      ensures Valid() && old(nextFolder) <= nextFolder
      ensures var row, f := Folder(name, Some(parent), owner), old(folders);
              if exists i :: i in f && Like(f[i], row) then
                r.Some? && r.value in f && Like(f[r.value], row) && folders == f
              else if FolderConflict(f, row) then r.None? && folders == f
              else r == Some(old(nextFolder)) && r.value !in f && folders == f[r.value := row]
      ensures Tidy(old(folders), files) && parent in old(folders) && old(folders)[parent].owner == owner
              ==> Tidy(folders, files)
      ensures SameRoots(old(folders), folders)
      ensures WellNamed(old(folders)) && Element(name) ==> WellNamed(folders)
    {
      hide Tidy;
      var row := Folder(name, Some(parent), owner);
      if i :| i in folders && Like(folders[i], row) {
        return Some(i);
      }
      if Tidy(folders, files) && parent in folders && folders[parent].owner == owner {
        CreateFolderKeepsTidy(folders, files, nextFolder, row);
      }
      r := InsertFolder(row);
    }

    method DeleteFolderByIDs(ids: seq<Id>)
      requires Valid()
      modifies `folders
      ensures Valid() && folders == old(folders) - SetOf(ids)
    {
      folders := folders - SetOf(ids);
    }
  }
}
