/** For each promise that does not always hold, an input that breaks it. */
module Mishaps {
  import opened Accounts
  import opened ChunkUpload
  import opened Database
  import opened Deletion
  import opened Directories
  import opened FileManager
  import opened FolderPaths
  import opened FolderTree
  import opened Names
  import opened Objects
  import opened Tables
  import opened TreeCopy
  import opened TreeMove
  import opened Validator
  import opened Wrappers

  /** The folders /, /a and /b of user 7. */
  function Tree(): Folders {
    map[1 := Folder("/", None, 7), 2 := Folder("a", Some(1), 7), 3 := Folder("b", Some(1), 7)]
  }

  function FileAt(name: string, source: string, size: nat, folder: Id): File {
    File(name, source, 7, size, folder, 9, None)
  }

  // ---- deleting ----

  /** /a/x alone. */
  function OneFile(): Files {
    map[5 := FileAt("x", "p", 3, 2)]
  }

  /** Deleting /a together with the file /a/x: the records are refused, and /a/x can no longer be read. */
  lemma LostWithItsFolder(rows: seq<Row>, folders: seq<Id>)
    requires Targets(OneFile(), rows, folders, [5], 7) && 2 in folders
    requires forall x :: x in folders ==> x in Tree() && Tree()[x].owner == 7
    ensures var g, o, none := OneFile(), map[Key(9, "p") := "abc"], Outage({}, {});
            && !Deletable(g, Dropped(g, rows, false, false, none), 7)
            && 5 in View(g, o) && 5 !in View(g, o - Going(g, rows, false, none))
  {
    var g, none := OneFile(), Outage({}, {});
    assert 5 in Named(g, [5], 7) && Goes(g, 5, false, false, none);
    RefusedIff(Tree(), g, rows, folders, [5], 7, false, false, none);
    TargetIds(g, rows, folders, [5], 7);
    var r :| r in rows && r.id == 5;
    assert KeyOf(r.file) in Sole(g, rows);
  }

  method DeleteWithItsFolder(fs: FileSystem)
    requires fs.db.Valid() && fs.db.folders == Tree() && fs.db.files == OneFile()
    requires fs.objects == map[Key(9, "p") := "abc"]
    modifies fs, fs.db
    ensures fs.db.folders == Tree() && fs.db.files == OneFile() && 5 !in View(fs.db.files, fs.objects)
  {
    hide Targets, Listing, Flatten, WithoutRoot, View, Going, Dropped, Deletable, Tidy, Calibrated;
    hide NamedTwice, Level, WellNamed, SameRoots, Charged;
    var result;
    ghost var l;
    result, l := fs.Delete([2], [5], 7, false, false, Outage({}, {}));
    StartsListed(Tree(), SetOf([2]), 7, l.levels);
    WithoutRootKeeps(Tree(), Flatten(l.levels), 2);
    ListedAreOwned(Tree(), SetOf([2]), 7, l.levels);
    LostWithItsFolder(l.targets, l.folders);
  }

  /** /a/x and /a/y with one object. */
  function OneObject(): Files {
    map[5 := FileAt("x", "p", 3, 2), 6 := FileAt("y", "p", 3, 2)]
  }

  lemma BothShareIt(rows: seq<Row>, none: Outage)
    requires forall r :: r in rows ==> r.id in OneObject() && r.file == OneObject()[r.id]
    ensures Going(OneObject(), rows, false, none) == Staying(OneObject(), rows, false, none) == {}
  {
    var g := OneObject();
    assert 5 in g && 6 in g && KeyOf(g[5]) == KeyOf(g[6]) == Key(9, "p");
    forall r | r in rows
      ensures Shared(g, r.id, KeyOf(r.file))
    {
      assert if r.id == 5 then KeyOf(g[6]) == KeyOf(r.file) else KeyOf(g[5]) == KeyOf(r.file);
    }
    assert Sole(g, rows) == {};
  }

  /** Deleting /a with both records of one object: nothing points at the object any more, and it is still
      there. */
  lemma LeftWithoutRecords(rows: seq<Row>, folders: seq<Id>)
    requires Targets(OneObject(), rows, folders, [], 7) && 2 in folders
    requires forall x :: x in folders ==> x in Tree() && Tree()[x].owner == 7
    ensures var g, none := OneObject(), Outage({}, {});
            && Deletable(g, Dropped(g, rows, false, false, none), 7) && Going(g, rows, false, none) == {}
            && g - IdsOf(Dropped(g, rows, false, false, none)) == map[]
  {
    hide Going, Staying, Deletable, Goes;
    var g, none := OneObject(), Outage({}, {});
    TargetIds(g, rows, folders, [], 7);
    BothShareIt(rows, none);
    WithoutNothing(rows);
    assert IdsOf(rows) == g.Keys;
    assert g - IdsOf(rows) == map[];
    RefusedIff(Tree(), g, rows, folders, [], 7, false, false, none);
  }

  method DeleteBothRecords(fs: FileSystem)
    requires fs.db.Valid() && fs.db.folders == Tree() && fs.db.files == OneObject()
    requires fs.objects == map[Key(9, "p") := "abc"]
    modifies fs, fs.db
    ensures fs.db.files == map[] && fs.objects == map[Key(9, "p") := "abc"]
  {
    hide Targets, Listing, Flatten, WithoutRoot, View, Going, Dropped, Deletable, Tidy, Calibrated;
    hide NamedTwice, Level, WellNamed, SameRoots, Charged, IdsOf, SizeOf, Placed, OneRoot, GivesNothingBack;
    var result;
    ghost var l;
    result, l := fs.Delete([2], [], 7, false, false, Outage({}, {}));
    StartsListed(Tree(), SetOf([2]), 7, l.levels);
    WithoutRootKeeps(Tree(), Flatten(l.levels), 2);
    ListedAreOwned(Tree(), SetOf([2]), 7, l.levels);
    LeftWithoutRecords(l.targets, l.folders);
  }

  // ---- creating directories ----

  lemma RootIsThere()
    ensures forall id :: LeadsTo(Tree(), 7, None, [], id) <==> id == 1
    ensures There(Tree(), 7, None, [])
  {
    hide LeadsTo;
    forall id {
      StartLeads(Tree(), 7, None, id);
    }
    assert LeadsTo(Tree(), 7, None, [], 1);
  }

  lemma AIsThere()
    ensures forall id :: LeadsTo(Tree(), 7, None, ["a"], id) <==> id == 2
    ensures There(Tree(), 7, None, ["a"])
  {
    hide LeadsTo;
    RootIsThere();
    assert ["a"][..0] == [];
    forall id {
      LeadsToChild(Tree(), 7, None, ["a"], id);
    }
    assert LeadsTo(Tree(), 7, None, ["a"], 2);
  }

  /** Nothing has this name in the folder that the path leads to. */
  lemma FreeBelow(front: seq<string>, p: Id, name: string)
    requires forall id :: LeadsTo(Tree(), 7, None, front, id) <==> id == p
    requires LegalName(name) && name != "a" && name != "b" && name != "/"
    ensures MayBeMade(Tree(), map[], 7, None, front + [name])
  {
    hide LeadsTo, LegalName;
    assert (front + [name])[..|front|] == front;
  }

  lemma SpaceNames()
    ensures TrimRight("x ") == "x" && LegalName("x") && Elements(["a", "x "])
    ensures Path(["a", "x "]) == "/a/x "
  {
    assert "x "[..1] == "x";
    assert ["a", "x "][..1] == ["a"] && ["a"][..0] == [];
  }

  /** Creating "/a/x " creates /a/x. */
  lemma CreatedElsewhere()
    ensures var es := ["a", "x "];
            Corrected(Tree(), 7, None, es) == ["a", "x"] && Creatable(Tree(), map[], 7, None, es)
    ensures Resolve(Split("/a/x ")) == ["a", "x "]
  {
    hide LeadsTo, LegalName, TrimRight, Corrected, Creatable, There, MayBeMade, Elements, Resolve, Split;
    var f, es := Tree(), ["a", "x "];
    assert es[..1] == ["a"];
    AIsThere();
    SpaceNames();
    FreeBelow(["a"], 2, "x");
    CorrectedAbove(f, 7, None, es);
    CreatableAbove(f, map[], 7, None, es);
    Fields(es);
  }

  lemma Fields(es: seq<string>)
    requires Elements(es)
    ensures Resolve(Split(Path(es))) == es
  {
    hide Split;
    Names.SplitPath(es);
    ResolveElements(es);
  }

  method CreateWithSpace(db: DB) returns (r: Option<Id>)
    requires db.Valid() && db.folders == Tree() && db.files == map[]
    modifies db
    ensures r.Some? && r.value in db.folders && db.folders[r.value] == Folder("x", Some(2), 7)
    ensures !LeadsTo(db.folders, 7, None, ["a", "x "], r.value)
  {
    hide Creatable, Corrected, LeadsTo, Tidy, WellNamed, Elements, Resolve, Split;
    CreatedElsewhere();
    r := CreateDirectory(db, 7, None, "/a/x ");
    EndsAt(db.folders, r.value);
  }

  lemma EndsAt(f: Folders, r: Id)
    requires r in f && LeadsTo(f, 7, None, ["a", "x"], r)
    requires forall id :: id in Tree() ==> id in f && f[id] == Tree()[id]
    requires UniqueFolders(f) && forall id :: id in f && f[id].parent.None? ==> id in Tree()
    ensures f[r] == Folder("x", Some(2), 7)
  {
    hide LeadsTo;
    LeadsToChild(f, 7, None, ["a", "x"], r);
    assert ["a", "x"][..1] == ["a"] && ["a"][..0] == [];
    var p := f[r].parent.value;
    LeadsToChild(f, 7, None, ["a"], p);
    var q := f[p].parent.value;
    StartLeads(f, 7, None, q);
    assert q in Tree() && f[q] == Tree()[q] && q == 1;
    assert 2 in Tree() && f[2] == Tree()[2];
    assert p == 2;
  }

  lemma DotNames()
    ensures TrimRight(".. ") == ".." && LegalName("..") && Elements([".. "]) && !Element("..")
    ensures Path([".. "]) == "/.. "
  {
    assert ".. "[..2] == "..";
    assert [".. "][..0] == [];
  }

  lemma TreeIsWellNamed()
    ensures WellNamed(Tree())
  {
  }

  /** Creating "/.. " creates a folder called "..", which is no proper path element. */
  lemma CreatedDots()
    ensures Corrected(Tree(), 7, None, [".. "]) == [".."] && Creatable(Tree(), map[], 7, None, [".. "])
    ensures Resolve(Split("/.. ")) == [".. "] && !Element("..")
  {
    hide LeadsTo, LegalName, TrimRight, Corrected, Creatable, There, MayBeMade, Element, Elements, Resolve, Split;
    var f, es := Tree(), [".. "];
    assert es[..0] == [];
    RootIsThere();
    DotNames();
    FreeBelow([], 1, "..");
    CorrectedAbove(f, 7, None, es);
    CreatableAbove(f, map[], 7, None, es);
    Fields(es);
  }

  method CreateDots(db: DB)
    requires db.Valid() && db.folders == Tree() && db.files == map[]
    modifies db
    ensures WellNamed(old(db.folders)) && !WellNamed(db.folders)
  {
    hide Creatable, Corrected, LeadsTo, Tidy, WellNamed, Resolve, Split, Element;
    CreatedDots();
    TreeIsWellNamed();
    var r := CreateDirectory(db, 7, None, "/.. ");
  }

  // ---- accounting ----

  /** /a/x, and files called y in / and in /b. */
  function ThreeFiles(): Files {
    map[5 := FileAt("x", "p", 3, 2), 6 := FileAt("y", "q", 1, 1), 8 := FileAt("y", "r", 1, 3)]
  }

  /** Copying /a with its three bytes and the file /y to /b, where a file is called y: the folder is
      copied, the file is not, and nothing is charged. */
  lemma CopiedButNotCharged()
    ensures Uncharged(Tree(), ThreeFiles(), [2], [6], 7, 1, Target(3, 7, ""))
  {
    hide TreeFits, SomeFit, TreeBytes;
    NameIsFree();
    SomeBytes(Tree(), ThreeFiles());
    NameIsTaken(ThreeFiles());
  }

  method CopyWithoutCharge(fs: FileSystem)
    requires fs.db.Valid() && fs.db.folders == Tree() && fs.db.files == ThreeFiles() && 7 in fs.db.storage
    requires Calibrated(fs.db.storage, fs.db.files)
    modifies fs.db
    ensures !Calibrated(fs.db.storage, fs.db.files)
  {
    hide Calibrated, Uncharged, CopyFits, TreeFits, SomeFit, TreeBytes, CopiedWell, TreeCopied, SomeCopied;
    hide WholeTree, Chosen, WellNamed;
    CopiedButNotCharged();
    var ok;
    ghost var c;
    ok, c := fs.Copy([2], [6], 7, Some(1), Some(3), "");
  }

  lemma NameIsFree()
    ensures TreeFits(Tree(), 2, 7, Target(3, 7, ""))
  {
    TreeIsForest();
    hide Forest;
    ForestFits(Tree(), 2, 7, Target(3, 7, ""));
  }

  lemma NameIsTaken(g: Files)
    requires UniqueFiles(g) && 6 in g && g[6] == FileAt("y", "q", 1, 1) && 8 in g && g[8] == FileAt("y", "r", 1, 3)
    ensures !SomeFit(g, [6], 7, 1, Target(3, 7, ""))
  {
    hide FilesFit;
    var chosen := Chosen(g, [6], 7, 1);
    assert 6 in chosen;
    OneFolderFits(g, chosen, 7, 1, Target(3, 7, ""));
  }

  lemma TreeIsForest()
    ensures Forest(Tree())
  {
    assert AtDepth(Tree(), 1, 0);
    assert AtDepth(Tree(), 2, 1);
    assert AtDepth(Tree(), 3, 1);
  }

  lemma SomeBytes(f: Folders, g: Files)
    requires f == Tree() && 5 in g && g[5] == FileAt("x", "p", 3, 2)
    ensures TreeBytes(f, g, 2, 7) > 0
  {
    assert 2 in Level(f, {2}, 7, 0);
    assert Reached(f, 2, 7, 2);
    var sizes := SizesIn(g, TreeFiles(g, 7, ReachedSet(f, 2, 7)));
    assert 5 in sizes && sizes[5] == 3;
    SumRemove(sizes, 5);
  }

  /** A caller that takes the three bytes of a file for two sets its size to four: the storage grows by two,
      and the file does not. */
  lemma ChargedButNotResized()
    ensures var g, storage, row := map[5 := FileAt("x", "p", 3, 2)], map[7 := 3], Row(5, FileAt("x", "p", 2, 2));
            Calibrated(storage, g) && !Calibrated(Change(storage, 7, 4 - 2), Resized(g, row, 4))
  {
    var g, storage, row := map[5 := FileAt("x", "p", 3, 2)], map[7 := 3], Row(5, FileAt("x", "p", 2, 2));
    TotalRemove(g, 5, 7);
    assert g - {5} == map[];
    assert SizesOf(map[], 7) == map[];
    ResizeKeepsLawIff(storage, g, row, 4);
  }

  // ---- overwriting ----

  /** /a/x and /a/y with one object, and /a/z with another. */
  function TwoAndOne(): Files {
    map[5 := FileAt("x", "p", 3, 2), 6 := FileAt("y", "p", 3, 2), 8 := FileAt("z", "q", 3, 2)]
  }

  /** The path generated for a write to /a/x is that of /a/z: what /a/z reads changes. */
  lemma OverwrittenThroughAnother()
    ensures var g, o := TwoAndOne(), map[Key(9, "p") := "abc", Key(9, "q") := "xyz"];
            && Shared(g, 5, KeyOf(g[5])) && WriteTo(g, 5, "q") == "q" && View(g, o)[8] == "xyz"
            && var after := View(Written(g, 5, "q", 3), o[Key(9, "q") := "new"]);
               8 in after && after[8] == "new"
  {
    var g := TwoAndOne();
    assert 6 in g && KeyOf(g[6]) == KeyOf(g[5]);
    assert 8 in g && KeyOf(g[8]) == Key(9, "q");
  }

  method PutThroughAnother(fs: FileSystem)
    requires fs.db.Valid() && fs.db.files == TwoAndOne()
    requires fs.objects == map[Key(9, "p") := "abc", Key(9, "q") := "xyz"] && 7 in fs.db.storage
    modifies fs, fs.db
    ensures 8 in fs.db.files && fs.db.files[8] == FileAt("z", "q", 3, 2)
    ensures 8 in View(fs.db.files, fs.objects) && View(fs.db.files, fs.objects)[8] == "new"
  {
    hide View, Tidy, Calibrated, Charged, PathUnused, Shared;
    OverwrittenThroughAnother();
    assert LegalName("x");
    var ok := fs.PutContent(5, 7, Policy(9, 0, []), "q", "new", 3, 100, true);
  }

  // ---- uploading ----

  /** Two of the four bytes of the first chunk arrive: the upload is stuck. */
  lemma StuckAfterTwoBytes()
    ensures var s := State(10, 4, 100, 0, 0, None, true, true);
            Stuck(Next(s, 0, 4, "ab", NoFault))
  {
    var s := State(10, 4, 100, 0, 0, None, true, true);
    assert Mul(0, 4) == 0 && Mul(1, 4) == 4;
    FirstFailureSticks(s, 0, 4, "ab", NoFault);
  }
}
