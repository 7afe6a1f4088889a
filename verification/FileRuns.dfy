/** Whole runs of the file system: clients that perform any sequence of its operations, whether they
    succeed, are refused or break off. */
module FileRuns {
  import opened Accounts
  import opened Deletion
  import opened Directories
  import opened FileManager
  import opened FileSteps
  import opened FolderPaths
  import opened FolderTree
  import opened Names
  import opened Objects
  import opened Tables
  import opened TreeCopy
  import opened TreeMove
  import opened Validator
  import opened Wrappers

  datatype Op =
    | Create(uid: Id, dir: string, name: string, policy: Policy, path: string, body: Content, length: nat, max: nat)
    | Overwrite(uid: Id, id: Id, policy: Policy, path: string, body: Content, length: nat, max: nat, webdav: bool)
    | Copy(uid: Id, dirs: seq<Id>, ids: seq<Id>, src: string, dst: string, name: string)
    | Save(uid: Id, top: Option<Id>, id: Id, owner: Id, dst: string)
    | Move(uid: Id, dirs: seq<Id>, ids: seq<Id>, src: string, dst: string, name: string)
    | Delete(uid: Id, dirs: seq<Id>, ids: seq<Id>, force: bool, unlink: bool, outage: Outage)

  // ---- what a step should respect ----

  /** No record points at the path that was generated, if one is needed. */
  ghost predicate FreshPath(op: Op, g: Files) {
    match op
    case Create(_, _, _, policy, path, _, _, _) => forall i :: i in g ==> KeyOf(g[i]) != Key(policy.id, path)
    case Overwrite(_, id, _, path, _, _, _, _) => id in g ==> PathUnused(g, id, path)
    case _ => true
  }

  /** The path leads to the folder. */
  ghost predicate PathTo(f: Folders, uid: Id, path: string, id: Id) {
    FolderPaths.SplitPath(path) != [] && LeadsTo(f, uid, None, FolderPaths.SplitPath(path)[1..], id)
  }

  /** No folder is moved into itself, and none is deleted with folders beyond the reach of the listing. */
  ghost predicate Careful(op: Op, f: Folders) {
    match op
    case Move(uid, dirs, _, src, dst, _) =>
      forall a, b :: PathTo(f, uid, src, a) && PathTo(f, uid, dst, b) ==> !Inside(f, b, Reach(f, SetOf(dirs), uid, a))
    case Delete(uid, dirs, _, _, _, _) => Level(f, SetOf(dirs), uid, MAX_ROUNDS + 1) == {}
    case _ => true
  }

  /** A copy leaves nothing uncharged. */
  ghost predicate Solvent(op: Op, f: Folders, g: Files) {
    match op
    case Copy(uid, dirs, ids, src, dst, name) =>
      forall a, b :: PathTo(f, uid, src, a) && PathTo(f, uid, dst, b) ==>
        Paid(f, g, dirs, ids, uid, a, Target(b, uid, name))
    case _ => true
  }

  /** New folder names are proper path elements. */
  ghost predicate Proper(op: Op, f: Folders) {
    match op
    case Create(uid, dir, _, _, _, _, _, _) => Elements(Corrected(f, uid, None, Resolve(Split(dir))))
    case Copy(uid, dirs, _, _, _, name) => dirs != [] ==> ProperTop(f, dirs[0], Target(0, uid, name))
    case Save(uid, top, _, _, _) => top.Some? ==> ProperTop(f, top.value, Target(0, uid, ""))
    case Move(_, _, _, _, _, name) => name == "" || Element(name)
    case _ => true
  }

  // ---- what a step does ----

  /** The user exists, and no more bytes come than were announced. */
  predicate Possible(op: Op, storage: Storage) {
    && op.uid > 0 && op.uid in storage
    && (op.Create? || op.Overwrite? ==> |op.body| <= op.length)
  }

  /** The policy of a file that is overwritten is that of its record. */
  function PolicyFor(op: Op, g: Files): Policy
    requires op.Overwrite?
  {
    if op.id in g then op.policy.(id := g[op.id].policy) else op.policy
  }

  function FileOf(g: Files, id: Id): Row {
    Row(id, if id in g then g[id] else File("", "", 0, 0, 0, 0, None))
  }

  /** A path leads nowhere. */
  ghost predicate NoPath(f: Folders, uid: Id, path: string) {
    forall id :: !PathTo(f, uid, path, id)
  }

  /** A new file is written exactly if it is uploaded. */
  ghost predicate CreateStep(op: Op, w0: World, w1: World, es: seq<Event>)
    requires op.Create?
  {
    exists r: Option<Id> ::
      && Uploaded(w0, w1, op.name, op.uid, None, op.dir, op.policy, op.path, op.body, op.length, op.max, r)
      && es == if r.Some? then [Wrote(r.value, op.body)] else []
  }

  /** A file is written exactly if it may be and all arrives, or if what arrives goes to its own object. */
  ghost predicate OverwriteStep(op: Op, w0: World, w1: World, es: seq<Event>)
    requires op.Overwrite?
  {
    var g, policy := w0.now.files, PolicyFor(op, w0.now.files);
    var may := Writable(w0, op.id, op.uid, policy, op.path, op.length, op.max, op.webdav);
    && Overwritten(w0, w1, op.id, op.uid, policy, op.path, op.body, op.length, op.max, op.webdav,
                   may && |op.body| == op.length)
    && es == if may && (|op.body| == op.length || !Shared(g, op.id, KeyOf(g[op.id]))) then [Wrote(op.id, op.body)]
             else []
  }

  /** Between two folders the tree is copied, and then the files; the storage is charged if both fit. */
  ghost predicate CopyStep(op: Op, w0: World, w1: World, es: seq<Event>)
    requires op.Copy?
  {
    var f := w0.now.folders;
    || ((NoPath(f, op.uid, op.src) || NoPath(f, op.uid, op.dst)) && w1 == w0 && es == [])
    || exists a, b, c, ok :: CopyDone(op, w0, w1, a, b, c, ok) && es == [Copied(c.image0), Copied(c.image1)]
  }

  ghost predicate CopyDone(op: Op, w0: World, w1: World, a: Id, b: Id, c: Copies, ok: bool)
    requires op.Copy?
  {
    && PathTo(w0.now.folders, op.uid, op.src, a) && PathTo(w0.now.folders, op.uid, op.dst, b)
    && CopiedBoth(w0.now, w1.now, op.dirs, op.ids, op.uid, a, Target(b, op.uid, op.name), c, ok)
    && w1.storage == (if ok then Change(w0.storage, op.uid, c.a + c.b) else w0.storage) && w1.objects == w0.objects
  }

  /** To a folder a shared tree or file is copied; the storage is charged whatever was copied. */
  ghost predicate SaveStep(op: Op, w0: World, w1: World, es: seq<Event>)
    requires op.Save?
  {
    var f, g := w0.now.folders, w0.now.files;
    || (((op.top.None? && op.id !in g) || NoPath(f, op.uid, op.dst)) && w1 == w0 && es == [])
    || exists b, folderImage, image, size, ok ::
         SaveDone(op, w0, w1, b, folderImage, image, size, ok) && es == [Copied(image)]
  }

  ghost predicate SaveDone(op: Op, w0: World, w1: World, b: Id, folderImage: map<Id, Id>, image: map<Id, Id>,
                           size: nat, ok: bool)
    requires op.Save?
  {
    && (op.top.None? ==> op.id in w0.now.files) && PathTo(w0.now.folders, op.uid, op.dst, b)
    && Saved(w0.now, w1.now, op.top, FileOf(w0.now.files, op.id), op.owner, Target(b, op.uid, ""),
             folderImage, image, size, ok)
    && w1.storage == Change(w0.storage, op.uid, size) && w1.objects == w0.objects
  }

  /** Between two folders the folders are moved, and then the files. */
  ghost predicate MoveStep(op: Op, w0: World, w1: World, es: seq<Event>)
    requires op.Move?
  {
    var f := w0.now.folders;
    && es == []
    && (|| ((NoPath(f, op.uid, op.src) || NoPath(f, op.uid, op.dst)) && w1 == w0)
        || exists a, b, foldersMoved, ok :: MoveDone(op, w0, w1, a, b, foldersMoved, ok))
  }

  ghost predicate MoveDone(op: Op, w0: World, w1: World, a: Id, b: Id, foldersMoved: bool, ok: bool)
    requires op.Move?
  {
    && PathTo(w0.now.folders, op.uid, op.src, a) && PathTo(w0.now.folders, op.uid, op.dst, b)
    && MovedBoth(w0.now, w1.now, op.dirs, op.ids, op.uid, a, Target(b, op.uid, op.name), foldersMoved, ok)
    && w1.storage == w0.storage && w1.objects == w0.objects
  }

  /** The records are erased, or, if they are refused, lose the objects that are gone. */
  ghost predicate DeleteStep(op: Op, w0: World, w1: World, es: seq<Event>)
    requires op.Delete?
  {
    exists l, result ::
      && Deleted(w0, w1, op.dirs, op.ids, op.uid, op.force, op.unlink, op.outage, l, result)
      && es == [DeleteEvent(op, w0.now.files, l, result)]
  }

  ghost function DeleteEvent(op: Op, g: Files, l: Listed, result: DeleteResult): Event
    requires op.Delete?
  {
    if result == Refused then Lost(Losing(g, Going(g, l.targets, op.unlink, op.outage)))
    else Erased(IdsOf(Dropped(g, l.targets, op.force, op.unlink, op.outage)))
  }

  ghost function Losing(g: Files, keys: set<Key>): set<Id> {
    set i | i in g && KeyOf(g[i]) in keys
  }

  /** A step of a run, with what it writes, copies and deletes. An impossible request does nothing. */
  ghost predicate Step(op: Op, w0: World, w1: World, es: seq<Event>) {
    if !Possible(op, w0.storage) then w1 == w0 && es == []
    else
      match op
      case Create(_, _, _, _, _, _, _, _) => CreateStep(op, w0, w1, es)
      case Overwrite(_, _, _, _, _, _, _, _) => OverwriteStep(op, w0, w1, es)
      case Copy(_, _, _, _, _, _) => CopyStep(op, w0, w1, es)
      case Save(_, _, _, _, _) => SaveStep(op, w0, w1, es)
      case Move(_, _, _, _, _, _) => MoveStep(op, w0, w1, es)
      case Delete(_, _, _, _, _, _) => DeleteStep(op, w0, w1, es)
  }

  function Joined(logs: seq<seq<Event>>): seq<Event> {
    if logs == [] then [] else Joined(logs[..|logs| - 1]) + logs[|logs| - 1]
  }

  lemma JoinedOn(first: seq<Event>, logs: seq<seq<Event>>, es: seq<Event>)
    ensures first + Joined(logs + [es]) == (first + Joined(logs)) + es
  {
    assert (logs + [es])[..|logs|] == logs;
  }

  // ---- reading what was written ----

  /** The event is about this record. */
  predicate Touches(e: Event, id: Id) {
    match e
    case Wrote(i, _) => i == id
    case Copied(image) => id in image.Values
    case Erased(ids) => id in ids
    case Lost(ids) => id in ids
  }

  lemma {:induction false} LastWrittenStays(first: seq<Event>, more: seq<Event>, id: Id)
    requires forall e :: e in more ==> !Touches(e, id)
    ensures LastWritten(first + more, id) == LastWritten(first, id)
    decreases |more|
  {
    if more == [] {
      assert first + more == first;
    } else {
      var n := |more| - 1;
      LastWrittenStays(first, more[..n], id);
      assert more[n] in more;
      var all := first + more;
      assert all[..|all| - 1] == first + more[..n] && all[|all| - 1] == more[n];
    }
  }

  /** The record whose content the request replaces by its body, if it succeeds. */
  ghost function Writes(op: Op, w: World): Option<Id> {
    match op
    case Create(uid, dir, name, policy, path, body, length, max) =>
      if Acceptable(policy, name, length) && HasRoom(w.storage, uid, length, max) && Key(policy.id, path) !in w.objects
         && |body| == length && FileFits(w.now.folders, w.now.files, uid, None, dir, name)
      then Some(w.now.nextFile) else None
    case Overwrite(uid, id, _, path, body, length, max, webdav) =>
      if Writable(w, id, uid, PolicyFor(op, w.now.files), path, length, max, webdav) && |body| == length
      then Some(id) else None
    case _ => None
  }

  lemma WriteLogged(op: Op, w0: World, w1: World, es: seq<Event>, id: Id)
    requires Step(op, w0, w1, es) && Possible(op, w0.storage) && Writes(op, w0) == Some(id)
    ensures es == [Wrote(id, op.body)]
  {
    hide FileFits, Corrected, Provided, Acceptable, HasRoom, Shared, Writable, Written;
  }

  /** After a successful upload or overwrite, and any steps that do not touch the record, what was last
      written through the record is the body: so a read gives it. */
  lemma {:induction false} WriteIsRead(first: seq<Event>, ops: seq<Op>, states: seq<World>, logs: seq<seq<Event>>,
                                       k: nat, id: Id)
    requires k < |ops| && |states| == |ops| + 1 && |logs| == |ops|
    requires forall j :: 0 <= j < |ops| ==> Step(ops[j], states[j], states[j + 1], logs[j])
    requires Possible(ops[k], states[k].storage) && Writes(ops[k], states[k]) == Some(id)
    requires forall j, e :: k < j < |ops| && e in logs[j] ==> !Touches(e, id)
    ensures LastWritten(first + Joined(logs), id) == Some(ops[k].body)
    decreases |ops|
  {
    hide Step, Possible;
    assert ops[k].Create? || ops[k].Overwrite?;
    hide Writes;
    var n := |ops| - 1;
    var front := first + Joined(logs[..n]);
    assert first + Joined(logs) == front + logs[n];
    if k == n {
      WriteLogged(ops[n], states[n], states[n + 1], logs[n], id);
      var all := front + logs[n];
      assert all[..|all| - 1] == front && all[|all| - 1] == Wrote(id, ops[n].body);
    } else {
      WriteIsRead(first, ops[..n], states[..n + 1], logs[..n], k, id);
      LastWrittenStays(front, logs[n], id);
    }
  }

  // ---- the invariant of all runs ----

  /** Whether every step so far has been fresh, solvent, careful and proper. */
  datatype Marks = Marks(allFresh: bool, allSolvent: bool, allCareful: bool, allProper: bool)

  ghost function Marked(m: Marks, op: Op, f: Folders, g: Files): Marks {
    Marks(m.allFresh && FreshPath(op, g), m.allSolvent && Solvent(op, f, g), m.allCareful && Careful(op, f),
          m.allProper && Proper(op, f))
  }

  ghost function MarkedBy(m: Marks, ops: seq<Op>, before: seq<World>): Marks
    requires |before| == |ops|
    decreases |ops|
  {
    if ops == [] then m
    else
      var n := |ops| - 1;
      Marked(MarkedBy(m, ops[..n], before[..n]), ops[n], before[n].now.folders, before[n].now.files)
  }

  /** So each mark stands for a condition on every step. */
  lemma {:induction false} MarksOfSteps(m: Marks, ops: seq<Op>, before: seq<World>)
    requires |before| == |ops|
    ensures var all := MarkedBy(m, ops, before);
            && (all.allFresh <==> m.allFresh && forall k :: 0 <= k < |ops| ==> FreshPath(ops[k], before[k].now.files))
            && (all.allSolvent <==>
                && m.allSolvent
                && forall k :: 0 <= k < |ops| ==> Solvent(ops[k], before[k].now.folders, before[k].now.files))
            && (all.allCareful <==>
                m.allCareful && forall k :: 0 <= k < |ops| ==> Careful(ops[k], before[k].now.folders))
            && (all.allProper <==> m.allProper && forall k :: 0 <= k < |ops| ==> Proper(ops[k], before[k].now.folders))
    decreases |ops|
  {
    hide FreshPath, Solvent, Careful, Proper;
    if ops != [] {
      var n := |ops| - 1;
      MarksOfSteps(m, ops[..n], before[..n]);
      assert forall k :: 0 <= k < n ==> ops[..n][k] == ops[k] && before[..n][k] == before[k];
    }
  }

  ghost function Debt(debt: map<Id, nat>, u: Id): nat {
    if u in debt then debt[u] else 0
  }

  /** Storage is the sum of the file sizes but for the bytes of copies that were never charged. */
  ghost predicate Owes(storage: Storage, debt: map<Id, nat>, g: Files) {
    forall u :: u in storage ==> storage[u] + Debt(debt, u) == Total(g, u)
  }

  /** Whatever the steps were, storage is the sum of the file sizes up to the debt. If all were fresh,
      every record reads what was last written through it; if all were solvent, the law of accounting
      holds; if all were careful, the folders are in order and the roots are those of f0; if all were
      proper, so are the names. */
  ghost predicate Kept(m: Marks, events: seq<Event>, debt: map<Id, nat>, f0: Folders, f: Folders, g: Files,
                       storage: Storage, o: Store) {
    && Owes(storage, debt, g)
    && (m.allFresh ==> ReadsLast(events, View(g, o)))
    && (m.allSolvent ==> Calibrated(storage, g))
    && (m.allCareful ==> Tidy(f, g) && SameRoots(f0, f))
    && (m.allProper ==> WellNamed(f))
  }

  /** With no debt the law of accounting holds. */
  lemma NoDebtIsLaw(storage: Storage, debt: map<Id, nat>, g: Files)
    requires Owes(storage, debt, g)
    ensures Calibrated(storage, g) <==> forall u :: u in storage ==> Debt(debt, u) == 0
  {
    forall u | u in storage
      ensures storage[u] == Total(g, u) <==> Debt(debt, u) == 0
    {
    }
  }

  lemma OwesOn(s: Storage, debt: map<Id, nat>, g: Files, s1: Storage, g1: Files, uid: Id, delta: int, extra: nat)
    requires Owes(s, debt, g) && s1 == Change(s, uid, delta) && Charged(g, g1, uid, delta + extra)
    ensures Owes(s1, debt[uid := Debt(debt, uid) + extra], g1)
    ensures extra == 0 ==> Owes(s1, debt, g1)
  {
  }

  lemma ChangeByNothing(s: Storage, uid: Id)
    ensures Change(s, uid, 0) == s
  {
  }

  lemma NoEvent(events: seq<Event>)
    ensures events + [] == events
  {
  }

  lemma RootsKeptTwice(f0: Folders, f: Folders, f1: Folders, f2: Folders)
    ensures SameRoots(f0, f) && SameRoots(f, f1) && SameRoots(f1, f2) ==> SameRoots(f0, f2)
    ensures SameRoots(f1, f1)
  {
  }

  function Owing(debt: map<Id, nat>, uid: Id, extra: nat): map<Id, nat> {
    if extra == 0 then debt else debt[uid := (if uid in debt then debt[uid] else 0) + extra]
  }

  /** What keeps the invariant over one step. */
  lemma StepKept(m: Marks, op: Op, events: seq<Event>, debt: map<Id, nat>, f0: Folders, f: Folders, g: Files,
                 s: Storage, o: Store, f1: Folders, g1: Files, s1: Storage, o1: Store, es: seq<Event>, uid: Id,
                 delta: int, extra: nat)
    requires Kept(m, events, debt, f0, f, g, s, o)
    requires s1 == Change(s, uid, delta) && Charged(g, g1, uid, delta + extra)
    requires Solvent(op, f, g) && Calibrated(s, g) ==> Calibrated(s1, g1)
    requires FreshPath(op, g) && ReadsLast(events, View(g, o)) ==> ReadsLast(events + es, View(g1, o1))
    requires Careful(op, f) && Tidy(f, g) ==> Tidy(f1, g1) && SameRoots(f, f1)
    requires Proper(op, f) && WellNamed(f) ==> WellNamed(f1)
    ensures Kept(Marked(m, op, f, g), events + es, Owing(debt, uid, extra), f0, f1, g1, s1, o1)
  {
    hide Calibrated, ReadsLast, View, Tidy, WellNamed, SameRoots, FreshPath, Solvent, Careful, Proper, Owes, Charged;
    OwesOn(s, debt, g, s1, g1, uid, delta, extra);
    RootsKeptTwice(f0, f, f1, f1);
  }

  lemma TidyHasOneRoot(f: Folders, g: Files, uid: Id)
    ensures Tidy(f, g) ==> OneRoot(f, uid)
  {
  }

  lemma SkippedStep(m: Marks, op: Op, events: seq<Event>, debt: map<Id, nat>, f0: Folders, f: Folders, g: Files,
                    storage: Storage, o: Store)
    requires Kept(m, events, debt, f0, f, g, storage, o)
    ensures Kept(Marked(m, op, f, g), events, debt, f0, f, g, storage, o)
  {
  }

  lemma ProperAnywhere(f: Folders, top: Id, a: Id, b: Id, uid: Id, name: string)
    ensures ProperTop(f, top, Target(a, uid, name)) <==> ProperTop(f, top, Target(b, uid, name))
  {
  }

  /** Two events at once. */
  lemma ReadsOnTwice(events: seq<Event>, v0: map<Id, Content>, d: Event, v1: map<Id, Content>, e: Event,
                     v2: map<Id, Content>)
    requires ReadsLast(events, v0) && Follows(v0, d, v1) && Follows(v1, e, v2)
    ensures ReadsLast(events + [d, e], v2)
  {
    ReadsOn(events, v0, d, v1);
    ReadsOn(events + [d], v1, e, v2);
    assert events + [d] + [e] == events + [d, e];
  }

  lemma UploadCharges(w0: World, w1: World, op: Op, r: Option<Id>)
    requires op.Create?
    requires Uploaded(w0, w1, op.name, op.uid, None, op.dir, op.policy, op.path, op.body, op.length, op.max, r)
    ensures w1.storage == Change(w0.storage, op.uid, if r.Some? then op.length else 0)
    ensures r.Some? ==> r.value !in w0.now.files
  {
  }

  lemma MayNeedsRecord(w: World, op: Op, policy: Policy)
    requires op.Overwrite?
    ensures Writable(w, op.id, op.uid, policy, op.path, op.length, op.max, op.webdav) ==> op.id in w.now.files
  {
  }

  /** The records of removed objects read nothing any more. */
  lemma LossFollows(g: Files, o: Store, keys: set<Key>)
    ensures Follows(View(g, o), Lost(Losing(g, keys)), View(g, o - keys))
  {
    RemovalLoses(g, o, keys);
  }

  class Clients {
    const fs: FileSystem
    ghost const f0: Folders
    ghost var marks: Marks
    ghost var events: seq<Event>
    ghost var debt: map<Id, nat>

    ghost predicate Valid()
      reads this, fs, fs.db
    {
      fs.db.Valid() && Kept(marks, events, debt, f0, fs.db.folders, fs.db.files, fs.db.storage, fs.objects)
    }

    /** A file system of users with their roots, and no files. */
    constructor (fs: FileSystem)
      requires fs.db.Valid() && fs.db.files == map[] && Tidy(fs.db.folders, map[]) && WellNamed(fs.db.folders)
      requires forall u :: u in fs.db.storage ==> fs.db.storage[u] == 0
      ensures Valid() && this.fs == fs && f0 == fs.db.folders
      ensures marks == Marks(true, true, true, true) && events == [] && debt == map[]
    {
      this.fs, f0, marks, events, debt := fs, fs.db.folders, Marks(true, true, true, true), [], map[];
      new;
      assert forall u :: SizesOf(fs.db.files, u) == map[];
    }

    ghost function Now(): World
      reads fs, fs.db
    {
      fs.World()
    }

    method PerformCreate(op: Op) returns (ghost es: seq<Event>)
      requires Valid() && op.Create? && Possible(op, fs.db.storage)
      modifies fs, fs.db, `marks, `events, `debt
      ensures Valid() && marks == Marked(old(marks), op, old(fs.db.folders), old(fs.db.files))
      ensures events == old(events) + es && CreateStep(op, old(Now()), Now(), es)
    {
      hide Kept, Marked, Tidy, WellNamed, View, ReadsLast, SameRoots, Owes, Charged, FoldersSound, FilesSound;
      hide Resolve, Split, Calibrated, Corrected, Elements, FileFits, Filed, Acceptable, HasRoom;
      ghost var m, f, g, s, o := marks, fs.db.folders, fs.db.files, fs.db.storage, fs.objects;
      var r := fs.CreateFile(op.name, op.uid, None, op.dir, op.policy, op.path, op.body, op.length, op.max);
      es := if r.Some? then [Wrote(r.value, op.body)] else [];
      ChangeByNothing(s, op.uid);
      UploadCharges(old(Now()), Now(), op, r);
      if FreshPath(op, g) && ReadsLast(events, View(g, o)) {
        NoEvent(events);
        if r.Some? {
          ReadsOn(events, View(g, o), es[0], View(fs.db.files, fs.objects));
        }
      }
      StepKept(m, op, events, debt, f0, f, g, s, o, fs.db.folders, fs.db.files, fs.db.storage, fs.objects,
               es, op.uid, if r.Some? then op.length else 0, 0);
      marks, events := Marked(m, op, f, g), events + es;
    }

    method PerformOverwrite(op: Op) returns (ghost es: seq<Event>)
      requires Valid() && op.Overwrite? && Possible(op, fs.db.storage)
      modifies fs, fs.db, `marks, `events, `debt
      ensures Valid() && marks == Marked(old(marks), op, old(fs.db.folders), old(fs.db.files))
      ensures events == old(events) + es && OverwriteStep(op, old(Now()), Now(), es)
    {
      hide Kept, Marked, Tidy, WellNamed, View, ReadsLast, SameRoots, Owes, Charged, FoldersSound, FilesSound;
      hide Allowed, Shared, Written, Calibrated, Writable;
      ghost var m, f, g, s, o := marks, fs.db.folders, fs.db.files, fs.db.storage, fs.objects;
      var policy := PolicyFor(op, fs.db.files);
      ghost var may := Writable(Now(), op.id, op.uid, policy, op.path, op.length, op.max, op.webdav);
      MayNeedsRecord(Now(), op, policy);
      var ok := fs.PutContent(op.id, op.uid, policy, op.path, op.body, op.length, op.max, op.webdav);
      ghost var shown := may && (ok || !Shared(g, op.id, KeyOf(g[op.id])));
      es := if shown then [Wrote(op.id, op.body)] else [];
      ChangeByNothing(s, op.uid);
      if FreshPath(op, g) && ReadsLast(events, View(g, o)) {
        NoEvent(events);
        if shown {
          ReadsOn(events, View(g, o), es[0], View(fs.db.files, fs.objects));
        }
      }
      RootsStay(f);
      StepKept(m, op, events, debt, f0, f, g, s, o, fs.db.folders, fs.db.files, fs.db.storage, fs.objects,
               es, op.uid, if ok then op.length - g[op.id].size else 0, 0);
      marks, events := Marked(m, op, f, g), events + es;
    }

    /** The folder a path of the user leads to. */
    method Resolved(uid: Id, path: string) returns (r: Option<Id>)
      requires fs.db.Valid()
      ensures if r.Some? then fs.Found(r.value, uid) && PathTo(fs.db.folders, uid, path, r.value)
              else NoPath(fs.db.folders, uid, path)
    {
      hide LeadsTo;
      SoundIsUnique(fs.db.folders, fs.db.nextFolder);
      r := IsPathExist(fs.db.folders, uid, None, path);
      if r.Some? {
        LeadsWithin(fs.db.folders, uid, None, FolderPaths.SplitPath(path)[1..], r.value);
      }
    }

    /** Nothing happens, and nothing is logged. */
    ghost method Skip(op: Op) returns (es: seq<Event>)
      requires Valid()
      modifies `marks, `events
      ensures Valid() && marks == Marked(old(marks), op, fs.db.folders, fs.db.files)
      ensures events == old(events) + es && es == []
    {
      hide Marked;
      SkippedStep(marks, op, events, debt, f0, fs.db.folders, fs.db.files, fs.db.storage, fs.objects);
      NoEvent(events);
      marks, es := Marked(marks, op, fs.db.folders, fs.db.files), [];
    }

    method PerformCopy(op: Op) returns (ghost es: seq<Event>)
      requires Valid() && op.Copy? && Possible(op, fs.db.storage)
      modifies fs, fs.db, `marks, `events, `debt
      ensures Valid() && marks == Marked(old(marks), op, old(fs.db.folders), old(fs.db.files))
      ensures events == old(events) + es && CopyStep(op, old(Now()), Now(), es)
    {
      hide Kept, Marked, Tidy, WellNamed, View, ReadsLast, SameRoots, Owes, Charged, FoldersSound, FilesSound;
      hide DeepCopied, PathTo, Uncharged, Paid, ProperTop, Calibrated, CopiedBoth;
      ghost var m, f, g, s, o := marks, fs.db.folders, fs.db.files, fs.db.storage, fs.objects;
      var src := Resolved(op.uid, op.src);
      var dst := Resolved(op.uid, op.dst);
      if src.None? || dst.None? {
        es := Skip(op);
        return;
      }
      ProperAnywhere(f, if op.dirs != [] then op.dirs[0] else 0, 0, dst.value, op.uid, op.name);
      var ok;
      ghost var c;
      ok, c := fs.Copy(op.dirs, op.ids, op.uid, src, dst, op.name);
      es := [Copied(c.image0), Copied(c.image1)];
      assert CopyDone(op, old(Now()), Now(), src.value, dst.value, c, ok);
      ghost var extra: nat := if ok then 0 else c.a + c.b;
      if ReadsLast(events, View(g, o)) {
        ReadsOnTwice(events, View(g, o), es[0], View(c.mid.files, o), es[1], View(fs.db.files, o));
      }
      ChargedTwice(g, c.mid.files, fs.db.files, op.uid, c.a, c.b);
      ChangeByNothing(s, op.uid);
      RootsKeptTwice(f, f, c.mid.folders, fs.db.folders);
      RootsStay(f);
      StepKept(m, op, events, debt, f0, f, g, s, o, fs.db.folders, fs.db.files, fs.db.storage, fs.objects,
               es, op.uid, if ok then c.a + c.b else 0, extra);
      marks, events, debt := Marked(m, op, f, g), events + es, Owing(debt, op.uid, extra);
    }

    method PerformSave(op: Op) returns (ghost es: seq<Event>)
      requires Valid() && op.Save? && Possible(op, fs.db.storage)
      modifies fs, fs.db, `marks, `events, `debt
      ensures Valid() && marks == Marked(old(marks), op, old(fs.db.folders), old(fs.db.files))
      ensures events == old(events) + es && SaveStep(op, old(Now()), Now(), es)
    {
      hide Kept, Marked, Tidy, WellNamed, View, ReadsLast, SameRoots, Owes, Charged, FoldersSound, FilesSound;
      hide DeepCopied, PathTo, ProperTop, Calibrated, Saved;
      ghost var m, f, g, s, o := marks, fs.db.folders, fs.db.files, fs.db.storage, fs.objects;
      var dst := Resolved(op.uid, op.dst);
      if (op.top.None? && op.id !in fs.db.files) || dst.None? {
        es := Skip(op);
        return;
      }
      if op.top.Some? {
        ProperAnywhere(f, op.top.value, 0, dst.value, op.uid, "");
      }
      var ok;
      ghost var folderImage, image, size;
      ok, folderImage, image, size := fs.SaveTo(op.top, FileOf(fs.db.files, op.id), op.owner, op.uid, dst);
      es := [Copied(image)];
      assert SaveDone(op, old(Now()), Now(), dst.value, folderImage, image, size, ok);
      if ReadsLast(events, View(g, o)) {
        ReadsOn(events, View(g, o), es[0], View(fs.db.files, o));
      }
      StepKept(m, op, events, debt, f0, f, g, s, o, fs.db.folders, fs.db.files, fs.db.storage, fs.objects, es,
               op.uid, size, 0);
      marks, events := Marked(m, op, f, g), events + es;
    }

    method PerformMove(op: Op) returns (ghost es: seq<Event>)
      requires Valid() && op.Move? && Possible(op, fs.db.storage)
      modifies fs, fs.db, `marks, `events, `debt
      ensures Valid() && marks == Marked(old(marks), op, old(fs.db.folders), old(fs.db.files))
      ensures events == old(events) + es && MoveStep(op, old(Now()), Now(), es)
    {
      hide Kept, Marked, Tidy, WellNamed, View, ReadsLast, SameRoots, Owes, Charged, FoldersSound, FilesSound;
      hide PathTo, Inside, Reach, Calibrated, Element, MovedBoth;
      ghost var m, f, g, s, o := marks, fs.db.folders, fs.db.files, fs.db.storage, fs.objects;
      var src := Resolved(op.uid, op.src);
      var dst := Resolved(op.uid, op.dst);
      if src.None? || dst.None? {
        es := Skip(op);
        return;
      }
      var ok;
      ghost var moved;
      ok, moved := fs.Move(op.dirs, op.ids, op.uid, src, dst, op.name);
      assert MoveDone(op, old(Now()), Now(), src.value, dst.value, moved, ok);
      ChangeByNothing(s, op.uid);
      NoEvent(events);
      StepKept(m, op, events, debt, f0, f, g, s, o, fs.db.folders, fs.db.files, fs.db.storage, fs.objects, [],
               op.uid, 0, 0);
      marks, es := Marked(m, op, f, g), [];
    }

    /** A deletion, as an event and a change of the user's storage. */
    method DeleteOnce(op: Op) returns (ghost e: Event, ghost delta: int)
      requires fs.db.Valid() && op.Delete? && Possible(op, fs.db.storage)
      modifies fs, fs.db
      ensures fs.db.Valid() && DeleteStep(op, old(Now()), Now(), [e])
      ensures Follows(View(old(fs.db.files), old(fs.objects)), e, View(fs.db.files, fs.objects))
      ensures fs.db.storage == Change(old(fs.db.storage), op.uid, delta)
      ensures Charged(old(fs.db.files), fs.db.files, op.uid, delta)
      ensures Calibrated(old(fs.db.storage), old(fs.db.files)) ==> Calibrated(fs.db.storage, fs.db.files)
      ensures Careful(op, old(fs.db.folders)) && Tidy(old(fs.db.folders), old(fs.db.files)) ==>
              Tidy(fs.db.folders, fs.db.files) && SameRoots(old(fs.db.folders), fs.db.folders)
      ensures WellNamed(old(fs.db.folders)) ==> WellNamed(fs.db.folders)
    {
      hide Tidy, WellNamed, View, SameRoots, Charged, FoldersSound, FilesSound, Listing, Flatten;
      hide WithoutRoot, Targets, Losing;
      hide Going, Dropped, IdsOf, SizeOf, Deletable, NamedTwice, Placed, Level, Calibrated, DeletedRows, BelowOne;
      hide GivesNothingBack, OneRoot;
      ghost var f, g, s, o := fs.db.folders, fs.db.files, fs.db.storage, fs.objects;
      var result;
      ghost var l;
      result, l := fs.Delete(op.dirs, op.ids, op.uid, op.force, op.unlink, op.outage);
      ghost var going := Going(g, l.targets, op.unlink, op.outage);
      e := DeleteEvent(op, g, l, result);
      TidyHasOneRoot(f, g, op.uid);
      if result == Refused {
        delta := 0;
        LossFollows(g, o, going);
        NothingCharged(g, op.uid);
        ChangeByNothing(s, op.uid);
      } else {
        delta := 0 - SizeOf(Dropped(g, l.targets, op.force, op.unlink, op.outage));
      }
    }

    method PerformDelete(op: Op) returns (ghost es: seq<Event>)
      requires Valid() && op.Delete? && Possible(op, fs.db.storage)
      modifies fs, fs.db, `marks, `events, `debt
      ensures Valid() && marks == Marked(old(marks), op, old(fs.db.folders), old(fs.db.files))
      ensures events == old(events) + es && DeleteStep(op, old(Now()), Now(), es)
    {
      hide Kept, Marked, Tidy, WellNamed, View, ReadsLast, SameRoots, Owes, Charged, FoldersSound, FilesSound;
      hide Calibrated, Follows, Careful, DeleteStep;
      ghost var m, f, g, s, o := marks, fs.db.folders, fs.db.files, fs.db.storage, fs.objects;
      ghost var e, delta;
      e, delta := DeleteOnce(op);
      es := [e];
      if ReadsLast(events, View(g, o)) {
        ReadsOn(events, View(g, o), e, View(fs.db.files, fs.objects));
      }
      StepKept(m, op, events, debt, f0, f, g, s, o, fs.db.folders, fs.db.files, fs.db.storage, fs.objects, es,
               op.uid, delta, 0);
      marks, events := Marked(m, op, f, g), events + es;
    }

    /** One step. */
    method Perform(op: Op) returns (ghost es: seq<Event>)
      requires Valid()
      modifies fs, fs.db, `marks, `events, `debt
      ensures Valid() && marks == Marked(old(marks), op, old(fs.db.folders), old(fs.db.files))
      ensures events == old(events) + es && Step(op, old(Now()), Now(), es)
    {
      hide Kept, Marked, CreateStep, OverwriteStep, CopyStep, SaveStep, MoveStep, DeleteStep;
      if !Possible(op, fs.db.storage) {
        es := Skip(op);
        return;
      }
      match op
      case Create(_, _, _, _, _, _, _, _) => es := PerformCreate(op);
      case Overwrite(_, _, _, _, _, _, _, _) => es := PerformOverwrite(op);
      case Copy(_, _, _, _, _, _) => es := PerformCopy(op);
      case Save(_, _, _, _, _) => es := PerformSave(op);
      case Move(_, _, _, _, _, _) => es := PerformMove(op);
      case Delete(_, _, _, _, _, _) => es := PerformDelete(op);
    }

    /** Any run, with its states and what each step logged. */
    method Execute(ops: seq<Op>) returns (ghost states: seq<World>, ghost logs: seq<seq<Event>>)
      requires Valid()
      modifies fs, fs.db, `marks, `events, `debt
      ensures Valid() && |states| == |ops| + 1 && |logs| == |ops|
      ensures states[0] == old(Now()) && states[|ops|] == Now()
      ensures marks == MarkedBy(old(marks), ops, states[..|ops|]) && events == old(events) + Joined(logs)
      ensures forall k :: 0 <= k < |ops| ==> Step(ops[k], states[k], states[k + 1], logs[k])
    {
      hide Kept, Marked, Step;
      states, logs := [Now()], [];
      NoEvent(events);
      for i := 0 to |ops|
        invariant Valid() && |states| == i + 1 && |logs| == i && states[0] == old(Now()) && states[i] == Now()
        invariant marks == MarkedBy(old(marks), ops[..i], states[..i]) && events == old(events) + Joined(logs)
        invariant forall k :: 0 <= k < i ==> Step(ops[k], states[k], states[k + 1], logs[k])
      {
        assert ops[..i + 1][..i] == ops[..i] && states[..i + 1][..i] == states[..i];
        ghost var es := Perform(ops[i]);
        JoinedOn(old(events), logs, es);
        assert (states + [Now()])[..i + 1] == states[..i + 1];
        states, logs := states + [Now()], logs + [es];
      }
      assert ops[..|ops|] == ops;
    }

    /** Reading a file: if every generated path so far was fresh, it gives what was last written through
        its record. */
    method Read(id: Id) returns (r: Option<Content>)
      requires Valid()
      ensures r == if id in fs.db.files && KeyOf(fs.db.files[id]) in fs.objects
                   then Some(fs.objects[KeyOf(fs.db.files[id])]) else None
      ensures marks.allFresh ==> r == LastWritten(events, id)
    {
      if id !in fs.db.files || KeyOf(fs.db.files[id]) !in fs.objects {
        return None;
      }
      r := Some(fs.objects[KeyOf(fs.db.files[id])]);
    }
  }
}
