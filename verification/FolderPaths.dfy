/** From paths to folders and back: models/folder.go, pkg/filesystem/path.go, pkg/util/path.go. */
module FolderPaths {
  import opened Tables
  import opened TreeMove
  import opened Names
  import opened Wrappers

  /** The components of a path, the first of them "/". */
  function SplitPath(path: string): (list: seq<string>) {
    if |path| == 0 || path[0] != '/' then []
    else if path == "/" then ["/"]
    else Split(path)[0 := "/"]
  }

  /** A rooted path but "/" is its components after the first, each after a slash, and none has a slash in it. */
  lemma SplitPathMeans(path: string)
    requires path != "" && path[0] == '/' && path != "/"
    ensures var list := SplitPath(path);
            && list[0] == "/" && Path(list[1..]) == path
            && forall k :: 1 <= k < |list| ==> '/' !in list[k]
  {
    hide Split;
    var fields := Split(path);
    SplitFieldsHaveNoSlash(path);
    SplitJoins(path);
    FirstField(path);
    assert SplitPath(path)[1..] == fields[1..];
    PathRest(fields);
    assert Path(fields) == "/" + Path(fields[1..]);
    assert ("/" + path)[1..] == path && ("/" + Path(fields[1..]))[1..] == Path(fields[1..]);
  }

  lemma {:induction false} PathRest(es: seq<string>)
    requires es != []
    ensures Path(es) == "/" + es[0] + Path(es[1..])
    decreases |es|
  {
    if |es| > 1 {
      var last := |es| - 1;
      PathRest(es[..last]);
      assert es[..last][1..] == es[1..][..last - 1];
    } else {
      assert es[..0] == [];
    }
  }

  lemma SplitOfName(es: seq<string>)
    requires Elements(es)
    ensures SplitPath(Name(es)) == ["/"] + es
  {
    hide Split, Path, Elements;
    NameIsRooted(es);
    if es != [] {
      PathLonger(es);
      Names.SplitPath(es);
      assert ([""] + es)[0 := "/"] == ["/"] + es;
    }
  }

  /** path.Join(a, b), when a is empty and b is clean or a is rooted. */
  function Join(a: string, b: string): string {
    if a == "" then b else SlashClean(a + "/" + b)
  }

  /** The names on the way from the root to the folder, which is n steps below it. */
  ghost function Trail(f: Folders, id: Id, n: nat): (es: seq<string>)
    requires AtDepth(f, id, n)
    ensures |es| == n
    decreases n
  {
    if n == 0 then [] else Trail(f, f[id].parent.value, n - 1) + [f[id].name]
  }

  lemma {:induction false} TrailElements(f: Folders, id: Id, n: nat)
    requires AtDepth(f, id, n) && WellNamed(f)
    ensures Elements(Trail(f, id, n))
    decreases n
  {
    if n > 0 {
      TrailElements(f, f[id].parent.value, n - 1);
    }
  }

  /** The path of the folder's parent, found by walking up to the root; None is a missing parent. */
  method TraceRoot(f: Folders, id: Id, ghost n: nat) returns (position: Option<string>)
    requires AtDepth(f, id, n)
    ensures SameOwners(f) && WellNamed(f)
            ==> position == Some(if n == 0 then "" else Name(Trail(f, f[id].parent.value, n - 1)))
    decreases n
  {
    if f[id].parent.None? {
      return Some("");
    }
    var p := f[id].parent.value;
    if p !in f || f[p].owner != f[id].owner {
      return None;
    }
    var above := TraceRoot(f, p, n - 1);
    if above.None? {
      return None;
    }
    position := Some(Join(above.value, f[p].name));
    if SameOwners(f) && WellNamed(f) && n > 1 {
      JoinStep(f, p, n - 1);
    }
  }

  /** Joining a folder's position and its name gives its path. */
  lemma JoinStep(f: Folders, id: Id, n: nat)
    requires AtDepth(f, id, n) && n > 0 && WellNamed(f)
    ensures Join(Name(Trail(f, f[id].parent.value, n - 1)), f[id].name) == Name(Trail(f, id, n))
  {
    var front, e := Trail(f, f[id].parent.value, n - 1), f[id].name;
    TrailElements(f, id, n);
    NameIsRooted(front);
    assert front + [e] == Trail(f, id, n) && (front + [e])[..n - 1] == front;
    SlashCleanFixesCanonical(front + [e]);
    if front == [] {
      CleanDoubleSlash(e);
    } else {
      assert Name(front) + "/" + e == Name(front + [e]);
    }
  }

  lemma CleanDoubleSlash(e: string)
    requires Element(e)
    ensures SlashClean("/" + "/" + e) == Name([e])
  {
    SplitAfter("", "");
    SplitAfter("/", e);
    assert Split("") == [""] && "" + "/" + "" == "/";
    ResolveAfter([], "");
    ResolveAfter([""], "");
    ResolveAfter(["", ""], e);
    assert [] + [""] == [""] && [""] + [""] == ["", ""];
  }

  lemma SplitAfter(a: string, e: string)
    requires '/' !in e
    ensures Split(a + "/" + e) == Split(a) + [e]
  {
    LastSlashAfter(a, e);
    var s := a + "/" + e;
    assert s[..|a|] == a && s[|a| + 1..] == e;
  }

  lemma ResolveAfter(fields: seq<string>, f: string)
    requires f == "" || Element(f)
    ensures Resolve(fields + [f]) == Resolve(fields) + if f == "" then [] else [f]
  {
    assert (fields + [f])[..|fields|] == fields;
  }

  // ---- walking down ----

  predicate IsRoot(f: Folders, uid: Id, id: Id) {
    id in f && f[id].parent.None? && f[id].owner == uid
  }

  /** The first of the user's roots. */
  predicate IsFirstRoot(f: Folders, uid: Id, id: Id) {
    IsRoot(f, uid, id) && forall r :: r in f && IsRoot(f, uid, r) ==> id <= r
  }

  /** Where a walk starts: at the preset root of the file system, or else at the first root of the user. */
  ghost predicate IsStart(f: Folders, uid: Id, preset: Option<Id>, start: Id) {
    if preset.Some? then start in f && start == preset.value else IsFirstRoot(f, uid, start)
  }

  /** The names lead from the start to the folder. */
  ghost predicate LeadsTo(f: Folders, uid: Id, preset: Option<Id>, es: seq<string>, id: Id) {
    exists start :: IsStart(f, uid, preset, start) && Leads(f, start, es, id)
  }

  lemma {:induction false} OneEnd(f: Folders, start: Id, es: seq<string>, a: Id, b: Id)
    requires UniqueFolders(f) && Leads(f, start, es, a) && Leads(f, start, es, b)
    ensures a == b
    decreases |es|
  {
    if es != [] {
      OneEnd(f, start, es[..|es| - 1], f[a].parent.value, f[b].parent.value);
    }
  }

  lemma SameStart(f: Folders, uid: Id, preset: Option<Id>, a: Id, b: Id)
    requires IsStart(f, uid, preset, a) && IsStart(f, uid, preset, b)
    ensures a == b
  {
  }

  lemma LeadsToOne(f: Folders, uid: Id, preset: Option<Id>, es: seq<string>, a: Id, b: Id)
    requires UniqueFolders(f) && LeadsTo(f, uid, preset, es, a) && LeadsTo(f, uid, preset, es, b)
    ensures a == b
  {
    hide IsStart, UniqueFolders, Leads;
    var s :| IsStart(f, uid, preset, s) && Leads(f, s, es, a);
    var u :| IsStart(f, uid, preset, u) && Leads(f, u, es, b);
    SameStart(f, uid, preset, s, u);
    OneEnd(f, s, es, a, b);
  }

  /** One name more leads to a child. */
  lemma LeadsToChild(f: Folders, uid: Id, preset: Option<Id>, es: seq<string>, id: Id)
    requires es != []
    ensures LeadsTo(f, uid, preset, es, id) <==>
            && id in f && f[id].parent.Some? && f[id].parent.value in f && f[id].name == es[|es| - 1]
            && f[f[id].parent.value].owner == f[id].owner
            && LeadsTo(f, uid, preset, es[..|es| - 1], f[id].parent.value)
  {
    hide IsStart;
    if start :| IsStart(f, uid, preset, start) && Leads(f, start, es, id) {
      assert Leads(f, start, es[..|es| - 1], f[id].parent.value);
    }
  }

  lemma {:induction false} SameOwnerAsStart(f: Folders, start: Id, es: seq<string>, id: Id)
    requires Leads(f, start, es, id)
    ensures id in f && start in f && f[id].owner == f[start].owner
    decreases |es|
  {
    if es != [] {
      SameOwnerAsStart(f, start, es[..|es| - 1], f[id].parent.value);
    }
  }

  lemma LeadsWithin(f: Folders, uid: Id, preset: Option<Id>, es: seq<string>, id: Id)
    requires LeadsTo(f, uid, preset, es, id)
    ensures id in f
    ensures (preset.Some? ==> preset.value in f && f[preset.value].owner == uid) ==> f[id].owner == uid
  {
    var start :| IsStart(f, uid, preset, start) && Leads(f, start, es, id);
    SameOwnerAsStart(f, start, es, id);
  }

  /** Every front of the names leads somewhere. */
  lemma {:induction false} FrontLeads(f: Folders, uid: Id, preset: Option<Id>, es: seq<string>, n: nat, id: Id)
    returns (at: Id)
    requires n <= |es| && LeadsTo(f, uid, preset, es, id)
    ensures LeadsTo(f, uid, preset, es[..n], at)
    decreases |es|
  {
    hide LeadsTo;
    if n == |es| {
      assert es[..n] == es;
      at := id;
    } else {
      var last := |es| - 1;
      LeadsToChild(f, uid, preset, es, id);
      at := FrontLeads(f, uid, preset, es[..last], n, f[id].parent.value);
      assert es[..last][..n] == es[..n];
    }
  }

  method GetRoot(f: Folders, uid: Id) returns (r: Option<Id>)
    ensures r.Some? ==> IsStart(f, uid, None, r.value)
    ensures r.None? ==> forall start :: !IsStart(f, uid, None, start)
  {
    if root :| root in f && IsFirstRoot(f, uid, root) {
      return Some(root);
    }
    r := None;
  }

  method GetChild(f: Folders, at: Id, name: string) returns (r: Option<Id>)
    requires at in f
    ensures r.Some? ==>
              && r.value in f && f[r.value].parent == Some(at) && f[r.value].owner == f[at].owner
              && f[r.value].name == name
    ensures r.None? ==> forall child :: child in f && f[child].parent == Some(at) && f[child].owner == f[at].owner ==>
              f[child].name != name
  {
    if child :| child in f && f[child].parent == Some(at) && f[child].owner == f[at].owner && f[child].name == name {
      return Some(child);
    }
    r := None;
  }

  /** Walks the components of a path down. It finds a folder exactly when they lead to it. */
  method IsPathExist(f: Folders, uid: Id, preset: Option<Id>, path: string) returns (r: Option<Id>)
    requires UniqueFolders(f) && (preset.Some? ==> preset.value in f)
    ensures forall id: Id :: r == Some(id) <==>
              SplitPath(path) != [] && LeadsTo(f, uid, preset, SplitPath(path)[1..], id)
  {
    hide UniqueFolders, LeadsTo;
    var list := SplitPath(path);
    if list == [] {
      return None;
    }
    ComponentsOf(path);
    assert forall k :: 1 <= k < |list| ==> list[k] != "/";
    ghost var es := list[1..];
    r := preset;
    for i := 0 to |list|
      invariant if i == 0 then r == preset else r.Some? && LeadsTo(f, uid, preset, es[..i - 1], r.value)
    {
      var name := list[i];
      if name == "/" {
        if r.None? {
          r := GetRoot(f, uid);
        }
        if r.None? {
          NoStart(f, uid, preset, es);
          return;
        }
        StartLeads(f, uid, preset, r.value);
      } else {
        LeadsWithin(f, uid, preset, es[..i - 1], r.value);
        var child := GetChild(f, r.value, name);
        if child.None? {
          NoFurther(f, uid, preset, es, i - 1, r.value);
          return None;
        }
        assert es[..i][..i - 1] == es[..i - 1];
        LeadsToChild(f, uid, preset, es[..i], child.value);
        r := child;
      }
    }
    assert es[..|list| - 1] == es;
    forall id: Id | LeadsTo(f, uid, preset, es, id)
      ensures r == Some(id)
    {
      LeadsToOne(f, uid, preset, es, id, r.value);
    }
  }

  lemma NoStart(f: Folders, uid: Id, preset: Option<Id>, es: seq<string>)
    requires forall start :: !IsStart(f, uid, preset, start)
    ensures forall id :: !LeadsTo(f, uid, preset, es, id)
  {
  }

  /** A missing child ends the walk. */
  lemma NoFurther(f: Folders, uid: Id, preset: Option<Id>, es: seq<string>, i: nat, at: Id)
    requires UniqueFolders(f) && i < |es| && LeadsTo(f, uid, preset, es[..i], at)
    requires forall child :: child in f && f[child].parent == Some(at) && f[child].owner == f[at].owner
               ==> f[child].name != es[i]
    ensures forall id :: !LeadsTo(f, uid, preset, es, id)
  {
    hide UniqueFolders, LeadsTo;
    forall id
      ensures !LeadsTo(f, uid, preset, es, id)
    {
      if LeadsTo(f, uid, preset, es, id) {
        var next := FrontLeads(f, uid, preset, es, i + 1, id);
        LeadsToChild(f, uid, preset, es[..i + 1], next);
        assert es[..i + 1][..i] == es[..i];
        LeadsToOne(f, uid, preset, es[..i], f[next].parent.value, at);
        assert false;
      }
    }
  }

  /** Only the first component is a slash. */
  lemma ComponentsOf(path: string)
    requires SplitPath(path) != []
    ensures SplitPath(path)[0] == "/" && forall k :: 1 <= k < |SplitPath(path)| ==> SplitPath(path)[k] != "/"
  {
    SplitFieldsHaveNoSlash(path);
  }

  lemma {:induction false} TrailLeads(f: Folders, id: Id, n: nat)
    requires AtDepth(f, id, n) && SameOwners(f) && OneRoot(f, f[id].owner)
    ensures LeadsTo(f, f[id].owner, None, Trail(f, id, n), id)
    decreases n
  {
    hide LeadsTo;
    var es := Trail(f, id, n);
    if n == 0 {
      StartLeads(f, f[id].owner, None, id);
    } else {
      TrailLeads(f, f[id].parent.value, n - 1);
      assert es[..n - 1] == Trail(f, f[id].parent.value, n - 1);
      LeadsToChild(f, f[id].owner, None, es, id);
    }
  }

  lemma StartLeads(f: Folders, uid: Id, preset: Option<Id>, id: Id)
    ensures LeadsTo(f, uid, preset, [], id) <==> IsStart(f, uid, preset, id)
  {
    if IsStart(f, uid, preset, id) {
      assert Leads(f, id, [], id);
    }
  }

  /** The path that tracing a folder yields leads from the root of its owner to that folder and to no
      other. */
  lemma RoundTrip(f: Folders, uid: Id, id: Id, n: nat)
    requires UniqueFolders(f) && SameOwners(f) && OneRoot(f, uid) && WellNamed(f) && AtDepth(f, id, n)
    requires f[id].owner == uid
    ensures n > 0 ==> Join(Name(Trail(f, f[id].parent.value, n - 1)), f[id].name) == Name(Trail(f, id, n))
    ensures var list := SplitPath(Name(Trail(f, id, n)));
            list != [] && forall found :: LeadsTo(f, uid, None, list[1..], found) <==> found == id
  {
    hide UniqueFolders, LeadsTo;
    TrailElements(f, id, n);
    SplitOfName(Trail(f, id, n));
    if n > 0 {
      JoinStep(f, id, n);
    }
    var es := Trail(f, id, n);
    assert (["/"] + es)[1..] == es;
    TrailLeads(f, id, n);
    forall found | LeadsTo(f, uid, None, es, found)
      ensures found == id
    {
      LeadsToOne(f, uid, None, es, found, id);
    }
  }

  /** In a file system that is in order every folder can be traced, and its path leads back to it. */
  lemma EveryFolderHasPath(f: Folders, g: Files, id: Id) returns (n: nat)
    requires UniqueFolders(f) && Tidy(f, g) && WellNamed(f) && id in f
    ensures AtDepth(f, id, n)
    ensures var list := SplitPath(Name(Trail(f, id, n)));
            list != [] && forall found :: LeadsTo(f, f[id].owner, None, list[1..], found) <==> found == id
  {
    n :| AtDepth(f, id, n);
    RoundTrip(f, f[id].owner, id, n);
  }
}
