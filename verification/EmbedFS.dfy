/** The read-only file system of the embedded front end: a list of files sorted by directory and
    then by element, searched by bisection. */
module EmbedFS {
  import opened Names
  import opened Wrappers

  datatype File = File(name: string, data: string)

  // ---- the order of strings ----

  /** The lexicographic order, strictly. */
  predicate Before(a: string, b: string) {
    b != "" && (a == "" || a[0] < b[0] || (a[0] == b[0] && Before(a[1..], b[1..])))
  }

  lemma {:induction false} BeforeTransitive(a: string, b: string, c: string)
    requires Before(a, b) && Before(b, c)
    ensures Before(a, c)
  {
    if a != "" && a[0] == b[0] && b[0] == c[0] {
      BeforeTransitive(a[1..], b[1..], c[1..]);
    }
  }

  lemma {:induction false} BeforeTotal(a: string, b: string)
    ensures Before(a, b) || a == b || Before(b, a)
    ensures !(Before(a, b) && Before(b, a)) && !Before(a, a)
  {
    if a != "" {
      BeforeTotal(a[1..], a[1..]);
      if b != "" && a[0] == b[0] {
        BeforeTotal(a[1..], b[1..]);
        assert a == [a[0]] + a[1..] && b == [b[0]] + b[1..];
      }
    }
  }

  // ---- names ----

  /** Directory and element of a name without a trailing slash. */
  function Key(name: string): (string, string) {
    var i := LastSlash(name);
    if i < 0 then (".", name) else (name[..i], name[i + 1..])
  }

  /** Directory, element, and whether a trailing slash marks a directory. */
  function SplitName(name: string): (r: (string, string, bool))
    requires name != ""
  {
    var (dir, elem) := Key(TrimSlash(name));
    (dir, elem, name[|name| - 1] == '/')
  }

  method SplitDir(input: string) returns (dir: string, elem: string, isDir: bool)
    requires input != ""
    ensures (dir, elem, isDir) == SplitName(input)
  {
    var name := input;
    isDir := false;
    if name[|name| - 1] == '/' {
      isDir := true;
      name := name[..|name| - 1];
    }
    var i := |name| - 1;
    while i >= 0 && name[i] != '/'
      invariant -1 <= i < |name| && forall k :: i < k < |name| ==> name[k] != '/'
    {
      i := i - 1;
    }
    assert i == LastSlash(name);
    if i < 0 {
      return ".", name, isDir;
    }
    return name[..i], name[i + 1..], isDir;
  }

  function TrimSlash(name: string): string {
    if |name| > 0 && name[|name| - 1] == '/' then name[..|name| - 1] else name
  }

  /** A name is split at its last slash, not counting one at its end, which marks a directory. */
  lemma SplitMeans(dir: string, elem: string)
    requires elem != "" && '/' !in elem
    ensures SplitName(dir + "/" + elem) == (dir, elem, false) && SplitName(dir + "/" + elem + "/") == (dir, elem, true)
  {
    hide LastSlash;
    var name := dir + "/" + elem;
    assert elem[|elem| - 1] in elem;
    assert name[..|dir|] == dir && name[|dir| + 1..] == elem;
    LastSlashIs(name, |dir|);
    assert (name + "/")[..|name|] == name;
  }

  lemma SplitAlone(elem: string)
    requires elem != "" && '/' !in elem
    ensures SplitName(elem) == (".", elem, false) && SplitName(elem + "/") == (".", elem, true)
  {
    hide LastSlash;
    assert (elem + "/")[..|elem|] == elem;
    assert forall k :: 0 <= k < |elem| ==> elem[k] in elem;
  }

  lemma LastSlashIs(s: string, i: nat)
    requires i < |s| && s[i] == '/' && '/' !in s[i + 1..]
    ensures LastSlash(s) == i
  {
    hide LastSlash;
    assert forall k :: i < k < |s| ==> s[k] == s[i + 1..][k - i - 1];
  }

  function Dir(name: string): string
    requires name != ""
  {
    SplitName(name).0
  }

  function Elem(name: string): string
    requires name != ""
  {
    SplitName(name).1
  }

  /** fs.ValidPath: "." alone, or slash-separated elements none of which is empty, "." or "..". */
  predicate ValidPath(name: string) {
    name == "." || Elements(Split(name))
  }

  /** A name of the list: a valid path other than ".", followed by a slash for a directory. */
  predicate Listed(name: string) {
    name != "" && Elements(Split(TrimSlash(name)))
  }

  ghost predicate AllListed(files: seq<File>) {
    forall i :: 0 <= i < |files| ==> files[i].name != "" && Listed(files[i].name)
  }

  lemma LastField(s: string)
    ensures Split(s)[|Split(s)| - 1] == s[LastSlash(s) + 1..]
    ensures LastSlash(s) >= 0 ==> Split(s)[0] == Split(s[..LastSlash(s)])[0]
  {
  }

  lemma SplitDot()
    ensures Split(".") == ["."]
  {
    assert LastSlash(".") == LastSlash("."[..0]) == -1;
  }

  lemma LastIsElement(p: string)
    requires Elements(Split(p))
    ensures Element(p[LastSlash(p) + 1..])
  {
    hide Split, Element;
    LastField(p);
    assert Element(Split(p)[|Split(p)| - 1]);
  }

  lemma FirstIsElement(p: string)
    requires Elements(Split(p)) && LastSlash(p) >= 0
    ensures Element(Split(p[..LastSlash(p)])[0])
  {
    hide Split, Element;
    LastField(p);
    assert Element(Split(p)[0]);
  }

  lemma EndsInElement(p: string, i: nat)
    requires i <= |p| && Element(p[i..])
    ensures p != "" && p[|p| - 1] != '/'
  {
    assert p[i..][|p[i..]| - 1] == p[|p| - 1];
  }

  lemma Untrimmed(p: string)
    requires p != "" && p[|p| - 1] != '/'
    ensures TrimSlash(p) == p && SplitName(p) == (Key(p).0, Key(p).1, false)
  {
    hide LastSlash;
  }

  lemma NotDot(dir: string)
    requires Element(Split(dir)[0])
    ensures dir != "."
  {
    hide Split;
    SplitDot();
  }

  lemma PathEnd(p: string)
    requires Elements(Split(p))
    ensures p != "" && p[|p| - 1] != '/'
  {
    hide Split, Elements, Element;
    LastIsElement(p);
    EndsInElement(p, LastSlash(p) + 1);
  }

  lemma PathDir(p: string)
    requires Elements(Split(p))
    ensures LastSlash(p) >= 0 ==> Key(p).0 != "."
  {
    hide Split, Elements, Element;
    if LastSlash(p) >= 0 {
      FirstIsElement(p);
      NotDot(p[..LastSlash(p)]);
    }
  }

  /** A valid path other than "." does not end in a slash and has no "." for its directory. */
  lemma PathShape(p: string)
    requires Elements(Split(p))
    ensures p != "" && p[|p| - 1] != '/' && TrimSlash(p) == p && SplitName(p) == (Key(p).0, Key(p).1, false)
    ensures LastSlash(p) >= 0 ==> Key(p).0 != "."
  {
    hide Split, Elements, Element, TrimSlash, SplitName;
    PathDir(p);
    PathEnd(p);
    Untrimmed(p);
  }

  /** Directory and element determine a valid path. */
  lemma KeyDeterminesPath(a: string, b: string)
    requires Elements(Split(a)) && Elements(Split(b)) && Key(a) == Key(b)
    ensures a == b
  {
    hide Split;
    PathShape(a);
    PathShape(b);
    var i, j := LastSlash(a), LastSlash(b);
    if i >= 0 && j >= 0 {
      assert a == a[..i] + "/" + a[i + 1..] && b == b[..j] + "/" + b[j + 1..];
    }
  }

  /** A listed name and the path looked for have the same key exactly when they are the same path. */
  lemma SameKey(a: string, p: string)
    requires Listed(a) && Elements(Split(p))
    ensures p != "" && (TrimSlash(a) == p <==> Dir(a) == Dir(p) && Elem(a) == Elem(p))
  {
    SplitDot();
    PathShape(p);
    if Key(TrimSlash(a)) == Key(p) {
      KeyDeterminesPath(TrimSlash(a), p);
    }
  }

  // ---- the order of the list ----

  /** The order of the list: by directory, then by element. */
  predicate KeyBefore(d1: string, e1: string, d2: string, e2: string) {
    Before(d1, d2) || (d1 == d2 && Before(e1, e2))
  }

  /** No file comes after one that it should precede. */
  ghost predicate Sorted(files: seq<File>)
    requires AllListed(files)
  {
    forall i, j :: 0 <= i < j < |files| ==>
      !KeyBefore(Dir(files[j].name), Elem(files[j].name), Dir(files[i].name), Elem(files[i].name))
  }

  // ---- bisection ----

  ghost predicate Monotone(n: nat, f: int --> bool)
    requires forall k :: 0 <= k < n ==> f.requires(k)
  {
    forall i, j :: 0 <= i <= j < n && f(i) ==> f(j)
  }

  /** The least index at which f holds, for a monotone f; in any case an index where f turns true. */
  method SortSearch(n: nat, f: int --> bool) returns (r: nat)
    requires forall k :: 0 <= k < n ==> f.requires(k)
    ensures r <= n && (r < n ==> f(r)) && (r > 0 ==> !f(r - 1))
    ensures Monotone(n, f) ==> forall k :: 0 <= k < n ==> (f(k) <==> r <= k)
  {
    var i, j := 0, n;
    while i < j
      invariant 0 <= i <= j <= n && (j < n ==> f(j)) && (i > 0 ==> !f(i - 1))
    {
      var h := (i + j) / 2;
      if !f(h) {
        i := h + 1;
      } else {
        j := h;
      }
    }
    r := i;
  }

  // ---- looking up ----

  /** What the bisection of Lookup asks about each file. */
  predicate NotBefore(file: File, dir: string, elem: string)
    requires file.name != ""
  {
    Before(dir, Dir(file.name)) || (Dir(file.name) == dir && !Before(Elem(file.name), elem))
  }

  const DOT_FILE := File("./", "")

  lemma NotBeforeMonotone(a: File, b: File, dir: string, elem: string)
    requires a.name != "" && b.name != "" && NotBefore(a, dir, elem)
    requires !KeyBefore(Dir(b.name), Elem(b.name), Dir(a.name), Elem(a.name))
    ensures NotBefore(b, dir, elem)
  {
    var d1, e1, d2, e2 := Dir(a.name), Elem(a.name), Dir(b.name), Elem(b.name);
    BeforeTotal(d1, d2);
    BeforeTotal(e1, e2);
    if Before(dir, d1) && Before(d1, d2) {
      BeforeTransitive(dir, d1, d2);
    }
    if d1 == dir && d2 == dir && Before(e2, elem) {
      if Before(e1, e2) {
        BeforeTransitive(e1, e2, elem);
      }
    }
  }

  /** A file with the key looked for is the first that does not come before the key, or equal to it. */
  lemma FoundAt(files: seq<File>, k: nat, r: nat, dir: string, elem: string)
    requires AllListed(files) && Sorted(files) && k < |files| && r <= |files|
    requires Dir(files[k].name) == dir && Elem(files[k].name) == elem
    requires forall i :: 0 <= i < |files| ==> (NotBefore(files[i], dir, elem) <==> r <= i)
    ensures r <= k && Dir(files[r].name) == dir && Elem(files[r].name) == elem
  {
    BeforeTotal(elem, elem);
    assert NotBefore(files[k], dir, elem);
    if r < k {
      assert NotBefore(files[r], dir, elem);
      var d, e := Dir(files[r].name), Elem(files[r].name);
      assert !KeyBefore(dir, elem, d, e);
      BeforeTotal(e, elem);
    }
  }

  lemma BisectMonotone(files: seq<File>, dir: string, elem: string)
    requires AllListed(files) && Sorted(files)
    ensures forall a, b :: 0 <= a <= b < |files| && NotBefore(files[a], dir, elem) ==> NotBefore(files[b], dir, elem)
  {
    hide NotBefore, Listed, Dir, Elem, Before;
    forall a, b | 0 <= a <= b < |files| && NotBefore(files[a], dir, elem)
      ensures NotBefore(files[b], dir, elem)
    {
      if a < b {
        NotBeforeMonotone(files[a], files[b], dir, elem);
      }
    }
  }

  /** The index that the bisection finds. */
  method Bisect(files: seq<File>, dir: string, elem: string) returns (i: nat)
    requires AllListed(files) && Sorted(files)
    ensures i <= |files| && forall k :: 0 <= k < |files| ==> (NotBefore(files[k], dir, elem) <==> i <= k)
  {
    hide NotBefore, Listed, Sorted, KeyBefore, Before, Dir, Elem;
    var f := (i: int) requires 0 <= i < |files| => NotBefore(files[i], dir, elem);
    i := SortSearch(|files|, f);
    BisectMonotone(files, dir, elem);
    assert forall k :: 0 <= k < |files| ==> f(k) == NotBefore(files[k], dir, elem);
  }

  method Lookup(files: seq<File>, name: string) returns (r: Option<File>)
    requires AllListed(files) && Sorted(files)
    ensures !ValidPath(name) ==> r == None
    ensures name == "." ==> r == Some(DOT_FILE)
    ensures ValidPath(name) && name != "." ==>
      (r.Some? <==> exists i :: 0 <= i < |files| && TrimSlash(files[i].name) == name)
      && (r.Some? ==> r.value in files && TrimSlash(r.value.name) == name)
  {
    if !ValidPath(name) {
      return None;
    }
    if name == "." {
      return Some(DOT_FILE);
    }
    PathShape(name);
    var dir, elem, _ := SplitDir(name);
    var i := Bisect(files, dir, elem);
    forall k | 0 <= k < |files| && TrimSlash(files[k].name) == name
      ensures i < |files| && TrimSlash(files[i].name) == name
    {
      SameKey(files[k].name, name);
      FoundAt(files, k, i, dir, elem);
      SameKey(files[i].name, name);
    }
    if i < |files| && TrimSlash(files[i].name) == name {
      return Some(files[i]);
    }
    return None;
  }

  // ---- directories ----

  /** The files of a directory, by scanning the whole list. */
  function EntriesOf(files: seq<File>, dir: string): seq<File>
    requires forall i :: 0 <= i < |files| ==> files[i].name != ""
  {
    if files == [] then []
    else (if Dir(files[0].name) == dir then [files[0]] else []) + EntriesOf(files[1..], dir)
  }

  lemma {:induction false} EntriesOfSlice(files: seq<File>, dir: string, i: nat, j: nat)
    requires i <= j <= |files| && forall k :: 0 <= k < |files| ==> files[k].name != ""
    requires forall k :: 0 <= k < |files| ==> (Dir(files[k].name) == dir <==> i <= k < j)
    ensures EntriesOf(files, dir) == files[i..j]
  {
    hide Dir;
    if files != [] {
      var rest := files[1..];
      assert forall k :: 0 <= k < |rest| ==> rest[k] == files[k + 1];
      if i > 0 {
        EntriesOfSlice(rest, dir, i - 1, j - 1);
        assert rest[i - 1..j - 1] == files[i..j];
      } else if j > 0 {
        EntriesOfSlice(rest, dir, 0, j - 1);
        assert [files[0]] + rest[0..j - 1] == files[i..j];
      } else {
        EntriesOfSlice(rest, dir, 0, 0);
      }
    }
  }

  lemma DirsAscend(files: seq<File>, i: nat, j: nat)
    requires AllListed(files) && Sorted(files) && i <= j < |files|
    ensures !Before(Dir(files[j].name), Dir(files[i].name))
  {
    BeforeTotal(Dir(files[i].name), Dir(files[i].name));
  }

  /** The first file whose directory is dir or comes after it. */
  method DirStart(files: seq<File>, dir: string) returns (i: nat)
    requires AllListed(files) && Sorted(files)
    ensures i <= |files| && forall k :: 0 <= k < |files| ==> (!Before(Dir(files[k].name), dir) <==> i <= k)
  {
    hide Dir, Before, Listed;
    var f := (i: int) requires 0 <= i < |files| => !Before(Dir(files[i].name), dir);
    i := SortSearch(|files|, f);
    assert Monotone(|files|, f) by {
      forall a, b | 0 <= a <= b < |files| && f(a)
        ensures f(b)
      {
        DirsAscend(files, a, b);
        SearchesMonotone(Dir(files[a].name), Dir(files[b].name), dir);
      }
    }
    assert forall k :: 0 <= k < |files| ==> f(k) == !Before(Dir(files[k].name), dir);
  }

  /** The first file whose directory comes after dir. */
  method DirEnd(files: seq<File>, dir: string) returns (j: nat)
    requires AllListed(files) && Sorted(files)
    ensures j <= |files| && forall k :: 0 <= k < |files| ==> (Before(dir, Dir(files[k].name)) <==> j <= k)
  {
    hide Dir, Before, Listed;
    var g := (j: int) requires 0 <= j < |files| => Before(dir, Dir(files[j].name));
    j := SortSearch(|files|, g);
    assert Monotone(|files|, g) by {
      forall a, b | 0 <= a <= b < |files| && g(a)
        ensures g(b)
      {
        DirsAscend(files, a, b);
        SearchesMonotone(Dir(files[a].name), Dir(files[b].name), dir);
      }
    }
    assert forall k :: 0 <= k < |files| ==> g(k) == Before(dir, Dir(files[k].name));
  }

  method ListDir(files: seq<File>, dir: string) returns (r: seq<File>)
    requires AllListed(files) && Sorted(files)
    ensures r == EntriesOf(files, dir)
    ensures exists i, j :: 0 <= i <= j <= |files| && r == files[i..j]
  {
    var i := DirStart(files, dir);
    var j := DirEnd(files, dir);
    hide Dir, Before, Listed;
    forall k | 0 <= k < |files|
      ensures Dir(files[k].name) == dir <==> i <= k < j
      ensures j <= k ==> i <= k
    {
      BeforeTotal(Dir(files[k].name), dir);
    }
    assert j < |files| ==> i <= j by {
      if j < |files| {
        BeforeTotal(Dir(files[j].name), dir);
      }
    }
    r := files[i..j];
    EntriesOfSlice(files, dir, i, j);
  }

  lemma SearchesMonotone(d1: string, d2: string, dir: string)
    requires !Before(d2, d1)
    ensures !Before(d1, dir) ==> !Before(d2, dir)
    ensures Before(dir, d1) ==> Before(dir, d2)
  {
    BeforeTotal(d1, d2);
    if Before(d1, d2) && Before(d2, dir) {
      BeforeTransitive(d1, d2, dir);
    }
    if Before(d1, d2) && Before(dir, d1) {
      BeforeTransitive(dir, d1, d2);
    }
  }

  // ---- open files and directories ----

  /** A directory open for reading, page by page. */
  class OpenDir {
    const f: File
    const files: seq<File>
    var offset: nat

    ghost predicate Valid()
      reads this
    {
      offset <= |files|
    }

    /** The entries not read yet. */
    ghost function Rest(): seq<File>
      requires Valid()
      reads this
    {
      files[offset..]
    }

    constructor (f: File, files: seq<File>)
      ensures Valid() && this.f == f && this.files == files && Rest() == files
    {
      this.f, this.files, offset := f, files, 0;
    }

    /** Up to count entries, or all that are left if count is not positive; eof when there is
        nothing left to a positive count. */
    method ReadDir(count: int) returns (list: seq<File>, eof: bool)
      requires Valid()
      modifies this
      ensures Valid() && old(Rest()) == list + Rest()
      ensures eof <==> old(Rest()) == [] && count > 0
      ensures count <= 0 ==> Rest() == []
      ensures count > 0 ==> |list| <= count && (Rest() != [] ==> |list| == count)
    {
      var n := |files| - offset;
      if n == 0 {
        return [], count > 0;
      }
      if count > 0 && n > count {
        n := count;
      }
      list := files[offset..offset + n];
      eof := false;
      offset := offset + n;
    }

    /** A reader that asks for count entries at a time until the end. */
    method ReadPages(count: int) returns (all: seq<File>)
      requires Valid() && count > 0
      modifies this
      ensures Valid() && all == old(Rest()) && Rest() == []
    {
      all := [];
      while true
        invariant Valid() && all + Rest() == old(Rest())
        decreases |Rest()|
      {
        var page, eof := ReadDir(count);
        if eof { break; }
        all := all + page;
      }
    }
  }

  /** A regular file open for reading. */
  class OpenFile {
    const f: File
    var offset: int

    ghost predicate Valid()
      reads this
    {
      0 <= offset <= |f.data|
    }

    constructor (f: File)
      ensures Valid() && this.f == f && offset == 0
    {
      this.f, offset := f, 0;
    }

    /** Copies the next bytes into b; n is -1 at the end of the file. */
    method Read(b: array<char>) returns (n: int)
      requires Valid()
      modifies this, b
      ensures Valid() && (n == -1 <==> old(offset) == |f.data|)
      ensures n == -1 ==> offset == old(offset) && b[..] == old(b[..])
      ensures n >= 0 ==> offset == old(offset) + n <= |f.data| && (n == b.Length || offset == |f.data|)
      ensures n >= 0 ==> n <= b.Length && b[..n] == f.data[old(offset)..offset] && b[n..] == old(b[n..])
      ensures n >= -1
    {
      if offset >= |f.data| {
        return -1;
      }
      n := if b.Length < |f.data| - offset then b.Length else |f.data| - offset;
      forall i | 0 <= i < n {
        b[i] := f.data[offset + i];
      }
      offset := offset + n;
    }

    /** Moves to start, current position or end plus offset, and refuses to leave the file. */
    method Seek(offset: int, whence: int) returns (r: Option<int>)
      requires Valid()
      modifies this
      ensures Valid()
      ensures var target := offset + (if whence == 1 then old(this.offset) else if whence == 2 then |f.data| else 0);
        if 0 <= target <= |f.data| then r == Some(target) && this.offset == target
        else r == None && this.offset == old(this.offset)
    {
      var target := offset;
      if whence == 1 {
        target := target + this.offset;
      } else if whence == 2 {
        target := target + |f.data|;
      }
      if target < 0 || target > |f.data| {
        return None;
      }
      this.offset := target;
      return Some(target);
    }
  }

  /** No two files of the list have the same path. */
  ghost predicate DistinctPaths(files: seq<File>) {
    forall i, j :: 0 <= i < j < |files| ==> TrimSlash(files[i].name) != TrimSlash(files[j].name)
  }

  /** The path is that of a directory, a slash and an element, or in the root an element alone. */
  ghost predicate ChildOf(path: string, dir: string) {
    exists elem :: elem != "" && '/' !in elem && path == (if dir == "." then elem else dir + "/" + elem)
  }

  lemma CutIsChild(path: string, i: int, elem: string)
    requires -1 <= i < |path| && elem == path[i + 1..] && elem != "" && '/' !in elem
    requires i >= 0 ==> path[i] == '/' && path[..i] != "."
    ensures ChildOf(path, if i < 0 then "." else path[..i])
  {
    if i >= 0 {
      var dir := path[..i];
      assert path == dir + "/" + elem;
    } else {
      assert path == elem;
    }
  }

  /** Where a listed path is cut: at its last slash, or before its beginning. */
  lemma CutOf(path: string) returns (i: int, elem: string)
    requires Elements(Split(path))
    ensures -1 <= i < |path| && elem == path[i + 1..] && elem != "" && '/' !in elem
    ensures i >= 0 ==> path[i] == '/' && path[..i] != "."
    ensures Key(path).0 == if i < 0 then "." else path[..i]
  {
    hide LastSlash, Split, Elements, Element;
    i := LastSlash(path);
    elem := path[i + 1..];
    PathDir(path);
    LastIsElement(path);
    ElementMeans(elem);
  }

  lemma ChildIsKey(path: string, dir: string)
    requires ChildOf(path, dir)
    ensures Key(path).0 == dir
  {
    hide LastSlash;
    var elem :| elem != "" && '/' !in elem && path == (if dir == "." then elem else dir + "/" + elem);
    if dir == "." {
      assert forall k :: 0 <= k < |elem| ==> elem[k] in elem;
    } else {
      assert path[|dir| + 1..] == elem && path[|dir|] == '/';
      LastSlashIs(path, |dir|);
      assert path[..|dir|] == dir;
    }
  }

  lemma DirIff(name: string, dir: string)
    requires name != "" && Listed(name)
    ensures Dir(name) == dir <==> ChildOf(TrimSlash(name), dir)
  {
    hide LastSlash, Split, Elements, Element, Key, ChildOf, TrimSlash;
    var path := TrimSlash(name);
    var i, elem := CutOf(path);
    CutIsChild(path, i, elem);
    if ChildOf(path, dir) {
      ChildIsKey(path, dir);
    }
  }

  lemma ElementMeans(e: string)
    requires Element(e)
    ensures e != "" && '/' !in e
  {
  }

  /** The entries of a directory are the files right below it. */
  lemma {:induction false} EntriesAre(files: seq<File>, dir: string, f: File)
    requires AllListed(files)
    ensures f in EntriesOf(files, dir) <==> f in files && ChildOf(TrimSlash(f.name), dir)
  {
    hide Listed, ChildOf, Dir, TrimSlash;
    if files != [] {
      EntriesAre(files[1..], dir, f);
      DirIff(files[0].name, dir);
      assert files == [files[0]] + files[1..];
    }
  }

  /** FS.ReadDir: the entries of a directory; None for a name that is absent or not a directory. */
  method ReadDirectory(files: seq<File>, name: string) returns (r: Option<seq<File>>)
    requires AllListed(files) && Sorted(files)
    ensures r.Some? ==> r.value == EntriesOf(files, name)
    ensures r.Some? ==> forall f :: f in r.value <==> f in files && ChildOf(TrimSlash(f.name), name)
    ensures !ValidPath(name) ==> r.None?
    ensures name == "." ==> r.Some?
    ensures DistinctPaths(files) && ValidPath(name) && name != "." ==>
      (r.Some? <==> exists i :: 0 <= i < |files| && files[i].name == name + "/")
  {
    hide Sorted, Listed, ValidPath, EntriesOf, TrimSlash, DistinctPaths, ChildOf;
    TrimDirectory(name);
    var file := Lookup(files, name);
    if file.None? {
      return None;
    }
    var isDir := file.value.name[|file.value.name| - 1] == '/';
    if DistinctPaths(files) && file.value in files && TrimSlash(file.value.name) == name {
      DirectoryIff(files, name, file.value);
    }
    if !isDir {
      return None;
    }
    var list := ListDir(files, name);
    forall f {
      EntriesAre(files, name, f);
    }
    return Some(list);
  }

  /** The file found for a path is the directory of that path, if the list has one. */
  lemma DirectoryIff(files: seq<File>, name: string, f: File)
    requires DistinctPaths(files) && f in files && f.name != "" && TrimSlash(f.name) == name
    ensures f.name[|f.name| - 1] == '/' <==> exists i :: 0 <= i < |files| && files[i].name == name + "/"
  {
    hide TrimSlash;
    TrimDirectory(name);
    if i :| 0 <= i < |files| && files[i].name == name + "/" {
      var j :| 0 <= j < |files| && files[j] == f;
      assert i == j;
    }
  }

  lemma TrimDirectory(name: string)
    ensures TrimSlash(name + "/") == name
    ensures forall n: string :: n != "" && n[|n| - 1] == '/' && TrimSlash(n) == name ==> n == name + "/"
  {
    forall n: string | n != "" && n[|n| - 1] == '/' && TrimSlash(n) == name
      ensures n == name + "/"
    {
      assert n == n[..|n| - 1] + "/";
    }
  }
}
