/** Slash-separated resource names: the canonical form, the walk from a name up to the root, and
    the string-prefix test that decides whether one name lies under another. */
module Names {

  /** A name that starts at the root. */
  predicate Rooted(name: string) {
    |name| > 0 && name[0] == '/'
  }

  /** The position of the last slash, or -1. */
  function LastSlash(s: string): (i: int)
    ensures -1 <= i < |s|
    ensures i >= 0 ==> s[i] == '/'
    ensures forall k :: i < k < |s| ==> s[k] != '/'
  {
    if s == "" then -1
    else if s[|s| - 1] == '/' then |s| - 1
    else LastSlash(s[..|s| - 1])
  }

  /** One step of the walk: cut the last element off. */
  function Parent(name: string): (p: string)
    requires Rooted(name) && name != "/"
    ensures Rooted(p) && |p| < |name|
  {
    var p := name[..LastSlash(name)];
    if p == "" then "/" else p
  }

  /** The names that walkToRoot visits, in order. */
  function WalkToRoot(name: string): (walk: seq<string>)
    requires Rooted(name)
    ensures |walk| > 0 && walk[0] == name && walk[|walk| - 1] == "/"
    decreases |name|
  {
    if name == "/" then [name] else [name] + WalkToRoot(Parent(name))
  }

  /** name is root itself or lies somewhere below it. */
  predicate Within(root: string, name: string)
    requires Rooted(name)
  {
    root in WalkToRoot(name)
  }

  /** strings.HasPrefix. */
  predicate HasPrefix(s: string, prefix: string) {
    |prefix| <= |s| && s[..|prefix|] == prefix
  }

  // ---- the walk as an order ----

  lemma {:induction false} WithinStep(root: string, name: string)
    requires Rooted(name) && name != "/"
    ensures Within(root, name) <==> root == name || Within(root, Parent(name))
  {
    var rest := WalkToRoot(Parent(name));
    assert WalkToRoot(name) == [name] + rest;
  }

  lemma {:induction false} WithinRooted(root: string, name: string)
    requires Rooted(name) && Within(root, name)
    ensures Rooted(root) && |root| <= |name| && (|root| == |name| ==> root == name)
    decreases |name|
  {
    if name != "/" {
      WithinStep(root, name);
      if root != name {
        WithinRooted(root, Parent(name));
      }
    }
  }

  lemma {:induction false} WithinTransitive(a: string, b: string, c: string)
    requires Rooted(c) && Within(b, c) && Rooted(b) && Within(a, b)
    ensures Within(a, c)
    decreases |c|
  {
    if c != "/" && b != c {
      WithinStep(b, c);
      WithinTransitive(a, b, Parent(c));
      WithinStep(a, c);
    }
  }

  /** Two names above the same name are comparable. */
  lemma {:induction false} WithinLinear(a: string, b: string, c: string)
    requires Rooted(c) && Within(a, c) && Within(b, c)
    ensures Rooted(a) && Rooted(b) && (Within(a, b) || Within(b, a))
    decreases |c|
  {
    WithinRooted(a, c);
    WithinRooted(b, c);
    if c != "/" && a != c && b != c {
      WithinStep(a, c);
      WithinStep(b, c);
      WithinLinear(a, b, Parent(c));
    }
  }

  /** The walk visits every name at most once, each a proper ancestor of the ones before it. */
  lemma {:induction false} WalkVisitsOnce(name: string, walk: seq<string>, i: nat, j: nat)
    requires Rooted(name) && walk == WalkToRoot(name) && i < j < |walk|
    ensures Rooted(walk[i]) && Within(walk[j], walk[i]) && |walk[j]| < |walk[i]|
    decreases j
  {
    var rest := WalkToRoot(Parent(name));
    assert walk == [name] + rest && walk[j] == rest[j - 1];
    if i > 0 {
      WalkVisitsOnce(Parent(name), rest, i - 1, j - 1);
    } else if j > 1 {
      WalkVisitsOnce(Parent(name), rest, 0, j - 1);
    }
  }

  /** One step of the walk keeps the prefix test, until it reaches the root itself. */
  lemma PrefixOfParent(root: string, name: string)
    requires Rooted(root) && Rooted(name) && name != "/" && root != "/" && root != name
    ensures HasPrefix(name, root + "/") <==> root == Parent(name) || HasPrefix(Parent(name), root + "/")
  {
    var i, p, r := LastSlash(name), Parent(name), root + "/";
    if HasPrefix(name, r) {
      assert name[|root|] == r[|root|] == '/';
      assert name[..|root|] == r[..|root|] == root;
      if |root| < i {
        assert p[..|r|] == name[..|r|];
      }
    }
    if HasPrefix(p, r) {
      assert name[..|r|] == p[..|r|];
    }
    if root == p {
      assert name[..i + 1] == r;
    }
  }

  /** The prefix test of the lock lookup agrees with the walk. */
  lemma {:induction false} PrefixTest(root: string, name: string)
    requires Rooted(root) && Rooted(name)
    ensures name == root || root == "/" || HasPrefix(name, root + "/") <==> Within(root, name)
    decreases |name|
  {
    if name == "/" {
      assert HasPrefix(name, root + "/") ==> |root| + 1 <= 1;
    } else {
      WithinStep(root, name);
      PrefixTest(root, Parent(name));
      if root != name && root != "/" {
        PrefixOfParent(root, name);
      }
    }
  }

  // ---- names as lists of elements ----

  /** A path element that cleaning keeps. */
  predicate Element(e: string) {
    e != "" && e != "." && e != ".." && '/' !in e
  }

  predicate Elements(es: seq<string>) {
    forall i :: 0 <= i < |es| ==> Element(es[i])
  }

  function Path(es: seq<string>): string {
    if es == [] then "" else Path(es[..|es| - 1]) + "/" + es[|es| - 1]
  }

  /** The canonical name of a list of elements. */
  function Name(es: seq<string>): string {
    if es == [] then "/" else Path(es)
  }

  /** strings.Split(s, "/"). */
  function Split(s: string): (fields: seq<string>)
    ensures |fields| > 0
  {
    var i := LastSlash(s);
    if i < 0 then [s] else Split(s[..i]) + [s[i + 1..]]
  }

  /** The fields, each after a slash, give the text again. */
  lemma {:induction false} SplitJoins(s: string)
    ensures Path(Split(s)) == "/" + s
    decreases |s|
  {
    var i, fields := LastSlash(s), Split(s);
    if i < 0 {
      assert fields[..0] == [];
    } else {
      SplitJoins(s[..i]);
      assert fields[..|fields| - 1] == Split(s[..i]);
      assert s == s[..i] + "/" + s[i + 1..];
    }
  }

  /** Before the first slash of a rooted text there is nothing. */
  lemma {:induction false} FirstField(s: string)
    requires s != "" && s[0] == '/'
    ensures |Split(s)| > 1 && Split(s)[0] == ""
    decreases |s|
  {
    var i := LastSlash(s);
    if i <= 0 {
      assert i == 0;
      assert s[..0] == "";
      assert Split("") == [""];
    } else {
      FirstField(s[..i]);
    }
  }

  /** The elements left after dropping empty and "." fields and letting each ".." cancel the
      element before it, if any. */
  function Resolve(fields: seq<string>): (es: seq<string>) {
    if fields == [] then []
    else
      var es, f := Resolve(fields[..|fields| - 1]), fields[|fields| - 1];
      if f == "" || f == "." then es
      else if f == ".." then (if es == [] then [] else es[..|es| - 1])
      else es + [f]
  }

  /** Nothing and "." change nothing, ".." takes back the element before it, and at the root nothing. */
  lemma ResolveMeans(fields: seq<string>, e: string)
    requires Element(e)
    ensures Resolve(fields + [""]) == Resolve(fields + ["."]) == Resolve(fields)
    ensures Resolve(fields + [e]) == Resolve(fields) + [e] && Resolve(fields + [e] + [".."]) == Resolve(fields)
    ensures Resolve(fields) == [] ==> Resolve(fields + [".."]) == []
  {
    var longer := fields + [e];
    assert forall f: string :: (fields + [f])[..|fields|] == fields;
    assert (longer + [".."])[..|longer|] == longer;
  }

  /** path.Clean("/" + name). */
  function SlashClean(name: string): (clean: string)
    ensures Rooted(clean)
  {
    NameIsRooted(Resolve(Split(name)));
    Name(Resolve(Split(name)))
  }

  lemma {:induction false} NameIsRooted(es: seq<string>)
    ensures Rooted(Name(es))
  {
    if |es| > 1 {
      NameIsRooted(es[..|es| - 1]);
    } else if |es| == 1 {
      assert Path(es) == "" + "/" + es[0];
    }
  }

  lemma {:induction false} SplitFieldsHaveNoSlash(s: string)
    ensures forall i :: 0 <= i < |Split(s)| ==> '/' !in Split(s)[i]
  {
    var i := LastSlash(s);
    if i >= 0 {
      SplitFieldsHaveNoSlash(s[..i]);
    }
  }

  lemma {:induction false} ResolveKeepsElements(fields: seq<string>)
    requires forall i :: 0 <= i < |fields| ==> '/' !in fields[i]
    ensures Elements(Resolve(fields))
  {
    if fields != [] {
      ResolveKeepsElements(fields[..|fields| - 1]);
    }
  }

  /** Cleaning yields the canonical name of a list of proper elements. */
  lemma {:induction false} SlashCleanIsCanonical(name: string)
    ensures exists es :: Elements(es) && SlashClean(name) == Name(es)
  {
    SplitFieldsHaveNoSlash(name);
    ResolveKeepsElements(Split(name));
  }

  lemma {:induction false} LastSlashAfter(p: string, e: string)
    requires '/' !in e
    ensures LastSlash(p + "/" + e) == |p|
  {
    var s := p + "/" + e;
    assert s[|p|] == '/';
    assert forall k :: |p| < k < |s| ==> s[k] == e[k - |p| - 1];
  }

  lemma {:induction false} SplitPath(es: seq<string>)
    requires Elements(es)
    ensures Split(Path(es)) == [""] + es
  {
    if es != [] {
      var front, e := es[..|es| - 1], es[|es| - 1];
      SplitPath(front);
      LastSlashAfter(Path(front), e);
      var s := Path(es);
      assert s[..|Path(front)|] == Path(front) && s[|Path(front)| + 1..] == e;
      assert [""] + front + [e] == [""] + es;
    }
  }

  lemma {:induction false} ResolveElements(es: seq<string>)
    requires Elements(es)
    ensures Resolve([""] + es) == es
  {
    if es == [] {
      assert [""][..0] == [];
    } else {
      var front := es[..|es| - 1];
      ResolveElements(front);
      assert ([""] + es)[..|es|] == [""] + front;
    }
  }

  /** Cleaning leaves a canonical name alone. */
  lemma {:induction false} SlashCleanFixesCanonical(es: seq<string>)
    requires Elements(es)
    ensures SlashClean(Name(es)) == Name(es)
  {
    if es == [] {
      assert LastSlash("/") == 0;
      assert "/"[..0] == "" && "/"[1..] == "";
      assert Split("/") == Split("") + [""] == ["", ""];
      assert ["", ""][..1] == [""] && [""][..0] == [];
      assert Resolve([""]) == [] && Resolve(["", ""]) == [];
    } else {
      SplitPath(es);
      ResolveElements(es);
    }
  }

  /** Different element lists have different canonical names. */
  lemma {:induction false} NameInjective(a: seq<string>, b: seq<string>)
    requires Elements(a) && Elements(b) && Name(a) == Name(b)
    ensures a == b
  {
    if a != [] && b != [] {
      SplitPath(a);
      SplitPath(b);
      assert ([""] + a)[1..] == a && ([""] + b)[1..] == b;
    } else if a != [] || b != [] {
      var c := if a != [] then a else b;
      PathLonger(c);
    }
  }

  lemma {:induction false} PathLonger(es: seq<string>)
    requires Elements(es) && es != []
    ensures |Path(es)| > 1
  {
    assert Element(es[|es| - 1]);
  }

  lemma {:induction false} ParentOfName(es: seq<string>)
    requires Elements(es) && es != []
    ensures Rooted(Name(es)) && Name(es) != "/" && Parent(Name(es)) == Name(es[..|es| - 1])
  {
    var front, e := es[..|es| - 1], es[|es| - 1];
    NameIsRooted(es);
    PathLonger(es);
    LastSlashAfter(Path(front), e);
    assert Path(es)[..|Path(front)|] == Path(front);
    if front != [] {
      PathLonger(front);
    }
  }

  /** On canonical names, lying under a root is having its elements as a prefix. */
  lemma {:induction false} WithinIffPrefix(a: seq<string>, b: seq<string>)
    requires Elements(a) && Elements(b)
    ensures Rooted(Name(b)) && (Within(Name(a), Name(b)) <==> a <= b)
    decreases |b|
  {
    NameIsRooted(b);
    if Name(a) == Name(b) {
      NameInjective(a, b);
    } else if b == [] {
    } else {
      var front := b[..|b| - 1];
      ParentOfName(b);
      WithinIffPrefix(a, front);
      WithinStep(Name(a), Name(b));
      PrefixOfFront(a, b);
    }
  }

  lemma PrefixOfFront(a: seq<string>, b: seq<string>)
    requires b != [] && a != b
    ensures a <= b <==> a <= b[..|b| - 1]
  {
    var front := b[..|b| - 1];
    assert b[..|b|] == b;
    if a <= b {
      assert a == b[..|a|] == front[..|a|];
    }
    if a <= front {
      assert a == front[..|a|] == b[..|a|];
    }
  }
}
