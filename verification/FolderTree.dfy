/** What a breadth-first listing of folders is, and what it contains: models/folder.go. */
module FolderTree {
  import opened Tables

  /** The listing stops after this many rounds. */
  const MAX_ROUNDS := 65535

  function SetOf(s: seq<Id>): set<Id> {
    set x | x in s
  }

  ghost predicate Distinct(s: seq<Id>) {
    forall i, j :: 0 <= i < j < |s| ==> s[i] != s[j]
  }

  /** Taking one element more. */
  lemma Front(s: seq<Id>, i: nat)
    requires i < |s|
    ensures SetOf(s[..i + 1]) == SetOf(s[..i]) + {s[i]}
    ensures Distinct(s[..i + 1]) <==> Distinct(s[..i]) && s[i] !in SetOf(s[..i])
    ensures Distinct(s) ==> Distinct(s[..i + 1])
  {
    var a, b := s[..i], s[..i + 1];
    assert b == a + [s[i]];
    if Distinct(b) {
      assert forall j :: 0 <= j < i ==> b[j] != b[i];
    }
  }

  lemma FrontEnds(s: seq<Id>)
    ensures SetOf(s[..0]) == {} && Distinct(s[..0]) && s[..|s|] == s
  {
  }

  /** The rows of a query, in any order. */
  ghost predicate Enumerates(s: seq<Id>, ids: set<Id>) {
    Distinct(s) && forall x :: x in s <==> x in ids
  }

  ghost function Flatten(levels: seq<seq<Id>>): seq<Id> {
    if levels == [] then [] else Flatten(levels[..|levels| - 1]) + levels[|levels| - 1]
  }

  ghost predicate Listed(f: Folders, dirs: set<Id>, uid: Id, levels: seq<seq<Id>>) {
    forall k :: 0 <= k < |levels| ==> Enumerates(levels[k], Level(f, dirs, uid, k))
  }

  /** One list per level below dirs, up to the first empty level or the last round. */
  ghost predicate Listing(f: Folders, dirs: set<Id>, uid: Id, levels: seq<seq<Id>>) {
    && 1 <= |levels| <= MAX_ROUNDS + 1 && Listed(f, dirs, uid, levels)
    && (|levels| <= MAX_ROUNDS ==> Level(f, dirs, uid, |levels|) == {})
  }

  lemma FirstLevel(f: Folders, dirs: set<Id>, uid: Id, level: seq<Id>)
    requires Enumerates(level, set id | id in f && f[id].owner == uid && id in dirs)
    ensures Listed(f, dirs, uid, [level]) && Flatten([level]) == level
  {
  }

  lemma NextLevel(f: Folders, dirs: set<Id>, uid: Id, levels: seq<seq<Id>>, first: seq<Id>, list: seq<Id>,
                  next: seq<Id>)
    requires levels != [] && Listed(f, dirs, uid, levels) && Flatten(levels) == first + list
    requires Enumerates(next, Children(f, SetOf(levels[|levels| - 1]), uid))
    ensures Listed(f, dirs, uid, levels + [next]) && Flatten(levels + [next]) == first + (list + next)
  {
    var n := |levels|;
    assert SetOf(levels[n - 1]) == Level(f, dirs, uid, n - 1);
    FlattenAdd(levels, first, list, next);
  }

  lemma FlattenAdd(levels: seq<seq<Id>>, first: seq<Id>, list: seq<Id>, next: seq<Id>)
    requires Flatten(levels) == first + list
    ensures Flatten(levels + [next]) == first + (list + next)
  {
    assert (levels + [next])[..|levels|] == levels;
    assert (first + list) + next == first + (list + next);
  }

  lemma NoNextLevel(f: Folders, dirs: set<Id>, uid: Id, levels: seq<seq<Id>>)
    requires levels != [] && Listed(f, dirs, uid, levels)
    requires Enumerates([], Children(f, SetOf(levels[|levels| - 1]), uid))
    ensures Level(f, dirs, uid, |levels|) == {}
  {
    var n := |levels|;
    assert SetOf(levels[n - 1]) == Level(f, dirs, uid, n - 1);
    assert forall x :: x in Level(f, dirs, uid, n) ==> x in [];
  }

  /** Where an element of the flat list comes from: it is preceded by all of the earlier levels and
      by the front of its own. */
  lemma {:induction false} Locate(levels: seq<seq<Id>>, i: nat) returns (k: nat, j: nat)
    requires i < |Flatten(levels)|
    ensures k < |levels| && j < |levels[k]| && Flatten(levels)[i] == levels[k][j]
    ensures Flatten(levels)[..i] == Flatten(levels[..k]) + levels[k][..j]
    decreases |levels|
  {
    var n := |levels| - 1;
    var front := Flatten(levels[..n]);
    if i < |front| {
      k, j := Locate(levels[..n], i);
      assert levels[..n][..k] == levels[..k];
    } else {
      k, j := n, i - |front|;
    }
  }

  lemma {:induction false} InFlatten(levels: seq<seq<Id>>, k: nat, x: Id)
    requires k < |levels| && x in levels[k]
    ensures x in Flatten(levels)
    decreases |levels|
  {
    if k < |levels| - 1 {
      InFlatten(levels[..|levels| - 1], k, x);
    }
  }

  lemma {:induction false} OfFlatten(levels: seq<seq<Id>>, x: Id) returns (k: nat)
    requires x in Flatten(levels)
    ensures k < |levels| && x in levels[k]
  {
    var i :| 0 <= i < |Flatten(levels)| && Flatten(levels)[i] == x;
    var j;
    k, j := Locate(levels, i);
  }

  /** Every folder of a listing is there because it was asked for or because its parent precedes it. */
  ghost predicate ParentsFirst(f: Folders, dirs: set<Id>, list: seq<Id>) {
    forall i :: 0 <= i < |list| && list[i] !in dirs
      ==> list[i] in f && f[list[i]].parent.Some? && f[list[i]].parent.value in list[..i]
  }

  lemma ListingParentsFirst(f: Folders, dirs: set<Id>, uid: Id, levels: seq<seq<Id>>)
    requires Listing(f, dirs, uid, levels)
    ensures ParentsFirst(f, dirs, Flatten(levels))
    ensures forall x :: x in Flatten(levels) ==> x in f && f[x].owner == uid
  {
    var list := Flatten(levels);
    forall i | 0 <= i < |list|
      ensures list[i] in f && f[list[i]].owner == uid
      ensures list[i] !in dirs ==> f[list[i]].parent.Some? && f[list[i]].parent.value in list[..i]
    {
      var k, j := Locate(levels, i);
      assert list[i] in Level(f, dirs, uid, k);
      if k > 0 {
        InFlatten(levels[..k], k - 1, f[list[i]].parent.value);
      }
    }
  }

  lemma StartsListed(f: Folders, dirs: set<Id>, uid: Id, levels: seq<seq<Id>>)
    requires Listing(f, dirs, uid, levels)
    ensures forall x :: x in f && f[x].owner == uid && x in dirs ==> x in Flatten(levels)
  {
    forall x | x in f && f[x].owner == uid && x in dirs
      ensures x in Flatten(levels)
    {
      assert x in Level(f, dirs, uid, 0);
      InFlatten(levels, 0, x);
    }
  }

  /** On any parent graph: a folder found at two levels below top lies on a cycle through top. */
  lemma {:induction false} MeetsTopAgain(f: Folders, top: Id, uid: Id, id: Id, j: nat, k: nat)
    requires id in Level(f, {top}, uid, j) && id in Level(f, {top}, uid, k) && j < k
    ensures top in Level(f, {top}, uid, k - j)
    decreases j
  {
    if j > 0 {
      MeetsTopAgain(f, top, uid, f[id].parent.value, j - 1, k - 1);
    }
  }

  lemma DistinctPart(a: seq<Id>, b: seq<Id>)
    requires Distinct(a + b)
    ensures Distinct(a)
  {
    forall i, j | 0 <= i < j < |a|
      ensures a[i] != a[j]
    {
      assert (a + b)[i] != (a + b)[j];
    }
  }

  lemma {:induction false} NotDistinct(levels: seq<seq<Id>>, j: nat, k: nat, x: Id)
    requires j < k < |levels| && x in levels[j] && x in levels[k]
    ensures !Distinct(Flatten(levels))
    decreases |levels|
  {
    var n := |levels| - 1;
    var front := Flatten(levels[..n]);
    if k < n {
      NotDistinct(levels[..n], j, k, x);
      var a, b :| 0 <= a < b < |front| && front[a] == front[b];
      assert Flatten(levels)[a] == Flatten(levels)[b];
    } else {
      InFlatten(levels[..n], j, x);
      var a :| 0 <= a < |front| && front[a] == x;
      var b :| 0 <= b < |levels[n]| && levels[n][b] == x;
      assert Flatten(levels)[a] == Flatten(levels)[|front| + b];
    }
  }

  /** On any parent graph the first folder listed twice is the start itself. */
  lemma FirstRepeatIsTop(f: Folders, top: Id, uid: Id, levels: seq<seq<Id>>, i: nat)
    requires Listing(f, {top}, uid, levels)
    requires i < |Flatten(levels)| && Distinct(Flatten(levels)[..i]) && Flatten(levels)[i] in Flatten(levels)[..i]
    ensures Flatten(levels)[i] == top
  {
    var x := Flatten(levels)[i];
    var k, j := Locate(levels, i);
    assert Enumerates(levels[k], Level(f, {top}, uid, k));
    assert x !in levels[k][..j];
    var l := OfFlatten(levels[..k], x);
    assert x in Level(f, {top}, uid, l) && x in Level(f, {top}, uid, k);
    MeetsTopAgain(f, top, uid, x, l, k);
    if l > 0 {
      TopExists(f, top, uid, k);
      assert top in levels[0] && top in levels[k - l];
      NotDistinct(levels[..k], 0, k - l, top);
      DistinctPart(Flatten(levels[..k]), levels[k][..j]);
      assert false;
    }
  }

  /** The start is met again below itself. */
  ghost predicate MetAgain(f: Folders, top: Id, uid: Id) {
    exists k: nat :: 1 <= k <= 65535 && top in Level(f, {top}, uid, k)
  }

  lemma NeverMetAgain(f: Folders, top: Id, uid: Id)
    requires Forest(f)
    ensures !MetAgain(f, top, uid)
  {
    forall k: nat | 1 <= k <= MAX_ROUNDS
      ensures top !in Level(f, {top}, uid, k)
    {
      LevelsDisjoint(f, top, uid, 0, k);
      if top in Level(f, {top}, uid, k) {
        TopExists(f, top, uid, k);
      }
    }
  }

  /** On any parent graph: the listing from one start has no repetition exactly when the start is not
      met again. */
  lemma DistinctUnlessCycle(f: Folders, top: Id, uid: Id, levels: seq<seq<Id>>)
    requires Listing(f, {top}, uid, levels)
    ensures Distinct(Flatten(levels)) <==> !MetAgain(f, top, uid)
  {
    var list := Flatten(levels);
    if !Distinct(list) {
      var i, j :| 0 <= i < j < |list| && list[i] == list[j];
      var k, a := Locate(levels, j);
      var l, b := Locate(levels, i);
      assert Enumerates(levels[k], Level(f, {top}, uid, k)) && Enumerates(levels[l], Level(f, {top}, uid, l));
      if l < k {
        MeetsTopAgain(f, top, uid, list[i], l, k);
      } else if k < l {
        MeetsTopAgain(f, top, uid, list[i], k, l);
      } else {
        assert list[..j][i] == levels[k][b];
        FrontLength(levels, k, i, b);
        FrontLength(levels, k, j, a);
        assert false;
      }
    }
    if k: nat :| 1 <= k <= MAX_ROUNDS && top in Level(f, {top}, uid, k) {
      if k >= |levels| {
        LevelsStop(f, {top}, uid, |levels|, k);
        assert false;
      }
      TopExists(f, top, uid, k);
      assert top in levels[0] && top in levels[k];
      NotDistinct(levels, 0, k, top);
    }
  }

  lemma FrontLength(levels: seq<seq<Id>>, k: nat, i: nat, j: nat)
    requires k < |levels| && j < |levels[k]| && i <= |Flatten(levels)|
    requires Flatten(levels)[..i] == Flatten(levels[..k]) + levels[k][..j]
    ensures i == |Flatten(levels[..k])| + j
  {
    assert |Flatten(levels)[..i]| == i;
  }

  /** At most 65535 levels below one of dirs. */
  ghost predicate InLevels(f: Folders, dirs: set<Id>, uid: Id, id: Id) {
    exists k: nat :: k <= 65535 && id in Level(f, dirs, uid, k)
  }

  /** Within 65535 levels of top. */
  ghost predicate Reached(f: Folders, top: Id, uid: Id, id: Id) {
    InLevels(f, {top}, uid, id)
  }

  lemma ListedIsLevel(f: Folders, dirs: set<Id>, uid: Id, levels: seq<seq<Id>>, id: Id)
    requires Listing(f, dirs, uid, levels)
    ensures id in Flatten(levels) <==> InLevels(f, dirs, uid, id)
  {
    if id in Flatten(levels) {
      var k := OfFlatten(levels, id);
      assert Enumerates(levels[k], Level(f, dirs, uid, k));
    }
    if k: nat :| k <= MAX_ROUNDS && id in Level(f, dirs, uid, k) {
      if k >= |levels| {
        LevelsStop(f, dirs, uid, |levels|, k);
        assert false;
      }
      InFlatten(levels, k, id);
    }
  }

  lemma ListedIsReached(f: Folders, top: Id, uid: Id, levels: seq<seq<Id>>, id: Id)
    requires Listing(f, {top}, uid, levels)
    ensures id in Flatten(levels) <==> Reached(f, top, uid, id)
  {
    ListedIsLevel(f, {top}, uid, levels, id);
  }

  /** In a forest the listing from one start is exactly the folders within 65535 levels of it, each
      once, parents first. */
  lemma ListingExact(f: Folders, top: Id, uid: Id, levels: seq<seq<Id>>)
    requires Forest(f) && Listing(f, {top}, uid, levels)
    ensures Distinct(Flatten(levels)) && ParentsFirst(f, {top}, Flatten(levels))
    ensures forall id :: id in Flatten(levels) <==> Reached(f, top, uid, id)
  {
    ListingParentsFirst(f, {top}, uid, levels);
    NeverMetAgain(f, top, uid);
    DistinctUnlessCycle(f, top, uid, levels);
    forall id {
      ListedIsReached(f, top, uid, levels, id);
    }
  }

  /** So it is the whole subtree exactly when no folder is deeper than that. */
  lemma ListingIsSubtree(f: Folders, top: Id, uid: Id, levels: seq<seq<Id>>)
    requires Forest(f) && Listing(f, {top}, uid, levels)
    ensures (forall id :: Below(f, uid, top, id) <==> id in Flatten(levels))
            <==> Level(f, {top}, uid, 65536) == {}
  {
    ListingExact(f, top, uid, levels);
    if Level(f, {top}, uid, MAX_ROUNDS + 1) == {} {
      forall id | Below(f, uid, top, id)
        ensures id in Flatten(levels)
      {
        var k: nat :| id in Level(f, {top}, uid, k);
        if k > MAX_ROUNDS {
          LevelsStop(f, {top}, uid, MAX_ROUNDS + 1, k);
          assert false;
        }
      }
    } else {
      var id :| id in Level(f, {top}, uid, MAX_ROUNDS + 1);
      assert Below(f, uid, top, id);
      if id in Flatten(levels) {
        var k: nat :| k <= MAX_ROUNDS && id in Level(f, {top}, uid, k);
        LevelsDisjoint(f, top, uid, k, MAX_ROUNDS + 1);
        assert false;
      }
    }
  }

  /** From one start something is listed exactly when the start is there. */
  lemma ListsSomethingIff(f: Folders, top: Id, uid: Id, levels: seq<seq<Id>>)
    requires Listing(f, {top}, uid, levels)
    ensures Flatten(levels) != [] <==> top in f && f[top].owner == uid
  {
    if Flatten(levels) != [] {
      var k := OfFlatten(levels, Flatten(levels)[0]);
      assert Enumerates(levels[k], Level(f, {top}, uid, k));
      TopExists(f, top, uid, k);
    }
    if top in f && f[top].owner == uid {
      assert top in levels[0];
      InFlatten(levels, 0, top);
    }
  }
}
