/** The expiry queue of the lock manager: a binary min-heap of lock nodes with back-pointers,
    driven by the sift-up and sift-down loops of Go's container/heap. */
module ExpiryHeap {

  /** A lock's metadata. A negative duration means that the lock never expires. */
  datatype LockDetails = LockDetails(root: string, duration: int, owner: string, zeroDepth: bool)

  class Node {
    var details: LockDetails
    var token: string
    var refCount: int
    var expiry: int
    var byExpiryIndex: int
    var held: bool

    constructor (root: string)
      ensures details == LockDetails(root, 0, "", false)
      ensures token == "" && refCount == 0 && expiry == 0 && byExpiryIndex == -1 && !held
    {
      details := LockDetails(root, 0, "", false);
      token, refCount, expiry, byExpiryIndex, held := "", 0, 0, -1, false;
    }
  }

  /** The heap position above k. */
  function Above(k: int): int {
    (k - 1) / 2
  }

  /** The heap order on the first n keys. */
  ghost predicate Ordered(keys: seq<int>, n: int)
    requires n <= |keys|
  {
    forall k {:trigger Above(k)} :: 1 <= k < n ==> keys[Above(k)] <= keys[k]
  }

  /** The heap order, except on the edges that meet position i; the keys around i are in order. */
  ghost predicate OrderedAround(keys: seq<int>, n: int, i: int)
    requires 0 <= i && n <= |keys|
  {
    && (forall k {:trigger Above(k)} :: 1 <= k < n && k != i && Above(k) != i ==> keys[Above(k)] <= keys[k])
    && (1 <= i < n ==> forall k {:trigger Above(k)} :: 1 <= k < n && Above(k) == i ==> keys[Above(i)] <= keys[k])
  }

  ghost predicate ChildrenBelow(keys: seq<int>, n: int, i: int)
    requires 0 <= i && n <= |keys|
  {
    forall k {:trigger Above(k)} :: 1 <= k < n && Above(k) == i ==> keys[i] <= keys[k]
  }

  function Swapped<T>(s: seq<T>, i: nat, j: nat): (t: seq<T>)
    requires i < |s| && j < |s|
  {
    s[i := s[j]][j := s[i]]
  }

  /** Exchanging j with a larger parent moves the disorder from j to the parent. */
  lemma SiftUpStep(keys: seq<int>, n: nat, j: nat)
    requires 0 < j < n <= |keys| && keys[j] < keys[Above(j)]
    requires OrderedAround(keys, n, j) && ChildrenBelow(keys, n, j)
    ensures OrderedAround(Swapped(keys, Above(j), j), n, Above(j))
    ensures ChildrenBelow(Swapped(keys, Above(j), j), n, Above(j))
  {
    var i, t := Above(j), Swapped(keys, Above(j), j);
    forall k | 1 <= k < n && k != i && Above(k) != i
      ensures t[Above(k)] <= t[k]
    {
      if Above(k) == j {
        assert keys[Above(j)] <= keys[k];
      }
    }
    forall k | 1 <= k < n && Above(k) == i
      ensures t[i] <= t[k] && (i >= 1 ==> t[Above(i)] <= t[k])
    {
      assert k == j || keys[Above(k)] <= keys[k];
      if i >= 1 {
        assert keys[Above(i)] <= keys[i];
      }
    }
  }

  /** Exchanging i with its smallest child moves the disorder from i to that child. */
  lemma SiftDownStep(keys: seq<int>, n: int, i: nat, j: nat)
    requires i < j < n <= |keys| && Above(j) == i && keys[j] < keys[i]
    requires forall k {:trigger Above(k)} :: 1 <= k < n && Above(k) == i ==> keys[j] <= keys[k]
    requires OrderedAround(keys, n, i)
    ensures OrderedAround(Swapped(keys, i, j), n, j)
    ensures Swapped(keys, i, j)[i] <= Swapped(keys, i, j)[j]
    ensures i > 0 ==> Swapped(keys, i, j)[Above(i)] <= Swapped(keys, i, j)[i]
  {
    var t := Swapped(keys, i, j);
    forall k | 1 <= k < n && k != j && Above(k) != j
      ensures t[Above(k)] <= t[k]
    {
      if k == i {
        assert keys[Above(i)] <= keys[j];
      } else if Above(k) == i {
        assert keys[j] <= keys[k];
      } else {
        assert keys[Above(k)] <= keys[k];
      }
    }
    forall k | 1 <= k < n && Above(k) == j
      ensures t[Above(j)] <= t[k]
    {
      assert keys[Above(k)] <= keys[k];
    }
  }

  /** Order around i, below i and above i is order everywhere. */
  lemma OrderedFrom(keys: seq<int>, n: int, i: nat)
    requires i < n <= |keys|
    requires OrderedAround(keys, n, i) && ChildrenBelow(keys, n, i)
    requires i > 0 ==> keys[Above(i)] <= keys[i]
    ensures Ordered(keys, n)
  {
  }

  /** The head of the queue expires first. */
  lemma {:induction false} HeadIsLeast(keys: seq<int>, k: nat)
    requires Ordered(keys, |keys|) && k < |keys|
    ensures keys[0] <= keys[k]
  {
    if k > 0 {
      HeadIsLeast(keys, Above(k));
    }
  }

  class Queue {
    var nodes: seq<Node>
    ghost var members: set<Node>
    ghost var keys: seq<int>

    constructor ()
      ensures Valid() && members == {}
    {
      nodes, members, keys := [], {}, [];
    }

    /** Every queued node knows its own position; in particular no node is queued twice. */
    ghost predicate Indexed()
      reads this, members`byExpiryIndex, members`expiry
    {
      && |keys| == |nodes|
      && (forall i :: 0 <= i < |nodes| ==>
            nodes[i] in members && nodes[i].byExpiryIndex == i && nodes[i].expiry == keys[i])
      && (forall n :: n in members ==> 0 <= n.byExpiryIndex < |nodes| && nodes[n.byExpiryIndex] == n)
    }

    /** A consistent heap. */
    ghost predicate Valid()
      reads this, members`byExpiryIndex, members`expiry
    {
      Indexed() && Ordered(keys, |nodes|)
    }

    method Less(i: nat, j: nat) returns (b: bool)
      requires i < |nodes| && j < |nodes|
      ensures b == (nodes[i].expiry < nodes[j].expiry)
    {
      b := nodes[i].expiry < nodes[j].expiry;
    }

    method Swap(i: nat, j: nat)
      requires i < |nodes| && j < |nodes| && Indexed()
      modifies this`nodes, this`keys, members`byExpiryIndex
      ensures nodes == Swapped(old(nodes), i, j) && keys == Swapped(old(keys), i, j) && Indexed()
    {
      nodes := nodes[i := nodes[j]][j := nodes[i]];
      keys := Swapped(keys, i, j);
      nodes[i].byExpiryIndex := i;
      nodes[j].byExpiryIndex := j;
    }

    /** heap.Interface Push: append without restoring the order. */
    method Append(n: Node)
      requires Indexed() && n !in members
      modifies this, n`byExpiryIndex
      ensures nodes == old(nodes) + [n] && keys == old(keys) + [n.expiry] && members == old(members) + {n} && Indexed()
    {
      n.byExpiryIndex := |nodes|;
      nodes := nodes + [n];
      members, keys := members + {n}, keys + [n.expiry];
    }

    /** heap.Interface Pop: drop the last node. */
    method Pop() returns (n: Node)
      requires Indexed() && |nodes| > 0
      modifies this, members`byExpiryIndex
      ensures n == old(nodes)[|old(nodes)| - 1] && n.byExpiryIndex == -1
      ensures nodes == old(nodes)[..|old(nodes)| - 1] && keys == old(keys)[..|old(nodes)| - 1]
      ensures members == old(members) - {n} && Indexed()
    {
      var i := |nodes| - 1;
      n := nodes[i];
      n.byExpiryIndex := -1;
      nodes := nodes[..i];
      members, keys := members - {n}, keys[..i];
    }

    /** The nodes from position n on, unchanged since before. */
    ghost predicate SuffixKept(n: nat, before: seq<Node>)
      reads this
    {
      |nodes| == |before| && forall k :: n <= k < |nodes| ==> nodes[k] == before[k]
    }

    method SwapUp(i: nat, j: nat, ghost n: nat)
      requires 0 < j < n <= |nodes| && i == Above(j) && Indexed()
      requires nodes[j].expiry < nodes[i].expiry
      requires OrderedAround(keys, n, j) && ChildrenBelow(keys, n, j)
      modifies this`nodes, this`keys, members`byExpiryIndex
      ensures Indexed() && SuffixKept(n, old(nodes))
      ensures OrderedAround(keys, n, i) && ChildrenBelow(keys, n, i)
    {
      SiftUpStep(keys, n, j);
      Swap(i, j);
    }

    /** Restores the order above start among the first n positions. */
    method Up(start: nat, ghost n: nat)
      requires start < n <= |nodes| && Indexed()
      requires OrderedAround(keys, n, start) && ChildrenBelow(keys, n, start)
      modifies this`nodes, this`keys, members`byExpiryIndex
      ensures Indexed() && SuffixKept(n, old(nodes)) && Ordered(keys, n)
    {
      var j: nat := start;
      while true
        invariant j < n <= |nodes| && Indexed() && SuffixKept(n, old(nodes))
        invariant OrderedAround(keys, n, j) && ChildrenBelow(keys, n, j)
        decreases j
      {
        var i: nat := if j == 0 then 0 else (j - 1) / 2;
        if i == j { break; }
        var less := Less(j, i);
        if !less { break; }
        SwapUp(i, j, n);
        j := i;
      }
      OrderedFrom(keys, n, j);
    }

    method SmallestChild(i: nat, n: nat) returns (j: nat)
      requires 2 * i + 1 < n <= |nodes| && Indexed()
      ensures i < j < n && Above(j) == i
      ensures forall k {:trigger Above(k)} :: 1 <= k < n && Above(k) == i ==> keys[j] <= keys[k]
    {
      j := 2 * i + 1;
      if j + 1 < n {
        var less := Less(j + 1, j);
        if less { j := j + 1; }
      }
    }

    method SwapDown(i: nat, j: nat, n: nat)
      requires i < j < n <= |nodes| && i == Above(j) && Indexed()
      requires nodes[j].expiry < nodes[i].expiry
      requires forall k {:trigger Above(k)} :: 1 <= k < n && Above(k) == i ==> keys[j] <= keys[k]
      requires OrderedAround(keys, n, i)
      modifies this`nodes, this`keys, members`byExpiryIndex
      ensures Indexed() && SuffixKept(n, old(nodes))
      ensures OrderedAround(keys, n, j) && keys[i] <= keys[j]
    {
      SiftDownStep(keys, n, i, j);
      Swap(i, j);
    }

    /** Restores the order below i0 among the first n positions; i0 may be out of order with its
        parent. When nothing moved, that edge is the only one left to check. */
    method Down(i0: nat, n: nat) returns (moved: bool)
      requires i0 < n <= |nodes| && Indexed() && OrderedAround(keys, n, i0)
      modifies this`nodes, this`keys, members`byExpiryIndex
      ensures Indexed() && SuffixKept(n, old(nodes))
      ensures moved ==> Ordered(keys, n)
      ensures !moved ==> OrderedAround(keys, n, i0) && ChildrenBelow(keys, n, i0)
    {
      var i: nat := i0;
      while true
        invariant i0 <= i < n <= |nodes| && Indexed() && SuffixKept(n, old(nodes))
        invariant OrderedAround(keys, n, i)
        invariant i > i0 ==> keys[Above(i)] <= keys[i]
        decreases n - i
      {
        if 2 * i + 1 >= n { break; }
        var j := SmallestChild(i, n);
        var less := Less(j, i);
        if !less { break; }
        SwapDown(i, j, n);
        i := j;
      }
      moved := i > i0;
      assert ChildrenBelow(keys, n, i);
      if moved {
        OrderedFrom(keys, n, i);
      }
    }

    method Push(n: Node)
      requires Valid() && n !in members
      modifies this, (members + {n})`byExpiryIndex
      ensures Valid() && |nodes| == |old(nodes)| + 1 && members == old(members) + {n}
    {
      Append(n);
      Up(|nodes| - 1, |nodes|);
    }

    /** Removes the node at position i. */
    method Remove(i: nat) returns (removed: Node)
      requires Valid() && i < |nodes|
      modifies this, members`byExpiryIndex
      ensures removed == old(nodes)[i] && removed.byExpiryIndex == -1
      ensures Valid() && |nodes| == |old(nodes)| - 1 && members == old(members) - {removed}
    {
      hide OrderedAround;
      var n := |nodes| - 1;
      if n != i {
        ReplacedByLast(keys, i);
        Swap(i, n);
        Fix(i, n);
      }
      removed := Pop();
    }

    /** Restores the order of the first n positions, which may be broken at i in either direction. */
    method Fix(i: nat, n: nat)
      requires i < n <= |nodes| && Indexed() && OrderedAround(keys, n, i)
      modifies this`nodes, this`keys, members`byExpiryIndex
      ensures Indexed() && SuffixKept(n, old(nodes)) && Ordered(keys, n)
    {
      var moved := Down(i, n);
      if !moved {
        Up(i, n);
      }
    }
  }

  /** Overwriting position i of a heap by the last key disturbs only the edges at i. */
  lemma ReplacedByLast(keys: seq<int>, i: nat)
    requires i + 1 < |keys| && Ordered(keys, |keys|)
    ensures OrderedAround(Swapped(keys, i, |keys| - 1), |keys| - 1, i)
  {
    if i > 0 {
      assert keys[Above(i)] <= keys[i];
    }
  }
}
