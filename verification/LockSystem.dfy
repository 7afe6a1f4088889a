/** The in-memory lock system of the WebDAV server: a tree of nodes by name with reference counts,
    an index by token and an expiry heap, all over the same node objects. Its methods are proved
    against the plain table of live locks. */
module LockSystem {
  import opened ExpiryHeap
  import opened LockState
  import opened LockTable
  import opened Names

  class MemLS {
    var byName: map<string, Node>
    var byToken: map<string, Node>
    var gen: nat
    const byExpiry: Queue
    /** Every node created so far with its fields, the names that are explicitly locked, and the
        number of those at or below each name. */
    ghost var nodes: set<Node>
    ghost var infos: Infos
    ghost var locked: set<string>
    ghost var count: string -> nat

    ghost predicate Tied()
      reads this`infos, this`nodes, nodes`details, nodes`token, nodes`refCount, nodes`expiry, nodes`held
    {
      nodes == infos.Keys
      && forall n :: n in nodes ==> infos[n] == Info(n.details, n.token, n.refCount, n.expiry, n.held)
    }

    /** The heap is in order and only the nodes in it have a position. */
    ghost predicate Heaped()
      reads this`nodes, byExpiry, byExpiry.members`byExpiryIndex, byExpiry.members`expiry, nodes`byExpiryIndex
    {
      && byExpiry.Valid() && byExpiry.members <= nodes
      && forall n :: n in nodes && n !in byExpiry.members ==> n.byExpiryIndex == -1
    }

    ghost function St(): Shape
      reads this
    {
      Shape(byName, byToken, infos, gen, count, locked)
    }

    ghost predicate Valid()
      reads this, nodes, byExpiry, byExpiry.members
    {
      Tied() && Heaped() && IsShape(St()) && IsQueue(byExpiry.members, infos)
    }

    /** The table of live locks that the structures represent. */
    ghost function Locks(): Table
      reads this`byToken, this`infos
    {
      Abs(byToken, infos)
    }

    constructor (unixTime: nat)
      ensures Valid() && fresh(byExpiry) && nodes == {} && gen == unixTime
      ensures Locks() == map[]
    {
      byName, byToken, gen := map[], map[], unixTime;
      byExpiry := new Queue();
      nodes, infos, locked, count := {}, map[], {}, k => 0;
      new;
      forall k {:trigger Count({}, k)}
        ensures Count({}, k) == 0
      {
        CountPositive({}, k);
      }
    }

    method NextToken() returns (token: string)
      modifies this`gen
      ensures gen == old(gen) + 1 && token == Decimal(gen)
    {
      gen := gen + 1;
      token := Decimal(gen);
    }

    // ---- adding a name to the tree ----

    /** The node for name0, added to the tree when there is none. */
    method NodeFor(name0: string) returns (n: Node)
      requires Tied() && (name0 in byName ==> byName[name0] in infos)
      modifies this`byName, this`infos, this`nodes
      ensures Tied() && n in infos && byName == old(byName)[name0 := n]
      ensures name0 in old(byName) ==> n == old(byName)[name0] && infos == old(infos) && nodes == old(nodes)
      ensures name0 !in old(byName) ==>
                fresh(n) && n !in old(infos) && n.byExpiryIndex == -1 && infos == old(infos)[n := NewInfo(name0)]
    {
      if name0 in byName {
        n := byName[name0];
      } else {
        n := new Node(name0);
        byName := byName[name0 := n];
        nodes, infos := nodes + {n}, infos[n := NewInfo(name0)];
      }
    }

    method Recount(n: Node, change: int)
      requires Tied() && n in infos
      modifies this`infos, n`refCount
      ensures Tied() && infos == Recounted(old(infos), n, change)
    {
      n.refCount := n.refCount + change;
      infos := Recounted(infos, n, change);
    }

    /** The body of the walk in CreateNode. */
    method Retain(name0: string, ghost was: Tree, ghost wasInfos: Infos, ghost before: string -> nat,
                  ghost after: string -> nat, ghost walk: set<string>, ghost bound: nat) returns (n: Node)
      requires Tied() && Rooted(name0) && Next(name0, walk, bound) && FreshAbove(was, before, after, walk)
      requires Creating(byName, infos, was, wasInfos, before, after, walk, bound)
      modifies this`byName, this`infos, this`nodes, nodes`refCount
      ensures Tied() && byName == old(byName)[name0 := n] && old(nodes) <= nodes
      ensures Creating(byName, infos, was, wasInfos, before, after, walk, |name0|)
      ensures forall m :: m in nodes && m !in old(nodes) ==> fresh(m) && m.byExpiryIndex == -1
    {
      ghost var byName0, infos0 := byName, infos;
      n := NodeFor(name0);
      Recount(n, 1);
      Retained(byName0, infos0, was, wasInfos, before, after, walk, bound, name0, n);
    }

    /** The walk of CreateNode: name and its ancestors each count one more locked name. */
    method Enlist(name: string, ghost before: string -> nat, ghost after: string -> nat, ghost walk: set<string>)
      returns (ret: Node?)
      requires Tied() && name in walk && Chain(walk, name) && FreshAbove(byName, before, after, walk)
      requires Creating(byName, infos, byName, infos, before, after, walk, |name| + 1)
      modifies this`byName, this`infos, this`nodes, nodes`refCount
      ensures Tied() && Creating(byName, infos, old(byName), old(infos), before, after, walk, 1)
      ensures forall m :: m in nodes && m !in old(nodes) ==> fresh(m) && m.byExpiryIndex == -1
      ensures name in byName && ret == byName[name]
    {
      hide Creating, FreshAbove, Tied, Next;
      ghost var bound: nat := |name| + 1;
      var name0, first := name, true;
      ret := null;
      while true
        invariant name0 in walk && |name0| < bound && Next(name0, walk, bound) && (first ==> name0 == name)
        invariant !first ==> name in byName && ret == byName[name] && |name| >= bound
        invariant Tied() && Creating(byName, infos, old(byName), old(infos), before, after, walk, bound)
        invariant forall m :: m in nodes && m !in old(nodes) ==> fresh(m) && m.byExpiryIndex == -1
        decreases |name0|
      {
        var n := Retain(name0, old(byName), old(infos), before, after, walk, bound);
        if first { ret := n; }
        if name0 == "/" { break; }
        bound := |name0|;
        name0, first := Parent(name0), false;
      }
    }

    /** Adds name to the tree. */
    method CreateNode(name: string, ghost after: string -> nat, ghost walk: set<string>) returns (ret: Node)
      requires Tied() && Heaped() && name in walk && Chain(walk, name) && FreshAbove(byName, count, after, walk)
      requires OneMore(count, after, walk) && IsTree(byName, infos, count)
      requires Creating(byName, infos, byName, infos, count, after, walk, |name| + 1)
      modifies this`byName, this`infos, this`nodes, nodes`refCount
      ensures Tied() && Heaped() && IsTree(byName, infos, after) && GrownInfos(infos, old(infos))
      ensures forall k :: k in old(byName) ==> k in byName && byName[k] == old(byName)[k]
      ensures name in byName && ret == byName[name] && ret in nodes && fresh(nodes - old(nodes))
    {
      hide Walking, IsTree, OneMore, FreshAbove, Chain;
      ghost var byName0, infos0 := byName, infos;
      var n := Enlist(name, count, after, walk);
      CreateEnds(byName, infos, byName0, infos0, count, after, walk, name);
      InTree(byName, infos, after, name);
      ret := n;
    }

    // ---- taking a name off the tree ----

    /** The body of the walk in RemoveNode. */
    method Drop(name0: string, ghost was: Tree, ghost wasInfos: Infos, ghost before: string -> nat,
                ghost after: string -> nat, ghost walk: set<string>, ghost bound: nat)
      requires Tied() && Next(name0, walk, bound) && name0 in byName && after(name0) == before(name0) - 1
      requires Removing(byName, infos, was, wasInfos, before, after, walk, bound)
      modifies this`byName, this`infos, nodes`refCount
      ensures Tied() && Removing(byName, infos, was, wasInfos, before, after, walk, |name0|)
    {
      Released(byName, infos, was, wasInfos, before, after, walk, bound, name0);
      var x := byName[name0];
      Recount(x, -1);
      if x.refCount == 0 {
        byName := byName - {name0};
      }
    }

    /** The walk of RemoveNode: name and its ancestors each count one locked name less. */
    method Delist(name: string, ghost before: string -> nat, ghost after: string -> nat, ghost walk: set<string>)
      requires Tied() && Chain(walk, name) && OneMore(after, before, walk) && IsTree(byName, infos, before)
      modifies this`byName, this`infos, nodes`refCount
      ensures Tied() && Removing(byName, infos, old(byName), old(infos), before, after, walk, 1)
    {
      RemoveBegins(byName, infos, before, after, walk, name);
      ghost var bound: nat := |name| + 1;
      var name0 := name;
      while true
        invariant Rooted(name0) && Next(name0, walk, bound)
        invariant Tied() && Removing(byName, infos, old(byName), old(infos), before, after, walk, bound)
        decreases |name0|
      {
        StillThere(byName, old(byName), after, walk, bound, name0);
        Drop(name0, old(byName), old(infos), before, after, walk, bound);
        if name0 == "/" { break; }
        bound := |name0|;
        name0 := Parent(name0);
      }
    }

    // ---- removing a lock ----

    /** Takes the token off the node, which then counts as not locked. */
    method Forget(n: Node)
      requires Tied() && n in infos
      modifies this`byToken, this`infos, n`token
      ensures Tied() && infos == WithToken(old(infos), n, "") && byToken == old(byToken) - {old(infos)[n].token}
    {
      byToken := byToken - {n.token};
      infos := WithToken(infos, n, "");
      n.token := "";
    }

    /** Takes a node that is not waiting out of the heap, if it is there. */
    method Dequeue(n: Node)
      requires Heaped() && n in infos && n in nodes && IsQueueBut(byExpiry.members, infos, n) && !Waiting(infos[n])
      modifies byExpiry, byExpiry.members`byExpiryIndex
      ensures Heaped() && IsQueue(byExpiry.members, infos) && n.byExpiryIndex == -1
      ensures n in old(byExpiry.members) ==> |byExpiry.nodes| < |old(byExpiry.nodes)|
    {
      if n.byExpiryIndex >= 0 {
        var _ := byExpiry.Remove(n.byExpiryIndex);
      }
    }

    /** The part of RemoveNode before the heap: the token, then the walk. */
    method Unname(n: Node, ghost after: string -> nat, ghost walk: set<string>)
      requires Tied() && n in infos && Chain(walk, n.details.root) && OneMore(after, count, walk)
      requires IsTree(byName, WithToken(infos, n, ""), count)
      modifies this`byName, this`byToken, this`infos, n`token, nodes`refCount
      ensures Tied() && byToken == old(byToken) - {old(infos)[n].token}
      ensures IsTree(byName, infos, after) && SameButCounts(infos, WithToken(old(infos), n, ""))
      ensures forall k :: k in byName ==> k in old(byName) && byName[k] == old(byName)[k]
    {
      hide Walking, IsTree, OneMore, Chain;
      ghost var byName0, infos1 := byName, WithToken(infos, n, "");
      Forget(n);
      Delist(n.details.root, count, after, walk);
      RemoveEnds(byName, infos, byName0, infos1, count, after, walk, n.details.root);
    }

    /** The part of RemoveNode before the heap. */
    method Detach(n: Node, ghost queue: set<Node>)
      requires Tied() && IsShape(St()) && IsQueue(queue, infos) && n in infos && n.token != "" && !n.held
      modifies this`byName, this`byToken, this`locked, this`infos, this`count, n`token, nodes`refCount
      ensures Tied() && IsShape(St()) && n in infos && IsQueueBut(queue, infos, n) && !Waiting(infos[n])
      ensures Locks() == old(Locks()) - {old(n.token)} && HeldKept(old(infos), infos)
    {
      hide IsShape, Counts, IsTree, IsNamed, IsIndex, IsQueue, IsQueueBut, OneMore, Chain, SameButCounts, Abs, Waiting;
      ghost var st, after, walk := St(), count, {};
      after, walk := WithdrawalBegins(st, n);
      Unname(n, after, walk);
      locked, count := locked - {n.details.root}, after;
      Withdrawal(st, queue, n, St());
      HeldKeptByRemoval(infos, st.infos, n);
    }

    method RemoveNode(n: Node)
      requires Valid() && n in infos && n.token != "" && !n.held
      modifies this`byName, this`byToken, this`locked, this`infos, this`count, n`token, nodes`refCount
      modifies byExpiry, byExpiry.members`byExpiryIndex
      ensures Valid() && Locks() == old(Locks()) - {old(n.token)}
      ensures n in old(byExpiry.members) ==> |byExpiry.nodes| < |old(byExpiry.nodes)|
      ensures HeldKept(old(infos), infos)
    {
      hide IsShape, IsQueue, IsQueueBut, Abs, Waiting, HeldKept;
      Detach(n, byExpiry.members);
      ghost var st := St();
      Dequeue(n);
      assert St() == st;
    }

    /** Removes the locks that have expired, earliest first. */
    method CollectExpiredNodes(now: int)
      requires Valid()
      modifies this`byName, this`byToken, this`locked, this`infos, this`count, nodes`token, nodes`refCount
      modifies byExpiry, nodes`byExpiryIndex
      ensures Valid() && Locks() == Collect(old(Locks()), now) && HeldKept(old(infos), infos)
    {
      hide IsShape, IsQueue, Abs, Collect;
      while |byExpiry.nodes| > 0
        invariant Valid() && HeldKept(old(infos), infos)
        invariant Collect(Locks(), now) == Collect(old(Locks()), now)
        decreases |byExpiry.nodes|
      {
        var n := byExpiry.nodes[0];
        if now < n.expiry {
          break;
        }
        HeadExpired(St(), byExpiry.members, n, now);
        ghost var infos1 := infos;
        RemoveNode(n);
        HeldKeptTransitive(old(infos), infos1, infos);
      }
      AllInTime(now);
    }

    lemma AllInTime(now: int)
      requires Valid() && (|byExpiry.nodes| > 0 ==> now < byExpiry.nodes[0].expiry)
      ensures Collect(Locks(), now) == Locks()
    {
      forall n | n in byExpiry.members
        ensures now < infos[n].expiry
      {
        HeadIsLeast(byExpiry.keys, n.byExpiryIndex);
      }
      NoneExpired(St(), byExpiry.members, now);
    }

    // ---- looking up, holding and releasing ----

    method LookupNode(name: string, conditions: seq<Condition>) returns (n: Node?)
      requires Valid() && Rooted(name)
      ensures n == null <==> Lookup(Locks(), name, conditions) == ""
      ensures Claimable(n) && (n != null ==> infos[n].token == Lookup(Locks(), name, conditions))
    {
      for i := 0 to |conditions|
        invariant Lookup(Locks(), name, conditions) == Lookup(Locks(), name, conditions[i..])
      {
        var token := conditions[i].token;
        Indexed(St(), token);
        if token !in byToken { continue; }
        n := byToken[token];
        if n.held { continue; }
        if name == n.details.root { return; }
        if n.details.zeroDepth { continue; }
        PrefixTest(n.details.root, name);
        if n.details.root == "/" || HasPrefix(name, n.details.root + "/") { return; }
      }
      n := null;
    }

    /** Puts a waiting node into the heap. */
    method Enqueue(n: Node)
      requires Tied() && Heaped() && n in nodes && n !in byExpiry.members
      requires IsQueueBut(byExpiry.members, infos, n) && Waiting(infos[n])
      modifies byExpiry, nodes`byExpiryIndex
      ensures Heaped() && IsQueue(byExpiry.members, infos)
    {
      byExpiry.Push(n);
    }

    /** Sets the mark of a lock, without moving it in or out of the heap. */
    method Mark(n: Node, held: bool)
      requires Tied() && IsShape(St()) && IsQueueBut(byExpiry.members, infos, n) && n in nodes && n.token != ""
      modifies this`infos, n`held
      ensures Tied() && IsShape(St()) && IsQueueBut(byExpiry.members, infos, n)
      ensures infos == old(infos)[n := old(infos)[n].(held := held)]
      ensures Locks() == SetHeld(old(Locks()), {n.token}, held)
    {
      hide IsShape, IsQueueBut, Abs, SetHeld;
      ghost var i := infos[n].(held := held);
      ShapeKept(St(), byExpiry.members, n, i);
      Indexed(St(), n.token);
      assert Locks()[n.token] == LockOf(infos[n]) by { TokenOf(St(), n); }
      SetHeldOne(Locks(), n.token, held);
      n.held := held;
      infos := infos[n := i];
    }

    method Hold(n: Node)
      requires Valid() && n in nodes && n.token != "" && !n.held
      modifies this`infos, n`held, byExpiry, nodes`byExpiryIndex
      ensures Valid() && infos == old(infos)[n := old(infos)[n].(held := true)]
      ensures Locks() == SetHeld(old(Locks()), {n.token}, true)
    {
      hide IsShape, Abs;
      Mark(n, true);
      if n.details.duration >= 0 && n.byExpiryIndex >= 0 {
        Dequeue(n);
      }
    }

    method Unhold(n: Node)
      requires Valid() && n in nodes && n.token != "" && n.held
      modifies this`infos, n`held, byExpiry, nodes`byExpiryIndex
      ensures Valid() && infos == old(infos)[n := old(infos)[n].(held := false)]
      ensures Locks() == SetHeld(old(Locks()), {n.token}, false)
    {
      hide IsShape, Abs;
      Mark(n, false);
      if n.details.duration >= 0 {
        Enqueue(n);
      }
    }

    // ---- the operations ----

    method CanCreate(name: string, zeroDepth: bool) returns (ok: bool)
      requires Valid() && Rooted(name)
      ensures WellFormed(Locks()) && (ok <==> Free(Locks(), LockDetails(name, 0, "", zeroDepth)))
    {
      TableWellFormed(St());
      var name0, first := name, true;
      WalkBegins(name);
      while true
        invariant Rooted(name0) && Within(name0, name) && (first <==> name0 == name)
        invariant Clear(byName, infos, name, zeroDepth, name0)
        decreases |name0|
      {
        if name0 in byName {
          var n := byName[name0];
          if first {
            if n.token != "" || !zeroDepth {
              BlockedIsNotFree(St(), name, zeroDepth, name0);
              return false;
            }
          } else if n.token != "" && !n.details.zeroDepth {
            BlockedIsNotFree(St(), name, zeroDepth, name0);
            return false;
          }
        }
        if name0 == "/" { break; }
        ClearStep(byName, infos, name, zeroDepth, name0);
        WithinUp(name0, name);
        name0, first := Parent(name0), false;
      }
      ClearAll(St(), name, zeroDepth);
      ok := true;
    }

    lemma WithinUp(name0: string, name: string)
      requires Rooted(name) && Rooted(name0) && Within(name0, name) && name0 != "/"
      ensures Within(Parent(name0), name) && Parent(name0) != name
    {
      WithinRooted(name0, name);
      WithinStep(Parent(name0), name0);
      WithinTransitive(Parent(name0), name0, name);
    }

    /** The part of Create after the check: a node for the name gets a fresh token and the lock. */
    method Admit(details: LockDetails, now: int) returns (n: Node)
      requires Valid() && Rooted(details.root) && WellFormed(Locks()) && Free(Locks(), details)
      modifies this, nodes, byExpiry
      ensures Valid() && gen == old(gen) + 1 && n.token == Decimal(gen) && n.token !in old(Locks())
      ensures Locks() == old(Locks())[n.token := NewLock(details, now)] && fresh(nodes - old(nodes))
      ensures HeldKept(old(infos), infos)
    {
      hide IsShape, Abs, Free, NewLock;
      n := Place(details, now);
      if n.details.duration >= 0 {
        Enqueue(n);
      }
    }

    /** Admit, but for the heap. */
    method Place(details: LockDetails, now: int) returns (n: Node)
      requires Valid() && Rooted(details.root) && WellFormed(Locks()) && Free(Locks(), details)
      modifies this, nodes
      ensures Tied() && Heaped() && IsShape(St()) && n in nodes && n !in byExpiry.members
      ensures IsQueueBut(byExpiry.members, infos, n) && n.details == details && !n.held
      ensures gen == old(gen) + 1 && n.token == Decimal(gen) && n.token !in old(Locks())
      ensures Locks() == old(Locks())[n.token := NewLock(details, now)] && fresh(nodes - old(nodes))
      ensures HeldKept(old(infos), infos)
    {
      hide IsShape, IsQueue, IsQueueBut, IsTree, Abs, Free, Counts, GrownInfos, NewLock, Queue.Valid, HeldKept, Decimal;
      ghost var st, t, after := St(), Locks(), count;
      FreeRootNotLocked(st, details);
      n, after := Room(details.root);
      var token := NextToken();
      Endow(n, token, details, now, st, t, after);
    }

    /** The roomy node n becomes the lock. */
    method Endow(n: Node, token: string, details: LockDetails, now: int, ghost st: Shape, ghost t: Table,
                 ghost after: string -> nat)
      requires Tied() && Heaped() && n in nodes && n.token == "" && !n.held && token == Decimal(gen)
      requires IsShape(st) && t == Abs(st.byToken, st.infos) && IsQueue(byExpiry.members, st.infos)
      requires details.root !in st.locked && Rooted(details.root)
      requires byToken == st.byToken && gen == st.gen + 1 && locked == st.locked
      requires IsTree(byName, infos, after) && Counts(after, locked + {details.root}) && GrownInfos(infos, st.infos)
      requires forall k :: k in st.byName ==> k in byName && byName[k] == st.byName[k]
      requires details.root in byName && n == byName[details.root]
      modifies this`infos, this`byToken, this`locked, this`count, n`token, n`details, n`expiry
      ensures Tied() && Heaped() && IsShape(St()) && n in nodes && n !in byExpiry.members
      ensures IsQueueBut(byExpiry.members, infos, n) && n.details == details && n.token == token
      ensures token !in t && Locks() == t[token := NewLock(details, now)] && HeldKept(st.infos, infos)
    {
      hide IsShape, IsQueue, IsQueueBut, IsTree, Abs, Counts, GrownInfos, Heaped, Queue.Valid, HeldKept, Decimal;
      ghost var i := Written(infos[n], token, details, now);
      HeldKeptByAddition(infos, st.infos, n, i);
      LockAdded(st, byExpiry.members, infos, n, i,
                Shape(byName, byToken[token := n], infos[n := i], gen, after, locked + {details.root}));
      Furnish(n, token, details, now);
      Register(n, after);
    }

    /** A node for a name that is not locked, with the counts as if it were. */
    method Room(root: string) returns (n: Node, ghost after: string -> nat)
      requires Tied() && Heaped() && IsShape(St()) && Rooted(root) && root !in locked
      modifies this`byName, this`infos, this`nodes, nodes`refCount
      ensures Tied() && Heaped() && IsTree(byName, infos, after) && Counts(after, locked + {root})
      ensures GrownInfos(infos, old(infos))
      ensures forall k :: k in old(byName) ==> k in byName && byName[k] == old(byName)[k]
      ensures root in byName && n == byName[root] && n in nodes && fresh(nodes - old(nodes)) && !n.held && n.token == ""
    {
      hide IsShape, IsTree, Creating, Chain, OneMore, FreshAbove, Counts, GrownInfos;
      ghost var st, walk := St(), {};
      after, walk := AdmissionBegins(st, root);
      n := CreateNode(root, after, walk);
      NotLocked(st, byName, infos, after, root);
    }

    /** Writes the lock into its node. */
    method Furnish(n: Node, token: string, details: LockDetails, now: int)
      requires Tied() && Heaped() && n in nodes && n !in byExpiry.members
      modifies this`infos, n`token, n`details, n`expiry
      ensures Tied() && Heaped() && n.token == token && n.details == details && n in nodes
      ensures infos == old(infos)[n := Written(old(infos)[n], token, details, now)]
    {
      hide Queue.Valid;
      n.token := token;
      n.details := details;
      if n.details.duration >= 0 {
        n.expiry := now + n.details.duration;
      }
      infos := infos[n := Written(infos[n], token, details, now)];
    }

    method Register(n: Node, ghost after: string -> nat)
      modifies this`byToken, this`locked, this`count
      ensures byToken == old(byToken)[n.token := n] && locked == old(locked) + {n.details.root} && count == after
    {
      byToken := byToken[n.token := n];
      locked, count := locked + {n.details.root}, after;
    }

    method Create(now: int, details: LockDetails) returns (r: Result<string>)
      requires Valid()
      modifies this, nodes, byExpiry
      ensures Valid() && fresh(nodes - old(nodes)) && HeldKept(old(infos), infos)
      ensures var t, d := Collect(old(Locks()), now), details.(root := SlashClean(details.root));
        && WellFormed(t)
        && (r.Ok? <==> Free(t, d))
        && (r.Ok? ==>
              && r.value !in t && r.value == Decimal(gen) && gen == old(gen) + 1
              && Locks() == t[r.value := NewLock(d, now)]
              && LivesFor(Locks(), r.value, d, now) && SameBut(t, Locks(), r.value))
        && (r.Err? ==> r.error == ErrLocked && Locks() == t && gen == old(gen))
    {
      hide Abs, Free, Collect, NewLock, IsShape, LivesFor, SameBut;
      CollectExpiredNodes(now);
      var d := details.(root := SlashClean(details.root));
      var ok := CanCreate(d.root, d.zeroDepth);
      FreeByShape(Locks(), LockDetails(d.root, 0, "", d.zeroDepth), d);
      if !ok {
        return Err(ErrLocked);
      }
      ghost var t := Locks();
      var n := Admit(d, now);
      r := Ok(n.token);
      NewLockLives(t, n.token, d, now);
    }

    /** Takes a node out of the heap, if it is there. */
    method Unplace(n: Node)
      requires Heaped() && n in nodes && IsQueue(byExpiry.members, infos) && nodes == infos.Keys
      modifies byExpiry, nodes`byExpiryIndex
      ensures Heaped() && IsQueueBut(byExpiry.members, infos, n) && n !in byExpiry.members
    {
      if n.byExpiryIndex >= 0 {
        var _ := byExpiry.Remove(n.byExpiryIndex);
      }
    }

    /** The part of Refresh after the checks: the lock moves to its new place in the heap. */
    method Renew(n: Node, now: int, duration: int)
      requires Valid() && n in nodes && n.token != "" && !n.held
      modifies this`infos, n`token, n`details, n`expiry, byExpiry, nodes`byExpiryIndex
      ensures Valid() && n.details == old(n.details).(duration := duration) && n.token == old(n.token)
      ensures HeldKept(old(infos), infos)
      ensures n.token in old(Locks())
      ensures Locks() == old(Locks())[n.token := Refreshed(old(Locks()[n.token]), now, duration)]
    {
      hide IsShape, Abs;
      ghost var t := Locks();
      Unplace(n);
      Rewrite(n, now, duration);
      if n.details.duration >= 0 {
        Enqueue(n);
      }
    }

    method Rewrite(n: Node, now: int, duration: int)
      requires Tied() && Heaped() && IsShape(St()) && IsQueueBut(byExpiry.members, infos, n)
      requires n in nodes && n.token != "" && n !in byExpiry.members && !n.held
      modifies this`infos, n`token, n`details, n`expiry
      ensures Tied() && Heaped() && IsShape(St()) && IsQueueBut(byExpiry.members, infos, n) && n !in byExpiry.members
      ensures n.details == old(n.details).(duration := duration) && n.token == old(n.token) && n.token in old(Locks())
      ensures HeldKept(old(infos), infos)
      ensures Locks() == old(Locks())[n.token := Refreshed(old(Locks()[n.token]), now, duration)]
    {
      hide IsShape, IsQueueBut, Abs, Queue.Valid, Heaped;
      TokenOf(St(), n);
      ShapeKept(St(), byExpiry.members, n, Written(infos[n], n.token, n.details.(duration := duration), now));
      Furnish(n, n.token, n.details.(duration := duration), now);
    }

    method Refresh(now: int, token: string, duration: int) returns (r: Result<LockDetails>)
      requires Valid()
      modifies this, nodes, byExpiry
      ensures Valid() && nodes == old(nodes) && gen == old(gen) && HeldKept(old(infos), infos)
      ensures var t := Collect(old(Locks()), now);
        if token !in t then r == Err(ErrNoSuchLock) && Locks() == t
        else if t[token].held then r == Err(ErrLocked) && Locks() == t
        else
          && r == Ok(t[token].details.(duration := duration))
          && Locks() == t[token := Refreshed(t[token], now, duration)]
          && LivesFor(Locks(), token, t[token].details.(duration := duration), now) && SameBut(t, Locks(), token)
    {
      hide IsShape, Abs, Collect, Refreshed, IsQueue, Heaped, Queue.Valid, LivesFor, SameBut;
      CollectExpiredNodes(now);
      Indexed(St(), token);
      if token !in byToken {
        return Err(ErrNoSuchLock);
      }
      var n := byToken[token];
      if n.held {
        return Err(ErrLocked);
      }
      RefreshedLives(Locks(), token, now, duration);
      Renew(n, now, duration);
      r := Ok(n.details);
    }

    method Unlock(now: int, token: string) returns (r: Result<()>)
      requires Valid()
      modifies this, nodes, byExpiry
      ensures Valid() && nodes == old(nodes) && gen == old(gen) && HeldKept(old(infos), infos)
      ensures var t := Collect(old(Locks()), now);
        if token !in t then r == Err(ErrNoSuchLock) && Locks() == t
        else if t[token].held then r == Err(ErrLocked) && Locks() == t
        else r == Ok(()) && Locks() == t - {token}
    {
      hide IsShape, Abs, Collect;
      CollectExpiredNodes(now);
      Indexed(St(), token);
      if token !in byToken {
        return Err(ErrNoSuchLock);
      }
      var n := byToken[token];
      if n.held {
        return Err(ErrLocked);
      }
      RemoveNode(n);
      r := Ok(());
    }

    method Confirm(now: int, name0: string, name1: string, conditions: seq<Condition>) returns (r: Result<Claim>)
      requires Valid()
      modifies this, nodes, byExpiry
      ensures Valid() && nodes == old(nodes) && gen == old(gen) && HeldKept(old(infos), infos)
      ensures var t := Collect(old(Locks()), now);
        match Claims(t, name0, name1, conditions)
        case Err(e) => r == Err(e) && Locks() == t
        case Ok(tokens) =>
          && r.Ok? && Holding(r.value) && r.value.Tokens(infos) == tokens
          && Locks() == SetHeld(t, tokens, true)
      ensures var t := Collect(old(Locks()), now);
        && (r.Ok? <==> Granted(t, name0, conditions) && Granted(t, name1, conditions))
        && (r.Ok? ==> GrantedBy(t, name0, name1, conditions, r.value.Tokens(infos))
                      && HeldToo(t, Locks(), r.value.Tokens(infos)))
        && (r.Err? ==> r.error == ErrConfirmationFailed && Locks() == t)
    {
      hide Valid, IsShape, Abs, Collect, SetHeld, Claims, Holding, Pair, Granted, GrantedBy, HeldToo;
      CollectExpiredNodes(now);
      LocksWellFormed();
      ClaimsIff(Locks(), name0, name1, conditions);
      if Claims(Locks(), name0, name1, conditions).Ok? {
        SetHeldIsHeldToo(Locks(), Claims(Locks(), name0, name1, conditions).value);
      }
      r := Seize(name0, name1, conditions);
    }

    /** The part of Confirm after the expired locks are gone. */
    method Seize(name0: string, name1: string, conditions: seq<Condition>) returns (r: Result<Claim>)
      requires Valid()
      modifies this`infos, nodes`held, byExpiry, nodes`byExpiryIndex
      ensures Valid() && HeldKept(old(infos), infos)
      ensures match Claims(old(Locks()), name0, name1, conditions)
        case Err(e) => r == Err(e) && Locks() == old(Locks())
        case Ok(tokens) =>
          && r.Ok? && Holding(r.value) && r.value.Tokens(infos) == tokens
          && Locks() == SetHeld(old(Locks()), tokens, true)
    {
      hide IsShape, IsQueue, Abs, SetHeld, Lookup, Matches, SlashClean, Pair, Holding, Tied, Heaped;
      var n0: Node?, n1: Node? := null, null;
      if name0 != "" {
        n0 := LookupNode(SlashClean(name0), conditions);
        if n0 == null {
          return Err(ErrConfirmationFailed);
        }
      }
      if name1 != "" {
        n1 := LookupNode(SlashClean(name1), conditions);
        if n1 == null {
          return Err(ErrConfirmationFailed);
        }
      }
      PairParts(TokenOrNone(infos, n0), TokenOrNone(infos, n1));
      SameTokenSameNode(n0, n1);
      if n1 == n0 {
        n1 := null;
      }
      r := Ok(Claim(n0, n1));
      HoldBoth(n0, n1);
    }

    /** No node, or that of a lock that nobody holds. */
    ghost predicate Claimable(n: Node?)
      reads this`infos
    {
      n != null ==> n in infos && infos[n].token != "" && !infos[n].held
    }

    lemma LocksWellFormed()
      requires Valid()
      ensures WellFormed(Locks())
    {
      TableWellFormed(St());
    }

    lemma SameTokenSameNode(n0: Node?, n1: Node?)
      requires Valid() && Claimable(n0) && Claimable(n1)
      ensures TokenOrNone(infos, n0) == TokenOrNone(infos, n1) <==> n0 == n1
    {
      if n0 != null {
        TokenOf(St(), n0);
      }
      if n1 != null {
        TokenOf(St(), n1);
      }
    }

    /** Holds up to two different locks. */
    method HoldBoth(n0: Node?, n1: Node?)
      requires Valid() && Claimable(n0) && Claimable(n1) && (n0 != null ==> n0 != n1)
      modifies this`infos, nodes`held, byExpiry, nodes`byExpiryIndex
      ensures Valid() && HeldKept(old(infos), infos) && Holding(Claim(n0, n1))
      ensures Claim(n0, n1).Tokens(infos) == Claim(n0, n1).Tokens(old(infos))
      ensures Locks() == SetHeld(old(Locks()), Claim(n0, n1).Tokens(infos), true)
    {
      hide Valid, IsShape, Abs, SetHeld, Pair;
      ghost var t, t0, t1 := Locks(), TokenOrNone(infos, n0), TokenOrNone(infos, n1);
      PairParts(t0, t1);
      HoldIf(n0);
      HoldIf(n1);
      SetHeldTwo(t, Pair(t0, ""), Pair("", t1), true);
    }

    method HoldIf(n: Node?)
      requires Valid() && Claimable(n)
      modifies this`infos, nodes`held, byExpiry, nodes`byExpiryIndex
      ensures Valid() && Locks() == SetHeld(old(Locks()), Pair(TokenOrNone(old(infos), n), ""), true)
      ensures infos == if n == null then old(infos) else old(infos)[n := old(infos)[n].(held := true)]
    {
      hide IsShape, Abs, SetHeld;
      SetHeldNone(Locks(), true);
      PairParts(TokenOrNone(infos, n), "");
      if n != null {
        Hold(n);
      }
    }

    method UnholdIf(n: Node?)
      requires Valid() && (n != null ==> n in infos && infos[n].token != "" && infos[n].held)
      modifies this`infos, nodes`held, byExpiry, nodes`byExpiryIndex
      ensures Valid() && Locks() == SetHeld(old(Locks()), Pair(TokenOrNone(old(infos), n), ""), false)
      ensures infos == if n == null then old(infos) else old(infos)[n := old(infos)[n].(held := false)]
    {
      hide IsShape, Abs, SetHeld;
      SetHeldNone(Locks(), false);
      PairParts(TokenOrNone(infos, n), "");
      if n != null {
        Unhold(n);
      }
    }

    /** The nodes of a claim are locked and held. */
    ghost predicate Holding(c: Claim)
      reads this`infos
    {
      && (forall n :: n in c.Nodes() ==> n in infos && infos[n].token != "" && infos[n].held)
      && (c.n0 != null ==> c.n1 != c.n0)
    }

    /** The release function that Confirm returns. */
    method Release(c: Claim)
      requires Valid() && Holding(c)
      modifies this`infos, nodes`held, byExpiry, nodes`byExpiryIndex
      ensures Valid() && Locks() == SetHeld(old(Locks()), c.Tokens(old(infos)), false)
      ensures forall n :: n in old(infos) && n !in c.Nodes() ==> n in infos && infos[n] == old(infos)[n]
    {
      hide Valid, IsShape, Abs, SetHeld, Pair;
      ghost var t, t0, t1 := Locks(), TokenOrNone(infos, c.n0), TokenOrNone(infos, c.n1);
      PairParts(t1, t0);
      UnholdIf(c.n1);
      UnholdIf(c.n0);
      SetHeldTwo(t, Pair(t1, ""), Pair("", t0), false);
    }
  }

  ghost function TokenOrNone(infos: Infos, n: Node?): string {
    if n == null || n !in infos then "" else infos[n].token
  }

  /** What a confirmation's release function captures. */
  datatype Claim = Claim(n0: Node?, n1: Node?) {
    ghost function Nodes(): set<Node> {
      (if n0 == null then {} else {n0}) + (if n1 == null then {} else {n1})
    }

    ghost function Tokens(infos: Infos): set<string> {
      Pair(TokenOrNone(infos, n0), TokenOrNone(infos, n1))
    }
  }
}
