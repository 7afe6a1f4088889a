/** The representation invariant of the lock manager, on values: the name tree, the token index and
    the queue over a snapshot of the nodes' fields. */
module LockState {
  import opened ExpiryHeap
  import opened LockTable
  import opened Names

  /** What a node's fields hold, but for its queue position. */
  datatype Info = Info(details: LockDetails, token: string, refCount: int, expiry: int, held: bool)

  type Tree = map<string, Node>
  type Infos = map<Node, Info>

  // ---- counting the locked names at or below a name ----

  ghost function Under(s: set<string>, k: string): set<string> {
    set r | r in s && Rooted(r) && Within(k, r)
  }

  ghost function Count(s: set<string>, k: string): nat {
    |Under(s, k)|
  }

  lemma CountPlus(s: set<string>, name: string, k: string)
    requires Rooted(name) && name !in s
    ensures Count(s + {name}, k) == Count(s, k) + (if Within(k, name) then 1 else 0)
  {
    if Within(k, name) {
      assert Under(s + {name}, k) == Under(s, k) + {name};
    } else {
      assert Under(s + {name}, k) == Under(s, k);
    }
  }

  lemma CountPositive(s: set<string>, k: string)
    ensures Count(s, k) > 0 <==> exists r :: r in s && Rooted(r) && Within(k, r)
  {
    if Count(s, k) > 0 {
      var r :| r in Under(s, k);
    }
    if r :| r in s && Rooted(r) && Within(k, r) {
      assert r in Under(s, k);
    }
  }

  lemma CountSelf(s: set<string>, k: string)
    requires k in s && Rooted(k)
    ensures Count(s, k) > 0
  {
    CountPositive(s, k);
  }

  // ---- tokens ----

  /** strconv.FormatUint(n, 10). */
  function Decimal(n: nat): (s: string)
    ensures s != ""
  {
    (if n < 10 then "" else Decimal(n / 10)) + ["0123456789"[n % 10]]
  }

  lemma {:induction false} DecimalInjective(a: nat, b: nat)
    requires Decimal(a) == Decimal(b)
    ensures a == b
  {
    var x, y := Decimal(a), Decimal(b);
    assert x[|x| - 1] == y[|y| - 1] && x[..|x| - 1] == y[..|y| - 1];
    DigitInjective(a % 10, b % 10);
    if a >= 10 && b >= 10 {
      assert x[..|x| - 1] == Decimal(a / 10) && y[..|y| - 1] == Decimal(b / 10);
      DecimalInjective(a / 10, b / 10);
    }
  }

  lemma DigitInjective(i: nat, j: nat)
    requires i < 10 && j < 10 && "0123456789"[i] == "0123456789"[j]
    ensures i == j
  {
  }

  // ---- the parts of the invariant ----

  /** count gives the number of names in s at or below each name. */
  ghost predicate Counts(count: string -> nat, s: set<string>) {
    forall k {:trigger Count(s, k)} :: count(k) == Count(s, k)
  }

  /** The name tree: exactly the names with a locked name at or below them, each with their number. */
  ghost predicate IsTree(byName: Tree, infos: Infos, count: string -> nat) {
    && (forall k :: k in byName ==>
          Rooted(k) && byName[k] in infos && infos[byName[k]].details.root == k
          && infos[byName[k]].refCount == count(k) > 0)
    && (forall k :: Rooted(k) && count(k) > 0 ==> k in byName)
  }

  /** The nodes that carry a token are in the tree under their own names, which are the locked ones. */
  ghost predicate IsNamed(byName: Tree, infos: Infos, locked: set<string>) {
    && (forall n :: n in infos && infos[n].token != "" ==>
          infos[n].details.root in locked && infos[n].details.root in byName && byName[infos[n].details.root] == n)
    && (forall k :: k in locked ==>
          Rooted(k) && k in byName && byName[k] in infos && infos[byName[k]].token != ""
          && infos[byName[k]].details.root == k)
  }

  /** byToken is the index of the nodes that carry a token, and later tokens are unused. */
  ghost predicate IsIndex(byToken: Tree, infos: Infos, gen: nat) {
    && (forall n :: n in infos && infos[n].token != "" ==> infos[n].token in byToken && byToken[infos[n].token] == n)
    && (forall n :: n in infos && infos[n].token == "" ==> !infos[n].held)
    && (forall t :: t in byToken ==> byToken[t] in infos && infos[byToken[t]].token == t != "")
    && (forall i: nat :: i > gen ==> Decimal(i) !in byToken)
  }

  /** A lock waits in the queue exactly when it is not held and can expire. */
  predicate Waiting(i: Info) {
    i.token != "" && !i.held && i.details.duration >= 0
  }

  ghost predicate IsQueue(queue: set<Node>, infos: Infos) {
    queue <= infos.Keys && forall n :: n in infos ==> (n in queue <==> Waiting(infos[n]))
  }

  /** The queue is right except perhaps for n. */
  ghost predicate IsQueueBut(queue: set<Node>, infos: Infos, n: Node) {
    queue <= infos.Keys && forall m :: m in infos && m != n ==> (m in queue <==> Waiting(infos[m]))
  }

  /** Everything but the heap. */
  datatype Shape = Shape(byName: Tree, byToken: Tree, infos: Infos, gen: nat, count: string -> nat, locked: set<string>)

  ghost predicate IsShape(st: Shape) {
    && IsTree(st.byName, st.infos, st.count) && Counts(st.count, st.locked)
    && IsNamed(st.byName, st.infos, st.locked) && IsIndex(st.byToken, st.infos, st.gen)
  }

  /** The lock that a node with a token stands for. */
  function LockOf(i: Info): Lock {
    Lock(i.details, if i.details.duration >= 0 then i.expiry else 0, i.held)
  }

  /** The table of live locks that the token index represents. */
  ghost function Abs(byToken: Tree, infos: Infos): (t: Table) {
    map t | t in byToken && byToken[t] in infos :: LockOf(infos[byToken[t]])
  }

  // ---- walking the tree ----

  /** name0 is the next name of the walk, of which those at least bound long are done. */
  ghost predicate Next(name0: string, walk: set<string>, bound: nat) {
    name0 in walk && |name0| < bound && forall k :: k in walk && |k| < bound ==> |k| < |name0| || k == name0
  }

  /** A walk starts at name and goes from each name to the next longest. */
  ghost predicate Chain(walk: set<string>, name: string) {
    && Rooted(name) && Next(name, walk, |name| + 1)
    && forall k :: k in walk ==>
         Rooted(k) && |k| <= |name| && (k != "/" ==> Parent(k) in walk && Next(Parent(k), walk, |k|))
  }

  /** Along the walk, high counts one more than low; elsewhere they agree. */
  ghost predicate OneMore(low: string -> nat, high: string -> nat, walk: set<string>) {
    forall k :: high(k) == low(k) + (if k in walk then 1 else 0)
  }

  lemma WalkIsChain(name: string) returns (walk: set<string>)
    requires Rooted(name)
    ensures walk == (set k | k in WalkToRoot(name)) && Chain(walk, name)
  {
    walk := set k | k in WalkToRoot(name);
    forall k | k in walk
      ensures |k| < |name| || k == name
      ensures Rooted(k) && |k| <= |name| && (k != "/" ==> Next(Parent(k), walk, |k|))
    {
      WithinRooted(k, name);
      if k != "/" {
        WalkStep(k, name, walk);
      }
    }
  }

  lemma WalkStep(name0: string, name: string, walk: set<string>)
    requires Rooted(name) && Rooted(name0) && Within(name0, name) && name0 != "/"
    requires walk == set k | k in WalkToRoot(name)
    ensures Next(Parent(name0), walk, |name0|)
  {
    WithinStep(Parent(name0), name0);
    WithinTransitive(Parent(name0), name0, name);
    forall k | k in walk && |k| < |name0|
      ensures |k| < |Parent(name0)| || k == Parent(name0)
    {
      assert Within(k, name);
      WithinLinear(k, name0, name);
      if Within(name0, k) {
        WithinRooted(name0, k);
      } else {
        WithinStep(k, name0);
        WithinRooted(k, Parent(name0));
      }
    }
  }

  /** The counts for one more locked name differ along its walk only. */
  lemma WalkCounts(s: set<string>, name: string) returns (low: string -> nat, high: string -> nat, walk: set<string>)
    requires Rooted(name) && name !in s
    ensures Counts(low, s) && Counts(high, s + {name})
    ensures Chain(walk, name) && OneMore(low, high, walk)
  {
    low, high := k => Count(s, k), k => Count(s + {name}, k);
    walk := WalkIsChain(name);
    forall k
      ensures high(k) == low(k) + (if k in walk then 1 else 0)
    {
      CountPlus(s, name, k);
    }
  }

  /** Two counts of the same set are the same. */
  lemma SameCounts(a: string -> nat, b: string -> nat, s: set<string>)
    requires Counts(a, s) && Counts(b, s)
    ensures forall k :: a(k) == b(k)
  {
    forall k
      ensures a(k) == b(k)
    {
      assert a(k) == Count(s, k) == b(k);
    }
  }

  /** The tree while a walk is under way: the names of the walk that are at least bound long have
      their new count, all others their old one. */
  ghost predicate Walking(byName: Tree, infos: Infos, before: string -> nat, after: string -> nat,
                          walk: set<string>, bound: nat)
  {
    forall k :: k in byName ==>
      Rooted(k) && byName[k] in infos && infos[byName[k]].details.root == k
      && infos[byName[k]].refCount == if k in walk && |k| >= bound then after(k) else before(k)
  }

  /** A node's count after CreateNode or RemoveNode has visited it. */
  function Recounted(infos: Infos, n: Node, change: int): Infos
    requires n in infos
  {
    infos[n := infos[n].(refCount := infos[n].refCount + change)]
  }

  lemma Counted(byName: Tree, infos: Infos, before: string -> nat, after: string -> nat, walk: set<string>,
                bound: nat, name0: string, change: int)
    requires Next(name0, walk, bound) && name0 in byName && after(name0) == before(name0) + change
    requires Walking(byName, infos, before, after, walk, bound)
    ensures Walking(byName, Recounted(infos, byName[name0], change), before, after, walk, |name0|)
    ensures Recounted(infos, byName[name0], change)[byName[name0]].refCount == after(name0)
  {
  }

  // ---- the walk in CreateNode ----

  /** The tree has gained the names of the walk that are at least bound long. */
  ghost predicate GrownNames(byName: Tree, was: Tree, walk: set<string>, bound: nat) {
    && (forall k :: k in byName <==> k in was || (k in walk && |k| >= bound))
    && (forall k :: k in was ==> byName[k] == was[k])
  }

  /** The nodes there were have changed nothing but counts; the others carry no lock. */
  ghost predicate GrownInfos(infos: Infos, was: Infos) {
    && (forall n :: n in was ==> n in infos && infos[n] == was[n].(refCount := infos[n].refCount))
    && (forall n :: n in infos && n !in was ==> infos[n].token == "" && !infos[n].held)
  }

  /** The state of the walk in CreateNode. */
  ghost predicate Creating(byName: Tree, infos: Infos, was: Tree, wasInfos: Infos, before: string -> nat,
                           after: string -> nat, walk: set<string>, bound: nat)
  {
    Walking(byName, infos, before, after, walk, bound) && GrownNames(byName, was, walk, bound)
      && GrownInfos(infos, wasInfos)
  }

  /** A node that no lock refers to yet. */
  function NewInfo(name: string): Info {
    Info(LockDetails(name, 0, "", false), "", 0, 0, false)
  }

  lemma CreateBegins(byName: Tree, infos: Infos, before: string -> nat, after: string -> nat, walk: set<string>,
                     name: string)
    requires IsTree(byName, infos, before) && Chain(walk, name) && OneMore(before, after, walk)
    ensures Creating(byName, infos, byName, infos, before, after, walk, |name| + 1)
    ensures FreshAbove(byName, before, after, walk)
  {
  }

  /** Every name of the walk counts one more lock, starting from none if it is new. */
  ghost predicate FreshAbove(was: Tree, before: string -> nat, after: string -> nat, walk: set<string>) {
    forall k :: k in walk ==> after(k) == before(k) + 1 && (k !in was ==> before(k) == 0)
  }

  lemma Reached(byName: Tree, was: Tree, walk: set<string>, bound: nat, name0: string, n: Node)
    requires Next(name0, walk, bound) && GrownNames(byName, was, walk, bound)
    requires name0 in byName ==> byName[name0] == n
    ensures GrownNames(byName[name0 := n], was, walk, |name0|)
  {
  }

  lemma Joined(byName: Tree, infos: Infos, before: string -> nat, after: string -> nat, walk: set<string>,
               bound: nat, name0: string, n: Node)
    requires Next(name0, walk, bound) && Rooted(name0) && name0 !in byName && n !in infos && before(name0) == 0
    requires Walking(byName, infos, before, after, walk, bound)
    ensures Walking(byName[name0 := n], infos[n := NewInfo(name0)], before, after, walk, bound)
  {
  }

  lemma GrowthKept(infos: Infos, was: Infos, n: Node)
    requires GrownInfos(infos, was) && n in infos
    ensures GrownInfos(Recounted(infos, n, 1), was)
  {
  }

  /** One visit of the walk in CreateNode. */
  lemma Retained(byName: Tree, infos: Infos, was: Tree, wasInfos: Infos, before: string -> nat,
                 after: string -> nat, walk: set<string>, bound: nat, name0: string, n: Node)
    requires Rooted(name0) && Next(name0, walk, bound)
    requires Creating(byName, infos, was, wasInfos, before, after, walk, bound)
    requires if name0 in byName then n == byName[name0] else n !in infos && n !in wasInfos && before(name0) == 0
    requires after(name0) == before(name0) + 1
    ensures var infos1 := if name0 in byName then infos else infos[n := NewInfo(name0)];
      n in infos1 && Creating(byName[name0 := n], Recounted(infos1, n, 1), was, wasInfos, before, after, walk, |name0|)
  {
    var infos1 := if name0 in byName then infos else infos[n := NewInfo(name0)];
    if name0 in byName {
      assert byName[name0 := n] == byName;
    } else {
      Joined(byName, infos, before, after, walk, bound, name0, n);
    }
    Counted(byName[name0 := n], infos1, before, after, walk, bound, name0, 1);
    Reached(byName, was, walk, bound, name0, n);
    GrowthKept(infos1, wasInfos, n);
  }

  /** At the end of the walk in CreateNode, the tree is the one for one more locked name. */
  lemma CreateEnds(byName: Tree, infos: Infos, was: Tree, wasInfos: Infos, before: string -> nat,
                   after: string -> nat, walk: set<string>, name: string)
    requires Chain(walk, name) && OneMore(before, after, walk) && IsTree(was, wasInfos, before)
    requires Creating(byName, infos, was, wasInfos, before, after, walk, 1)
    ensures IsTree(byName, infos, after)
  {
    assert forall k :: k in walk ==> |k| >= 1;
  }

  lemma InTree(byName: Tree, infos: Infos, count: string -> nat, name: string)
    requires IsTree(byName, infos, count) && name in byName
    ensures byName[name] in infos
  {
  }

  // ---- the walk in RemoveNode ----

  /** The tree has lost the names of the walk, at least bound long, that no longer count. */
  ghost predicate ShrunkNames(byName: Tree, was: Tree, after: string -> nat, walk: set<string>, bound: nat) {
    && (forall k :: k in byName <==> k in was && !(k in walk && |k| >= bound && after(k) == 0))
    && (forall k :: k in byName ==> byName[k] == was[k])
  }

  /** The nodes have changed nothing but counts. */
  ghost predicate SameButCounts(infos: Infos, was: Infos) {
    infos.Keys == was.Keys && forall n :: n in infos ==> infos[n] == was[n].(refCount := infos[n].refCount)
  }

  /** The state of the walk in RemoveNode. */
  ghost predicate Removing(byName: Tree, infos: Infos, was: Tree, wasInfos: Infos, before: string -> nat,
                           after: string -> nat, walk: set<string>, bound: nat)
  {
    && Walking(byName, infos, before, after, walk, bound) && ShrunkNames(byName, was, after, walk, bound)
    && SameButCounts(infos, wasInfos)
  }

  lemma RemoveBegins(byName: Tree, infos: Infos, before: string -> nat, after: string -> nat, walk: set<string>,
                     name: string)
    requires IsTree(byName, infos, before) && Chain(walk, name) && OneMore(after, before, walk)
    ensures Removing(byName, infos, byName, infos, before, after, walk, |name| + 1)
    ensures forall k :: k in walk ==> k in byName
  {
  }

  lemma Left(byName: Tree, was: Tree, after: string -> nat, walk: set<string>, bound: nat, name0: string)
    requires Next(name0, walk, bound) && ShrunkNames(byName, was, after, walk, bound)
    ensures ShrunkNames(if after(name0) == 0 then byName - {name0} else byName, was, after, walk, |name0|)
  {
  }

  lemma CountsOnly(infos: Infos, was: Infos, n: Node, change: int)
    requires SameButCounts(infos, was) && n in infos
    ensures SameButCounts(Recounted(infos, n, change), was)
  {
  }

  /** One visit of the walk in RemoveNode. */
  lemma Released(byName: Tree, infos: Infos, was: Tree, wasInfos: Infos, before: string -> nat,
                 after: string -> nat, walk: set<string>, bound: nat, name0: string)
    requires Next(name0, walk, bound) && Removing(byName, infos, was, wasInfos, before, after, walk, bound)
    requires name0 in byName && after(name0) == before(name0) - 1
    ensures var infos' := Recounted(infos, byName[name0], -1);
      var byName' := if infos'[byName[name0]].refCount == 0 then byName - {name0} else byName;
      Removing(byName', infos', was, wasInfos, before, after, walk, |name0|)
  {
    Counted(byName, infos, before, after, walk, bound, name0, -1);
    var infos' := Recounted(infos, byName[name0], -1);
    var byName' := if infos'[byName[name0]].refCount == 0 then byName - {name0} else byName;
    assert Walking(byName', infos', before, after, walk, |name0|);
    Left(byName, was, after, walk, bound, name0);
    CountsOnly(infos, wasInfos, byName[name0], -1);
  }

  /** A name of the walk is in the tree until RemoveNode gets to it. */
  lemma StillThere(byName: Tree, was: Tree, after: string -> nat, walk: set<string>, bound: nat, name0: string)
    requires Next(name0, walk, bound) && ShrunkNames(byName, was, after, walk, bound) && name0 in was
    ensures name0 in byName
  {
  }

  /** At the end of the walk in RemoveNode, the tree is the one for one locked name less. */
  lemma RemoveEnds(byName: Tree, infos: Infos, was: Tree, wasInfos: Infos, before: string -> nat,
                   after: string -> nat, walk: set<string>, name: string)
    requires Chain(walk, name) && OneMore(after, before, walk) && IsTree(was, wasInfos, before)
    requires Removing(byName, infos, was, wasInfos, before, after, walk, 1)
    ensures IsTree(byName, infos, after)
  {
    assert forall k :: k in walk ==> |k| >= 1;
  }

  // ---- removing a lock ----

  function WithToken(infos: Infos, n: Node, token: string): Infos
    requires n in infos
  {
    infos[n := infos[n].(token := token)]
  }

  lemma NamedWithout(byName: Tree, infos: Infos, locked: set<string>, n: Node)
    requires IsNamed(byName, infos, locked) && n in infos && infos[n].token != ""
    ensures infos[n].details.root in locked && Rooted(infos[n].details.root)
    ensures IsNamed(byName, WithToken(infos, n, ""), locked - {infos[n].details.root})
  {
  }

  lemma IndexWithout(byToken: Tree, infos: Infos, gen: nat, n: Node)
    requires IsIndex(byToken, infos, gen) && n in infos && infos[n].token != "" && !infos[n].held
    ensures IsIndex(byToken - {infos[n].token}, WithToken(infos, n, ""), gen)
  {
  }

  lemma TableWithout(byToken: Tree, infos: Infos, gen: nat, n: Node)
    requires IsIndex(byToken, infos, gen) && n in infos && infos[n].token != ""
    ensures Abs(byToken - {infos[n].token}, WithToken(infos, n, "")) == Abs(byToken, infos) - {infos[n].token}
  {
    var t, t' := Abs(byToken, infos) - {infos[n].token}, Abs(byToken - {infos[n].token}, WithToken(infos, n, ""));
    forall k
      ensures k in t <==> k in t'
      ensures k in t ==> t[k] == t'[k]
    {
    }
  }

  lemma Forgotten(byName: Tree, byToken: Tree, infos: Infos, gen: nat, locked: set<string>, n: Node)
    requires IsNamed(byName, infos, locked) && IsIndex(byToken, infos, gen)
    requires n in infos && infos[n].token != "" && !infos[n].held
    ensures infos[n].details.root in locked && Rooted(infos[n].details.root)
    ensures IsNamed(byName, WithToken(infos, n, ""), locked - {infos[n].details.root})
    ensures IsIndex(byToken - {infos[n].token}, WithToken(infos, n, ""), gen)
    ensures Abs(byToken - {infos[n].token}, WithToken(infos, n, "")) == Abs(byToken, infos) - {infos[n].token}
  {
    hide IsNamed, IsIndex, Abs, WithToken;
    NamedWithout(byName, infos, locked, n);
    IndexWithout(byToken, infos, gen, n);
    TableWithout(byToken, infos, gen, n);
  }

  /** The tree depends on roots and counts only. */
  lemma TreeKept(byName: Tree, infos: Infos, infos': Infos, count: string -> nat)
    requires IsTree(byName, infos, count)
    requires forall n :: n in infos ==>
      n in infos' && infos'[n].details.root == infos[n].details.root && infos'[n].refCount == infos[n].refCount
    ensures IsTree(byName, infos', count)
  {
  }

  /** The index, the queue and the table do not depend on counts. */
  lemma CountsDoNotMatter(byToken: Tree, infos: Infos, was: Infos, gen: nat, queue: set<Node>, n: Node)
    requires SameButCounts(infos, was) && IsIndex(byToken, was, gen) && IsQueueBut(queue, was, n)
    ensures IsIndex(byToken, infos, gen) && IsQueueBut(queue, infos, n) && Abs(byToken, infos) == Abs(byToken, was)
  {
  }

  /** The locked nodes stay named when the tree drops names that no lock needs. */
  lemma NamedAfterRemoval(byName: Tree, infos: Infos, was: Tree, wasInfos: Infos, count: string -> nat,
                          locked: set<string>)
    requires SameButCounts(infos, wasInfos) && IsNamed(was, wasInfos, locked) && IsTree(byName, infos, count)
    requires (forall k :: k in byName ==> k in was && byName[k] == was[k]) && (forall k :: k in locked ==> count(k) > 0)
    ensures IsNamed(byName, infos, locked)
  {
  }

  lemma LockedCount(count: string -> nat, locked: set<string>)
    requires Counts(count, locked) && forall k :: k in locked ==> Rooted(k)
    ensures forall k :: k in locked ==> count(k) > 0
  {
    forall k | k in locked
      ensures count(k) > 0
    {
      CountSelf(locked, k);
    }
  }

  /** The counts without the lock of n, and the walk along which they differ. */
  lemma WithdrawalBegins(st: Shape, n: Node) returns (count': string -> nat, walk: set<string>)
    requires IsShape(st) && n in st.infos && st.infos[n].token != "" && !st.infos[n].held
    ensures Counts(count', st.locked - {st.infos[n].details.root})
    ensures Chain(walk, st.infos[n].details.root) && OneMore(count', st.count, walk)
    ensures IsTree(st.byName, WithToken(st.infos, n, ""), st.count)
  {
    var name := st.infos[n].details.root;
    var s := st.locked - {name};
    assert st.locked == s + {name};
    var high;
    count', high, walk := WalkCounts(s, name);
    SameCounts(high, st.count, st.locked);
    TreeKept(st.byName, st.infos, WithToken(st.infos, n, ""), st.count);
  }

  /** What RemoveNode does between taking the token off and leaving the queue. */
  lemma Withdrawal(st: Shape, queue: set<Node>, n: Node, st': Shape)
    requires IsShape(st) && IsQueue(queue, st.infos)
    requires n in st.infos && st.infos[n].token != "" && !st.infos[n].held
    requires SameButCounts(st'.infos, WithToken(st.infos, n, "")) && IsTree(st'.byName, st'.infos, st'.count)
    requires st'.locked == st.locked - {st.infos[n].details.root} && Counts(st'.count, st'.locked)
    requires forall k :: k in st'.byName ==> k in st.byName && st'.byName[k] == st.byName[k]
    requires st'.byToken == st.byToken - {st.infos[n].token} && st'.gen == st.gen
    ensures IsShape(st') && IsQueueBut(queue, st'.infos, n) && n in st'.infos && !Waiting(st'.infos[n])
    ensures Abs(st'.byToken, st'.infos) == Abs(st.byToken, st.infos) - {st.infos[n].token}
  {
    hide IsTree, IsIndex, Abs;
    Forgotten(st.byName, st.byToken, st.infos, st.gen, st.locked, n);
    LockedCount(st'.count, st'.locked);
    NamedAfterRemoval(st'.byName, st'.infos, st.byName, WithToken(st.infos, n, ""), st'.count, st'.locked);
    CountsDoNotMatter(st'.byToken, st'.infos, WithToken(st.infos, n, ""), st.gen, queue, n);
  }

  // ---- expiry ----

  /** A waiting lock whose time has come is one that Collect drops. */
  lemma HeadExpired(st: Shape, queue: set<Node>, n: Node, now: int)
    requires IsShape(st) && IsQueue(queue, st.infos) && n in queue && st.infos[n].expiry <= now
    ensures st.infos[n].token != "" && !st.infos[n].held
    ensures var t := Abs(st.byToken, st.infos); Collect(t - {st.infos[n].token}, now) == Collect(t, now)
  {
    var t := Abs(st.byToken, st.infos);
    assert Expired(t[st.infos[n].token], now);
  }

  lemma NoneExpired(st: Shape, queue: set<Node>, now: int)
    requires IsShape(st) && IsQueue(queue, st.infos) && forall n :: n in queue ==> now < st.infos[n].expiry
    ensures Collect(Abs(st.byToken, st.infos), now) == Abs(st.byToken, st.infos)
  {
    var t := Abs(st.byToken, st.infos);
    forall k | k in t
      ensures !Expired(t[k], now)
    {
      assert st.byToken[k] in queue <==> Waiting(st.infos[st.byToken[k]]);
    }
  }

  // ---- looking up, holding and releasing ----

  /** The node that the index gives for a token carries the lock of the table. */
  lemma Indexed(st: Shape, token: string)
    requires IsShape(st)
    ensures token in st.byToken <==> token in Abs(st.byToken, st.infos)
    ensures token in st.byToken ==>
      var n := st.byToken[token];
      n in st.infos && st.infos[n].token == token != "" && Rooted(st.infos[n].details.root)
      && Abs(st.byToken, st.infos)[token] == LockOf(st.infos[n])
  {
  }

  lemma TokenOf(st: Shape, n: Node)
    requires IsShape(st) && n in st.infos && st.infos[n].token != ""
    ensures st.infos[n].token in st.byToken && st.byToken[st.infos[n].token] == n
    ensures Abs(st.byToken, st.infos)[st.infos[n].token] == LockOf(st.infos[n])
  {
  }

  lemma TableWellFormed(st: Shape)
    requires IsShape(st)
    ensures WellFormed(Abs(st.byToken, st.infos)) && Abs(st.byToken, st.infos).Keys == st.byToken.Keys
  {
  }

  /** The fields of a lock's node change, but not its name, its token or its count. */
  ghost predicate SameLock(i: Info, j: Info) {
    i.token == j.token != "" && i.refCount == j.refCount && i.details.root == j.details.root
  }

  /** The fields of a node when a lock is written into it, or renewed. */
  function Written(i: Info, token: string, details: LockDetails, now: int): Info {
    i.(token := token, details := details, expiry := if details.duration >= 0 then now + details.duration else i.expiry)
  }

  lemma NamedKept(byName: Tree, infos: Infos, locked: set<string>, n: Node, i: Info)
    requires IsNamed(byName, infos, locked) && n in infos && SameLock(i, infos[n])
    ensures IsNamed(byName, infos[n := i], locked)
  {
  }

  lemma IndexKept(byToken: Tree, infos: Infos, gen: nat, n: Node, i: Info)
    requires IsIndex(byToken, infos, gen) && n in infos && SameLock(i, infos[n])
    ensures IsIndex(byToken, infos[n := i], gen)
    ensures i.token in Abs(byToken, infos)
    ensures Abs(byToken, infos[n := i]) == Abs(byToken, infos)[i.token := LockOf(i)]
  {
  }

  lemma ShapeKept(st: Shape, queue: set<Node>, n: Node, i: Info)
    requires IsShape(st) && n in st.infos && SameLock(i, st.infos[n]) && IsQueueBut(queue, st.infos, n)
    ensures IsShape(st.(infos := st.infos[n := i])) && IsQueueBut(queue, st.infos[n := i], n)
    ensures i.token in Abs(st.byToken, st.infos)
    ensures Abs(st.byToken, st.infos[n := i]) == Abs(st.byToken, st.infos)[i.token := LockOf(i)]
  {
    hide IsTree, IsNamed, IsIndex, Abs;
    TreeKept(st.byName, st.infos, st.infos[n := i], st.count);
    NamedKept(st.byName, st.infos, st.locked, n, i);
    IndexKept(st.byToken, st.infos, st.gen, n, i);
  }

  // ---- creating ----

  /** The check that CanCreate makes on one name of the walk. */
  predicate Blocks(byName: Tree, infos: Infos, name0: string, first: bool, zeroDepth: bool)
    requires forall k :: k in byName ==> byName[k] in infos
  {
    name0 in byName &&
    if first then infos[byName[name0]].token != "" || !zeroDepth
    else infos[byName[name0]].token != "" && !infos[byName[name0]].details.zeroDepth
  }

  /** A name that blocks the walk has a conflicting lock at, above or below it. */
  lemma BlockedIsNotFree(st: Shape, name: string, zeroDepth: bool, k: string)
    requires IsShape(st) && Rooted(name) && Within(k, name)
    requires Blocks(st.byName, st.infos, k, k == name, zeroDepth)
    ensures WellFormed(Abs(st.byToken, st.infos))
    ensures !Free(Abs(st.byToken, st.infos), LockDetails(name, 0, "", zeroDepth))
  {
    TableWellFormed(st);
    var d := LockDetails(name, 0, "", zeroDepth);
    if st.infos[st.byName[k]].token != "" {
      LockInTable(st, k);
      assert Conflict(d, Abs(st.byToken, st.infos)[st.infos[st.byName[k]].token].details);
    } else {
      var r := LockedBelow(st, k);
      LockInTable(st, r);
      assert Conflict(d, Abs(st.byToken, st.infos)[st.infos[st.byName[r]].token].details);
    }
  }

  lemma LockInTable(st: Shape, k: string)
    requires IsShape(st) && k in st.byName && st.infos[st.byName[k]].token != ""
    ensures st.infos[st.byName[k]].token in Abs(st.byToken, st.infos)
    ensures Abs(st.byToken, st.infos)[st.infos[st.byName[k]].token].details == st.infos[st.byName[k]].details
    ensures st.infos[st.byName[k]].details.root == k && Rooted(k)
  {
  }

  lemma LockedBelow(st: Shape, k: string) returns (r: string)
    requires IsShape(st) && k in st.byName
    ensures Rooted(r) && Within(k, r) && r in st.byName && st.infos[st.byName[r]].token != ""
  {
    assert Count(st.locked, k) == st.count(k) > 0;
    CountPositive(st.locked, k);
    r :| r in st.locked && Rooted(r) && Within(k, r);
  }

  /** When no name of the walk blocks, no live lock conflicts. */
  lemma UnblockedIsFree(st: Shape, name: string, zeroDepth: bool)
    requires IsShape(st) && Rooted(name)
    requires forall k :: Within(k, name) ==> !Blocks(st.byName, st.infos, k, k == name, zeroDepth)
    ensures WellFormed(Abs(st.byToken, st.infos))
    ensures Free(Abs(st.byToken, st.infos), LockDetails(name, 0, "", zeroDepth))
  {
    TableWellFormed(st);
    var t, d := Abs(st.byToken, st.infos), LockDetails(name, 0, "", zeroDepth);
    forall token | token in t
      ensures !Conflict(d, t[token].details)
    {
      Unblocked(st, name, zeroDepth, token);
    }
  }

  lemma Unblocked(st: Shape, name: string, zeroDepth: bool, token: string)
    requires IsShape(st) && Rooted(name) && token in Abs(st.byToken, st.infos)
    requires forall k :: Within(k, name) ==> !Blocks(st.byName, st.infos, k, k == name, zeroDepth)
    ensures Rooted(Abs(st.byToken, st.infos)[token].details.root)
    ensures !Conflict(LockDetails(name, 0, "", zeroDepth), Abs(st.byToken, st.infos)[token].details)
  {
    var n := st.byToken[token];
    var r := st.infos[n].details.root;
    assert st.byName[r] == n && r in st.locked && Rooted(r);
    WalkBegins(name);
    if Within(name, r) {
      CountPositive(st.locked, name);
      assert Count(st.locked, name) == st.count(name);
      assert name in st.byName;
    }
    if Within(r, name) {
      assert !Blocks(st.byName, st.infos, r, r == name, zeroDepth);
    }
  }

  lemma WalkBegins(name: string)
    requires Rooted(name)
    ensures Within(name, name)
  {
  }

  /** A table that is free for a lock has no lock on its root. */
  lemma FreeRootNotLocked(st: Shape, details: LockDetails)
    requires IsShape(st) && Rooted(details.root) && WellFormed(Abs(st.byToken, st.infos))
    requires Free(Abs(st.byToken, st.infos), details)
    ensures details.root !in st.locked
  {
    if details.root in st.locked {
      LockInTable(st, details.root);
    }
  }

  /** No name of the walk from name down to those at least bound long blocks. */
  ghost predicate Clear(byName: Tree, infos: Infos, name: string, zeroDepth: bool, name0: string)
    requires Rooted(name) && Rooted(name0) && forall k :: k in byName ==> byName[k] in infos
  {
    forall k :: Within(k, name) && !Within(k, name0) ==> !Blocks(byName, infos, k, k == name, zeroDepth)
  }

  lemma ClearStep(byName: Tree, infos: Infos, name: string, zeroDepth: bool, name0: string)
    requires Rooted(name) && Rooted(name0) && name0 != "/" && forall k :: k in byName ==> byName[k] in infos
    requires Clear(byName, infos, name, zeroDepth, name0) && !Blocks(byName, infos, name0, name0 == name, zeroDepth)
    ensures Clear(byName, infos, name, zeroDepth, Parent(name0))
  {
    forall k | Within(k, name) && !Within(k, Parent(name0))
      ensures !Blocks(byName, infos, k, k == name, zeroDepth)
    {
      WithinStep(k, name0);
    }
  }

  lemma ClearAll(st: Shape, name: string, zeroDepth: bool)
    requires IsShape(st) && Rooted(name) && Clear(st.byName, st.infos, name, zeroDepth, "/")
    requires !Blocks(st.byName, st.infos, "/", "/" == name, zeroDepth)
    ensures WellFormed(Abs(st.byToken, st.infos))
    ensures Free(Abs(st.byToken, st.infos), LockDetails(name, 0, "", zeroDepth))
  {
    forall k | Within(k, name)
      ensures !Blocks(st.byName, st.infos, k, k == name, zeroDepth)
    {
      assert Within(k, "/") ==> k == "/";
    }
    UnblockedIsFree(st, name, zeroDepth);
  }

  /** n, a node of the tree without a lock, gets a token and the details of a lock. */
  lemma NamedAdded(byName: Tree, infos: Infos, locked: set<string>, byName': Tree, infos': Infos, n: Node, i: Info)
    requires IsNamed(byName, infos, locked) && GrownInfos(infos', infos)
    requires forall k :: k in byName ==> k in byName' && byName'[k] == byName[k]
    requires Rooted(i.details.root) && i.details.root in byName' && n == byName'[i.details.root] && n in infos'
    requires i.token != "" && i.details.root !in locked && infos'[n].token == ""
    ensures IsNamed(byName', infos'[n := i], locked + {i.details.root})
  {
  }

  lemma IndexAdded(byToken: Tree, infos: Infos, gen: nat, infos': Infos, n: Node, i: Info)
    requires IsIndex(byToken, infos, gen) && GrownInfos(infos', infos) && n in infos' && infos'[n].token == ""
    requires i.token == Decimal(gen + 1) && !i.held
    ensures IsIndex(byToken[i.token := n], infos'[n := i], gen + 1)
  {
    forall j: nat | j > gen + 1
      ensures Decimal(j) != i.token
    {
      if Decimal(j) == i.token {
        DecimalInjective(j, gen + 1);
      }
    }
  }

  lemma LocksAdded(byToken: Tree, infos: Infos, gen: nat, infos': Infos, n: Node, i: Info)
    requires IsIndex(byToken, infos, gen) && GrownInfos(infos', infos) && n in infos' && infos'[n].token == ""
    requires i.token == Decimal(gen + 1)
    ensures i.token !in Abs(byToken, infos)
    ensures Abs(byToken[i.token := n], infos'[n := i]) == Abs(byToken, infos)[i.token := LockOf(i)]
  {
    hide Decimal;
  }

  lemma QueueAdded(queue: set<Node>, infos: Infos, infos': Infos, n: Node, i: Info)
    requires IsQueue(queue, infos) && GrownInfos(infos', infos) && n in infos' && infos'[n].token == ""
    ensures IsQueueBut(queue, infos'[n := i], n) && n !in queue
  {
  }

  /** A name that is not locked has a node without a token. */
  lemma NotLocked(st: Shape, byName': Tree, infos': Infos, count': string -> nat, k: string)
    requires IsShape(st) && GrownInfos(infos', st.infos) && IsTree(byName', infos', count') && k in byName'
    requires k !in st.locked
    ensures byName'[k] in infos' && infos'[byName'[k]].token == "" && !infos'[byName'[k]].held
    ensures infos'[byName'[k]].details.root == k
  {
  }

  lemma LockAdded(st: Shape, queue: set<Node>, infos': Infos, n: Node, i: Info, st': Shape)
    requires IsShape(st) && IsQueue(queue, st.infos) && i.details.root !in st.locked
    requires IsTree(st'.byName, infos', st'.count) && Counts(st'.count, st'.locked)
    requires GrownInfos(infos', st.infos)
    requires forall k :: k in st.byName ==> k in st'.byName && st'.byName[k] == st.byName[k]
    requires Rooted(i.details.root) && i.details.root in st'.byName && n == st'.byName[i.details.root] && n in infos'
    requires i.token == Decimal(st.gen + 1) && !i.held && i.refCount == infos'[n].refCount
    requires st'.byToken == st.byToken[i.token := n] && st'.infos == infos'[n := i]
    requires st'.gen == st.gen + 1 && st'.locked == st.locked + {i.details.root}
    ensures IsShape(st') && IsQueueBut(queue, st'.infos, n) && n !in queue && i.token !in Abs(st.byToken, st.infos)
    ensures Abs(st'.byToken, st'.infos) == Abs(st.byToken, st.infos)[i.token := LockOf(i)]
  {
    hide IsNamed, IsQueue, IsQueueBut, Abs, IsTree, IsIndex, Counts, GrownInfos, Decimal;
    NotLocked(st, st'.byName, infos', st'.count, i.details.root);
    TreeKept(st'.byName, infos', st'.infos, st'.count);
    NamedAdded(st.byName, st.infos, st.locked, st'.byName, infos', n, i);
    IndexAdded(st.byToken, st.infos, st.gen, infos', n, i);
    LocksAdded(st.byToken, st.infos, st.gen, infos', n, i);
    QueueAdded(queue, st.infos, infos', n, i);
  }

  /** The walk of CreateNode from a state in order. */
  lemma AdmissionBegins(st: Shape, name: string) returns (after: string -> nat, walk: set<string>)
    requires IsShape(st) && Rooted(name) && name !in st.locked
    ensures Counts(after, st.locked + {name}) && Chain(walk, name) && OneMore(st.count, after, walk)
    ensures Creating(st.byName, st.infos, st.byName, st.infos, st.count, after, walk, |name| + 1)
    ensures name in walk && FreshAbove(st.byName, st.count, after, walk) && IsTree(st.byName, st.infos, st.count)
  {
    var low;
    low, after, walk := WalkCounts(st.locked, name);
    SameCounts(low, st.count, st.locked);
    CreateBegins(st.byName, st.infos, st.count, after, walk, name);
  }

  // ---- what holding a lock guarantees about its node ----

  /** Nodes that were held still are, under the same tokens. */
  ghost predicate HeldKept(was: Infos, infos: Infos) {
    forall n :: n in was && was[n].held ==> n in infos && infos[n].held && infos[n].token == was[n].token
  }

  lemma HeldKeptTransitive(a: Infos, b: Infos, c: Infos)
    requires HeldKept(a, b) && HeldKept(b, c)
    ensures HeldKept(a, c)
  {
  }

  lemma HeldKeptByRemoval(infos: Infos, was: Infos, n: Node)
    requires n in was && !was[n].held && SameButCounts(infos, WithToken(was, n, ""))
    ensures HeldKept(was, infos)
  {
  }

  lemma HeldKeptByAddition(infos: Infos, was: Infos, n: Node, i: Info)
    requires GrownInfos(infos, was) && n in infos && !infos[n].held
    ensures HeldKept(was, infos[n := i])
  {
  }
}
