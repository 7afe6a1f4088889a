/** Clients of one lock system object: they run any sequence of its operations and keep the release
    function of each successful confirmation until they run it, once. */
module LockClients {
  import opened ExpiryHeap
  import opened LockRuns
  import opened LockState
  import opened LockSystem
  import opened LockTable

  type Releases = map<nat, Claim>

  /** The pending releases are those of the outstanding confirmations: their nodes are held, under
      the tokens that the confirmations claimed. */
  ghost predicate Pending(releases: Releases, next: nat, sys: System, infos: Infos) {
    && releases.Keys == sys.claims.Keys && next == sys.next
    && forall id :: id in releases ==> Held(releases[id], infos) && releases[id].Tokens(infos) == sys.claims[id]
  }

  ghost predicate Held(c: Claim, infos: Infos) {
    && (forall n :: n in c.Nodes() ==> n in infos && infos[n].token != "" && infos[n].held)
    && (c.n0 != null ==> c.n1 != c.n0)
  }

  /** Holding a lock pins its node: pending releases survive everything but their own run. */
  lemma PendingKept(releases: Releases, next: nat, sys: System, was: Infos, sys': System, infos: Infos)
    requires Pending(releases, next, sys, was) && HeldKept(was, infos)
    requires sys'.claims == sys.claims && sys'.next == sys.next
    ensures Pending(releases, next, sys', infos)
  {
  }

  lemma PendingAdded(releases: Releases, next: nat, sys: System, was: Infos, sys': System, infos: Infos, c: Claim)
    requires Pending(releases, next, sys, was) && HeldKept(was, infos) && Held(c, infos) && next !in sys.claims
    requires sys'.claims == sys.claims[sys.next := c.Tokens(infos)] && sys'.next == sys.next + 1
    ensures Pending(releases[next := c], next + 1, sys', infos)
  {
    hide Held, HeldKept, Claim.Tokens, Claim.Nodes;
    forall id | id in releases
      ensures Held(releases[id], infos) && releases[id].Tokens(infos) == sys.claims[id]
    {
      HeldClaim(releases[id], was, infos);
    }
  }

  lemma HeldClaim(c: Claim, was: Infos, infos: Infos)
    requires Held(c, was) && HeldKept(was, infos)
    ensures Held(c, infos) && c.Tokens(infos) == c.Tokens(was)
  {
  }

  lemma TokenOfClaim(c: Claim, infos: Infos, n: Node)
    requires n in c.Nodes() && n in infos && infos[n].token != ""
    ensures infos[n].token in c.Tokens(infos)
  {
  }

  /** Claims with different tokens have different nodes. */
  lemma DifferentNodes(releases: Releases, next: nat, sys: System, infos: Infos, id: nat)
    requires Claimed(sys) && Pending(releases, next, sys, infos) && id in releases
    ensures forall i :: i in releases && i != id ==> releases[i].Nodes() !! releases[id].Nodes()
  {
    forall i, n | i in releases && i != id && n in releases[i].Nodes()
      ensures n !in releases[id].Nodes()
    {
      TokenOfClaim(releases[i], infos, n);
      assert infos[n].token !in sys.claims[id];
      if n in releases[id].Nodes() {
        TokenOfClaim(releases[id], infos, n);
      }
    }
  }

  lemma ClaimUntouched(c: Claim, was: Infos, infos: Infos)
    requires Held(c, was) && forall n :: n in c.Nodes() ==> n in infos && infos[n] == was[n]
    ensures Held(c, infos) && c.Tokens(infos) == c.Tokens(was)
  {
  }

  lemma PendingRemoved(releases: Releases, next: nat, sys: System, was: Infos, sys': System, infos: Infos, id: nat)
    requires Claimed(sys) && Pending(releases, next, sys, was) && id in releases
    requires forall n :: n in was && n !in releases[id].Nodes() ==> n in infos && infos[n] == was[n]
    requires sys'.claims == sys.claims - {id} && sys'.next == sys.next
    ensures Pending(releases - {id}, next, sys', infos)
  {
    DifferentNodes(releases, next, sys, was, id);
    forall i | i in releases && i != id
      ensures Held(releases[i], infos) && releases[i].Tokens(infos) == sys.claims[i]
    {
      ClaimUntouched(releases[i], was, infos);
    }
  }

  class Clients {
    const ls: MemLS
    var releases: Releases
    var next: nat
    /** The abstract system that the lock system and the pending releases stand for. */
    ghost var sys: System

    /** The object stands for the abstract system. */
    ghost predicate Linked()
      reads this, ls, ls.nodes, ls.byExpiry, ls.byExpiry.members
    {
      ls.Valid() && sys.locks == ls.Locks() && sys.gen == ls.gen && Pending(releases, next, sys, ls.infos)
    }

    ghost predicate Valid()
      reads this, ls, ls.nodes, ls.byExpiry, ls.byExpiry.members
    {
      Inv(sys) && Linked()
    }

    constructor (unixTime: nat)
      ensures Valid() && sys == Init(unixTime)
      ensures fresh(ls) && fresh(ls.nodes) && fresh(ls.byExpiry)
    {
      hide MemLS.Valid, MemLS.Locks;
      ls := new MemLS(unixTime);
      releases, next, sys := map[], 0, Init(unixTime);
    }

    method PerformCreate(now: int, details: LockDetails, ghost sys': System)
      requires Linked() && WellFormed(sys.locks) && sys' == Step(sys, Create(now, details))
      modifies this, ls, ls.nodes, ls.byExpiry
      ensures Linked() && sys == sys' && fresh(ls.nodes - old(ls.nodes))
    {
      hide Pending, MemLS.Valid, MemLS.Locks, Collect, Free, NewLock, HeldKept;
      ghost var infos := ls.infos;
      var r := ls.Create(now, details);
      PendingKept(releases, next, sys, infos, sys', ls.infos);
      sys := sys';
    }

    method PerformRefresh(now: int, token: string, duration: int, ghost sys': System)
      requires Linked() && WellFormed(sys.locks) && sys' == Step(sys, Refresh(now, token, duration))
      modifies this, ls, ls.nodes, ls.byExpiry
      ensures Linked() && sys == sys' && ls.nodes == old(ls.nodes)
    {
      hide Pending, MemLS.Valid, MemLS.Locks, Collect, Refreshed, HeldKept;
      ghost var infos := ls.infos;
      var r := ls.Refresh(now, token, duration);
      PendingKept(releases, next, sys, infos, sys', ls.infos);
      sys := sys';
    }

    method PerformUnlock(now: int, token: string, ghost sys': System)
      requires Linked() && WellFormed(sys.locks) && sys' == Step(sys, Unlock(now, token))
      modifies this, ls, ls.nodes, ls.byExpiry
      ensures Linked() && sys == sys' && ls.nodes == old(ls.nodes)
    {
      hide Pending, MemLS.Valid, MemLS.Locks, Collect, HeldKept;
      ghost var infos := ls.infos;
      var r := ls.Unlock(now, token);
      PendingKept(releases, next, sys, infos, sys', ls.infos);
      sys := sys';
    }

    method PerformConfirm(now: int, name0: string, name1: string, conditions: seq<Condition>, ghost sys': System)
      requires Linked() && WellFormed(sys.locks) && sys' == Step(sys, Confirm(now, name0, name1, conditions))
      requires sys.next !in sys.claims && next == sys.next
      modifies this, ls, ls.nodes, ls.byExpiry
      ensures Linked() && sys == sys' && ls.nodes == old(ls.nodes)
    {
      hide Pending, MemLS.Valid, MemLS.Locks, Collect, Claims, SetHeld, HeldKept;
      ghost var infos := ls.infos;
      var r := ls.Confirm(now, name0, name1, conditions);
      if r.Ok? {
        PendingAdded(releases, next, sys, infos, sys', ls.infos, r.value);
        releases := releases[next := r.value];
        next := next + 1;
      } else {
        PendingKept(releases, next, sys, infos, sys', ls.infos);
      }
      sys := sys';
    }

    method PerformRelease(id: nat, ghost sys': System)
      requires Linked() && id in releases && WellFormed(sys.locks) && sys' == Step(sys, Release(id)) && Claimed(sys)
      requires ls.Holding(releases[id]) && id in sys.claims && releases[id].Tokens(ls.infos) == sys.claims[id]
      modifies this, ls, ls.nodes, ls.byExpiry
      ensures Linked() && sys == sys' && ls.nodes == old(ls.nodes)
    {
      hide Pending, MemLS.Valid, MemLS.Locks, MemLS.Holding, SetHeld, Claimed;
      ghost var infos := ls.infos;
      ls.Release(releases[id]);
      PendingRemoved(releases, next, sys, infos, sys', ls.infos, id);
      releases := releases - {id};
      sys := sys';
    }

    /** Runs one operation; a release that has run, or was never handed out, cannot run. */
    method Perform(op: Op)
      requires Valid()
      modifies this, ls, ls.nodes, ls.byExpiry
      ensures Valid() && sys == Step(old(sys), op) && fresh(ls.nodes - old(ls.nodes))
    {
      StepKeeps(sys, op);
      PerformOn(op, Step(sys, op));
    }

    method PerformOn(op: Op, ghost sys': System)
      requires Linked() && WellFormed(sys.locks) && Claimed(sys) && sys' == Step(sys, op)
      modifies this, ls, ls.nodes, ls.byExpiry
      ensures Linked() && sys == sys' && fresh(ls.nodes - old(ls.nodes))
    {
      hide MemLS.Valid, MemLS.Locks, Free, Collect, SetHeld, Claims, NewLock, Refreshed;
      if op.Release? && op.id !in releases {
        return;
      }
      match op
      case Create(now, details) =>
        PerformCreate(now, details, sys');
      case Refresh(now, token, duration) =>
        PerformRefresh(now, token, duration, sys');
      case Unlock(now, token) =>
        PerformUnlock(now, token, sys');
      case Confirm(now, name0, name1, conditions) =>
        PerformConfirm(now, name0, name1, conditions, sys');
      case Release(id) =>
        PerformRelease(id, sys');
    }

    /** Any run of the lock system object is a run of the abstract system; in particular its two
        panics cannot be reached. */
    method Execute(ops: seq<Op>)
      requires Valid()
      modifies this, ls, ls.nodes, ls.byExpiry
      ensures Valid() && sys == Run(old(sys), ops) && fresh(ls.nodes - old(ls.nodes))
    {
      for i := 0 to |ops|
        invariant Valid() && sys == Run(old(sys), ops[..i]) && fresh(ls.nodes - old(ls.nodes))
      {
        Perform(ops[i]);
        assert ops[..i + 1][..i] == ops[..i];
      }
      assert ops[..|ops|] == ops;
    }
  }
}
