/** Whole runs of the lock system: any interleaving of its operations by clients that run each
    release function at most once. */
module LockRuns {
  import opened ExpiryHeap
  import opened LockState
  import opened LockTable
  import opened Names

  datatype Op =
    | Create(now: int, details: LockDetails)
    | Refresh(now: int, token: string, duration: int)
    | Unlock(now: int, token: string)
    | Confirm(now: int, name0: string, name1: string, conditions: seq<Condition>)
    | Release(id: nat)

  /** The live locks, the token generator, and the tokens of each confirmation that has not been
      released. */
  datatype System = System(locks: Table, gen: nat, claims: map<nat, set<string>>, next: nat)

  // ---- one step ----

  ghost function Step(s: System, op: Op): (s': System)
    requires WellFormed(s.locks)
    ensures WellFormed(s'.locks)
  {
    match op
    case Create(now, details) =>
      var t, d := Collect(s.locks, now), details.(root := SlashClean(details.root));
      if Free(t, d) then s.(locks := t[Decimal(s.gen + 1) := NewLock(d, now)], gen := s.gen + 1)
      else s.(locks := t)
    case Refresh(now, token, duration) =>
      var t := Collect(s.locks, now);
      if token in t && !t[token].held then s.(locks := t[token := Refreshed(t[token], now, duration)])
      else s.(locks := t)
    case Unlock(now, token) =>
      var t := Collect(s.locks, now);
      if token in t && !t[token].held then s.(locks := t - {token}) else s.(locks := t)
    case Confirm(now, name0, name1, conditions) =>
      var t := Collect(s.locks, now);
      var claims := Claims(t, name0, name1, conditions);
      if claims.Err? then s.(locks := t)
      else s.(locks := SetHeld(t, claims.value, true), claims := s.claims[s.next := claims.value], next := s.next + 1)
    case Release(id) =>
      if id in s.claims then s.(locks := SetHeld(s.locks, s.claims[id], false), claims := s.claims - {id})
      else s
  }

  ghost function Run(s: System, ops: seq<Op>): (s': System)
    requires WellFormed(s.locks)
    ensures WellFormed(s'.locks)
    decreases |ops|
  {
    if ops == [] then s else Step(Run(s, ops[..|ops| - 1]), ops[|ops| - 1])
  }

  function Init(unixTime: nat): System {
    System(map[], unixTime, map[], 0)
  }

  // ---- the invariant of all runs ----

  /** No two live locks conflict. */
  ghost predicate Disjoint(t: Table)
    requires WellFormed(t)
  {
    forall a, b :: a in t && b in t && a != b ==> !Conflict(t[a].details, t[b].details)
  }

  /** Outstanding confirmations hold live locks, no two the same, and together all that are held. */
  ghost predicate Claimed(s: System) {
    && (forall id :: id in s.claims ==> id < s.next)
    && (forall id, k :: id in s.claims && k in s.claims[id] ==> k in s.locks && s.locks[k].held)
    && (forall i, j :: i in s.claims && j in s.claims && i != j ==> s.claims[i] !! s.claims[j])
    && (forall k :: k in s.locks && s.locks[k].held ==> exists id :: id in s.claims && k in s.claims[id])
  }

  ghost predicate Unused(s: System) {
    forall i: nat :: i > s.gen ==> Decimal(i) !in s.locks
  }

  ghost predicate Inv(s: System) {
    WellFormed(s.locks) && Disjoint(s.locks) && Claimed(s) && Unused(s)
  }

  lemma CollectKeeps(s: System, now: int)
    requires Inv(s)
    ensures Inv(s.(locks := Collect(s.locks, now)))
  {
  }

  lemma CreateKeeps(s: System, d: LockDetails, now: int)
    requires Inv(s) && Rooted(d.root) && Free(s.locks, d)
    ensures Inv(s.(locks := s.locks[Decimal(s.gen + 1) := NewLock(d, now)], gen := s.gen + 1))
  {
    var token, t := Decimal(s.gen + 1), s.locks[Decimal(s.gen + 1) := NewLock(d, now)];
    forall i: nat | i > s.gen + 1
      ensures Decimal(i) !in t
    {
      if Decimal(i) == token {
        DecimalInjective(i, s.gen + 1);
      }
    }
    forall a, b | a in t && b in t && a != b
      ensures !Conflict(t[a].details, t[b].details)
    {
      ConflictSymmetric(t[a].details, t[b].details);
    }
  }

  lemma ConflictSymmetric(a: LockDetails, b: LockDetails)
    requires Rooted(a.root) && Rooted(b.root)
    ensures Conflict(a, b) == Conflict(b, a)
  {
  }

  lemma RefreshKeeps(s: System, token: string, now: int, duration: int)
    requires Inv(s) && token in s.locks && !s.locks[token].held
    ensures Inv(s.(locks := s.locks[token := Refreshed(s.locks[token], now, duration)]))
  {
  }

  lemma UnlockKeeps(s: System, token: string)
    requires Inv(s) && token in s.locks && !s.locks[token].held
    ensures Inv(s.(locks := s.locks - {token}))
  {
  }

  lemma ConfirmKeeps(s: System, tokens: set<string>)
    requires Inv(s) && forall k :: k in tokens ==> k in s.locks && !s.locks[k].held
    ensures Inv(s.(locks := SetHeld(s.locks, tokens, true), claims := s.claims[s.next := tokens], next := s.next + 1))
  {
    hide Claimed;
    ConfirmClaims(s, tokens);
  }

  lemma ConfirmClaims(s: System, tokens: set<string>)
    requires Claimed(s) && forall k :: k in tokens ==> k in s.locks && !s.locks[k].held
    ensures Claimed(s.(locks := SetHeld(s.locks, tokens, true), claims := s.claims[s.next := tokens],
                       next := s.next + 1))
  {
    var s' := s.(locks := SetHeld(s.locks, tokens, true), claims := s.claims[s.next := tokens], next := s.next + 1);
    forall k | k in s'.locks && s'.locks[k].held
      ensures exists id :: id in s'.claims && k in s'.claims[id]
    {
      if k in tokens {
        assert s.next in s'.claims;
      } else {
        var id :| id in s.claims && k in s.claims[id];
        assert id in s'.claims && k in s'.claims[id];
      }
    }
  }

  lemma ReleaseKeeps(s: System, id: nat)
    requires Inv(s) && id in s.claims
    ensures Inv(s.(locks := SetHeld(s.locks, s.claims[id], false), claims := s.claims - {id}))
  {
    var s' := s.(locks := SetHeld(s.locks, s.claims[id], false), claims := s.claims - {id});
    forall k | k in s'.locks && s'.locks[k].held
      ensures exists i :: i in s'.claims && k in s'.claims[i]
    {
      var i :| i in s.claims && k in s.claims[i];
      assert i in s'.claims && k in s'.claims[i];
    }
  }

  /** The tokens that a confirmation claims are those of live locks that nobody holds, covering the
      named resources. */
  lemma ClaimsAreFree(t: Table, name0: string, name1: string, conditions: seq<Condition>)
    requires Claims(t, name0, name1, conditions).Ok?
    ensures var tokens := Claims(t, name0, name1, conditions).value;
      && (forall k :: k in tokens ==> k in t && !t[k].held)
      && (name0 != "" ==> exists k :: k in tokens && Covers(t[k].details, SlashClean(name0)))
      && (name1 != "" ==> exists k :: k in tokens && Covers(t[k].details, SlashClean(name1)))
  {
    var tokens := Claims(t, name0, name1, conditions).value;
    if name0 != "" {
      assert Lookup(t, SlashClean(name0), conditions) in tokens;
    }
    if name1 != "" {
      assert Lookup(t, SlashClean(name1), conditions) in tokens;
    }
  }

  lemma StepKeeps(s: System, op: Op)
    requires Inv(s)
    ensures Inv(Step(s, op))
  {
    hide Disjoint, Claimed, Unused;
    if !op.Release? {
      CollectKeeps(s, op.now);
    }
    match op
    case Create(now, details) =>
      var t, d := Collect(s.locks, now), details.(root := SlashClean(details.root));
      if Free(t, d) {
        CreateKeeps(s.(locks := t), d, now);
      }
    case Refresh(now, token, duration) =>
      var t := Collect(s.locks, now);
      if token in t && !t[token].held {
        RefreshKeeps(s.(locks := t), token, now, duration);
      }
    case Unlock(now, token) =>
      var t := Collect(s.locks, now);
      if token in t && !t[token].held {
        UnlockKeeps(s.(locks := t), token);
      }
    case Confirm(now, name0, name1, conditions) =>
      var t := Collect(s.locks, now);
      var c := Claims(t, name0, name1, conditions);
      if c.Ok? {
        ClaimsAreFree(t, name0, name1, conditions);
        ConfirmKeeps(s.(locks := t), c.value);
      }
    case Release(id) =>
      if id in s.claims {
        ReleaseKeeps(s, id);
      }
  }

  lemma {:induction false} RunKeeps(s: System, ops: seq<Op>)
    requires Inv(s)
    ensures Inv(Run(s, ops))
  {
    if ops != [] {
      RunKeeps(s, ops[..|ops| - 1]);
      StepKeeps(Run(s, ops[..|ops| - 1]), ops[|ops| - 1]);
    }
  }

  // ---- what holds in every run ----

  /** After any run, no resource name is covered by two live locks. */
  lemma NoOverlap(unixTime: nat, ops: seq<Op>, name: string, a: string, b: string)
    requires Rooted(name)
    ensures var t := Run(Init(unixTime), ops).locks;
      (a in t && b in t && Covers(t[a].details, name) && Covers(t[b].details, name)) ==> a == b
  {
    RunKeeps(Init(unixTime), ops);
    var t := Run(Init(unixTime), ops).locks;
    if a in t && b in t && Covers(t[a].details, name) && Covers(t[b].details, name) {
      ConflictIffOverlap(t[a].details, t[b].details);
    }
  }

  /** A lock is refused exactly when it would share a resource with a lock that is still live. */
  lemma RefusedIffOverlap(t: Table, d: LockDetails)
    requires WellFormed(t) && Rooted(d.root)
    ensures !Free(t, d) <==>
      exists k, name :: k in t && Rooted(name) && Covers(d, name) && Covers(t[k].details, name)
  {
    if !Free(t, d) {
      var k :| k in t && Conflict(d, t[k].details);
      ConflictIffOverlap(d, t[k].details);
    }
    if k, name :| k in t && Rooted(name) && Covers(d, name) && Covers(t[k].details, name) {
      ConflictIffOverlap(d, t[k].details);
    }
  }

  lemma ClaimedOnce(s: System, i: nat, j: nat, a: string, b: string, name: string)
    requires Inv(s) && Rooted(name) && i in s.claims && j in s.claims && a in s.claims[i] && b in s.claims[j]
    ensures a in s.locks && b in s.locks
    ensures Covers(s.locks[a].details, name) && Covers(s.locks[b].details, name) ==> i == j && a == b
  {
    if Covers(s.locks[a].details, name) && Covers(s.locks[b].details, name) {
      ConflictIffOverlap(s.locks[a].details, s.locks[b].details);
    }
  }

  /** After any run, no resource name is confirmed by two outstanding confirmations. */
  lemma ConfirmedOnce(unixTime: nat, ops: seq<Op>, i: nat, j: nat, a: string, b: string, name: string)
    requires Rooted(name)
    requires var s := Run(Init(unixTime), ops); i in s.claims && j in s.claims && a in s.claims[i] && b in s.claims[j]
    ensures var s := Run(Init(unixTime), ops); a in s.locks && b in s.locks
    ensures var s := Run(Init(unixTime), ops);
      (Covers(s.locks[a].details, name) && Covers(s.locks[b].details, name)) ==> i == j && a == b
  {
    assert Inv(Init(unixTime));
    hide *;
    RunKeeps(Init(unixTime), ops);
    ClaimedOnce(Run(Init(unixTime), ops), i, j, a, b, name);
  }

  /** The locks of keys are the same in both tables. */
  ghost predicate Kept(keys: set<string>, t: Table, t': Table) {
    forall k :: k in keys ==> k in t && k in t' && t'[k] == t[k]
  }

  lemma KeptByUpdate(keys: set<string>, t: Table, t': Table, token: string, lock: Lock)
    requires Kept(keys, t, t') && token !in keys
    ensures Kept(keys, t, t'[token := lock]) && Kept(keys, t, t' - {token})
  {
  }

  lemma KeptBySetHeld(keys: set<string>, t: Table, t': Table, tokens: set<string>, held: bool)
    requires Kept(keys, t, t') && keys !! tokens
    ensures Kept(keys, t, SetHeld(t', tokens, held))
  {
  }

  lemma KeptByCollect(s: System, now: int, id: nat)
    requires Inv(s) && id in s.claims
    ensures Kept(s.claims[id], s.locks, Collect(s.locks, now))
    ensures forall k :: k in s.claims[id] ==> Collect(s.locks, now)[k].held
  {
  }

  /** While a confirmation is outstanding its locks are live, held and unchanged. */
  lemma HeldStays(s: System, op: Op, id: nat)
    requires Inv(s) && id in s.claims && op != Release(id)
    ensures id in Step(s, op).claims && Step(s, op).claims[id] == s.claims[id]
    ensures Kept(s.claims[id], s.locks, Step(s, op).locks)
  {
    var keys := s.claims[id];
    if op.Release? {
      if op.id in s.claims {
        KeptBySetHeld(keys, s.locks, s.locks, s.claims[op.id], false);
      }
    } else {
      var t := Collect(s.locks, op.now);
      KeptByCollect(s, op.now, id);
      match op
      case Create(now, details) =>
        assert Decimal(s.gen + 1) !in s.locks;
        KeptByUpdate(keys, s.locks, t, Decimal(s.gen + 1), NewLock(details.(root := SlashClean(details.root)), now));
      case Refresh(now, token, duration) =>
        if token in t && !t[token].held {
          KeptByUpdate(keys, s.locks, t, token, Refreshed(t[token], now, duration));
        }
      case Unlock(now, token) =>
        if token in t && !t[token].held {
          KeptByUpdate(keys, s.locks, t, token, t[token]);
        }
      case Confirm(now, name0, name1, conditions) =>
        if Claims(t, name0, name1, conditions).Ok? {
          ClaimsAreFree(t, name0, name1, conditions);
          KeptBySetHeld(keys, s.locks, t, Claims(t, name0, name1, conditions).value, true);
        }
    }
  }

  lemma {:induction false} HeldStaysForRuns(s: System, ops: seq<Op>, id: nat)
    requires Inv(s) && id in s.claims && forall i :: 0 <= i < |ops| ==> ops[i] != Release(id)
    ensures id in Run(s, ops).claims && Run(s, ops).claims[id] == s.claims[id]
    ensures Kept(s.claims[id], s.locks, Run(s, ops).locks)
  {
    if ops != [] {
      var front := ops[..|ops| - 1];
      HeldStaysForRuns(s, front, id);
      RunKeeps(s, front);
      HeldStays(Run(s, front), ops[|ops| - 1], id);
    }
  }

  // ---- how long a lock lives ----

  /** The operation removes or renews this lock, if it can. */
  predicate Rewrites(op: Op, token: string) {
    (op.Unlock? || op.Refresh?) && op.token == token
  }

  /** The operation does not come too late for a lock that was written at this moment. */
  predicate InTime(op: Op, written: int, duration: int) {
    op.Release? || duration < 0 || op.now < written + duration
  }

  /** A live lock with these details, which ends duration after it was written, if ever. */
  ghost predicate LiveUntil(t: Table, token: string, d: LockDetails, written: int) {
    token in t && t[token].details == d && (d.duration >= 0 ==> t[token].expiry == written + d.duration)
  }

  lemma CollectInTime(t: Table, token: string, d: LockDetails, written: int, now: int)
    requires LiveUntil(t, token, d, written)
    ensures t[token].held || d.duration < 0 || now < written + d.duration ==>
              LiveUntil(Collect(t, now), token, d, written)
    ensures !t[token].held && d.duration >= 0 && now >= written + d.duration ==> token !in Collect(t, now)
  {
  }

  /** A lock stays live through an operation in time that does not rewrite it. */
  lemma LivesOn(s: System, op: Op, token: string, d: LockDetails, written: int)
    requires Inv(s) && LiveUntil(s.locks, token, d, written)
    requires !Rewrites(op, token) && InTime(op, written, d.duration)
    ensures LiveUntil(Step(s, op).locks, token, d, written)
  {
    hide Disjoint, Claimed, Claims, Free, Collect, SlashClean, NewLock, Refreshed, Decimal;
    if !op.Release? {
      CollectInTime(s.locks, token, d, written, op.now);
    }
    if op.Create? {
      assert Decimal(s.gen + 1) !in s.locks;
    }
  }

  /** If nobody holds it, the first operation that is not a release and not in time removes it. */
  lemma DiesAt(s: System, op: Op, token: string, d: LockDetails, written: int)
    requires Inv(s) && LiveUntil(s.locks, token, d, written) && !s.locks[token].held
    requires !op.Release? && !InTime(op, written, d.duration)
    ensures token !in Step(s, op).locks
  {
    hide Disjoint, Claimed, Claims, Free, Collect, SlashClean, NewLock, Refreshed, Decimal;
    CollectInTime(s.locks, token, d, written, op.now);
    if op.Create? {
      assert Decimal(s.gen + 1) !in s.locks;
    }
  }

  lemma {:induction false} LivesThrough(s: System, ops: seq<Op>, token: string, d: LockDetails, written: int)
    requires Inv(s) && LiveUntil(s.locks, token, d, written)
    requires forall op :: op in ops ==> !Rewrites(op, token) && InTime(op, written, d.duration)
    ensures LiveUntil(Run(s, ops).locks, token, d, written)
    decreases |ops|
  {
    if ops != [] {
      hide Inv, Step, LiveUntil;
      var front := ops[..|ops| - 1];
      LivesThrough(s, front, token, d, written);
      RunKeeps(s, front);
      LivesOn(Run(s, front), ops[|ops| - 1], token, d, written);
    }
  }

  /** The operation writes a lock with this token and these details. */
  ghost predicate Writes(s: System, op: Op, token: string, d: LockDetails)
    requires WellFormed(s.locks) && !op.Release?
  {
    var t := Collect(s.locks, op.now);
    if op.Create? then
      token == Decimal(s.gen + 1) && d == op.details.(root := SlashClean(op.details.root)) && Free(t, d)
    else
      && op.Refresh? && token == op.token && token in t && !t[token].held
      && d == t[token].details.(duration := op.duration)
  }

  lemma WrittenIsLive(s: System, op: Op, token: string, d: LockDetails)
    requires Inv(s) && !op.Release? && Writes(s, op, token, d)
    ensures LiveUntil(Step(s, op).locks, token, d, op.now)
  {
    hide Disjoint, Claimed, Free, Collect, SlashClean;
  }

  /** A lock that is created or renewed at some moment lives for its duration, through any run in that time
      that neither unlocks nor renews it, and for ever if its duration is negative. After that time, if nobody
      holds it, the next operation but a release removes it. */
  lemma LivesItsTime(s: System, op: Op, token: string, d: LockDetails, ops: seq<Op>, next: Op)
    requires Inv(s) && !op.Release? && Writes(s, op, token, d)
    requires forall o :: o in ops ==>
               !Rewrites(o, token) && (o.Release? || d.duration < 0 || o.now < op.now + d.duration)
    ensures var s' := Run(Step(s, op), ops);
      && token in s'.locks && s'.locks[token].details == d
      && (!s'.locks[token].held && !next.Release? && d.duration >= 0 && next.now >= op.now + d.duration ==>
            token !in Step(s', next).locks)
      && (!Rewrites(next, token) && (next.Release? || d.duration < 0 || next.now < op.now + d.duration) ==>
            token in Step(s', next).locks && Step(s', next).locks[token].details == d)
  {
    hide Disjoint, Claimed, Unused, Step, Writes;
    WrittenIsLive(s, op, token, d);
    StepKeeps(s, op);
    LivesThrough(Step(s, op), ops, token, d, op.now);
    RunKeeps(Step(s, op), ops);
    var s' := Run(Step(s, op), ops);
    if !next.Release? && !InTime(next, op.now, d.duration) && !s'.locks[token].held {
      DiesAt(s', next, token, d, op.now);
    }
    if !Rewrites(next, token) && InTime(next, op.now, d.duration) {
      LivesOn(s', next, token, d, op.now);
    }
  }

  lemma AfterConfirm(s: System, now: int, name0: string, name1: string, conditions: seq<Condition>)
    requires Inv(s) && Claims(Collect(s.locks, now), name0, name1, conditions).Ok?
    ensures var t, s1 := Collect(s.locks, now), Step(s, Confirm(now, name0, name1, conditions));
      var tokens := Claims(t, name0, name1, conditions).value;
      && Inv(s1) && s1.locks == SetHeld(t, tokens, true) && s.next in s1.claims && s1.claims[s.next] == tokens
      && forall k :: k in tokens ==> k in t && !t[k].held
  {
    hide Collect, Claims, SetHeld, WellFormed, Disjoint, Claimed, Unused;
    ClaimsAreFree(Collect(s.locks, now), name0, name1, conditions);
    StepKeeps(s, Confirm(now, name0, name1, conditions));
  }

  lemma AfterRelease(s: System, id: nat)
    requires WellFormed(s.locks) && id in s.claims
    ensures Step(s, Release(id)).locks == SetHeld(s.locks, s.claims[id], false)
  {
  }

  /** Marking free locks as held and clearing the marks again restores them. */
  lemma HeldAndBack(t: Table, tokens: set<string>, u: Table)
    requires (forall k :: k in tokens ==> k in t && !t[k].held) && Kept(tokens, SetHeld(t, tokens, true), u)
    ensures forall k :: k in tokens ==> k in SetHeld(u, tokens, false) && SetHeld(u, tokens, false)[k] == t[k]
    ensures u == SetHeld(t, tokens, true) ==> SetHeld(u, tokens, false) == t
  {
    assert forall k :: k in tokens ==> k in u && u[k] == t[k].(held := true);
  }

  lemma RunNothing(s: System)
    requires WellFormed(s.locks)
    ensures Run(s, []) == s
  {
  }

  /** Whatever else happens between a confirmation and its release, the release gives back the
      locks exactly as the confirmation found them. */
  lemma ReleaseRestores(s: System, now: int, name0: string, name1: string, conditions: seq<Condition>, ops: seq<Op>)
    requires Inv(s) && Claims(Collect(s.locks, now), name0, name1, conditions).Ok?
    requires forall i :: 0 <= i < |ops| ==> ops[i] != Release(s.next)
    ensures var t, tokens := Collect(s.locks, now), Claims(Collect(s.locks, now), name0, name1, conditions).value;
      var s' := Step(Run(Step(s, Confirm(now, name0, name1, conditions)), ops), Release(s.next));
      forall k :: k in tokens ==> k in t && k in s'.locks && s'.locks[k] == t[k]
    ensures ops == [] ==>
      Step(Run(Step(s, Confirm(now, name0, name1, conditions)), ops), Release(s.next)).locks == Collect(s.locks, now)
  {
    hide Step, Run, Collect, Claims, SetHeld, Kept, WellFormed, Disjoint, Claimed, Unused;
    var t, s1 := Collect(s.locks, now), Step(s, Confirm(now, name0, name1, conditions));
    var s2 := Run(s1, ops);
    AfterConfirm(s, now, name0, name1, conditions);
    HeldStaysForRuns(s1, ops, s.next);
    AfterRelease(s2, s.next);
    HeldAndBack(t, Claims(t, name0, name1, conditions).value, s2.locks);
    if ops == [] {
      RunNothing(s1);
    }
  }
}
