/** The abstract state of the lock manager: the live locks by token, with no tree, no heap and no
    reference counts, and what each operation does to them. */
module LockTable {
  import opened ExpiryHeap
  import opened Names

  /** One live lock; expiry is 0 for a lock that never expires. */
  datatype Lock = Lock(details: LockDetails, expiry: int, held: bool)

  type Table = map<string, Lock>

  /** The part of a request condition that the lookup reads. */
  datatype Condition = Condition(not: bool, token: string, etag: string)

  datatype Error = ErrConfirmationFailed | ErrLocked | ErrNoSuchLock

  datatype Result<+T> = Ok(value: T) | Err(error: Error)

  ghost predicate WellFormed(t: Table) {
    "" !in t && forall k :: k in t ==> Rooted(t[k].details.root)
  }

  /** The resource names that a lock protects. */
  predicate Covers(d: LockDetails, name: string)
    requires Rooted(name)
  {
    name == d.root || (!d.zeroDepth && Within(d.root, name))
  }

  /** Whether two locks cannot live side by side, read off their roots and depths. */
  predicate Conflict(a: LockDetails, b: LockDetails)
    requires Rooted(a.root) && Rooted(b.root)
  {
    a.root == b.root || (!a.zeroDepth && Within(a.root, b.root)) || (!b.zeroDepth && Within(b.root, a.root))
  }

  /** Two locks conflict exactly when some resource is covered by both. */
  lemma {:induction false} ConflictIffOverlap(a: LockDetails, b: LockDetails)
    requires Rooted(a.root) && Rooted(b.root)
    ensures Conflict(a, b) <==> exists name :: Rooted(name) && Covers(a, name) && Covers(b, name)
  {
    if Conflict(a, b) {
      var name := if !a.zeroDepth && Within(a.root, b.root) then b.root else a.root;
      assert Covers(a, name) && Covers(b, name);
    }
    if name :| Rooted(name) && Covers(a, name) && Covers(b, name) {
      if name != a.root && name != b.root {
        WithinLinear(a.root, b.root, name);
      }
    }
  }

  predicate Expired(l: Lock, now: int) {
    !l.held && l.details.duration >= 0 && l.expiry <= now
  }

  function Collect(t: Table, now: int): Table {
    map k | k in t && !Expired(t[k], now) :: t[k]
  }

  function NewLock(d: LockDetails, now: int): Lock {
    Lock(d, if d.duration >= 0 then now + d.duration else 0, false)
  }

  /** The lock that was written at now has these details and is held by nobody; and a collection at any later
      or earlier moment keeps it exactly if it never expires or its time has not come. */
  ghost predicate LivesFor(t: Table, token: string, d: LockDetails, now: int) {
    && token in t && t[token].details == d && !t[token].held
    && forall later :: token in Collect(t, later) <==> d.duration < 0 || later < now + d.duration
  }

  ghost predicate SameBut(t: Table, t': Table, token: string) {
    forall k :: k != token ==> (k in t' <==> k in t) && (k in t ==> k in t' && t'[k] == t[k])
  }

  lemma NewLockLives(t: Table, token: string, d: LockDetails, now: int)
    ensures LivesFor(t[token := NewLock(d, now)], token, d, now) && SameBut(t, t[token := NewLock(d, now)], token)
  {
  }

  lemma RefreshedLives(t: Table, token: string, now: int, duration: int)
    requires token in t
    ensures var t' := t[token := Refreshed(t[token], now, duration)];
      LivesFor(t', token, t[token].details.(duration := duration), now) && SameBut(t, t', token)
  {
  }

  ghost predicate Free(t: Table, d: LockDetails)
    requires WellFormed(t) && Rooted(d.root)
  {
    forall k :: k in t ==> !Conflict(d, t[k].details)
  }

  /** Whether a table is free for a lock depends on its root and its depth only. */
  lemma FreeByShape(t: Table, a: LockDetails, b: LockDetails)
    requires WellFormed(t) && Rooted(a.root) && a.root == b.root && a.zeroDepth == b.zeroDepth
    ensures Free(t, a) <==> Free(t, b)
  {
    forall k | k in t
      ensures Conflict(a, t[k].details) == Conflict(b, t[k].details)
    {
    }
  }

  /** The lock that a condition's token names, if it may be claimed for the resource. */
  predicate Matches(t: Table, name: string, token: string)
    requires Rooted(name)
  {
    token in t && !t[token].held && Covers(t[token].details, name)
  }

  function Lookup(t: Table, name: string, conditions: seq<Condition>): (token: string)
    requires Rooted(name)
    ensures token == "" || Matches(t, name, token)
    ensures WellFormed(t) ==> (token == "" <==> forall c :: c in conditions ==> !Matches(t, name, c.token))
  {
    if conditions == [] then ""
    else if Matches(t, name, conditions[0].token) then conditions[0].token
    else Lookup(t, name, conditions[1..])
  }

  function SetHeld(t: Table, tokens: set<string>, held: bool): Table {
    map k | k in t :: if k in tokens then t[k].(held := held) else t[k]
  }

  lemma SetHeldOne(t: Table, token: string, held: bool)
    requires token in t
    ensures SetHeld(t, {token}, held) == t[token := t[token].(held := held)]
  {
  }

  lemma SetHeldNone(t: Table, held: bool)
    ensures SetHeld(t, {}, held) == t
  {
  }

  lemma SetHeldTwo(t: Table, a: set<string>, b: set<string>, held: bool)
    ensures SetHeld(SetHeld(t, a, held), b, held) == SetHeld(t, a + b, held)
  {
  }

  function Refreshed(l: Lock, now: int, duration: int): Lock {
    NewLock(l.details.(duration := duration), now)
  }

  /** The locks that a confirmation claims: one for each non-empty name, or a failure. */
  function Claims(t: Table, name0: string, name1: string, conditions: seq<Condition>): Result<set<string>> {
    var t0 := if name0 == "" then "" else Lookup(t, SlashClean(name0), conditions);
    var t1 := if name1 == "" then "" else Lookup(t, SlashClean(name1), conditions);
    if (name0 != "" && t0 == "") || (name1 != "" && t1 == "") then Err(ErrConfirmationFailed)
    else Ok(Pair(t0, t1))
  }

  /** The tokens of an outstanding confirmation. */
  function Pair(t0: string, t1: string): set<string> {
    {t0, t1} - {""}
  }

  /** A condition names a live lock that nobody holds and that covers the resource. */
  ghost predicate Grants(t: Table, name: string, c: Condition)
    requires Rooted(name)
  {
    c.token in t && !t[c.token].held && Covers(t[c.token].details, name)
  }

  /** No name is given, or some condition grants it. */
  ghost predicate Granted(t: Table, name: string, conditions: seq<Condition>) {
    name != "" ==> exists c :: c in conditions && Grants(t, SlashClean(name), c)
  }

  /** These tokens are named by conditions, each for one of the names, and they cover each name. */
  ghost predicate GrantedBy(t: Table, name0: string, name1: string, conditions: seq<Condition>, tokens: set<string>) {
    && (forall k :: k in tokens ==>
          exists c :: && c in conditions && c.token == k
                      && (|| (name0 != "" && Grants(t, SlashClean(name0), c))
                          || (name1 != "" && Grants(t, SlashClean(name1), c))))
    && (name0 != "" ==> exists c :: c in conditions && c.token in tokens && Grants(t, SlashClean(name0), c))
    && (name1 != "" ==> exists c :: c in conditions && c.token in tokens && Grants(t, SlashClean(name1), c))
  }

  /** A confirmation succeeds exactly if each name that is given is granted, and claims tokens that grant
      them. */
  lemma ClaimsIff(t: Table, name0: string, name1: string, conditions: seq<Condition>)
    requires WellFormed(t)
    ensures Claims(t, name0, name1, conditions).Ok? <==> Granted(t, name0, conditions) && Granted(t, name1, conditions)
    ensures match Claims(t, name0, name1, conditions)
      case Ok(tokens) => GrantedBy(t, name0, name1, conditions, tokens)
      case Err(e) => e == ErrConfirmationFailed
  {
    hide SlashClean, Covers, Lookup;
    LookupNames(t, SlashClean(name0), conditions);
    LookupNames(t, SlashClean(name1), conditions);
  }

  lemma {:induction false} LookupNames(t: Table, name: string, conditions: seq<Condition>)
    requires WellFormed(t) && Rooted(name)
    ensures var token := Lookup(t, name, conditions);
      && (token == "" <==> forall c :: c in conditions ==> !Grants(t, name, c))
      && (token != "" ==> exists c :: c in conditions && c.token == token && Grants(t, name, c))
  {
    hide Covers;
    if conditions != [] {
      LookupNames(t, name, conditions[1..]);
      assert conditions[0] in conditions && forall c :: c in conditions[1..] ==> c in conditions;
      assert forall c :: c in conditions ==> c == conditions[0] || c in conditions[1..];
      assert Matches(t, name, conditions[0].token) <==> Grants(t, name, conditions[0]);
    }
  }

  /** The locks of these tokens are held, and all else is as it was. */
  ghost predicate HeldToo(t: Table, t': Table, tokens: set<string>) {
    t'.Keys == t.Keys && forall k :: k in t ==> t'[k] == t[k].(held := k in tokens || t[k].held)
  }

  lemma SetHeldIsHeldToo(t: Table, tokens: set<string>)
    ensures HeldToo(t, SetHeld(t, tokens, true), tokens)
  {
  }

  lemma PairParts(a: string, b: string)
    ensures Pair(a, b) == Pair(a, "") + Pair("", b) && Pair("", "") == {}
    ensures a != "" ==> Pair(a, "") == {a}
    ensures b != "" ==> Pair("", b) == {b}
    ensures Pair("", b) == Pair(b, "")
    ensures Pair(a, a) == Pair(a, "") && Pair(a, b) == Pair(b, a)
  {
  }
}
