/** Physical objects and the file records that share them: what every record reads. */
module Objects {
  import opened Tables
  import opened Accounts
  import opened TreeCopy
  import opened TreeMove
  import opened Wrappers

  /** Where an object is: a storage policy and a path in it. */
  datatype Key = Key(policy: Id, source: string)

  type Store = map<Key, Content>

  function KeyOf(row: File): Key {
    Key(row.policy, row.source)
  }

  /** What is read through each record; a placeholder may have no object yet. */
  ghost function View(g: Files, o: Store): map<Id, Content> {
    map i | i in g && KeyOf(g[i]) in o :: o[KeyOf(g[i])]
  }

  /** Another record than id points at the object. */
  predicate Shared(g: Files, id: Id, key: Key) {
    exists j :: j in g && j != id && KeyOf(g[j]) == key
  }

  // ---- what the operations mean when every record has its own content ----

  /** The copies read what the originals read, and every other record reads what it did. */
  ghost predicate DeepCopied(before: map<Id, Content>, after: map<Id, Content>, image: map<Id, Id>) {
    && (forall i :: i in before ==> i in after && after[i] == before[i] && i !in image.Values)
    && (forall i {:trigger image[i]} :: i in image ==>
          (image[i] in after <==> i in before) && (i in before ==> after[image[i]] == before[i]))
    && after.Keys <= before.Keys + image.Values
  }

  /** Copying records, which share the object with the originals, is copying the contents. */
  lemma CopyIsDeep(g0: Files, g1: Files, n0: Id, n1: Id, into: map<Id, Id>, owner: Id, name: string,
                   image: map<Id, Id>, o: Store)
    requires FilesCopied(g0, g1, n0, n1, into, owner, name, image) && (forall i :: i in g0 ==> i < n0)
    ensures DeepCopied(View(g0, o), View(g1, o), image)
    ensures image.Keys <= g0.Keys && g1.Keys == g0.Keys + image.Values
  {
    forall i | i in image
      ensures i in g0 && image[i] in g1 && KeyOf(g1[image[i]]) == KeyOf(g0[i])
    {
      assert FileImaged(g0, g1, into, owner, name, image, i);
    }
  }

  /** Moving records changes no content. */
  lemma MoveIsDeep(g: Files, ids: seq<Id>, uid: Id, from: Id, t: Target, o: Store)
    ensures View(MovedFiles(g, ids, uid, from, t), o) == View(g, o)
  {
    var h := MovedFiles(g, ids, uid, from, t);
    assert forall i :: i in g ==> KeyOf(h[i]) == KeyOf(g[i]);
  }

  /** A new record with an object of its own. */
  lemma CreateIsDeep(g: Files, o: Store, id: Id, row: File, content: Content)
    requires id !in g && !Shared(g, id, KeyOf(row))
    ensures View(g[id := row], o[KeyOf(row) := content]) == View(g, o)[id := content]
  {
  }

  /** Writing content through one record, to the object it then points at. */
  ghost function Written(g: Files, id: Id, source: string, size: nat): Files
    requires id in g
  {
    g[id := g[id].(source := source, size := size)]
  }

  lemma OtherReads(g: Files, o: Store, id: Id, source: string, content: Content, j: Id)
    requires id in g && j in g && j != id
    ensures var key := Key(g[id].policy, source);
            var before, after := View(g, o), View(Written(g, id, source, |content|), o[key := content]);
            if KeyOf(g[j]) == key then j in after && after[j] == content
            else (j in after <==> j in before) && (j in before ==> after[j] == before[j])
  {
  }

  /** A write is seen through its record, and through no other exactly when every other record of the
      object reads this content already. */
  lemma WriteIsDeepIff(g: Files, o: Store, id: Id, source: string, content: Content)
    requires id in g
    ensures var key := Key(g[id].policy, source);
            View(Written(g, id, source, |content|), o[key := content]) == View(g, o)[id := content]
            <==> forall j :: j in g && j != id && KeyOf(g[j]) == key ==> j in View(g, o) && View(g, o)[j] == content
  {
    hide View;
    var key := Key(g[id].policy, source);
    var before, after := View(g, o), View(Written(g, id, source, |content|), o[key := content]);
    OwnRead(g, o, id, source, content);
    forall j | j in g && j != id {
      OtherReads(g, o, id, source, content, j);
    }
    if forall j :: j in g && j != id && KeyOf(g[j]) == key ==> j in before && before[j] == content {
      assert after == before[id := content];
    } else {
      var j :| j in g && j != id && KeyOf(g[j]) == key && !(j in before && before[j] == content);
      assert j in after && after[j] == content;
    }
  }

  lemma OwnRead(g: Files, o: Store, id: Id, source: string, content: Content)
    requires id in g
    ensures var key := Key(g[id].policy, source);
            var before, after := View(g, o), View(Written(g, id, source, |content|), o[key := content]);
            && before.Keys <= g.Keys && after.Keys <= g.Keys
            && id in after && after[id] == content
  {
  }

  /** So a write to an object that no other record points at is like a write to a copy. */
  lemma WriteIsDeep(g: Files, o: Store, id: Id, source: string, content: Content)
    requires id in g && !Shared(g, id, Key(g[id].policy, source))
    ensures View(Written(g, id, source, |content|), o[Key(g[id].policy, source) := content])
         == View(g, o)[id := content]
  {
    WriteIsDeepIff(g, o, id, source, content);
  }

  /** Where an overwrite puts the content. */
  function WriteTo(g: Files, id: Id, path: string): string
    requires id in g
  {
    if Shared(g, id, KeyOf(g[id])) then path else g[id].source
  }

  /** The generated path is not taken by another record, or not needed. */
  ghost predicate PathUnused(g: Files, id: Id, path: string)
    requires id in g
  {
    !Shared(g, id, Key(g[id].policy, WriteTo(g, id, path)))
  }

  /** What is read after an overwrite. One that breaks off shows if it went to the object of its record
      alone, and otherwise leaves an object that no record points at. */
  ghost function ViewAfter(g: Files, o: Store, id: Id, body: Content, ok: bool): map<Id, Content>
    requires id in g
  {
    if ok || !Shared(g, id, KeyOf(g[id])) then View(g, o)[id := body] else View(g, o)
  }

  lemma UnreadObject(g: Files, o: Store, key: Key, body: Content)
    requires forall i :: i in g ==> KeyOf(g[i]) != key
    ensures View(g, o[key := body]) == View(g, o)
  {
  }

  lemma BrokenWrite(g: Files, o: Store, id: Id, path: string, body: Content)
    requires id in g && PathUnused(g, id, path)
    ensures View(g, o[Key(g[id].policy, WriteTo(g, id, path)) := body]) == ViewAfter(g, o, id, body, false)
  {
    var key := Key(g[id].policy, WriteTo(g, id, path));
    if Shared(g, id, KeyOf(g[id])) {
      UnreadObject(g, o, key, body);
    } else {
      assert KeyOf(g[id]) == key;
      var before, after := View(g, o), View(g, o[key := body]);
      assert forall j :: j in g && j != id ==> KeyOf(g[j]) != key;
      assert after.Keys == before.Keys + {id};
    }
  }

  // ---- deleting ----

  /** Deleting records and objects is deleting the contents of those records exactly when no record
      that stays reads a removed object. */
  lemma DeleteIsDeepIff(g: Files, o: Store, ids: set<Id>, keys: set<Key>)
    ensures View(g - ids, o - keys) == View(g, o) - ids <==>
            forall i :: i in g && i !in ids && KeyOf(g[i]) in o ==> KeyOf(g[i]) !in keys
  {
    var before, after := View(g, o), View(g - ids, o - keys);
    forall i | i in g && i !in ids && KeyOf(g[i]) in o && KeyOf(g[i]) in keys
      ensures i in before - ids && i !in after
    {
    }
  }

  /** If only objects are removed, what read them is lost. */
  lemma RemovalLoses(g: Files, o: Store, keys: set<Key>)
    ensures View(g, o - keys) == View(g, o) - set i | i in g && KeyOf(g[i]) in keys
  {
  }

  // ---- a copy as a whole ----

  /** What a copy promises whether or not it got to its end: there are new records for some of the old, the
      records read as if the contents had been copied, one user has this many bytes more,
      no folder or file is lost, and the roots are the same. */
  ghost predicate CopiedWell(f0: Folders, g0: Files, f1: Folders, g1: Files, o: Store, owner: Id, size: nat,
                             image: map<Id, Id>) {
    && image.Keys <= g0.Keys && g1.Keys == g0.Keys + image.Values
    && DeepCopied(View(g0, o), View(g1, o), image) && Charged(g0, g1, owner, size)
    && (Tidy(f0, g0) ==> Tidy(f1, g1)) && SameRoots(f0, f1)
  }

  lemma NoCopy(f: Folders, g: Files, o: Store, owner: Id)
    ensures CopiedWell(f, g, f, g, o, owner, 0, map[])
  {
  }

  /** After two copies in a row the law holds exactly if what is charged is the size of both. */
  lemma CopyCharges(storage: Storage, f0: Folders, g0: Files, f1: Folders, g1: Files, f2: Folders, g2: Files,
                    o: Store, owner: Id, a: nat, image0: map<Id, Id>, b: nat, image1: map<Id, Id>)
    requires Calibrated(storage, g0) && owner in storage
    requires CopiedWell(f0, g0, f1, g1, o, owner, a, image0) && CopiedWell(f1, g1, f2, g2, o, owner, b, image1)
    ensures Calibrated(Change(storage, owner, a + b), g2)
    ensures Calibrated(storage, g2) <==> a + b == 0
  {
    hide View, DeepCopied, Tidy, Charged, Calibrated;
    ChargedTwice(g0, g1, g2, owner, a, b);
    ChargeKeepsLawIff(storage, g0, g2, owner, a + b, a + b);
    ChargeKeepsLawIff(storage, g0, g2, owner, a + b, 0);
  }

  lemma CopyLaw(storage: Storage, s0: Snapshot, s1: Snapshot, s2: Snapshot, o: Store, owner: Id, a: nat,
                image0: map<Id, Id>, b: nat, image1: map<Id, Id>)
    requires owner in storage
    requires CopiedWell(s0.folders, s0.files, s1.folders, s1.files, o, owner, a, image0)
    requires CopiedWell(s1.folders, s1.files, s2.folders, s2.files, o, owner, b, image1)
    ensures Calibrated(storage, s0.files) ==> Calibrated(Change(storage, owner, a + b), s2.files)
    ensures Calibrated(storage, s0.files) ==> (Calibrated(storage, s2.files) <==> a + b == 0)
  {
    if Calibrated(storage, s0.files) {
      CopyCharges(storage, s0.folders, s0.files, s1.folders, s1.files, s2.folders, s2.files, o, owner, a, image0,
                  b, image1);
    }
  }

  lemma MoveCharges(storage: Storage, g: Files, h: Files, owner: Id)
    requires Charged(g, h, owner, 0)
    ensures Calibrated(storage, g) ==> Calibrated(storage, h)
  {
  }

  // ---- whole histories ----

  /** What happens to what is read: content is written through a record; records are copied; records are
      deleted; records that stay lose their object. */
  datatype Event =
    | Wrote(id: Id, content: Content)
    | Copied(image: map<Id, Id>)
    | Erased(ids: set<Id>)
    | Lost(ids: set<Id>)

  ghost predicate Follows(before: map<Id, Content>, e: Event, after: map<Id, Content>) {
    match e
    case Wrote(id, content) => after == before[id := content]
    case Copied(image) => DeepCopied(before, after, image)
    case Erased(ids) => after == before - ids
    case Lost(ids) => after == before - ids
  }

  /** The content last written through the record, or through the one it is a copy of until it was
      copied. */
  ghost function LastWritten(events: seq<Event>, id: Id): Option<Content>
    decreases |events|
  {
    if events == [] then None
    else
      var front := events[..|events| - 1];
      match events[|events| - 1]
      case Wrote(i, content) => if i == id then Some(content) else LastWritten(front, id)
      case Copied(image) =>
        if id !in image.Values then LastWritten(front, id)
        else var i :| i in image && image[i] == id; LastWritten(front, i)
      case Erased(ids) => if id in ids then None else LastWritten(front, id)
      case Lost(ids) => if id in ids then None else LastWritten(front, id)
  }

  /** Through every record is read what was last written through it. */
  ghost predicate ReadsLast(events: seq<Event>, view: map<Id, Content>) {
    forall id :: LastWritten(events, id) == if id in view then Some(view[id]) else None
  }

  /** One event more. */
  lemma ReadsOn(events: seq<Event>, before: map<Id, Content>, e: Event, after: map<Id, Content>)
    requires ReadsLast(events, before) && Follows(before, e, after)
    ensures ReadsLast(events + [e], after)
  {
    var all := events + [e];
    assert all[..|all| - 1] == events;
    forall id
      ensures LastWritten(all, id) == if id in after then Some(after[id]) else None
    {
      if e.Copied? && id in e.image.Values {
        var i :| i in e.image && e.image[i] == id && LastWritten(all, id) == LastWritten(events, i);
      }
    }
  }
}
