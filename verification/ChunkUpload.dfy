/** Chunked uploads to a local policy: service/explorer/upload.go, the chunk hooks of
    pkg/filesystem/hooks.go, and Put of pkg/filesystem/driver/local/handler.go. */
module ChunkUpload {
  import opened Tables
  import opened Wrappers

  /** Products and differences of sizes are taken in 64 bits. */
  const WORD := 0x1_0000_0000_0000_0000

  function Mul(a: nat, b: nat): (r: nat) {
    (a * b) % WORD
  }

  function Sub(a: nat, b: nat): (r: nat) {
    (a - b) % WORD
  }

  lemma ModAdd(q: nat, r: nat)
    ensures (q * WORD + r) % WORD == r % WORD
  {
    var k, s := r / WORD, r % WORD;
    assert q * WORD + r == (q + k) * WORD + s;
  }

  lemma SubIs(a: nat, b: nat)
    requires b <= a < WORD
    ensures Sub(a, b) == a - b
  {
  }

  lemma MulNext(index: nat, chunk: nat)
    ensures Mul(index + 1, chunk) == (Mul(index, chunk) + chunk) % WORD
    ensures Mul(0, chunk) == 0
    ensures (index + 1) * chunk < WORD ==>
              Mul(index, chunk) == index * chunk && Mul(index + 1, chunk) == index * chunk + chunk
  {
    var a := index * chunk;
    assert (index + 1) * chunk == a + chunk;
    assert a == a / WORD * WORD + a % WORD;
    assert (a + chunk) % WORD == (a % WORD + chunk) % WORD by { ModAdd(a / WORD, a % WORD + chunk); }
  }

  function Bytes(data: Option<Content>): Content {
    if data.Some? then data.value else []
  }

  /** A step after the file is stored that does not succeed. */
  datatype Fault = NoFault | SizeNotUpdated | NotPopped

  /** One upload session: the placeholder record, the rest of the user's storage, and the object. */
  datatype State = State(size: nat, chunk: nat, max: nat, stored: nat, others: nat, data: Option<Content>,
                         pending: bool, alive: bool) {
    /** The uploaded range starts here. */
    function Start(index: nat): nat {
      Mul(index, chunk)
    }

    predicate Last(index: nat) {
      chunk == 0 || Mul(index + 1, chunk) >= size
    }

    function Expected(index: nat): nat {
      if Last(index) then Sub(size, Start(index)) else chunk
    }

    function Remaining(): nat {
      if max <= others + stored then 0 else max - (others + stored)
    }

    /** The request gets as far as the storage driver. */
    predicate Admits(index: nat, length: nat) {
      && alive && pending && (chunk == 0 ==> index == 0) && Start(index) <= stored
      && length == Expected(index) && length <= Remaining()
    }

    /** The driver takes the bytes: a first chunk needs a new object, a later one an object that
        reaches to its start. */
    predicate Takes(index: nat) {
      if index == 0 then data.None? else Start(index) <= |Bytes(data)|
    }

    /** A step after the driver fails for this chunk. */
    predicate Hit(index: nat, fault: Fault) {
      fault == SizeNotUpdated || (fault == NotPopped && Last(index))
    }
  }

  /** What the client has sent, up to the size of the record: chunks 0 to count - 1, of which the first
      whole ones are in the object. Once a product has wrapped around only text's length is known. */
  datatype Sent = Sent(text: Content, count: nat, whole: nat, wrapped: bool)

  /** The chunk and its end are within 64 bits. */
  ghost predicate Plain(s: State, index: nat) {
    (index + 1) * s.chunk < WORD
  }

  /** The object of an unfinished upload has the whole chunks sent, and less than a chunk more: the rest
      of a chunk that broke off. */
  ghost predicate Agrees(s: State, x: Sent) {
    AgreesTo(s, x, x.count * s.chunk, x.whole * s.chunk)
  }

  ghost predicate AgreesTo(s: State, x: Sent, sent: nat, whole: nat) {
    && s.stored == sent && x.whole <= x.count && (s.stored > 0 ==> x.whole > 0)
    && whole <= |x.text| && whole <= |Bytes(s.data)|
    && Bytes(s.data)[..whole] == x.text[..whole]
    && (s.chunk > 0 ==> |Bytes(s.data)| < whole + s.chunk)
  }

  /** What holds between requests. */
  ghost predicate Good(s: State, x: Sent) {
    && s.size < WORD && s.max < WORD && |x.text| == s.stored <= s.size
    && (s.alive ==> s.pending) && (s.stored > 0 ==> s.data.Some?)
    && (s.pending && s.stored > 0 ==> s.stored < s.size)
    && (!s.pending ==> s.stored == s.size && s.data.Some? && |s.data.value| == s.size)
    && (!x.wrapped ==> if s.pending then Agrees(s, x) else s.data == Some(x.text))
  }

  /** For an admitted chunk nothing wraps that should not: it ends within the file, and short of the
      file's end unless it is the last. What could wrap exceeds the quota, which is a 64-bit number. */
  lemma ChunkFits(s: State, x: Sent, index: nat)
    requires Good(s, x) && s.Admits(index, s.Expected(index))
    ensures s.Start(index) <= s.size && Sub(s.size, s.Start(index)) == s.size - s.Start(index)
    ensures s.Last(index) ==> s.Start(index) + s.Expected(index) == s.size
    ensures !s.Last(index) ==> s.chunk > 0 && s.Start(index) + s.Expected(index) < s.size
    ensures index == 0 ==> s.Start(index) == 0
    ensures s.Expected(index) <= s.chunk || s.chunk == 0
  {
    hide Mul, Sub, Agrees;
    MulNext(index, s.chunk);
    SubIs(s.size, s.Start(index));
    ChunkLength(s, x, index);
  }

  /** Nothing longer than a chunk is expected. */
  lemma ChunkLength(s: State, x: Sent, index: nat)
    requires Good(s, x) && s.Start(index) <= s.stored
    ensures s.Expected(index) <= if s.chunk == 0 then s.size else s.chunk
  {
    hide Mul, Sub, Agrees;
    MulNext(index, s.chunk);
    SubIs(s.size, s.Start(index));
  }

  lemma Ordered(i: nat, j: nat, c: nat)
    requires i * c < (j + 1) * c
    ensures i <= j
  {
    if i > j {
      Scaled(j + 1, i, c);
      assert false;
    }
  }

  lemma Scaled(i: nat, j: nat, c: nat)
    requires i <= j
    ensures i * c <= j * c
  {
    assert j * c == i * c + (j - i) * c;
  }

  /** As long as nothing wraps the chunks come in order: none is beyond the next one to send, and the
      driver takes none that leaves a gap after the whole chunks in the object. */
  lemma InOrder(s: State, x: Sent, index: nat)
    requires Good(s, x) && !x.wrapped && s.pending && s.Start(index) <= s.stored && Plain(s, index)
    requires s.chunk == 0 ==> index == 0
    ensures s.Start(index) == index * s.chunk && index <= x.count && s.stored == x.count * s.chunk
    ensures s.Takes(index) ==> index <= x.whole && index * s.chunk <= x.whole * s.chunk
  {
    hide Mul, Bytes;
    MulNext(index, s.chunk);
    if s.chunk > 0 {
      UpTo(index, x.count, s.chunk);
    }
    if s.Takes(index) {
      TakenInOrder(s, x, index);
      Scaled(index, x.whole, s.chunk);
    }
  }

  lemma UpTo(i: nat, j: nat, c: nat)
    requires c > 0 && i * c <= j * c
    ensures i <= j
  {
    assert (j + 1) * c == j * c + c;
    Ordered(i, j, c);
  }

  lemma TakenInOrder(s: State, x: Sent, index: nat)
    requires AgreesTo(s, x, x.count * s.chunk, x.whole * s.chunk) && (s.chunk == 0 ==> index == 0)
    requires s.Takes(index) && s.Start(index) == index * s.chunk
    ensures index <= x.whole
  {
    hide Mul;
    if index > 0 {
      assert (x.whole + 1) * s.chunk == x.whole * s.chunk + s.chunk;
      Ordered(index, x.whole, s.chunk);
    }
  }

  /** The state after a request of which body arrives. */
  function Next(s: State, index: nat, length: nat, body: Content, fault: Fault): State {
    if !s.Admits(index, length) || !s.Takes(index) || |Bytes(s.data)| < s.Start(index) then s
    else
      var cut := Bytes(s.data)[..s.Start(index)];
      if |body| < length then s.(data := Some(cut + body))
      else if s.Hit(index, fault) then s.(data := Some(cut), stored := |cut|)
      else if s.Last(index) then
        s.(data := Some(cut + body), stored := |cut| + length, pending := false, alive := false)
      else s.(data := Some(cut + body), stored := |cut| + length)
  }

  /** What a request does: a chunk that is accepted is added at its start, and otherwise the record is at
      most cut back to it. */
  ghost predicate Outcome(s: State, x: Sent, s1: State, x1: Sent, index: nat, length: nat, body: Content,
                          fault: Fault, ok: bool) {
    && s1 == Next(s, index, length, body, fault)
    && (ok <==> s.Admits(index, length) && s.Takes(index) && |body| == length && !s.Hit(index, fault))
    && (if ok then
          && s.Start(index) <= |x.text| && x1.text == x.text[..s.Start(index)] + body && s1.stored == |x1.text|
          && (if s.Last(index) then !s1.pending && !s1.alive && s1.stored == s.size else s1.pending && s1.alive)
          && (Plain(s, index) && !x.wrapped ==> !x1.wrapped && index <= x.count && x1.count == index + 1)
        else
          s1.stored <= s.stored && s1.stored <= |x.text| && x1.text == x.text[..s1.stored]
            && s1.pending == s.pending && s1.alive == s.alive)
  }

  lemma Unchanged(s: State, x: Sent, index: nat, length: nat, body: Content, fault: Fault)
    requires Good(s, x) && !s.Admits(index, length)
    ensures Outcome(s, x, s, x, index, length, body, fault, false)
  {
  }

  lemma CutHere(data: Content, text: Content, n: nat, k: nat, body: Content)
    requires k <= n <= |data| && n <= |text| && data[..n] == text[..n]
    ensures (data[..k] + body)[..k] == text[..k] && data[..k] == text[..k]
  {
    assert data[..n][..k] == data[..k] && text[..n][..k] == text[..k];
  }

  /** The driver gave up: the object is as it was, or cut at the start and followed by a part of the
      chunk. */
  lemma NotStored(s: State, x: Sent, data: Option<Content>, index: nat, length: nat, body: Content, fault: Fault)
    requires Good(s, x) && s.Admits(index, length) && |body| <= length
    requires if s.Takes(index) then data == Some(Bytes(s.data)[..s.Start(index)] + body) && |body| < length
             else data == s.data
    ensures var s1 := s.(data := data);
            var x1 := x.(wrapped := x.wrapped || !Plain(s, index), whole := if s.Takes(index) then index else x.whole);
            Good(s1, x1) && Outcome(s, x, s1, x1, index, length, body, fault, false)
  {
    hide Mul, Sub, Plain, Agrees;
    ChunkFits(s, x, index);
    if !x.wrapped && Plain(s, index) {
      var s1, x1 := s.(data := data), x.(whole := if s.Takes(index) then index else x.whole);
      if s.Takes(index) {
        InOrder(s, x, index);
        CutAgrees(s, x, index, s1, x1, body);
      } else {
        SameAgrees(s, x, s1);
      }
    }
  }

  /** A chunk that is not taken never leaves a new empty object behind. */
  lemma NothingCreated(s: State, x: Sent, index: nat)
    requires Good(s, x) && s.Start(index) <= s.stored
    ensures s.data.None? ==> s.Takes(index)
  {
  }

  lemma SameAgrees(s: State, x: Sent, s1: State)
    requires Agrees(s, x) && s1.chunk == s.chunk && s1.stored == s.stored && Bytes(s1.data) == Bytes(s.data)
    ensures Agrees(s1, x)
  {
  }

  /** Cutting the object at a chunk that the driver takes, and adding some of it, leaves the chunks before
      it whole. */
  lemma CutAgrees(s: State, x: Sent, index: nat, s1: State, x1: Sent, body: Content)
    requires Good(s, x) && !x.wrapped && s.pending && s.Start(index) <= s.stored && Plain(s, index)
    requires s.chunk == 0 ==> index == 0
    requires s.Takes(index) && x1.whole == index && s1.chunk == s.chunk && (s1.stored > 0 ==> index > 0)
    requires s.Start(index) <= |x.text| && s.Start(index) <= |x1.text|
    requires x1.text[..s.Start(index)] == x.text[..s.Start(index)]
    requires s.Start(index) <= |Bytes(s.data)| && s1.data == Some(Bytes(s.data)[..s.Start(index)] + body)
    requires s.chunk > 0 ==> |body| < s.chunk
    requires s1.stored == x1.count * s.chunk && index <= x1.count
    ensures Agrees(s1, x1)
  {
    hide Mul, Plain;
    InOrder(s, x, index);
    CutHere(Bytes(s.data), x.text, x.whole * s.chunk, index * s.chunk, body);
    assert AgreesTo(s1, x1, x1.count * s.chunk, index * s.chunk);
  }

  /** A step after the driver failed: object and record are cut back to the start. */
  lemma Reset(s: State, x: Sent, index: nat, length: nat, body: Content, fault: Fault)
    requires Good(s, x) && s.Admits(index, length) && s.Takes(index) && |body| == length && s.Hit(index, fault)
    ensures s.Start(index) <= |x.text| && s.Start(index) <= |Bytes(s.data)|
    ensures var start := s.Start(index);
            var s1 := s.(data := Some(Bytes(s.data)[..start]), stored := start);
            var x1 := Sent(x.text[..start], index, index, x.wrapped || !Plain(s, index));
            Good(s1, x1) && Outcome(s, x, s1, x1, index, length, body, fault, false)
  {
    hide Mul, Sub, Plain, Agrees;
    ChunkFits(s, x, index);
    if !x.wrapped && Plain(s, index) {
      InOrder(s, x, index);
      var start := s.Start(index);
      var s1 := s.(data := Some(Bytes(s.data)[..start]), stored := start);
      var x1 := Sent(x.text[..start], index, index, false);
      assert Bytes(s.data)[..start] + [] == Bytes(s.data)[..start];
      assert index == 0 ==> start == 0;
      CutAgrees(s, x, index, s1, x1, []);
    }
  }

  /** The chunk is stored and recorded. */
  lemma Stored(s: State, x: Sent, index: nat, length: nat, body: Content, fault: Fault)
    requires Good(s, x) && s.Admits(index, length) && s.Takes(index) && |body| == length && !s.Hit(index, fault)
    ensures s.Start(index) <= |x.text| && s.Start(index) <= |Bytes(s.data)|
    ensures var start, more := s.Start(index), !s.Last(index);
            var s1 := s.(data := Some(Bytes(s.data)[..start] + body), stored := start + length,
                         pending := more, alive := more);
            var x1 := Sent(x.text[..start] + body, index + 1, index + 1, x.wrapped || !Plain(s, index));
            Good(s1, x1) && Outcome(s, x, s1, x1, index, length, body, fault, true)
  {
    hide Mul, Sub, Plain, Agrees;
    ChunkFits(s, x, index);
    if !x.wrapped && Plain(s, index) {
      AddAgrees(s, x, index, body);
    }
  }

  /** Adding a chunk that the driver takes: the object is then what was sent. */
  lemma AddAgrees(s: State, x: Sent, index: nat, body: Content)
    requires Good(s, x) && !x.wrapped && s.pending && s.Start(index) <= s.stored && Plain(s, index)
    requires s.chunk == 0 ==> index == 0
    requires s.Takes(index) && s.Start(index) <= |x.text| && s.Start(index) <= |Bytes(s.data)|
    ensures index <= x.count && Bytes(s.data)[..s.Start(index)] == x.text[..s.Start(index)]
    ensures |body| == s.chunk ==>
            var s1 := s.(data := Some(Bytes(s.data)[..s.Start(index)] + body), stored := s.Start(index) + |body|);
            Agrees(s1, Sent(x.text[..s.Start(index)] + body, index + 1, index + 1, false))
  {
    hide Mul, Plain;
    InOrder(s, x, index);
    CutHere(Bytes(s.data), x.text, x.whole * s.chunk, index * s.chunk, body);
    assert (index + 1) * s.chunk == index * s.chunk + s.chunk;
  }

  // ---- what a request does, without wrapping ----

  /** Where a chunk starts, whether it is the last, and how long it has to be. */
  lemma PlainNumbers(s: State, index: nat)
    requires Plain(s, index) && s.size < WORD
    ensures s.Start(index) == index * s.chunk
    ensures s.Last(index) <==> s.chunk == 0 || index * s.chunk + s.chunk >= s.size
    ensures index * s.chunk <= s.size ==>
              s.Expected(index) == if s.Last(index) then s.size - index * s.chunk else s.chunk
  {
    hide Mul, Sub;
    MulNext(index, s.chunk);
    assert (index + 1) * s.chunk == index * s.chunk + s.chunk;
    if index * s.chunk <= s.size {
      SubIs(s.size, index * s.chunk);
    }
  }

  /** The driver is asked exactly for a chunk that starts within what is recorded, and has the length of a
      chunk, or of the rest of the file, for which there is room. */
  lemma AdmitsIff(s: State, index: nat, length: nat)
    requires s.stored <= s.size < WORD && s.pending && Plain(s, index)
    ensures var start := index * s.chunk;
            s.Admits(index, length) <==>
            && s.alive && (s.chunk == 0 ==> index == 0) && start <= s.stored
            && length == (if s.chunk == 0 || start + s.chunk >= s.size then s.size - start else s.chunk)
            && (length > 0 ==> s.others + s.stored + length <= s.max)
  {
    hide Mul, Sub, Plain;
    PlainNumbers(s, index);
    AdmitsAt(s, index, length, index * s.chunk);
  }

  lemma AdmitsAt(s: State, index: nat, length: nat, start: nat)
    requires s.pending && s.stored <= s.size && s.Start(index) == start
    requires s.Last(index) <==> s.chunk == 0 || start + s.chunk >= s.size
    requires start <= s.size ==> s.Expected(index) == if s.Last(index) then s.size - start else s.chunk
    ensures s.Admits(index, length) <==>
            && s.alive && (s.chunk == 0 ==> index == 0) && start <= s.stored
            && length == (if s.chunk == 0 || start + s.chunk >= s.size then s.size - start else s.chunk)
            && (length > 0 ==> s.others + s.stored + length <= s.max)
  {
    hide Mul, Sub;
  }

  /** And what becomes of it: a chunk that breaks off replaces what is in the object from its start, a step that
      fails after it cuts object and record back to its start, and otherwise both end where the chunk does. */
  lemma NextMeans(s: State, index: nat, length: nat, body: Content, fault: Fault)
    requires s.size < WORD && s.pending && Plain(s, index) && |body| <= length
    ensures var start, s1, data := index * s.chunk, Next(s, index, length, body, fault), Bytes(s.data);
            var takes := if index == 0 then s.data.None? else start <= |data|;
            var last := s.chunk == 0 || start + s.chunk >= s.size;
            var fails := fault == SizeNotUpdated || (fault == NotPopped && last);
            if !s.Admits(index, length) || !takes then s1 == s
            else
              && start <= |data|
              && s1.data == Some(data[..start] + if |body| == length && fails then [] else body)
              && s1.stored == (if |body| < length then s.stored else if fails then start else start + length)
              && (s1.pending <==> |body| < length || fails || !last) && (s1.alive <==> s1.pending)
              && s1.(data := s.data, stored := s.stored, pending := true, alive := true) == s
  {
    hide Mul, Sub, Plain, Next;
    PlainNumbers(s, index);
    NextAt(s, index, length, body, fault, index * s.chunk);
  }

  lemma NextAt(s: State, index: nat, length: nat, body: Content, fault: Fault, start: nat)
    requires s.pending && s.Start(index) == start && |body| <= length && (index == 0 ==> start == 0)
    ensures var s1, data, last := Next(s, index, length, body, fault), Bytes(s.data), s.Last(index);
            var fails := fault == SizeNotUpdated || (fault == NotPopped && last);
            if !s.Admits(index, length) || !s.Takes(index) then s1 == s
            else
              && start <= |data|
              && s1.data == Some(data[..start] + if |body| == length && fails then [] else body)
              && s1.stored == (if |body| < length then s.stored else if fails then start else start + length)
              && (s1.pending <==> |body| < length || fails || !last) && (s1.alive <==> s1.pending)
              && s1.(data := s.data, stored := s.stored, pending := true, alive := true) == s
  {
    hide Mul, Sub;
    if s.Admits(index, length) && s.Takes(index) {
      assert Bytes(s.data)[..start] + [] == Bytes(s.data)[..start];
    }
  }

  // ---- sessions that can no longer be finished ----

  /** Something of the first chunk is on disk but nothing is recorded. */
  predicate Stuck(s: State) {
    s.pending && s.data.Some? && s.stored == 0
  }

  /** With room for a chunk, an unfinished upload can go on exactly when it is not stuck. */
  lemma StuckIff(s: State, x: Sent)
    requires Good(s, x) && !x.wrapped && s.alive && s.pending
    requires s.others + (if s.chunk == 0 then s.size else s.stored + s.chunk) <= s.max
    ensures (exists index, length :: Plain(s, index) && s.Admits(index, length) && s.Takes(index)) <==> !Stuck(s)
  {
    hide Mul, Sub;
    MulNext(0, s.chunk);
    forall index, length | Plain(s, index) && s.Admits(index, length) && s.Takes(index)
      ensures !Stuck(s)
    {
      StuckRefuses(s, x, index, length);
    }
    if !Stuck(s) {
      var index := if s.data.None? then 0 else x.whole;
      assert (index + 1) * s.chunk == index * s.chunk + s.chunk;
      Scaled(x.whole, x.count, s.chunk);
      MulNext(index, s.chunk);
      ChunkLength(s, x, index);
      assert s.Admits(index, s.Expected(index)) && s.Takes(index);
    }
  }

  /** A stuck upload refuses every chunk, and stays as it is. */
  lemma StuckRefuses(s: State, x: Sent, index: nat, length: nat)
    requires Good(s, x) && s.pending && Plain(s, index)
    ensures Stuck(s) ==> !(s.Admits(index, length) && s.Takes(index))
    ensures forall body, fault :: Stuck(s) ==> Next(s, index, length, body, fault) == s
  {
    hide Mul;
    MulNext(index, s.chunk);
    if index > 0 && s.chunk > 0 {
      Scaled(1, index, s.chunk);
    }
  }

  /** An upload gets stuck as soon as its first chunk reaches the disk and does not succeed. */
  lemma FirstFailureSticks(s: State, index: nat, length: nat, body: Content, fault: Fault)
    requires s.data.None? && s.stored == 0 && s.Admits(index, length) && s.Takes(index) && |body| <= length
    ensures Stuck(Next(s, index, length, body, fault)) <==> |body| < length || s.Hit(index, fault)
    ensures !Stuck(Next(s, index, length, body, fault)) ==> Next(s, index, length, body, fault).stored == length
  {
  }

  // ---- whole uploads ----

  /** A request, with what the rest of the user's files take up when it comes. */
  datatype Request = Request(others: nat, index: nat, length: nat, body: Content, fault: Fault) {
    predicate Possible() {
      |body| <= length
    }
  }

  function Run(s: State, requests: seq<Request>): State
    decreases |requests|
  {
    if requests == [] then s
    else var r := requests[|requests| - 1];
         Next(Run(s, requests[..|requests| - 1]).(others := r.others), r.index, r.length, r.body, r.fault)
  }

  /** What was sent, from the requests alone: an accepted chunk replaces everything from its start, a
      failure after the driver takes away everything from its start. */
  function Text(s: State, requests: seq<Request>): Content
    decreases |requests|
  {
    if requests == [] then []
    else
      var r, front := requests[|requests| - 1], requests[..|requests| - 1];
      var s0, text := Run(s, front).(others := r.others), Text(s, front);
      if !s0.Admits(r.index, r.length) || !s0.Takes(r.index) || |r.body| < r.length
         || s0.Start(r.index) > |text| then text
      else text[..s0.Start(r.index)] + if s0.Hit(r.index, r.fault) then [] else r.body
  }

  lemma StepGood(s: State, x: Sent, r: Request) returns (x1: Sent)
    requires Good(s, x) && r.Possible()
    ensures var s1 := Next(s, r.index, r.length, r.body, r.fault);
            Good(s1, x1) && exists ok :: Outcome(s, x, s1, x1, r.index, r.length, r.body, r.fault, ok)
    ensures Plain(s, r.index) && !x.wrapped ==> !x1.wrapped
    ensures x1.text == if !s.Admits(r.index, r.length) || !s.Takes(r.index) || |r.body| < r.length
                          || s.Start(r.index) > |x.text| then x.text
                       else x.text[..s.Start(r.index)] + if s.Hit(r.index, r.fault) then [] else r.body
  {
    hide Good, Mul, Sub, Plain;
    var index, length, body, fault := r.index, r.length, r.body, r.fault;
    if !s.Admits(index, length) {
      Unchanged(s, x, index, length, body, fault);
      x1 := x;
    } else if !s.Takes(index) || |body| < length {
      MulNext(index, s.chunk);
      var data := if s.Takes(index) then Some(Bytes(s.data)[..s.Start(index)] + body) else s.data;
      NotStored(s, x, data, index, length, body, fault);
      x1 := x.(wrapped := x.wrapped || !Plain(s, index), whole := if s.Takes(index) then index else x.whole);
    } else if s.Hit(index, fault) {
      Reset(s, x, index, length, body, fault);
      x1 := Sent(x.text[..s.Start(index)], index, index, x.wrapped || !Plain(s, index));
    } else {
      Stored(s, x, index, length, body, fault);
      x1 := Sent(x.text[..s.Start(index)] + body, index + 1, index + 1, x.wrapped || !Plain(s, index));
    }
  }

  lemma OthersGood(s: State, x: Sent, others: nat)
    requires Good(s, x)
    ensures Good(s.(others := others), x)
  {
  }

  /** After any requests whatever, the record is within the size of the session, and an upload that is
      finished has an object of exactly that size. If no product has wrapped, the object of a finished
      upload is what was sent. */
  lemma {:induction false} AnyRun(size: nat, chunk: nat, max: nat, others: nat, requests: seq<Request>)
    requires size < WORD && max < WORD && forall r :: r in requests ==> r.Possible()
    ensures var s0 := State(size, chunk, max, 0, others, None, true, true);
            var s := Run(s0, requests);
            && s.stored <= s.size == size && (!s.pending ==> s.stored == size && s.data.Some? && |s.data.value| == size)
            && ((forall r :: r in requests ==> Plain(s0, r.index)) && !s.pending ==> s.data == Some(Text(s0, requests)))
  {
    var x := RunSent(size, chunk, max, others, requests);
  }

  lemma {:induction false} RunSent(size: nat, chunk: nat, max: nat, others: nat, requests: seq<Request>)
    returns (x: Sent)
    requires size < WORD && max < WORD && forall r :: r in requests ==> r.Possible()
    ensures var s0 := State(size, chunk, max, 0, others, None, true, true);
            Good(Run(s0, requests), x) && x.text == Text(s0, requests)
            && Run(s0, requests).size == size && Run(s0, requests).chunk == chunk
            && ((forall r :: r in requests ==> Plain(s0, r.index)) ==> !x.wrapped)
    decreases |requests|
  {
    var s0 := State(size, chunk, max, 0, others, None, true, true);
    if requests == [] {
      x := Sent([], 0, 0, false);
    } else {
      hide Good;
      var n := |requests| - 1;
      var front := RunSent(size, chunk, max, others, requests[..n]);
      OthersGood(Run(s0, requests[..n]), front, requests[n].others);
      x := StepGood(Run(s0, requests[..n]).(others := requests[n].others), front, requests[n]);
    }
  }

  class Session {
    const size: nat
    const chunk: nat
    const max: nat
    var stored: nat
    var others: nat
    var data: Option<Content>
    var pending: bool
    var alive: bool
    ghost var sent: Sent

    ghost function Now(): State
      reads this
    {
      State(size, chunk, max, stored, others, data, pending, alive)
    }

    ghost predicate Valid()
      reads this
    {
      Good(Now(), sent)
    }

    ghost predicate WithinQuota()
      reads this
    {
      others + stored <= max
    }

    /** A session is created only if the whole file would fit; its record starts empty. */
    constructor (size: nat, chunk: nat, max: nat, others: nat)
      requires max < WORD && size <= if max <= others then 0 else max - others
      ensures Valid() && Now() == State(size, chunk, max, 0, others, None, true, true) && sent == Sent([], 0, 0, false)
    {
      this.size, this.chunk, this.max, this.others := size, chunk, max, others;
      stored, data, pending, alive, sent := 0, None, true, true, Sent([], 0, 0, false);
    }

    /** Put of the local driver in append mode: body is what arrives of length bytes. */
    method Put(start: nat, body: Content, length: nat, overwrite: bool) returns (ok: bool)
      requires |body| <= length
      modifies `data
      ensures if (!overwrite && old(data).Some?) || |Bytes(old(data))| < start
              then !ok && Bytes(data) == Bytes(old(data)) && (old(data).Some? ==> data == old(data))
              else data == Some(Bytes(old(data))[..start] + body) && (ok <==> |body| == length)
    {
      if !overwrite && data.Some? {
        return false;
      }
      var out := if data.Some? then data.value else [];
      data := Some(out);
      if |out| < start {
        return false;
      } else if |out| > start {
        out := out[..start];
      }
      assert out == Bytes(old(data))[..start];
      data, ok := Some(out + body), |body| == length;
    }

    method UpdateSize(value: nat)
      modifies `stored
      ensures stored == value
    {
      stored := value;
    }

    /** Puts object and record back to the start of the chunk when a step after the driver fails. */
    method AfterValidateFailed(start: nat)
      requires data.Some? && start <= |data.value|
      modifies `stored, `data
      ensures stored == start && data == Some(old(data).value[..start])
    {
      data := Some(data.value[..start]);
      UpdateSize(start);
    }

    /** One request: chunk index of this Content-Length, of which body arrives. */
    method LocalUpload(index: nat, length: nat, body: Content, fault: Fault) returns (ok: bool)
      requires Valid() && |body| <= length
      modifies `stored, `data, `pending, `alive, `sent
      ensures Valid() && Outcome(old(Now()), old(sent), Now(), sent, index, length, body, fault, ok)
      ensures old(WithinQuota()) ==> WithinQuota()
    {
      hide Good;
      if !alive || !pending {
        Unchanged(Now(), sent, index, length, body, fault);
        return false;
      }
      var start := Mul(index, chunk);
      if chunk == 0 && index > 0 {
        Unchanged(Now(), sent, index, length, body, fault);
        return false;
      }
      if stored < start {
        Unchanged(Now(), sent, index, length, body, fault);
        return false;
      }
      ok := ProcessChunk(index, length, body, fault);
    }

    method ProcessChunk(index: nat, length: nat, body: Content, fault: Fault) returns (ok: bool)
      requires Valid() && |body| <= length && alive && pending && Mul(index, chunk) <= stored
      requires chunk == 0 ==> index == 0
      modifies `stored, `data, `pending, `alive, `sent
      ensures Valid() && Outcome(old(Now()), old(sent), Now(), sent, index, length, body, fault, ok)
      ensures old(WithinQuota()) ==> WithinQuota()
    {
      hide Good, Outcome, Mul, Sub, Plain, Next;
      ghost var s, x := Now(), sent;
      var start := Mul(index, chunk);
      var last := chunk == 0 || Mul(index + 1, chunk) >= size;
      var expected := chunk;
      if last {
        expected := Sub(size, start);
      }
      if length != expected || (if max <= others + stored then 0 else max - (others + stored)) < length {
        Unchanged(s, x, index, length, body, fault);
        return false;
      }
      ChunkFits(s, x, index);
      var put := Put(start, body, length, index > 0);
      if !put {
        NothingCreated(s, x, index);
        NotStored(s, x, data, index, length, body, fault);
        sent := x.(wrapped := x.wrapped || !Plain(s, index), whole := if s.Takes(index) then index else x.whole);
        return false;
      }
      if fault == SizeNotUpdated || (fault == NotPopped && last) {
        if fault == NotPopped {
          UpdateSize(start + length);
        }
        Reset(s, x, index, length, body, fault);
        AfterValidateFailed(start);
        sent := Sent(x.text[..start], index, index, x.wrapped || !Plain(s, index));
        return false;
      }
      Stored(s, x, index, length, body, fault);
      UpdateSize(start + length);
      if last {
        pending := false;
        alive := false;
      }
      sent, ok := Sent(x.text[..start] + body, index + 1, index + 1, x.wrapped || !Plain(s, index)), true;
    }
  }
}
