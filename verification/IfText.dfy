/** The texts of an If header: its tokens written out with blanks between them. The parser accepts
    exactly the texts of the grammar, and reading back what was written gives the same header. */
module IfText {
  import opened IfGrammar
  import opened IfHeader
  import opened LockTable
  import opened Wrappers

  function Text(t: Token): string {
    match t
    case Not => "Not"
    case Punct(c) => [c]
    case Str(text) => text
    case Angle(text) => "<" + text + ">"
    case Square(text) => "[" + text + "]"
    case _ => ""
  }

  /** A token that runs into the next one unless something separates them. */
  predicate Word(t: Token) {
    t.Str? || t.Not?
  }

  predicate AllBlank(b: string) {
    forall k :: 0 <= k < |b| ==> Blank(b[k])
  }

  /** The text of ts, with blanks[i] before the token ts[i]. */
  function Print(ts: seq<Token>, blanks: seq<string>): string
    requires |blanks| == |ts|
  {
    if ts == [] then "" else blanks[0] + Text(ts[0]) + Print(ts[1..], blanks[1..])
  }

  /** Blanks are blank, and two words in a row are kept apart. */
  ghost predicate Fits(ts: seq<Token>, blanks: seq<string>) {
    && |blanks| == |ts|
    && (forall i :: 0 <= i < |ts| ==> AllBlank(blanks[i]))
    && (forall i :: 0 < i < |ts| && Word(ts[i - 1]) && Word(ts[i]) ==> blanks[i] != "")
  }

  // ---- one token ----

  lemma {:induction false} SkipBlanksOf(b: string, r: string)
    requires AllBlank(b) && (r == "" || !Blank(r[0]))
    ensures SkipBlanks(b + r) == r
  {
    if b == "" {
      assert b + r == r;
    } else {
      assert (b + r)[1..] == b[1..] + r;
      SkipBlanksOf(b[1..], r);
    }
  }

  lemma {:induction false} WordLengthOf(w: string, r: string)
    requires (forall k :: 0 <= k < |w| ==> !Delimiter(w[k])) && (r == "" || Delimiter(r[0]))
    ensures WordLength(w + r) == |w|
  {
    if w == "" {
      assert w + r == r;
    } else {
      assert (w + r)[1..] == w[1..] + r;
      WordLengthOf(w[1..], r);
    }
  }

  lemma {:induction false} IndexOfIn(w: string, c: char, r: string)
    requires c !in w
    ensures IndexOf(w + [c] + r, c) == |w|
  {
    var s := w + [c] + r;
    assert s[|w|] == c;
    assert forall k :: 0 <= k < |w| ==> s[k] == w[k] && w[k] in w;
  }

  lemma FirstOfWord(u: string, t: Token, r: string)
    requires Writable(t) && Word(t) && (r == "" || Delimiter(r[0])) && u == Text(t) + r
    ensures First(u) == (t, r)
  {
    FirstCharacter(t);
    SkipBlanksOf("", u);
    assert "" + u == u;
    WordLengthOf(Text(t), r);
    assert u[..|Text(t)|] == Text(t) && u[|Text(t)|..] == r;
  }

  lemma FirstOfBracket(u: string, t: Token, r: string)
    requires Writable(t) && (t.Angle? || t.Square?) && u == Text(t) + r
    ensures First(u) == (t, r)
  {
    var open, close := if t.Angle? then '<' else '[', if t.Angle? then '>' else ']';
    IndexOfIn([open] + t.text, close, r);
    assert u == [open] + t.text + [close] + r;
    assert u[1..|t.text| + 1] == t.text && u[|t.text| + 2..] == r;
    assert Delimiter(u[0]) && SkipBlanks(u) == u && WordLength(u) == 0;
  }

  lemma FirstOfPunct(u: string, t: Token, r: string)
    requires Writable(t) && t.Punct? && u == Text(t) + r
    ensures First(u) == (t, r)
  {
    assert u[0] == t.c && u[1..] == r;
    assert Delimiter(u[0]) && SkipBlanks(u) == u && WordLength(u) == 0;
  }

  /** Blanks before a token do not matter. */
  lemma {:induction false} FirstSkips(b: string, u: string)
    requires AllBlank(b)
    ensures First(b + u) == First(u)
  {
    if b == "" {
      assert b + u == u;
    } else {
      assert (b + u)[1..] == b[1..] + u;
      FirstSkips(b[1..], u);
      assert SkipBlanks(b + u) == SkipBlanks(b[1..] + u);
    }
  }

  /** Lexing the text of a token gives back the token. */
  lemma FirstOfText(b: string, t: Token, r: string)
    requires AllBlank(b) && Writable(t) && (Word(t) ==> r == "" || Delimiter(r[0]))
    ensures First(b + Text(t) + r) == (t, r)
  {
    hide First, Writable, Text;
    var u := Text(t) + r;
    assert b + Text(t) + r == b + u;
    FirstSkips(b, u);
    WritableKinds(t);
    if Word(t) {
      FirstOfWord(u, t, r);
    } else if t.Punct? {
      FirstOfPunct(u, t, r);
    } else {
      FirstOfBracket(u, t, r);
    }
  }

  lemma WritableKinds(t: Token)
    requires Writable(t)
    ensures Word(t) || t.Punct? || t.Angle? || t.Square?
  {
  }

  lemma FirstCharacter(t: Token)
    requires Writable(t)
    ensures Text(t) != "" && !Blank(Text(t)[0]) && (Word(t) <==> !Delimiter(Text(t)[0]))
  {
  }

  lemma {:induction false} BlanksBefore(s: string) returns (b: string)
    ensures AllBlank(b) && s == b + SkipBlanks(s)
  {
    if s != "" && Blank(s[0]) {
      var b1 := BlanksBefore(s[1..]);
      b := [s[0]] + b1;
    } else {
      b := "";
    }
  }

  lemma TextAt(u: string)
    requires First(u).0 !in {Unclosed, Eof} && (u == "" || !Blank(u[0]))
    ensures var (t, r) := First(u); u == Text(t) + r && (Word(t) ==> r == "" || Delimiter(r[0]))
  {
    var (t, r) := First(u);
    if t.Angle? {
      assert u == "<" + u[1..|t.text| + 1] + ">" + r;
    } else if t.Square? {
      assert u == "[" + u[1..|t.text| + 1] + "]" + r;
    }
  }

  /** A token that lexes off the front of s is written there. */
  lemma TextOfFirst(s: string) returns (b: string)
    requires First(s).0 !in {Unclosed, Eof}
    ensures var (t, r) := First(s); AllBlank(b) && s == b + Text(t) + r && (Word(t) ==> r == "" || Delimiter(r[0]))
  {
    b := BlanksBefore(s);
    var u := SkipBlanks(s);
    FirstSkips(b, u);
    hide First, Text;
    TextAt(u);
    assert b + u == b + Text(First(s).0) + First(s).1;
  }

  // ---- a sequence of tokens ----

  lemma FitsTail(ts: seq<Token>, blanks: seq<string>)
    requires ts != [] && Fits(ts, blanks)
    ensures Fits(ts[1..], blanks[1..])
  {
    forall i | 0 < i < |ts[1..]| && Word(ts[1..][i - 1]) && Word(ts[1..][i])
      ensures blanks[1..][i] != ""
    {
      assert ts[1..][i] == ts[i + 1] && ts[1..][i - 1] == ts[i];
    }
  }

  lemma StartsWithDelimiter(ts: seq<Token>, blanks: seq<string>)
    requires |ts| > 1 && Fits(ts, blanks) && AllWritable(ts) && Word(ts[0])
    ensures var r := Print(ts[1..], blanks[1..]); r != "" && Delimiter(r[0])
  {
    FirstCharacter(ts[1]);
    var r := Print(ts[1..], blanks[1..]);
    assert r == blanks[1] + Text(ts[1]) + Print(ts[1..][1..], blanks[1..][1..]);
    if blanks[1] == "" {
      assert r[0] == Text(ts[1])[0];
    } else {
      assert r[0] == blanks[1][0];
    }
  }

  /** Whatever blanks are written, the tokens are read back. */
  lemma {:induction false} LexesPrint(ts: seq<Token>, blanks: seq<string>)
    requires Fits(ts, blanks) && AllWritable(ts)
    ensures Lexes(Print(ts, blanks), ts, "")
    decreases |ts|
  {
    if ts != [] {
      FitsTail(ts, blanks);
      if Word(ts[0]) && |ts| > 1 {
        StartsWithDelimiter(ts, blanks);
      }
      FirstOfText(blanks[0], ts[0], Print(ts[1..], blanks[1..]));
      LexesPrint(ts[1..], blanks[1..]);
    }
  }

  /** A text that lexes to ts is ts written with some blanks. */
  lemma {:induction false} PrintOfLexes(s: string, ts: seq<Token>) returns (blanks: seq<string>)
    requires Lexes(s, ts, "") && AllWritable(ts)
    ensures Fits(ts, blanks) && s == Print(ts, blanks)
    decreases |ts|
  {
    if ts == [] {
      blanks := [];
    } else {
      var b := TextOfFirst(s);
      var r := First(s).1;
      var tail := PrintOfLexes(r, ts[1..]);
      blanks := [b] + tail;
      assert blanks[1..] == tail;
      forall i | 0 < i < |ts| && Word(ts[i - 1]) && Word(ts[i])
        ensures blanks[i] != ""
      {
        if i == 1 {
          FirstCharacter(ts[1]);
          assert r == tail[0] + Text(ts[1]) + Print(ts[1..][1..], tail[1..]);
        } else {
          assert ts[1..][i - 1] == ts[i] && ts[1..][i - 2] == ts[i - 1];
        }
      }
    }
  }

  // ---- whole headers ----

  lemma {:induction false} ListsTokensAreTexts(ls: seq<List>, k: nat)
    requires k < |ListsTokens(ls)|
    ensures ListsTokens(ls)[k] !in {Unclosed, Eof}
    decreases |ls|
  {
    if k < |ListTokens(ls[0])| {
      CondsTokensAreTexts(ls[0]);
      assert ListsTokens(ls)[k] == ListTokens(ls[0])[k];
    } else {
      ListsTokensAreTexts(ls[1..], k - |ListTokens(ls[0])|);
    }
  }

  lemma {:induction false} CondsTokensAreTexts(l: List)
    ensures forall k :: 0 <= k < |CondsTokens(l)| ==> CondsTokens(l)[k] !in {Unclosed, Eof}
  {
    if l != [] {
      CondsTokensAreTexts(l[1..]);
    }
  }

  lemma {:induction false} GroupsTokensAreTexts(gs: seq<Group>, k: nat)
    requires k < |GroupsTokens(gs)|
    ensures GroupsTokens(gs)[k] !in {Unclosed, Eof}
    decreases |gs|
  {
    var lists := ListsTokens(gs[0].lists);
    if 0 < k <= |lists| {
      ListsTokensAreTexts(gs[0].lists, k - 1);
      assert GroupsTokens(gs)[k] == lists[k - 1];
    } else if k > 0 {
      GroupsTokensAreTexts(gs[1..], k - 1 - |lists|);
      assert GroupsTokens(gs)[k] == GroupsTokens(gs[1..])[k - 1 - |lists|];
    }
  }

  /** The tokens of a header are read off its trimmed text exactly when the parser accepts it. */
  lemma AcceptsHeader(s: string, h: Header)
    requires Proper(h) && Lexes(s, HeaderTokens(h), "") && TrimSpace(s) == s
    ensures HeaderOf(s) == Some(HeaderValue(h))
  {
    match h
    case Untagged(lists) =>
      NoTagListsComplete(s, lists, []);
      assert [] + ListsValue("", lists) == ListsValue("", lists);
    case Tagged(groups) =>
      assert RestTokens([], groups) == GroupsTokens(groups);
      TaggedListsComplete(s, true, "", 0, [], [], groups);
      assert RestValue([], "", [], groups) == GroupsValue(groups);
  }

  lemma AcceptedIsHeader(s: string) returns (h: Header)
    requires HeaderOf(s).Some?
    ensures Proper(h) && Lexes(TrimSpace(s), HeaderTokens(h), "") && HeaderValue(h) == HeaderOf(s).value
  {
    var u := TrimSpace(s);
    if First(u).0.Angle? {
      var ls, gs := TaggedListsSound(u, true, "", 0, []);
      h := Tagged(gs);
      assert RestTokens(ls, gs) == GroupsTokens(gs);
      assert RestValue([], "", ls, gs) == GroupsValue(gs);
      forall k | 0 <= k < |GroupsTokens(gs)|
        ensures GroupsTokens(gs)[k] !in {Unclosed, Eof}
      {
        GroupsTokensAreTexts(gs, k);
      }
    } else {
      var ls := NoTagListsSound(u, []);
      h := Untagged(ls);
      assert [] + ListsValue("", ls) == ListsValue("", ls);
      forall k | 0 <= k < |ListsTokens(ls)|
        ensures ListsTokens(ls)[k] !in {Unclosed, Eof}
      {
        ListsTokensAreTexts(ls, k);
      }
    }
    LexesWritable(u, HeaderTokens(h), "");
  }

  /** The text s, once trimmed, is the header h written with some blanks. */
  ghost predicate Writes(s: string, h: Header) {
    exists blanks :: Fits(HeaderTokens(h), blanks) && TrimSpace(s) == Print(HeaderTokens(h), blanks)
  }

  /** The parser accepts a text, and reads the lists off it, exactly when the text is a header of
      the grammar that means those lists. */
  lemma ParserIsGrammar(s: string, lists: seq<IfList>)
    ensures HeaderOf(s) == Some(lists) <==> exists h :: Proper(h) && HeaderValue(h) == lists && Writes(s, h)
  {
    if HeaderOf(s) == Some(lists) {
      var h := AcceptedIsHeader(s);
      var blanks := PrintOfLexes(TrimSpace(s), HeaderTokens(h));
      assert Writes(s, h);
    }
    if h :| Proper(h) && HeaderValue(h) == lists && Writes(s, h) {
      var blanks :| Fits(HeaderTokens(h), blanks) && TrimSpace(s) == Print(HeaderTokens(h), blanks);
      LexesPrint(HeaderTokens(h), blanks);
      TrimTwice(s);
      AcceptsHeader(TrimSpace(s), h);
    }
  }

  lemma {:induction false} TrimTwice(s: string)
    ensures TrimSpace(TrimSpace(s)) == TrimSpace(s)
    decreases |s|
  {
    if s != "" && Space(s[0]) {
      TrimTwice(s[1..]);
    } else if s != "" && Space(s[|s| - 1]) {
      TrimTwice(s[..|s| - 1]);
    }
  }

  // ---- reading back ----

  predicate AllSpace(s: string) {
    forall k :: 0 <= k < |s| ==> Space(s[k])
  }

  lemma {:induction false} TrimSpaceOf(lead: string, x: string, trail: string)
    requires AllSpace(lead) && AllSpace(trail) && x != "" && !Space(x[0]) && !Space(x[|x| - 1])
    ensures TrimSpace(lead + x + trail) == x
    decreases |lead| + |trail|
  {
    var s := lead + x + trail;
    if lead != "" {
      assert s[1..] == lead[1..] + x + trail;
      TrimSpaceOf(lead[1..], x, trail);
    } else if trail != "" {
      assert s[0] == x[0];
      assert s[..|s| - 1] == lead + x + trail[..|trail| - 1];
      TrimSpaceOf(lead, x, trail[..|trail| - 1]);
    } else {
      assert s == x;
    }
  }

  /** A header starts and ends with a delimiter. */
  lemma {:induction false} ListsEnds(ls: seq<List>)
    requires ls != []
    ensures var ts := ListsTokens(ls); ts != [] && ts[0] == Punct('(') && ts[|ts| - 1] == Punct(')')
  {
    var ts := ListsTokens(ls);
    assert ts[0] == ListTokens(ls[0])[0];
    if |ls| == 1 {
      assert ListsTokens(ls[1..]) == [];
      assert ts == ListTokens(ls[0]) + ListsTokens(ls[1..]);
    } else {
      ListsEnds(ls[1..]);
      assert ts[|ts| - 1] == ListsTokens(ls[1..])[|ListsTokens(ls[1..])| - 1];
    }
  }

  lemma {:induction false} GroupsEnds(gs: seq<Group>)
    requires gs != [] && ProperGroups(gs)
    ensures var ts := GroupsTokens(gs); ts != [] && ts[0].Angle? && ts[|ts| - 1] == Punct(')')
    decreases |gs|
  {
    var ts, lists := GroupsTokens(gs), ListsTokens(gs[0].lists);
    ListsEnds(gs[0].lists);
    if |gs| == 1 {
      assert GroupsTokens(gs[1..]) == [];
      assert ts == [Angle(gs[0].tag)] + (lists + GroupsTokens(gs[1..]));
    } else {
      GroupsEnds(gs[1..]);
      var tail := GroupsTokens(gs[1..]);
      assert ts[|ts| - 1] == tail[|tail| - 1];
    }
  }

  lemma {:induction false} PrintEnds(ts: seq<Token>, blanks: seq<string>)
    requires ts != [] && |blanks| == |ts| && Text(ts[|ts| - 1]) != ""
    ensures var p, last := Print(ts, blanks), Text(ts[|ts| - 1]); p != "" && p[|p| - 1] == last[|last| - 1]
    decreases |ts|
  {
    hide Text;
    var tail := Print(ts[1..], blanks[1..]);
    assert Print(ts, blanks) == (blanks[0] + Text(ts[0])) + tail;
    if |ts| > 1 {
      PrintEnds(ts[1..], blanks[1..]);
    }
  }

  lemma HeaderEnds(h: Header)
    requires Proper(h)
    ensures var ts := HeaderTokens(h);
      ts != [] && AllWritable(ts) && (ts[0] == Punct('(') || ts[0].Angle?) && ts[|ts| - 1] == Punct(')')
  {
    match h {
      case Untagged(lists) => ListsEnds(lists);
      case Tagged(groups) => GroupsEnds(groups);
    }
  }

  lemma DelimitersAreNotSpace()
    ensures !Space('(') && !Space('<') && !Space(')')
  {
  }

  /** The blanks before the first token are free. */
  lemma TightFits(ts: seq<Token>, blanks: seq<string>)
    requires Fits(ts, blanks) && ts != []
    ensures Fits(ts, [""] + blanks[1..]) && |blanks| == |ts| && AllBlank(blanks[0])
  {
  }

  /** A header's text, without the blanks before it, starts and ends with a delimiter. */
  lemma TextEnds(ts: seq<Token>, blanks: seq<string>) returns (body: string, tight: seq<string>)
    requires Fits(ts, blanks) && |blanks| == |ts| && ts != [] && (ts[0] == Punct('(') || ts[0].Angle?)
    requires ts[|ts| - 1] == Punct(')')
    ensures AllBlank(blanks[0]) && Print(ts, blanks) == blanks[0] + body
    ensures Fits(ts, tight) && Print(ts, tight) == body
    ensures body != "" && !Space(body[0]) && !Space(body[|body| - 1])
  {
    hide Space, Fits, Print;
    DelimitersAreNotSpace();
    TightFits(ts, blanks);
    body, tight := Text(ts[0]) + Print(ts[1..], blanks[1..]), [""] + blanks[1..];
    assert tight[1..] == blanks[1..];
    PrintStep(ts, blanks);
    PrintStep(ts, tight);
    assert "" + body == body;
    PrintEnds(ts, tight);
    assert body[0] == Text(ts[0])[0];
  }

  lemma PrintStep(ts: seq<Token>, blanks: seq<string>)
    requires ts != [] && |blanks| == |ts|
    ensures Print(ts, blanks) == blanks[0] + (Text(ts[0]) + Print(ts[1..], blanks[1..]))
  {
    hide Text;
    assert Print(ts, blanks) == blanks[0] + Text(ts[0]) + Print(ts[1..], blanks[1..]);
  }

  lemma {:induction false} BlankIsSpace(b: string)
    requires AllBlank(b)
    ensures AllSpace(b)
  {
  }

  /** Reading back a written header gives its lists, whatever blanks were put between the tokens and
      whatever space around the text. */
  lemma RoundTrip(h: Header, blanks: seq<string>, lead: string, trail: string)
    requires Proper(h) && Fits(HeaderTokens(h), blanks) && AllSpace(lead) && AllSpace(trail)
    ensures HeaderOf(lead + Print(HeaderTokens(h), blanks) + trail) == Some(HeaderValue(h))
  {
    hide HeaderTokens, HeaderOf, HeaderValue, Print, Proper, Space;
    HeaderEnds(h);
    var body, tight := TextEnds(HeaderTokens(h), blanks);
    var s := lead + Print(HeaderTokens(h), blanks) + trail;
    assert s == (lead + blanks[0]) + body + trail;
    BlankIsSpace(blanks[0]);
    TrimSpaceOf(lead + blanks[0], body, trail);
    assert Writes(s, h);
    ParserIsGrammar(s, HeaderValue(h));
  }

  // ---- every header value can be written ----

  /** A value that has a text: conditions of one token or one entity tag, free of their closing
      delimiter, in non-empty lists. */
  ghost predicate Printable(lists: seq<IfList>) {
    lists != [] && forall i :: 0 <= i < |lists| ==> PrintableList(lists[i])
  }

  ghost predicate PrintableList(l: IfList) {
    '>' !in l.resourceTag && l.conditions != [] && forall j :: 0 <= j < |l.conditions| ==>
      PrintableCondition(l.conditions[j])
  }

  predicate PrintableCondition(c: Condition) {
    (c.etag == "" && '>' !in c.token) || (c.token == "" && ']' !in c.etag)
  }

  function CondFor(c: Condition): Cond {
    Cond(c.not, if c.etag == "" then Coded(c.token) else EntityTag(c.etag))
  }

  function CondsFor(cs: seq<Condition>): List {
    if cs == [] then [] else [CondFor(cs[0])] + CondsFor(cs[1..])
  }

  function GroupsFor(lists: seq<IfList>): seq<Group> {
    if lists == [] then []
    else [Group(lists[0].resourceTag, [CondsFor(lists[0].conditions)])] + GroupsFor(lists[1..])
  }

  lemma {:induction false} CondsForValue(cs: seq<Condition>)
    requires forall j :: 0 <= j < |cs| ==> PrintableCondition(cs[j])
    ensures CondsValue(CondsFor(cs)) == cs && |CondsFor(cs)| == |cs| && AllWritable(CondsTokens(CondsFor(cs)))
  {
    if cs != [] {
      CondsForValue(cs[1..]);
      assert CondsFor(cs)[1..] == CondsFor(cs[1..]);
    }
  }

  lemma ListWritable(l: List)
    requires AllWritable(CondsTokens(l))
    ensures AllWritable(ListTokens(l))
  {
  }

  lemma TagWritable(tag: string)
    requires '>' !in tag
    ensures Writable(Angle(tag))
  {
  }

  lemma {:induction false} GroupsForValue(lists: seq<IfList>)
    requires forall i :: 0 <= i < |lists| ==> PrintableList(lists[i])
    ensures GroupsValue(GroupsFor(lists)) == lists && ProperGroups(GroupsFor(lists))
    ensures AllWritable(GroupsTokens(GroupsFor(lists)))
    ensures |GroupsFor(lists)| == |lists|
  {
    hide CondsTokens, CondsValue, Writable, ListTokens;
    if lists != [] {
      var l, gs := lists[0], GroupsFor(lists[1..]);
      var list := CondsFor(l.conditions);
      CondsForValue(l.conditions);
      ListWritable(list);
      TagWritable(l.resourceTag);
      GroupsForValue(lists[1..]);
      assert GroupsFor(lists)[1..] == gs;
      assert [list][1..] == [];
      assert ListsTokens([list]) == ListTokens(list);
      assert ListsValue(l.resourceTag, [list]) == [l];
      assert GroupsTokens(GroupsFor(lists)) == [Angle(l.resourceTag)] + (ListTokens(list) + GroupsTokens(gs));
    }
  }

  /** Every printable value has a text that parses to it. */
  lemma EveryValueParses(lists: seq<IfList>) returns (s: string)
    requires Printable(lists)
    ensures HeaderOf(s) == Some(lists)
  {
    var h := Tagged(GroupsFor(lists));
    GroupsForValue(lists);
    var blanks := seq(|HeaderTokens(h)|, i => " ");
    s := "" + Print(HeaderTokens(h), blanks) + "";
    RoundTrip(h, blanks, "", "");
  }

  // ---- an instance for all texts ----

  lemma TokensOfOne(tag: string, t: string, e: string)
    ensures HeaderTokens(Tagged([Group(tag, [[Cond(true, Coded(t)), Cond(false, EntityTag(e))]])]))
            == [Angle(tag), Punct('('), Not, Angle(t), Square(e), Punct(')')]
  {
    var c, d := Cond(true, Coded(t)), Cond(false, EntityTag(e));
    assert CondsTokens([d]) == [Square(e)] by { assert [d][1..] == []; }
    assert CondsTokens([c, d]) == [Not, Angle(t), Square(e)] by { assert [c, d][1..] == [d]; }
    assert ListsTokens([[c, d]]) == ListTokens([c, d]) by { assert [[c, d]][1..] == []; }
    var g := Group(tag, [[c, d]]);
    assert GroupsTokens([g]) == [Angle(tag)] + ListsTokens([[c, d]]) by { assert [g][1..] == []; }
  }

  lemma ValueOfOne(tag: string, t: string, e: string)
    ensures HeaderValue(Tagged([Group(tag, [[Cond(true, Coded(t)), Cond(false, EntityTag(e))]])]))
            == [IfList(tag, [Condition(true, t, ""), Condition(false, "", e)])]
  {
    var c, d := Cond(true, Coded(t)), Cond(false, EntityTag(e));
    assert CondsValue([d]) == [Condition(false, "", e)] by { assert [d][1..] == []; }
    assert CondsValue([c, d]) == [Condition(true, t, ""), Condition(false, "", e)] by { assert [c, d][1..] == [d]; }
    assert ListsValue(tag, [[c, d]]) == [IfList(tag, CondsValue([c, d]))] by { assert [[c, d]][1..] == []; }
    var g := Group(tag, [[c, d]]);
    assert GroupsValue([g]) == ListsValue(tag, [[c, d]]) by { assert [g][1..] == []; }
  }

  lemma {:induction false} PrintOne(t: Token, b: string, ts: seq<Token>, bs: seq<string>)
    requires |bs| == |ts|
    ensures Print([t] + ts, [b] + bs) == b + Text(t) + Print(ts, bs)
  {
    assert ([t] + ts)[1..] == ts && ([b] + bs)[1..] == bs;
  }

  /** "<tag> (Not <t> [e])" */
  function OneText(tag: string, t: string, e: string): string {
    ("<" + tag + ">") + (" " + "(" + ("Not" + (" " + ("<" + t + ">") + (" " + ("[" + e + "]") + ")"))))
  }

  lemma PrintOfOne(tag: string, t: string, e: string)
    ensures Print([Angle(tag), Punct('('), Not, Angle(t), Square(e), Punct(')')], ["", " ", "", " ", " ", ""])
            == OneText(tag, t, e)
  {
    var t5, b5 := [Punct(')')], [""];
    var t4, b4 := [Square(e)] + t5, [" "] + b5;
    var t3, b3 := [Angle(t)] + t4, [" "] + b4;
    var t2, b2 := [Not] + t3, [""] + b3;
    var t1, b1 := [Punct('(')] + t2, [" "] + b2;
    hide Print;
    PrintLast();
    PrintOne(Square(e), " ", t5, b5);
    PrintOne(Angle(t), " ", t4, b4);
    PrintOne(Not, "", t3, b3);
    PrintOne(Punct('('), " ", t2, b2);
    PrintOne(Angle(tag), "", t1, b1);
    assert "" + "Not" == "Not" && "" + ("<" + tag + ">") == "<" + tag + ">";
    assert [Angle(tag)] + t1 == [Angle(tag), Punct('('), Not, Angle(t), Square(e), Punct(')')];
    assert [""] + b1 == ["", " ", "", " ", " ", ""];
  }

  lemma PrintLast()
    ensures Print([Punct(')')], [""]) == ")"
  {
    PrintOne(Punct(')'), "", [], []);
    PrintNone();
    assert [Punct(')')] + [] == [Punct(')')] && [""] + [] == [""];
  }

  lemma PrintNone()
    ensures Print([], []) == ""
  {
  }

  /** A resource tag, a negated state token and an entity tag are read as what they are. */
  lemma ReadsAs(tag: string, t: string, e: string)
    requires '>' !in tag && '>' !in t && ']' !in e
    ensures HeaderOf(OneText(tag, t, e)) == Some([IfList(tag, [Condition(true, t, ""), Condition(false, "", e)])])
  {
    hide HeaderOf, Print, HeaderTokens, HeaderValue, OneText;
    var h := Tagged([Group(tag, [[Cond(true, Coded(t)), Cond(false, EntityTag(e))]])]);
    var blanks := ["", " ", "", " ", " ", ""];
    TokensOfOne(tag, t, e);
    ValueOfOne(tag, t, e);
    PrintOfOne(tag, t, e);
    RoundTrip(h, blanks, "", "");
    assert "" + OneText(tag, t, e) + "" == OneText(tag, t, e);
  }
}
