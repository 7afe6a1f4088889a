/** The grammar of the If header, section 10.4.2 of RFC 4918 extended with bare words for state
    tokens, and the proof that the parser accepts exactly its texts and reads off their meaning. */
module IfGrammar {
  import opened IfHeader
  import opened LockTable
  import opened Wrappers

  datatype Atom = Bare(text: string) | Coded(text: string) | EntityTag(text: string)

  datatype Cond = Cond(negated: bool, atom: Atom)

  type List = seq<Cond>

  datatype Group = Group(tag: string, lists: seq<List>)

  datatype Header = Untagged(lists: seq<List>) | Tagged(groups: seq<Group>)

  // ---- the tokens of a header ----

  function AtomToken(a: Atom): Token {
    match a
    case Bare(text) => Str(text)
    case Coded(text) => Angle(text)
    case EntityTag(text) => Square(text)
  }

  function AtomOf(t: Token): Atom {
    match t
    case Angle(text) => Coded(text)
    case Square(text) => EntityTag(text)
    case Str(text) => Bare(text)
    case _ => Bare("")
  }

  function CondTokens(c: Cond): seq<Token> {
    if c.negated then [Not, AtomToken(c.atom)] else [AtomToken(c.atom)]
  }

  function CondsTokens(l: List): seq<Token> {
    if l == [] then [] else CondTokens(l[0]) + CondsTokens(l[1..])
  }

  function ListTokens(l: List): seq<Token> {
    [Punct('(')] + (CondsTokens(l) + [Punct(')')])
  }

  function ListsTokens(ls: seq<List>): seq<Token> {
    if ls == [] then [] else ListTokens(ls[0]) + ListsTokens(ls[1..])
  }

  function GroupsTokens(gs: seq<Group>): seq<Token> {
    if gs == [] then [] else [Angle(gs[0].tag)] + (ListsTokens(gs[0].lists) + GroupsTokens(gs[1..]))
  }

  function HeaderTokens(h: Header): seq<Token> {
    match h
    case Untagged(lists) => ListsTokens(lists)
    case Tagged(groups) => GroupsTokens(groups)
  }

  // ---- what a header means ----

  function CondValue(c: Cond): Condition {
    match c.atom
    case Bare(text) => Condition(c.negated, text, "")
    case Coded(text) => Condition(c.negated, text, "")
    case EntityTag(text) => Condition(c.negated, "", text)
  }

  function CondsValue(l: List): (v: seq<Condition>)
    ensures |v| == |l|
  {
    if l == [] then [] else [CondValue(l[0])] + CondsValue(l[1..])
  }

  function ListsValue(tag: string, ls: seq<List>): seq<IfList> {
    if ls == [] then [] else [IfList(tag, CondsValue(ls[0]))] + ListsValue(tag, ls[1..])
  }

  function GroupsValue(gs: seq<Group>): seq<IfList> {
    if gs == [] then [] else ListsValue(gs[0].tag, gs[0].lists) + GroupsValue(gs[1..])
  }

  function HeaderValue(h: Header): seq<IfList> {
    match h
    case Untagged(lists) => ListsValue("", lists)
    case Tagged(groups) => GroupsValue(groups)
  }

  // ---- well-formed headers ----

  /** A token that has a text. */
  predicate Writable(t: Token) {
    match t
    case Unclosed => false
    case Eof => false
    case Not => true
    case Punct(c) => c in "()>]"
    case Str(text) => text != "" && text != "Not" && forall k :: 0 <= k < |text| ==> !Delimiter(text[k])
    case Angle(text) => '>' !in text
    case Square(text) => ']' !in text
  }

  ghost predicate ProperLists(ls: seq<List>) {
    forall i :: 0 <= i < |ls| ==> ls[i] != []
  }

  ghost predicate ProperGroups(gs: seq<Group>) {
    forall i :: 0 <= i < |gs| ==> gs[i].lists != [] && ProperLists(gs[i].lists)
  }

  ghost predicate AllWritable(ts: seq<Token>) {
    forall k :: 0 <= k < |ts| ==> Writable(ts[k])
  }

  /** One or more lists without tags, or one or more tags with one or more lists each; every list
      has a condition. */
  ghost predicate Proper(h: Header) {
    && AllWritable(HeaderTokens(h))
    && match h
       case Untagged(lists) => lists != [] && ProperLists(lists)
       case Tagged(groups) => groups != [] && ProperGroups(groups)
  }

  // ---- lexing a sequence of tokens ----

  /** Lexing s yields the tokens ts and leaves r. */
  ghost predicate Lexes(s: string, ts: seq<Token>, r: string)
    decreases |ts|
  {
    if ts == [] then s == r else First(s).0 == ts[0] && Lexes(First(s).1, ts[1..], r)
  }

  lemma {:induction false} LexesJoin(s: string, a: seq<Token>, m: string, b: seq<Token>, r: string)
    requires Lexes(s, a, m) && Lexes(m, b, r)
    ensures Lexes(s, a + b, r)
    decreases |a|
  {
    hide First;
    if a == [] {
      assert a + b == b;
    } else {
      assert (a + b)[1..] == a[1..] + b;
      LexesJoin(First(s).1, a[1..], m, b, r);
    }
  }

  lemma {:induction false} LexesSplit(s: string, a: seq<Token>, b: seq<Token>, r: string) returns (m: string)
    requires Lexes(s, a + b, r)
    ensures Lexes(s, a, m) && Lexes(m, b, r)
    decreases |a|
  {
    hide First;
    if a == [] {
      assert a + b == b;
      m := s;
    } else {
      assert (a + b)[1..] == a[1..] + b;
      m := LexesSplit(First(s).1, a[1..], b, r);
    }
  }

  /** What the lexer returns, other than the end and an error, has a text. */
  lemma FirstIsWritable(s: string)
    requires First(s).0 !in {Unclosed, Eof}
    ensures Writable(First(s).0)
  {
  }

  lemma {:induction false} LexesWritable(s: string, ts: seq<Token>, r: string)
    requires Lexes(s, ts, r) && forall k :: 0 <= k < |ts| ==> ts[k] !in {Unclosed, Eof}
    ensures AllWritable(ts)
    decreases |ts|
  {
    hide First, Writable;
    if ts != [] {
      FirstIsWritable(s);
      LexesWritable(First(s).1, ts[1..], r);
      assert forall k :: 0 < k < |ts| ==> ts[k] == ts[1..][k - 1];
    }
  }

  // ---- what the parser accepts is a header ----

  lemma ConditionSound(s: string) returns (c: Cond)
    requires ConditionAt(s).Some?
    ensures CondValue(c) == ConditionAt(s).value.0 && Lexes(s, CondTokens(c), ConditionAt(s).value.1)
  {
    var negated := First(s).0 == Not;
    var (token, rest) := if negated then First(First(s).1) else First(s);
    var atom := AtomOf(token);
    c := Cond(negated, atom);
    if negated {
      assert CondTokens(c)[1..] == [AtomToken(atom)] && [AtomToken(atom)][1..] == [];
    } else {
      assert CondTokens(c)[1..] == [];
    }
  }

  lemma {:induction false} ConditionsSound(s: string, read: seq<Condition>) returns (l: List)
    requires ConditionsAt(s, read).Some?
    ensures var (conditions, rest) := ConditionsAt(s, read).value;
      conditions == read + CondsValue(l) && conditions != [] && Lexes(s, CondsTokens(l) + [Punct(')')], rest)
    decreases |s|
  {
    hide First, ConditionAt, CondTokens, CondValue;
    var (token, rest) := First(s);
    if token == Punct(')') {
      l := [];
      assert CondsTokens(l) + [Punct(')')] == [Punct(')')] && [Punct(')')][1..] == [];
      assert read + CondsValue(l) == read;
    } else {
      var (c, after) := ConditionAt(s).value;
      var cond := ConditionSound(s);
      var tail := ConditionsSound(after, read + [c]);
      l := [cond] + tail;
      LexesJoin(s, CondTokens(cond), after, CondsTokens(tail) + [Punct(')')], ConditionsAt(s, read).value.1);
      assert l[1..] == tail;
      assert CondTokens(cond) + (CondsTokens(tail) + [Punct(')')]) == CondsTokens(l) + [Punct(')')];
      assert read + [c] + CondsValue(tail) == read + CondsValue(l);
    }
  }

  lemma ListSound(s: string) returns (l: List)
    requires ListAt(s).Some?
    ensures l != [] && CondsValue(l) == ListAt(s).value.0 && Lexes(s, ListTokens(l), ListAt(s).value.1)
  {
    l := ConditionsSound(First(s).1, []);
    assert [] + CondsValue(l) == CondsValue(l);
    assert ListTokens(l)[1..] == CondsTokens(l) + [Punct(')')];
  }

  lemma {:induction false} NoTagListsSound(s: string, read: seq<IfList>) returns (ls: seq<List>)
    requires NoTagListsAt(s, read).Some?
    ensures ls != [] && ProperLists(ls) && NoTagListsAt(s, read).value == read + ListsValue("", ls)
    ensures Lexes(s, ListsTokens(ls), "")
    decreases |s|
  {
    hide First, ListAt, ListTokens, CondsValue;
    var (v, rest) := ListAt(s).value;
    var l := ListSound(s);
    var tail: seq<List> := [];
    if rest != "" {
      tail := NoTagListsSound(rest, read + [IfList("", v)]);
    }
    ls := [l] + tail;
    assert ls[1..] == tail;
    LexesJoin(s, ListTokens(l), rest, ListsTokens(tail), "");
    assert read + [IfList("", v)] + ListsValue("", tail) == read + ListsValue("", ls);
  }

  // What is left of a tagged header: lists under the current tag, then groups.

  function RestTokens(ls: seq<List>, gs: seq<Group>): seq<Token> {
    ListsTokens(ls) + GroupsTokens(gs)
  }

  function RestValue(read: seq<IfList>, tag: string, ls: seq<List>, gs: seq<Group>): seq<IfList> {
    read + ListsValue(tag, ls) + GroupsValue(gs)
  }

  lemma RestIsGroup(read: seq<IfList>, tag: string, g: Group, gs: seq<Group>)
    ensures RestTokens([], [g] + gs) == [Angle(g.tag)] + RestTokens(g.lists, gs)
    ensures RestValue(read, tag, [], [g] + gs) == RestValue(read, g.tag, g.lists, gs)
  {
    assert ([g] + gs)[1..] == gs;
  }

  lemma RestIsList(read: seq<IfList>, tag: string, l: List, ls: seq<List>, gs: seq<Group>)
    ensures RestTokens([l] + ls, gs) == ListTokens(l) + RestTokens(ls, gs)
    ensures RestValue(read, tag, [l] + ls, gs) == RestValue(read + [IfList(tag, CondsValue(l))], tag, ls, gs)
  {
    assert ([l] + ls)[1..] == ls;
  }

  lemma RestIsNothing(read: seq<IfList>, tag: string)
    ensures RestTokens([], []) == [] && RestValue(read, tag, [], []) == read
  {
  }

  lemma {:induction false} TaggedListsSound(s: string, first: bool, tag: string, n: nat, read: seq<IfList>)
    returns (ls: seq<List>, gs: seq<Group>)
    requires TaggedListsAt(s, first, tag, n, read).Some?
    ensures ProperLists(ls) && ProperGroups(gs) && (!first && n == 0 ==> ls != [])
    ensures TaggedListsAt(s, first, tag, n, read).value == RestValue(read, tag, ls, gs)
    ensures Lexes(s, RestTokens(ls, gs), "") && (First(s).0.Angle? ==> ls == [] && gs != [])
    decreases |s|
  {
    hide First, ListAt, ListTokens, CondsValue, RestTokens, RestValue;
    var (token, rest) := First(s);
    if token.Angle? {
      var ls1, gs1 := TaggedListsSound(rest, false, token.text, 0, read);
      var g := Group(token.text, ls1);
      ls, gs := [], [g] + gs1;
      RestIsGroup(read, tag, g, gs1);
      assert ([Angle(g.tag)] + RestTokens(ls1, gs1))[1..] == RestTokens(ls1, gs1);
    } else {
      var (v, after) := ListAt(s).value;
      var l := ListSound(s);
      var tail: seq<List> := [];
      gs := [];
      if after != "" {
        tail, gs := TaggedListsSound(after, false, tag, n + 1, read + [IfList(tag, v)]);
      } else {
        RestIsNothing(read + [IfList(tag, v)], tag);
      }
      ls := [l] + tail;
      RestIsList(read, tag, l, tail, gs);
      LexesJoin(s, ListTokens(l), after, RestTokens(tail, gs), "");
    }
  }

  // ---- what is a header the parser accepts ----

  lemma ConditionComplete(s: string, c: Cond, r: string)
    requires Lexes(s, CondTokens(c), r)
    ensures ConditionAt(s) == Some((CondValue(c), r)) && First(s).0 != Punct(')')
  {
    var t := AtomToken(c.atom);
    assert [t][1..] == [];
    if c.negated {
      assert CondTokens(c)[1..] == [t];
      var rest := First(s).1;
      assert Lexes(rest, [t], r);
      assert Lexes(First(rest).1, [], r);
    } else {
      assert CondTokens(c) == [t];
      assert First(s) == (t, r);
    }
  }

  lemma {:induction false} ConditionsComplete(s: string, l: List, r: string, read: seq<Condition>)
    requires Lexes(s, CondsTokens(l) + [Punct(')')], r) && (l != [] || read != [])
    ensures ConditionsAt(s, read) == Some((read + CondsValue(l), r))
    decreases |l|
  {
    hide First, ConditionAt, CondTokens, CondValue;
    if l == [] {
      assert CondsTokens(l) + [Punct(')')] == [Punct(')')] && [Punct(')')][1..] == [];
      assert read + CondsValue(l) == read;
    } else {
      assert CondsTokens(l) + [Punct(')')] == CondTokens(l[0]) + (CondsTokens(l[1..]) + [Punct(')')]);
      var m := LexesSplit(s, CondTokens(l[0]), CondsTokens(l[1..]) + [Punct(')')], r);
      ConditionComplete(s, l[0], m);
      ConditionsComplete(m, l[1..], r, read + [CondValue(l[0])]);
      assert read + [CondValue(l[0])] + CondsValue(l[1..]) == read + CondsValue(l);
    }
  }

  lemma ListComplete(s: string, l: List, r: string)
    requires l != [] && Lexes(s, ListTokens(l), r)
    ensures ListAt(s) == Some((CondsValue(l), r)) && First(s).0 == Punct('(')
  {
    assert ListTokens(l)[1..] == CondsTokens(l) + [Punct(')')];
    ConditionsComplete(First(s).1, l, r, []);
    assert [] + CondsValue(l) == CondsValue(l);
  }

  lemma {:induction false} NoTagListsComplete(s: string, ls: seq<List>, read: seq<IfList>)
    requires ls != [] && ProperLists(ls) && Lexes(s, ListsTokens(ls), "")
    ensures NoTagListsAt(s, read) == Some(read + ListsValue("", ls)) && First(s).0 == Punct('(')
    decreases |ls|
  {
    hide First, ListAt, ListTokens, CondsValue;
    var m := LexesSplit(s, ListTokens(ls[0]), ListsTokens(ls[1..]), "");
    ListComplete(s, ls[0], m);
    var lists := read + [IfList("", CondsValue(ls[0]))];
    assert read + ListsValue("", ls) == lists + ListsValue("", ls[1..]);
    if |ls| == 1 {
      assert ls[1..] == [] && lists + [] == lists;
    } else {
      NoTagListsComplete(m, ls[1..], lists);
    }
  }

  lemma {:induction false} TaggedListsComplete(s: string, first: bool, tag: string, n: nat, read: seq<IfList>,
                                               ls: seq<List>, gs: seq<Group>)
    requires ProperLists(ls) && ProperGroups(gs) && (!first && n == 0 ==> ls != []) && (ls != [] || gs != [])
    requires Lexes(s, RestTokens(ls, gs), "")
    ensures TaggedListsAt(s, first, tag, n, read) == Some(RestValue(read, tag, ls, gs))
    ensures ls == [] ==> First(s).0.Angle?
    decreases |gs|, |ls|
  {
    hide First, ListAt, ListTokens, CondsValue, RestTokens, RestValue;
    if ls == [] {
      var g, gs1 := gs[0], gs[1..];
      assert gs == [g] + gs1;
      RestIsGroup(read, tag, g, gs1);
      assert ([Angle(g.tag)] + RestTokens(g.lists, gs1))[1..] == RestTokens(g.lists, gs1);
      TaggedListsComplete(First(s).1, false, g.tag, 0, read, g.lists, gs1);
    } else {
      var l, ls1 := ls[0], ls[1..];
      assert ls == [l] + ls1;
      RestIsList(read, tag, l, ls1, gs);
      var m := LexesSplit(s, ListTokens(l), RestTokens(ls1, gs), "");
      ListComplete(s, l, m);
      var lists := read + [IfList(tag, CondsValue(l))];
      if ls1 == [] && gs == [] {
        RestIsNothing(lists, tag);
      } else {
        NotEmpty(m, ls1, gs);
        TaggedListsComplete(m, false, tag, n + 1, lists, ls1, gs);
      }
    }
  }

  lemma NotEmpty(s: string, ls: seq<List>, gs: seq<Group>)
    requires Lexes(s, RestTokens(ls, gs), "") && (ls != [] || gs != [])
    ensures s != ""
  {
    var ts := RestTokens(ls, gs);
    assert ls != [] ==> ts[0] == ListTokens(ls[0])[0];
    assert ls == [] ==> ts[0] == Angle(gs[0].tag);
    assert First("").0 == Eof;
  }
}
