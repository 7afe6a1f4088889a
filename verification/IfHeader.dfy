/** The parser of the WebDAV If header: a lexer and recursive descent over strings, written as the
    server's loops, and the functions they compute. */
module IfHeader {
  import opened LockTable
  import opened Wrappers

  /** Punct is a single character such as '(' or ')'. */
  datatype Token =
    | Unclosed
    | Eof
    | Not
    | Punct(c: char)
    | Str(text: string)
    | Angle(text: string)
    | Square(text: string)

  /** A conjunction of conditions with an optional resource tag. */
  datatype IfList = IfList(resourceTag: string, conditions: seq<Condition>)

  // ---- the lexer ----

  predicate Blank(c: char) {
    c == '\t' || c == ' '
  }

  /** A character that ends a bare word. */
  predicate Delimiter(c: char) {
    Blank(c) || c in "()<>[]"
  }

  lemma DelimiterIs(c: char)
    ensures Delimiter(c) <==>
            c == '\t' || c == ' ' || c == '(' || c == ')' || c == '<' || c == '>' || c == '[' || c == ']'
  {
    var all := "()<>[]";
    assert all[0] == '(' && all[1] == ')' && all[2] == '<' && all[3] == '>' && all[4] == '[' && all[5] == ']';
  }

  function SkipBlanks(s: string): (r: string)
    ensures |r| <= |s| && (r != "" ==> !Blank(r[0]))
  {
    if s != "" && Blank(s[0]) then SkipBlanks(s[1..]) else s
  }

  function WordLength(s: string): (i: nat)
    ensures i <= |s| && (i < |s| ==> Delimiter(s[i])) && forall k :: 0 <= k < i ==> !Delimiter(s[k])
  {
    if s == "" || Delimiter(s[0]) then 0 else 1 + WordLength(s[1..])
  }

  /** strings.IndexByte. */
  function IndexOf(s: string, c: char): (j: int)
    ensures -1 <= j < |s| && (j >= 0 ==> s[j] == c)
    ensures forall k :: 0 <= k < (if j < 0 then |s| else j) ==> s[k] != c
  {
    if s == "" then -1
    else if s[0] == c then 0
    else
      var j := IndexOf(s[1..], c);
      if j < 0 then -1 else j + 1
  }

  /** The first token of s, and what follows it. */
  function First(s: string): (r: (Token, string))
    ensures r.0 !in {Unclosed, Eof} ==> |r.1| < |s|
  {
    var u := SkipBlanks(s);
    if u == "" then (Eof, "")
    else
      var i := WordLength(u);
      if i != 0 then (if u[..i] == "Not" then Not else Str(u[..i]), u[i..])
      else if u[0] == '<' then
        var j := IndexOf(u, '>');
        if j < 0 then (Unclosed, "") else (Angle(u[1..j]), u[j + 1..])
      else if u[0] == '[' then
        var j := IndexOf(u, ']');
        if j < 0 then (Unclosed, "") else (Square(u[1..j]), u[j + 1..])
      else (Punct(u[0]), u[1..])
  }

  method Lex(input: string) returns (token: Token, remaining: string)
    ensures (token, remaining) == First(input)
  {
    var s := input;
    while |s| > 0 && (s[0] == '\t' || s[0] == ' ')
      invariant SkipBlanks(s) == SkipBlanks(input)
    {
      s := s[1..];
    }
    if |s| == 0 {
      return Eof, "";
    }
    var i := 0;
    while i < |s| && !Delimiter(s[i])
      invariant 0 <= i <= |s| && i + WordLength(s[i..]) == WordLength(s)
    {
      i := i + 1;
    }
    if i != 0 {
      if s[..i] == "Not" {
        return Not, s[i..];
      }
      return Str(s[..i]), s[i..];
    }
    if s[0] != '<' && s[0] != '[' {
      return Punct(s[0]), s[1..];
    }
    var j := IndexOf(s, if s[0] == '<' then '>' else ']');
    if j < 0 {
      return Unclosed, "";
    }
    return if s[0] == '<' then Angle(s[1..j]) else Square(s[1..j]), s[j + 1..];
  }

  // ---- the parser ----

  /** The condition at the front of s. */
  function ConditionAt(s: string): (r: Option<(Condition, string)>)
    ensures r.Some? ==> |r.value.1| < |s|
  {
    var negated := First(s).0 == Not;
    var (token, rest) := if negated then First(First(s).1) else First(s);
    match token
    case Str(text) => Some((Condition(negated, text, ""), rest))
    case Angle(text) => Some((Condition(negated, text, ""), rest))
    case Square(text) => Some((Condition(negated, "", text), rest))
    case _ => None
  }

  method ParseCondition(input: string) returns (r: Option<(Condition, string)>)
    ensures r == ConditionAt(input)
  {
    var c := Condition(false, "", "");
    var token, s := Lex(input);
    if token == Not {
      c := c.(not := true);
      token, s := Lex(s);
    }
    match token {
      case Str(text) =>
        c := c.(token := text);
      case Angle(text) =>
        c := c.(token := text);
      case Square(text) =>
        c := c.(etag := text);
      case _ =>
        return None;
    }
    return Some((c, s));
  }

  /** The conditions up to the closing parenthesis, after those already read. */
  function ConditionsAt(s: string, read: seq<Condition>): (r: Option<(seq<Condition>, string)>)
    ensures r.Some? ==> |r.value.1| < |s|
    decreases |s|
  {
    var (token, rest) := First(s);
    if token == Punct(')') then (if read == [] then None else Some((read, rest)))
    else
      var c := ConditionAt(s);
      if c.None? then None else ConditionsAt(c.value.1, read + [c.value.0])
  }

  function ListAt(s: string): (r: Option<(seq<Condition>, string)>)
    ensures r.Some? ==> |r.value.1| < |s|
  {
    if First(s).0 == Punct('(') then ConditionsAt(First(s).1, []) else None
  }

  method ParseList(input: string) returns (r: Option<(seq<Condition>, string)>)
    ensures r == ListAt(input)
  {
    var token, s := Lex(input);
    if token != Punct('(') {
      return None;
    }
    var conditions := [];
    while true
      invariant ListAt(input) == ConditionsAt(s, conditions)
      decreases |s|
    {
      var remaining;
      token, remaining := Lex(s);
      if token == Punct(')') {
        if |conditions| == 0 {
          return None;
        }
        return Some((conditions, remaining));
      }
      var c := ParseCondition(s);
      if c.None? {
        return None;
      }
      conditions := conditions + [c.value.0];
      s := c.value.1;
    }
  }

  function NoTagListsAt(s: string, read: seq<IfList>): (r: Option<seq<IfList>>)
    decreases |s|
  {
    var l := ListAt(s);
    if l.None? then None
    else
      var lists := read + [IfList("", l.value.0)];
      if l.value.1 == "" then Some(lists) else NoTagListsAt(l.value.1, lists)
  }

  method ParseNoTagLists(input: string) returns (r: Option<seq<IfList>>)
    ensures r == NoTagListsAt(input, [])
  {
    var s, lists := input, [];
    while true
      invariant NoTagListsAt(input, []) == NoTagListsAt(s, lists)
      decreases |s|
    {
      var l := ParseList(s);
      if l.None? {
        return None;
      }
      lists := lists + [IfList("", l.value.0)];
      if l.value.1 == "" {
        return Some(lists);
      }
      s := l.value.1;
    }
  }

  /** n is the number of lists read since the last tag. */
  function TaggedListsAt(s: string, first: bool, tag: string, n: nat, read: seq<IfList>): (r: Option<seq<IfList>>)
    decreases |s|
  {
    var (token, rest) := First(s);
    match token
    case Angle(text) => if !first && n == 0 then None else TaggedListsAt(rest, false, text, 0, read)
    case Punct(c) =>
      if c != '(' then None
      else
        var l := ListAt(s);
        if l.None? then None
        else
          var lists := read + [IfList(tag, l.value.0)];
          if l.value.1 == "" then Some(lists) else TaggedListsAt(l.value.1, false, tag, n + 1, lists)
    case _ => None
  }

  method ParseTaggedLists(input: string) returns (r: Option<seq<IfList>>)
    ensures r == TaggedListsAt(input, true, "", 0, [])
  {
    hide First, ListAt;
    var s, lists := input, [];
    var resourceTag, n := "", 0;
    var first := true;
    while true
      invariant n >= 0 && TaggedListsAt(input, true, "", 0, []) == TaggedListsAt(s, first, resourceTag, n, lists)
      decreases |s|
    {
      var token, remaining := Lex(s);
      match token {
        case Angle(text) =>
          if !first && n == 0 {
            return None;
          }
          resourceTag, n := text, 0;
          s := remaining;
        case Punct(c) =>
          if c != '(' {
            return None;
          }
          n := n + 1;
          var l := ParseList(s);
          if l.None? {
            return None;
          }
          lists := lists + [IfList(resourceTag, l.value.0)];
          if l.value.1 == "" {
            return Some(lists);
          }
          s := l.value.1;
        case _ =>
          return None;
      }
      first := false;
    }
  }

  /** unicode.IsSpace. */
  predicate Space(c: char) {
    var u := c as int;
    0x09 <= u <= 0x0D || u in {0x20, 0x85, 0xA0, 0x1680, 0x2028, 0x2029, 0x202F, 0x205F, 0x3000}
      || 0x2000 <= u <= 0x200A
  }

  /** strings.TrimSpace. */
  function TrimSpace(s: string): (r: string)
    ensures |r| <= |s|
  {
    if s != "" && Space(s[0]) then TrimSpace(s[1..])
    else if s != "" && Space(s[|s| - 1]) then TrimSpace(s[..|s| - 1])
    else s
  }

  /** The header that s parses to, if any. */
  function HeaderOf(s: string): Option<seq<IfList>> {
    match First(TrimSpace(s)).0
    case Punct(c) => if c == '(' then NoTagListsAt(TrimSpace(s), []) else None
    case Angle(_) => TaggedListsAt(TrimSpace(s), true, "", 0, [])
    case _ => None
  }

  method ParseIfHeader(httpHeader: string) returns (r: Option<seq<IfList>>)
    ensures r == HeaderOf(httpHeader)
  {
    var s := TrimSpace(httpHeader);
    var token, _ := Lex(s);
    match token
    case Punct(c) =>
      if c == '(' {
        r := ParseNoTagLists(s);
      } else {
        r := None;
      }
    case Angle(_) =>
      r := ParseTaggedLists(s);
    case _ =>
      r := None;
  }
}
