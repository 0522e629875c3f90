/**
 JSON documents as token sequences, and the values they denote.

 A token carries its decoded string or its number lexeme, so white space and the spelling of escapes are gone. The
 grammar is given by printing: a document is well formed when it is the token sequence of some syntax tree.
 */
module Json {
  import opened Text

  datatype Token =
    | LBrace | RBrace | LBracket | RBracket | Comma | Colon
    | Str(text: string) | Num(lexeme: string) | True | False | Null
    | Bad   // text that is no token

  /** A syntax tree: members in document order, repetitions included. */
  datatype Raw =
    | RNull | RBool(b: bool) | RNum(lexeme: string) | RStr(text: string)
    | RArr(items: seq<Raw>)
    | RObj(members: seq<Member>)

  datatype Member = Member(name: string, value: Raw)

  function Tokens(v: Raw): (ts: seq<Token>)
    ensures ts != []
    decreases v, 1
  {
    match v
    case RNull => [Null]
    case RBool(b) => [if b then True else False]
    case RNum(l) => [Num(l)]
    case RStr(s) => [Str(s)]
    case RArr(items) => [LBracket] + ItemTokens(items, true)
    case RObj(members) => [LBrace] + MemberTokens(members, true)
  }

  /** The items, comma-separated, up to and including the closing bracket. */
  function ItemTokens(items: seq<Raw>, first: bool): seq<Token>
    decreases items, 0
  {
    if items == [] then [RBracket]
    else (if first then [] else [Comma]) + Tokens(items[0]) + ItemTokens(items[1..], false)
  }

  function MemberTokens(members: seq<Member>, first: bool): seq<Token>
    decreases members, 0
  {
    if members == [] then [RBrace]
    else
      (if first then [] else [Comma]) + [Str(members[0].name), Colon] + Tokens(members[0].value) +
      MemberTokens(members[1..], false)
  }

  function Names(members: seq<Member>): set<string> { set m | m in members :: m.name }

  predicate DistinctNames(members: seq<Member>) {
    forall i, j :: 0 <= i < j < |members| ==> members[i].name != members[j].name
  }

  /** No object at any depth repeats a name. */
  predicate NoRepeats(v: Raw) {
    match v
    case RArr(items) => forall x :: x in items ==> NoRepeats(x)
    case RObj(members) => DistinctNames(members) && forall m :: m in members ==> NoRepeats(m.value)
    case _ => true
  }

  // ------------------------------------------------------------------ parsing

  /** A recursive-descent parser: one value from the front of the tokens. */
  function Parse(ts: seq<Token>): (r: Option<(Raw, seq<Token>)>)
    ensures r.Some? ==> |r.value.1| < |ts|
    decreases |ts|, 1
  {
    if ts == [] then None
    else
      match ts[0]
      case Null => Some((RNull, ts[1..]))
      case True => Some((RBool(true), ts[1..]))
      case False => Some((RBool(false), ts[1..]))
      case Num(l) => Some((RNum(l), ts[1..]))
      case Str(s) => Some((RStr(s), ts[1..]))
      case LBracket =>
        (match ParseItems(ts[1..], true)
         case Some((items, rest)) => Some((RArr(items), rest))
         case None => None)
      case LBrace =>
        (match ParseMembers(ts[1..], true)
         case Some((members, rest)) => Some((RObj(members), rest))
         case None => None)
      case _ => None
  }

  function ParseItems(ts: seq<Token>, first: bool): (r: Option<(seq<Raw>, seq<Token>)>)
    ensures r.Some? ==> |r.value.1| < |ts|
    decreases |ts|, if first then 2 else 0
  {
    if ts == [] then None
    else if ts[0] == RBracket then Some(([], ts[1..]))
    else
      var from := if first then ts else if ts[0] == Comma then ts[1..] else [];
      match Parse(from)
      case None => None
      case Some((x, rest)) =>
        match ParseItems(rest, false)
        case None => None
        case Some((xs, rest')) => Some(([x] + xs, rest'))
  }

  function ParseMembers(ts: seq<Token>, first: bool): (r: Option<(seq<Member>, seq<Token>)>)
    ensures r.Some? ==> |r.value.1| < |ts|
    decreases |ts|, 0
  {
    if ts == [] then None
    else if ts[0] == RBrace then Some(([], ts[1..]))
    else
      var from := if first then ts else if ts[0] == Comma then ts[1..] else [];
      if |from| < 2 || !from[0].Str? || from[1] != Colon then None
      else
        match Parse(from[2..])
        case None => None
        case Some((x, rest)) =>
          match ParseMembers(rest, false)
          case None => None
          case Some((ms, rest')) => Some(([Member(from[0].text, x)] + ms, rest'))
  }

  /** Parsing finds the tree again, whatever follows it. */
  lemma {:induction false} ParseTokens(v: Raw, rest: seq<Token>)
    ensures Parse(Tokens(v) + rest) == Some((v, rest))
    decreases v, 1
  {
    var ts := Tokens(v) + rest;
    match v
    case RArr(items) =>
      ParseItemTokens(items, true, rest);
      assert ts[1..] == ItemTokens(items, true) + rest;
    case RObj(members) =>
      ParseMemberTokens(members, true, rest);
      assert ts[1..] == MemberTokens(members, true) + rest;
    case _ => assert ts[1..] == rest;
  }

  lemma TokensStart(v: Raw)
    ensures Tokens(v)[0] !in {RBracket, RBrace, Comma, Colon, Bad}
  {
  }

  function Separated(ts: seq<Token>, first: bool): seq<Token> {
    if first then ts else [Comma] + ts
  }

  lemma ItemsCons(from: seq<Token>, first: bool, x: Raw, rest: seq<Token>, xs: seq<Raw>, rest': seq<Token>)
    requires from != [] && from[0] != RBracket
    requires Parse(from) == Some((x, rest)) && ParseItems(rest, false) == Some((xs, rest'))
    ensures ParseItems(Separated(from, first), first) == Some(([x] + xs, rest'))
  {
    assert ([Comma] + from)[1..] == from;
  }

  lemma MembersCons(
    name: string, body: seq<Token>, first: bool, x: Raw, rest: seq<Token>, ms: seq<Member>, rest': seq<Token>)
    requires Parse(body) == Some((x, rest)) && ParseMembers(rest, false) == Some((ms, rest'))
    ensures ParseMembers(Separated([Str(name), Colon] + body, first), first) == Some(([Member(name, x)] + ms, rest'))
  {
    var from := [Str(name), Colon] + body;
    assert ([Comma] + from)[1..] == from;
    assert from[2..] == body;
  }

  lemma ItemTokensCons(x: Raw, xs: seq<Raw>, first: bool, rest: seq<Token>)
    ensures ItemTokens([x] + xs, first) + rest == Separated(Tokens(x) + (ItemTokens(xs, false) + rest), first)
  {
    assert ([x] + xs)[1..] == xs;
  }

  lemma MemberTokensCons(m: Member, ms: seq<Member>, first: bool, rest: seq<Token>)
    ensures MemberTokens([m] + ms, first) + rest ==
              Separated([Str(m.name), Colon] + (Tokens(m.value) + (MemberTokens(ms, false) + rest)), first)
  {
    assert ([m] + ms)[1..] == ms;
  }

  lemma {:induction false} ParseItemTokens(items: seq<Raw>, first: bool, rest: seq<Token>)
    ensures ParseItems(ItemTokens(items, first) + rest, first) == Some((items, rest))
    decreases items, 0
  {
    if items == [] {
      assert ([RBracket] + rest)[1..] == rest;
    } else {
      var x, xs := items[0], items[1..];
      ParseTokens(x, ItemTokens(xs, false) + rest);
      ParseItemTokens(xs, false, rest);
      ParseItemTokensCons(x, xs, first, rest);
      assert [x] + xs == items;
    }
  }

  lemma ParseItemTokensCons(x: Raw, xs: seq<Raw>, first: bool, rest: seq<Token>)
    requires Parse(Tokens(x) + (ItemTokens(xs, false) + rest)) == Some((x, ItemTokens(xs, false) + rest))
    requires ParseItems(ItemTokens(xs, false) + rest, false) == Some((xs, rest))
    ensures ParseItems(ItemTokens([x] + xs, first) + rest, first) == Some(([x] + xs, rest))
  {
    TokensStart(x);
    var tail := ItemTokens(xs, false) + rest;
    ItemsCons(Tokens(x) + tail, first, x, tail, xs, rest);
    ItemTokensCons(x, xs, first, rest);
  }

  lemma {:induction false} ParseMemberTokens(members: seq<Member>, first: bool, rest: seq<Token>)
    ensures ParseMembers(MemberTokens(members, first) + rest, first) == Some((members, rest))
    decreases members, 0
  {
    if members == [] {
      assert ([RBrace] + rest)[1..] == rest;
    } else {
      var m, ms := members[0], members[1..];
      ParseTokens(m.value, MemberTokens(ms, false) + rest);
      ParseMemberTokens(ms, false, rest);
      ParseMemberTokensCons(m, ms, first, rest);
      assert [m] + ms == members;
    }
  }

  lemma ParseMemberTokensCons(m: Member, ms: seq<Member>, first: bool, rest: seq<Token>)
    requires Parse(Tokens(m.value) + (MemberTokens(ms, false) + rest)) ==
             Some((m.value, MemberTokens(ms, false) + rest))
    requires ParseMembers(MemberTokens(ms, false) + rest, false) == Some((ms, rest))
    ensures ParseMembers(MemberTokens([m] + ms, first) + rest, first) == Some(([m] + ms, rest))
  {
    var tail := MemberTokens(ms, false) + rest;
    MembersCons(m.name, Tokens(m.value) + tail, first, m.value, tail, ms, rest);
    MemberTokensCons(m, ms, first, rest);
  }

  /** What the parser accepts is the token sequence of the tree it returns. */
  lemma {:induction false} ParseSound(ts: seq<Token>)
    ensures Parse(ts).Some? ==> ts == Tokens(Parse(ts).value.0) + Parse(ts).value.1
    decreases |ts|, 1
  {
    if Parse(ts).Some? {
      assert ts == [ts[0]] + ts[1..];
      if ts[0] == LBracket {
        ParseItemsSound(ts[1..], true);
      } else if ts[0] == LBrace {
        ParseMembersSound(ts[1..], true);
      }
    }
  }

  lemma {:induction false} ParseItemsSound(ts: seq<Token>, first: bool)
    ensures ParseItems(ts, first).Some? ==>
              ts == ItemTokens(ParseItems(ts, first).value.0, first) + ParseItems(ts, first).value.1
    decreases |ts|, if first then 2 else 0
  {
    if ParseItems(ts, first).Some? {
      assert ts == [ts[0]] + ts[1..];
      if ts[0] != RBracket {
        var from := if first then ts else if ts[0] == Comma then ts[1..] else [];
        ParseSound(from);
        var (x, rest) := Parse(from).value;
        ParseItemsSound(rest, false);
        var (xs, rest') := ParseItems(rest, false).value;
        ItemTokensCons(x, xs, first, rest');
        assert ts == Separated(from, first);
      }
    }
  }

  lemma {:induction false} ParseMembersSound(ts: seq<Token>, first: bool)
    ensures ParseMembers(ts, first).Some? ==>
              ts == MemberTokens(ParseMembers(ts, first).value.0, first) + ParseMembers(ts, first).value.1
    decreases |ts|, 0
  {
    if ParseMembers(ts, first).Some? && ts[0] != RBrace {
      var from := if first then ts else if ts[0] == Comma then ts[1..] else [];
      assert ts == Separated(from, first);
      ParseSound(from[2..]);
      var (x, rest) := Parse(from[2..]).value;
      ParseMembersSound(rest, false);
      var (ms, rest') := ParseMembers(rest, false).value;
      MemberTokensCons(Member(from[0].text, x), ms, first, rest');
      assert from == [Str(from[0].text), Colon] + from[2..];
    } else if ParseMembers(ts, first).Some? {
      assert ts == [RBrace] + ts[1..];
    }
  }

  /** Different trees have different tokens. */
  lemma TokensInjective(v: Raw, w: Raw)
    requires Tokens(v) == Tokens(w)
    ensures v == w
  {
    ParseTokens(v, []);
    ParseTokens(w, []);
  }
}
