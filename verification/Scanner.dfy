/** The duplicate-name scanner over a token decoder. */
module Scanner {
  import opened Json

  /** Where the decoder stands between two tokens. */
  datatype Place =
    | TopValue | ArrayStart | ArrayValue | ArrayComma
    | ObjectStart | ObjectKey | ObjectColon | ObjectValue | ObjectComma

  datatype Dec = Dec(rest: seq<Token>, place: Place, stack: seq<Place>)

  datatype Next = Got(token: Token, dec: Dec) | Eof(end: Dec) | Error

  predicate ValueAllowed(p: Place) { p.TopValue? || p.ArrayStart? || p.ArrayValue? || p.ObjectValue? }

  function ValueEnd(p: Place): Place {
    if p.ArrayStart? || p.ArrayValue? then ArrayComma else if p.ObjectValue? then ObjectComma else p
  }

  function Shift(d: Dec, p: Place): Dec
    requires d.rest != []
  {
    Dec(d.rest[1..], p, d.stack)
  }

  function Open(d: Dec, p: Place): Next
    requires d.rest != []
  {
    if ValueAllowed(d.place) then Got(d.rest[0], Dec(d.rest[1..], p, d.stack + [d.place])) else Error
  }

  function Close(d: Dec, p: Place, q: Place): Next
    requires d.rest != []
  {
    if (d.place != p && d.place != q) || d.stack == [] then Error
    else
      var n := |d.stack| - 1;
      Got(d.rest[0], Dec(d.rest[1..], ValueEnd(d.stack[n]), d.stack[..n]))
  }

  /** A string where a name is due is a name; otherwise a scalar needs a place for a value. */
  function Scalar(d: Dec): Next
    requires d.rest != []
  {
    if d.rest[0].Str? && (d.place.ObjectStart? || d.place.ObjectKey?) then Got(d.rest[0], Shift(d, ObjectColon))
    else if ValueAllowed(d.place) then Got(d.rest[0], Shift(d, ValueEnd(d.place)))
    else Error
  }

  /** The next token: commas and colons are checked and skipped, brackets are matched. */
  function NextToken(d: Dec): (n: Next)
    ensures n.Got? ==> |n.dec.rest| < |d.rest|
    ensures n.Eof? ==> n.end.rest == []
    decreases |d.rest|
  {
    if d.rest == [] then Eof(d)
    else
      match d.rest[0]
      case LBracket => Open(d, ArrayStart)
      case LBrace => Open(d, ObjectStart)
      case RBracket => Close(d, ArrayStart, ArrayComma)
      case RBrace => Close(d, ObjectStart, ObjectComma)
      case Colon => if d.place.ObjectColon? then NextToken(Shift(d, ObjectValue)) else Error
      case Comma =>
        if d.place.ArrayComma? then NextToken(Shift(d, ArrayValue))
        else if d.place.ObjectComma? then NextToken(Shift(d, ObjectKey))
        else Error
      case Bad => Error
      case _ => Scalar(d)
  }

  /** Another element follows in the current array or object. */
  predicate More(d: Dec) {
    d.rest != [] && d.rest[0] != RBracket && d.rest[0] != RBrace
  }

  datatype Scan = Ok(dec: Dec) | Duplicate(name: string) | Malformed

  function ScanValue(d: Dec): (r: Scan)
    ensures r.Ok? ==> |r.dec.rest| <= |d.rest|
    ensures r.Ok? && d.rest != [] ==> |r.dec.rest| < |d.rest|
    decreases |d.rest|, 1
  {
    match NextToken(d)
    case Eof(end) => Ok(end)
    case Error => Malformed
    case Got(t, d') =>
      if t == LBrace then ScanObject(d', {})
      else if t == LBracket then ScanArray(d')
      else if t == RBrace || t == RBracket then Malformed
      else Ok(d')
  }

  function ScanClose(d: Dec): (r: Scan)
    ensures r.Ok? ==> |r.dec.rest| <= |d.rest|
  {
    var n := NextToken(d);
    if n.Got? then Ok(n.dec) else Malformed
  }

  function ScanObject(d: Dec, seen: set<string>): (r: Scan)
    ensures r.Ok? ==> |r.dec.rest| <= |d.rest|
    decreases |d.rest|, 2
  {
    if !More(d) then ScanClose(d)
    else
      match NextToken(d)
      case Got(t, d1) =>
        if !t.Str? then Malformed
        else if t.text in seen then Duplicate(t.text)
        else
          (match ScanValue(d1)
           case Ok(d2) => ScanObject(d2, seen + {t.text})
           case other => other)
      case _ => Malformed
  }

  function ScanArray(d: Dec): (r: Scan)
    ensures r.Ok? ==> |r.dec.rest| <= |d.rest|
    decreases |d.rest|, 2
  {
    if !More(d) then ScanClose(d)
    else
      match ScanValue(d)
      case Ok(d1) => ScanArray(d1)
      case other => other
  }

  // ------------------------------------------------------------------ the scanner on well-formed text

  /** Where a decoder stands before an item, and before a member. */
  function ArrayPlace(first: bool): Place { if first then ArrayStart else ArrayComma }

  function ObjectPlace(first: bool): Place { if first then ObjectStart else ObjectComma }

  predicate TwoNamed(members: seq<Member>, name: string) {
    exists i, j :: 0 <= i < j < |members| && members[i].name == name && members[j].name == name
  }

  /** Some object of the tree has two members of this name. */
  predicate Repeats(v: Raw, name: string) {
    match v
    case RArr(items) => exists x :: x in items && Repeats(x, name)
    case RObj(members) => TwoNamed(members, name) || exists m :: m in members && Repeats(m.value, name)
    case _ => false
  }

  /** The verdict the scanner should reach on a tree, standing at a place for a value. */
  predicate Right(v: Raw, r: Scan, rest: seq<Token>, place: Place, stack: seq<Place>) {
    if NoRepeats(v) then r == Ok(Dec(rest, ValueEnd(place), stack)) else r.Duplicate? && Repeats(v, r.name)
  }

  predicate RightItems(items: seq<Raw>, r: Scan, rest: seq<Token>, place: Place, stack: seq<Place>) {
    if forall x :: x in items ==> NoRepeats(x) then r == Ok(Dec(rest, ValueEnd(place), stack))
    else r.Duplicate? && exists x :: x in items && Repeats(x, r.name)
  }

  /** Distinct names, none of them seen before, and no repetition inside the values. */
  predicate FreshMembers(members: seq<Member>, seen: set<string>) {
    && DistinctNames(members) && Names(members) !! seen
    && forall m :: m in members ==> NoRepeats(m.value)
  }

  /** A member of this name comes after one seen before, or there are two, or the repetition is inside a value. */
  predicate StaleMember(members: seq<Member>, seen: set<string>, name: string) {
    || (name in seen && name in Names(members))
    || TwoNamed(members, name)
    || exists m :: m in members && Repeats(m.value, name)
  }

  predicate RightMembers(
    members: seq<Member>, seen: set<string>, r: Scan, rest: seq<Token>, place: Place, stack: seq<Place>) {
    if FreshMembers(members, seen) then r == Ok(Dec(rest, ValueEnd(place), stack))
    else r.Duplicate? && StaleMember(members, seen, r.name)
  }

  lemma StaleCons(m: Member, ms: seq<Member>, seen: set<string>, name: string)
    requires (name == m.name && name in seen) || Repeats(m.value, name) || StaleMember(ms, seen + {m.name}, name)
    ensures StaleMember([m] + ms, seen, name)
  {
    var all := [m] + ms;
    assert m in all && forall x :: x in ms ==> x in all;
    if TwoNamed(ms, name) {
      var i, j :| 0 <= i < j < |ms| && ms[i].name == name && ms[j].name == name;
      assert all[i + 1].name == name && all[j + 1].name == name;
    } else if name == m.name && name in Names(ms) {
      var x :| x in ms && x.name == name;
      var j :| 0 <= j < |ms| && ms[j] == x;
      assert all[0].name == name && all[j + 1].name == name;
    }
  }

  /** A separator before a value is the decoder's business, not the scanner's. */
  lemma SkipComma(ts: seq<Token>, stack: seq<Place>)
    ensures NextToken(Dec([Comma] + ts, ArrayComma, stack)) == NextToken(Dec(ts, ArrayValue, stack))
    ensures NextToken(Dec([Comma] + ts, ObjectComma, stack)) == NextToken(Dec(ts, ObjectKey, stack))
    ensures NextToken(Dec([Colon] + ts, ObjectColon, stack)) == NextToken(Dec(ts, ObjectValue, stack))
  {
    assert ([Comma] + ts)[1..] == ts;
    assert ([Colon] + ts)[1..] == ts;
  }

  /** On a well-formed value the scanner consumes exactly its tokens, or reports a repeated name. */
  lemma {:induction false} ScanTokens(v: Raw, rest: seq<Token>, place: Place, stack: seq<Place>)
    requires ValueAllowed(place)
    ensures Right(v, ScanValue(Dec(Tokens(v) + rest, place, stack)), rest, place, stack)
    decreases v, 1
  {
    var ts := Tokens(v) + rest;
    match v
    case RArr(items) =>
      assert ts[1..] == ItemTokens(items, true) + rest;
      ScanItemTokens(items, true, rest, place, stack);
    case RObj(members) =>
      assert ts[1..] == MemberTokens(members, true) + rest;
      ScanMemberTokens(members, true, {}, rest, place, stack);
      assert FreshMembers(members, {}) <==> NoRepeats(v);
    case _ => assert ts[1..] == rest;
  }

  lemma {:induction false} ScanItemTokens(
    items: seq<Raw>, first: bool, rest: seq<Token>, place: Place, stack: seq<Place>)
    ensures var d := Dec(ItemTokens(items, first) + rest, ArrayPlace(first), stack + [place]);
            RightItems(items, ScanArray(d), rest, place, stack)
    decreases items, 0
  {
    if items == [] {
      CloseTokens(rest, place, stack);
    } else {
      var x, xs := items[0], items[1..];
      var tail := ItemTokens(xs, false) + rest;
      ScanTokens(x, tail, if first then ArrayStart else ArrayValue, stack + [place]);
      ScanItemTokens(xs, false, rest, place, stack);
      ScanItemCons(x, xs, first, rest, place, stack);
      assert [x] + xs == items;
    }
  }

  lemma CloseTokens(rest: seq<Token>, place: Place, stack: seq<Place>)
    ensures forall p :: p == ArrayStart || p == ArrayComma ==>
              ScanArray(Dec([RBracket] + rest, p, stack + [place])) == Ok(Dec(rest, ValueEnd(place), stack))
    ensures forall p, seen :: p == ObjectStart || p == ObjectComma ==>
              ScanObject(Dec([RBrace] + rest, p, stack + [place]), seen) == Ok(Dec(rest, ValueEnd(place), stack))
  {
    assert ([RBracket] + rest)[1..] == rest && ([RBrace] + rest)[1..] == rest;
    assert (stack + [place])[..|stack|] == stack;
  }

  lemma ScanItemCons(x: Raw, xs: seq<Raw>, first: bool, rest: seq<Token>, place: Place, stack: seq<Place>)
    requires var p := if first then ArrayStart else ArrayValue;
             Right(x, ScanValue(Dec(Tokens(x) + (ItemTokens(xs, false) + rest), p, stack + [place])),
                   ItemTokens(xs, false) + rest, p, stack + [place])
    requires RightItems(xs, ScanArray(Dec(ItemTokens(xs, false) + rest, ArrayComma, stack + [place])),
                        rest, place, stack)
    ensures RightItems([x] + xs,
                       ScanArray(Dec(ItemTokens([x] + xs, first) + rest, ArrayPlace(first), stack + [place])),
                       rest, place, stack)
  {
    var tail := ItemTokens(xs, false) + rest;
    var st := stack + [place];
    ItemTokensCons(x, xs, first, rest);
    ItemToken(x, tail, first, st);
    ItemsCons(x, xs);
    if !NoRepeats(x) {
      assert x in [x] + xs;
    }
  }

  lemma ItemsCons(x: Raw, xs: seq<Raw>)
    ensures (forall y :: y in [x] + xs ==> NoRepeats(y)) <==> NoRepeats(x) && forall y :: y in xs ==> NoRepeats(y)
    ensures forall y :: y in xs ==> y in [x] + xs
  {
    assert forall y :: y in [x] + xs <==> y == x || y in xs;
  }

  lemma ItemToken(x: Raw, tail: seq<Token>, first: bool, stack: seq<Place>)
    ensures var from := Tokens(x) + tail;
            var d := Dec(Separated(from, first), ArrayPlace(first), stack);
            More(d) && ScanValue(d) == ScanValue(Dec(from, if first then ArrayStart else ArrayValue, stack))
  {
    var from := Tokens(x) + tail;
    TokensStart(x);
    SkipComma(from, stack);
    assert first ==> Separated(from, first) == from;
  }

  lemma {:induction false} ScanMemberTokens(
    members: seq<Member>, first: bool, seen: set<string>, rest: seq<Token>, place: Place, stack: seq<Place>)
    ensures var d := Dec(MemberTokens(members, first) + rest, ObjectPlace(first), stack + [place]);
            RightMembers(members, seen, ScanObject(d, seen), rest, place, stack)
    decreases members, 0
  {
    if members == [] {
      CloseTokens(rest, place, stack);
    } else {
      var m, ms := members[0], members[1..];
      var tail := MemberTokens(ms, false) + rest;
      ScanTokens(m.value, tail, ObjectValue, stack + [place]);
      ScanMemberTokens(ms, false, seen + {m.name}, rest, place, stack);
      ScanMemberCons(m, ms, first, seen, rest, place, stack);
      assert [m] + ms == members;
    }
  }

  lemma FreshCons(m: Member, ms: seq<Member>, seen: set<string>)
    ensures FreshMembers([m] + ms, seen) <==> m.name !in seen && NoRepeats(m.value) && FreshMembers(ms, seen + {m.name})
  {
    var all := [m] + ms;
    assert forall x :: x in all <==> x == m || x in ms;
    assert Names(all) == {m.name} + Names(ms);
    if FreshMembers(all, seen) {
      forall i, j | 0 <= i < j < |ms| ensures ms[i].name != ms[j].name {
        assert all[i + 1].name != all[j + 1].name;
      }
      forall k | 0 <= k < |ms| ensures ms[k].name != m.name {
        assert all[0].name != all[k + 1].name;
      }
    }
    if m.name !in seen && FreshMembers(ms, seen + {m.name}) {
      forall i, j | 0 <= i < j < |all| ensures all[i].name != all[j].name {
        if i == 0 { assert ms[j - 1].name in Names(ms); } else { assert ms[i - 1].name != ms[j - 1].name; }
      }
    }
  }

  lemma ScanMemberCons(
    m: Member, ms: seq<Member>, first: bool, seen: set<string>, rest: seq<Token>, place: Place, stack: seq<Place>)
    requires Right(m.value,
                   ScanValue(Dec(Tokens(m.value) + (MemberTokens(ms, false) + rest), ObjectValue, stack + [place])),
                   MemberTokens(ms, false) + rest, ObjectValue, stack + [place])
    requires RightMembers(ms, seen + {m.name},
                          ScanObject(Dec(MemberTokens(ms, false) + rest, ObjectComma, stack + [place]),
                                     seen + {m.name}),
                          rest, place, stack)
    ensures RightMembers([m] + ms, seen,
                         ScanObject(Dec(MemberTokens([m] + ms, first) + rest, ObjectPlace(first), stack + [place]),
                                    seen),
                         rest, place, stack)
  {
    var body := Tokens(m.value) + (MemberTokens(ms, false) + rest);
    var st := stack + [place];
    MemberTokensCons(m, ms, first, rest);
    NameToken(m.name, body, first, st);
    SkipComma(body, st);
    assert ScanValue(Dec([Colon] + body, ObjectColon, st)) == ScanValue(Dec(body, ObjectValue, st));
    FreshCons(m, ms, seen);
    var r := ScanObject(Dec(MemberTokens([m] + ms, first) + rest, ObjectPlace(first), st), seen);
    if !FreshMembers([m] + ms, seen) { StaleCons(m, ms, seen, r.name); }
  }

  lemma NameToken(name: string, body: seq<Token>, first: bool, stack: seq<Place>)
    ensures var d := Dec(Separated([Str(name), Colon] + body, first), ObjectPlace(first), stack);
            More(d) && NextToken(d) == Got(Str(name), Dec([Colon] + body, ObjectColon, stack))
  {
    var from := [Str(name), Colon] + body;
    assert from[1..] == [Colon] + body;
    SkipComma(from, stack);
  }

  // ------------------------------------------------------------------ the scanner of the source

  datatype Outcome = Accepted | Repeated(name: string) | Rejected

  function Verdict(r: Scan): Outcome {
    match r
    case Ok(_) => Accepted
    case Duplicate(name) => Repeated(name)
    case Malformed => Rejected
  }

  datatype Read = ReadToken(token: Token) | ReadEof | ReadError

  /** A streaming decoder and the scanning methods that advance it. */
  class Decoder {
    var rest: seq<Token>
    var place: Place
    var stack: seq<Place>

    ghost function Now(): Dec
      reads this
    {
      Dec(rest, place, stack)
    }

    constructor (ts: seq<Token>)
      ensures Now() == Dec(ts, TopValue, [])
    {
      rest, place, stack := ts, TopValue, [];
    }

    method Token() returns (r: Read)
      modifies this
      ensures var n := NextToken(old(Now()));
              match n
              case Got(t, d) => r == ReadToken(t) && Now() == d
              case Eof(d) => r == ReadEof && Now() == d
              case Error => r == ReadError
    {
      ghost var start := Now();
      while true
        invariant NextToken(Now()) == NextToken(start)
        decreases |rest|
      {
        if |rest| == 0 { return ReadEof; }
        var t := rest[0];
        if t == Colon && place == ObjectColon {
          rest, place := rest[1..], ObjectValue;
        } else if t == Comma && place == ArrayComma {
          rest, place := rest[1..], ArrayValue;
        } else if t == Comma && place == ObjectComma {
          rest, place := rest[1..], ObjectKey;
        } else {
          match NextToken(Dec(rest, place, stack)) {
            case Got(token, d) =>
              rest, place, stack := d.rest, d.place, d.stack;
              return ReadToken(token);
            case _ => return ReadError;
          }
        }
      }
    }

    method HasMore() returns (more: bool)
      ensures more == More(Now())
    {
      more := |rest| != 0 && rest[0] != RBracket && rest[0] != RBrace;
    }

    method ScanJSONValue() returns (r: Outcome)
      modifies this
      ensures r == Verdict(ScanValue(old(Now())))
      ensures r.Accepted? ==> Now() == ScanValue(old(Now())).dec
      decreases |rest|, 1
    {
      var tok := Token();
      match tok
      case ReadEof => return Accepted;
      case ReadError => return Rejected;
      case ReadToken(t) =>
        if t == LBrace {
          r := ScanJSONObject();
        } else if t == LBracket {
          r := ScanJSONArray();
        } else if t == RBrace || t == RBracket {
          return Rejected;
        } else {
          return Accepted;
        }
    }

    method ScanJSONObject() returns (r: Outcome)
      modifies this
      ensures r == Verdict(ScanObject(old(Now()), {}))
      ensures r.Accepted? ==> Now() == ScanObject(old(Now()), {}).dec
      decreases |rest|, 2
    {
      var seen: set<string> := {};
      var more := HasMore();
      while more
        invariant more == More(Now())
        invariant ScanObject(Now(), seen) == ScanObject(old(Now()), {})
        invariant |rest| <= old(|rest|)
        decreases |rest|
      {
        var key := Token();
        if !key.ReadToken? || !key.token.Str? { return Rejected; }
        if key.token.text in seen { return Repeated(key.token.text); }
        seen := seen + {key.token.text};
        var inner := ScanJSONValue();
        if !inner.Accepted? { return inner; }
        more := HasMore();
      }
      var close := Token();
      if !close.ReadToken? { return Rejected; }
      return Accepted;
    }

    method ScanJSONArray() returns (r: Outcome)
      modifies this
      ensures r == Verdict(ScanArray(old(Now())))
      ensures r.Accepted? ==> Now() == ScanArray(old(Now())).dec
      decreases |rest|, 2
    {
      var more := HasMore();
      while more
        invariant more == More(Now())
        invariant ScanArray(Now()) == ScanArray(old(Now()))
        invariant |rest| <= old(|rest|)
        decreases |rest|
      {
        var inner := ScanJSONValue();
        if !inner.Accepted? { return inner; }
        more := HasMore();
      }
      var close := Token();
      if !close.ReadToken? { return Rejected; }
      return Accepted;
    }
  }

  method DetectDuplicateJSONKeys(ts: seq<Token>) returns (r: Outcome)
    ensures r == Verdict(ScanValue(Dec(ts, TopValue, [])))
  {
    var dec := new Decoder(ts);
    r := dec.ScanJSONValue();
  }
}
