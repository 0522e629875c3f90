/** Amino JSON sign documents: the duplicate gate, the decoded value and its canonical text. */
module Amino {
  import opened Text
  import opened Json
  import opened Scanner

  /** Decoded values. `F` is the type of finite floating-point numbers. */
  datatype Value<F> =
    | VNull | VBool(b: bool) | VNum(n: F) | VStr(text: string)
    | VArr(items: seq<Value<F>>)
    | VObj(fields: map<string, Value<F>>)

  /** Number text to number and back. A lexeme out of range has no number. */
  datatype Numbers<!F> = Numbers(parse: string -> Option<F>, show: F -> string)

  /** The shown number reads back as the same number. */
  ghost predicate Exact<F(!new)>(num: Numbers<F>) {
    forall x: F :: num.parse(num.show(x)) == Some(x)
  }

  // ------------------------------------------------------------------ decoding

  predicate Decodable<F>(num: Numbers<F>, v: Raw) {
    match v
    case RNum(l) => num.parse(l).Some?
    case RArr(items) => forall x :: x in items ==> Decodable(num, x)
    case RObj(members) => forall m :: m in members ==> Decodable(num, m.value)
    case _ => true
  }

  /** The decoded value, `last` telling whether the last or the first member of a name counts. Go takes the last. */
  function Decode<F>(num: Numbers<F>, v: Raw, last: bool): Value<F>
    requires Decodable(num, v)
    decreases v, 1
  {
    match v
    case RNull => VNull
    case RBool(b) => VBool(b)
    case RNum(l) => VNum(num.parse(l).value)
    case RStr(s) => VStr(s)
    case RArr(items) => VArr(seq(|items|, i requires 0 <= i < |items| => Decode(num, items[i], last)))
    case RObj(members) => VObj(DecodeMembers(num, members, last))
  }

  function DecodeMembers<F>(num: Numbers<F>, members: seq<Member>, last: bool): (r: map<string, Value<F>>)
    requires forall m :: m in members ==> Decodable(num, m.value)
    ensures r.Keys == Names(members)
    decreases members, 0
  {
    if members == [] then map[]
    else
      var n := |members| - 1;
      var before := DecodeMembers(num, members[..n], last);
      var m := members[n];
      assert members == members[..n] + [m];
      if last || m.name !in before then before[m.name := Decode(num, m.value, last)] else before
  }

  /** Without repeated names the two readings agree. */
  lemma {:induction false} ReadingsAgree<F>(num: Numbers<F>, v: Raw)
    requires Decodable(num, v) && NoRepeats(v)
    ensures Decode(num, v, true) == Decode(num, v, false)
    decreases v, 1
  {
    match v
    case RArr(items) =>
      forall i | 0 <= i < |items| ensures Decode(num, items[i], true) == Decode(num, items[i], false) {
        assert items[i] in items;
        ReadingsAgree(num, items[i]);
      }
    case RObj(members) => MemberReadingsAgree(num, members);
    case _ =>
  }

  lemma {:induction false} MemberReadingsAgree<F>(num: Numbers<F>, members: seq<Member>)
    requires forall m :: m in members ==> Decodable(num, m.value) && NoRepeats(m.value)
    requires DistinctNames(members)
    ensures DecodeMembers(num, members, true) == DecodeMembers(num, members, false)
    decreases members, 0
  {
    if members != [] {
      var n := |members| - 1;
      var m := members[n];
      assert members == members[..n] + [m];
      MemberReadingsAgree(num, members[..n]);
      ReadingsAgree(num, m.value);
      assert m.name !in Names(members[..n]);
    }
  }

  /** A member list without repeated names is read by looking each name up. */
  lemma {:induction false} DecodeMemberAt<F>(num: Numbers<F>, members: seq<Member>, k: nat)
    requires forall m :: m in members ==> Decodable(num, m.value)
    requires DistinctNames(members) && k < |members|
    ensures members[k].name in DecodeMembers(num, members, true)
    ensures DecodeMembers(num, members, true)[members[k].name] == Decode(num, members[k].value, true)
  {
    var n := |members| - 1;
    assert members == members[..n] + [members[n]];
    if k < n { DecodeMemberAt(num, members[..n], k); }
  }

  /**
   The same document but for the order of members, at any depth, and the spelling of numbers: arrays item by item,
   objects name by name.
   */
  predicate Reordered<F(==)>(num: Numbers<F>, v: Raw, w: Raw) {
    match v
    case RNum(l) => w.RNum? && num.parse(l) == num.parse(w.lexeme)
    case RArr(items) =>
      w.RArr? && |w.items| == |items| && forall i :: 0 <= i < |items| ==> Reordered(num, items[i], w.items[i])
    case RObj(members) =>
      && w.RObj? && DistinctNames(members) && DistinctNames(w.members) && Names(w.members) == Names(members)
      && forall i, j :: 0 <= i < |members| && 0 <= j < |w.members| && members[i].name == w.members[j].name ==>
           Reordered(num, members[i].value, w.members[j].value)
    case _ => w == v
  }

  /** Without repeated names, that is exactly to denote the same value. */
  lemma {:induction false} ReorderedExact<F>(num: Numbers<F>, v: Raw, w: Raw)
    requires Decodable(num, v) && Decodable(num, w) && NoRepeats(v) && NoRepeats(w)
    ensures Reordered(num, v, w) <==> Decode(num, v, true) == Decode(num, w, true)
    decreases v, 1
  {
    if v.RArr? && w.RArr? {
      ReorderedArray(num, v, w);
    } else if v.RObj? && w.RObj? {
      ReorderedObject(num, v, w);
    }
  }

  lemma {:induction false} ReorderedArray<F>(num: Numbers<F>, v: Raw, w: Raw)
    requires Decodable(num, v) && Decodable(num, w) && NoRepeats(v) && NoRepeats(w) && v.RArr? && w.RArr?
    ensures Reordered(num, v, w) <==> Decode(num, v, true) == Decode(num, w, true)
    decreases v, 0
  {
    var x, y := Decode(num, v, true).items, Decode(num, w, true).items;
    assert |x| == |v.items| && |y| == |w.items|;
    if |v.items| == |w.items| {
      forall i | 0 <= i < |v.items| ensures Reordered(num, v.items[i], w.items[i]) <==> x[i] == y[i] {
        assert v.items[i] in v.items && w.items[i] in w.items;
        ReorderedExact(num, v.items[i], w.items[i]);
      }
      if Reordered(num, v, w) { assert x == y; }
    }
  }

  lemma {:induction false} ReorderedObject<F>(num: Numbers<F>, v: Raw, w: Raw)
    requires Decodable(num, v) && Decodable(num, w) && NoRepeats(v) && NoRepeats(w) && v.RObj? && w.RObj?
    ensures Reordered(num, v, w) <==> Decode(num, v, true) == Decode(num, w, true)
    decreases v, 0
  {
    var a, b := v.members, w.members;
    var x, y := DecodeMembers(num, a, true), DecodeMembers(num, b, true);
    forall i, j | 0 <= i < |a| && 0 <= j < |b| && a[i].name == b[j].name
      ensures Reordered(num, a[i].value, b[j].value) <==> x[a[i].name] == y[a[i].name]
    {
      assert a[i] in a && b[j] in b;
      ReorderedExact(num, a[i].value, b[j].value);
      DecodeMemberAt(num, a, i);
      DecodeMemberAt(num, b, j);
    }
    if Reordered(num, v, w) {
      forall n | n in Names(a) ensures x[n] == y[n] {
        assert n in Names(b);
        var i :| 0 <= i < |a| && a[i].name == n;
        var j :| 0 <= j < |b| && b[j].name == n;
        assert Reordered(num, a[i].value, b[j].value);
      }
      assert x == y;
    }
  }

  /** Reordering keeps a document acceptable. */
  lemma {:induction false} ReorderedClear<F>(num: Numbers<F>, v: Raw, w: Raw, d: nat)
    requires NoRepeats(v) && Shallow(v, d) && Decodable(num, v) && Reordered(num, v, w)
    ensures NoRepeats(w) && Shallow(w, d) && Decodable(num, w)
  {
    if v.RArr? {
      forall x | x in w.items ensures NoRepeats(x) && Shallow(x, d - 1) && Decodable(num, x) {
        var i :| 0 <= i < |w.items| && w.items[i] == x;
        assert v.items[i] in v.items;
        ReorderedClear(num, v.items[i], x, d - 1);
      }
    } else if v.RObj? {
      forall m | m in w.members ensures NoRepeats(m.value) && Shallow(m.value, d - 1) && Decodable(num, m.value) {
        var j :| 0 <= j < |w.members| && w.members[j] == m;
        assert m.name in Names(v.members);
        var i :| 0 <= i < |v.members| && v.members[i].name == m.name;
        assert v.members[i] in v.members;
        ReorderedClear(num, v.members[i].value, m.value, d - 1);
      }
    }
  }

  // ------------------------------------------------------------------ canonical text

  /** The syntax tree that is printed for a value: members sorted by name at every depth. */
  ghost function Show<F>(num: Numbers<F>, j: Value<F>): Raw {
    match j
    case VNull => RNull
    case VBool(b) => RBool(b)
    case VNum(n) => RNum(num.show(n))
    case VStr(s) => RStr(s)
    case VArr(items) => RArr(seq(|items|, i requires 0 <= i < |items| => Show(num, items[i])))
    case VObj(fields) =>
      var names := SortedNames(fields.Keys);
      RObj(seq(|names|, i requires 0 <= i < |names| =>
        assert names[i] in names; Member(names[i], Show(num, fields[names[i]]))))
  }

  predicate SortedTree(v: Raw) {
    match v
    case RArr(items) => forall x :: x in items ==> SortedTree(x)
    case RObj(members) =>
      && (forall i, j :: 0 <= i < j < |members| ==> Less(members[i].name, members[j].name))
      && forall m :: m in members ==> SortedTree(m.value)
    case _ => true
  }

  /** The printed tree is sorted and free of repetitions, and decoding it gives the value back. */
  lemma {:induction false} ShowRoundTrip<F(!new)>(num: Numbers<F>, j: Value<F>)
    requires Exact(num)
    ensures SortedTree(Show(num, j)) && NoRepeats(Show(num, j))
    ensures Decodable(num, Show(num, j)) && Decode(num, Show(num, j), true) == j
  {
    match j
    case VArr(items) =>
      forall i | 0 <= i < |items|
        ensures var v := Show(num, items[i]);
                SortedTree(v) && NoRepeats(v) && Decodable(num, v) && Decode(num, v, true) == items[i]
      {
        ShowRoundTrip(num, items[i]);
      }
      assert Decode(num, Show(num, j), true).items == items;
    case VObj(fields) =>
      var names := SortedNames(fields.Keys);
      forall i | 0 <= i < |names|
        ensures names[i] in fields
        ensures var v := Show(num, fields[names[i]]);
                SortedTree(v) && NoRepeats(v) && Decodable(num, v) && Decode(num, v, true) == fields[names[i]]
      {
        assert names[i] in names;
        ShowRoundTrip(num, fields[names[i]]);
      }
      ShowMembersRoundTrip(num, fields, names, Show(num, j).members);
    case _ =>
  }

  predicate Shown<F(==)>(num: Numbers<F>, m: Member, name: string, v: Value<F>) {
    && m.name == name && SortedTree(m.value) && NoRepeats(m.value)
    && Decodable(num, m.value) && Decode(num, m.value, true) == v
  }

  lemma ShownShape<F>(num: Numbers<F>, fields: map<string, Value<F>>, names: seq<string>, members: seq<Member>)
    requires Ascending(names) && (forall x :: x in names <==> x in fields) && |members| == |names|
    requires forall i :: 0 <= i < |names| ==> Shown(num, members[i], names[i], fields[names[i]])
    ensures DistinctNames(members) && forall m :: m in members ==> Decodable(num, m.value)
    ensures SortedTree(RObj(members)) && NoRepeats(RObj(members)) && Decodable(num, RObj(members))
  {
    AscendingDistinct(names);
    forall m | m in members ensures SortedTree(m.value) && NoRepeats(m.value) && Decodable(num, m.value) {
      var i :| 0 <= i < |members| && members[i] == m;
      assert Shown(num, members[i], names[i], fields[names[i]]);
    }
  }

  lemma ShowMembersRoundTrip<F>(
    num: Numbers<F>, fields: map<string, Value<F>>, names: seq<string>, members: seq<Member>)
    requires Ascending(names) && (forall x :: x in names <==> x in fields) && |members| == |names|
    requires forall i :: 0 <= i < |names| ==> Shown(num, members[i], names[i], fields[names[i]])
    ensures SortedTree(RObj(members)) && NoRepeats(RObj(members)) && Decodable(num, RObj(members))
    ensures DecodeMembers(num, members, true) == fields
  {
    ShownShape(num, fields, names, members);
    var r := DecodeMembers(num, members, true);
    forall n ensures n in r <==> n in fields
             ensures n in r && n in fields ==> r[n] == fields[n]
    {
      ShowMemberRoundTrip(num, fields, names, members, n);
    }
  }

  lemma ShowMemberRoundTrip<F>(
    num: Numbers<F>, fields: map<string, Value<F>>, names: seq<string>, members: seq<Member>, n: string)
    requires Ascending(names) && (forall x :: x in names <==> x in fields) && |members| == |names|
    requires DistinctNames(members) && forall m :: m in members ==> Decodable(num, m.value)
    requires forall i :: 0 <= i < |names| ==> Shown(num, members[i], names[i], fields[names[i]])
    ensures var r := DecodeMembers(num, members, true);
            (n in r <==> n in fields) && (n in r && n in fields ==> r[n] == fields[n])
  {
    if n in fields {
      var i :| 0 <= i < |names| && names[i] == n;
      DecodeMemberAt(num, members, i);
    }
    if n in Names(members) {
      var i :| 0 <= i < |members| && members[i].name == n;
      assert names[i] in names;
    }
  }

  // ------------------------------------------------------------------ nesting limit

  /** The nesting limit of the JSON library. */
  const MAX_DEPTH: nat := 10000

  predicate Shallow(v: Raw, d: nat) {
    match v
    case RArr(items) => d > 0 && forall x :: x in items ==> Shallow(x, d - 1)
    case RObj(members) => d > 0 && forall m :: m in members ==> Shallow(m.value, d - 1)
    case _ => true
  }

  predicate ShallowValue<F>(j: Value<F>, d: nat) {
    match j
    case VArr(items) => d > 0 && forall i :: 0 <= i < |items| ==> ShallowValue(items[i], d - 1)
    case VObj(fields) => d > 0 && forall n :: n in fields ==> ShallowValue(fields[n], d - 1)
    case _ => true
  }

  lemma {:induction false} DecodeShallow<F>(num: Numbers<F>, v: Raw, d: nat)
    requires Decodable(num, v) && Shallow(v, d)
    ensures ShallowValue(Decode(num, v, true), d)
    decreases v, 1
  {
    match v
    case RArr(items) =>
      forall i | 0 <= i < |items| ensures ShallowValue(Decode(num, items[i], true), d - 1) {
        assert items[i] in items;
        DecodeShallow(num, items[i], d - 1);
      }
    case RObj(members) => DecodeMembersShallow(num, members, d - 1);
    case _ =>
  }

  lemma {:induction false} DecodeMembersShallow<F>(num: Numbers<F>, members: seq<Member>, d: nat)
    requires forall m :: m in members ==> Decodable(num, m.value) && Shallow(m.value, d)
    ensures forall n :: n in DecodeMembers(num, members, true) ==> ShallowValue(DecodeMembers(num, members, true)[n], d)
    decreases members, 0
  {
    if members != [] {
      var n := |members| - 1;
      assert members == members[..n] + [members[n]];
      DecodeMembersShallow(num, members[..n], d);
      DecodeShallow(num, members[n].value, d);
    }
  }

  lemma {:induction false} ShowShallow<F>(num: Numbers<F>, j: Value<F>, d: nat)
    requires ShallowValue(j, d)
    ensures Shallow(Show(num, j), d)
  {
    match j
    case VArr(items) =>
      forall i | 0 <= i < |items| ensures Shallow(Show(num, items[i]), d - 1) { ShowShallow(num, items[i], d - 1); }
    case VObj(fields) =>
      var names := SortedNames(fields.Keys);
      forall i | 0 <= i < |names| ensures names[i] in fields && Shallow(Show(num, fields[names[i]]), d - 1) {
        assert names[i] in names;
        ShowShallow(num, fields[names[i]], d - 1);
      }
    case _ =>
  }

  // ------------------------------------------------------------------ SignAmino

  /** `json.Unmarshal` into an untyped value. */
  function Unmarshal<F>(num: Numbers<F>, ts: seq<Token>): Option<Value<F>> {
    match Parse(ts)
    case Some((v, rest)) =>
      if rest == [] && Shallow(v, MAX_DEPTH) && Decodable(num, v) then Some(Decode(num, v, true)) else None
    case None => None
  }

  /** `canonicaliseJSON`: unmarshal, then marshal. */
  ghost function Canonicalise<F>(num: Numbers<F>, ts: seq<Token>): Option<seq<Token>> {
    match Unmarshal(num, ts)
    case Some(j) => Some(Tokens(Show(num, j)))
    case None => None
  }

  datatype Signing = Hashes(text: seq<Token>) | RepeatedName(name: string) | ScanFails | ParseFails

  /** `SignAmino` up to the hash: the duplicate gate, then the canonical text. */
  ghost function SignAmino<F>(num: Numbers<F>, ts: seq<Token>): Signing {
    match Verdict(ScanValue(Dec(ts, TopValue, [])))
    case Repeated(name) => RepeatedName(name)
    case Rejected => ScanFails
    case Accepted =>
      match Canonicalise(num, ts)
      case Some(text) => Hashes(text)
      case None => ParseFails
  }

  /** One well-formed value, within the nesting limit, with numbers in range and no repeated name anywhere. */
  predicate Clear<F>(num: Numbers<F>, v: Raw) {
    NoRepeats(v) && Shallow(v, MAX_DEPTH) && Decodable(num, v)
  }

  lemma ClearHashes<F>(num: Numbers<F>, v: Raw)
    requires Clear(num, v)
    ensures SignAmino(num, Tokens(v)) == Hashes(Tokens(Show(num, Decode(num, v, true))))
    ensures Unmarshal(num, Tokens(v)) == Some(Decode(num, v, true))
  {
    assert Tokens(v) + [] == Tokens(v);
    ScanTokens(v, [], TopValue, []);
    ParseTokens(v, []);
  }

  lemma HashesClear<F>(num: Numbers<F>, ts: seq<Token>) returns (v: Raw)
    requires SignAmino(num, ts).Hashes?
    ensures ts == Tokens(v) && Clear(num, v)
  {
    ParseSound(ts);
    v := Parse(ts).value.0;
    assert Tokens(v) + [] == Tokens(v) == ts;
    ScanTokens(v, [], TopValue, []);
  }

  /**
   The hash step is reached exactly when the tokens are one well-formed value with no repeated name in any object at any
   depth. That value is the only one with these tokens, and its first-wins and last-wins readings agree.
   */
  lemma GateExact<F>(num: Numbers<F>, ts: seq<Token>)
    ensures SignAmino(num, ts).Hashes? <==> exists v :: ts == Tokens(v) && Clear(num, v)
    ensures forall v, w :: ts == Tokens(v) && ts == Tokens(w) ==> v == w
    ensures forall v :: ts == Tokens(v) && Clear(num, v) ==> Decode(num, v, true) == Decode(num, v, false)
  {
    forall v, w | ts == Tokens(v) && ts == Tokens(w) ensures v == w { TokensInjective(v, w); }
    if SignAmino(num, ts).Hashes? {
      var v := HashesClear(num, ts);
      assert ts == Tokens(v) && Clear(num, v);
    }
    forall v | ts == Tokens(v) && Clear(num, v)
      ensures SignAmino(num, ts).Hashes? && Decode(num, v, true) == Decode(num, v, false)
    {
      ClearHashes(num, v);
      ReadingsAgree(num, v);
    }
  }

  /** A well-formed value with a repeated name is always reported as such, and the reported name does repeat. */
  lemma RepeatReported<F>(num: Numbers<F>, v: Raw)
    requires !NoRepeats(v)
    ensures SignAmino(num, Tokens(v)).RepeatedName? && Repeats(v, SignAmino(num, Tokens(v)).name)
  {
    assert Tokens(v) + [] == Tokens(v);
    ScanTokens(v, [], TopValue, []);
  }

  /** The canonical text denotes the same value, passes the gate, and is its own canonical text. */
  lemma CanonicalFixpoint<F(!new)>(num: Numbers<F>, ts: seq<Token>)
    requires Exact(num) && SignAmino(num, ts).Hashes?
    ensures var text := SignAmino(num, ts).text;
            Unmarshal(num, text) == Unmarshal(num, ts) && SignAmino(num, text) == Hashes(text)
  {
    var v := HashesClear(num, ts);
    ClearHashes(num, v);
    var j := Decode(num, v, true);
    ShowRoundTrip(num, j);
    DecodeShallow(num, v, MAX_DEPTH);
    ShowShallow(num, j, MAX_DEPTH);
    ClearHashes(num, Show(num, j));
  }

  /** Two accepted documents have the same canonical text exactly when they denote the same value. */
  lemma SameTextSameValue<F(!new)>(num: Numbers<F>, a: seq<Token>, b: seq<Token>)
    requires Exact(num) && SignAmino(num, a).Hashes? && SignAmino(num, b).Hashes?
    ensures SignAmino(num, a).text == SignAmino(num, b).text <==> Unmarshal(num, a) == Unmarshal(num, b)
  {
    CanonicalFixpoint(num, a);
    CanonicalFixpoint(num, b);
  }

  /** The order of members never matters, at any depth. */
  lemma OrderNeverMatters<F>(num: Numbers<F>, v: Raw, w: Raw)
    requires Clear(num, v)
    ensures Reordered(num, v, w) ==> Clear(num, w) && SignAmino(num, Tokens(v)) == SignAmino(num, Tokens(w))
  {
    if Reordered(num, v, w) {
      ReorderedClear(num, v, w, MAX_DEPTH);
      ReorderedExact(num, v, w);
      ClearHashes(num, v);
      ClearHashes(num, w);
    }
  }

  /** Two acceptable documents are hashed alike exactly when they differ in member order and number spelling alone. */
  lemma HashedAlike<F(!new)>(num: Numbers<F>, v: Raw, w: Raw)
    requires Exact(num) && Clear(num, v) && Clear(num, w)
    ensures SignAmino(num, Tokens(v)) == SignAmino(num, Tokens(w)) <==> Reordered(num, v, w)
  {
    ClearHashes(num, v);
    ClearHashes(num, w);
    SameTextSameValue(num, Tokens(v), Tokens(w));
    ReorderedExact(num, v, w);
  }

  /** What is hashed is the document itself with its members sorted: a reordering of it, sorted at every depth. */
  lemma CanonicalIsSorted<F(!new)>(num: Numbers<F>, v: Raw) returns (w: Raw)
    requires Exact(num) && Clear(num, v)
    ensures SignAmino(num, Tokens(v)) == Hashes(Tokens(w))
    ensures Reordered(num, v, w) && SortedTree(w)
  {
    ClearHashes(num, v);
    var j := Decode(num, v, true);
    w := Show(num, j);
    ShowRoundTrip(num, j);
    ReorderedExact(num, v, w);
  }
}
