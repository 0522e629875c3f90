/** Cursor pagination of the list endpoint. */
module Pages {
  import opened Text

  const LIMIT_DEFAULT: int := 100
  const LIMIT_MAX: int := 1000
  const MAX_INT: int := 0x7fff_ffff_ffff_ffff

  newtype int64 = x: int | -0x8000_0000_0000_0000 <= x < 0x8000_0000_0000_0000

  predicate Digits(s: string) { forall i :: 0 <= i < |s| ==> '0' <= s[i] <= '9' }

  function Decimal(s: string): nat
    requires Digits(s)
  {
    if s == "" then 0 else 10 * Decimal(s[..|s| - 1]) + (s[|s| - 1] as int - '0' as int)
  }

  /** `strconv.Atoi`: an optional sign, digits, and the range of a 64-bit integer. */
  function Atoi(s: string): Option<int> {
    var body := if s != "" && (s[0] == '+' || s[0] == '-') then s[1..] else s;
    if body == "" || !Digits(body) then None
    else
      var magnitude: int := Decimal(body);
      var n := if s[0] == '-' then -magnitude else magnitude;
      if -MAX_INT - 1 <= n <= MAX_INT then Some(n) else None
  }

  /** An absent limit and one below 1 mean the default, a large one the maximum; anything but an integer is an error. */
  function ParseListLimit(raw: string): (limit: Option<int>)
    ensures limit.Some? ==> 1 <= limit.value <= LIMIT_MAX
  {
    if raw == "" then Some(LIMIT_DEFAULT)
    else
      match Atoi(raw)
      case None => None
      case Some(n) => Some(if n < 1 then LIMIT_DEFAULT else if n > LIMIT_MAX then LIMIT_MAX else n)
  }

  function Digit(d: nat): char
    requires d < 10
  {
    ('0' as int + d) as char
  }

  /** A number in decimal, without leading zeros. */
  function Shown(n: nat): (s: string)
    ensures s != ""
  {
    (if n < 10 then "" else Shown(n / 10)) + [Digit(n % 10)]
  }

  predicate Zeros(s: string) { forall i :: 0 <= i < |s| ==> s[i] == '0' }

  lemma DecimalSnoc(s: string, d: nat)
    requires Digits(s) && d < 10
    ensures Digits(s + [Digit(d)]) && Decimal(s + [Digit(d)]) == 10 * Decimal(s) + d
  {
    var all := s + [Digit(d)];
    assert all[..|all| - 1] == s;
  }

  lemma {:induction false} ZerosDecimal(z: string)
    requires Zeros(z)
    ensures Digits(z) && Decimal(z) == 0
  {
    if z != "" { ZerosDecimal(z[..|z| - 1]); }
  }

  lemma {:induction false} PaddedDigits(z: string, n: nat)
    requires Zeros(z)
    ensures Digits(z + Shown(n)) && Decimal(z + Shown(n)) == n
    decreases n
  {
    if n < 10 {
      ZerosDecimal(z);
      DecimalSnoc(z, n);
      assert Shown(n) == [Digit(n)];
    } else {
      PaddedDigits(z, n / 10);
      DecimalSnoc(z + Shown(n / 10), n % 10);
      assert z + Shown(n) == z + Shown(n / 10) + [Digit(n % 10)];
    }
  }

  lemma ShownNext(n: nat, d: nat)
    requires d < 10
    ensures Shown(10 * n + d) == (if n == 0 then "" else Shown(n)) + [Digit(d)]
  {
    assert (10 * n + d) / 10 == n && (10 * n + d) % 10 == d;
  }

  /** Every text of digits is a number in decimal behind some zeros. */
  lemma {:induction false} DigitsShown(s: string) returns (z: string)
    requires s != "" && Digits(s)
    ensures Zeros(z) && s == z + Shown(Decimal(s))
  {
    var front, d := s[..|s| - 1], s[|s| - 1] as int - '0' as int;
    ShownNext(Decimal(front), d);
    assert s == front + [Digit(d)];
    z := "";
    if front != "" {
      z := DigitsShown(front);
      if Decimal(front) == 0 {
        ShownNext(0, 0);
        z := front;
      } else {
        assert s == z + (Shown(Decimal(front)) + [Digit(d)]);
      }
    }
  }

  /** A sign, or none. */
  predicate Sign(sign: string) { sign == "" || sign == "+" || sign == "-" }

  function Signed(sign: string, n: int): int { if sign == "-" then -n else n }

  /** The parsed texts: an optional sign, any zeros and a number in decimal, if it fits 64 bits; and no others. */
  lemma AtoiOfText(sign: string, z: string, n: nat)
    requires Sign(sign) && Zeros(z)
    ensures Atoi(sign + (z + Shown(n))) ==
              if -0x8000_0000_0000_0000 <= Signed(sign, n) < 0x8000_0000_0000_0000 then Some(Signed(sign, n)) else None
  {
    var body := z + Shown(n);
    PaddedDigits(z, n);
    assert body != "" && '0' <= body[0] <= '9';
    if sign == "" { assert sign + body == body; } else { assert (sign + body)[1..] == body; }
  }

  lemma TextOfAtoi(s: string) returns (sign: string, z: string)
    requires Atoi(s).Some?
    ensures Sign(sign) && Zeros(z)
    ensures var n := Atoi(s).value; s == sign + (z + Shown(if n < 0 then -n else n))
    ensures Atoi(s).value < 0 ==> sign == "-"
  {
    sign := if s[0] == '+' || s[0] == '-' then [s[0]] else "";
    var body := s[|sign|..];
    z := DigitsShown(body);
    assert s == sign + body;
  }

  /** The limit of a request, by its text: a number is itself between 1 and 1000, below that 100 and above it 1000. */
  lemma LimitOfText(sign: string, z: string, n: nat)
    requires Sign(sign) && Zeros(z)
    ensures var limit := ParseListLimit(sign + (z + Shown(n)));
            if n > (if sign == "-" then 0x8000_0000_0000_0000 else 0x7fff_ffff_ffff_ffff) then limit == None
            else if sign == "-" || n == 0 then limit == Some(100)
            else limit == Some(if n <= 1000 then n else 1000)
    ensures ParseListLimit("") == Some(100)
  {
    AtoiOfText(sign, z, n);
  }

  /** Only such texts, and no text at all, give a limit. */
  lemma TextOfLimit(raw: string) returns (sign: string, z: string, n: nat)
    requires ParseListLimit(raw).Some? && raw != ""
    ensures Sign(sign) && Zeros(z) && raw == sign + (z + Shown(n))
  {
    sign, z := TextOfAtoi(raw);
    var value := Atoi(raw).value;
    n := if value < 0 then -value else value;
  }

  /** The cursor's text form: base64url over JSON. */
  datatype Codec = Codec(encode: (string, int) -> string, decode: string -> Option<(string, int)>)

  /** Decoding undoes encoding, and an encoded cursor is never the empty text. */
  ghost predicate Inverse(k: Codec) {
    forall p: string, o: int :: 0 <= o <= MAX_INT ==> k.decode(k.encode(p, o)) == Some((p, o)) && k.encode(p, o) != ""
  }

  /** Offset and prefix of a cursor; a negative or unrepresentable offset is refused. */
  function ParseListCursor(k: Codec, raw: string): (r: Option<(int, string)>)
    ensures r.Some? ==> 0 <= r.value.0 <= MAX_INT
  {
    if raw == "" then Some((0, ""))
    else
      match k.decode(raw)
      case None => None
      case Some((p, o)) => if 0 <= o <= MAX_INT then Some((o, p)) else None
  }

  datatype Reply = BadLimit | BadCursor | Page(names: seq<string>, next: string)

  function Min(a: int, b: int): int { if a < b then a else b }

  /** The page for a limit already parsed. */
  function PageSpec(k: Codec, ks: seq<string>, prefix: string, limit: nat, rawCursor: string): Reply {
    match ParseListCursor(k, rawCursor)
    case None => BadCursor
    case Some((offset, cursorPrefix)) =>
      if cursorPrefix != "" && cursorPrefix != prefix then BadCursor
      else
        var start := Min(offset, |ks|);
        var end := Min(start + limit, |ks|);
        Page(ks[start..end], if end < |ks| then k.encode(prefix, end) else "")
  }

  function ListSpec(k: Codec, ks: seq<string>, prefix: string, rawLimit: string, rawCursor: string): Reply {
    match ParseListLimit(rawLimit)
    case None => BadLimit
    case Some(limit) => PageSpec(k, ks, prefix, limit, rawCursor)
  }

  /** The slicing of `listKeys` in 64-bit arithmetic: for every offset a cursor can carry nothing overflows. */
  method ListPage(k: Codec, ks: seq<string>, prefix: string, rawLimit: string, rawCursor: string) returns (r: Reply)
    requires |ks| <= MAX_INT - LIMIT_MAX
    ensures r == ListSpec(k, ks, prefix, rawLimit, rawCursor)
  {
    var limit := ParseListLimit(rawLimit);
    if limit.None? { return BadLimit; }
    var cursor := ParseListCursor(k, rawCursor);
    if cursor.None? { return BadCursor; }
    if cursor.value.1 != "" && cursor.value.1 != prefix { return BadCursor; }
    var count := |ks| as int64;
    var offset := cursor.value.0 as int64;
    if offset > count { offset := count; }
    var end := offset + limit.value as int64;
    if end > count { end := count; }
    var next := "";
    if end < count { next := k.encode(prefix, end as int); }
    return Page(ks[offset..end], next);
  }

  // ------------------------------------------------------------------ following the cursor

  function Names(reply: Reply): seq<string> { if reply.Page? then reply.names else [] }

  function Concat(pages: seq<Reply>): seq<string> {
    if pages == [] then [] else Concat(pages[..|pages| - 1]) + Names(pages[|pages| - 1])
  }

  /** The cursor to send after these pages: none at first, then what the last page gave. */
  function NextCursor(pages: seq<Reply>): string {
    if pages == [] || !pages[|pages| - 1].Page? then "" else pages[|pages| - 1].next
  }

  /** A client that starts without a cursor and follows it, choosing any positive limit for each page. */
  predicate Session(k: Codec, ks: seq<string>, prefix: string, limits: seq<nat>, pages: seq<Reply>) {
    && |limits| == |pages|
    && (pages != [] ==>
          var n := |pages| - 1;
          var before := pages[..n];
          && Session(k, ks, prefix, limits[..n], before)
          && (before != [] ==> NextCursor(before) != "")
          && limits[n] >= 1 && pages[n] == PageSpec(k, ks, prefix, limits[n], NextCursor(before)))
  }

  /** One page, asked for with no cursor or with the cursor of an offset. */
  lemma PageAt(k: Codec, ks: seq<string>, prefix: string, limit: nat, offset: nat, cursor: string)
    requires Inverse(k) && offset <= |ks| <= MAX_INT && limit >= 1
    requires (offset == 0 && cursor == "") || cursor == k.encode(prefix, offset)
    ensures var end := Min(offset + limit, |ks|);
            PageSpec(k, ks, prefix, limit, cursor) ==
              Page(ks[offset..end], if end < |ks| then k.encode(prefix, end) else "")
  {
    assert k.decode(k.encode(prefix, offset)) == Some((prefix, offset)) && k.encode(prefix, offset) != "";
  }

  /** A session has read a prefix of the list and holds the cursor of its end, unless it has read the whole list. */
  predicate Reached(k: Codec, ks: seq<string>, prefix: string, pages: seq<Reply>) {
    var n := |Concat(pages)|;
    n <= |ks| && Concat(pages) == ks[..n] && NextCursor(pages) == (if n < |ks| then k.encode(prefix, n) else "")
  }

  lemma {:induction false} SessionReaches(
    k: Codec, ks: seq<string>, prefix: string, limits: seq<nat>, pages: seq<Reply>)
    requires Inverse(k) && |ks| <= MAX_INT && Session(k, ks, prefix, limits, pages) && pages != []
    ensures pages[|pages| - 1].Page? && Reached(k, ks, prefix, pages)
    ensures NextCursor(pages) != "" ==> pages[|pages| - 1].names != []
  {
    var n := |pages| - 1;
    var before := pages[..n];
    if n > 0 { SessionReaches(k, ks, prefix, limits[..n], before); }
    assert pages == before + [pages[n]];
    NextReached(k, ks, prefix, before, limits[n], pages[n]);
  }

  lemma NextReached(k: Codec, ks: seq<string>, prefix: string, before: seq<Reply>, limit: nat, page: Reply)
    requires Inverse(k) && |ks| <= MAX_INT && limit >= 1
    requires before != [] ==> Reached(k, ks, prefix, before) && NextCursor(before) != ""
    requires page == PageSpec(k, ks, prefix, limit, NextCursor(before))
    ensures var pages := before + [page];
            && pages[|pages| - 1].Page? && Reached(k, ks, prefix, pages)
            && (NextCursor(pages) != "" ==> page.names != [])
  {
    var offset := |Concat(before)|;
    PageAt(k, ks, prefix, limit, offset, NextCursor(before));
    var pages, end := before + [page], Min(offset + limit, |ks|);
    assert pages[..|pages| - 1] == before;
    assert Concat(pages) == ks[..offset] + ks[offset..end] == ks[..end];
  }

  /** The pages of a session are exactly a prefix of the list; there is no cursor exactly when the list is complete. */
  lemma SessionCovers(k: Codec, ks: seq<string>, prefix: string, limits: seq<nat>, pages: seq<Reply>)
    requires Inverse(k) && |ks| <= MAX_INT && Session(k, ks, prefix, limits, pages) && pages != []
    ensures |Concat(pages)| <= |ks| && Concat(pages) == ks[..|Concat(pages)|]
    ensures NextCursor(pages) == "" <==> Concat(pages) == ks
  {
    SessionReaches(k, ks, prefix, limits, pages);
    var n := |Concat(pages)|;
    assert k.decode(k.encode(prefix, n)) == Some((prefix, n));
    assert n == |ks| ==> ks[..n] == ks;
  }

  /** Every page that leaves a cursor is non-empty, so a session ends within one page more than there are keys. */
  lemma {:induction false} SessionEnds(k: Codec, ks: seq<string>, prefix: string, limits: seq<nat>, pages: seq<Reply>)
    requires Inverse(k) && |ks| <= MAX_INT && Session(k, ks, prefix, limits, pages)
    ensures forall i :: 0 <= i < |pages| - 1 ==> Names(pages[i]) != []
    ensures |pages| <= |Concat(pages)| + (if NextCursor(pages) == "" then 1 else 0)
  {
    if pages != [] {
      var n := |pages| - 1;
      var before := pages[..n];
      SessionEnds(k, ks, prefix, limits[..n], before);
      SessionReaches(k, ks, prefix, limits, pages);
      if n > 0 { SessionReaches(k, ks, prefix, limits[..n], before); }
      assert forall i :: 0 <= i < n ==> before[i] == pages[i];
    }
  }

  /** A session never gets stuck: a cursor can be followed with any positive limit, to a page that is not empty. */
  lemma SessionContinues(k: Codec, ks: seq<string>, prefix: string, limits: seq<nat>, pages: seq<Reply>, limit: nat)
    requires Inverse(k) && |ks| <= MAX_INT && Session(k, ks, prefix, limits, pages)
    requires pages != [] && NextCursor(pages) != "" && limit >= 1
    ensures var reply := PageSpec(k, ks, prefix, limit, NextCursor(pages));
            reply.Page? && reply.names != [] && Session(k, ks, prefix, limits + [limit], pages + [reply])
  {
    SessionReaches(k, ks, prefix, limits, pages);
    PageAt(k, ks, prefix, limit, |Concat(pages)|, NextCursor(pages));
    var reply := PageSpec(k, ks, prefix, limit, NextCursor(pages));
    assert (pages + [reply])[..|pages|] == pages && (limits + [limit])[..|limits|] == limits;
  }

  /** A reply is an error exactly for a bad limit, a text that is no cursor, and the cursor of another prefix. */
  lemma ReplyExact(k: Codec, ks: seq<string>, prefix: string, rawLimit: string, rawCursor: string)
    ensures var r := ListSpec(k, ks, prefix, rawLimit, rawCursor);
            && (r == BadLimit <==> ParseListLimit(rawLimit).None?)
            && (r == BadCursor <==>
                  && ParseListLimit(rawLimit).Some? && rawCursor != ""
                  && (k.decode(rawCursor).None? ||
                      var (issued, offset) := k.decode(rawCursor).value;
                      !(0 <= offset < 0x8000_0000_0000_0000) || (issued != "" && issued != prefix)))
            && (r.Page? ==> |r.names| <= ParseListLimit(rawLimit).value)
  {}

  /** A cursor for a non-empty prefix is refused with any other; one for the empty prefix goes with every prefix. */
  lemma CursorBinding(k: Codec, ks: seq<string>, issued: string, offset: int, prefix: string, limit: nat)
    requires Inverse(k) && 0 <= offset <= MAX_INT && limit >= 1
    ensures PageSpec(k, ks, prefix, limit, k.encode(issued, offset)) == BadCursor <==> issued != "" && issued != prefix
  {
    assert k.decode(k.encode(issued, offset)) == Some((issued, offset));
  }
}
