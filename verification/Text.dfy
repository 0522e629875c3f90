/** String helpers with the behaviour of Go's `strings` package, on sequences of characters. */
module Text {

  datatype Option<+T> = None | Some(value: T)

  /** `strings.Split` for a one-character separator: never empty, and "" gives [""]. */
  function Split(s: string, sep: char): (parts: seq<string>)
    ensures parts != []
  {
    if s == "" then [""]
    else
      var rest := Split(s[1..], sep);
      if s[0] == sep then [""] + rest else [[s[0]] + rest[0]] + rest[1..]
  }

  /** `strings.Join` for a one-character separator. */
  function Join(parts: seq<string>, sep: char): string {
    if |parts| == 0 then ""
    else if |parts| == 1 then parts[0]
    else parts[0] + [sep] + Join(parts[1..], sep)
  }

  lemma {:induction false} SplitPrefix(head: string, tail: string, sep: char)
    requires sep !in head
    ensures Split(head + [sep] + tail, sep) == [head] + Split(tail, sep)
    ensures Split(head, sep) == [head]
  {
    var s := head + [sep] + tail;
    if head == "" {
      assert s[1..] == tail;
    } else {
      SplitPrefix(head[1..], tail, sep);
      assert s[1..] == head[1..] + [sep] + tail;
      assert [head[0]] + head[1..] == head;
      assert ([head[1..]] + Split(tail, sep))[1..] == Split(tail, sep);
    }
  }

  /** Splitting undoes joining when no part holds the separator. */
  lemma {:induction false} SplitJoin(parts: seq<string>, sep: char)
    requires parts != []
    requires forall p :: p in parts ==> sep !in p
    ensures Split(Join(parts, sep), sep) == parts
  {
    assert sep !in parts[0];
    if |parts| == 1 {
      SplitPrefix(parts[0], "", sep);
    } else {
      SplitJoin(parts[1..], sep);
      SplitPrefix(parts[0], Join(parts[1..], sep), sep);
    }
  }

  /** Joining undoes splitting, and no part holds the separator. */
  lemma {:induction false} JoinSplit(s: string, sep: char)
    ensures Join(Split(s, sep), sep) == s
    ensures forall p :: p in Split(s, sep) ==> sep !in p
  {
    if s != "" {
      JoinSplit(s[1..], sep);
      var rest := Split(s[1..], sep);
      var parts := Split(s, sep);
      assert s == [s[0]] + s[1..];
      if s[0] == sep {
        assert parts[1..] == rest;
      } else {
        assert rest[0] in rest;
        assert parts[1..] == rest[1..];
        assert forall p :: p in parts ==> p == parts[0] || p in rest;
      }
    }
  }

  predicate HasPrefix(s: string, p: string) {
    |p| <= |s| && s[..|p|] == p
  }

  predicate HasSuffix(s: string, p: string) {
    |p| <= |s| && s[|s| - |p|..] == p
  }

  function TrimPrefix(s: string, p: string): string {
    if HasPrefix(s, p) then s[|p|..] else s
  }

  function TrimSuffix(s: string, p: string): string {
    if HasSuffix(s, p) then s[..|s| - |p|] else s
  }

  /** Byte-wise string order; on Unicode text it is the order of code points. */
  predicate Less(a: string, b: string) {
    if b == "" then false
    else if a == "" then true
    else a[0] < b[0] || (a[0] == b[0] && Less(a[1..], b[1..]))
  }

  lemma {:induction false} LessTransitive(a: string, b: string, c: string)
    requires Less(a, b) && Less(b, c)
    ensures Less(a, c)
  {
    if a != "" && a[0] == b[0] && b[0] == c[0] { LessTransitive(a[1..], b[1..], c[1..]); }
  }

  lemma {:induction false} LessTotal(a: string, b: string)
    ensures Less(a, b) || a == b || Less(b, a)
    ensures !(Less(a, b) && Less(b, a))
    ensures !Less(a, a)
  {
    if a != "" && b != "" { LessTotal(a[1..], b[1..]); }
    if a != "" && b == "" { LessTotal(a[1..], a[1..]); }
    if a != "" && b != "" && a[0] == b[0] && a[1..] == b[1..] {
      assert a == [a[0]] + a[1..] && b == [b[0]] + b[1..];
    }
  }

  /** Strictly ascending, hence free of duplicates. */
  predicate Ascending(xs: seq<string>) {
    forall i, j :: 0 <= i < j < |xs| ==> Less(xs[i], xs[j])
  }

  predicate IsLeast(m: string, s: set<string>) {
    m in s && forall x :: x in s ==> x == m || Less(m, x)
  }

  lemma {:induction false} FindLeast(s: set<string>) returns (m: string)
    requires s != {}
    ensures IsLeast(m, s)
  {
    m :| m in s;
    var rest := s - {m};
    if rest == {} {
      forall x | x in s ensures x == m { assert x !in rest; }
    } else {
      var y := FindLeast(rest);
      assert IsLeast(y, rest) && s == rest + {m};
      LessTotal(m, y);
      if Less(m, y) {
        forall x | x in rest && x != y ensures Less(m, x) { LessTransitive(m, y, x); }
      } else {
        m := y;
      }
    }
  }

  lemma LeastExists(s: set<string>)
    requires s != {}
    ensures exists m :: IsLeast(m, s)
  {
    var m := FindLeast(s);
  }

  /** The names in ascending order. */
  ghost function SortedNames(s: set<string>): (r: seq<string>)
    ensures forall x :: x in r <==> x in s
    ensures Ascending(r)
  {
    if s == {} then []
    else
      LeastExists(s);
      var m :| IsLeast(m, s);
      [m] + SortedNames(s - {m})
  }

  lemma AscendingDistinct(names: seq<string>)
    requires Ascending(names)
    ensures forall i, j :: 0 <= i < j < |names| ==> names[i] != names[j]
  {
    forall i, j | 0 <= i < j < |names| ensures names[i] != names[j] { LessTotal(names[i], names[j]); }
  }

  /** `unicode.IsSpace`. */
  predicate IsSpace(c: char) {
    var n := c as int;
    || 0x09 <= n <= 0x0d || n == 0x20 || n == 0x85 || n == 0xa0 || n == 0x1680
    || 0x2000 <= n <= 0x200a || n == 0x2028 || n == 0x2029 || n == 0x202f || n == 0x205f || n == 0x3000
  }

  function TrimLeft(s: string): string {
    if s != "" && IsSpace(s[0]) then TrimLeft(s[1..]) else s
  }

  function TrimRight(s: string): string {
    if s != "" && IsSpace(s[|s| - 1]) then TrimRight(s[..|s| - 1]) else s
  }

  /** `strings.TrimSpace`. */
  function TrimSpace(s: string): string { TrimRight(TrimLeft(s)) }

  /** `strings.ToLower` on the ASCII letters, the only ones that can produce a chain name. */
  function LowerChar(c: char): char {
    if 'A' <= c <= 'Z' then (c as int + 32) as char else c
  }

  function ToLower(s: string): (r: string)
    ensures |r| == |s|
  {
    seq(|s|, i requires 0 <= i < |s| => LowerChar(s[i]))
  }

  lemma {:induction false} TrimLeftTrims(s: string)
    ensures TrimLeft(s) == "" || !IsSpace(TrimLeft(s)[0])
  {
    if s != "" && IsSpace(s[0]) { TrimLeftTrims(s[1..]); }
  }

  lemma {:induction false} TrimRightTrims(s: string)
    ensures TrimRight(s) == "" || !IsSpace(TrimRight(s)[|TrimRight(s)| - 1])
    ensures TrimRight(s) <= s
  {
    if s != "" && IsSpace(s[|s| - 1]) { TrimRightTrims(s[..|s| - 1]); }
  }

  predicate Blank(s: string) { forall i :: 0 <= i < |s| ==> IsSpace(s[i]) }

  lemma {:induction false} TrimLeftParts(s: string) returns (l: string)
    ensures Blank(l) && s == l + TrimLeft(s)
  {
    l := "";
    if s != "" && IsSpace(s[0]) {
      var rest := TrimLeftParts(s[1..]);
      l := [s[0]] + rest;
    }
  }

  lemma {:induction false} TrimRightParts(s: string) returns (r: string)
    ensures Blank(r) && s == TrimRight(s) + r
  {
    r := "";
    if s != "" && IsSpace(s[|s| - 1]) {
      var rest := TrimRightParts(s[..|s| - 1]);
      r := rest + [s[|s| - 1]];
    }
  }

  lemma {:induction false} TrimLeftBlank(l: string, w: string)
    requires Blank(l) && w != "" && !IsSpace(w[0])
    ensures TrimLeft(l + w) == w
  {
    if l == "" {
      assert l + w == w;
    } else {
      TrimLeftBlank(l[1..], w);
      assert (l + w)[1..] == l[1..] + w;
    }
  }

  lemma {:induction false} TrimRightBlank(w: string, r: string)
    requires Blank(r) && w != "" && !IsSpace(w[|w| - 1])
    ensures TrimRight(w + r) == w
  {
    if r == "" {
      assert w + r == w;
    } else {
      var shorter := r[..|r| - 1];
      TrimRightBlank(w, shorter);
      assert (w + r)[..|w + r| - 1] == w + shorter;
    }
  }

  /** A word without a blank at either end comes out of the blanks around it, and every trimmed text is such a word. */
  lemma TrimSpaceExact(l: string, w: string, r: string)
    requires Blank(l) && Blank(r) && w != "" && !IsSpace(w[0]) && !IsSpace(w[|w| - 1])
    ensures TrimSpace(l + w + r) == w
  {
    assert l + w + r == l + (w + r);
    TrimLeftBlank(l, w + r);
    TrimRightBlank(w, r);
  }

  lemma TrimSpaceParts(s: string) returns (l: string, r: string)
    ensures Blank(l) && Blank(r) && s == l + TrimSpace(s) + r
  {
    l := TrimLeftParts(s);
    r := TrimRightParts(TrimLeft(s));
    assert s == l + (TrimSpace(s) + r);
  }

  lemma LowerTrimIdempotent(s: string)
    ensures ToLower(TrimSpace(ToLower(TrimSpace(s)))) == ToLower(TrimSpace(s))
  {
    var t := TrimSpace(s);
    TrimLeftTrims(s);
    TrimRightTrims(TrimLeft(s));
    var u := ToLower(t);
    assert forall c :: IsSpace(LowerChar(c)) <==> IsSpace(c);
    assert TrimLeft(u) == u;
    assert TrimRight(u) == u;
    assert ToLower(u) == u;
  }
}
