/** Key paths of the form {project}/{environment}/{username}. */
module KeyPath {
  import opened Text

  datatype Check = Valid | WrongShape | EmptySegment | BadSegment

  predicate SegmentChar(c: char) {
    'a' <= c <= 'z' || '0' <= c <= '9' || c == '_' || c == '-'
  }

  predicate Segment(s: string) {
    s != "" && forall c :: c in s ==> SegmentChar(c)
  }

  function ValidateSegments(parts: seq<string>): Check {
    if parts == [] then Valid
    else if parts[0] == "" then EmptySegment
    else if !Segment(parts[0]) then BadSegment
    else ValidateSegments(parts[1..])
  }

  function Validate(path: string): Check {
    var parts := Split(path, '/');
    if |parts| != 3 then WrongShape else ValidateSegments(parts)
  }

  /** The empty prefix, one to three segments, or any of these with one trailing slash. */
  function ValidateListPrefix(s: string): Check {
    var trimmed := TrimSuffix(s, "/");
    if trimmed == "" then Valid
    else
      var parts := Split(trimmed, '/');
      if |parts| > 3 then WrongShape else ValidateSegments(parts)
  }

  function Path(project: string, environment: string, user: string): string {
    project + "/" + environment + "/" + user
  }

  const LETTERS := "abcdefghijklm" + "nopqrstuvwxyz"

  /** A segment is one or more of the small letters, the digits, the underscore and the hyphen. */
  lemma SegmentExact(s: string)
    ensures Segment(s) <==> s != "" && forall c :: c in s ==> c in LETTERS || c in "0123456789" || c in "_-"
  {
    forall c ensures SegmentChar(c) <==> c in LETTERS || c in "0123456789" || c in "_-" { CharListed(c); }
  }

  lemma CharListed(c: char)
    ensures SegmentChar(c) <==> c in LETTERS || c in "0123456789" || c in "_-"
  {
    if 'a' <= c <= 'z' {
      assert LETTERS[c as int - 'a' as int] == c;
    } else if '0' <= c <= '9' {
      assert "0123456789"[c as int - '0' as int] == c;
    } else if c == '_' {
      assert "_-"[0] == c;
    } else if c == '-' {
      assert "_-"[1] == c;
    }
  }

  /** The first part that is no segment decides the answer. */
  ghost predicate FirstBad(parts: seq<string>, i: nat) {
    i < |parts| && !Segment(parts[i]) && forall j :: 0 <= j < i ==> Segment(parts[j])
  }

  lemma {:induction false} SegmentsReason(parts: seq<string>, i: nat)
    requires FirstBad(parts, i)
    ensures ValidateSegments(parts) == if parts[i] == "" then EmptySegment else BadSegment
  {
    if i > 0 {
      assert Segment(parts[0]);
      SegmentsReason(parts[1..], i - 1);
    }
  }

  /** A path with other than two slashes has the wrong shape; otherwise its first bad segment is reported. */
  lemma ValidateReason(path: string)
    ensures Validate(path).WrongShape? <==> |Split(path, '/')| != 3
    ensures forall i: nat :: |Split(path, '/')| == 3 && FirstBad(Split(path, '/'), i) ==>
              Validate(path) == if Split(path, '/')[i] == "" then EmptySegment else BadSegment
  {
    var parts := Split(path, '/');
    NeverShape(parts);
    forall i: nat | |parts| == 3 && FirstBad(parts, i)
      ensures Validate(path) == if parts[i] == "" then EmptySegment else BadSegment
    {
      SegmentsReason(parts, i);
    }
  }

  lemma {:induction false} NeverShape(parts: seq<string>)
    ensures !ValidateSegments(parts).WrongShape?
  {
    if parts != [] { NeverShape(parts[1..]); }
  }

  predicate Segments(parts: seq<string>) { forall p :: p in parts ==> Segment(p) }

  function JoinedPrefix(parts: seq<string>, slash: bool): string { Join(parts, '/') + if slash then "/" else "" }

  /** The prefixes accepted for listing: none, or one to three segments, each with or without a trailing slash. */
  lemma ListPrefixExact(s: string)
    ensures ValidateListPrefix(s).Valid? <==>
            exists parts, slash :: |parts| <= 3 && Segments(parts) && s == JoinedPrefix(parts, slash)
  {
    if ValidateListPrefix(s).Valid? { var parts, slash := AcceptedParts(s); }
    if parts, slash :| |parts| <= 3 && Segments(parts) && s == JoinedPrefix(parts, slash) {
      PrefixAccepted(parts, slash);
    }
  }

  lemma AcceptedParts(s: string) returns (parts: seq<string>, slash: bool)
    requires ValidateListPrefix(s).Valid?
    ensures |parts| <= 3 && Segments(parts) && s == JoinedPrefix(parts, slash)
  {
    var trimmed := TrimSuffix(s, "/");
    slash := HasSuffix(s, "/");
    parts := if trimmed == "" then [] else Split(trimmed, '/');
    JoinSplit(trimmed, '/');
    SegmentsValid(parts);
    assert s == trimmed + if slash then "/" else "";
  }

  lemma PrefixAccepted(parts: seq<string>, slash: bool)
    requires |parts| <= 3 && Segments(parts)
    ensures ValidateListPrefix(JoinedPrefix(parts, slash)).Valid?
  {
    var t := Join(parts, '/');
    if parts == [] {
      assert TrimSuffix("/", "/") == "" && TrimSuffix("", "/") == "";
      assert t + "/" == "/" && t + "" == "";
    } else {
      SplitJoin(parts, '/');
      SegmentsValid(parts);
      JoinEnds(parts);
      assert TrimSuffix(t + "/", "/") == t && TrimSuffix(t, "/") == t && t + "" == t by {
        assert (t + "/")[|t|..] == "/" && (t + "/")[..|t|] == t;
        assert t[|t| - 1..] == [t[|t| - 1]];
      }
    }
  }

  lemma {:induction false} JoinEnds(parts: seq<string>)
    requires parts != [] && Segments(parts)
    ensures Join(parts, '/') != "" && Join(parts, '/')[|Join(parts, '/')| - 1] != '/'
  {
    assert parts[0] in parts && parts[0][|parts[0]| - 1] in parts[0];
    if |parts| > 1 { JoinEnds(parts[1..]); }
  }

  lemma {:induction false} SegmentsValid(parts: seq<string>)
    ensures ValidateSegments(parts).Valid? <==> forall p :: p in parts ==> Segment(p)
  {
    if parts != [] {
      var head, rest := parts[0], parts[1..];
      SegmentsValid(rest);
      assert parts == [head] + rest;
      assert ValidateSegments(parts).Valid? <==> Segment(head) && ValidateSegments(rest).Valid?;
      assert head in parts && forall p :: p in rest ==> p in parts;
      assert forall p :: p in parts ==> p == head || p in rest;
    }
  }

  lemma SplitPath(p: string, e: string, u: string)
    requires Segment(p) && Segment(e) && Segment(u)
    ensures Split(Path(p, e, u), '/') == [p, e, u]
  {
    var parts := [p, e, u];
    assert parts[1..] == [e, u] && parts[1..][1..] == [u];
    assert Join(parts[1..], '/') == e + "/" + u;
    assert Path(p, e, u) == p + "/" + (e + "/" + u);
    assert Join(parts, '/') == Path(p, e, u);
    SplitJoin(parts, '/');
  }

  /** The validator accepts exactly the three-segment paths. */
  lemma ValidateExact(path: string)
    ensures Validate(path).Valid? <==>
              exists p, e, u :: Segment(p) && Segment(e) && Segment(u) && path == Path(p, e, u)
  {
    var parts := Split(path, '/');
    SegmentsValid(parts);
    JoinSplit(path, '/');
    if Validate(path).Valid? {
      var p, e, u := parts[0], parts[1], parts[2];
      assert parts == [p, e, u];
      assert parts[1..] == [e, u] && parts[1..][1..] == [u];
      assert Join(parts[1..], '/') == e + "/" + u;
      assert Join(parts, '/') == p + "/" + (e + "/" + u);
      assert path == Path(p, e, u);
      assert parts[0] in parts && parts[1] in parts && parts[2] in parts;
    }
    forall p, e, u | Segment(p) && Segment(e) && Segment(u) && path == Path(p, e, u)
      ensures Validate(path).Valid?
    {
      SplitPath(p, e, u);
    }
  }
}
