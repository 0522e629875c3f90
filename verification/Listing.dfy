/** Listing by prefix, and rejoining the relative names it returns. */
module Listing {
  import opened Text
  import KeyPath

  /** The first path element, with its slash when more follows: what a storage LIST shows of a path. */
  function Child(rest: string): (name: string)
    ensures name <= rest
    ensures rest != "" ==> name != ""
  {
    if rest == "" then ""
    else if rest[0] == '/' then "/"
    else [rest[0]] + Child(rest[1..])
  }

  /** A path below a directory; the directory is empty or ends with a slash. */
  predicate Under(path: string, dir: string) { HasPrefix(path, dir) && |path| > |dir| }

  /** The names directly below a directory. */
  function ListDir(paths: set<string>, dir: string): set<string> {
    set p | p in paths && Under(p, dir) :: Child(p[|dir|..])
  }

  /** The directory that the plugin lists for a prefix: a missing slash is added. */
  function DirOf(prefix: string): string {
    if prefix == "" || prefix[|prefix| - 1] == '/' then prefix else prefix + "/"
  }

  /** `handleListKeys`: an invalid prefix is refused. */
  function PluginList(paths: set<string>, prefix: string): Option<set<string>> {
    if prefix != "" && !KeyPath.ValidateListPrefix(prefix).Valid? then None else Some(ListDir(paths, DirOf(prefix)))
  }

  function JoinKeyPath(prefix: string, name: string): string {
    if prefix == "" then name
    else if HasSuffix(prefix, "/") then prefix + name
    else prefix + "/" + name
  }

  /** A listing is refused exactly for an invalid prefix; a name is listed exactly if some stored path shows as it. */
  lemma PluginListExact(paths: set<string>, prefix: string, name: string)
    ensures PluginList(paths, prefix).None? <==> !KeyPath.ValidateListPrefix(prefix).Valid?
    ensures PluginList(paths, prefix).Some? ==>
              (name in PluginList(paths, prefix).value <==>
               exists p :: p in paths && Under(p, DirOf(prefix)) && Child(p[|DirOf(prefix)|..]) == name)
  {
    assert TrimSuffix("", "/") == "";
  }

  /** With or without its trailing slash, a prefix rejoins to the same path. */
  lemma JoinIsBelowDir(prefix: string, name: string)
    ensures JoinKeyPath(prefix, name) == DirOf(prefix) + name
  {
    if prefix != "" {
      assert HasSuffix(prefix, "/") <==> prefix[|prefix| - 1] == '/' by {
        assert prefix[|prefix| - 1..] == [prefix[|prefix| - 1]];
      }
    }
  }

  /** A name either goes down a level or completes a path. */
  lemma {:induction false} ChildSplits(rest: string)
    requires rest != "" && rest[|rest| - 1] != '/'
    ensures var name := Child(rest);
            if '/' in rest then name != "" && name[|name| - 1] == '/' && |name| < |rest| else name == rest
    ensures var name := Child(rest); '/' in rest <==> name[|name| - 1] == '/'
  {
    if rest[0] != '/' && |rest| > 1 {
      ChildSplits(rest[1..]);
      assert rest == [rest[0]] + rest[1..];
    }
  }

  lemma {:induction false} ChildOfLonger(name: string, more: string)
    requires name != "" && name[|name| - 1] == '/' && Child(name) == name
    ensures Child(name + more) == name
  {
    if name[0] != '/' {
      assert (name + more)[1..] == name[1..] + more;
      assert Child(name) == [name[0]] + Child(name[1..]);
      assert Child(name)[1..] == Child(name[1..]);
      ChildOfLonger(name[1..], more);
      assert name == [name[0]] + name[1..];
    }
  }

  lemma {:induction false} ChildIdempotent(rest: string)
    ensures Child(Child(rest)) == Child(rest)
  {
    if rest != "" && rest[0] != '/' {
      ChildIdempotent(rest[1..]);
      assert ([rest[0]] + Child(rest[1..]))[1..] == Child(rest[1..]);
    }
  }

  /** No stored path is empty or ends with a slash; valid three-segment paths are such. */
  predicate Leafy(paths: set<string>) {
    forall p :: p in paths ==> p != "" && p[|p| - 1] != '/'
  }

  ghost predicate ValidPaths(paths: set<string>) {
    forall p :: p in paths ==> KeyPath.Validate(p).Valid?
  }

  lemma ValidIsLeafy(paths: set<string>)
    requires ValidPaths(paths)
    ensures Leafy(paths)
  {
    forall s | s in paths ensures s != "" && s[|s| - 1] != '/' {
      KeyPath.ValidateExact(s);
      var p, e, u :| KeyPath.Segment(p) && KeyPath.Segment(e) && KeyPath.Segment(u) && s == KeyPath.Path(p, e, u);
      assert s[|s| - 1] == u[|u| - 1] && u[|u| - 1] in u;
    }
  }

  // ------------------------------------------------------------------ drilling down

  ghost function Longest(paths: set<string>): (n: nat)
    ensures forall p :: p in paths ==> |p| <= n
  {
    if paths == {} then 0
    else
      var p :| p in paths;
      var rest := Longest(paths - {p});
      if |p| > rest then |p| else rest
  }

  /** A listed name comes from a stored path, so going down stays within the longest path. */
  lemma ListedFrom(paths: set<string>, dir: string, name: string)
    requires name in ListDir(paths, dir)
    ensures name != "" && |dir + name| <= Longest(paths)
  {
    var p :| p in paths && Under(p, dir) && Child(p[|dir|..]) == name;
  }

  predicate Slashed(name: string) { name != "" && name[|name| - 1] == '/' }

  /** The full paths visited from a prefix: names ending in a slash are followed, the others are paths. */
  ghost function Drill(paths: set<string>, prefix: string): seq<string>
    decreases Longest(paths) - |DirOf(prefix)|, 1, 0
  {
    DrillNames(paths, prefix, SortedNames(ListDir(paths, DirOf(prefix))))
  }

  ghost function DrillNames(paths: set<string>, prefix: string, names: seq<string>): seq<string>
    requires forall n :: n in names ==> n in ListDir(paths, DirOf(prefix))
    decreases Longest(paths) - |DirOf(prefix)|, 0, |names|
  {
    if names == [] then []
    else DrillOne(paths, prefix, names[0]) + DrillNames(paths, prefix, names[1..])
  }

  ghost function DrillOne(paths: set<string>, prefix: string, name: string): seq<string>
    requires name in ListDir(paths, DirOf(prefix))
    decreases Longest(paths) - |DirOf(prefix)|, 0, 0
  {
    ListedFrom(paths, DirOf(prefix), name);
    JoinIsBelowDir(prefix, name);
    if Slashed(name) then Drill(paths, JoinKeyPath(prefix, name)) else [JoinKeyPath(prefix, name)]
  }

  /** The stored paths that show as the given name. */
  predicate ShownAs(paths: set<string>, dir: string, p: string, name: string) {
    p in paths && Under(p, dir) && Child(p[|dir|..]) == name
  }

  predicate NoDuplicates(s: seq<string>) { forall i, j :: 0 <= i < j < |s| ==> s[i] != s[j] }

  lemma ShownIsBelow(dir: string, name: string, p: string)
    requires p != "" && !Slashed(p) && Under(p, dir) && Child(p[|dir|..]) == name && Slashed(name)
    ensures Under(p, dir + name)
  {
    var rest := p[|dir|..];
    ChildSplits(rest);
    assert p == dir + rest;
    assert rest == name + rest[|name|..];
  }

  lemma BelowIsShown(dir: string, name: string, p: string)
    requires Child(name) == name && Slashed(name) && Under(p, dir + name)
    ensures Under(p, dir) && Child(p[|dir|..]) == name
  {
    LongerPrefix(p, dir, name);
    ChildOfLonger(name, p[|dir + name|..]);
  }

  lemma LongerPrefix(p: string, a: string, b: string)
    requires HasPrefix(p, a + b)
    ensures HasPrefix(p, a) && p[|a|..] == b + p[|a + b|..]
  {
    assert p == a + (b + p[|a + b|..]);
  }

  /** A path shows as a name without slash exactly when that name completes it. */
  lemma LeafShows(dir: string, name: string, p: string)
    requires name != "" && !Slashed(name) && p != "" && !Slashed(p)
    ensures Under(p, dir) && Child(p[|dir|..]) == name ==> p == dir + name
  {
    if Under(p, dir) {
      assert p == dir + p[|dir|..];
      ChildSplits(p[|dir|..]);
    }
  }

  lemma ShownBelow(paths: set<string>, dir: string, name: string, p: string)
    requires Leafy(paths) && name in ListDir(paths, dir)
    ensures Slashed(name) ==> (ShownAs(paths, dir, p, name) <==> p in paths && Under(p, dir + name))
    ensures !Slashed(name) ==> (ShownAs(paths, dir, p, name) <==> p == dir + name)
  {
    var q :| q in paths && Under(q, dir) && Child(q[|dir|..]) == name;
    ChildIdempotent(q[|dir|..]);
    if Slashed(name) {
      if ShownAs(paths, dir, p, name) { ShownIsBelow(dir, name, p); }
      if p in paths && Under(p, dir + name) { BelowIsShown(dir, name, p); }
    } else {
      LeafShows(dir, name, q);
      if p in paths { LeafShows(dir, name, p); }
    }
  }

  lemma {:induction false} DrillOneExact(paths: set<string>, prefix: string, name: string)
    requires Leafy(paths) && name in ListDir(paths, DirOf(prefix))
    ensures NoDuplicates(DrillOne(paths, prefix, name))
    ensures forall p :: p in DrillOne(paths, prefix, name) <==> ShownAs(paths, DirOf(prefix), p, name)
    decreases Longest(paths) - |DirOf(prefix)|, 0, 0
  {
    var dir := DirOf(prefix);
    ListedFrom(paths, dir, name);
    JoinIsBelowDir(prefix, name);
    if Slashed(name) { DrillExact(paths, JoinKeyPath(prefix, name)); }
    forall p ensures p in DrillOne(paths, prefix, name) <==> ShownAs(paths, dir, p, name) {
      ShownBelow(paths, dir, name, p);
    }
  }

  lemma AppendNoDuplicates(a: seq<string>, b: seq<string>)
    requires NoDuplicates(a) && NoDuplicates(b) && forall x :: x in a ==> x !in b
    ensures NoDuplicates(a + b)
  {
    var s := a + b;
    forall i, j | 0 <= i < j < |s| ensures s[i] != s[j] {
      if i < |a| <= j { assert a[i] in a && b[j - |a|] in b; }
    }
  }

  lemma {:induction false} DrillNamesExact(paths: set<string>, prefix: string, names: seq<string>)
    requires Leafy(paths) && NoDuplicates(names) && forall n :: n in names ==> n in ListDir(paths, DirOf(prefix))
    ensures NoDuplicates(DrillNames(paths, prefix, names))
    ensures forall p :: p in DrillNames(paths, prefix, names) <==>
              exists n :: n in names && ShownAs(paths, DirOf(prefix), p, n)
    decreases Longest(paths) - |DirOf(prefix)|, 0, |names|
  {
    if names != [] {
      var n, rest := names[0], names[1..];
      assert names == [n] + rest;
      DrillOneExact(paths, prefix, n);
      DrillNamesExact(paths, prefix, rest);
      assert n !in rest;
      AppendNoDuplicates(DrillOne(paths, prefix, n), DrillNames(paths, prefix, rest));
    }
  }

  /** Drilling down from a prefix visits every stored path below it exactly once, and nothing else. */
  lemma {:induction false} DrillExact(paths: set<string>, prefix: string)
    requires Leafy(paths)
    ensures NoDuplicates(Drill(paths, prefix))
    ensures forall p :: p in Drill(paths, prefix) <==> p in paths && Under(p, DirOf(prefix))
    decreases Longest(paths) - |DirOf(prefix)|, 1, 0
  {
    var dir := DirOf(prefix);
    var names := SortedNames(ListDir(paths, dir));
    AscendingDistinct(names);
    DrillNamesExact(paths, prefix, names);
    forall p ensures p in Drill(paths, prefix) <==> p in paths && Under(p, dir) {
      if p in paths && Under(p, dir) {
        var n := Child(p[|dir|..]);
        assert n in names && ShownAs(paths, dir, p, n);
      }
    }
  }

  /** From the empty prefix: every valid stored path, once. */
  lemma DrillAll(paths: set<string>)
    requires ValidPaths(paths)
    ensures NoDuplicates(Drill(paths, ""))
    ensures forall p :: p in Drill(paths, "") <==> p in paths
  {
    ValidIsLeafy(paths);
    DrillExact(paths, "");
  }

  /** Every prefix met on the way down is accepted by the plugin. */
  lemma DrilledPrefixAccepted(paths: set<string>, prefix: string, name: string)
    requires ValidPaths(paths) && name in ListDir(paths, DirOf(prefix)) && Slashed(name)
    ensures PluginList(paths, JoinKeyPath(prefix, name)) == Some(ListDir(paths, JoinKeyPath(prefix, name)))
  {
    var dir := DirOf(prefix);
    JoinIsBelowDir(prefix, name);
    var s :| s in paths && Under(s, dir) && Child(s[|dir|..]) == name;
    assert s == dir + s[|dir|..];
    assert HasPrefix(s, dir + name);
    KeyPath.ValidateExact(s);
    var p, e, u :| KeyPath.Segment(p) && KeyPath.Segment(e) && KeyPath.Segment(u) && s == KeyPath.Path(p, e, u);
    SlashedPrefix(p, e, u, dir + name);
    PrefixesAccepted(p, e);
  }

  /** A prefix of a three-segment path that ends in a slash is its project or its project and environment. */
  lemma SlashedPrefix(p: string, e: string, u: string, q: string)
    requires KeyPath.Segment(p) && KeyPath.Segment(e) && KeyPath.Segment(u)
    requires HasPrefix(KeyPath.Path(p, e, u), q) && Slashed(q)
    ensures q == p + "/" || q == p + "/" + e + "/"
  {
    var s := KeyPath.Path(p, e, u);
    var i := |q| - 1;
    assert s[i] == '/';
    forall j | 0 <= j < |s| && j != |p| && j != |p| + 1 + |e| ensures s[j] != '/' {
      var c := s[j];
      assert c in p || c in e || c in u by {
        if j < |p| { assert s[j] == p[j]; }
        else if j < |p| + 1 + |e| { assert s[j] == e[j - |p| - 1]; }
        else { assert s[j] == u[j - |p| - |e| - 2]; }
      }
    }
    assert q == s[..i + 1];
    assert i == |p| ==> s[..i + 1] == p + "/";
    assert i == |p| + 1 + |e| ==> s[..i + 1] == p + "/" + e + "/";
  }

  lemma PrefixesAccepted(p: string, e: string)
    requires KeyPath.Segment(p) && KeyPath.Segment(e)
    ensures KeyPath.ValidateListPrefix(p + "/").Valid?
    ensures KeyPath.ValidateListPrefix(p + "/" + e + "/").Valid? && KeyPath.ValidateListPrefix(p + "/" + e).Valid?
  {
    assert '/' !in p && '/' !in e;
    SplitPrefix(p, "", '/');
    SplitPrefix(e, "", '/');
    SplitPrefix(p, e, '/');
    KeyPath.SegmentsValid([p]);
    KeyPath.SegmentsValid([p, e]);
    assert TrimSuffix(p + "/", "/") == p;
    assert TrimSuffix(p + "/" + e + "/", "/") == p + "/" + e;
    var pe := p + "/" + e;
    assert pe[|pe| - 1] == e[|e| - 1] && e[|e| - 1] in e;
    assert pe[|pe| - 1..] == [e[|e| - 1]];
    assert TrimSuffix(pe, "/") == pe;
    assert p + ['/'] + e == pe;
  }

  /** A two-segment prefix, with or without trailing slash, rejoins to exactly the stored paths under it. */
  lemma EnvironmentListing(paths: set<string>, p: string, e: string, slash: bool)
    requires ValidPaths(paths) && KeyPath.Segment(p) && KeyPath.Segment(e)
    ensures var prefix := p + "/" + e + if slash then "/" else "";
            && PluginList(paths, prefix).Some?
            && (set n | n in PluginList(paths, prefix).value :: JoinKeyPath(prefix, n)) ==
               (set s | s in paths && HasPrefix(s, p + "/" + e + "/"))
  {
    var prefix := p + "/" + e + if slash then "/" else "";
    var dir := p + "/" + e + "/";
    PrefixesAccepted(p, e);
    assert !slash ==> prefix == p + "/" + e;
    assert e[|e| - 1] in e;
    assert !slash ==> prefix[|prefix| - 1] == e[|e| - 1];
    assert DirOf(prefix) == dir;
    forall n ensures JoinKeyPath(prefix, n) == dir + n { JoinIsBelowDir(prefix, n); }
    forall s | s in paths && HasPrefix(s, dir) ensures Under(s, dir) && dir + Child(s[|dir|..]) == s {
      LeafUnderEnvironment(s, p, e);
    }
    var names := ListDir(paths, dir);
    forall n | n in names ensures dir + n in paths && HasPrefix(dir + n, dir) {
      var s :| s in paths && Under(s, dir) && Child(s[|dir|..]) == n;
    }
    forall s | s in paths && HasPrefix(s, dir) ensures exists n :: n in names && s == JoinKeyPath(prefix, n) {
      var n := Child(s[|dir|..]);
      assert n in names && s == JoinKeyPath(prefix, n);
    }
  }

  lemma LeafUnderEnvironment(s: string, p: string, e: string)
    requires KeyPath.Validate(s).Valid? && KeyPath.Segment(p) && KeyPath.Segment(e)
    requires HasPrefix(s, p + "/" + e + "/")
    ensures var dir := p + "/" + e + "/"; Under(s, dir) && dir + Child(s[|dir|..]) == s
  {
    KeyPath.ValidateExact(s);
    var p', e', u :| KeyPath.Segment(p') && KeyPath.Segment(e') && KeyPath.Segment(u) && s == KeyPath.Path(p', e', u);
    var dir := p + "/" + e + "/";
    SlashedPrefix(p', e', u, dir);
    assert dir != p' + "/" by {
      assert dir[|p|] == '/' && |p| < |dir| - 1;
      assert forall i :: 0 <= i < |p'| ==> (p' + "/")[i] == p'[i] && p'[i] in p';
    }
    var rest := s[|dir|..];
    assert s == dir + rest && rest == u;
    assert '/' !in u && u[|u| - 1] in u;
    ChildSplits(rest);
  }
}
