/**
 Decoded JSON documents as trees, and edits at the end of a route through them.

 The document is a tree, so an in-place edit of a nested map is the tree with that map replaced.
 */
module Tree {
  import opened Amino

  /** Numbers are never looked at here; they stand as reals. */
  type Node = Value<real>
  type Fields = map<string, Node>

  /** A step down: to a named member, to every member, or to every item. */
  datatype Hop = Key(name: string) | Every | Each

  /** The tree with every object at the end of the route edited. Where the shape does not fit, nothing changes. */
  function Edit(v: Node, route: seq<Hop>, f: Fields -> Fields): (r: Node)
    ensures r.VObj? <==> v.VObj?
    ensures r.VStr? <==> v.VStr?
    ensures r.VArr? <==> v.VArr?
    decreases |route|
  {
    if route == [] then (if v.VObj? then VObj(f(v.fields)) else v)
    else match route[0]
      case Key(k) => if v.VObj? && k in v.fields then VObj(v.fields[k := Edit(v.fields[k], route[1..], f)]) else v
      case Every => if v.VObj? then VObj(map k | k in v.fields :: Edit(v.fields[k], route[1..], f)) else v
      case Each =>
        if v.VArr? then VArr(seq(|v.items|, i requires 0 <= i < |v.items| => Edit(v.items[i], route[1..], f))) else v
  }

  /** Every object at the end of the route has the property. */
  predicate All(v: Node, route: seq<Hop>, ok: Fields -> bool)
    decreases |route|
  {
    if route == [] then v.VObj? ==> ok(v.fields)
    else match route[0]
      case Key(k) => v.VObj? && k in v.fields ==> All(v.fields[k], route[1..], ok)
      case Every => v.VObj? ==> forall k :: k in v.fields ==> All(v.fields[k], route[1..], ok)
      case Each => v.VArr? ==> forall i :: 0 <= i < |v.items| ==> All(v.items[i], route[1..], ok)
  }

  /** Two edits along one route are one edit by their composition. */
  lemma {:induction false} EditTwice(
    v: Node, route: seq<Hop>, f: Fields -> Fields, g: Fields -> Fields, h: Fields -> Fields)
    requires forall m: Fields :: h(m) == g(f(m))
    ensures Edit(Edit(v, route, f), route, g) == Edit(v, route, h)
    decreases |route|
  {
    if route != [] {
      match route[0]
      case Key(k) =>
        if v.VObj? && k in v.fields { EditTwice(v.fields[k], route[1..], f, g, h); }
      case Every =>
        if v.VObj? {
          forall k | k in v.fields { EditTwice(v.fields[k], route[1..], f, g, h); }
        }
      case Each =>
        if v.VArr? {
          forall i | 0 <= i < |v.items| { EditTwice(v.items[i], route[1..], f, g, h); }
        }
    }
  }

  /** An edit changes nothing exactly when it leaves every object at the end of the route alone. */
  lemma {:induction false} EditFixed(v: Node, route: seq<Hop>, f: Fields -> Fields, ok: Fields -> bool)
    requires forall m: Fields :: ok(m) <==> f(m) == m
    ensures Edit(v, route, f) == v <==> All(v, route, ok)
    decreases |route|
  {
    if route != [] {
      match route[0]
      case Key(k) =>
        if v.VObj? && k in v.fields {
          EditFixed(v.fields[k], route[1..], f, ok);
          assert v.fields[k := v.fields[k]] == v.fields;
        }
      case Every =>
        if v.VObj? {
          forall k | k in v.fields { EditFixed(v.fields[k], route[1..], f, ok); }
          EveryFixed(v, route, f);
        }
      case Each =>
        if v.VArr? {
          forall i | 0 <= i < |v.items| { EditFixed(v.items[i], route[1..], f, ok); }
          EachFixed(v, route, f);
        }
    }
  }

  lemma EveryFixed(v: Node, route: seq<Hop>, f: Fields -> Fields)
    requires route != [] && route[0] == Every && v.VObj?
    ensures Edit(v, route, f) == v <==> forall k :: k in v.fields ==> Edit(v.fields[k], route[1..], f) == v.fields[k]
  {
    var r := Edit(v, route, f).fields;
    assert r.Keys == v.fields.Keys;
    assert forall k :: k in v.fields ==> r[k] == Edit(v.fields[k], route[1..], f);
    if forall k :: k in v.fields ==> Edit(v.fields[k], route[1..], f) == v.fields[k] { assert r == v.fields; }
  }

  lemma EachFixed(v: Node, route: seq<Hop>, f: Fields -> Fields)
    requires route != [] && route[0] == Each && v.VArr?
    ensures Edit(v, route, f) == v <==>
            forall i :: 0 <= i < |v.items| ==> Edit(v.items[i], route[1..], f) == v.items[i]
  {
    var r := Edit(v, route, f).items;
    assert |r| == |v.items|;
    assert forall i :: 0 <= i < |v.items| ==> r[i] == Edit(v.items[i], route[1..], f);
    if forall i :: 0 <= i < |v.items| ==> Edit(v.items[i], route[1..], f) == v.items[i] { assert r == v.items; }
  }

  /** What holds after an edit, said of the objects before it. */
  lemma {:induction false} AllEdited(
    v: Node, route: seq<Hop>, f: Fields -> Fields, ok: Fields -> bool, was: Fields -> bool)
    requires forall m: Fields :: was(m) <==> ok(f(m))
    ensures All(Edit(v, route, f), route, ok) <==> All(v, route, was)
    decreases |route|
  {
    if route != [] {
      match route[0]
      case Key(k) =>
        if v.VObj? && k in v.fields { AllEdited(v.fields[k], route[1..], f, ok, was); }
      case Every =>
        if v.VObj? {
          forall k | k in v.fields { AllEdited(v.fields[k], route[1..], f, ok, was); }
          var r := Edit(v, route, f).fields;
          assert r.Keys == v.fields.Keys && forall k :: k in r ==> r[k] == Edit(v.fields[k], route[1..], f);
        }
      case Each =>
        if v.VArr? {
          forall i | 0 <= i < |v.items| { AllEdited(v.items[i], route[1..], f, ok, was); }
          var r := Edit(v, route, f).items;
          assert |r| == |v.items| && forall i :: 0 <= i < |r| ==> r[i] == Edit(v.items[i], route[1..], f);
        }
    }
  }

  /** A second application changes nothing here. */
  predicate Settles(f: Fields -> Fields, m: Fields) { f(f(m)) == f(m) }

  /** An edit is idempotent on a tree exactly when it is on every object at the end of the route. */
  lemma EditAgain(v: Node, route: seq<Hop>, f: Fields -> Fields, ok: Fields -> bool)
    requires forall m: Fields :: ok(m) <==> Settles(f, m)
    ensures Edit(Edit(v, route, f), route, f) == Edit(v, route, f) <==> All(v, route, ok)
  {
    var fixed := (m: Fields) => f(m) == m;
    EditFixed(Edit(v, route, f), route, f, fixed);
    AllEdited(v, route, f, fixed, ok);
  }

  /** A route in two parts. */
  lemma {:induction false} AllJoined(v: Node, r: seq<Hop>, s: seq<Hop>, ok: Fields -> bool, here: Fields -> bool)
    requires forall m: Fields :: here(m) <==> All(VObj(m), s, ok)
    requires s != [] && !s[0].Each?
    ensures All(v, r + s, ok) <==> All(v, r, here)
    decreases |r|
  {
    if r == [] {
      assert r + s == s;
      if v.VObj? { assert VObj(v.fields) == v; }
    } else {
      assert (r + s)[1..] == r[1..] + s && (r + s)[0] == r[0];
      match r[0]
      case Key(k) =>
        if v.VObj? && k in v.fields { AllJoined(v.fields[k], r[1..], s, ok, here); }
      case Every =>
        if v.VObj? {
          forall k | k in v.fields { AllJoined(v.fields[k], r[1..], s, ok, here); }
        }
      case Each =>
        if v.VArr? {
          forall i | 0 <= i < |v.items| { AllJoined(v.items[i], r[1..], s, ok, here); }
        }
    }
  }

  /** A property of every object holds at the end of every route. */
  lemma {:induction false} AllAlways(v: Node, route: seq<Hop>, fine: Fields -> bool)
    requires forall m: Fields :: fine(m)
    ensures All(v, route, fine)
    decreases |route|
  {
    if route != [] {
      match route[0]
      case Key(k) => if v.VObj? && k in v.fields { AllAlways(v.fields[k], route[1..], fine); }
      case Every => if v.VObj? { forall k | k in v.fields { AllAlways(v.fields[k], route[1..], fine); } }
      case Each => if v.VArr? { forall i | 0 <= i < |v.items| { AllAlways(v.items[i], route[1..], fine); } }
    }
  }
}
