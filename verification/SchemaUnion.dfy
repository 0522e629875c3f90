/** Request-body schemas: dropping the bare branches of a `oneOf`, and the discriminator of the EVM sign request. */
module SchemaUnion {
  import opened Amino
  import opened Tree
  import opened Refs

  /** The branch `{"type": "object"}`. */
  predicate BareObject(item: Node) {
    item.VObj? && |item.fields| == 1 && "type" in item.fields && item.fields["type"] == VStr("object")
  }

  /** The other branches, in order. */
  function Kept(items: seq<Node>): seq<Node> {
    if items == [] then []
    else (if BareObject(items[0]) then [] else [items[0]]) + Kept(items[1..])
  }

  lemma {:induction false} KeptExact(items: seq<Node>)
    ensures |Kept(items)| <= |items|
    ensures forall x :: x in Kept(items) <==> x in items && !BareObject(x)
    ensures |Kept(items)| == |items| ==> Kept(items) == items
  {
    if items != [] {
      KeptExact(items[1..]);
      assert items == [items[0]] + items[1..];
    }
  }

  lemma {:induction false} KeptAll(items: seq<Node>)
    requires forall x :: x in items ==> !BareObject(x)
    ensures Kept(items) == items
  {
    if items != [] { KeptAll(items[1..]); }
  }

  lemma {:induction false} KeptSnoc(items: seq<Node>, x: Node)
    ensures Kept(items + [x]) == Kept(items) + if BareObject(x) then [] else [x]
  {
    if items == [] {
      assert items + [x] == [x];
    } else {
      assert (items + [x])[1..] == items[1..] + [x];
      KeptSnoc(items[1..], x);
    }
  }

  predicate HasBranches(schema: Fields) { "oneOf" in schema && schema["oneOf"].VArr? }

  function Branches(schema: Fields): seq<Node>
    requires HasBranches(schema)
  {
    schema["oneOf"].items
  }

  function Normalized(schema: Fields): Fields {
    if !HasBranches(schema) then schema
    else
      var kept := Kept(Branches(schema));
      if kept == [] then schema - {"oneOf"}
      else if |kept| == 1 && kept[0].VObj? then kept[0].fields
      else schema["oneOf" := VArr(kept)]
  }

  method FilterBranches(oneOf: seq<Node>) returns (filtered: seq<Node>)
    ensures filtered == Kept(oneOf)
  {
    filtered := [];
    for i := 0 to |oneOf|
      invariant filtered == Kept(oneOf[..i])
    {
      assert oneOf[..i + 1] == oneOf[..i] + [oneOf[i]];
      KeptSnoc(oneOf[..i], oneOf[i]);
      if !BareObject(oneOf[i]) { filtered := filtered + [oneOf[i]]; }
    }
    assert oneOf[..|oneOf|] == oneOf;
  }

  method NormalizeSchema(schema: Fields) returns (r: Fields)
    ensures r == Normalized(schema)
  {
    r := schema;
    if "oneOf" !in schema || !schema["oneOf"].VArr? { return; }
    var filtered := FilterBranches(schema["oneOf"].items);
    if |filtered| == 0 {
      r := r - {"oneOf"};
    } else if |filtered| == 1 && filtered[0].VObj? {
      r := filtered[0].fields;
    } else {
      r := r["oneOf" := VArr(filtered)];
    }
  }

  /** Nothing left to do: no bare branch, and not a single object branch, and not an empty list. */
  predicate Stable(schema: Fields) {
    HasBranches(schema) ==>
      && (forall x :: x in Branches(schema) ==> !BareObject(x))
      && Branches(schema) != []
      && (|Branches(schema)| == 1 ==> !Branches(schema)[0].VObj?)
  }

  /** If one object branch survives, it must itself be stable. */
  predicate Settled(schema: Fields) {
    HasBranches(schema) ==>
      var kept := Kept(Branches(schema));
      |kept| == 1 && kept[0].VObj? ==> Stable(kept[0].fields)
  }

  /** No branch contains the list it stands in. */
  lemma BranchBelow(schema: Fields, x: Node)
    requires HasBranches(schema) && x in Branches(schema)
    ensures x.VObj? && "oneOf" in x.fields ==> x.fields["oneOf"] != schema["oneOf"]
    ensures x != VObj(schema)
  {
    var i :| 0 <= i < |Branches(schema)| && Branches(schema)[i] == x;
    var list := schema["oneOf"];
    assert list.items[i] < list;
    if x.VObj? && "oneOf" in x.fields { assert x.fields["oneOf"] < x; }
    assert list < VObj(schema);
  }

  lemma StableFixed(schema: Fields)
    ensures Normalized(schema) == schema <==> Stable(schema)
  {
    if HasBranches(schema) {
      var items := Branches(schema);
      var kept := Kept(items);
      KeptExact(items);
      if Stable(schema) { KeptAll(items); }
      if kept != [] && |kept| == 1 && kept[0].VObj? {
        assert kept[0] in items;
        BranchBelow(schema, kept[0]);
      }
    }
  }

  lemma NormalizedStable(schema: Fields)
    ensures Stable(Normalized(schema)) <==> Settled(schema)
  {
    if HasBranches(schema) {
      var kept := Kept(Branches(schema));
      KeptExact(Branches(schema));
      if kept == [] {
        assert "oneOf" !in Normalized(schema);
      }
    }
  }

  /** Normalising a schema twice is normalising it once exactly when it is settled. */
  lemma NormalizeIdempotent(schema: Fields)
    ensures Normalized(Normalized(schema)) == Normalized(schema) <==> Settled(schema)
  {
    StableFixed(Normalized(schema));
    NormalizedStable(schema);
  }

  /** A surviving branch with an empty `oneOf` of its own: the second pass still changes something. */
  lemma NestedUnionChangesAgain()
    ensures var schema: Fields := map["oneOf" := VArr([VObj(map["oneOf" := VArr([])])])];
            Normalized(Normalized(schema)) != Normalized(schema)
  {
    var inner: Fields := map["oneOf" := VArr([])];
    var schema: Fields := map["oneOf" := VArr([VObj(inner)])];
    assert !BareObject(VObj(inner));
    KeptAll([VObj(inner)]);
    assert Normalized(schema) == inner;
    assert "oneOf" !in Normalized(inner);
  }

  // ------------------------------------------------------------------ discriminator

  const DISCRIMINATOR: Node := VObj(map[
    "propertyName" := VStr("type"),
    "mapping" := VObj(map[
      "raw_tx" := VStr(SCHEMAS + (NEW_PREFIX + "EVMSignRawTxRequest")),
      "personal_message" := VStr(SCHEMAS + (NEW_PREFIX + "EVMSignPersonalMessageRequest")),
      "eip712_digest" := VStr(SCHEMAS + (NEW_PREFIX + "EVMSignEIP712Request"))])])

  function Discriminated(schema: Fields, disc: Node): Fields {
    if "oneOf" in schema then schema["discriminator" := disc] else schema
  }

  /** Normalising and then tagging: the same condition decides whether a second pass changes anything. */
  lemma DiscriminateIdempotent(schema: Fields, disc: Node)
    ensures var once := Discriminated(Normalized(schema), disc);
            Discriminated(Normalized(once), disc) == once <==> Settled(schema)
  {
    var once := Discriminated(Normalized(schema), disc);
    NormalizedStable(schema);
    assert Stable(once) <==> Stable(Normalized(schema));
    TaggedFixed(once, disc);
  }

  lemma TaggedFixed(t: Fields, disc: Node)
    requires Discriminated(t, disc) == t
    ensures Discriminated(Normalized(t), disc) == t <==> Stable(t)
  {
    StableFixed(t);
    if Discriminated(Normalized(t), disc) == t && HasBranches(t) {
      var kept := Kept(Branches(t));
      KeptExact(Branches(t));
      if |kept| == 1 && kept[0].VObj? {
        assert kept[0] in Branches(t);
        BranchBelow(t, kept[0]);
      }
    }
  }

  // ------------------------------------------------------------------ rewriting references first

  lemma MovedObject(p: Prefixes, s: string)
    ensures Moved(p, s) == "object" <==> s == "object"
  {
    if s[..] == "object" { assert s[0] == 'o' && OldRef(p)[0] == '#'; }
    if Moved(p, s) != s { assert Moved(p, s)[0] == '#'; }
  }

  lemma RewrittenBare(p: Prefixes, x: Node)
    ensures BareObject(Rewritten(p, x)) <==> BareObject(x)
  {
    if x.VObj? && "type" in x.fields {
      assert Rewritten(p, x).fields.Keys == x.fields.Keys;
      MapSize(Rewritten(p, x).fields);
      MapSize(x.fields);
      var t := x.fields["type"];
      if t.VStr? { MovedObject(p, t.text); }
    }
  }

  lemma MapSize(m: Fields)
    ensures |m| == |m.Keys|
  {}

  function RewrittenItems(p: Prefixes, items: seq<Node>): seq<Node> { Rewritten(p, VArr(items)).items }

  lemma RewrittenCons(p: Prefixes, x: Node, rest: seq<Node>)
    ensures RewrittenItems(p, [x] + rest) == [Rewritten(p, x)] + RewrittenItems(p, rest)
  {}

  lemma KeptCons(x: Node, rest: seq<Node>)
    ensures Kept([x] + rest) == (if BareObject(x) then [] else [x]) + Kept(rest)
  {
    assert ([x] + rest)[1..] == rest;
  }

  lemma {:induction false} RewrittenKept(p: Prefixes, items: seq<Node>)
    ensures Kept(RewrittenItems(p, items)) == RewrittenItems(p, Kept(items))
  {
    if items != [] {
      var x, rest := items[0], items[1..];
      assert items == [x] + rest;
      RewrittenKept(p, rest);
      RewrittenCons(p, x, rest);
      KeptCons(x, rest);
      KeptCons(Rewritten(p, x), RewrittenItems(p, rest));
      RewrittenBare(p, x);
      RewrittenCons(p, x, Kept(rest));
    }
  }

  lemma RewrittenStable(p: Prefixes, schema: Fields)
    ensures Stable(RewrittenFields(p, schema)) <==> Stable(schema)
  {
    if HasBranches(schema) {
      var items := Branches(schema);
      var after := RewrittenItems(p, items);
      assert Branches(RewrittenFields(p, schema)) == after;
      forall i | 0 <= i < |items| ensures BareObject(after[i]) <==> BareObject(items[i]) { RewrittenBare(p, items[i]); }
      assert |after| == |items|;
    }
  }

  /** Rewriting references does not change whether a schema is settled. */
  lemma RewrittenSettled(p: Prefixes, schema: Fields)
    ensures Settled(RewrittenFields(p, schema)) <==> Settled(schema)
  {
    if HasBranches(schema) {
      var items := Branches(schema);
      RewrittenKept(p, items);
      var kept := Kept(items);
      if |kept| == 1 && kept[0].VObj? {
        RewrittenStable(p, kept[0].fields);
        assert VObj(RewrittenFields(p, kept[0].fields)) == Rewritten(p, kept[0]);
      }
    }
  }
}
