/** The check of discriminator mappings after the post-processing, said of the document before it. */
module Validity {
  import opened Text
  import opened Amino
  import opened Tree
  import opened Refs
  import opened Mappings
  import opened SchemaUnion
  import opened OpenApi

  type Test = string -> bool

  /** Every string of a mapping object is accepted. */
  predicate StringsOk(ok: Test, mapping: Fields) {
    forall k :: k in mapping && mapping[k].VStr? ==> ok(mapping[k].text)
  }

  /** Every mapping string at or below the node is accepted. */
  predicate MapsOk(ok: Test, v: Node) {
    match v
    case VObj(m) => StringsOk(ok, MappingOf(m)) && forall k :: k in m ==> MapsOk(ok, m[k])
    case VArr(items) => forall i :: 0 <= i < |items| ==> MapsOk(ok, items[i])
    case _ => true
  }

  lemma {:induction false} MapsOkAt(ok: Test, v: Node, path: seq<Turn>)
    requires MapsOk(ok, v) && At(v, path).Some?
    ensures MapsOk(ok, At(v, path).value)
    decreases |path|
  {
    if path != [] {
      match path[0]
      case Into(k) => MapsOkAt(ok, v.fields[k], path[1..]);
      case Item(i) => MapsOkAt(ok, v.items[i], path[1..]);
    }
  }

  lemma MappedBelow(v: Node, turn: Turn, child: Node, path: seq<Turn>, k: string, s: string)
    requires At(v, [turn]) == Some(child) && Mapped(child, path, k, s)
    ensures Mapped(v, [turn] + path, k, s)
  {
    assert ([turn] + path)[1..] == path && [turn][1..] == [];
  }

  /** Said path by path. */
  lemma {:induction false} MapsOkExact(ok: Test, v: Node)
    ensures MapsOk(ok, v) <==> forall path, k, s :: Mapped(v, path, k, s) ==> ok(s)
  {
    if MapsOk(ok, v) {
      forall path, k, s | Mapped(v, path, k, s) ensures ok(s) { MapsOkAt(ok, v, path); }
    }
    if forall path, k, s :: Mapped(v, path, k, s) ==> ok(s) { AllMappedOk(ok, v); }
  }

  lemma {:induction false} AllMappedOk(ok: Test, v: Node)
    requires forall path, k, s :: Mapped(v, path, k, s) ==> ok(s)
    ensures MapsOk(ok, v)
  {
    match v
    case VObj(m) =>
      forall k | k in MappingOf(m) && MappingOf(m)[k].VStr? ensures ok(MappingOf(m)[k].text) {
        assert Mapped(v, [], k, MappingOf(m)[k].text);
      }
      forall n | n in m ensures MapsOk(ok, m[n]) {
        assert [Into(n)][1..] == [];
        forall path, k, s | Mapped(m[n], path, k, s) ensures ok(s) { MappedBelow(v, Into(n), m[n], path, k, s); }
        AllMappedOk(ok, m[n]);
      }
    case VArr(items) =>
      forall i | 0 <= i < |items| ensures MapsOk(ok, items[i]) {
        assert [Item(i)][1..] == [];
        forall path, k, s | Mapped(items[i], path, k, s) ensures ok(s) {
          MappedBelow(v, Item(i), items[i], path, k, s);
        }
        AllMappedOk(ok, items[i]);
      }
    case _ =>
  }

  // ------------------------------------------------------------------ rewriting

  ghost predicate MovedOk(p: Prefixes, ok: Test, before: Test) { forall s :: before(s) <==> ok(Moved(p, s)) }

  lemma MappingRewritten(p: Prefixes, m: Fields)
    ensures MappingOf(RewrittenFields(p, m)) == RewrittenFields(p, MappingOf(m))
  {
    if "discriminator" in m && m["discriminator"].VObj? {
      var d := m["discriminator"].fields;
      assert RewrittenAt(p, VObj(d)) == VObj(RewrittenFields(p, d));
      if "mapping" in d && d["mapping"].VObj? {
        assert RewrittenAt(p, d["mapping"]) == VObj(RewrittenFields(p, d["mapping"].fields));
      }
    }
  }

  /** The mapping strings of the rewritten tree are the rewritten ones. */
  lemma {:induction false} MapsOkRewritten(p: Prefixes, ok: Test, before: Test, v: Node)
    requires MovedOk(p, ok, before)
    ensures MapsOk(ok, Rewritten(p, v)) <==> MapsOk(before, v)
    ensures MapsOk(ok, RewrittenAt(p, v)) <==> MapsOk(before, v)
  {
    match v
    case VObj(m) =>
      MappingRewritten(p, m);
      forall k | k in m { MapsOkRewritten(p, ok, before, m[k]); }
      StringsOkRewritten(p, ok, before, MappingOf(m));
      assert Rewritten(p, v) == VObj(RewrittenFields(p, m));
    case VArr(items) =>
      forall i | 0 <= i < |items| { MapsOkRewritten(p, ok, before, items[i]); }
      var r := Rewritten(p, v).items;
      assert |r| == |items| && forall i :: 0 <= i < |r| ==> r[i] == Rewritten(p, items[i]);
    case _ =>
  }

  lemma StringsOkRewritten(p: Prefixes, ok: Test, before: Test, m: Fields)
    requires MovedOk(p, ok, before)
    ensures StringsOk(ok, RewrittenFields(p, m)) <==> StringsOk(before, m)
  {
    var r := RewrittenFields(p, m);
    forall k | k in m && m[k].VStr? ensures ok(r[k].text) <==> before(m[k].text) {}
  }

  // ------------------------------------------------------------------ schemas

  lemma {:induction false} KeptOk(ok: Test, items: seq<Node>)
    requires forall i :: 0 <= i < |items| ==> MapsOk(ok, items[i])
    ensures forall i :: 0 <= i < |Kept(items)| ==> MapsOk(ok, Kept(items)[i])
  {
    KeptExact(items);
    forall i | 0 <= i < |Kept(items)| ensures MapsOk(ok, Kept(items)[i]) { assert Kept(items)[i] in items; }
  }

  lemma NormalizedOk(ok: Test, schema: Fields)
    requires MapsOk(ok, VObj(schema))
    ensures MapsOk(ok, VObj(Normalized(schema)))
  {
    if HasBranches(schema) {
      var items := Branches(schema);
      assert MapsOk(ok, schema["oneOf"]);
      KeptOk(ok, items);
      var kept := Kept(items);
      assert MapsOk(ok, VArr(kept));
      if |kept| == 1 && kept[0].VObj? {
        assert VObj(kept[0].fields) == kept[0] && MapsOk(ok, kept[0]);
      } else {
        assert MappingOf(Normalized(schema)) == MappingOf(schema);
      }
    }
  }

  /** The tag itself maps to accepted references only. */
  predicate TagOk(ok: Test, disc: Node) { MapsOk(ok, VObj(map["discriminator" := disc])) }

  /** A schema that is tagged needs a good tag. */
  predicate Quiet(ok: Test, disc: Node, evm: bool, schema: Fields) {
    evm && "oneOf" in Normalized(schema) ==> TagOk(ok, disc)
  }

  lemma TaggedOk(ok: Test, disc: Node, schema: Fields)
    requires MapsOk(ok, VObj(schema))
    ensures MapsOk(ok, VObj(schema["discriminator" := disc])) <==> TagOk(ok, disc)
  {
    var tag: Fields := map["discriminator" := disc];
    var tagged := schema["discriminator" := disc];
    assert MappingOf(tagged) == MappingOf(tag);
    assert tag["discriminator"] == disc && tagged["discriminator"] == disc;
  }

  lemma FixedSchemaOk(ok: Test, disc: Node, evm: bool, schema: Fields)
    requires MapsOk(ok, VObj(schema))
    ensures MapsOk(ok, VObj(FixedSchema(disc, evm, schema))) <==> Quiet(ok, disc, evm, schema)
  {
    NormalizedOk(ok, schema);
    TaggedOk(ok, disc, Normalized(schema));
  }

  // ------------------------------------------------------------------ edits

  /** The route passes by no mapping: no edit along it changes the mapping of an object on the way. */
  predicate Safe(route: seq<Hop>) {
    route == [] ||
    (Safe(route[1..]) &&
     match route[0]
     case Key(k) => k != "discriminator"
     case Every => |route| > 1 && route[1].Key? && route[1].name != "mapping"
     case Each => true)
  }

  /** Where `f` leaves the mappings of an object good exactly if the object is `fine`. */
  ghost predicate Judges(ok: Test, f: Fields -> Fields, fine: Fields -> bool) {
    forall m: Fields :: MapsOk(ok, VObj(m)) ==> (MapsOk(ok, VObj(f(m))) <==> fine(m))
  }

  lemma MappingKeyEdited(m: Fields, k: string, child: Node)
    requires k != "discriminator"
    ensures MappingOf(m[k := child]) == MappingOf(m)
  {}

  lemma MappingEveryEdited(v: Node, route: seq<Hop>, f: Fields -> Fields)
    requires v.VObj? && Safe(route) && route != [] && route[0].Every?
    ensures Edit(v, route, f).VObj? && MappingOf(Edit(v, route, f).fields) == MappingOf(v.fields)
  {
    var r := Edit(v, route, f).fields;
    if "discriminator" in v.fields {
      var d := v.fields["discriminator"];
      assert r["discriminator"] == Edit(d, route[1..], f);
      assert route[1..][0] == route[1];
    }
  }

  /** An edit along a safe route leaves the mappings good exactly if every object at its end is fine. */
  lemma {:induction false} EditOk(ok: Test, v: Node, route: seq<Hop>, f: Fields -> Fields, fine: Fields -> bool)
    requires MapsOk(ok, v) && Safe(route) && Judges(ok, f, fine)
    ensures MapsOk(ok, Edit(v, route, f)) <==> All(v, route, fine)
    decreases |route|, 1
  {
    if route == [] {
      if v.VObj? { assert VObj(v.fields) == v; }
    } else if route[0].Key? {
      EditKeyOk(ok, v, route[0].name, route, f, fine);
    } else if route[0].Every? {
      EditEveryOk(ok, v, route, f, fine);
    } else {
      EditEachOk(ok, v, route, f, fine);
    }
  }

  lemma {:induction false} EditKeyOk(
    ok: Test, v: Node, k: string, route: seq<Hop>, f: Fields -> Fields, fine: Fields -> bool)
    requires MapsOk(ok, v) && Safe(route) && Judges(ok, f, fine) && route != [] && route[0] == Key(k)
    ensures MapsOk(ok, Edit(v, route, f)) <==> All(v, route, fine)
    decreases |route|, 0
  {
    if v.VObj? && k in v.fields {
      var child := Edit(v.fields[k], route[1..], f);
      EditOk(ok, v.fields[k], route[1..], f, fine);
      MappingKeyEdited(v.fields, k, child);
      assert Edit(v, route, f) == VObj(v.fields[k := child]);
      assert v.fields[k := child][k] == child;
    }
  }

  lemma {:induction false} EditEveryOk(ok: Test, v: Node, route: seq<Hop>, f: Fields -> Fields, fine: Fields -> bool)
    requires MapsOk(ok, v) && Safe(route) && Judges(ok, f, fine) && route != [] && route[0].Every?
    ensures MapsOk(ok, Edit(v, route, f)) <==> All(v, route, fine)
    decreases |route|, 0
  {
    if v.VObj? {
      forall k | k in v.fields
        ensures MapsOk(ok, Edit(v.fields[k], route[1..], f)) <==> All(v.fields[k], route[1..], fine)
      {
        EditOk(ok, v.fields[k], route[1..], f, fine);
      }
      MappingEveryEdited(v, route, f);
      var r := Edit(v, route, f).fields;
      assert r.Keys == v.fields.Keys && forall k :: k in r ==> r[k] == Edit(v.fields[k], route[1..], f);
    }
  }

  lemma {:induction false} EditEachOk(ok: Test, v: Node, route: seq<Hop>, f: Fields -> Fields, fine: Fields -> bool)
    requires MapsOk(ok, v) && Safe(route) && Judges(ok, f, fine) && route != [] && route[0].Each?
    ensures MapsOk(ok, Edit(v, route, f)) <==> All(v, route, fine)
    decreases |route|, 0
  {
    if v.VArr? {
      forall i | 0 <= i < |v.items|
        ensures MapsOk(ok, Edit(v.items[i], route[1..], f)) <==> All(v.items[i], route[1..], fine)
      {
        EditOk(ok, v.items[i], route[1..], f, fine);
      }
      var r := Edit(v, route, f).items;
      assert |r| == |v.items| && forall i :: 0 <= i < |r| ==> r[i] == Edit(v.items[i], route[1..], f);
    }
  }

  /** Edits that never spoil an object never spoil the document. */
  lemma EditKeepsOk(ok: Test, v: Node, route: seq<Hop>, f: Fields -> Fields)
    requires MapsOk(ok, v) && Safe(route)
    requires forall m: Fields :: MapsOk(ok, VObj(m)) ==> MapsOk(ok, VObj(f(m)))
    ensures MapsOk(ok, Edit(v, route, f))
  {
    var always := (m: Fields) => true;
    EditOk(ok, v, route, f, always);
    AllAlways(v, route, always);
  }

  lemma {:induction false} AllSame(v: Node, route: seq<Hop>, a: Fields -> bool, b: Fields -> bool)
    requires forall m: Fields :: a(m) <==> b(m)
    ensures All(v, route, a) <==> All(v, route, b)
    decreases |route|
  {
    if route != [] {
      match route[0]
      case Key(k) => if v.VObj? && k in v.fields { AllSame(v.fields[k], route[1..], a, b); }
      case Every => if v.VObj? { forall k | k in v.fields { AllSame(v.fields[k], route[1..], a, b); } }
      case Each => if v.VArr? { forall i | 0 <= i < |v.items| { AllSame(v.items[i], route[1..], a, b); } }
    }
  }

  // ------------------------------------------------------------------ the stages outside the paths

  lemma CapitalisedOk(ok: Test, m: Fields)
    requires MapsOk(ok, VObj(m))
    ensures MapsOk(ok, VObj(Capitalised(m)))
  {
    assert MappingOf(Capitalised(m)) == MappingOf(m);
  }

  lemma FixedServerOk(ok: Test, m: Fields)
    requires MapsOk(ok, VObj(m))
    ensures MapsOk(ok, VObj(FixedServer(m)))
  {
    assert MappingOf(FixedServer(m)) == MappingOf(m);
  }

  lemma RenameKeysOk(p: Prefixes, ok: Test, m: Fields)
    requires Apart(p) && !HasPrefix("discriminator", p.from) && !HasPrefix("discriminator", p.to)
    requires MapsOk(ok, VObj(m))
    ensures MapsOk(ok, VObj(RenameKeys(p, m)))
  {
    var r := RenameKeys(p, m);
    RenamedLookup(p, m, "discriminator");
    assert MappingOf(r) == MappingOf(m);
    forall k | k in r ensures MapsOk(ok, r[k]) { RenamedKeysExact(p, m, {}, k); }
  }

  lemma FixedRequirementsOk(ok: Test, v: Node)
    requires MapsOk(ok, v)
    ensures MapsOk(ok, FixedRequirements(v))
  {
    forall m: Fields | MapsOk(ok, VObj(m)) ensures MapsOk(ok, VObj(Capitalised(m))) { CapitalisedOk(ok, m); }
    EditKeepsOk(ok, v, [Each], Capitalised);
  }

  lemma FixedSecurityOk(ok: Test, op: Fields)
    requires MapsOk(ok, VObj(op))
    ensures MapsOk(ok, VObj(FixedSecurity(op)))
  {
    if "security" in op {
      FixedRequirementsOk(ok, op["security"]);
      MappingKeyEdited(op, "security", FixedRequirements(op["security"]));
    }
  }

  // ------------------------------------------------------------------ operations and paths

  /** Every request-body schema of the operation is quiet. */
  predicate QuietOperation(ok: Test, disc: Node, evm: bool, op: Fields) {
    All(VObj(op), BODY_SCHEMAS, s => Quiet(ok, disc, evm, s))
  }

  lemma BodyRouteSafe()
    ensures Safe(BODY_SCHEMAS)
  {
    assert BODY_SCHEMAS[1..] == [Key("content"), Every, Key("schema")];
    assert BODY_SCHEMAS[1..][1..] == [Every, Key("schema")];
    assert [Every, Key("schema")][1..] == [Key("schema")];
    assert Safe([Key("schema")]) by { assert [Key("schema")][1..] == []; }
  }

  lemma FixedOperationOk(ok: Test, disc: Node, evm: bool, op: Fields)
    requires MapsOk(ok, VObj(op))
    ensures MapsOk(ok, VObj(FixedOperation(disc, evm, op))) <==> QuietOperation(ok, disc, evm, op)
  {
    var stage, quiet := s => FixedSchema(disc, evm, s), s => Quiet(ok, disc, evm, s);
    OperationParts(disc, evm, op);
    FixedSecurityOk(ok, op);
    BodyRouteSafe();
    forall m: Fields | MapsOk(ok, VObj(m)) ensures MapsOk(ok, VObj(stage(m))) <==> quiet(m) {
      FixedSchemaOk(ok, disc, evm, m);
    }
    EditOk(ok, VObj(FixedSecurity(op)), BODY_SCHEMAS, stage, quiet);
    SecurityKeepsSchemas(op, quiet);
  }

  /** An operation keeps its members but for two, and those two stay strings if they were. */
  lemma OperationKeeps(disc: Node, evm: bool, op: Fields, k: string)
    ensures var r := FixedOperation(disc, evm, op);
            && (k in r <==> k in op)
            && (k in r && k != "security" && k != "requestBody" ==> r[k] == op[k])
            && (k in r && r[k].VStr? ==> op[k] == r[k])
  {
    var stage := s => FixedSchema(disc, evm, s);
    OperationParts(disc, evm, op);
    var rest := [Key("content"), Every, Key("schema")];
    assert BODY_SCHEMAS == [Key("requestBody")] + rest;
    EditTop(FixedSecurity(op), "requestBody", rest, stage, k);
  }

  lemma PathMappingKept(disc: Node, evm: bool, item: Fields)
    ensures MappingOf(Edit(VObj(item), [Every], OperationStage(disc, evm)).fields) == MappingOf(item)
  {
    var r := Edit(VObj(item), [Every], OperationStage(disc, evm)).fields;
    assert [Every][1..] == [];
    if "discriminator" in item && item["discriminator"].VObj? {
      var d := item["discriminator"].fields;
      assert r["discriminator"] == VObj(FixedOperation(disc, evm, d));
      OperationKeeps(disc, evm, d, "mapping");
    }
  }

  lemma OperationNodeOk(ok: Test, disc: Node, evm: bool, v: Node)
    requires MapsOk(ok, v)
    ensures MapsOk(ok, Edit(v, [], OperationStage(disc, evm))) <==>
            All(v, [], op => QuietOperation(ok, disc, evm, op))
  {
    if v.VObj? {
      assert VObj(v.fields) == v;
      FixedOperationOk(ok, disc, evm, v.fields);
    }
  }

  lemma PathItemOk(ok: Test, disc: Node, evm: bool, v: Node)
    requires MapsOk(ok, v)
    ensures MapsOk(ok, Edit(v, [Every], OperationStage(disc, evm))) <==>
            All(v, [Every], op => QuietOperation(ok, disc, evm, op))
  {
    var f := OperationStage(disc, evm);
    var quiet := op => QuietOperation(ok, disc, evm, op);
    assert [Every][1..] == [];
    if v.VObj? {
      forall k | k in v.fields ensures MapsOk(ok, Edit(v.fields[k], [], f)) <==> All(v.fields[k], [], quiet) {
        OperationNodeOk(ok, disc, evm, v.fields[k]);
        AllSame(v.fields[k], [], quiet, op => QuietOperation(ok, disc, evm, op));
      }
      PathMappingKept(disc, evm, v.fields);
      assert VObj(v.fields) == v;
      var r := Edit(v, [Every], f).fields;
      assert r.Keys == v.fields.Keys && forall k :: k in r ==> r[k] == Edit(v.fields[k], [], f);
    }
  }

  /** Every operation of the path is quiet. */
  predicate QuietPath(ok: Test, disc: Node, key: string, v: Node) {
    All(v, [Every], op => QuietOperation(ok, disc, HasSuffix(key, "/sign/evm"), op))
  }

  lemma PathsMappingOk(ok: Test, disc: Node, paths: Fields)
    requires StringsOk(ok, MappingOf(paths))
    ensures StringsOk(ok, MappingOf(FixedPaths(disc, paths)))
  {
    var r := FixedPaths(disc, paths);
    if "discriminator" in paths && paths["discriminator"].VObj? {
      var evm, d := HasSuffix("discriminator", "/sign/evm"), paths["discriminator"];
      assert r["discriminator"] == Edit(d, [Every], OperationStage(disc, evm));
      MappingStaged(disc, evm, d);
      if MappingOf(r) != map[] { OperationStringsOk(ok, disc, evm, MappingOf(paths)); }
    }
  }

  /** An object under the name `discriminator` whose members are taken for operations. */
  lemma MappingStaged(disc: Node, evm: bool, d: Node)
    requires d.VObj?
    ensures var before, after := map["discriminator" := d],
              map["discriminator" := Edit(d, [Every], OperationStage(disc, evm))];
            MappingOf(after) == map[] || MappingOf(after) == FixedOperation(disc, evm, MappingOf(before))
  {
    assert [Every][1..] == [];
  }

  lemma OperationStringsOk(ok: Test, disc: Node, evm: bool, op: Fields)
    requires StringsOk(ok, op)
    ensures StringsOk(ok, FixedOperation(disc, evm, op))
  {
    var after := FixedOperation(disc, evm, op);
    forall k | k in after && after[k].VStr? ensures ok(after[k].text) { OperationKeeps(disc, evm, op, k); }
  }

  lemma FixedPathsOk(ok: Test, disc: Node, paths: Fields)
    requires MapsOk(ok, VObj(paths))
    ensures MapsOk(ok, VObj(FixedPaths(disc, paths))) <==> forall k :: k in paths ==> QuietPath(ok, disc, k, paths[k])
  {
    var r := FixedPaths(disc, paths);
    PathsMappingOk(ok, disc, paths);
    forall k | k in paths ensures MapsOk(ok, r[k]) <==> QuietPath(ok, disc, k, paths[k]) {
      PathItemOk(ok, disc, HasSuffix(k, "/sign/evm"), paths[k]);
    }
    assert r.Keys == paths.Keys;
  }

  lemma OneOfRewritten(p: Prefixes, schema: Fields)
    ensures "oneOf" in Normalized(RewrittenFields(p, schema)) <==> "oneOf" in Normalized(schema)
  {
    if HasBranches(schema) {
      var items := Branches(schema);
      RewrittenKept(p, items);
      assert Branches(RewrittenFields(p, schema)) == RewrittenItems(p, items);
      var kept := Kept(items);
      assert |RewrittenItems(p, kept)| == |kept|;
      if |kept| == 1 && kept[0].VObj? {
        assert RewrittenItems(p, kept)[0] == VObj(RewrittenFields(p, kept[0].fields));
      }
    }
  }

  lemma QuietOperationRewritten(p: Prefixes, ok: Test, disc: Node, evm: bool, op: Fields)
    ensures QuietOperation(ok, disc, evm, RewrittenFields(p, op)) <==> QuietOperation(ok, disc, evm, op)
  {
    var quiet := s => Quiet(ok, disc, evm, s);
    forall m: Fields ensures quiet(RewrittenFields(p, m)) <==> quiet(m) { OneOfRewritten(p, m); }
    AllRewritten(p, VObj(op), BODY_SCHEMAS, quiet);
    assert Rewritten(p, VObj(op)) == VObj(RewrittenFields(p, op));
  }

  lemma QuietPathRewritten(p: Prefixes, ok: Test, disc: Node, key: string, v: Node)
    ensures QuietPath(ok, disc, key, RewrittenAt(p, v)) <==> QuietPath(ok, disc, key, v)
  {
    var evm := HasSuffix(key, "/sign/evm");
    var quiet := op => QuietOperation(ok, disc, evm, op);
    forall m: Fields ensures quiet(RewrittenFields(p, m)) <==> quiet(m) {
      QuietOperationRewritten(p, ok, disc, evm, m);
    }
    AllRewritten(p, v, [Every], quiet);
  }

  // ------------------------------------------------------------------ the whole document

  predicate QuietPaths(ok: Test, disc: Node, v: Node) {
    v.VObj? ==> forall k :: k in v.fields ==> QuietPath(ok, disc, k, v.fields[k])
  }

  lemma PathsMemberOk(p: Prefixes, disc: Node, ok: Test, before: Test, v: Node)
    requires MovedOk(p, ok, before) && MapsOk(before, v)
    ensures MapsOk(ok, MemberOf(p, disc, "paths", v)) <==> QuietPaths(ok, disc, v)
  {
    var u := RewrittenAt(p, v);
    MapsOkRewritten(p, ok, before, v);
    if v.VObj? {
      assert u == VObj(RewrittenFields(p, v.fields));
      FixedPathsOk(ok, disc, u.fields);
      forall k | k in v.fields ensures QuietPath(ok, disc, k, u.fields[k]) <==> QuietPath(ok, disc, k, v.fields[k]) {
        QuietPathRewritten(p, ok, disc, k, v.fields[k]);
      }
    }
  }

  /** No prefix turns the name `discriminator` into another or another into it. */
  predicate Distant(p: Prefixes) { !HasPrefix("discriminator", p.from) && !HasPrefix("discriminator", p.to) }

  lemma ComponentsMemberOk(p: Prefixes, disc: Node, ok: Test, before: Test, v: Node)
    requires Apart(p) && Distant(p) && MovedOk(p, ok, before) && MapsOk(before, v)
    ensures MapsOk(ok, MemberOf(p, disc, "components", v))
  {
    var rename := m => RenameKeys(p, m);
    var a := Edit(v, [Key("schemas")], rename);
    assert [Key("schemas")][1..] == [] && [Key("securitySchemes")][1..] == [];
    forall m: Fields | MapsOk(before, VObj(m)) ensures MapsOk(before, VObj(rename(m))) { RenameKeysOk(p, before, m); }
    EditKeepsOk(before, v, [Key("schemas")], rename);
    MapsOkRewritten(p, ok, before, a);
    forall m: Fields | MapsOk(ok, VObj(m)) ensures MapsOk(ok, VObj(Capitalised(m))) { CapitalisedOk(ok, m); }
    EditKeepsOk(ok, RewrittenAt(p, a), [Key("securitySchemes")], Capitalised);
  }

  lemma ServersMemberOk(p: Prefixes, disc: Node, ok: Test, before: Test, v: Node)
    requires MovedOk(p, ok, before) && MapsOk(before, v)
    ensures MapsOk(ok, MemberOf(p, disc, "servers", v))
  {
    assert [Each][1..] == [];
    forall m: Fields | MapsOk(before, VObj(m)) ensures MapsOk(before, VObj(FixedServer(m))) {
      FixedServerOk(before, m);
    }
    EditKeepsOk(before, v, [Each], FixedServer);
    MapsOkRewritten(p, ok, before, Edit(v, [Each], FixedServer));
  }

  lemma MemberOk(p: Prefixes, disc: Node, ok: Test, before: Test, key: string, v: Node)
    requires Apart(p) && Distant(p) && MovedOk(p, ok, before) && MapsOk(before, v)
    ensures MapsOk(ok, MemberOf(p, disc, key, v)) <==> (key == "paths" ==> QuietPaths(ok, disc, v))
  {
    if key == "servers" { ServersMemberOk(p, disc, ok, before, v); }
    else if key == "components" { ComponentsMemberOk(p, disc, ok, before, v); }
    else if key == "paths" { PathsMemberOk(p, disc, ok, before, v); }
    else { MapsOkRewritten(p, ok, before, v); }
  }

  lemma TopMappingOk(p: Prefixes, disc: Node, ok: Test, before: Test, spec: Fields)
    requires MovedOk(p, ok, before) && MapsOk(before, VObj(spec))
    ensures StringsOk(ok, MappingOf(Normal(p, disc, spec)))
  {
    NormalMember(p, disc, spec, "discriminator");
    assert MappingOf(Normal(p, disc, spec)) == MappingOf(RewrittenFields(p, spec));
    MappingRewritten(p, spec);
    StringsOkRewritten(p, ok, before, MappingOf(spec));
  }

  /** The mappings of the processed document are good exactly if every schema that gets tagged gets a good tag. */
  lemma NormalOk(p: Prefixes, disc: Node, ok: Test, before: Test, spec: Fields)
    requires Apart(p) && Distant(p) && MovedOk(p, ok, before) && MapsOk(before, VObj(spec))
    ensures MapsOk(ok, VObj(Normal(p, disc, spec))) <==> ("paths" in spec ==> QuietPaths(ok, disc, spec["paths"]))
  {
    var after := Normal(p, disc, spec);
    TopMappingOk(p, disc, ok, before, spec);
    forall k | k in after
      ensures MapsOk(ok, after[k]) <==> (k == "paths" ==> QuietPaths(ok, disc, spec["openapi" := VERSION][k]))
    {
      NormalMember(p, disc, spec, k);
      MemberOk(p, disc, ok, before, k, spec["openapi" := VERSION][k]);
    }
    NormalMember(p, disc, spec, "paths");
  }

  // ------------------------------------------------------------------ tags

  /** No `oneOf` survives in a request body of an EVM signing operation. */
  predicate Untagged(v: Node) {
    v.VObj? ==> forall k :: k in v.fields && HasSuffix(k, "/sign/evm") ==>
      All(v.fields[k], OPERATION_SCHEMAS, s => "oneOf" !in Normalized(s))
  }

  lemma QuietPathExact(ok: Test, disc: Node, key: string, v: Node)
    ensures QuietPath(ok, disc, key, v) <==>
            (TagOk(ok, disc) || !HasSuffix(key, "/sign/evm") ||
             All(v, OPERATION_SCHEMAS, s => "oneOf" !in Normalized(s)))
  {
    var evm := HasSuffix(key, "/sign/evm");
    var quiet := s => Quiet(ok, disc, evm, s);
    var here := op => QuietOperation(ok, disc, evm, op);
    AllJoined(v, [Every], BODY_SCHEMAS, quiet, here);
    if TagOk(ok, disc) || !evm {
      AllAlways(v, OPERATION_SCHEMAS, quiet);
    } else {
      AllSame(v, OPERATION_SCHEMAS, quiet, s => "oneOf" !in Normalized(s));
    }
  }

  lemma QuietPathsExact(ok: Test, disc: Node, v: Node)
    ensures QuietPaths(ok, disc, v) <==> TagOk(ok, disc) || Untagged(v)
  {
    if v.VObj? {
      forall k | k in v.fields
        ensures QuietPath(ok, disc, k, v.fields[k]) <==>
                (TagOk(ok, disc) || !HasSuffix(k, "/sign/evm") ||
                 All(v.fields[k], OPERATION_SCHEMAS, s => "oneOf" !in Normalized(s)))
      {
        QuietPathExact(ok, disc, k, v.fields[k]);
      }
    }
  }

  const EVM_REQUESTS := ["EVMSignRawTxRequest", "EVMSignPersonalMessageRequest", "EVMSignEIP712Request"]

  function EvmRef(i: nat): string
    requires i < |EVM_REQUESTS|
  {
    SCHEMAS + (NEW_PREFIX + EVM_REQUESTS[i])
  }

  lemma TagOkExact(ok: Test)
    ensures TagOk(ok, DISCRIMINATOR) <==> ok(EvmRef(0)) && ok(EvmRef(1)) && ok(EvmRef(2))
  {
    var mapping := DISCRIMINATOR.fields["mapping"].fields;
    assert MappingOf(map["discriminator" := DISCRIMINATOR]) == mapping;
    TagStrings(ok, mapping);
    TagHoldsNoTag(ok);
  }

  lemma TagStrings(ok: Test, mapping: Fields)
    requires mapping == DISCRIMINATOR.fields["mapping"].fields
    ensures StringsOk(ok, mapping) <==> ok(EvmRef(0)) && ok(EvmRef(1)) && ok(EvmRef(2))
  {
    assert mapping["raw_tx"] == VStr(EvmRef(0)) && mapping["personal_message"] == VStr(EvmRef(1));
    assert mapping["eip712_digest"] == VStr(EvmRef(2));
    assert mapping.Keys == {"raw_tx", "personal_message", "eip712_digest"};
  }

  lemma TagHoldsNoTag(ok: Test)
    ensures MapsOk(ok, DISCRIMINATOR)
  {
    assert MapsOk(ok, DISCRIMINATOR.fields["mapping"]);
  }

  ghost predicate AllKnown(spec: Fields) {
    forall path, k, s :: Mapped(VObj(spec), path, k, s) ==> Known(Schemas(spec), s)
  }

  /** A reference known before is known after in its rewritten form. */
  lemma KnownMoves(spec: Fields, s: string)
    requires forall k :: k in Schemas(spec) ==> !HasPrefix(k, NEW_PREFIX)
    requires Known(Schemas(spec), s)
    ensures Known(Schemas(Normal(PREFIXES, DISCRIMINATOR, spec)), Moved(PREFIXES, s))
  {
    NormalizeSpecResolves(spec, s);
    RefParts(PREFIXES, s);
  }

  /** The schema of a request is in the document, under its old name or its new one. */
  predicate RequestThere(spec: Fields, i: nat)
    requires i < |EVM_REQUESTS|
  {
    OLD_PREFIX + EVM_REQUESTS[i] in Schemas(spec) || NEW_PREFIX + EVM_REQUESTS[i] in Schemas(spec)
  }

  lemma RequestKnown(spec: Fields, i: nat)
    requires i < |EVM_REQUESTS|
    ensures Known(Schemas(Normal(PREFIXES, DISCRIMINATOR, spec)), EvmRef(i)) <==> RequestThere(spec, i)
  {
    var key := NEW_PREFIX + EVM_REQUESTS[i];
    PrefixesApart();
    NormalSchemas(PREFIXES, DISCRIMINATOR, spec);
    PrefixAdded(SCHEMAS, key);
    PrefixAdded(NEW_PREFIX, EVM_REQUESTS[i]);
    RenamedLookup(PREFIXES, Schemas(spec), key);
    ApartNever(PREFIXES, key);
  }

  lemma PrefixesDistant()
    ensures Distant(PREFIXES)
  {
    OldPrefixParts();
    assert OLD_PREFIX[0] == 'g' && NEW_PREFIX[0] == 'k' && "discriminator"[0] == 'd';
  }

  predicate RequestsThere(spec: Fields) { RequestThere(spec, 0) && RequestThere(spec, 1) && RequestThere(spec, 2) }

  /**
   A document whose mappings resolve, with no key under the new prefix: after the processing its mappings resolve
   exactly if no EVM signing operation is tagged or the three request schemas are there.
   */
  lemma ProcessedKnown(spec: Fields)
    requires forall k :: k in Schemas(spec) ==> !HasPrefix(k, NEW_PREFIX)
    requires AllKnown(spec)
    ensures AllKnown(Normal(PREFIXES, DISCRIMINATOR, spec)) <==>
            ("paths" in spec ==> Untagged(spec["paths"])) || RequestsThere(spec)
  {
    var after := Normal(PREFIXES, DISCRIMINATOR, spec);
    var ok := s => Known(Schemas(after), s);
    var before := s => Known(Schemas(after), Moved(PREFIXES, s));
    MapsOkExact(ok, VObj(after));
    forall path, k, s | Mapped(VObj(spec), path, k, s) ensures before(s) { KnownMoves(spec, s); }
    MapsOkExact(before, VObj(spec));
    PrefixesApart();
    PrefixesDistant();
    NormalOk(PREFIXES, DISCRIMINATOR, ok, before, spec);
    if "paths" in spec { QuietPathsExact(ok, DISCRIMINATOR, spec["paths"]); }
    TagGood(spec, ok);
  }

  /** The tag resolves after the processing exactly if the three request schemas were there before it. */
  lemma TagGood(spec: Fields, ok: Test)
    requires forall s :: ok(s) <==> Known(Schemas(Normal(PREFIXES, DISCRIMINATOR, spec)), s)
    ensures TagOk(ok, DISCRIMINATOR) <==> RequestsThere(spec)
  {
    TagOkExact(ok);
    RequestKnown(spec, 0);
    RequestKnown(spec, 1);
    RequestKnown(spec, 2);
  }
}
