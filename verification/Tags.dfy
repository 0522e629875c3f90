/** What the tag on EVM sign operations contributes to the check of discriminator mappings, for every document. */
module Tags {
  import opened Text
  import opened Amino
  import opened Tree
  import opened Refs
  import opened Mappings
  import opened SchemaUnion
  import opened OpenApi
  import opened Validity

  /** A tag that maps nothing. */
  const NO_TAG: Node := VObj(map[])

  // ------------------------------------------------------------------ two edits along one route

  /** `f` leaves good mappings exactly where `g` does and the object is `fine`. */
  ghost predicate Splits(ok: Test, f: Fields -> Fields, g: Fields -> Fields, fine: Fields -> bool) {
    forall m: Fields :: MapsOk(ok, VObj(f(m))) <==> MapsOk(ok, VObj(g(m))) && fine(m)
  }

  lemma {:induction false} EditSplits(
    ok: Test, v: Node, route: seq<Hop>, f: Fields -> Fields, g: Fields -> Fields, fine: Fields -> bool)
    requires Safe(route) && Splits(ok, f, g, fine)
    ensures MapsOk(ok, Edit(v, route, f)) <==> MapsOk(ok, Edit(v, route, g)) && All(v, route, fine)
    decreases |route|, 1
  {
    if route != [] {
      match route[0]
      case Key(k) => EditKeySplits(ok, v, k, route, f, g, fine);
      case Every => EditEverySplits(ok, v, route, f, g, fine);
      case Each => EditEachSplits(ok, v, route, f, g, fine);
    }
  }

  lemma {:induction false} EditKeySplits(
    ok: Test, v: Node, k: string, route: seq<Hop>, f: Fields -> Fields, g: Fields -> Fields, fine: Fields -> bool)
    requires Safe(route) && Splits(ok, f, g, fine) && route != [] && route[0] == Key(k)
    ensures MapsOk(ok, Edit(v, route, f)) <==> MapsOk(ok, Edit(v, route, g)) && All(v, route, fine)
    decreases |route|, 0
  {
    if v.VObj? && k in v.fields {
      EditSplits(ok, v.fields[k], route[1..], f, g, fine);
      MapsOkMember(ok, v.fields, k, Edit(v.fields[k], route[1..], f));
      MapsOkMember(ok, v.fields, k, Edit(v.fields[k], route[1..], g));
    }
  }

  /** A member that is put in place of another. */
  lemma MapsOkMember(ok: Test, m: Fields, k: string, child: Node)
    requires k != "discriminator" && k in m
    ensures MapsOk(ok, VObj(m[k := child])) <==>
            StringsOk(ok, MappingOf(m)) && MapsOk(ok, child) && forall n :: n in m && n != k ==> MapsOk(ok, m[n])
  {
    MappingKeyEdited(m, k, child);
    var r := m[k := child];
    assert r[k] == child && forall n :: n in m && n != k ==> n in r && r[n] == m[n];
  }

  lemma {:induction false} EditEverySplits(
    ok: Test, v: Node, route: seq<Hop>, f: Fields -> Fields, g: Fields -> Fields, fine: Fields -> bool)
    requires Safe(route) && Splits(ok, f, g, fine) && route != [] && route[0].Every?
    ensures MapsOk(ok, Edit(v, route, f)) <==> MapsOk(ok, Edit(v, route, g)) && All(v, route, fine)
    decreases |route|, 0
  {
    if v.VObj? {
      forall k | k in v.fields
        ensures MapsOk(ok, Edit(v.fields[k], route[1..], f)) <==>
                MapsOk(ok, Edit(v.fields[k], route[1..], g)) && All(v.fields[k], route[1..], fine)
      {
        EditSplits(ok, v.fields[k], route[1..], f, g, fine);
      }
      MapsOkEvery(ok, v, route, f);
      MapsOkEvery(ok, v, route, g);
    }
  }

  lemma MapsOkEvery(ok: Test, v: Node, route: seq<Hop>, f: Fields -> Fields)
    requires v.VObj? && Safe(route) && route != [] && route[0].Every?
    ensures MapsOk(ok, Edit(v, route, f)) <==>
            && StringsOk(ok, MappingOf(v.fields))
            && forall k :: k in v.fields ==> MapsOk(ok, Edit(v.fields[k], route[1..], f))
  {
    MappingEveryEdited(v, route, f);
    var r := Edit(v, route, f).fields;
    assert r.Keys == v.fields.Keys && forall k :: k in r ==> r[k] == Edit(v.fields[k], route[1..], f);
  }

  lemma {:induction false} EditEachSplits(
    ok: Test, v: Node, route: seq<Hop>, f: Fields -> Fields, g: Fields -> Fields, fine: Fields -> bool)
    requires Safe(route) && Splits(ok, f, g, fine) && route != [] && route[0].Each?
    ensures MapsOk(ok, Edit(v, route, f)) <==> MapsOk(ok, Edit(v, route, g)) && All(v, route, fine)
    decreases |route|, 0
  {
    if v.VArr? {
      forall i | 0 <= i < |v.items|
        ensures MapsOk(ok, Edit(v.items[i], route[1..], f)) <==>
                MapsOk(ok, Edit(v.items[i], route[1..], g)) && All(v.items[i], route[1..], fine)
      {
        EditSplits(ok, v.items[i], route[1..], f, g, fine);
      }
      MapsOkEach(ok, v, route, f);
      MapsOkEach(ok, v, route, g);
    }
  }

  lemma MapsOkEach(ok: Test, v: Node, route: seq<Hop>, f: Fields -> Fields)
    requires v.VArr? && route != [] && route[0].Each?
    ensures MapsOk(ok, Edit(v, route, f)) <==>
            forall i :: 0 <= i < |v.items| ==> MapsOk(ok, Edit(v.items[i], route[1..], f))
  {
    var r := Edit(v, route, f).items;
    assert |r| == |v.items| && forall i :: 0 <= i < |r| ==> r[i] == Edit(v.items[i], route[1..], f);
  }

  // ------------------------------------------------------------------ schemas, operations, paths

  lemma TagSplits(ok: Test, disc: Node, schema: Fields)
    ensures MapsOk(ok, VObj(schema["discriminator" := disc])) <==>
            MapsOk(ok, VObj(schema["discriminator" := NO_TAG])) && TagOk(ok, disc)
  {
    var tag: Fields := map["discriminator" := disc];
    var a, b := schema["discriminator" := disc], schema["discriminator" := NO_TAG];
    assert MappingOf(a) == MappingOf(tag) && MappingOf(b) == map[];
    assert tag["discriminator"] == disc && a["discriminator"] == disc && b["discriminator"] == NO_TAG;
    assert forall k :: k in schema && k != "discriminator" ==> a[k] == schema[k] && b[k] == schema[k];
  }

  lemma FixedSchemaSplits(ok: Test, disc: Node, evm: bool, schema: Fields)
    ensures MapsOk(ok, VObj(FixedSchema(disc, evm, schema))) <==>
            MapsOk(ok, VObj(FixedSchema(NO_TAG, evm, schema))) && Quiet(ok, disc, evm, schema)
  {
    TagSplits(ok, disc, Normalized(schema));
  }

  lemma OperationSplits(ok: Test, disc: Node, evm: bool, op: Fields)
    ensures MapsOk(ok, VObj(FixedOperation(disc, evm, op))) <==>
            MapsOk(ok, VObj(FixedOperation(NO_TAG, evm, op))) && QuietOperation(ok, disc, evm, op)
  {
    var f, g := s => FixedSchema(disc, evm, s), s => FixedSchema(NO_TAG, evm, s);
    var quiet := s => Quiet(ok, disc, evm, s);
    OperationParts(disc, evm, op);
    OperationParts(NO_TAG, evm, op);
    BodyRouteSafe();
    forall m: Fields ensures MapsOk(ok, VObj(f(m))) <==> MapsOk(ok, VObj(g(m))) && quiet(m) {
      FixedSchemaSplits(ok, disc, evm, m);
    }
    EditSplits(ok, VObj(FixedSecurity(op)), BODY_SCHEMAS, f, g, quiet);
    SecurityKeepsSchemas(op, quiet);
  }

  lemma PathItemGood(ok: Test, disc: Node, evm: bool, item: Fields)
    ensures MapsOk(ok, Edit(VObj(item), [Every], OperationStage(disc, evm))) <==>
            && StringsOk(ok, MappingOf(item))
            && forall k :: k in item ==> MapsOk(ok, Edit(item[k], [], OperationStage(disc, evm)))
  {
    var f := OperationStage(disc, evm);
    assert [Every][1..] == [];
    PathMappingKept(disc, evm, item);
    var r := Edit(VObj(item), [Every], f).fields;
    assert r.Keys == item.Keys && forall k :: k in r ==> r[k] == Edit(item[k], [], f);
  }

  lemma PathItemSplits(ok: Test, disc: Node, evm: bool, v: Node)
    ensures MapsOk(ok, Edit(v, [Every], OperationStage(disc, evm))) <==>
            && MapsOk(ok, Edit(v, [Every], OperationStage(NO_TAG, evm)))
            && All(v, [Every], op => QuietOperation(ok, disc, evm, op))
  {
    var f, g := OperationStage(disc, evm), OperationStage(NO_TAG, evm);
    var quiet := op => QuietOperation(ok, disc, evm, op);
    assert [Every][1..] == [];
    if v.VObj? {
      forall k | k in v.fields
        ensures MapsOk(ok, Edit(v.fields[k], [], f)) <==>
                MapsOk(ok, Edit(v.fields[k], [], g)) && All(v.fields[k], [], quiet)
      {
        if v.fields[k].VObj? { OperationSplits(ok, disc, evm, v.fields[k].fields); }
      }
      PathItemGood(ok, disc, evm, v.fields);
      PathItemGood(ok, NO_TAG, evm, v.fields);
      assert VObj(v.fields) == v;
    }
  }

  /** The member `discriminator` is no sign operation, so no tag gets into the mapping that it holds. */
  lemma PathsMappingSame(disc: Node, paths: Fields)
    ensures MappingOf(FixedPaths(disc, paths)) == MappingOf(FixedPaths(NO_TAG, paths))
  {
    if "discriminator" in paths {
      var f, g := OperationStage(disc, false), OperationStage(NO_TAG, false);
      assert !HasSuffix("discriminator", "/sign/evm");
      assert [Every][1..] == [];
      assert Edit(paths["discriminator"], [Every], f) == Edit(paths["discriminator"], [Every], g);
    }
  }

  /** Two objects with the same names and the same mapping. */
  lemma MembersSplit(ok: Test, a: Fields, b: Fields, good: string -> bool)
    requires a.Keys == b.Keys && MappingOf(a) == MappingOf(b)
    requires forall k :: k in a ==> (MapsOk(ok, a[k]) <==> MapsOk(ok, b[k]) && good(k))
    ensures MapsOk(ok, VObj(a)) <==> MapsOk(ok, VObj(b)) && forall k :: k in a ==> good(k)
  {}

  lemma PathSplits(ok: Test, disc: Node, paths: Fields, k: string)
    requires k in paths
    ensures MapsOk(ok, FixedPaths(disc, paths)[k]) <==>
            MapsOk(ok, FixedPaths(NO_TAG, paths)[k]) && QuietPath(ok, disc, k, paths[k])
  {
    PathItemSplits(ok, disc, HasSuffix(k, "/sign/evm"), paths[k]);
  }

  function IsQuiet(ok: Test, disc: Node, paths: Fields): string -> bool {
    k => k in paths ==> QuietPath(ok, disc, k, paths[k])
  }

  lemma PathsSplit(ok: Test, disc: Node, paths: Fields)
    ensures MapsOk(ok, VObj(FixedPaths(disc, paths))) <==>
            MapsOk(ok, VObj(FixedPaths(NO_TAG, paths))) && QuietPaths(ok, disc, VObj(paths))
  {
    var a, b, quiet := FixedPaths(disc, paths), FixedPaths(NO_TAG, paths), IsQuiet(ok, disc, paths);
    assert a.Keys == paths.Keys == b.Keys;
    PathsMappingSame(disc, paths);
    forall k | k in a ensures MapsOk(ok, a[k]) <==> MapsOk(ok, b[k]) && quiet(k) { PathSplits(ok, disc, paths, k); }
    MembersSplit(ok, a, b, quiet);
  }

  // ------------------------------------------------------------------ the whole document

  lemma PathsMemberSplits(p: Prefixes, disc: Node, ok: Test, v: Node)
    ensures MapsOk(ok, MemberOf(p, disc, "paths", v)) <==>
            MapsOk(ok, MemberOf(p, NO_TAG, "paths", v)) && QuietPaths(ok, disc, v)
  {
    if v.VObj? {
      var u := RewrittenFields(p, v.fields);
      assert RewrittenAt(p, v) == VObj(u);
      PathsSplit(ok, disc, u);
      forall k | k in v.fields ensures QuietPath(ok, disc, k, u[k]) <==> QuietPath(ok, disc, k, v.fields[k]) {
        QuietPathRewritten(p, ok, disc, k, v.fields[k]);
      }
    }
  }

  lemma MemberSplits(p: Prefixes, disc: Node, ok: Test, spec: Fields, k: string)
    ensures var a, b := Normal(p, disc, spec), Normal(p, NO_TAG, spec);
            && (k in a <==> k in b) && (k in a <==> k in spec || k == "openapi")
            && (k in a && k != "paths" ==> a[k] == b[k])
            && (k in a && k == "paths" ==>
                  (MapsOk(ok, a[k]) <==> MapsOk(ok, b[k]) && QuietPaths(ok, disc, spec[k])))
  {
    NormalMember(p, disc, spec, k);
    NormalMember(p, NO_TAG, spec, k);
    if k == "paths" && k in spec { PathsMemberSplits(p, disc, ok, spec[k]); }
  }

  /**
   For any test of references and any document: the mappings of the processed document pass exactly if those of the
   document processed with an empty tag do, and every schema that is tagged gets a tag that passes.
   */
  lemma NormalSplits(p: Prefixes, disc: Node, ok: Test, spec: Fields)
    ensures MapsOk(ok, VObj(Normal(p, disc, spec))) <==>
            && MapsOk(ok, VObj(Normal(p, NO_TAG, spec)))
            && ("paths" in spec ==> QuietPaths(ok, disc, spec["paths"]))
  {
    var a, b := Normal(p, disc, spec), Normal(p, NO_TAG, spec);
    var good := k => k == "paths" && k in spec ==> QuietPaths(ok, disc, spec[k]);
    forall k ensures k in a <==> k in b { MemberSplits(p, disc, ok, spec, k); }
    forall k | k in a ensures MapsOk(ok, a[k]) <==> MapsOk(ok, b[k]) && good(k) { MemberSplits(p, disc, ok, spec, k); }
    assert a.Keys == b.Keys;
    MemberSplits(p, disc, ok, spec, "discriminator");
    MemberSplits(p, disc, ok, spec, "paths");
    MembersSplit(ok, a, b, good);
    assert (forall k :: k in a ==> good(k)) <==> good("paths");
  }

  /**
   Every document: after the processing its mappings resolve exactly if they resolve when nothing is tagged, and no EVM
   signing operation is tagged or the three request schemas are in the document.
   */
  lemma ProcessedExact(spec: Fields)
    ensures AllKnown(Normal(PREFIXES, DISCRIMINATOR, spec)) <==>
            && AllKnown(Normal(PREFIXES, NO_TAG, spec))
            && (("paths" in spec ==> Untagged(spec["paths"])) || RequestsThere(spec))
  {
    var after, plain := Normal(PREFIXES, DISCRIMINATOR, spec), Normal(PREFIXES, NO_TAG, spec);
    var ok := s => Known(Schemas(after), s);
    NormalSchemas(PREFIXES, DISCRIMINATOR, spec);
    NormalSchemas(PREFIXES, NO_TAG, spec);
    MapsOkExact(ok, VObj(after));
    MapsOkExact(ok, VObj(plain));
    NormalSplits(PREFIXES, DISCRIMINATOR, ok, spec);
    if "paths" in spec { QuietPathsExact(ok, DISCRIMINATOR, spec["paths"]); }
    TagGood(spec, ok);
  }
}
