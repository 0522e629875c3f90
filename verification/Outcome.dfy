/** What the post-processed document holds, place by place, in terms of the document that went in. */
module Outcome {
  import opened Text
  import opened Amino
  import opened Tree
  import opened Refs
  import opened Mappings
  import opened SchemaUnion
  import opened OpenApi
  import opened Postprocess

  lemma RewrittenObject(p: Prefixes, v: Node)
    requires v.VObj?
    ensures RewrittenAt(p, v) == Rewritten(p, v) == VObj(RewrittenFields(p, v.fields))
  {
    assert VObj(v.fields) == v;
  }

  lemma RewrittenArray(p: Prefixes, v: Node)
    requires v.VArr?
    ensures RewrittenAt(p, v) == VArr(RewrittenItems(p, v.items)) && |RewrittenItems(p, v.items)| == |v.items|
    ensures forall i :: 0 <= i < |v.items| ==> RewrittenItems(p, v.items)[i] == Rewritten(p, v.items[i])
  {
    assert VArr(v.items) == v;
  }

  // ------------------------------------------------------------------ authentication

  /** The scheme `bearerauth` goes by the name `BearerAuth`, with what it held; everything else is as it was. */
  ghost predicate SchemeRenamed(m: Fields, r: Fields) {
    && "bearerauth" !in r
    && ("bearerauth" in m ==> "BearerAuth" in r && r["BearerAuth"] == m["bearerauth"])
    && ("bearerauth" !in m ==> r == m)
    && forall k :: k != "bearerauth" && k != "BearerAuth" ==> (k in r <==> k in m) && (k in m ==> r[k] == m[k])
  }

  lemma CapitalisedExact(m: Fields)
    ensures SchemeRenamed(m, Capitalised(m))
  {}

  function SchemeAfter(name: string): string { if name == "bearerauth" then "BearerAuth" else name }

  /** No name is lost, and each leads to what it led to unless `bearerauth` is put over a different `BearerAuth`. */
  lemma SchemeResolves(m: Fields, r: Fields, name: string)
    requires SchemeRenamed(m, r) && name in m
    ensures SchemeAfter(name) in r
    ensures r[SchemeAfter(name)] == m[name] <==>
            (name == "BearerAuth" && "bearerauth" in m ==> m["bearerauth"] == m["BearerAuth"])
  {}

  ghost predicate HasSchemes(spec: Fields) {
    "components" in spec && HasObject(spec["components"], "securitySchemes")
  }

  ghost function Schemes(spec: Fields): Fields
    requires HasSchemes(spec)
  {
    spec["components"].fields["securitySchemes"].fields
  }

  /** The scheme table of the result. */
  lemma SchemesAfter(p: Prefixes, disc: Node, spec: Fields)
    requires HasSchemes(spec)
    ensures var after := Normal(p, disc, spec);
            HasSchemes(after) && SchemeRenamed(RewrittenFields(p, Schemes(spec)), Schemes(after))
  {
    var c := spec["components"];
    NormalMember(p, disc, spec, "components");
    var rename := m => RenameKeys(p, m);
    assert [Key("schemas")] == [Key("schemas")] + [] && [Key("securitySchemes")] == [Key("securitySchemes")] + [];
    EditDown(c, "schemas", [], rename);
    var renamed := Edit(c, [Key("schemas")], rename);
    assert renamed.fields["securitySchemes"] == c.fields["securitySchemes"];
    var rewritten := RewrittenAt(p, renamed);
    RewrittenObject(p, renamed);
    RewrittenObject(p, c.fields["securitySchemes"]);
    assert rewritten.fields["securitySchemes"] == VObj(RewrittenFields(p, Schemes(spec)));
    EditDown(rewritten, "securitySchemes", [], Capitalised);
    CapitalisedExact(RewrittenFields(p, Schemes(spec)));
  }

  // ------------------------------------------------------------------ operations

  predicate HasOperation(spec: Fields, path: string, op: string) {
    && "paths" in spec && spec["paths"].VObj? && path in spec["paths"].fields
    && HasObject(spec["paths"].fields[path], op)
  }

  function Operation(spec: Fields, path: string, op: string): Fields
    requires HasOperation(spec, path, op)
  {
    spec["paths"].fields[path].fields[op].fields
  }

  lemma OperationAfter(p: Prefixes, disc: Node, spec: Fields, path: string, op: string)
    requires HasOperation(spec, path, op)
    ensures var after, evm := Normal(p, disc, spec), HasSuffix(path, "/sign/evm");
            && HasOperation(after, path, op)
            && Operation(after, path, op) == FixedOperation(disc, evm, RewrittenFields(p, Operation(spec, path, op)))
  {
    var v := spec["paths"];
    NormalMember(p, disc, spec, "paths");
    var rewritten := RewrittenAt(p, v);
    var item := v.fields[path];
    RewrittenObject(p, v);
    RewrittenObject(p, item);
    RewrittenObject(p, item.fields[op]);
    assert rewritten.fields[path] == VObj(RewrittenFields(p, item.fields));
    assert [Every][1..] == [];
  }

  /** A requirement of an operation in the result. */
  ghost predicate RequirementRenamed(p: Prefixes, before: Node, after: Node) {
    if before.VObj? then after.VObj? && SchemeRenamed(RewrittenFields(p, before.fields), after.fields)
    else after == Rewritten(p, before)
  }

  lemma AnonymousRewritten(p: Prefixes, items: seq<Node>)
    ensures Anonymous(RewrittenItems(p, items)) <==> Anonymous(items)
  {
    RewrittenArray(p, VArr(items));
    if |items| == 1 && items[0].VObj? && "" in items[0].fields {
      var scopes := items[0].fields[""];
      RewrittenObject(p, items[0]);
      if scopes.VArr? { RewrittenArray(p, scopes); }
    }
  }

  /**
   The requirements of every operation: none if the single one there was had an empty name and no scopes; otherwise
   each in its place with the scheme renamed.
   */
  lemma SecurityAfter(p: Prefixes, disc: Node, spec: Fields, path: string, op: string)
    requires HasOperation(spec, path, op) && "security" in Operation(spec, path, op)
    requires Operation(spec, path, op)["security"].VArr?
    ensures var after := Normal(p, disc, spec);
            && HasOperation(after, path, op) && "security" in Operation(after, path, op)
            && Operation(after, path, op)["security"].VArr?
            && var items := Operation(spec, path, op)["security"].items;
               var items' := Operation(after, path, op)["security"].items;
               if Anonymous(items) then items' == []
               else |items'| == |items| && forall i :: 0 <= i < |items| ==> RequirementRenamed(p, items[i], items'[i])
  {
    var o := Operation(spec, path, op);
    OperationAfter(p, disc, spec, path, op);
    FixedSecurityStays(disc, HasSuffix(path, "/sign/evm"), RewrittenFields(p, o));
    RequirementsFixed(p, o["security"].items);
  }

  lemma FixedSecurityStays(disc: Node, evm: bool, op: Fields)
    requires "security" in op
    ensures "security" in FixedOperation(disc, evm, op)
    ensures FixedOperation(disc, evm, op)["security"] == FixedRequirements(op["security"])
  {
    OperationParts(disc, evm, op);
    var stage := s => FixedSchema(disc, evm, s);
    var rest := [Key("content"), Every, Key("schema")];
    assert BODY_SCHEMAS == [Key("requestBody")] + rest;
    EditTop(FixedSecurity(op), "requestBody", rest, stage, "security");
  }

  lemma RequirementsFixed(p: Prefixes, items: seq<Node>)
    ensures var v := FixedRequirements(RewrittenAt(p, VArr(items)));
            && v.VArr?
            && if Anonymous(items) then v.items == []
               else |v.items| == |items| && forall i :: 0 <= i < |items| ==> RequirementRenamed(p, items[i], v.items[i])
  {
    RewrittenArray(p, VArr(items));
    AnonymousRewritten(p, items);
    assert [Each][1..] == [];
    forall i | 0 <= i < |items| && items[i].VObj?
      ensures RequirementRenamed(p, items[i], Edit(Rewritten(p, items[i]), [], Capitalised))
    {
      RewrittenObject(p, items[i]);
      CapitalisedExact(RewrittenFields(p, items[i].fields));
    }
  }

  predicate Requires(op: Fields, i: nat, name: string) {
    && "security" in op && op["security"].VArr? && i < |op["security"].items|
    && op["security"].items[i].VObj? && name in op["security"].items[i].fields
  }

  /** A requirement that names a scheme of the document still does, and the scheme is the one it named. */
  lemma RequirementsResolve(p: Prefixes, disc: Node, spec: Fields, path: string, op: string, i: nat, name: string)
    requires HasOperation(spec, path, op) && Requires(Operation(spec, path, op), i, name)
    requires !Anonymous(Operation(spec, path, op)["security"].items) && HasSchemes(spec) && name in Schemes(spec)
    ensures var after := Normal(p, disc, spec);
            && HasOperation(after, path, op) && Requires(Operation(after, path, op), i, SchemeAfter(name))
            && HasSchemes(after) && SchemeAfter(name) in Schemes(after)
            && (Schemes(after)[SchemeAfter(name)] == RewrittenAt(p, Schemes(spec)[name]) <==>
                  (name == "BearerAuth" && "bearerauth" in Schemes(spec) ==>
                     RewrittenAt(p, Schemes(spec)["bearerauth"]) == RewrittenAt(p, Schemes(spec)["BearerAuth"])))
  {
    var after := Normal(p, disc, spec);
    SchemesAfter(p, disc, spec);
    SchemeResolves(RewrittenFields(p, Schemes(spec)), Schemes(after), name);
    SecurityAfter(p, disc, spec, path, op);
    var items, items' := Operation(spec, path, op)["security"].items, Operation(after, path, op)["security"].items;
    assert RequirementRenamed(p, items[i], items'[i]);
    SchemeResolves(RewrittenFields(p, items[i].fields), items'[i].fields, name);
  }

  // ------------------------------------------------------------------ request bodies

  predicate HasSchema(op: Fields, media: string) {
    && HasContent(op) && media in op["requestBody"].fields["content"].fields
    && HasObject(op["requestBody"].fields["content"].fields[media], "schema")
  }

  function Schema(op: Fields, media: string): Fields
    requires HasSchema(op, media)
  {
    op["requestBody"].fields["content"].fields[media].fields["schema"].fields
  }

  lemma SchemaEdited(op: Fields, media: string, f: Fields -> Fields)
    requires HasSchema(op, media)
    ensures HasSchema(AtSchemas(op, f), media) && Schema(AtSchemas(op, f), media) == f(Schema(op, media))
  {
    AtContent(op, f);
    var content := op["requestBody"].fields["content"];
    assert MEDIA_SCHEMAS[1..] == [Key("schema")] == [Key("schema")] + [];
    EditDown(content.fields[media], "schema", [], f);
    var edited := Edit(content, MEDIA_SCHEMAS, f);
    assert edited.fields[media] == Edit(content.fields[media], [Key("schema")], f);
  }

  /** The schema of every media type is normalised, and tagged where the path signs for EVM. */
  lemma SchemaAfter(disc: Node, evm: bool, op: Fields, media: string)
    requires HasSchema(op, media)
    ensures var r := FixedOperation(disc, evm, op);
            HasSchema(r, media) && Schema(r, media) == FixedSchema(disc, evm, Schema(op, media))
  {
    OperationParts(disc, evm, op);
    SchemaEdited(FixedSecurity(op), media, s => FixedSchema(disc, evm, s));
  }

  /** What a schema offers: the branches of its union, or itself. */
  function Offers(schema: Fields): seq<Node> {
    if HasBranches(schema) then Branches(schema) else [VObj(schema)]
  }

  /** A normalised union offers the branches that are not bare, in order; none leaves the rest of the schema. */
  lemma UnionOffers(schema: Fields)
    requires HasBranches(schema)
    ensures var kept := Kept(Branches(schema));
            && (|kept| == 1 && kept[0].VObj? && HasBranches(kept[0].fields) ==> Normalized(schema) == kept[0].fields)
            && (kept != [] && !(|kept| == 1 && kept[0].VObj? && HasBranches(kept[0].fields)) ==>
                  Offers(Normalized(schema)) == kept)
            && (kept == [] ==> "oneOf" !in Normalized(schema))
            && (!(|kept| == 1 && kept[0].VObj?) ==>
                  Normalized(schema) - {"oneOf"} == schema - {"oneOf"})
  {}

  /** The branches that stay are those that are not bare, each as often as before and in the same order. */
  lemma {:induction false} KeptInOrder(items: seq<Node>) returns (at: seq<nat>)
    ensures |at| == |Kept(items)|
    ensures forall j :: 0 <= j < |at| ==> at[j] < |items| && Kept(items)[j] == items[at[j]]
    ensures forall i, j :: 0 <= i < j < |at| ==> at[i] < at[j]
    ensures forall i :: 0 <= i < |items| ==> (i in at <==> items[i] != VObj(map["type" := VStr("object")]))
  {
    if items == [] {
      at := [];
    } else {
      var last := items[|items| - 1];
      var before := items[..|items| - 1];
      at := KeptInOrder(before);
      assert items == before + [last];
      KeptSnoc(before, last);
      BareExact(last);
      if !BareObject(last) { at := at + [|before|]; }
    }
  }

  lemma BareExact(item: Node)
    ensures BareObject(item) <==> item == VObj(map["type" := VStr("object")])
  {
    if BareObject(item) {
      forall k | k in item.fields ensures k == "type" {
        assert item.fields.Keys == {"type"} + (item.fields.Keys - {"type"});
        assert |item.fields.Keys - {"type"}| == 0;
      }
    }
  }

  // ------------------------------------------------------------------ the tag

  /** The request types and the names of their schemas. */
  const EVM_TYPES: map<string, string> := map[
    "raw_tx" := "EVMSignRawTxRequest",
    "personal_message" := "EVMSignPersonalMessageRequest",
    "eip712_digest" := "EVMSignEIP712Request"]

  /** Each request type leads, through the tag, to the schema that was there for it under the old prefix. */
  lemma TagLeads(spec: Fields, kind: string)
    requires kind in EVM_TYPES && OLD_PREFIX + EVM_TYPES[kind] in Schemas(spec)
    ensures var mapping := MappingOf(map["discriminator" := DISCRIMINATOR]);
            && mapping.Keys == EVM_TYPES.Keys && mapping[kind].VStr?
            && Resolve(Normal(PREFIXES, DISCRIMINATOR, spec), mapping[kind].text) ==
               Some(RewrittenAt(PREFIXES, Schemas(spec)[OLD_PREFIX + EVM_TYPES[kind]]))
            && mapping[kind].text == "#/components/schemas/" + ("kms-wrapper_pkg_types." + EVM_TYPES[kind])
    ensures DISCRIMINATOR.fields["propertyName"] == VStr("type")
  {
    TagIs(kind);
    var name := EVM_TYPES[kind];
    var key := NEW_PREFIX + name;
    PrefixesApart();
    NormalSchemas(PREFIXES, DISCRIMINATOR, spec);
    PrefixAdded(SCHEMAS, key);
    PrefixAdded(NEW_PREFIX, name);
    RenamedLookup(PREFIXES, Schemas(spec), key);
    ApartNever(PREFIXES, key);
  }

  lemma TagIs(kind: string)
    requires kind in EVM_TYPES
    ensures var mapping := MappingOf(map["discriminator" := DISCRIMINATOR]);
            && mapping.Keys == EVM_TYPES.Keys
            && mapping[kind] == VStr(SCHEMAS + (NEW_PREFIX + EVM_TYPES[kind]))
  {
    var mapping := DISCRIMINATOR.fields["mapping"].fields;
    assert MappingOf(map["discriminator" := DISCRIMINATOR]) == mapping;
    assert mapping.Keys == {"raw_tx", "personal_message", "eip712_digest"};
  }

  // ------------------------------------------------------------------ servers and the rest

  /** The texts around a URL that is not rewritten: "http://" goes in front of one with neither scheme nor slash. */
  function UrlAfter(p: Prefixes, url: string): string {
    if url != "" && !(exists i :: 0 <= i < |url| && SchemeAt(url, i)) && url[0] != '/' then "http://" + url
    else Moved(p, url)
  }

  lemma UrlMoved(p: Prefixes, url: string)
    ensures Moved(p, "http://" + url) == "http://" + url
    ensures (url == "" || url[0] != '#') ==> Moved(p, url) == url
  {
    assert ("http://" + url)[0] == 'h' && OldRef(p)[0] == '#';
  }

  predicate ServerFixed(p: Prefixes, before: Node, after: Node) {
    if !before.VObj? then after == Rewritten(p, before)
    else
      && after.VObj? && after.fields.Keys == before.fields.Keys
      && (forall k :: k in before.fields && k != "url" ==> after.fields[k] == RewrittenAt(p, before.fields[k]))
      && ("url" in before.fields ==>
            after.fields["url"] == if before.fields["url"].VStr? then VStr(UrlAfter(p, before.fields["url"].text))
                                   else RewrittenAt(p, before.fields["url"]))
  }

  lemma ServerRewritten(p: Prefixes, item: Node)
    ensures ServerFixed(p, item, Rewritten(p, Edit(item, [], FixedServer)))
  {
    if item.VObj? {
      RewrittenObject(p, VObj(FixedServer(item.fields)));
      if "url" in item.fields && item.fields["url"].VStr? { UrlMoved(p, item.fields["url"].text); }
    }
  }

  /** Each server in its place, its URL completed; its other members, and whatever is no object, only rewritten. */
  lemma ServersAfter(p: Prefixes, disc: Node, spec: Fields, i: nat)
    requires "servers" in spec && spec["servers"].VArr? && i < |spec["servers"].items|
    ensures var after := Normal(p, disc, spec);
            && "servers" in after && after["servers"].VArr? && |after["servers"].items| == |spec["servers"].items|
            && ServerFixed(p, spec["servers"].items[i], after["servers"].items[i])
  {
    NormalMember(p, disc, spec, "servers");
    assert [Each][1..] == [];
    var fixed := Edit(spec["servers"], [Each], FixedServer);
    assert fixed.items[i] == Edit(spec["servers"].items[i], [], FixedServer);
    RewrittenArray(p, fixed);
    ServerRewritten(p, spec["servers"].items[i]);
  }

  /** The version is set, and every other top-level member is only rewritten. */
  lemma RestAfter(p: Prefixes, disc: Node, spec: Fields, key: string)
    ensures var after := Normal(p, disc, spec);
            && "openapi" in after && after["openapi"] == VStr("3.0.3")
            && (key !in {"openapi", "servers", "components", "paths"} ==>
                  (key in after <==> key in spec) && (key in spec ==> after[key] == RewrittenAt(p, spec[key])))
  {
    NormalMember(p, disc, spec, "openapi");
    NormalMember(p, disc, spec, key);
    assert "3.0.3"[0] == '3' && OldRef(p)[0] == '#';
  }
}
