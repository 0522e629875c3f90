/** The post-processing as a program: loops over arrays and maps, members in any order. */
module Postprocess {
  import opened Text
  import opened Amino
  import opened Tree
  import opened Refs
  import opened Mappings
  import opened SchemaUnion
  import opened OpenApi
  import opened Validity
  import opened Tags

  lemma EditDown(v: Node, k: string, rest: seq<Hop>, f: Fields -> Fields)
    ensures Edit(v, [Key(k)] + rest, f) ==
            if v.VObj? && k in v.fields then VObj(v.fields[k := Edit(v.fields[k], rest, f)]) else v
  {
    assert ([Key(k)] + rest)[1..] == rest;
  }

  method NormalizeServers(spec: Fields) returns (r: Fields)
    ensures VObj(r) == Edit(VObj(spec), [Key("servers"), Each], FixedServer)
  {
    r := spec;
    assert [Key("servers"), Each] == [Key("servers")] + [Each] && [Each][1..] == [];
    EditDown(VObj(spec), "servers", [Each], FixedServer);
    if "servers" !in spec { return; }
    var serversAny := spec["servers"];
    if !serversAny.VArr? {
      assert spec["servers" := serversAny] == spec;
      return;
    }
    var servers := serversAny.items;
    var done: seq<Node> := [];
    for i := 0 to |servers|
      invariant |done| == i
      invariant forall j :: 0 <= j < i ==> done[j] == Edit(servers[j], [], FixedServer)
    {
      var item := servers[i];
      if item.VObj? {
        var server := item.fields;
        var url := if "url" in server && server["url"].VStr? then server["url"].text else "";
        if !(url == "" || HasScheme(url) || HasPrefix(url, "/")) {
          server := server["url" := VStr("http://" + url)];
        }
        item := VObj(server);
      }
      done := done + [item];
    }
    assert VArr(done) == Edit(serversAny, [Each], FixedServer);
    r := r["servers" := VArr(done)];
  }

  method RenameSchemaPrefix(p: Prefixes, spec: Fields) returns (r: Fields)
    requires Apart(p)
    ensures r == Rename(p, spec)
  {
    var s := spec;
    assert SCHEMA_TABLE == [Key("components")] + [Key("schemas")];
    ghost var f := m => RenameKeys(p, m);
    EditDown(VObj(spec), "components", [Key("schemas")], f);
    if "components" in spec {
      ghost var c := spec["components"];
      EditKey(c, "schemas", f);
      assert spec["components" := c] == spec;
      if HasObject(spec["components"], "schemas") {
        var schemas := RenameSchemaKeys(p, spec["components"].fields["schemas"].fields);
        s := s["components" := VObj(spec["components"].fields["schemas" := VObj(schemas)])];
      }
    }
    assert VObj(s) == Edit(VObj(spec), SCHEMA_TABLE, f);
    var node := RewriteRefs(p, VObj(s));
    r := node.fields;
  }

  method NormalizeSecurity(op: Fields) returns (r: Fields)
    ensures r == FixedSecurity(op)
  {
    r := op;
    if "security" !in op { return; }
    if !op["security"].VArr? {
      assert op["security" := op["security"]] == op;
      return;
    }
    var security := op["security"].items;
    if |security| == 1 && security[0].VObj? && "" in security[0].fields {
      var scopes := security[0].fields[""];
      if scopes.VArr? && |scopes.items| == 0 {
        r := r["security" := VArr([])];
        return;
      }
    }
    assert [Each][1..] == [];
    var done: seq<Node> := [];
    for i := 0 to |security|
      invariant |done| == i
      invariant forall j :: 0 <= j < i ==> done[j] == Edit(security[j], [], Capitalised)
    {
      var item := security[i];
      if item.VObj? && "bearerauth" in item.fields {
        item := VObj(item.fields["BearerAuth" := item.fields["bearerauth"]] - {"bearerauth"});
      }
      done := done + [item];
    }
    assert VArr(done) == Edit(op["security"], [Each], Capitalised);
    r := r["security" := VArr(done)];
  }

  const MEDIA_SCHEMAS := [Every, Key("schema")]

  method NormalizeContent(content: Fields) returns (r: Fields)
    ensures VObj(r) == Edit(VObj(content), MEDIA_SCHEMAS, Normalized)
  {
    r := content;
    assert MEDIA_SCHEMAS[1..] == [Key("schema")];
    var todo := content.Keys;
    while todo != {}
      invariant todo <= content.Keys == r.Keys
      invariant forall k :: k in content ==>
                  r[k] == if k in todo then content[k] else Edit(content[k], [Key("schema")], Normalized)
      decreases todo
    {
      var k :| k in todo;
      var media := r[k];
      EditKey(media, "schema", Normalized);
      if media.VObj? && "schema" in media.fields && media.fields["schema"].VObj? {
        var schema := NormalizeSchema(media.fields["schema"].fields);
        r := r[k := VObj(media.fields["schema" := VObj(schema)])];
      }
      todo := todo - {k};
    }
    assert r == Edit(VObj(content), MEDIA_SCHEMAS, Normalized).fields;
  }

  method TagContent(content: Fields, disc: Node) returns (r: Fields)
    ensures VObj(r) == Edit(VObj(content), MEDIA_SCHEMAS, s => Discriminated(s, disc))
  {
    ghost var tag := s => Discriminated(s, disc);
    r := content;
    assert MEDIA_SCHEMAS[1..] == [Key("schema")];
    var todo := content.Keys;
    while todo != {}
      invariant todo <= content.Keys == r.Keys
      invariant forall k :: k in content ==>
                  r[k] == if k in todo then content[k] else Edit(content[k], [Key("schema")], tag)
      decreases todo
    {
      var k :| k in todo;
      var media := r[k];
      EditKey(media, "schema", tag);
      if media.VObj? && "schema" in media.fields && media.fields["schema"].VObj? {
        var schema := media.fields["schema"].fields;
        if "oneOf" in schema { schema := schema["discriminator" := disc]; }
        r := r[k := VObj(media.fields["schema" := VObj(schema)])];
      }
      todo := todo - {k};
    }
    assert r == Edit(VObj(content), MEDIA_SCHEMAS, tag).fields;
  }

  predicate HasContent(op: Fields) {
    "requestBody" in op && op["requestBody"].VObj? && "content" in op["requestBody"].fields &&
    op["requestBody"].fields["content"].VObj?
  }

  lemma AtContent(op: Fields, f: Fields -> Fields)
    ensures AtSchemas(op, f) ==
            if HasContent(op) then
              var body := op["requestBody"].fields;
              op["requestBody" := VObj(body["content" := Edit(body["content"], MEDIA_SCHEMAS, f)])]
            else op
  {
    var rest := [Key("content")] + MEDIA_SCHEMAS;
    assert BODY_SCHEMAS == [Key("requestBody")] + rest;
    EditDown(VObj(op), "requestBody", rest, f);
    if "requestBody" in op {
      var body := op["requestBody"];
      EditDown(body, "content", MEDIA_SCHEMAS, f);
      assert op["requestBody" := body] == op;
      if body.VObj? && "content" in body.fields {
        assert body.fields["content" := body.fields["content"]] == body.fields;
      }
    }
  }

  method NormalizeRequestBody(op: Fields) returns (r: Fields)
    ensures r == AtSchemas(op, Normalized)
  {
    r := op;
    AtContent(op, Normalized);
    if HasContent(op) {
      var body := op["requestBody"].fields;
      var content := NormalizeContent(body["content"].fields);
      r := r["requestBody" := VObj(body["content" := VObj(content)])];
    }
  }

  method InjectEvmDiscriminator(op: Fields, disc: Node) returns (r: Fields)
    ensures r == AtSchemas(op, s => Discriminated(s, disc))
  {
    r := op;
    AtContent(op, s => Discriminated(s, disc));
    if HasContent(op) {
      var body := op["requestBody"].fields;
      var content := TagContent(body["content"].fields, disc);
      r := r["requestBody" := VObj(body["content" := VObj(content)])];
    }
  }

  method NormalizeOperations(disc: Node, evm: bool, node: Node) returns (r: Node)
    ensures r == Edit(node, [Every], OperationStage(disc, evm))
  {
    r := node;
    assert [Every][1..] == [];
    if !node.VObj? { return; }
    var cur, todo := node.fields, node.fields.Keys;
    while todo != {}
      invariant todo <= node.fields.Keys == cur.Keys
      invariant forall k :: k in cur ==>
                  cur[k] == if k in todo then node.fields[k] else Edit(node.fields[k], [], OperationStage(disc, evm))
      decreases todo
    {
      var k :| k in todo;
      if cur[k].VObj? {
        var op := NormalizeSecurity(cur[k].fields);
        op := NormalizeRequestBody(op);
        if evm { op := InjectEvmDiscriminator(op, disc); }
        cur := cur[k := VObj(op)];
      }
      todo := todo - {k};
    }
    assert cur == Edit(node, [Every], OperationStage(disc, evm)).fields;
    r := VObj(cur);
  }

  method NormalizePaths(disc: Node, paths: Fields) returns (r: Fields)
    ensures r == FixedPaths(disc, paths)
  {
    r := paths;
    var todo := paths.Keys;
    while todo != {}
      invariant todo <= paths.Keys == r.Keys
      invariant forall k :: k in paths ==> r[k] == if k in todo then paths[k] else FixedPaths(disc, paths)[k]
      decreases todo
    {
      var k :| k in todo;
      var path := NormalizeOperations(disc, HasSuffix(k, "/sign/evm"), r[k]);
      r := r[k := path];
      todo := todo - {k};
    }
  }

  /** The whole pass. What a second pass would do is `NormalizeSpecIdempotent`. */
  method NormalizeSpec(spec: Fields) returns (r: Fields)
    ensures r == Normal(PREFIXES, DISCRIMINATOR, spec)
  {
    PrefixesApart();
    r := spec["openapi" := VERSION];
    r := NormalizeServers(r);
    r := RenameSchemaPrefix(PREFIXES, r);
    r := CapitaliseSchemes(r);
    ghost var before := r;
    ghost var stage := m => FixedPaths(DISCRIMINATOR, m);
    EditKey(VObj(r), "paths", stage);
    if "paths" in r && r["paths"].VObj? {
      var paths := NormalizePaths(DISCRIMINATOR, r["paths"].fields);
      r := r["paths" := VObj(paths)];
    }
    assert VObj(r) == Edit(VObj(before), [Key("paths")], stage);
  }

  method CapitaliseSchemes(spec: Fields) returns (r: Fields)
    ensures VObj(r) == Edit(VObj(spec), [Key("components"), Key("securitySchemes")], Capitalised)
  {
    r := spec;
    assert [Key("components"), Key("securitySchemes")] == [Key("components")] + [Key("securitySchemes")];
    EditDown(VObj(spec), "components", [Key("securitySchemes")], Capitalised);
    if "components" in spec {
      EditKey(spec["components"], "securitySchemes", Capitalised);
      assert spec["components" := spec["components"]] == spec;
      if spec["components"].VObj? {
        var c := spec["components"].fields;
        if "securitySchemes" in c && c["securitySchemes"].VObj? && "bearerauth" in c["securitySchemes"].fields {
          var schemes := c["securitySchemes"].fields;
          schemes := schemes["BearerAuth" := schemes["bearerauth"]] - {"bearerauth"};
          r := r["components" := VObj(c["securitySchemes" := VObj(schemes)])];
        } else if HasObject(spec["components"], "securitySchemes") {
          assert c["securitySchemes" := c["securitySchemes"]] == c;
        }
      }
    }
  }

  /**
   The program between reading and writing: normalise, then check the result. The check passes exactly if the mappings
   resolve when nothing is tagged, and no EVM signing operation is tagged or the three request schemas are there. They
   do resolve, untagged, for a document whose mappings resolve and that has no key under the new prefix.
   */
  method Process(spec: Fields) returns (r: Fields, bad: seq<string>)
    ensures r == Normal(PREFIXES, DISCRIMINATOR, spec)
    ensures bad == [] <==> AllKnown(r)
    ensures bad == [] <==>
            && AllKnown(Normal(PREFIXES, NO_TAG, spec))
            && (("paths" in spec ==> Untagged(spec["paths"])) || RequestsThere(spec))
    ensures AllKnown(spec) && (forall k :: k in Schemas(spec) ==> !HasPrefix(k, NEW_PREFIX)) ==>
              (bad == [] <==> ("paths" in spec ==> Untagged(spec["paths"])) || RequestsThere(spec))
  {
    r := NormalizeSpec(spec);
    bad := ValidateSpecRefs(r);
    ProcessedExact(spec);
    if AllKnown(spec) && forall k :: k in Schemas(spec) ==> !HasPrefix(k, NEW_PREFIX) { ProcessedKnown(spec); }
  }
}
