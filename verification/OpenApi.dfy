/** Post-processing of the generated OpenAPI document: `normalizeSpec` and when a second pass changes nothing. */
module OpenApi {
  import opened Text
  import opened Amino
  import opened Tree
  import opened Refs
  import opened Mappings
  import opened SchemaUnion

  // ------------------------------------------------------------------ servers

  predicate SchemeAt(url: string, i: nat) { i + 3 <= |url| && url[i..i + 3] == "://" }

  predicate HasScheme(url: string) { exists i :: 0 <= i < |url| && SchemeAt(url, i) }

  predicate Schemeless(url: string) { url != "" && !HasScheme(url) && !HasPrefix(url, "/") }

  function FixedServer(server: Fields): Fields {
    if "url" in server && server["url"].VStr? && Schemeless(server["url"].text)
    then server["url" := VStr("http://" + server["url"].text)] else server
  }

  // ------------------------------------------------------------------ security

  /** The scheme name `bearerauth` becomes `BearerAuth`. */
  function Capitalised(m: Fields): Fields {
    if "bearerauth" in m then m["BearerAuth" := m["bearerauth"]] - {"bearerauth"} else m
  }

  /** A single requirement whose empty name has no scopes: the operation needs no authentication. */
  predicate Anonymous(items: seq<Node>) {
    && |items| == 1 && items[0].VObj? && "" in items[0].fields
    && items[0].fields[""].VArr? && items[0].fields[""].items == []
  }

  function FixedRequirements(v: Node): Node {
    if v.VArr? && Anonymous(v.items) then VArr([]) else Edit(v, [Each], Capitalised)
  }

  function FixedSecurity(op: Fields): Fields {
    if "security" in op then op["security" := FixedRequirements(op["security"])] else op
  }

  // ------------------------------------------------------------------ operations

  const BODY_SCHEMAS := [Key("requestBody"), Key("content"), Every, Key("schema")]

  function AtSchemas(op: Fields, f: Fields -> Fields): Fields { Edit(VObj(op), BODY_SCHEMAS, f).fields }

  function FixedOperation(disc: Node, evm: bool, op: Fields): Fields {
    var body := AtSchemas(FixedSecurity(op), Normalized);
    if evm then AtSchemas(body, s => Discriminated(s, disc)) else body
  }

  function OperationStage(disc: Node, evm: bool): Fields -> Fields { op => FixedOperation(disc, evm, op) }

  function FixedPaths(disc: Node, paths: Fields): Fields {
    map k | k in paths :: Edit(paths[k], [Every], OperationStage(disc, HasSuffix(k, "/sign/evm")))
  }

  // ------------------------------------------------------------------ the whole document

  const VERSION: Node := VStr("3.0.3")

  /** The five stages in order. */
  function Normal(p: Prefixes, disc: Node, spec: Fields): Fields {
    var s1 := spec["openapi" := VERSION];
    var s2 := Edit(VObj(s1), [Key("servers"), Each], FixedServer).fields;
    var s3 := Rename(p, s2);
    var s4 := Edit(VObj(s3), [Key("components"), Key("securitySchemes")], Capitalised).fields;
    Edit(VObj(s4), [Key("paths")], m => FixedPaths(disc, m)).fields
  }

  /** What the stages together do to one top-level member. */
  function MemberOf(p: Prefixes, disc: Node, key: string, v: Node): Node {
    if key == "servers" then RewrittenAt(p, Edit(v, [Each], FixedServer))
    else if key == "components" then
      Edit(RewrittenAt(p, Edit(v, [Key("schemas")], m => RenameKeys(p, m))), [Key("securitySchemes")], Capitalised)
    else if key == "paths" then Edit(RewrittenAt(p, v), [], m => FixedPaths(disc, m))
    else RewrittenAt(p, v)
  }

  lemma EditTop(spec: Fields, k: string, rest: seq<Hop>, f: Fields -> Fields, key: string)
    ensures var r := Edit(VObj(spec), [Key(k)] + rest, f).fields;
            && (key in r <==> key in spec)
            && (key in spec ==> r[key] == if key == k then Edit(spec[key], rest, f) else spec[key])
  {
    assert ([Key(k)] + rest)[1..] == rest;
  }

  /** Member by member: the stages do not interfere across top-level members. */
  lemma NormalMember(p: Prefixes, disc: Node, spec: Fields, key: string)
    ensures key in Normal(p, disc, spec) <==> key in spec || key == "openapi"
    ensures key in Normal(p, disc, spec) ==>
              Normal(p, disc, spec)[key] == MemberOf(p, disc, key, spec["openapi" := VERSION][key])
  {
    var s1 := spec["openapi" := VERSION];
    var s2 := Edit(VObj(s1), [Key("servers"), Each], FixedServer).fields;
    var rename := m => RenameKeys(p, m);
    var s25 := Edit(VObj(s2), SCHEMA_TABLE, rename).fields;
    var s4 := Edit(VObj(Rename(p, s2)), [Key("components"), Key("securitySchemes")], Capitalised).fields;
    assert [Key("servers"), Each] == [Key("servers")] + [Each];
    EditTop(s1, "servers", [Each], FixedServer, key);
    assert SCHEMA_TABLE == [Key("components")] + [Key("schemas")];
    EditTop(s2, "components", [Key("schemas")], rename, key);
    assert key in Rename(p, s2) <==> key in s25;
    assert [Key("components"), Key("securitySchemes")] == [Key("components")] + [Key("securitySchemes")];
    EditTop(Rename(p, s2), "components", [Key("securitySchemes")], Capitalised, key);
    assert [Key("paths")] == [Key("paths")] + [];
    EditTop(s4, "paths", [], m => FixedPaths(disc, m), key);
  }

  // ------------------------------------------------------------------ rewriting twice

  /** A tree in which nothing is left to rewrite. */
  predicate Clean(p: Prefixes, v: Node) { RewrittenAt(p, v) == v }

  predicate CleanFields(p: Prefixes, m: Fields) { forall k :: k in m ==> Clean(p, m[k]) }

  lemma CleanObject(p: Prefixes, m: Fields)
    ensures Clean(p, VObj(m)) <==> CleanFields(p, m)
  {
    var r := RewrittenFields(p, m);
    assert RewrittenAt(p, VObj(m)) == VObj(r);
    if CleanFields(p, m) { assert r == m; }
  }

  lemma MovedOnce(p: Prefixes, s: string)
    requires Apart(p)
    ensures Moved(p, Moved(p, s)) == Moved(p, s)
  {
    if HasPrefix(s, OldRef(p)) {
      var x := TrimPrefix(s, OldRef(p));
      PrefixAdded(NewRef(p), x);
      RefParts(p, Moved(p, s));
      ApartNever(p, TrimPrefix(Moved(p, s), SCHEMAS));
    }
  }

  lemma {:induction false} RewriteOnce(p: Prefixes, v: Node)
    requires Apart(p)
    ensures Clean(p, RewrittenAt(p, v))
    ensures Rewritten(p, Rewritten(p, v)) == Rewritten(p, v)
  {
    match v
    case VStr(s) => MovedOnce(p, s);
    case VObj(m) =>
      forall k | k in m ensures Clean(p, RewrittenAt(p, m[k])) { RewriteOnce(p, m[k]); }
      CleanObject(p, Rewritten(p, v).fields);
    case VArr(items) =>
      forall i | 0 <= i < |items| ensures Rewritten(p, Rewritten(p, items[i])) == Rewritten(p, items[i]) {
        RewriteOnce(p, items[i]);
      }
    case _ =>
  }

  /** Items of arrays: a string there counts as clean whatever it says. */
  predicate CleanItem(p: Prefixes, v: Node) { Rewritten(p, v) == v }

  lemma CleanArray(p: Prefixes, items: seq<Node>)
    ensures CleanItem(p, VArr(items)) <==> forall i :: 0 <= i < |items| ==> CleanItem(p, items[i])
  {
    var r := Rewritten(p, VArr(items)).items;
    assert |r| == |items| && forall i :: 0 <= i < |r| ==> r[i] == Rewritten(p, items[i]);
    if forall i :: 0 <= i < |items| ==> CleanItem(p, items[i]) { assert r == items; }
  }

  ghost predicate KeepsClean(p: Prefixes, f: Fields -> Fields) {
    forall m: Fields :: CleanFields(p, m) ==> CleanFields(p, f(m))
  }

  /** An edit that keeps objects clean keeps the document clean. */
  lemma {:induction false} EditClean(p: Prefixes, v: Node, route: seq<Hop>, f: Fields -> Fields)
    requires KeepsClean(p, f) && CleanItem(p, v)
    ensures CleanItem(p, Edit(v, route, f))
    decreases |route|
  {
    if v.VObj? { CleanObject(p, v.fields); }
    if v.VArr? { CleanArray(p, v.items); }
    if route == [] {
      if v.VObj? { CleanObject(p, f(v.fields)); }
    } else {
      match route[0]
      case Key(k) => EditCleanKey(p, v, k, route, f);
      case Every => EditCleanEvery(p, v, route, f);
      case Each => EditCleanEach(p, v, route, f);
    }
  }

  lemma {:induction false} EditCleanKey(p: Prefixes, v: Node, k: string, route: seq<Hop>, f: Fields -> Fields)
    requires KeepsClean(p, f) && CleanItem(p, v) && route != [] && route[0] == Key(k)
    ensures CleanItem(p, Edit(v, route, f))
    decreases |route|, 0
  {
    if v.VObj? && k in v.fields {
      CleanObject(p, v.fields);
      EditClean(p, v.fields[k], route[1..], f);
      CleanObject(p, Edit(v, route, f).fields);
    }
  }

  lemma {:induction false} EditCleanEvery(p: Prefixes, v: Node, route: seq<Hop>, f: Fields -> Fields)
    requires KeepsClean(p, f) && CleanItem(p, v) && route != [] && route[0] == Every
    ensures CleanItem(p, Edit(v, route, f))
    decreases |route|, 0
  {
    if v.VObj? {
      CleanObject(p, v.fields);
      forall k | k in v.fields ensures Clean(p, Edit(v.fields[k], route[1..], f)) {
        EditClean(p, v.fields[k], route[1..], f);
      }
      CleanObject(p, Edit(v, route, f).fields);
    }
  }

  lemma {:induction false} EditCleanEach(p: Prefixes, v: Node, route: seq<Hop>, f: Fields -> Fields)
    requires KeepsClean(p, f) && CleanItem(p, v) && route != [] && route[0] == Each
    ensures CleanItem(p, Edit(v, route, f))
    decreases |route|, 0
  {
    if v.VArr? {
      CleanArray(p, v.items);
      forall i | 0 <= i < |v.items| ensures CleanItem(p, Edit(v.items[i], route[1..], f)) {
        EditClean(p, v.items[i], route[1..], f);
      }
      CleanArray(p, Edit(v, route, f).items);
    }
  }

  // ------------------------------------------------------------------ each top-level member twice

  lemma SchemeKept(p: Prefixes, url: string)
    requires Apart(p) && HasScheme(url)
    ensures HasScheme(Moved(p, url))
  {
    var i :| 0 <= i < |url| && SchemeAt(url, i);
    if HasPrefix(url, OldRef(p)) {
      var x := TrimPrefix(url, OldRef(p));
      assert url[i] == url[i..i + 3][0] == ':';
      NoColon(p);
      assert i >= |OldRef(p)| by {
        assert forall k :: 0 <= k < |OldRef(p)| ==> url[k] == OldRef(p)[k] && OldRef(p)[k] in OldRef(p);
      }
      var j := i - |OldRef(p)| + |NewRef(p)|;
      assert Moved(p, url)[j..j + 3] == x[i - |OldRef(p)|..][..3] == url[i..i + 3];
      assert SchemeAt(Moved(p, url), j);
    }
  }

  lemma NoColon(p: Prefixes)
    requires Apart(p)
    ensures ':' !in OldRef(p)
  {
    assert ':' !in SCHEMAS;
  }

  lemma FixedServerOnce(p: Prefixes, server: Fields)
    requires Apart(p)
    ensures var r := RewrittenFields(p, FixedServer(server)); FixedServer(r) == r
  {
    var fixed := FixedServer(server);
    if "url" in server && server["url"].VStr? {
      var url := fixed["url"].text;
      if Schemeless(server["url"].text) {
        assert url[4..7] == "://";
        assert SchemeAt(url, 4);
      }
      if HasScheme(url) { SchemeKept(p, url); }
      if HasPrefix(url, "/") || url == "" { assert OldRef(p)[0] == '#'; }
    }
  }

  lemma ServersOnce(p: Prefixes, v: Node)
    requires Apart(p)
    ensures var w := RewrittenAt(p, Edit(v, [Each], FixedServer)); RewrittenAt(p, Edit(w, [Each], FixedServer)) == w
  {
    var e := Edit(v, [Each], FixedServer);
    var w := RewrittenAt(p, e);
    RewriteOnce(p, e);
    if v.VArr? {
      assert [Each][1..] == [];
      forall i | 0 <= i < |v.items| ensures Edit(w.items[i], [], FixedServer) == w.items[i] {
        if v.items[i].VObj? {
          FixedServerOnce(p, v.items[i].fields);
          assert w.items[i] == VObj(RewrittenFields(p, FixedServer(v.items[i].fields)));
        }
      }
      EachFixed(w, [Each], FixedServer);
    }
  }

  lemma NothingToRename(p: Prefixes, m: Fields)
    requires forall k :: k in m ==> !HasPrefix(k, p.from)
    ensures RenameKeys(p, m) == m
  {
    forall k ensures k in RenamedKeys(p, m, {}) <==> k in m
             ensures k in m ==> !Replaced(p, m, {}, k)
    {
      RenamedKeysExact(p, m, {}, k);
      if HasPrefix(k, p.to) { PrefixAdded(p.from, TrimPrefix(k, p.to)); }
    }
  }

  lemma RenamedHasNoOld(p: Prefixes, m: Fields, k: string)
    requires Apart(p) && k in RenameKeys(p, m)
    ensures !HasPrefix(k, p.from)
  {
    RenamedKeysExact(p, m, {}, k);
    ApartNever(p, k);
  }

  lemma RenamedTwice(p: Prefixes, m: Fields)
    requires Apart(p)
    ensures var r := RewrittenFields(p, RenameKeys(p, m)); RenameKeys(p, r) == r
  {
    forall k | k in RenameKeys(p, m) ensures !HasPrefix(k, p.from) { RenamedHasNoOld(p, m, k); }
    NothingToRename(p, RewrittenFields(p, RenameKeys(p, m)));
  }

  lemma CapitalisedClean(p: Prefixes)
    ensures KeepsClean(p, Capitalised)
  {}

  /** Renaming, rewriting and capitalising `components` again changes nothing. */
  lemma ComponentsOnce(p: Prefixes, v: Node)
    requires Apart(p)
    ensures var w := MemberOf(p, VERSION, "components", v); MemberOf(p, VERSION, "components", w) == w
  {
    var rename := m => RenameKeys(p, m);
    var a := Edit(v, [Key("schemas")], rename);
    var b := RewrittenAt(p, a);
    var w := Edit(b, [Key("securitySchemes")], Capitalised);
    RewriteOnce(p, a);
    CapitalisedClean(p);
    EditClean(p, b, [Key("securitySchemes")], Capitalised);
    var always := (m: Fields) => true;
    EditAgain(b, [Key("securitySchemes")], Capitalised, always);
    AllAlways(b, [Key("securitySchemes")], always);
    TableOnce(p, v);
  }

  predicate HasObject(v: Node, k: string) { v.VObj? && k in v.fields && v.fields[k].VObj? }

  lemma EditKey(v: Node, k: string, f: Fields -> Fields)
    ensures Edit(v, [Key(k)], f) == if HasObject(v, k) then VObj(v.fields[k := VObj(f(v.fields[k].fields))]) else v
  {
    assert [Key(k)][1..] == [];
    if v.VObj? && k in v.fields {
      assert Edit(v, [Key(k)], f) == VObj(v.fields[k := Edit(v.fields[k], [], f)]);
      assert v.fields[k := v.fields[k]] == v.fields;
    }
  }

  lemma TableOnce(p: Prefixes, v: Node)
    requires Apart(p)
    ensures var rename := m => RenameKeys(p, m);
            var b := RewrittenAt(p, Edit(v, [Key("schemas")], rename));
            var w := Edit(b, [Key("securitySchemes")], Capitalised);
            Edit(w, [Key("schemas")], rename) == w
  {
    var rename := m => RenameKeys(p, m);
    var a := Edit(v, [Key("schemas")], rename);
    var b := RewrittenAt(p, a);
    var w := Edit(b, [Key("securitySchemes")], Capitalised);
    EditKey(v, "schemas", rename);
    EditKey(b, "securitySchemes", Capitalised);
    EditKey(w, "schemas", rename);
    if a.VObj? { assert b == VObj(RewrittenFields(p, a.fields)); }
    if HasObject(w, "schemas") {
      var table := v.fields["schemas"].fields;
      RenamedTwice(p, table);
      assert w.fields["schemas"] == VObj(RewrittenFields(p, RenameKeys(p, table)));
      assert w.fields["schemas" := w.fields["schemas"]] == w.fields;
    }
  }

  // ------------------------------------------------------------------ operations twice

  function FixedSchema(disc: Node, evm: bool, schema: Fields): Fields {
    if evm then Discriminated(Normalized(schema), disc) else Normalized(schema)
  }

  lemma FixedSchemaOnce(disc: Node, evm: bool, schema: Fields)
    ensures var once := FixedSchema(disc, evm, schema); FixedSchema(disc, evm, once) == once <==> Settled(schema)
  {
    NormalizeIdempotent(schema);
    DiscriminateIdempotent(schema, disc);
  }

  /** Filtering the schemas of an operation and then tagging them is one edit per schema. */
  lemma OperationParts(disc: Node, evm: bool, op: Fields)
    ensures FixedOperation(disc, evm, op) == AtSchemas(FixedSecurity(op), s => FixedSchema(disc, evm, s))
  {
    var stage := s => FixedSchema(disc, evm, s);
    var secured := VObj(FixedSecurity(op));
    if evm {
      EditTwice(secured, BODY_SCHEMAS, Normalized, s => Discriminated(s, disc), stage);
    } else {
      EditTwice(secured, BODY_SCHEMAS, s => s, Normalized, stage);
      EditNothing(secured, BODY_SCHEMAS);
    }
  }

  lemma EditNothing(v: Node, route: seq<Hop>)
    ensures Edit(v, route, s => s) == v
  {
    var always := (m: Fields) => true;
    EditFixed(v, route, s => s, always);
    AllAlways(v, route, always);
  }

  lemma FixedRequirementsOnce(v: Node)
    ensures FixedRequirements(FixedRequirements(v)) == FixedRequirements(v)
  {
    if !(v.VArr? && Anonymous(v.items)) {
      var w := Edit(v, [Each], Capitalised);
      var always := (m: Fields) => true;
      EditAgain(v, [Each], Capitalised, always);
      AllAlways(v, [Each], always);
      if v.VArr? {
        assert [Each][1..] == [];
        assert |w.items| == |v.items|;
        if |v.items| == 1 { assert w.items[0] == Edit(v.items[0], [], Capitalised); }
        assert !Anonymous(w.items);
      }
    }
  }

  lemma SecurityCommutes(op: Fields, f: Fields -> Fields)
    ensures FixedSecurity(AtSchemas(op, f)) == AtSchemas(FixedSecurity(op), f)
  {
    var rest := [Key("content"), Every, Key("schema")];
    assert BODY_SCHEMAS == [Key("requestBody")] + rest;
    var a, b := FixedSecurity(AtSchemas(op, f)), AtSchemas(FixedSecurity(op), f);
    forall k ensures k in a <==> k in b
             ensures k in a && k in b ==> a[k] == b[k]
    {
      EditTop(op, "requestBody", rest, f, k);
      EditTop(op, "requestBody", rest, f, "security");
      EditTop(FixedSecurity(op), "requestBody", rest, f, k);
    }
  }

  lemma SecurityKeepsSchemas(op: Fields, ok: Fields -> bool)
    ensures All(VObj(FixedSecurity(op)), BODY_SCHEMAS, ok) <==> All(VObj(op), BODY_SCHEMAS, ok)
  {}

  lemma OperationOnce(disc: Node, evm: bool, op: Fields)
    ensures var once := FixedOperation(disc, evm, op);
            FixedOperation(disc, evm, once) == once <==> All(VObj(op), BODY_SCHEMAS, Settled)
  {
    var q := s => FixedSchema(disc, evm, s);
    var secured := FixedSecurity(op);
    var once := AtSchemas(secured, q);
    OperationParts(disc, evm, op);
    OperationParts(disc, evm, once);
    SecurityCommutes(secured, q);
    assert FixedSecurity(secured) == secured by {
      if "security" in op { FixedRequirementsOnce(op["security"]); }
    }
    forall m: Fields ensures Settled(m) <==> Settles(q, m) { FixedSchemaOnce(disc, evm, m); }
    EditAgain(VObj(secured), BODY_SCHEMAS, q, Settled);
    SecurityKeepsSchemas(op, Settled);
  }

  // ------------------------------------------------------------------ paths twice

  lemma KeptClean(p: Prefixes, schema: Fields)
    requires CleanFields(p, schema)
    ensures CleanFields(p, Normalized(schema))
  {
    if HasBranches(schema) {
      var items := Branches(schema);
      assert Clean(p, schema["oneOf"]);
      CleanArray(p, items);
      var kept := Kept(items);
      KeptExact(items);
      forall i | 0 <= i < |kept| ensures CleanItem(p, kept[i]) { assert kept[i] in items; }
      CleanArray(p, kept);
      if |kept| == 1 && kept[0].VObj? { CleanObject(p, kept[0].fields); }
    }
  }

  lemma SecurityClean(p: Prefixes, op: Fields)
    requires CleanFields(p, op)
    ensures CleanFields(p, FixedSecurity(op))
  {
    if "security" in op {
      assert Clean(p, op["security"]);
      CapitalisedClean(p);
      EditClean(p, op["security"], [Each], Capitalised);
      CleanArray(p, []);
    }
  }

  lemma OperationClean(p: Prefixes, disc: Node, evm: bool, op: Fields)
    requires Clean(p, disc) && CleanFields(p, op)
    ensures CleanFields(p, FixedOperation(disc, evm, op))
  {
    var q := s => FixedSchema(disc, evm, s);
    OperationParts(disc, evm, op);
    SecurityClean(p, op);
    forall m: Fields | CleanFields(p, m) ensures CleanFields(p, q(m)) { KeptClean(p, m); }
    CleanObject(p, FixedSecurity(op));
    EditClean(p, VObj(FixedSecurity(op)), BODY_SCHEMAS, q);
    CleanObject(p, AtSchemas(FixedSecurity(op), q));
  }

  lemma PathsClean(p: Prefixes, disc: Node, paths: Fields)
    requires Clean(p, disc) && CleanFields(p, paths)
    ensures CleanFields(p, FixedPaths(disc, paths))
  {
    forall k | k in paths ensures Clean(p, FixedPaths(disc, paths)[k]) {
      var f := OperationStage(disc, HasSuffix(k, "/sign/evm"));
      forall m: Fields | CleanFields(p, m) ensures CleanFields(p, f(m)) {
        OperationClean(p, disc, HasSuffix(k, "/sign/evm"), m);
      }
      assert Clean(p, paths[k]);
      EditClean(p, paths[k], [Every], f);
    }
  }

  const OPERATION_SCHEMAS := [Every] + BODY_SCHEMAS
  const PATH_SCHEMAS := [Every] + OPERATION_SCHEMAS

  predicate OperationSettled(op: Fields) { All(VObj(op), BODY_SCHEMAS, Settled) }

  lemma PathAgain(disc: Node, evm: bool, v: Node)
    ensures var f := OperationStage(disc, evm);
            Edit(Edit(v, [Every], f), [Every], f) == Edit(v, [Every], f) <==> All(v, [Every], OperationSettled)
  {
    forall op: Fields ensures OperationSettled(op) <==> Settles(OperationStage(disc, evm), op) {
      OperationOnce(disc, evm, op);
    }
    EditAgain(v, [Every], OperationStage(disc, evm), OperationSettled);
  }

  lemma PathOnce(disc: Node, evm: bool, v: Node)
    ensures var f := OperationStage(disc, evm);
            Edit(Edit(v, [Every], f), [Every], f) == Edit(v, [Every], f) <==> All(v, OPERATION_SCHEMAS, Settled)
  {
    PathAgain(disc, evm, v);
    AllJoined(v, [Every], BODY_SCHEMAS, Settled, OperationSettled);
  }

  lemma PathsOnce(disc: Node, paths: Fields)
    ensures FixedPaths(disc, FixedPaths(disc, paths)) == FixedPaths(disc, paths) <==>
            All(VObj(paths), PATH_SCHEMAS, Settled)
  {
    var once := FixedPaths(disc, paths);
    var twice := FixedPaths(disc, once);
    assert PATH_SCHEMAS[1..] == OPERATION_SCHEMAS;
    forall k | k in paths ensures twice[k] == once[k] <==> All(paths[k], OPERATION_SCHEMAS, Settled) {
      PathOnce(disc, HasSuffix(k, "/sign/evm"), paths[k]);
    }
    assert twice.Keys == once.Keys == paths.Keys;
    assert twice == once <==> forall k :: k in paths ==> twice[k] == once[k];
  }

  /** A property that rewriting references does not change holds before and after it alike. */
  lemma {:induction false} AllRewritten(p: Prefixes, v: Node, route: seq<Hop>, ok: Fields -> bool)
    requires forall m: Fields :: ok(RewrittenFields(p, m)) <==> ok(m)
    ensures All(Rewritten(p, v), route, ok) <==> All(v, route, ok)
    ensures All(RewrittenAt(p, v), route, ok) <==> All(v, route, ok)
    decreases |route|
  {
    if v.VStr? {
      AllOfString(v, route, ok);
      AllOfString(RewrittenAt(p, v), route, ok);
    } else if route == [] {
      if v.VObj? { assert Rewritten(p, v) == VObj(RewrittenFields(p, v.fields)); }
    } else {
      match route[0]
      case Key(k) =>
        if v.VObj? && k in v.fields { AllRewritten(p, v.fields[k], route[1..], ok); }
      case Every =>
        if v.VObj? {
          forall k | k in v.fields { AllRewritten(p, v.fields[k], route[1..], ok); }
          assert Rewritten(p, v) == VObj(RewrittenFields(p, v.fields));
        }
      case Each =>
        if v.VArr? {
          forall i | 0 <= i < |v.items| { AllRewritten(p, v.items[i], route[1..], ok); }
          var r := Rewritten(p, v).items;
          assert |r| == |v.items| && forall i :: 0 <= i < |r| ==> r[i] == Rewritten(p, v.items[i]);
        }
    }
  }

  lemma AllOfString(v: Node, route: seq<Hop>, ok: Fields -> bool)
    requires v.VStr?
    ensures All(v, route, ok)
  {}

  lemma PathsMemberOnce(p: Prefixes, disc: Node, v: Node)
    requires Apart(p) && Clean(p, disc)
    ensures var w := MemberOf(p, disc, "paths", v);
            MemberOf(p, disc, "paths", w) == w <==> All(v, PATH_SCHEMAS, Settled)
  {
    var u := RewrittenAt(p, v);
    RewriteOnce(p, v);
    forall m: Fields ensures Settled(RewrittenFields(p, m)) <==> Settled(m) { RewrittenSettled(p, m); }
    AllRewritten(p, v, PATH_SCHEMAS, Settled);
    if v.VObj? {
      CleanObject(p, u.fields);
      PathsClean(p, disc, u.fields);
      CleanObject(p, FixedPaths(disc, u.fields));
      PathsOnce(disc, u.fields);
      assert u == VObj(u.fields);
    }
  }

  // ------------------------------------------------------------------ the theorem

  /** Every request-body schema of every operation is settled. */
  predicate AllSettled(spec: Fields) { "paths" in spec ==> All(spec["paths"], PATH_SCHEMAS, Settled) }

  lemma MemberOnce(p: Prefixes, disc: Node, key: string, v: Node)
    requires Apart(p) && Clean(p, disc)
    ensures var w := MemberOf(p, disc, key, v);
            MemberOf(p, disc, key, w) == w <==> (key == "paths" ==> All(v, PATH_SCHEMAS, Settled))
  {
    if key == "servers" { ServersOnce(p, v); }
    else if key == "components" { ComponentsOnce(p, v); }
    else if key == "paths" { PathsMemberOnce(p, disc, v); }
    else { RewriteOnce(p, v); }
  }

  lemma VersionKept(p: Prefixes, disc: Node, spec: Fields)
    ensures var once := Normal(p, disc, spec);
            "openapi" in once && once["openapi"] == VERSION && once["openapi" := VERSION] == once
  {
    NormalMember(p, disc, spec, "openapi");
    assert OldRef(p)[0] == '#';
  }

  lemma NormalTwiceAt(p: Prefixes, disc: Node, spec: Fields, k: string)
    requires Apart(p) && Clean(p, disc)
    ensures var once := Normal(p, disc, spec); var twice := Normal(p, disc, once);
            && (k in once <==> k in twice)
            && (k in once ==> (twice[k] == once[k] <==> (k == "paths" ==> AllSettled(spec))))
  {
    var once := Normal(p, disc, spec);
    VersionKept(p, disc, spec);
    NormalMember(p, disc, spec, k);
    NormalMember(p, disc, once, k);
    if k in once { MemberOnce(p, disc, k, spec["openapi" := VERSION][k]); }
  }

  /** A second pass over the document changes nothing exactly when every request-body schema is settled. */
  lemma NormalIdempotent(p: Prefixes, disc: Node, spec: Fields)
    requires Apart(p) && Clean(p, disc)
    ensures Normal(p, disc, Normal(p, disc, spec)) == Normal(p, disc, spec) <==> AllSettled(spec)
  {
    var once := Normal(p, disc, spec);
    var twice := Normal(p, disc, once);
    forall k ensures k in once <==> k in twice
             ensures k in once && k in twice ==> (twice[k] == once[k] <==> (k == "paths" ==> AllSettled(spec)))
    {
      NormalTwiceAt(p, disc, spec, k);
    }
    NormalMember(p, disc, spec, "paths");
  }

  lemma ComponentSchemas(p: Prefixes, disc: Node, v: Node)
    ensures var rename := m => RenameKeys(p, m);
            var renamed := RewrittenAt(p, Edit(v, [Key("schemas")], rename));
            var w := MemberOf(p, disc, "components", v);
            && (HasObject(w, "schemas") <==> HasObject(renamed, "schemas"))
            && (HasObject(w, "schemas") ==> w.fields["schemas"] == renamed.fields["schemas"])
  {
    var rename := m => RenameKeys(p, m);
    EditKey(RewrittenAt(p, Edit(v, [Key("schemas")], rename)), "securitySchemes", Capitalised);
  }

  lemma RenamedComponents(p: Prefixes, v: Node)
    ensures var rename := m => RenameKeys(p, m);
            var renamed := RewrittenAt(p, Edit(v, [Key("schemas")], rename));
            && (HasObject(renamed, "schemas") <==> HasObject(v, "schemas"))
            && (HasObject(v, "schemas") ==>
                  renamed.fields["schemas"] == VObj(RewrittenFields(p, RenameKeys(p, v.fields["schemas"].fields))))
  {
    var rename := m => RenameKeys(p, m);
    var a := Edit(v, [Key("schemas")], rename);
    EditKey(v, "schemas", rename);
    if a.VObj? { assert RewrittenAt(p, a) == VObj(RewrittenFields(p, a.fields)); }
  }

  /** No stage but the rename touches the schema table. */
  lemma NormalSchemas(p: Prefixes, disc: Node, spec: Fields)
    ensures Schemas(Normal(p, disc, spec)) == RewrittenFields(p, RenameKeys(p, Schemas(spec)))
  {
    NormalMember(p, disc, spec, "components");
    if "components" in spec {
      ComponentSchemas(p, disc, spec["components"]);
      RenamedComponents(p, spec["components"]);
    }
  }

  const PREFIXES := Prefixes(OLD_PREFIX, NEW_PREFIX)

  lemma OldPrefixParts()
    ensures OLD_PREFIX == "github_com_" + "ryan-truong_" + "kms-wrapper_" + "pkg_types."
  {}

  lemma PrefixesApart()
    ensures Apart(PREFIXES)
  {
    OldPrefixParts();
    assert OLD_PREFIX[0] == 'g' && NEW_PREFIX[0] == 'k';
    FirstDiffers(OLD_PREFIX, NEW_PREFIX);
    NoColonInPrefix();
  }

  lemma FirstDiffers(a: string, b: string)
    requires a != "" && b != "" && a[0] != b[0]
    ensures !HasPrefix(a, b) && !HasPrefix(b, a)
  {}

  lemma NoColonInPrefix()
    ensures ':' !in OLD_PREFIX
  {
    OldPrefixParts();
  }

  lemma NewRefClean(p: Prefixes, x: string)
    requires Apart(p)
    ensures Clean(p, VStr(SCHEMAS + (p.to + x)))
  {
    var s := SCHEMAS + (p.to + x);
    PrefixAdded(SCHEMAS, p.to + x);
    PrefixAdded(p.to, x);
    RefParts(p, s);
    ApartNever(p, p.to + x);
  }

  lemma DiscriminatorClean()
    ensures Clean(PREFIXES, DISCRIMINATOR)
  {
    PrefixesApart();
    NewRefClean(PREFIXES, "EVMSignRawTxRequest");
    NewRefClean(PREFIXES, "EVMSignPersonalMessageRequest");
    NewRefClean(PREFIXES, "EVMSignEIP712Request");
    var mapping := DISCRIMINATOR.fields["mapping"];
    CleanObject(PREFIXES, mapping.fields);
    CleanObject(PREFIXES, DISCRIMINATOR.fields);
  }

  /** With the program's own prefixes and discriminator. */
  lemma NormalizeSpecIdempotent(spec: Fields)
    ensures var once := Normal(PREFIXES, DISCRIMINATOR, spec);
            Normal(PREFIXES, DISCRIMINATOR, once) == once <==> AllSettled(spec)
  {
    PrefixesApart();
    DiscriminatorClean();
    NormalIdempotent(PREFIXES, DISCRIMINATOR, spec);
  }

  /** References through the whole post-processing, with no key under the new prefix beforehand. */
  lemma NormalizeSpecResolves(spec: Fields, ref: string)
    requires forall k :: k in Schemas(spec) ==> !HasPrefix(k, NEW_PREFIX)
    ensures var after := Normal(PREFIXES, DISCRIMINATOR, spec); var moved := Moved(PREFIXES, ref);
            && (Resolve(spec, ref).Some? ==>
                  Resolve(after, moved) == Some(RewrittenAt(PREFIXES, Resolve(spec, ref).value)))
            && (!HasPrefix(ref, NewRef(PREFIXES)) && Resolve(spec, ref).None? ==> Resolve(after, moved).None?)
  {
    var p := PREFIXES;
    PrefixesApart();
    NormalSchemas(p, DISCRIMINATOR, spec);
    SchemasRenamed(p, spec);
    ResolutionPreserved(p, spec, ref);
  }
}
