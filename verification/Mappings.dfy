/** Where schema references lead, before and after the rename, and the check of discriminator mappings. */
module Mappings {
  import opened Text
  import opened Amino
  import opened Tree
  import opened Refs

  /** `components.schemas`, empty when absent or not an object. */
  function Schemas(spec: Fields): Fields {
    if "components" in spec && spec["components"].VObj? && "schemas" in spec["components"].fields &&
       spec["components"].fields["schemas"].VObj?
    then spec["components"].fields["schemas"].fields else map[]
  }

  function Resolve(spec: Fields, ref: string): Option<Node> {
    var key := TrimPrefix(ref, SCHEMAS);
    if HasPrefix(ref, SCHEMAS) && key in Schemas(spec) then Some(Schemas(spec)[key]) else None
  }

  // ------------------------------------------------------------------ renaming keeps resolution

  const SCHEMA_TABLE := [Key("components"), Key("schemas")]

  /** The rename as the program does it: the keys of the table, then every reference in the document. */
  function Rename(p: Prefixes, spec: Fields): Fields {
    RewrittenFields(p, Edit(VObj(spec), SCHEMA_TABLE, m => RenameKeys(p, m)).fields)
  }

  lemma EditSchemas(spec: Fields, f: Fields -> Fields)
    requires f(map[]) == map[]
    ensures Schemas(Edit(VObj(spec), SCHEMA_TABLE, f).fields) == f(Schemas(spec))
  {
    assert SCHEMA_TABLE[1..] == [Key("schemas")];
    if "components" in spec && spec["components"].VObj? {
      var c := spec["components"];
      assert Edit(VObj(spec), SCHEMA_TABLE, f).fields == spec["components" := Edit(c, [Key("schemas")], f)];
      assert [Key("schemas")][1..] == [];
    }
  }

  lemma SchemasRewritten(p: Prefixes, spec: Fields)
    ensures Schemas(RewrittenFields(p, spec)) == RewrittenFields(p, Schemas(spec))
  {
    if "components" in spec && spec["components"].VObj? {
      var c := spec["components"].fields;
      assert RewrittenAt(p, VObj(c)) == VObj(RewrittenFields(p, c));
    }
  }

  lemma SchemasRenamed(p: Prefixes, spec: Fields)
    ensures Schemas(Rename(p, spec)) == RewrittenFields(p, RenameKeys(p, Schemas(spec)))
  {
    var f := m => RenameKeys(p, m);
    EditSchemas(spec, f);
    SchemasRewritten(p, Edit(VObj(spec), SCHEMA_TABLE, f).fields);
  }

  /** What a name leads to in the renamed table. */
  lemma RenamedLookup(p: Prefixes, m: Fields, key: string)
    requires Apart(p)
    ensures HasPrefix(key, p.from) && key in m ==>
              var k := KeyAfter(p, key); k in RenameKeys(p, m) && RenameKeys(p, m)[k] == m[key]
    ensures HasPrefix(key, p.to) && KeyBefore(p, key) in m ==>
              key in RenameKeys(p, m) && RenameKeys(p, m)[key] == m[KeyBefore(p, key)]
    ensures !HasPrefix(key, p.from) && !(HasPrefix(key, p.to) && KeyBefore(p, key) in m) ==>
              (key in RenameKeys(p, m) <==> key in m) && (key in m ==> RenameKeys(p, m)[key] == m[key])
  {
    RenamedKeysExact(p, m, {}, key);
    if HasPrefix(key, p.from) {
      var k := KeyAfter(p, key);
      KeyAfterExact(p, key, k);
      RenamedKeysExact(p, m, {}, k);
    }
  }

  lemma RenamedMissing(p: Prefixes, m: Fields, key: string)
    requires Apart(p) && HasPrefix(key, p.from) && key !in m && KeyAfter(p, key) !in m
    ensures KeyAfter(p, key) !in RenameKeys(p, m)
  {
    var k := KeyAfter(p, key);
    KeyAfterExact(p, key, k);
    RenamedKeysExact(p, m, {}, k);
  }

  lemma RefParts(p: Prefixes, ref: string)
    ensures HasPrefix(ref, OldRef(p)) <==> HasPrefix(ref, SCHEMAS) && HasPrefix(TrimPrefix(ref, SCHEMAS), p.from)
    ensures HasPrefix(ref, NewRef(p)) <==> HasPrefix(ref, SCHEMAS) && HasPrefix(TrimPrefix(ref, SCHEMAS), p.to)
  {
    PrefixParts(SCHEMAS, p.from, ref);
    PrefixParts(SCHEMAS, p.to, ref);
  }

  lemma PrefixParts(a: string, b: string, x: string)
    ensures HasPrefix(x, a + b) <==> HasPrefix(x, a) && HasPrefix(TrimPrefix(x, a), b)
    ensures HasPrefix(x, a + b) ==> TrimPrefix(x, a + b) == TrimPrefix(TrimPrefix(x, a), b)
  {
    if HasPrefix(x, a + b) {
      assert x[..|a|] == (a + b)[..|a|] == a;
      assert x[|a|..][..|b|] == (a + b)[|a|..] == b;
      assert x[|a + b|..] == x[|a|..][|b|..];
    }
    if HasPrefix(x, a) && HasPrefix(x[|a|..], b) {
      assert x[..|a + b|] == x[..|a|] + x[|a|..][..|b|];
    }
  }

  /** The rewritten reference names the renamed key. */
  lemma MovedRef(p: Prefixes, ref: string)
    requires HasPrefix(ref, SCHEMAS)
    ensures HasPrefix(Moved(p, ref), SCHEMAS)
    ensures TrimPrefix(Moved(p, ref), SCHEMAS) == KeyAfter(p, TrimPrefix(ref, SCHEMAS))
  {
    RefParts(p, ref);
    PrefixParts(SCHEMAS, p.from, ref);
    if HasPrefix(ref, OldRef(p)) {
      var x := TrimPrefix(ref, OldRef(p));
      assert Moved(p, ref) == SCHEMAS + (p.to + x);
      PrefixAdded(SCHEMAS, p.to + x);
    }
  }

  /**
   With no key under the new prefix beforehand, a reference that resolved resolves afterwards, in its rewritten form,
   to the rewritten form of the same schema; and one not under the new prefix that did not resolve still does not.
   */
  lemma ResolutionPreserved(p: Prefixes, spec: Fields, ref: string)
    requires Apart(p)
    requires forall k :: k in Schemas(spec) ==> !HasPrefix(k, p.to)
    ensures Resolve(spec, ref).Some? ==>
              Resolve(Rename(p, spec), Moved(p, ref)) == Some(RewrittenAt(p, Resolve(spec, ref).value))
    ensures !HasPrefix(ref, NewRef(p)) && Resolve(spec, ref).None? ==> Resolve(Rename(p, spec), Moved(p, ref)).None?
  {
    SchemasRenamed(p, spec);
    RefParts(p, ref);
    if HasPrefix(ref, SCHEMAS) {
      var key := TrimPrefix(ref, SCHEMAS);
      MovedRef(p, ref);
      RenamedLookup(p, Schemas(spec), key);
      if HasPrefix(key, p.from) && key !in Schemas(spec) {
        KeyAfterExact(p, key, KeyAfter(p, key));
        RenamedMissing(p, Schemas(spec), key);
      }
    }
  }

  /**
   With keys under the new prefix already there: a reference to such a key keeps its meaning exactly when no old key
   is renamed onto it, or when the two schemas have the same rewritten form.
   */
  lemma ResolutionUnderNewPrefix(p: Prefixes, spec: Fields, key: string)
    requires Apart(p) && HasPrefix(key, p.to) && key in Schemas(spec)
    ensures var ref := SCHEMAS + key; var before := Schemas(spec);
            Resolve(Rename(p, spec), Moved(p, ref)) == Some(RewrittenAt(p, before[key])) <==>
            (KeyBefore(p, key) in before ==> RewrittenAt(p, before[KeyBefore(p, key)]) == RewrittenAt(p, before[key]))
  {
    var ref := SCHEMAS + key;
    PrefixAdded(SCHEMAS, key);
    SchemasRenamed(p, spec);
    ApartNever(p, key);
    MovedRef(p, ref);
    RenamedLookup(p, Schemas(spec), key);
  }

  const ANY_SCHEMA: Node := VObj(map[])
  const STRING_SCHEMA: Node := VObj(map["type" := VStr("string")])

  function WithSchemas(table: Fields): Fields { map["components" := VObj(map["schemas" := VObj(table)])] }

  /** A document with the name under both prefixes: a reference to the one under the new prefix changes its meaning. */
  lemma RenamedOnto(p: Prefixes, name: string)
    requires Apart(p)
    ensures var spec := WithSchemas(map[p.from + name := ANY_SCHEMA, p.to + name := STRING_SCHEMA]);
            var ref := SCHEMAS + (p.to + name);
            && Resolve(spec, ref) == Some(STRING_SCHEMA) && Moved(p, ref) == ref
            && Resolve(Rename(p, spec), ref) == Some(ANY_SCHEMA) && RewrittenAt(p, STRING_SCHEMA) != ANY_SCHEMA
  {
    var key, ref := p.to + name, SCHEMAS + (p.to + name);
    var table: Fields := map[p.from + name := ANY_SCHEMA, key := STRING_SCHEMA];
    PrefixAdded(p.to, name);
    PrefixAdded(SCHEMAS, key);
    ApartNever(p, key);
    MovedRef(p, ref);
    assert "type" in RewrittenAt(p, STRING_SCHEMA).fields;
    SchemasRenamed(p, WithSchemas(table));
    RenamedLookup(p, table, key);
  }

  // ------------------------------------------------------------------ where things are

  datatype Turn = Into(name: string) | Item(index: nat)

  /** The node that a path leads to. */
  function At(v: Node, path: seq<Turn>): Option<Node>
    decreases |path|
  {
    if path == [] then Some(v)
    else match path[0]
      case Into(k) => if v.VObj? && k in v.fields then At(v.fields[k], path[1..]) else None
      case Item(i) => if v.VArr? && i < |v.items| then At(v.items[i], path[1..]) else None
  }

  /** Path by path, the rewriting walk changes exactly the strings that are members and begin with the old prefix. */
  lemma {:induction false} RewrittenPath(p: Prefixes, v: Node, path: seq<Turn>)
    ensures match At(v, path)
            case None => At(Rewritten(p, v), path).None?
            case Some(x) =>
              At(Rewritten(p, v), path) ==
              Some(if path != [] && path[|path| - 1].Into? then RewrittenAt(p, x) else Rewritten(p, x))
    decreases |path|
  {
    if path != [] {
      assert |path| > 1 ==> path[1..][|path| - 2] == path[|path| - 1];
      match path[0]
      case Into(k) =>
        if v.VObj? && k in v.fields { RewrittenPath(p, v.fields[k], path[1..]); }
      case Item(i) =>
        if v.VArr? && i < |v.items| { RewrittenPath(p, v.items[i], path[1..]); }
    }
  }

  // ------------------------------------------------------------------ discriminator mappings

  /** `discriminator.mapping` of an object, empty when absent or not an object. */
  function MappingOf(n: Fields): Fields {
    if "discriminator" in n && n["discriminator"].VObj? && "mapping" in n["discriminator"].fields &&
       n["discriminator"].fields["mapping"].VObj?
    then n["discriminator"].fields["mapping"].fields else map[]
  }

  /** A reference outside the schema table is not checked. */
  predicate Known(schemas: Fields, ref: string) {
    !HasPrefix(ref, SCHEMAS) || TrimPrefix(ref, SCHEMAS) in schemas
  }

  /** The mapping of some object at the path sends name `k` to string `s`. */
  ghost predicate Mapped(v: Node, path: seq<Turn>, k: string, s: string) {
    var x := At(v, path);
    x.Some? && x.value.VObj? && k in MappingOf(x.value.fields) && MappingOf(x.value.fields)[k] == VStr(s)
  }

  ghost predicate Dangling(schemas: Fields, v: Node, path: seq<Turn>, k: string, s: string) {
    Mapped(v, path, k, s) && !Known(schemas, s)
  }

  function Report(k: string, s: string): string { k + " -> " + s }

  /** Some dangling mapping anywhere below is reported by this line. */
  ghost predicate Reported(schemas: Fields, v: Node, line: string) {
    exists path, k, s :: Dangling(schemas, v, path, k, s) && line == Report(k, s)
  }

  ghost predicate ReportedHere(schemas: Fields, mapping: Fields, todo: set<string>, line: string) {
    exists k :: k in mapping && k !in todo && mapping[k].VStr? && !Known(schemas, mapping[k].text) &&
                line == Report(k, mapping[k].text)
  }

  ghost predicate ReportedBelow(schemas: Fields, m: Fields, todo: set<string>, line: string) {
    exists k :: k in m && k !in todo && Reported(schemas, m[k], line)
  }

  ghost predicate ReportedItem(schemas: Fields, items: seq<Node>, line: string) {
    exists i :: 0 <= i < |items| && Reported(schemas, items[i], line)
  }

  lemma ReportedFromHere(schemas: Fields, m: Fields, line: string)
    requires ReportedHere(schemas, MappingOf(m), {}, line)
    ensures Reported(schemas, VObj(m), line)
  {
    var mapping := MappingOf(m);
    var k :| k in mapping && mapping[k].VStr? && !Known(schemas, mapping[k].text) && line == Report(k, mapping[k].text);
    assert Dangling(schemas, VObj(m), [], k, mapping[k].text);
  }

  lemma ReportedFromChild(schemas: Fields, v: Node, turn: Turn, child: Node, line: string)
    requires At(v, [turn]) == Some(child) && Reported(schemas, child, line)
    ensures Reported(schemas, v, line)
  {
    var path: seq<Turn>, k: string, s: string :| Dangling(schemas, child, path, k, s) && line == Report(k, s);
    assert ([turn] + path)[1..] == path && [turn][1..] == [];
    assert Dangling(schemas, v, [turn] + path, k, s);
  }

  /** A line about an object comes from its own mapping or from a member. */
  lemma ReportedObject(schemas: Fields, m: Fields, line: string)
    ensures Reported(schemas, VObj(m), line) <==>
            ReportedHere(schemas, MappingOf(m), {}, line) || ReportedBelow(schemas, m, {}, line)
  {
    if ReportedHere(schemas, MappingOf(m), {}, line) { ReportedFromHere(schemas, m, line); }
    if ReportedBelow(schemas, m, {}, line) {
      var k :| k in m && Reported(schemas, m[k], line);
      assert [Into(k)][1..] == [];
      ReportedFromChild(schemas, VObj(m), Into(k), m[k], line);
    }
    if Reported(schemas, VObj(m), line) {
      var path: seq<Turn>, k: string, s: string :| Dangling(schemas, VObj(m), path, k, s) && line == Report(k, s);
      if path != [] {
        assert path[0].Into?;
        assert Dangling(schemas, m[path[0].name], path[1..], k, s);
      }
    }
  }

  lemma ReportedArray(schemas: Fields, items: seq<Node>, line: string)
    ensures Reported(schemas, VArr(items), line) <==> ReportedItem(schemas, items, line)
  {
    if ReportedItem(schemas, items, line) {
      var i :| 0 <= i < |items| && Reported(schemas, items[i], line);
      assert [Item(i)][1..] == [];
      ReportedFromChild(schemas, VArr(items), Item(i), items[i], line);
    }
    if Reported(schemas, VArr(items), line) {
      var path: seq<Turn>, k: string, s: string :| Dangling(schemas, VArr(items), path, k, s) && line == Report(k, s);
      assert path != [] && path[0].Item?;
      assert Dangling(schemas, items[path[0].index], path[1..], k, s);
    }
  }

  lemma ReportedLeaf(schemas: Fields, v: Node, line: string)
    requires !v.VObj? && !v.VArr?
    ensures !Reported(schemas, v, line)
  {
    forall path, k, s ensures !Dangling(schemas, v, path, k, s) {
      if path != [] { assert At(v, path).None?; }
    }
  }

  method CheckMapping(schemas: Fields, mapping: Fields, bad: seq<string>) returns (r: seq<string>)
    ensures forall line :: line in r <==> line in bad || ReportedHere(schemas, mapping, {}, line)
  {
    r := bad;
    var todo := mapping.Keys;
    while todo != {}
      invariant todo <= mapping.Keys
      invariant forall line :: line in r <==> line in bad || ReportedHere(schemas, mapping, todo, line)
      decreases todo
    {
      var k :| k in todo;
      var v := mapping[k];
      var left := todo - {k};
      if v.VStr? && !Known(schemas, v.text) { r := r + [Report(k, v.text)]; }
      forall line ensures line in r <==> line in bad || ReportedHere(schemas, mapping, left, line) {
        CheckNext(schemas, mapping, todo, k, line);
      }
      todo := left;
    }
  }

  lemma CheckNext(schemas: Fields, mapping: Fields, todo: set<string>, k: string, line: string)
    requires k in todo && k in mapping
    ensures ReportedHere(schemas, mapping, todo - {k}, line) <==>
            ReportedHere(schemas, mapping, todo, line) ||
            (mapping[k].VStr? && !Known(schemas, mapping[k].text) && line == Report(k, mapping[k].text))
  {}

  lemma BelowNext(schemas: Fields, m: Fields, todo: set<string>, k: string, line: string)
    requires k in todo && k in m
    ensures ReportedBelow(schemas, m, todo - {k}, line) <==>
            ReportedBelow(schemas, m, todo, line) || Reported(schemas, m[k], line)
  {}

  lemma ItemNext(schemas: Fields, items: seq<Node>, i: nat, line: string)
    requires i < |items|
    ensures ReportedItem(schemas, items[..i + 1], line) <==>
            ReportedItem(schemas, items[..i], line) || Reported(schemas, items[i], line)
  {
    var a, b := items[..i], items[..i + 1];
    assert forall j :: 0 <= j < i ==> b[j] == a[j];
    assert b[i] == items[i];
  }

  /** The recursive walk that accumulates `bad`, members in any order. */
  method Walk(schemas: Fields, node: Node, bad: seq<string>) returns (r: seq<string>)
    ensures forall line :: line in r <==> line in bad || Reported(schemas, node, line)
    decreases node, 1
  {
    r := bad;
    match node
    case VObj(m) =>
      r := CheckMapping(schemas, MappingOf(m), r);
      r := WalkMembers(schemas, node, r);
      forall line ensures line in r <==> line in bad || Reported(schemas, node, line) {
        ReportedObject(schemas, m, line);
      }
    case VArr(items) =>
      r := WalkItems(schemas, node, r);
      forall line ensures line in r <==> line in bad || Reported(schemas, node, line) {
        ReportedArray(schemas, items, line);
      }
    case _ =>
      forall line ensures !Reported(schemas, node, line) { ReportedLeaf(schemas, node, line); }
  }

  method WalkMembers(schemas: Fields, node: Node, bad: seq<string>) returns (r: seq<string>)
    requires node.VObj?
    ensures forall line :: line in r <==> line in bad || ReportedBelow(schemas, node.fields, {}, line)
    decreases node, 0
  {
    r := bad;
    var m, todo := node.fields, node.fields.Keys;
    while todo != {}
      invariant todo <= m.Keys
      invariant forall line :: line in r <==> line in bad || ReportedBelow(schemas, m, todo, line)
      decreases todo
    {
      var k :| k in todo;
      r := Walk(schemas, m[k], r);
      forall line ensures line in r <==> line in bad || ReportedBelow(schemas, m, todo - {k}, line) {
        BelowNext(schemas, m, todo, k, line);
      }
      todo := todo - {k};
    }
  }

  method WalkItems(schemas: Fields, node: Node, bad: seq<string>) returns (r: seq<string>)
    requires node.VArr?
    ensures forall line :: line in r <==> line in bad || ReportedItem(schemas, node.items, line)
    decreases node, 0
  {
    r := bad;
    var items := node.items;
    for i := 0 to |items|
      invariant forall line :: line in r <==> line in bad || ReportedItem(schemas, items[..i], line)
    {
      r := Walk(schemas, items[i], r);
      forall line ensures line in r <==> line in bad || ReportedItem(schemas, items[..i + 1], line) {
        ItemNext(schemas, items, i, line);
      }
    }
    assert items[..|items|] == items;
  }

  /** The check passes exactly when no mapping string at any path of the document dangles. */
  method ValidateSpecRefs(spec: Fields) returns (bad: seq<string>)
    ensures bad == [] <==> forall path, k, s :: Mapped(VObj(spec), path, k, s) ==> Known(Schemas(spec), s)
    ensures bad == [] <==>
            forall path, k, s :: Mapped(VObj(spec), path, k, s) && HasPrefix(s, SCHEMAS) ==> Resolve(spec, s).Some?
    ensures forall line :: line in bad <==> Reported(Schemas(spec), VObj(spec), line)
  {
    bad := Walk(Schemas(spec), VObj(spec), []);
    if bad == [] {
      forall path, k, s | Mapped(VObj(spec), path, k, s) ensures Known(Schemas(spec), s) {
        assert Dangling(Schemas(spec), VObj(spec), path, k, s) ==> Report(k, s) in bad;
      }
    } else {
      assert bad[0] in bad;
      ghost var path: seq<Turn>, k: string, s: string :|
        Dangling(Schemas(spec), VObj(spec), path, k, s) && bad[0] == Report(k, s);
      assert Mapped(VObj(spec), path, k, s);
    }
  }
}
