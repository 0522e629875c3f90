/** Renaming schema keys and rewriting the references to them in an OpenAPI document. */
module Refs {
  import opened Text
  import opened Amino
  import opened Tree

  const SCHEMAS := "#/components/schemas/"
  const OLD_PREFIX := "github_com_ryan-truong_kms-wrapper_pkg_types."
  const NEW_PREFIX := "kms-wrapper_pkg_types."

  /** The two key prefixes, each with its dot. */
  datatype Prefixes = Prefixes(from: string, to: string)

  /** Neither prefix begins with the other, and no schema prefix holds the colon of a URL. */
  predicate Apart(p: Prefixes) {
    !HasPrefix(p.from, p.to) && !HasPrefix(p.to, p.from) && ':' !in p.from
  }

  function OldRef(p: Prefixes): string { SCHEMAS + p.from }

  function NewRef(p: Prefixes): string { SCHEMAS + p.to }

  /** The reference after the rename. */
  function Moved(p: Prefixes, ref: string): string {
    if HasPrefix(ref, OldRef(p)) then NewRef(p) + TrimPrefix(ref, OldRef(p)) else ref
  }

  /** The key after the rename, and the key that a name under the new prefix comes from. */
  function KeyAfter(p: Prefixes, key: string): string {
    if HasPrefix(key, p.from) then p.to + TrimPrefix(key, p.from) else key
  }

  function KeyBefore(p: Prefixes, key: string): string
    requires HasPrefix(key, p.to)
  {
    p.from + TrimPrefix(key, p.to)
  }

  lemma TwoPrefixes(a: string, b: string, x: string)
    requires HasPrefix(x, a) && HasPrefix(x, b)
    ensures HasPrefix(a, b) || HasPrefix(b, a)
  {
    if |a| <= |b| {
      assert b[..|a|] == x[..|a|];
    } else {
      assert a[..|b|] == x[..|b|];
    }
  }

  lemma ApartNever(p: Prefixes, x: string)
    requires Apart(p)
    ensures !(HasPrefix(x, p.from) && HasPrefix(x, p.to))
  {
    if HasPrefix(x, p.from) && HasPrefix(x, p.to) { TwoPrefixes(p.from, p.to, x); }
  }

  lemma PrefixAdded(p: string, x: string)
    ensures HasPrefix(p + x, p) && TrimPrefix(p + x, p) == x
  {
    assert (p + x)[..|p|] == p && (p + x)[|p|..] == x;
  }

  lemma PrefixTrimmed(x: string, p: string)
    requires HasPrefix(x, p)
    ensures p + TrimPrefix(x, p) == x
  {}

  // ------------------------------------------------------------------ schema keys

  predicate Replaced(p: Prefixes, m: Fields, todo: set<string>, key: string) {
    HasPrefix(key, p.to) && KeyBefore(p, key) in m && KeyBefore(p, key) !in todo
  }

  predicate Remains(p: Prefixes, m: Fields, todo: set<string>, key: string) {
    key in m && (HasPrefix(key, p.from) ==> key in todo)
  }

  /** The table when the old keys outside `todo` have been moved. A moved entry replaces one already there. */
  function RenamedKeys(p: Prefixes, m: Fields, todo: set<string>): set<string> {
    (set k | k in m && (HasPrefix(k, p.from) ==> k in todo)) +
    (set k | k in m && HasPrefix(k, p.from) && k !in todo :: KeyAfter(p, k))
  }

  lemma RenamedKeysExact(p: Prefixes, m: Fields, todo: set<string>, key: string)
    ensures key in RenamedKeys(p, m, todo) <==> Remains(p, m, todo, key) || Replaced(p, m, todo, key)
  {
    if Replaced(p, m, todo, key) {
      var k := KeyBefore(p, key);
      PrefixAdded(p.from, TrimPrefix(key, p.to));
      PrefixTrimmed(key, p.to);
      assert KeyAfter(p, k) == key;
    }
    if key in RenamedKeys(p, m, todo) && !Remains(p, m, todo, key) {
      var k :| k in m && HasPrefix(k, p.from) && k !in todo && key == KeyAfter(p, k);
      PrefixAdded(p.to, TrimPrefix(k, p.from));
      PrefixTrimmed(k, p.from);
    }
  }

  function RenamedSoFar(p: Prefixes, m: Fields, todo: set<string>): Fields {
    map k | k in RenamedKeys(p, m, todo) ::
      RenamedKeysExact(p, m, todo, k); if Replaced(p, m, todo, k) then m[KeyBefore(p, k)] else m[k]
  }

  function RenameKeys(p: Prefixes, m: Fields): Fields { RenamedSoFar(p, m, {}) }

  /** Moving one more key. */
  lemma RenameNext(p: Prefixes, m: Fields, todo: set<string>, key: string)
    requires Apart(p) && key in todo && key in m && HasPrefix(key, p.from)
    ensures key in RenamedSoFar(p, m, todo) && RenamedSoFar(p, m, todo)[key] == m[key]
    ensures RenamedSoFar(p, m, todo - {key}) == RenamedSoFar(p, m, todo)[KeyAfter(p, key) := m[key]] - {key}
  {
    ApartNever(p, key);
    RenamedKeysExact(p, m, todo, key);
    var now, next := RenamedSoFar(p, m, todo), RenamedSoFar(p, m, todo - {key});
    var made := now[KeyAfter(p, key) := m[key]] - {key};
    forall k ensures k in next <==> k in made
             ensures k in next && k in made ==> next[k] == made[k]
    {
      RenameNextAt(p, m, todo, key, k);
    }
  }

  lemma RenameNextAt(p: Prefixes, m: Fields, todo: set<string>, key: string, k: string)
    requires Apart(p) && key in todo && key in m && HasPrefix(key, p.from)
    ensures var now, next := RenamedSoFar(p, m, todo), RenamedSoFar(p, m, todo - {key});
            && (k in next <==> k != key && (k in now || k == KeyAfter(p, key)))
            && (k in next ==> next[k] == if k == KeyAfter(p, key) then m[key] else if k in now then now[k] else m[key])
  {
    ApartNever(p, k);
    RenamedKeysExact(p, m, todo, k);
    RenamedKeysExact(p, m, todo - {key}, k);
    KeyAfterExact(p, key, k);
  }

  lemma KeyAfterExact(p: Prefixes, key: string, k: string)
    requires Apart(p) && HasPrefix(key, p.from)
    ensures k == KeyAfter(p, key) <==> HasPrefix(k, p.to) && KeyBefore(p, k) == key
    ensures KeyAfter(p, key) != key
  {
    var x := TrimPrefix(key, p.from);
    PrefixTrimmed(key, p.from);
    PrefixAdded(p.to, x);
    ApartNever(p, key);
    if HasPrefix(k, p.to) {
      PrefixTrimmed(k, p.to);
      PrefixAdded(p.from, TrimPrefix(k, p.to));
    }
  }

  /** Keys not under the old prefix: nothing moves. */
  lemma VisitOther(p: Prefixes, m: Fields, todo: set<string>, key: string)
    requires !HasPrefix(key, p.from)
    ensures RenamedSoFar(p, m, todo - {key}) == RenamedSoFar(p, m, todo)
  {
    forall k ensures k in RenamedKeys(p, m, todo - {key}) <==> k in RenamedKeys(p, m, todo)
             ensures Replaced(p, m, todo - {key}, k) == Replaced(p, m, todo, k)
    {
      RenamedKeysExact(p, m, todo, k);
      RenamedKeysExact(p, m, todo - {key}, k);
      if HasPrefix(k, p.to) { PrefixAdded(p.from, TrimPrefix(k, p.to)); }
    }
  }

  lemma RenameStarts(p: Prefixes, m: Fields)
    ensures RenamedSoFar(p, m, m.Keys) == m
  {
    forall k ensures k in RenamedKeys(p, m, m.Keys) <==> k in m
             ensures !Replaced(p, m, m.Keys, k)
    {
      RenamedKeysExact(p, m, m.Keys, k);
    }
  }

  function OldOnes(p: Prefixes, keys: set<string>): set<string> { set k | k in keys && HasPrefix(k, p.from) }

  /**
   The renaming loop. Keys come in any order, and a key added during the loop may or may not come up later; the
   outcome is the same.
   */
  method RenameSchemaKeys(p: Prefixes, m: Fields) returns (r: Fields)
    requires Apart(p)
    ensures r == RenameKeys(p, m)
  {
    r := m;
    var todo := m.Keys;
    RenameStarts(p, m);
    while todo != {}
      invariant r == RenamedSoFar(p, m, todo)
      invariant forall k :: k in todo && HasPrefix(k, p.from) ==> k in m
      decreases OldOnes(p, todo), todo
    {
      var key :| key in todo;
      ghost var before := todo;
      if HasPrefix(key, p.from) {
        RenameNext(p, m, todo, key);
        var added := KeyAfter(p, key);
        r := r[added := r[key]] - {key};
        todo := todo - {key};
        PrefixAdded(p.to, TrimPrefix(key, p.from));
        ApartNever(p, added);
        assert key !in todo;
        if * {
          VisitOther(p, m, todo + {added}, added);
          assert todo + {added} - {added} == todo - {added};
          VisitOther(p, m, todo, added);
          todo := todo + {added};
        }
        assert OldOnes(p, todo) == OldOnes(p, before) - {key};
        assert key in OldOnes(p, before);
      } else {
        VisitOther(p, m, todo, key);
        todo := todo - {key};
        assert OldOnes(p, todo) == OldOnes(p, before);
      }
    }
  }

  // ------------------------------------------------------------------ references

  /** The tree with every member string under the old prefix rewritten. Strings that are items of arrays stay. */
  function Rewritten(p: Prefixes, v: Node): (r: Node)
    ensures r.VObj? <==> v.VObj?
    ensures r.VStr? <==> v.VStr?
    ensures r.VArr? <==> v.VArr?
    decreases v, 0
  {
    match v
    case VObj(m) => VObj(map k | k in m :: RewrittenAt(p, m[k]))
    case VArr(items) => VArr(seq(|items|, i requires 0 <= i < |items| => Rewritten(p, items[i])))
    case _ => v
  }

  /** The same for a value that is a member. */
  function RewrittenAt(p: Prefixes, v: Node): (r: Node)
    ensures r.VObj? <==> v.VObj?
    ensures r.VStr? <==> v.VStr?
    ensures r.VArr? <==> v.VArr?
    decreases v, 1
  {
    if v.VStr? then VStr(Moved(p, v.text)) else Rewritten(p, v)
  }

  function RewrittenFields(p: Prefixes, m: Fields): (r: Fields)
    ensures r.Keys == m.Keys
    ensures forall k :: k in m ==> r[k] == RewrittenAt(p, m[k])
  {
    Rewritten(p, VObj(m)).fields
  }

  /** The recursive rewriting walk, members in any order. */
  method RewriteRefs(p: Prefixes, node: Node) returns (r: Node)
    ensures r == Rewritten(p, node)
    decreases node
  {
    r := node;
    match node
    case VObj(m) =>
      var cur, todo := m, m.Keys;
      while todo != {}
        invariant todo <= m.Keys == cur.Keys
        invariant forall k :: k in m ==> cur[k] == if k in todo then m[k] else RewrittenAt(p, m[k])
        decreases todo
      {
        var k :| k in todo;
        var v := cur[k];
        if v.VStr? && HasPrefix(v.text, OldRef(p)) {
          cur := cur[k := VStr(NewRef(p) + TrimPrefix(v.text, OldRef(p)))];
        } else {
          var child := RewriteRefs(p, v);
          cur := cur[k := child];
        }
        todo := todo - {k};
      }
      assert cur == Rewritten(p, node).fields;
      r := VObj(cur);
    case VArr(items) =>
      var done: seq<Node> := [];
      while |done| < |items|
        invariant |done| <= |items|
        invariant forall i :: 0 <= i < |done| ==> done[i] == Rewritten(p, items[i])
      {
        var child := RewriteRefs(p, items[|done|]);
        done := done + [child];
      }
      r := VArr(done);
    case _ =>
  }
}
