/** The closed set of signing chains and the canonical allow-lists built from it. */
module Chains {
  import opened Text

  const EVM: string := "evm"
  const COSMOS: string := "cosmos"

  datatype Parse = Parsed(chains: seq<string>) | Rejected

  predicate Known(c: string) { c == EVM || c == COSMOS }

  function Normalise(raw: string): string { ToLower(TrimSpace(raw)) }

  /** Sorted, free of duplicates and within the closed set. */
  predicate Canonical(cs: seq<string>) {
    Ascending(cs) && forall c :: c in cs ==> Known(c)
  }

  function Elements(cs: seq<string>): set<string> { set c | c in cs }

  function Normalised(raw: seq<string>): set<string> { set r | r in raw :: Normalise(r) }

  /** The one canonical list with the given known members. */
  function Canon(members: set<string>): seq<string> {
    (if COSMOS in members then [COSMOS] else []) + (if EVM in members then [EVM] else [])
  }

  /** What `ParseChains` computes: a rejection, or the canonical list of the normalised members. */
  function ParseSpec(raw: seq<string>): Parse {
    if raw != [] && forall r :: r in raw ==> Known(Normalise(r))
    then Parsed(Canon(Normalised(raw)))
    else Rejected
  }

  lemma KnownIsNormal(c: string)
    requires Known(c)
    ensures Normalise(c) == c
    ensures c != "" && ',' !in c
  {
    assert TrimLeft(c) == c;
    assert TrimRight(c) == c;
    assert ToLower(c) == c;
  }

  // ------------------------------------------------------------------ spellings, character by character

  /** The word, each letter small or capital. */
  predicate Cased(w: string, c: string) {
    |w| == |c| && forall i :: 0 <= i < |c| ==> w[i] == c[i] || ('a' <= c[i] <= 'z' && w[i] as int == c[i] as int - 32)
  }

  /** A spelling of the name: in any case, with blanks on either side. */
  ghost predicate Spells(raw: string, c: string) {
    exists l, w, r :: Blank(l) && Cased(w, c) && Blank(r) && raw == l + w + r
  }

  lemma CasedLowers(w: string, c: string)
    requires Known(c)
    ensures Cased(w, c) <==> ToLower(w) == c
  {
    if Cased(w, c) { assert ToLower(w) == c; }
    if ToLower(w) == c {
      forall i | 0 <= i < |c| ensures w[i] == c[i] || ('a' <= c[i] <= 'z' && w[i] as int == c[i] as int - 32) {
        assert ToLower(w)[i] == c[i] == LowerChar(w[i]);
      }
    }
  }

  lemma CasedInked(w: string, c: string)
    requires Known(c) && Cased(w, c)
    ensures w != "" && !IsSpace(w[0]) && !IsSpace(w[|w| - 1])
  {
    assert w[0] == c[0] || w[0] as int == c[0] as int - 32;
    assert w[|c| - 1] == c[|c| - 1] || w[|c| - 1] as int == c[|c| - 1] as int - 32;
  }

  /** Normalising leads to a name from its spellings and from nothing else. */
  lemma NormaliseExact(raw: string, c: string)
    requires Known(c)
    ensures Normalise(raw) == c <==> Spells(raw, c)
  {
    if Normalise(raw) == c {
      var l, r := TrimSpaceParts(raw);
      CasedLowers(TrimSpace(raw), c);
      assert Blank(l) && Cased(TrimSpace(raw), c) && Blank(r);
    }
    if Spells(raw, c) {
      var l, w, r :| Blank(l) && Cased(w, c) && Blank(r) && raw == l + w + r;
      CasedInked(w, c);
      TrimSpaceExact(l, w, r);
      CasedLowers(w, c);
    }
  }

  /** The text spells some known name. */
  ghost predicate SpellsKnown(raw: string) { Spells(raw, EVM) || Spells(raw, COSMOS) }

  /**
   Parsing, character by character: it accepts exactly the non-empty lists of spellings of known names, and answers
   with the canonical list of the names that are spelled.
   */
  lemma ParseExact(raw: seq<string>)
    ensures ParseSpec(raw).Parsed? <==> raw != [] && forall r :: r in raw ==> SpellsKnown(r)
    ensures ParseSpec(raw).Parsed? ==>
              var chains := ParseSpec(raw).chains;
              && Canonical(chains)
              && forall c :: c in chains <==> Known(c) && exists r :: r in raw && Spells(r, c)
  {
    forall r ensures Known(Normalise(r)) <==> SpellsKnown(r) {
      NormaliseExact(r, EVM);
      NormaliseExact(r, COSMOS);
    }
    if ParseSpec(raw).Parsed? {
      var chains := ParseSpec(raw).chains;
      CanonIsCanonical(Normalised(raw));
      forall c ensures c in chains <==> Known(c) && exists r :: r in raw && Spells(r, c) { ListedExact(raw, c); }
    }
  }

  lemma ListedExact(raw: seq<string>, c: string)
    requires ParseSpec(raw).Parsed?
    ensures c in ParseSpec(raw).chains <==> Known(c) && exists r :: r in raw && Spells(r, c)
  {
    CanonIsCanonical(Normalised(raw));
    assert c in ParseSpec(raw).chains <==> c in Elements(ParseSpec(raw).chains);
    if Known(c) {
      forall r ensures Normalise(r) == c <==> Spells(r, c) { NormaliseExact(r, c); }
    }
  }

  lemma CanonIsCanonical(members: set<string>)
    ensures Canonical(Canon(members))
    ensures Elements(Canon(members)) == members * {EVM, COSMOS}
  {
    assert Less(COSMOS, EVM);
  }

  lemma NoThree(a: string, b: string, c: string)
    requires Known(a) && Known(b) && Known(c)
    ensures !(Less(a, b) && Less(b, c))
  {
    LessTotal(COSMOS, EVM);
    LessTotal(EVM, EVM);
    LessTotal(COSMOS, COSMOS);
    assert Less(COSMOS, EVM);
  }

  /** A canonical list is determined by its members. */
  lemma CanonicalIsCanon(cs: seq<string>)
    requires Canonical(cs)
    ensures cs == Canon(Elements(cs))
  {
    assert Less(COSMOS, EVM);
    assert !Less(EVM, COSMOS) && !Less(EVM, EVM) && !Less(COSMOS, COSMOS) by {
      LessTotal(COSMOS, EVM);
      LessTotal(EVM, EVM);
      LessTotal(COSMOS, COSMOS);
    }
    if |cs| >= 1 { assert cs[0] in cs; }
    if |cs| >= 2 { assert cs[1] in cs; }
    assert |cs| <= 2 by { if |cs| > 2 { NoThree(cs[0], cs[1], cs[2]); } }
    if |cs| == 1 { assert cs == [cs[0]]; }
    if |cs| == 2 { assert cs == [cs[0], cs[1]]; }
  }

  lemma CanonicalParses(cs: seq<string>)
    requires Canonical(cs)
    ensures ParseSpec(cs) == if cs == [] then Rejected else Parsed(cs)
  {
    forall c | c in cs ensures Known(Normalise(c)) && Normalise(c) == c { KnownIsNormal(c); }
    assert Normalised(cs) == Elements(cs);
    CanonicalIsCanon(cs);
  }

  /** Success gives a non-empty canonical list, and parsing that list again changes nothing. */
  lemma ParseIdempotent(raw: seq<string>)
    requires ParseSpec(raw).Parsed?
    ensures Canonical(ParseSpec(raw).chains) && ParseSpec(raw).chains != []
    ensures ParseSpec(ParseSpec(raw).chains) == ParseSpec(raw)
  {
    CanonIsCanonical(Normalised(raw));
    var c := Normalise(raw[0]);
    assert c in Normalised(raw) && Known(c);
    CanonicalParses(Canon(Normalised(raw)));
  }

  /** Order, repetition, case and surrounding blanks do not matter. */
  lemma ParseOrderInsensitive(a: seq<string>, b: seq<string>)
    requires Normalised(a) == Normalised(b)
    ensures ParseSpec(a) == ParseSpec(b)
  {
    if a != [] { assert Normalise(a[0]) in Normalised(a); }
    if b != [] { assert Normalise(b[0]) in Normalised(b); }
    assert (forall r :: r in a ==> Known(Normalise(r))) <==> (forall c :: c in Normalised(a) ==> Known(c));
    assert (forall r :: r in b ==> Known(Normalise(r))) <==> (forall c :: c in Normalised(b) ==> Known(c));
  }

  lemma PermutationParsesAlike(a: seq<string>, b: seq<string>)
    requires multiset(a) == multiset(b)
    ensures ParseSpec(a) == ParseSpec(b)
  {
    forall c ensures c in a <==> c in b {
      assert c in a <==> c in multiset(a);
      assert c in b <==> c in multiset(b);
    }
    ParseOrderInsensitive(a, b);
  }

  /** Parsing a concatenation is the canonical union; it fails exactly when a part holds an unknown member. */
  lemma ParseConcat(a: seq<string>, b: seq<string>)
    ensures ParseSpec(a + b).Parsed? <==>
              (a + b != [] && (a == [] || ParseSpec(a).Parsed?) && (b == [] || ParseSpec(b).Parsed?))
    ensures ParseSpec(a).Parsed? && ParseSpec(b).Parsed? ==>
              ParseSpec(a + b) == Parsed(Canon(Elements(ParseSpec(a).chains) + Elements(ParseSpec(b).chains)))
    ensures a == [] ==> ParseSpec(a + b) == ParseSpec(b)
    ensures b == [] ==> ParseSpec(a + b) == ParseSpec(a)
  {
    assert forall r :: r in a + b <==> r in a || r in b;
    assert Normalised(a + b) == Normalised(a) + Normalised(b);
    CanonIsCanonical(Normalised(a));
    CanonIsCanonical(Normalised(b));
    if a == [] { assert a + b == b; }
    if b == [] { assert a + b == a; }
  }

  /** A canonical non-empty list survives the comma join of the client and the comma split of the plugin. */
  lemma WireRoundTrip(cs: seq<string>)
    requires Canonical(cs) && cs != []
    ensures Split(Join(cs, ','), ',') == cs
    ensures ParseSpec(Split(Join(cs, ','), ',')) == Parsed(cs)
  {
    forall c | c in cs ensures ',' !in c { KnownIsNormal(c); }
    SplitJoin(cs, ',');
    CanonicalParses(cs);
  }

  /** On canonical lists multiset equality, set equality and equality coincide. */
  lemma CanonicalSameSet(a: seq<string>, b: seq<string>)
    requires Canonical(a) && Canonical(b)
    ensures multiset(a) == multiset(b) <==> a == b
    ensures Elements(a) == Elements(b) <==> a == b
  {
    if Elements(a) == Elements(b) {
      CanonicalIsCanon(a);
      CanonicalIsCanon(b);
    }
    if multiset(a) == multiset(b) { SameMultisetSameElements(a, b); }
  }

  /** Appending a canonical list to another and parsing again gives their canonical union. */
  lemma MergeIsUnion(old_: seq<string>, added: seq<string>)
    requires Canonical(old_) && Canonical(added) && added != []
    ensures ParseSpec(old_ + added).Parsed?
    ensures var merged := ParseSpec(old_ + added).chains;
            && Canonical(merged) && merged != []
            && Elements(merged) == Elements(old_) + Elements(added)
            && (multiset(old_) == multiset(merged) <==> old_ == merged)
  {
    var all := old_ + added;
    var union := Elements(old_) + Elements(added);
    forall c | c in all ensures Known(c) && Normalise(c) == c { KnownIsNormal(c); }
    assert Normalised(all) == union;
    CanonIsCanonical(union);
    assert union * {EVM, COSMOS} == union;
    CanonicalSameSet(old_, Canon(union));
    assert added[0] in union;
  }

  // ------------------------------------------------------------------ the loops of the source

  /** `sort.Slice` on strings, as an insertion sort. */
  method SortStrings(xs: seq<string>) returns (out: seq<string>)
    ensures multiset(out) == multiset(xs)
    ensures forall i, j :: 0 <= i < j < |out| ==> !Less(out[j], out[i])
  {
    out := [];
    for n := 0 to |xs|
      invariant multiset(out) == multiset(xs[..n])
      invariant forall i, j :: 0 <= i < j < |out| ==> !Less(out[j], out[i])
    {
      out := Insert(out, xs[n]);
      assert xs[..n + 1] == xs[..n] + [xs[n]];
    }
    assert xs[..|xs|] == xs;
  }

  method Insert(sorted: seq<string>, x: string) returns (out: seq<string>)
    requires forall i, j :: 0 <= i < j < |sorted| ==> !Less(sorted[j], sorted[i])
    ensures multiset(out) == multiset(sorted) + multiset{x}
    ensures forall i, j :: 0 <= i < j < |out| ==> !Less(out[j], out[i])
  {
    var k := 0;
    while k < |sorted| && Less(sorted[k], x)
      invariant 0 <= k <= |sorted|
      invariant forall i :: 0 <= i < k ==> Less(sorted[i], x)
    {
      k := k + 1;
    }
    out := sorted[..k] + [x] + sorted[k..];
    assert sorted == sorted[..k] + sorted[k..];
    InsertSorted(sorted, x, k);
  }

  lemma InsertSorted(sorted: seq<string>, x: string, k: nat)
    requires forall i, j :: 0 <= i < j < |sorted| ==> !Less(sorted[j], sorted[i])
    requires k <= |sorted| && (forall i :: 0 <= i < k ==> Less(sorted[i], x)) && (k < |sorted| ==> !Less(sorted[k], x))
    ensures var out := sorted[..k] + [x] + sorted[k..]; forall i, j :: 0 <= i < j < |out| ==> !Less(out[j], out[i])
  {
    forall i | 0 <= i < k ensures !Less(x, sorted[i]) { LessTotal(x, sorted[i]); }
    forall i | k <= i < |sorted| ensures !Less(sorted[i], x) {
      if Less(sorted[i], x) && k < i {
        LessTotal(sorted[k], sorted[i]);
        if Less(sorted[k], sorted[i]) { LessTransitive(sorted[k], sorted[i], x); }
      }
    }
  }

  /** Elements in any order, sorted: the canonical list. */
  lemma SortedSetIsCanon(out: seq<string>, members: set<string>)
    requires members <= {EVM, COSMOS}
    requires Elements(out) == members && |out| == |members|
    requires forall i, j :: 0 <= i < j < |out| ==> !Less(out[j], out[i])
    ensures out == Canon(members)
  {
    assert Less(COSMOS, EVM);
    forall c ensures c in out <==> c in members {
      assert c in out <==> c in Elements(out);
    }
    if EVM in members && COSMOS in members {
      assert members == {EVM, COSMOS};
      assert out == [out[0], out[1]];
      assert out[0] in out && out[1] in out;
      assert COSMOS in [out[0], out[1]] && EVM in [out[0], out[1]];
    } else if EVM in members {
      assert members == {EVM};
      assert out == [out[0]];
    } else if COSMOS in members {
      assert members == {COSMOS};
      assert out == [out[0]];
    } else {
      assert members == {};
    }
  }

  /** Lists a set in the arbitrary order of a Go map iteration, then sorts it. */
  method SortedMembers(seen: set<string>) returns (sorted: seq<string>)
    requires seen <= {EVM, COSMOS}
    ensures sorted == Canon(seen)
  {
    var out: seq<string> := [];
    var todo := seen;
    while todo != {}
      invariant todo <= seen
      invariant Elements(out) == seen - todo
      invariant |out| == |seen| - |todo|
      decreases todo
    {
      var c :| c in todo;
      todo := todo - {c};
      assert Elements(out + [c]) == Elements(out) + {c};
      out := out + [c];
    }
    sorted := SortStrings(out);
    SameMultisetSameElements(sorted, out);
    SortedSetIsCanon(sorted, seen);
  }

  lemma SameMultisetSameElements(a: seq<string>, b: seq<string>)
    requires multiset(a) == multiset(b)
    ensures Elements(a) == Elements(b) && |a| == |b|
  {
    forall c ensures c in a <==> c in b {
      assert c in a <==> c in multiset(a);
      assert c in b <==> c in multiset(b);
    }
    assert |multiset(a)| == |a| && |multiset(b)| == |b|;
  }

  /** One more raw name, normalised, joins the set of names seen. */
  lemma NormalisedNext(raw: seq<string>, i: nat)
    requires i < |raw|
    ensures Normalised(raw[..i + 1]) == Normalised(raw[..i]) + {Normalise(raw[i])}
    ensures forall x :: x in raw[..i + 1] <==> x in raw[..i] || x == raw[i]
  {
    assert raw[..i + 1] == raw[..i] + [raw[i]];
  }

  method ParseChains(raw: seq<string>) returns (r: Parse)
    ensures r == ParseSpec(raw)
  {
    var seen: set<string> := {};
    for i := 0 to |raw|
      invariant seen == Normalised(raw[..i])
      invariant forall x :: x in raw[..i] ==> Known(Normalise(x))
    {
      var c := Normalise(raw[i]);
      NormalisedNext(raw, i);
      if c == EVM || c == COSMOS {
        seen := seen + {c};
      } else {
        assert raw[i] in raw;
        return Rejected;
      }
    }
    assert raw[..|raw|] == raw;
    assert raw != [] ==> Normalise(raw[0]) in seen;
    if |seen| == 0 {
      return Rejected;
    }
    var sorted := SortedMembers(seen);
    r := Parsed(sorted);
  }

  method ChainsContain(chains: seq<string>, c: string) returns (found: bool)
    ensures found <==> c in chains
  {
    for i := 0 to |chains|
      invariant c !in chains[..i]
    {
      if chains[i] == c { return true; }
    }
    return false;
  }

  /** How often `c` occurs in the first `i` names. */
  ghost function Count(xs: seq<string>, i: nat, c: string): nat
    requires i <= |xs|
  {
    multiset(xs[..i])[c]
  }

  lemma CountNext(xs: seq<string>, i: nat, c: string)
    requires i < |xs|
    ensures Count(xs, i + 1, c) == Count(xs, i, c) + (if xs[i] == c then 1 else 0)
    ensures Count(xs, i + 1, c) <= Count(xs, |xs|, c)
    ensures Count(xs, 0, c) == 0
  {
    assert xs[..i + 1] == xs[..i] + [xs[i]];
    assert xs[..|xs|] == xs[..i + 1] + xs[i + 1..];
  }

  lemma CountsDecide(a: seq<string>, b: seq<string>)
    ensures multiset(a) == multiset(b) <==> forall c :: Count(a, |a|, c) == Count(b, |b|, c)
  {
    assert a[..|a|] == a && b[..|b|] == b;
    if forall c :: Count(a, |a|, c) == Count(b, |b|, c) {
      forall c ensures multiset(a)[c] == multiset(b)[c] {
        assert Count(a, |a|, c) == Count(b, |b|, c);
      }
    }
  }

  method CountNames(a: seq<string>) returns (counts: map<string, int>)
    ensures forall c :: c in counts <==> Count(a, |a|, c) > 0
    ensures forall c :: c in counts ==> counts[c] == Count(a, |a|, c)
  {
    counts := map[];
    for i := 0 to |a|
      invariant forall c :: c in counts <==> Count(a, i, c) > 0
      invariant forall c :: c in counts ==> counts[c] == Count(a, i, c)
    {
      forall c ensures Count(a, i + 1, c) == Count(a, i, c) + (if a[i] == c then 1 else 0) {
        CountNext(a, i, c);
      }
      counts := counts[a[i] := (if a[i] in counts then counts[a[i]] else 0) + 1];
    }
  }

  /** The counting loops of `sameChainSet` decide multiset equality. */
  method SameChainSet(a: seq<string>, b: seq<string>) returns (same: bool)
    ensures same <==> multiset(a) == multiset(b)
  {
    CountsDecide(a, b);
    if |a| != |b| {
      assert |multiset(a)| == |a| && |multiset(b)| == |b|;
      return false;
    }
    var counts := CountNames(a);
    for i := 0 to |b|
      invariant forall c :: Count(b, i, c) <= Count(a, |a|, c)
      invariant forall c :: c in counts <==> Count(a, |a|, c) > Count(b, i, c)
      invariant forall c :: c in counts ==> counts[c] == Count(a, |a|, c) - Count(b, i, c)
    {
      forall c ensures Count(b, i + 1, c) == Count(b, i, c) + (if b[i] == c then 1 else 0) {
        CountNext(b, i, c);
      }
      if b[i] !in counts {
        CountNext(b, i, b[i]);
        return false;
      }
      var n := counts[b[i]];
      if n == 1 {
        counts := counts - {b[i]};
      } else {
        counts := counts[b[i] := n - 1];
      }
    }
    if |counts| == 0 { return true; }
    assert counts != map[];
    var c :| c in counts;
    return false;
  }
}
