/**
 The Vault plugin's handlers, one call at a time.

 A handler is specified by a function of the request, of what the outside world answers during the
 call (`Env`: whether storage works, which key is generated, what time it is) and of the store.
 Class `Backend` holds the handlers in the form of the source and is proved against those functions.
 */
module Plugin {
  import opened Text
  import opened Bytes
  import opened Chains
  import opened Locking
  import KeyPath

  /** The cryptographic library, as total functions. */
  datatype Crypto = Crypto(
    publicKey: Bytes -> Bytes,               // private key to 33-byte compressed public key
    address: Bytes -> string,                // private key to EVM address
    sign: (Bytes, Bytes) -> Option<Bytes>,   // private key and digest to r || s || v
    decompress: Bytes -> Option<Bytes>,      // 33-byte form to 65-byte form
    compress: Bytes -> Option<Bytes>,        // 65-byte form to 33-byte form
    recover: (Bytes, Bytes) -> Option<Bytes> // digest and r || s || v to 65-byte public key
  )

  datatype KeyEntry = KeyEntry(
    privateKey: Bytes,
    compressedPubKey: Bytes,
    evmAddress: string,
    chains: seq<string>,
    source: string,
    createdAt: int,
    importedAt: Option<int>
  )

  type Store = map<string, KeyEntry>

  /** A chain-list field after the framework's field parsing. */
  datatype ChainField = Absent | CommaList(text: string) | Items(items: seq<string>) | Malformed

  datatype Request =
    | Create(name: string, chains: ChainField)
    | Update(name: string, otherFields: bool, add: ChainField)

  datatype Fresh = Fresh(privateKey: Bytes, now: int)

  /** Answers of the outside world to one call. */
  datatype Env = Env(loads: bool, made: Option<Fresh>, stores: bool)

  /** The public-safe view of an entry. */
  datatype KeyInfo = KeyInfo(
    compressedPubKey: Bytes,
    evmAddress: string,
    chains: seq<string>,
    source: string,
    createdAt: int,
    importedAt: Option<int>
  )

  datatype Response =
    | NameRequired
    | BadName(why: KeyPath.Check)
    | OnlyAddChains
    | BadChains
    | StorageFailure
    | GenerateFailure
    | Mismatch
    | NotFound
    | Info(info: KeyInfo)
    | Updated(name: string, chains: seq<string>)

  function View(e: KeyEntry): KeyInfo {
    KeyInfo(e.compressedPubKey, e.evmAddress, e.chains, e.source, e.createdAt, e.importedAt)
  }

  function NewEntry(c: Crypto, f: Fresh, chains: seq<string>): KeyEntry {
    KeyEntry(f.privateKey, c.publicKey(f.privateKey), c.address(f.privateKey), chains, "generated", f.now, None)
  }

  function FieldNames(f: ChainField): Option<seq<string>> {
    match f
    case CommaList(text) => Some(Split(text, ','))
    case Items(items) => Some(items)
    case _ => None
  }

  function Field(req: Request): ChainField {
    if req.Create? then req.chains else req.add
  }

  /** The parsed chain list of a request. */
  function Asked(req: Request): Parse {
    match FieldNames(Field(req))
    case Some(names) => ParseSpec(names)
    case None => Rejected
  }

  function NameProblem(name: string): Option<Response> {
    if name == "" then Some(NameRequired)
    else if KeyPath.Validate(name).Valid? then None
    else Some(BadName(KeyPath.Validate(name)))
  }

  /** The answer given before the key's lock is taken, if any. */
  function Screen(req: Request): Option<Response> {
    if req.Create? then NameProblem(req.name)
    else if req.otherFields || req.add.Absent? then Some(OnlyAddChains)
    else if NameProblem(req.name).Some? then NameProblem(req.name)
    else if Asked(req).Rejected? then Some(BadChains)
    else None
  }

  /** What a call does with the entry it loaded. */
  function Decide(
    c: Crypto, req: Request, asked: seq<string>, loaded: Option<KeyEntry>, made: Option<Fresh>)
    : Decision<KeyEntry, Response>
  {
    if req.Create? then
      match loaded
      case Some(e) =>
        if e.chains == [] then Put(e.(chains := asked), Info(View(e.(chains := asked))))
        else if multiset(e.chains) != multiset(asked) then Answer(Mismatch)
        else Answer(Info(View(e)))
      case None =>
        match made
        case None => Answer(GenerateFailure)
        case Some(f) => Put(NewEntry(c, f, asked), Info(View(NewEntry(c, f, asked))))
    else
      match loaded
      case None => Answer(NotFound)
      case Some(e) =>
        match ParseSpec(e.chains + asked)
        case Rejected => Answer(BadChains)
        case Parsed(merged) =>
          if multiset(e.chains) == multiset(merged) then Answer(Updated(req.name, merged))
          else Put(e.(chains := merged), Updated(req.name, merged))
  }

  /** A whole call, run alone: its response and the store it leaves. */
  function Exec(c: Crypto, req: Request, env: Env, store: Store): (Response, Store) {
    match Screen(req)
    case Some(r) => (r, store)
    case None =>
      match Asked(req)
      case Rejected => (BadChains, store)
      case Parsed(asked) =>
        if !env.loads then (StorageFailure, store)
        else
          match Decide(c, req, asked, Find(store, req.name), env.made)
          case Answer(r) => (r, store)
          case Put(e, r) => if env.stores then (r, store[req.name := e]) else (StorageFailure, store)
  }

  // ------------------------------------------------------------------ signing

  datatype SignRequest = SignRequest(name: string, input: Option<string>, chain: Option<string>)

  datatype SignResponse =
    | SignBadName(why: Response)
    | InputRequired
    | InputNotHex
    | InputLength
    | SignStorageFailure
    | SignNotFound
    | ChainRequired
    | NotAuthorised(chain: string)
    | SigningFailure
    | Signature(r: string, s: string)

  function SignSpec(c: Crypto, req: SignRequest, loads: bool, store: Store): SignResponse {
    if NameProblem(req.name).Some? then SignBadName(NameProblem(req.name).value)
    else if req.input.None? || req.input.value == "" then InputRequired
    else if HexDecode(req.input.value).None? then InputNotHex
    else if |HexDecode(req.input.value).value| != 32 then InputLength
    else if !loads then SignStorageFailure
    else if req.name !in store then SignNotFound
    else if req.chain.None? || Normalise(req.chain.value) == "" then ChainRequired
    else SignEntry(c, store[req.name], Normalise(req.chain.value), HexDecode(req.input.value).value)
  }

  /** The authorisation and the signature, once entry, chain and digest are in hand. */
  function SignEntry(c: Crypto, e: KeyEntry, chain: string, digest: Bytes): SignResponse {
    if chain !in e.chains then NotAuthorised(chain)
    else
      match c.sign(e.privateKey, digest)
      case None => SigningFailure
      case Some(sig) =>
        if |sig| != 65 then SigningFailure else Signature(HexEncode(sig[..32]), HexEncode(sig[32..64]))
  }

  /**
   A signature leaves the plugin only for a stored key whose list names the chain, and it is that key's
   signature of the given digest; a key with an empty list signs nothing.
   */
  lemma SignOnlyWhenListed(c: Crypto, req: SignRequest, loads: bool, store: Store)
    ensures SignSpec(c, req, loads, store).Signature? ==>
              && req.name in store && req.chain.Some? && req.input.Some?
              && Normalise(req.chain.value) in store[req.name].chains
              && store[req.name].chains != []
              && HexDecode(req.input.value).Some?
              && var sig := c.sign(store[req.name].privateKey, HexDecode(req.input.value).value);
                 && sig.Some? && |sig.value| == 65
                 && HexDecode(SignSpec(c, req, loads, store).r) == Some(sig.value[..32])
                 && HexDecode(SignSpec(c, req, loads, store).s) == Some(sig.value[32..64])
    ensures req.name in store && store[req.name].chains == [] ==> !SignSpec(c, req, loads, store).Signature?
  {
    var r := SignSpec(c, req, loads, store);
    if r.Signature? {
      var sig := c.sign(store[req.name].privateKey, HexDecode(req.input.value).value).value;
      HexRoundTrip(sig[..32]);
      HexRoundTrip(sig[32..64]);
    }
  }

  predicate IsDigest(text: string) { HexDecode(text).Some? && |HexDecode(text).value| == 32 }

  /** Name and input of a sign request are acceptable, storage loads and the key is there. */
  predicate SignReady(req: SignRequest, loads: bool, store: Store) {
    && KeyPath.Validate(req.name).Valid? && req.input.Some? && req.input.value != "" && IsDigest(req.input.value)
    && loads && req.name in store
  }

  predicate NamesChain(req: SignRequest) { req.chain.Some? && Normalise(req.chain.value) != "" }

  /** When a sign request gets which answer, from the name to the signature. */
  lemma SignExact(c: Crypto, req: SignRequest, loads: bool, store: Store)
    ensures var r := SignSpec(c, req, loads, store);
            var named := KeyPath.Validate(req.name).Valid?;
            var given := named && req.input.Some? && req.input.value != "";
            && (r.SignBadName? <==> !named)
            && (r == InputRequired <==> named && !given)
            && (r == InputNotHex <==> given && HexDecode(req.input.value).None?)
            && (r == InputLength <==>
                  given && HexDecode(req.input.value).Some? && |HexDecode(req.input.value).value| != 32)
            && (r == SignStorageFailure <==> given && IsDigest(req.input.value) && !loads)
            && (r == SignNotFound <==> given && IsDigest(req.input.value) && loads && req.name !in store)
  {
    assert KeyPath.Validate("").WrongShape?;
  }

  lemma SignReadyExact(c: Crypto, req: SignRequest, loads: bool, store: Store)
    ensures var r := SignSpec(c, req, loads, store);
            && (r == ChainRequired <==> SignReady(req, loads, store) && !NamesChain(req))
            && (r.NotAuthorised? <==>
                  && SignReady(req, loads, store) && NamesChain(req)
                  && Normalise(req.chain.value) !in store[req.name].chains)
            && (r.Signature? || r == SigningFailure <==>
                  && SignReady(req, loads, store) && NamesChain(req)
                  && Normalise(req.chain.value) in store[req.name].chains)
            && (r.Signature? || r == SigningFailure ==>
                  var sig := c.sign(store[req.name].privateKey, HexDecode(req.input.value).value);
                  r.Signature? <==> sig.Some? && |sig.value| == 65)
  {
    assert KeyPath.Validate("").WrongShape?;
  }

  // ------------------------------------------------------------------ invariants of single calls

  /** Same key material and history, and no chain lost. */
  predicate Grows(e: KeyEntry, e': KeyEntry) {
    e' == e.(chains := e'.chains) && Elements(e.chains) <= Elements(e'.chains)
  }

  /** A stored entry: a canonical (or empty, legacy) list and a public key that belongs to the private key. */
  ghost predicate EntryOk(c: Crypto, e: KeyEntry) {
    Canonical(e.chains) && e.compressedPubKey == c.publicKey(e.privateKey)
  }

  ghost predicate StoreOk(c: Crypto, store: Store) {
    forall n :: n in store ==> KeyPath.Validate(n).Valid? && EntryOk(c, store[n])
  }

  lemma AskedCanonical(req: Request)
    requires Asked(req).Parsed?
    ensures Canonical(Asked(req).chains) && Asked(req).chains != []
  {
    ParseIdempotent(FieldNames(Field(req)).value);
  }

  /** Writing back keeps the entry sound, keeps its material and never drops a chain. */
  lemma DecideKeeps(c: Crypto, req: Request, loaded: Option<KeyEntry>, made: Option<Fresh>)
    requires Asked(req).Parsed?
    requires loaded.Some? ==> EntryOk(c, loaded.value)
    ensures var d := Decide(c, req, Asked(req).chains, loaded, made);
            d.Put? ==> EntryOk(c, d.value) && d.value.chains != [] && (loaded.Some? ==> Grows(loaded.value, d.value))
  {
    AskedCanonical(req);
    if req.Update? && loaded.Some? { MergeIsUnion(loaded.value.chains, Asked(req).chains); }
  }

  /** One call keeps the store sound; every stored key survives it with its material and all its chains. */
  lemma ExecKeeps(c: Crypto, req: Request, env: Env, store: Store)
    requires StoreOk(c, store)
    ensures StoreOk(c, Exec(c, req, env, store).1)
    ensures forall n :: n in store ==> n in Exec(c, req, env, store).1 && Grows(store[n], Exec(c, req, env, store).1[n])
    ensures forall n :: n != req.name ==> Find(Exec(c, req, env, store).1, n) == Find(store, n)
  {
    if Screen(req).None? && Asked(req).Parsed? {
      DecideKeeps(c, req, Find(store, req.name), env.made);
    }
  }

  /** The information is that of the entry, but for the private key. */
  predicate Reports(info: KeyInfo, e: KeyEntry) {
    && info.compressedPubKey == e.compressedPubKey && info.evmAddress == e.evmAddress && info.chains == e.chains
    && info.source == e.source && info.createdAt == e.createdAt && info.importedAt == e.importedAt
  }

  /** The entry is that of the generated private key, with this list, made now and not imported. */
  predicate Generated(c: Crypto, f: Fresh, chains: seq<string>, e: KeyEntry) {
    && e.privateKey == f.privateKey && e.compressedPubKey == c.publicKey(f.privateKey)
    && e.evmAddress == c.address(f.privateKey) && e.chains == chains
    && e.source == "generated" && e.createdAt == f.now && e.importedAt == None
  }

  /** What an answered create means for the store, whatever branch it took. */
  lemma CreateOutcome(c: Crypto, req: Request, env: Env, store: Store)
    requires StoreOk(c, store) && req.Create?
    ensures var (r, store') := Exec(c, req, env, store);
            && !r.Updated?
            && (r.Info? ==>
                && Asked(req).Parsed? && req.name in store'
                && r.info.chains == Asked(req).chains && Reports(r.info, store'[req.name])
                && (req.name in store ==> store'[req.name] == store[req.name].(chains := Asked(req).chains))
                && (req.name !in store ==>
                      env.made.Some? && Generated(c, env.made.value, Asked(req).chains, store'[req.name])))
            && (!r.Info? ==> store' == store)
  {
    if Asked(req).Parsed? {
      AskedCanonical(req);
      if req.name in store { CanonicalSameSet(store[req.name].chains, Asked(req).chains); }
    }
  }

  /** What an answered update means for the store: the reported list is the stored one, old and new chains united. */
  lemma UpdateOutcome(c: Crypto, req: Request, env: Env, store: Store)
    requires StoreOk(c, store) && req.Update?
    ensures var (r, store') := Exec(c, req, env, store);
            && !r.Info?
            && (r.Updated? ==>
                && Asked(req).Parsed? && req.name in store && req.name in store'
                && r.name == req.name && r.chains == store'[req.name].chains
                && Elements(r.chains) == Elements(store[req.name].chains) + Elements(Asked(req).chains))
            && (!r.Updated? ==> store' == store)
  {
    if Asked(req).Parsed? {
      AskedCanonical(req);
      if req.name in store { MergeIsUnion(store[req.name].chains, Asked(req).chains); }
    }
  }

  /** Name and chain list of a request are acceptable. */
  predicate WellFormed(req: Request) { KeyPath.Validate(req.name).Valid? && Asked(req).Parsed? }

  /** An entry is there whose list is not empty and names other chains. */
  predicate Conflicts(req: Request, store: Store)
    requires Asked(req).Parsed?
  {
    && req.name in store && store[req.name].chains != []
    && Elements(store[req.name].chains) != Elements(Asked(req).chains)
  }

  /** A create has something to store: a new key, or the list of one that has none. */
  predicate CreateStores(req: Request, store: Store) { req.name in store ==> store[req.name].chains == [] }

  /** When a create gives which answer. */
  lemma CreateExact(c: Crypto, req: Request, env: Env, store: Store)
    requires StoreOk(c, store) && req.Create?
    ensures var r := Exec(c, req, env, store).0;
            && (r == NameRequired <==> req.name == "")
            && (r.BadName? <==> req.name != "" && !KeyPath.Validate(req.name).Valid?)
            && (r == BadChains <==> KeyPath.Validate(req.name).Valid? && Asked(req).Rejected?)
            && (r == Mismatch <==> WellFormed(req) && env.loads && Conflicts(req, store))
            && (r == GenerateFailure <==> WellFormed(req) && env.loads && req.name !in store && env.made.None?)
            && (r == StorageFailure <==>
                  && WellFormed(req)
                  && (!env.loads ||
                      (!env.stores && CreateStores(req, store) && (req.name !in store ==> env.made.Some?))))
            && (r.Info? <==>
                  && WellFormed(req) && env.loads && !Conflicts(req, store)
                  && (CreateStores(req, store) ==> env.stores && (req.name !in store ==> env.made.Some?)))
  {
    EmptyIsInvalid();
    if Asked(req).Parsed? {
      AskedCanonical(req);
      if req.name in store { CanonicalSameSet(store[req.name].chains, Asked(req).chains); }
    }
  }

  lemma EmptyIsInvalid()
    ensures !KeyPath.Validate("").Valid?
  {
    assert KeyPath.Validate("").WrongShape?;
  }

  /** A create that was answered can be repeated in any environment that loads: same answer, and the store stays. */
  lemma CreateIdempotent(c: Crypto, req: Request, env: Env, again: Env, store: Store)
    requires StoreOk(c, store) && req.Create? && Exec(c, req, env, store).0.Info? && again.loads
    ensures Exec(c, req, again, Exec(c, req, env, store).1) == Exec(c, req, env, store)
  {
    CreateOutcome(c, req, env, store);
    AskedCanonical(req);
  }

  /** When an update gives which answer. It stores only if it adds a chain. */
  lemma UpdateExact(c: Crypto, req: Request, env: Env, store: Store)
    requires StoreOk(c, store) && req.Update?
    ensures var r := Exec(c, req, env, store).0;
            var bare := !req.otherFields && !req.add.Absent?;
            var there := bare && WellFormed(req) && env.loads && req.name in store;
            && (r == OnlyAddChains <==> !bare)
            && (r == NameRequired <==> bare && req.name == "")
            && (r.BadName? <==> bare && req.name != "" && !KeyPath.Validate(req.name).Valid?)
            && (r == BadChains <==> bare && KeyPath.Validate(req.name).Valid? && Asked(req).Rejected?)
            && (r == NotFound <==> bare && WellFormed(req) && env.loads && req.name !in store)
            && (r.Updated? <==>
                  there && (Elements(Asked(req).chains) <= Elements(store[req.name].chains) || env.stores))
            && (r == StorageFailure <==>
                  && bare && WellFormed(req)
                  && (!env.loads || (there && !env.stores
                                     && !(Elements(Asked(req).chains) <= Elements(store[req.name].chains)))))
  {
    EmptyIsInvalid();
    if Asked(req).Parsed? {
      AskedCanonical(req);
      if req.name in store { MergedSame(store[req.name].chains, Asked(req).chains); }
    }
  }

  /** The merged list is the old one exactly when nothing is added. */
  lemma MergedSame(kept: seq<string>, asked: seq<string>)
    requires Canonical(kept) && Canonical(asked) && asked != []
    ensures ParseSpec(kept + asked).Parsed?
    ensures multiset(kept) == multiset(ParseSpec(kept + asked).chains) <==> Elements(asked) <= Elements(kept)
  {
    MergeIsUnion(kept, asked);
    CanonicalSameSet(kept, ParseSpec(kept + asked).chains);
    assert Elements(kept) + Elements(asked) == Elements(kept) <==> Elements(asked) <= Elements(kept);
  }

  /** An update that was answered can be repeated likewise. */
  lemma UpdateIdempotent(c: Crypto, req: Request, env: Env, again: Env, store: Store)
    requires StoreOk(c, store) && req.Update? && Exec(c, req, env, store).0.Updated? && again.loads
    ensures Exec(c, req, again, Exec(c, req, env, store).1) == Exec(c, req, env, store)
  {
    var first, after := Exec(c, req, env, store).0, Exec(c, req, env, store).1;
    UpdateOutcome(c, req, env, store);
    ExecKeeps(c, req, env, store);
    UpdateExact(c, req, again, after);
    UpdateOutcome(c, req, again, after);
    AskedCanonical(req);
    MergedSame(after[req.name].chains, Asked(req).chains);
    MergeIsUnion(after[req.name].chains, Asked(req).chains);
    CanonicalSameSet(after[req.name].chains, ParseSpec(after[req.name].chains + Asked(req).chains).chains);
  }

  /**
   The gateway's create handler: it parses the caller's names, sends them comma-joined, and reports its own
   parsed list. On success that is exactly the list stored with the key.
   */
  lemma CreateReportsPersisted(c: Crypto, name: string, raw: seq<string>, env: Env, store: Store)
    requires StoreOk(c, store) && ParseSpec(raw).Parsed?
    requires var wire := Create(name, CommaList(Join(ParseSpec(raw).chains, ',')));
             Exec(c, wire, env, store).0.Info?
    ensures var wire := Create(name, CommaList(Join(ParseSpec(raw).chains, ',')));
            name in Exec(c, wire, env, store).1 && Exec(c, wire, env, store).1[name].chains == ParseSpec(raw).chains
  {
    ParseIdempotent(raw);
    WireRoundTrip(ParseSpec(raw).chains);
    CreateOutcome(c, Create(name, CommaList(Join(ParseSpec(raw).chains, ','))), env, store);
  }

  // ------------------------------------------------------------------ the handlers

  class Backend {
    var store: Store

    method LoadKey(name: string, env: Env) returns (ok: bool, entry: Option<KeyEntry>)
      ensures ok == env.loads
      ensures entry == if ok then Find(store, name) else None
    {
      if !env.loads { return false, None; }
      if name in store { return true, Some(store[name]); }
      return true, None;
    }

    method StoreKey(name: string, entry: KeyEntry, env: Env) returns (ok: bool)
      modifies this
      ensures ok == env.stores
      ensures store == if ok then old(store)[name := entry] else old(store)
    {
      ok := env.stores;
      if ok { store := store[name := entry]; }
    }

    method HandleCreateKey(c: Crypto, name: string, chains: ChainField, env: Env) returns (r: Response)
      modifies this
      ensures (r, store) == Exec(c, Create(name, chains), env, old(store))
    {
      if name == "" { return NameRequired; }
      if !KeyPath.Validate(name).Valid? { return BadName(KeyPath.Validate(name)); }
      var names := FieldNames(chains);
      if names.None? { return BadChains; }
      var parsed := ParseChains(names.value);
      if parsed.Rejected? { return BadChains; }
      var ok, existing := LoadKey(name, env);
      if !ok { return StorageFailure; }
      if existing.Some? {
        var e := existing.value;
        if |e.chains| == 0 {
          e := e.(chains := parsed.chains);
          var stored := StoreKey(name, e, env);
          if !stored { return StorageFailure; }
          return Info(View(e));
        }
        var same := SameChainSet(e.chains, parsed.chains);
        if !same { return Mismatch; }
        return Info(View(e));
      }
      if env.made.None? { return GenerateFailure; }
      var entry := NewEntry(c, env.made.value, parsed.chains);
      var stored := StoreKey(name, entry, env);
      if !stored { return StorageFailure; }
      return Info(View(entry));
    }

    method HandleUpdateChains(
      c: Crypto, name: string, otherFields: bool, add: ChainField, env: Env) returns (r: Response)
      modifies this
      ensures (r, store) == Exec(c, Update(name, otherFields, add), env, old(store))
    {
      if otherFields || add.Absent? { return OnlyAddChains; }
      if name == "" { return NameRequired; }
      if !KeyPath.Validate(name).Valid? { return BadName(KeyPath.Validate(name)); }
      var names := FieldNames(add);
      if names.None? { return BadChains; }
      var parsed := ParseChains(names.value);
      if parsed.Rejected? { return BadChains; }
      var ok, existing := LoadKey(name, env);
      if !ok { return StorageFailure; }
      if existing.None? { return NotFound; }
      var e := existing.value;
      var merged := ParseChains(e.chains + parsed.chains);
      if merged.Rejected? { return BadChains; }
      var same := SameChainSet(e.chains, merged.chains);
      if same { return Updated(name, merged.chains); }
      e := e.(chains := merged.chains);
      var stored := StoreKey(name, e, env);
      if !stored { return StorageFailure; }
      return Updated(name, e.chains);
    }

    method HandleDeleteKey(name: string, deletes: bool) returns (r: Option<Response>)
      modifies this
      ensures store == if name == "" || !deletes then old(store) else old(store) - {name}
      ensures r == if name == "" then Some(NameRequired) else if !deletes then Some(StorageFailure) else None
    {
      if name == "" { return Some(NameRequired); }
      if !deletes { return Some(StorageFailure); }
      store := store - {name};
      return None;
    }

    method HandleSign(c: Crypto, req: SignRequest, env: Env) returns (r: SignResponse)
      ensures r == SignSpec(c, req, env.loads, store)
    {
      if req.name == "" { return SignBadName(NameRequired); }
      if !KeyPath.Validate(req.name).Valid? { return SignBadName(BadName(KeyPath.Validate(req.name))); }
      if req.input.None? || req.input.value == "" { return InputRequired; }
      var digest := HexDecode(req.input.value);
      if digest.None? { return InputNotHex; }
      if |digest.value| != 32 { return InputLength; }
      var ok, entry := LoadKey(req.name, env);
      if !ok { return SignStorageFailure; }
      if entry.None? { return SignNotFound; }
      if req.chain.None? { return ChainRequired; }
      var chain := Normalise(req.chain.value);
      if chain == "" { return ChainRequired; }
      var allowed := SortStrings(entry.value.chains);
      SameMultisetSameElements(allowed, entry.value.chains);
      assert chain in allowed <==> chain in Elements(allowed);
      assert chain in entry.value.chains <==> chain in Elements(entry.value.chains);
      var listed := ChainsContain(allowed, chain);
      if !listed { return NotAuthorised(chain); }
      var sig := c.sign(entry.value.privateKey, digest.value);
      if sig.None? || |sig.value| != 65 { return SigningFailure; }
      return Signature(HexEncode(sig.value[..32]), HexEncode(sig.value[32..64]));
    }
  }
}
