/** The gateway's allow-list cache and the client's public-key cache, as the objects they are. */
module Caches {
  import opened Text
  import opened Bytes
  import opened Chains
  import opened Gateway
  import KeyPath

  const SECOND: int := 1_000_000_000

  /** `canonicalizeChains`: an empty list is a legacy key and stays empty. */
  function Canonicalise(raw: seq<string>): Parse {
    if raw == [] then Parsed([]) else ParseSpec(raw)
  }

  /** What the read of a key's list brought back. */
  datatype ListRead = Listed(raw: seq<string>) | ListNotFound | ListForbidden | ListFails

  /** The verdict on a freshly read list. */
  function FetchVerdict(read: ListRead, chain: string): Verdict {
    match read
    case ListNotFound => Missing
    case ListForbidden => Forbidden
    case ListFails => Unavailable
    case Listed(raw) =>
      match Canonicalise(raw)
      case Rejected => Unavailable
      case Parsed(list) => Judge(list, chain)
  }

  /** `authorizeChain` on a cache with these entries: the verdict and the entries it leaves. */
  function Authorized(
    entries: map<string, Cached>, ttl: int, path: string, chain: string, now: int, read: ListRead, later: int)
    : (Verdict, map<string, Cached>)
  {
    if CacheAllows(entries, ttl, path, chain, now) then (Allow, entries)
    else if read.Listed? && Canonicalise(read.raw).Parsed?
    then (FetchVerdict(read, chain), entries[path := Cached(Canonicalise(read.raw).chains, later)])
    else (FetchVerdict(read, chain), entries)
  }

  class ChainsCache {
    const ttl: int
    var entries: map<string, Cached>

    constructor (ttl: int)
      ensures this.ttl == (if ttl <= 0 then 30 * SECOND else ttl) && entries == map[]
    {
      this.ttl := if ttl <= 0 then 30 * SECOND else ttl;
      entries := map[];
    }

    method Get(path: string, now: int) returns (chains: seq<string>, recent: bool, ok: bool)
      ensures ok == (path in entries)
      ensures ok ==> chains == entries[path].chains && recent == (now - entries[path].at <= ttl)
      ensures !ok ==> chains == [] && !recent
    {
      if path !in entries { return [], false, false; }
      return entries[path].chains, now - entries[path].at <= ttl, true;
    }

    method Set(path: string, chains: seq<string>, now: int)
      modifies this
      ensures entries == old(entries)[path := Cached(chains, now)]
    {
      entries := entries[path := Cached(chains, now)];
    }

    method Invalidate(path: string)
      modifies this
      ensures entries == old(entries) - {path}
    {
      entries := entries - {path};
    }

    /**
     `authorizeChain`, with the answer of the list read and the two clock readings supplied. Only an allow comes from
     the cache; a readable list is cached on the way to the verdict, and nothing else in the cache changes.
     */
    method AuthorizeChain(path: string, attempted: string, now: int, read: ListRead, later: int) returns (v: Verdict)
      modifies this
      ensures (v, entries) == Authorized(old(entries), ttl, path, attempted, now, read, later)
    {
      var cached, recent, ok := Get(path, now);
      if ok && recent {
        var listed := ChainsContain(cached, attempted);
        if listed { return Allow; }
      }
      v := AuthorizeChainFetch(path, attempted, read, later);
    }

    method AuthorizeChainFetch(path: string, attempted: string, read: ListRead, later: int) returns (v: Verdict)
      modifies this
      ensures v == FetchVerdict(read, attempted)
      ensures entries == if read.Listed? && Canonicalise(read.raw).Parsed?
                         then old(entries)[path := Cached(Canonicalise(read.raw).chains, later)]
                         else old(entries)
    {
      match read
      case ListNotFound => return Missing;
      case ListForbidden => return Forbidden;
      case ListFails => return Unavailable;
      case Listed(raw) =>
        var chains: seq<string> := [];
        if |raw| != 0 {
          var parsed := ParseChains(raw);
          if parsed.Rejected? { return Unavailable; }
          chains := parsed.chains;
        }
        Set(path, chains, later);
        var listed := ChainsContain(chains, attempted);
        if listed { return Allow; }
        return Deny;
    }
  }

  /** The Vault client's cache of uncompressed public keys. It is never invalidated. */
  class PubKeyCache {
    var cached: map<string, array<byte>>

    ghost function Buffers(): set<array<byte>>
      reads this
    {
      set p | p in cached :: cached[p]
    }

    ghost function Contents(): map<string, Bytes>
      reads this, Buffers()
    {
      map p | p in cached :: cached[p][..]
    }

    static method CopyOf(bytes: Bytes) returns (copy: array<byte>)
      ensures fresh(copy) && copy[..] == bytes
    {
      copy := new byte[|bytes|](i requires 0 <= i < |bytes| => bytes[i]);
    }

    /**
     `GetPublicKey`, with the key read from the plugin supplied. A cached key is returned unread; a key that was read
     is cached. The caller's buffer is new and never one of the cache's.
     */
    method GetPublicKey(path: string, read: Option<Bytes>) returns (result: Option<array<byte>>)
      modifies this
      ensures !KeyPath.Validate(path).Valid? ==> result == None && Contents() == old(Contents())
      ensures KeyPath.Validate(path).Valid? && path in old(cached) ==>
                result.Some? && result.value[..] == old(Contents()[path]) && Contents() == old(Contents())
      ensures KeyPath.Validate(path).Valid? && path !in old(cached) && read.None? ==>
                result == None && Contents() == old(Contents())
      ensures KeyPath.Validate(path).Valid? && path !in old(cached) && read.Some? ==>
                result.Some? && result.value[..] == read.value && Contents() == old(Contents())[path := read.value]
      ensures result.Some? ==> fresh(result.value) && result.value !in Buffers()
      ensures fresh(Buffers() - old(Buffers()))
    {
      if !KeyPath.Validate(path).Valid? { return None; }
      if path in cached {
        var out := CopyOf(cached[path][..]);
        return Some(out);
      }
      if read.None? { return None; }
      var uncompressed := CopyOf(read.value);
      var stored := CopyOf(read.value);
      cached := cached[path := stored];
      return Some(uncompressed);
    }

    /**
     Callers who read keys, and who write what they like into the buffers they were given, in any order. The answers
     and the cache are those of the reads alone.
     */
    method Serve(uses: seq<Use>) returns (answers: seq<Option<Bytes>>)
      modifies this
      ensures (Contents(), answers) == Replay(old(Contents()), uses)
    {
      answers := [];
      var given: seq<array<byte>> := [];
      ghost var start := Contents();
      for i := 0 to |uses|
        invariant (Contents(), answers) == Replay(start, uses[..i])
        invariant fresh(Buffers() - old(Buffers()))
        invariant forall b :: b in given ==> fresh(b) && b !in Buffers()
      {
        assert uses[..i + 1][..i] == uses[..i];
        match uses[i]
        case Read(path, read) =>
          var result := GetPublicKey(path, read);
          if result.Some? {
            answers, given := answers + [Some(result.value[..])], given + [result.value];
          } else {
            answers := answers + [None];
          }
        case Write(which, at, b) =>
          if which < |given| && at < given[which].Length { given[which][at] := b; }
      }
      assert uses[..|uses|] == uses;
    }
  }

  /** A read of a path, with the key the plugin would give; or a write into the n-th buffer given out so far. */
  datatype Use = Read(path: string, read: Option<Bytes>) | Write(which: nat, at: nat, b: byte)

  /** What a cache with these contents answers and holds afterwards; a write changes neither. */
  function Replay(cached: map<string, Bytes>, uses: seq<Use>): (map<string, Bytes>, seq<Option<Bytes>>) {
    if uses == [] then (cached, [])
    else
      var (held, answers) := Replay(cached, uses[..|uses| - 1]);
      match uses[|uses| - 1]
      case Write(_, _, _) => (held, answers)
      case Read(path, read) =>
        if !KeyPath.Validate(path).Valid? then (held, answers + [None])
        else if path in held then (held, answers + [Some(held[path])])
        else if read.None? then (held, answers + [None])
        else (held[path := read.value], answers + [read])
  }

  /** The first key read for a path is the answer from then on. */
  lemma {:induction false} FirstReadStays(cached: map<string, Bytes>, uses: seq<Use>, i: nat, path: string)
    requires i <= |uses| && path in Replay(cached, uses[..i]).0
    ensures path in Replay(cached, uses).0 && Replay(cached, uses).0[path] == Replay(cached, uses[..i]).0[path]
  {
    if i == |uses| {
      assert uses[..i] == uses;
    } else {
      assert uses[..|uses| - 1][..i] == uses[..i];
      FirstReadStays(cached, uses[..|uses| - 1], i, path);
    }
  }

  /** Once a read of a path was answered with a key, every later read is answered with the same, whatever is read. */
  lemma LaterReadsAgree(
    cached: map<string, Bytes>, first: seq<Use>, path: string, read: Option<Bytes>, more: seq<Use>,
    again: Option<Bytes>)
    ensures var (held, answers) := Replay(cached, first + [Read(path, read)]);
            var (held', answers') := Replay(cached, first + [Read(path, read)] + more + [Read(path, again)]);
            && answers != [] && answers' != []
            && (answers[|answers| - 1].Some? ==> answers'[|answers'| - 1] == answers[|answers| - 1])
  {
    var one := first + [Read(path, read)];
    var two := one + more;
    var three := two + [Read(path, again)];
    assert one[..|one| - 1] == first && three[..|three| - 1] == two && two[..|one|] == one;
    if path in Replay(cached, one).0 { FirstReadStays(cached, two, |one|, path); }
  }
}
