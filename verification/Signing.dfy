/** From the plugin's signature to the bytes the gateway returns. */
module Signing {
  import opened Text
  import opened Bytes
  import opened Chains
  import opened Plugin
  import opened Gateway
  import KeyPath

  // ------------------------------------------------------------------ the client's wire form

  /** The client decodes both halves and reads them as integers. */
  function DecodeParts(resp: SignResponse): Option<Parts> {
    if !resp.Signature? || resp.r == "" || resp.s == "" then None
    else
      match (HexDecode(resp.r), HexDecode(resp.s))
      case (Some(r), Some(s)) => Some(Parts(ToNat(r), ToNat(s)))
      case _ => None
  }

  function ClientSign(c: Crypto, store: Store, loads: bool, path: string, digest: Bytes, chain: string): Option<Parts> {
    if !KeyPath.Validate(path).Valid? || |digest| != 32 || Normalise(chain) == "" then None
    else DecodeParts(SignSpec(c, SignRequest(path, Some(HexEncode(digest)), Some(Normalise(chain))), loads, store))
  }

  /** The signature of an entry as the client receives it. */
  function EntryParts(c: Crypto, e: KeyEntry, chain: string, digest: Bytes): Option<Parts> {
    if |digest| != 32 || Normalise(chain) == "" then None else DecodeParts(SignEntry(c, e, Normalise(chain), digest))
  }

  predicate Fits(parts: Parts) { parts.r < Pow256(32) && parts.s < Pow256(32) }

  /** r and s, 32 bytes each, leading zeros included. */
  function Halves(parts: Parts): (bs: Bytes)
    requires Fits(parts)
    ensures |bs| == 64
  {
    Fill(parts.r, 32) + Fill(parts.s, 32)
  }

  /** The entry signs exactly when its list names the chain, and the client gets the signer's 64 bytes back. */
  lemma EntryPartsExact(c: Crypto, e: KeyEntry, chain: string, digest: Bytes)
    requires |digest| == 32 && Normalise(chain) != ""
    ensures var sig := c.sign(e.privateKey, digest);
            EntryParts(c, e, chain, digest).Some? <==>
              Normalise(chain) in e.chains && sig.Some? && |sig.value| == 65
    ensures var parts := EntryParts(c, e, chain, digest);
            parts.Some? ==> Fits(parts.value) && Halves(parts.value) == c.sign(e.privateKey, digest).value[..64]
  {
    var sig := c.sign(e.privateKey, digest);
    if Normalise(chain) in e.chains && sig.Some? && |sig.value| == 65 {
      PartsRoundTrip(sig.value[..32], sig.value[32..64]);
      assert sig.value[..32] + sig.value[32..64] == sig.value[..64];
    }
  }

  /** Both halves cross the wire. */
  lemma PartsRoundTrip(r: Bytes, s: Bytes)
    requires |r| == 32 && |s| == 32
    ensures var parts := DecodeParts(Signature(HexEncode(r), HexEncode(s)));
            parts.Some? && Fits(parts.value) && Halves(parts.value) == r + s
  {
    PartsDecoded(r, s);
    FillRoundTrip(r);
    FillRoundTrip(s);
  }

  lemma PartsDecoded(r: Bytes, s: Bytes)
    requires r != [] && s != []
    ensures DecodeParts(Signature(HexEncode(r), HexEncode(s))) == Some(Parts(ToNat(r), ToNat(s)))
  {
    HexRoundTrip(r);
    HexRoundTrip(s);
    assert HexEncode(r) != "" && HexEncode(s) != "";
  }

  /** The whole call through client and plugin is the entry's own signature: the digest crosses the wire unchanged. */
  lemma ClientSignIsEntry(c: Crypto, store: Store, path: string, digest: Bytes, chain: string)
    requires KeyPath.Validate(path).Valid? && |digest| == 32
    ensures ClientSign(c, store, true, path, digest, chain) ==
              if path in store then EntryParts(c, store[path], chain, digest) else None
    ensures ClientSign(c, store, false, path, digest, chain) == None
  {
    HexRoundTrip(digest);
    LowerTrimIdempotent(chain);
    assert KeyPath.Validate("").WrongShape?;
    assert |HexEncode(digest)| == 64;
  }

  // ------------------------------------------------------------------ recovery id

  /** The first of the recovery ids 0 and 1 that leads back to the public key. */
  function AssembleEvm(c: Crypto, digest: Bytes, parts: Parts, pub: Bytes): Option<Bytes> {
    if !Fits(parts) then None
    else if c.recover(digest, Halves(parts) + [0]) == Some(pub) then Some(Halves(parts) + [0])
    else if c.recover(digest, Halves(parts) + [1]) == Some(pub) then Some(Halves(parts) + [1])
    else None
  }

  /** `FillBytes`: writes the bytes at an offset of the buffer. */
  method FillBytes(buffer: array<byte>, from: nat, bs: Bytes)
    requires from + |bs| <= buffer.Length
    modifies buffer
    ensures buffer[from..from + |bs|] == bs
    ensures buffer[..from] == old(buffer[..from]) && buffer[from + |bs|..] == old(buffer[from + |bs|..])
  {
    for i := 0 to |bs|
      invariant buffer[from..from + i] == bs[..i]
      invariant buffer[..from] == old(buffer[..from]) && buffer[from + |bs|..] == old(buffer[from + |bs|..])
    {
      buffer[from + i] := bs[i];
    }
  }

  method NewSignature(parts: Parts) returns (sig: array<byte>)
    requires Fits(parts)
    ensures fresh(sig) && sig.Length == 65 && sig[..64] == Halves(parts)
  {
    sig := new byte[65](_ => 0);
    FillBytes(sig, 0, Fill(parts.r, 32));
    FillBytes(sig, 32, Fill(parts.s, 32));
    assert sig[..64] == sig[..32] + sig[32..64];
  }

  /** `signWithRecovery` after the two Vault calls: fill the buffer, then try the ids in place. */
  method SignWithRecovery(c: Crypto, digest: Bytes, parts: Parts, pub: Bytes) returns (result: Option<Bytes>)
    requires Fits(parts)
    ensures result == AssembleEvm(c, digest, parts, pub)
  {
    var sig := NewSignature(parts);
    var recID := 0;
    while recID < 2
      invariant 0 <= recID <= 2
      invariant sig[..64] == Halves(parts)
      invariant recID > 0 ==> c.recover(digest, Halves(parts) + [0]) != Some(pub)
      invariant recID > 1 ==> c.recover(digest, Halves(parts) + [1]) != Some(pub)
    {
      sig[64] := recID;
      assert sig[..] == Halves(parts) + [recID];
      if c.recover(digest, sig[..]) == Some(pub) { return Some(sig[..]); }
      recID := recID + 1;
    }
    return None;
  }

  /** A returned signature always recovers to the key it was checked against; failure means that no id does. */
  lemma RecoveryExact(c: Crypto, digest: Bytes, parts: Parts, pub: Bytes)
    requires Fits(parts)
    ensures var result := AssembleEvm(c, digest, parts, pub);
            && (result.Some? ==>
                && |result.value| == 65 && result.value[..64] == Halves(parts) && result.value[64] in {0, 1}
                && c.recover(digest, result.value) == Some(pub)
                && (result.value[64] == 1 ==> c.recover(digest, Halves(parts) + [0]) != Some(pub)))
            && (result.Some? <==> exists id: byte :: id < 2 && c.recover(digest, Halves(parts) + [id]) == Some(pub))
  {
    var h := Halves(parts);
    if exists id: byte :: id < 2 && c.recover(digest, h + [id]) == Some(pub) {
      var id: byte :| id < 2 && c.recover(digest, h + [id]) == Some(pub);
      assert id == 0 || id == 1;
    }
    if c.recover(digest, h + [0]) == Some(pub) {
      var id: byte := 0;
      assert id < 2 && c.recover(digest, h + [id]) == Some(pub);
    } else if c.recover(digest, h + [1]) == Some(pub) {
      var id: byte := 1;
      assert id < 2 && c.recover(digest, h + [id]) == Some(pub);
    }
  }

  // ------------------------------------------------------------------ Ethereum v

  function NormalV(sig: Bytes): Bytes {
    if |sig| == 65 && sig[64] < 27 then sig[64 := sig[64] + 27] else sig
  }

  method NormalizeEthereumV(sig: array<byte>) returns (out: array<byte>)
    ensures fresh(out) && out[..] == NormalV(sig[..])
  {
    out := new byte[sig.Length](i requires 0 <= i < sig.Length reads sig => sig[i]);
    assert out[..] == sig[..];
    if out.Length == 65 && out[64] < 27 { out[64] := out[64] + 27; }
  }

  /** r and s stay, recovery ids below 27 go up by 27, and a second normalisation changes nothing. */
  lemma NormalVKeeps(sig: Bytes)
    ensures |NormalV(sig)| == |sig| && NormalV(NormalV(sig)) == NormalV(sig)
    ensures |sig| == 65 ==> NormalV(sig)[..64] == sig[..64]
    ensures |sig| == 65 ==> NormalV(sig)[64] == if sig[64] < 27 then sig[64] + 27 else sig[64]
    ensures |sig| != 65 ==> NormalV(sig) == sig
  {
  }

  // ------------------------------------------------------------------ Cosmos

  /** The uncompressed public key as the client reads it from the plugin. */
  function PublicKeyOf(c: Crypto, e: KeyEntry): Option<Bytes> {
    if |e.compressedPubKey| != 33 then None else c.decompress(e.compressedPubKey)
  }

  function Compress(c: Crypto, pub: Bytes): Option<Bytes> {
    if |pub| != 65 || pub[0] != 4 then None else c.compress(pub)
  }

  /** `signHash` after the two Vault calls; the compressed key goes out beside the 64 bytes. */
  function AssembleCosmos(c: Crypto, parts: Parts, pub: Bytes): Option<Bytes> {
    if !Fits(parts) || Compress(c, pub).None? then None else Some(Halves(parts))
  }
}
