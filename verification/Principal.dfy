/** The rate-limit key of a request: hex digest, a bar, and the caller's address. */
module Principal {
  import opened Text
  import opened Bytes
  import opened Limiter

  function KeyOf(digest: Bytes, ip: string): string {
    HexEncode(digest) + "|" + ip
  }

  lemma {:induction false} HexAppend(bs: Bytes, b: byte)
    ensures HexEncode(bs + [b]) == HexEncode(bs) + [HexDigit(b / 16), HexDigit(b % 16)]
  {
    if bs == [] {
      assert (bs + [b])[1..] == [];
      assert HexEncode([b][1..]) == "";
    } else {
      HexAppend(bs[1..], b);
      assert (bs + [b])[1..] == bs[1..] + [b];
    }
  }

  /** `principalKey` after the HMAC: the digits are written into a buffer two at a time. */
  method PrincipalKey(digest: Bytes, remoteAddr: string) returns (key: string)
    ensures key == KeyOf(digest, IpFromRemoteAddr(remoteAddr))
  {
    var buf := new char[|digest| * 2](_ => '0');
    for i := 0 to |digest|
      invariant buf[..i * 2] == HexEncode(digest[..i])
    {
      var b := digest[i];
      buf[i * 2] := HexDigit(b / 16);
      buf[i * 2 + 1] := HexDigit(b % 16);
      HexAppend(digest[..i], b);
      assert digest[..i + 1] == digest[..i] + [b];
      assert buf[..(i + 1) * 2] == buf[..i * 2] + [HexDigit(b / 16), HexDigit(b % 16)];
    }
    assert digest[..|digest|] == digest && buf[..|digest| * 2] == buf[..];
    key := buf[..] + "|" + IpFromRemoteAddr(remoteAddr);
  }

  lemma BarEndsHex(a: Bytes, ip: string, b: Bytes, ip': string)
    requires KeyOf(a, ip) == KeyOf(b, ip')
    ensures |HexEncode(a)| >= |HexEncode(b)|
  {
    var h, h' := HexEncode(a), HexEncode(b);
    assert HexValue('|').None?;
    forall j | 0 <= j < |h'| ensures KeyOf(b, ip')[j] != '|' { assert h'[j] in h'; }
    assert KeyOf(a, ip)[|h|] == '|';
  }

  /** The key determines digest and address, and is never empty. */
  lemma KeyInjective(a: Bytes, ip: string, b: Bytes, ip': string)
    ensures KeyOf(a, ip) == KeyOf(b, ip') <==> a == b && ip == ip'
    ensures KeyOf(a, ip) != ""
  {
    if KeyOf(a, ip) == KeyOf(b, ip') {
      BarEndsHex(a, ip, b, ip');
      BarEndsHex(b, ip', a, ip);
      var n := |HexEncode(a)|;
      assert KeyOf(a, ip)[..n] == HexEncode(a) && KeyOf(b, ip')[..n] == HexEncode(b);
      assert KeyOf(a, ip)[n + 1..] == ip && KeyOf(b, ip')[n + 1..] == ip';
      HexRoundTrip(a);
      HexRoundTrip(b);
    }
  }

  /** The text of the key: the digest in hexadecimal, a bar, the address. */
  lemma KeyText(digest: Bytes, ip: string)
    ensures var n, key := 2 * |digest|, KeyOf(digest, ip);
            |key| > n && HexDecode(key[..n]) == Some(digest) && key[n] == '|' && key[n + 1..] == ip
  {
    HexRoundTrip(digest);
    assert KeyOf(digest, ip)[..2 * |digest|] == HexEncode(digest);
  }

  /** Every `get` of the run is on the key of some digest and address. */
  ghost predicate Keyed<L>(ops: seq<Op<L>>) {
    forall i :: 0 <= i < |ops| && ops[i].Get? ==> exists digest, ip :: ops[i].key == KeyOf(digest, ip)
  }

  /** At any moment of any run, two callers with live entries share a budget exactly when digest and address agree. */
  lemma SharedBudget<L>(
    tables: seq<Table<L>>, ops: seq<Op<L>>, cap: nat, i: nat, a: Bytes, ip: string, b: Bytes, ip': string)
    requires cap >= 1 && IsRun(tables, ops, cap) && Keyed(ops) && i < |tables|
    requires KeyOf(a, ip) in tables[i] && KeyOf(b, ip') in tables[i]
    ensures tables[i][KeyOf(a, ip)].limiter == tables[i][KeyOf(b, ip')].limiter <==> a == b && ip == ip'
  {
    forall j | 0 <= j < |ops| && ops[j].Get? ensures ops[j].key != "" {
      var digest, addr :| ops[j].key == KeyOf(digest, addr);
    }
    RunBounded(tables, ops, cap, i);
    KeyInjective(a, ip, b, ip');
  }

  // ------------------------------------------------------------------ the address

  function LastIndex(s: string, c: char): (i: int)
    ensures -1 <= i < |s|
    ensures i >= 0 ==> s[i] == c && c !in s[i + 1..]
    ensures i < 0 ==> c !in s
  {
    if s == "" then -1
    else if s[|s| - 1] == c then |s| - 1
    else
      var i := LastIndex(s[..|s| - 1], c);
      assert s == s[..|s| - 1] + [s[|s| - 1]];
      assert i >= 0 ==> s[i + 1..] == s[..|s| - 1][i + 1..] + [s[|s| - 1]];
      i
  }

  /** The address part of "host:port" or "[ipv6]:port"; anything without a colon stays as it is. */
  function IpFromRemoteAddr(remote: string): string {
    if remote == "" then ""
    else
      var i := LastIndex(remote, ':');
      if i >= 0 then TrimSuffix(TrimPrefix(remote[..i], "["), "]") else remote
  }

  /** The port, and the brackets of an IPv6 literal, are stripped; an address without a port stays. */
  lemma AddressStripped(host: string, port: string)
    requires ':' !in port && '[' !in host && ']' !in host
    ensures IpFromRemoteAddr(port) == port
    ensures IpFromRemoteAddr(host + ":" + port) == host
    ensures IpFromRemoteAddr("[" + host + "]:" + port) == host
  {
    NothingToTrim(host);
    PortStripped(host, port);
    BracketedStripped(host, port);
  }

  lemma BracketedStripped(host: string, port: string)
    requires ':' !in port
    ensures IpFromRemoteAddr("[" + host + "]:" + port) == host
  {
    BracketsTrimmed(host);
    PortStripped("[" + host + "]", port);
    SplitBracket("[" + host, port);
  }

  lemma SplitBracket(front: string, port: string)
    ensures front + "]:" + port == front + "]" + ":" + port
  {
    assert "]:" == "]" + ":";
  }

  lemma PortStripped(front: string, port: string)
    requires ':' !in port
    ensures IpFromRemoteAddr(front + ":" + port) == TrimSuffix(TrimPrefix(front, "["), "]")
  {
    ColonBeforePort(front, port);
  }

  lemma NothingToTrim(host: string)
    requires '[' !in host && ']' !in host
    ensures TrimSuffix(TrimPrefix(host, "["), "]") == host
  {
    assert host != "" ==> host[0] in host && host[|host| - 1] in host;
    assert host != "" ==> host[..1][0] == host[0] && host[|host| - 1..][0] == host[|host| - 1];
  }

  lemma BracketsTrimmed(host: string)
    ensures TrimSuffix(TrimPrefix("[" + host + "]", "["), "]") == host
  {
    assert TrimPrefix("[" + host + "]", "[") == host + "]";
    assert TrimSuffix(host + "]", "]") == host;
  }

  lemma {:induction false} ColonBeforePort(front: string, port: string)
    requires ':' !in port
    ensures LastIndex(front + ":" + port, ':') == |front|
    ensures (front + ":" + port)[..|front|] == front
  {
    var s := front + ":" + port;
    if port != "" {
      var n := |port| - 1;
      ColonBeforePort(front, port[..n]);
      assert s[|s| - 1] == port[n] && port[n] in port;
      assert s[..|s| - 1] == front + ":" + port[..n];
    }
  }
}
