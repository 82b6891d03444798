/**
 The preimage of a fork source id (crates/anvil/src/config.rs): two lists of strings, each part
 and each list preceded by its length as eight big-endian bytes.
 */
module SourceId {
  import opened Common

  type Bytes = seq<byte>

  /** A length as `to_be_bytes` of a `u64` writes it. */
  function LengthBytes(n: nat): (r: Bytes)
    ensures |r| == 8
  {
    BigEndian(n, 8)
  }

  function PartsBytes(parts: seq<Bytes>): Bytes {
    if parts == [] then [] else LengthBytes(|parts[0]|) + parts[0] + PartsBytes(parts[1..])
  }

  function ListBytes(parts: seq<Bytes>): Bytes {
    LengthBytes(|parts|) + PartsBytes(parts)
  }

  /** Appends one list to the buffer. */
  method AppendList(encoded: Bytes, parts: seq<Bytes>) returns (r: Bytes)
    ensures r == encoded + ListBytes(parts)
  {
    r := encoded + LengthBytes(|parts|);
    assert r + PartsBytes(parts) == encoded + ListBytes(parts);
    for i := 0 to |parts|
      invariant r + PartsBytes(parts[i..]) == encoded + ListBytes(parts)
    {
      ghost var rest := PartsBytes(parts[i + 1..]);
      assert parts[i..][1..] == parts[i + 1..];
      assert r + LengthBytes(|parts[i]|) + parts[i] + rest == r + (LengthBytes(|parts[i]|) + parts[i] + rest);
      r := r + LengthBytes(|parts[i]|);
      r := r + parts[i];
    }
  }

  /** The bytes that are hashed. */
  method Preimage(urls: seq<Bytes>, headers: seq<Bytes>) returns (encoded: Bytes)
    ensures encoded == ListBytes(urls) + ListBytes(headers)
  {
    encoded := AppendList([], urls);
    encoded := AppendList(encoded, headers);
  }

  /** Every length fits a `u64`, as every length in memory does. */
  ghost predicate Sized(parts: seq<Bytes>) {
    && |parts| < Pow(256, 8)
    && forall i :: 0 <= i < |parts| ==> |parts[i]| < Pow(256, 8)
  }

  lemma LengthBytesInjective(m: nat, n: nat)
    requires m < Pow(256, 8) && n < Pow(256, 8)
    requires LengthBytes(m) == LengthBytes(n)
    ensures m == n
  {
    BigEndianRoundTrip(m, 8);
    BigEndianRoundTrip(n, 8);
  }

  /** A length-prefixed part can be told apart from what follows it. */
  lemma PartInjective(a: Bytes, b: Bytes, x: Bytes, y: Bytes)
    requires |a| < Pow(256, 8) && |b| < Pow(256, 8)
    requires LengthBytes(|a|) + a + x == LengthBytes(|b|) + b + y
    ensures a == b && x == y
  {
    var s, t := LengthBytes(|a|) + a + x, LengthBytes(|b|) + b + y;
    assert s[..8] == LengthBytes(|a|) && t[..8] == LengthBytes(|b|);
    LengthBytesInjective(|a|, |b|);
    assert s[8..8 + |a|] == a && t[8..8 + |a|] == b;
    assert s[8 + |a|..] == x && t[8 + |a|..] == y;
  }

  lemma {:induction false} PartsInjective(a: seq<Bytes>, b: seq<Bytes>, x: Bytes, y: Bytes)
    requires Sized(a) && Sized(b) && |a| == |b|
    requires PartsBytes(a) + x == PartsBytes(b) + y
    ensures a == b && x == y
  {
    if a == [] {
      assert PartsBytes(a) + x == x && PartsBytes(b) + y == y;
    } else {
      var rest, rest' := PartsBytes(a[1..]) + x, PartsBytes(b[1..]) + y;
      assert PartsBytes(a) + x == LengthBytes(|a[0]|) + a[0] + rest;
      assert PartsBytes(b) + y == LengthBytes(|b[0]|) + b[0] + rest';
      PartInjective(a[0], b[0], rest, rest');
      PartsInjective(a[1..], b[1..], x, y);
      assert a == [a[0]] + a[1..] && b == [b[0]] + b[1..];
    }
  }

  lemma ListInjective(a: seq<Bytes>, b: seq<Bytes>, x: Bytes, y: Bytes)
    requires Sized(a) && Sized(b)
    requires ListBytes(a) + x == ListBytes(b) + y
    ensures a == b && x == y
  {
    var s, t := ListBytes(a) + x, ListBytes(b) + y;
    assert s[..8] == LengthBytes(|a|) && t[..8] == LengthBytes(|b|);
    LengthBytesInjective(|a|, |b|);
    assert s[8..] == PartsBytes(a) + x && t[8..] == PartsBytes(b) + y;
    PartsInjective(a, b, x, y);
  }

  /** Equal preimages come from equal URL lists and equal header lists: no regrouping of the same
      text collides. */
  lemma PreimageIsInjective(
    urls: seq<Bytes>, headers: seq<Bytes>, urls': seq<Bytes>, headers': seq<Bytes>)
    requires Sized(urls) && Sized(headers) && Sized(urls') && Sized(headers')
    ensures ListBytes(urls) + ListBytes(headers) == ListBytes(urls') + ListBytes(headers') <==>
      urls == urls' && headers == headers'
  {
    if ListBytes(urls) + ListBytes(headers) == ListBytes(urls') + ListBytes(headers') {
      ListInjective(urls, urls', ListBytes(headers), ListBytes(headers'));
      assert ListBytes(headers) + [] == ListBytes(headers) && ListBytes(headers') + [] == ListBytes(headers');
      ListInjective(headers, headers', [], []);
    }
  }
}
