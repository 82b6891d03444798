/** RLP decoding inverts encoding, and accepts nothing but encodings. */
module RlpRoundTrip {
  import opened Common
  import opened Rlp

  // ----- minimal big-endian lengths -----

  lemma {:induction false} MinimalReadsBack(n: nat)
    ensures FromBigEndian(MinimalBigEndian(n)) == n
    ensures n > 0 ==> MinimalBigEndian(n) != [] && MinimalBigEndian(n)[0] != 0
  {
    if n > 0 {
      MinimalReadsBack(n / 256);
      var m := MinimalBigEndian(n);
      assert m[..|m| - 1] == MinimalBigEndian(n / 256);
      if n < 256 {
        assert MinimalBigEndian(n / 256) == [];
      }
    }
  }

  lemma {:induction false} MinimalIsUnique(bytes: seq<byte>)
    requires bytes != [] && bytes[0] != 0
    ensures FromBigEndian(bytes) > 0
    ensures MinimalBigEndian(FromBigEndian(bytes)) == bytes
  {
    var front, last := bytes[..|bytes| - 1], bytes[|bytes| - 1];
    assert bytes == front + [last];
    if front == [] {
      assert FromBigEndian(front) == 0;
      assert MinimalBigEndian(last / 256) == [];
    } else {
      MinimalIsUnique(front);
      assert (FromBigEndian(front) * 256 + last) / 256 == FromBigEndian(front);
    }
  }

  // ----- headers -----

  /** The prefix of a payload reads back as its header, whatever follows. */
  lemma PrefixReadsBack(base: byte, payload: seq<byte>, tail: seq<byte>)
    requires (base == 0x80 || base == 0xc0) && LengthFits(|payload|)
    requires base == 0x80 && |payload| == 1 ==> payload[0] >= 0x80
    ensures var prefix := LengthPrefix(base, |payload|);
      DecodeHeader(prefix + payload + tail) == Ok(Header(base == 0xc0, |prefix|, |payload|))
  {
    var n, prefix := |payload|, LengthPrefix(base, |payload|);
    var buf := prefix + payload + tail;
    assert buf[0] == prefix[0];
    if n < 56 {
      assert n == 1 ==> buf[1] == payload[0];
    } else {
      var length := MinimalBigEndian(n);
      MinimalReadsBack(n);
      assert buf[1..1 + |length|] == length;
      assert buf[1] == length[0];
    }
  }

  /** The length of a long header is minimal, and determines its bytes. */
  lemma LongIsCanonical(buf: seq<byte>, list: bool, n: nat)
    requires buf != [] && 1 <= n <= 8 && LongHeader(buf, list, n).Ok?
    ensures var h := LongHeader(buf, list, n).value;
      && h.list == list && h.prefix == 1 + n && h.payload >= 56
      && MinimalBigEndian(h.payload) == buf[1..1 + n]
  {
    MinimalIsUnique(buf[1..1 + n]);
  }

  /** A header that reads determines its bytes. */
  lemma HeaderIsCanonical(buf: seq<byte>)
    requires DecodeHeader(buf).Ok? && buf[0] >= 0x80
    ensures var h := DecodeHeader(buf).value;
      && LengthFits(h.payload)
      && buf[..h.prefix] == LengthPrefix(if h.list then 0xc0 else 0x80, h.payload)
      && (!h.list && h.payload == 1 ==> buf[h.prefix] >= 0x80)
  {
    var h := DecodeHeader(buf).value;
    if buf[0] < 0xb8 || 0xc0 <= buf[0] < 0xf8 {
      ShortFits(h.payload);
    } else if buf[0] < 0xc0 {
      LongIsCanonical(buf, false, buf[0] - 0xb7);
      assert buf[..h.prefix] == [buf[0]] + buf[1..h.prefix];
    } else {
      LongIsCanonical(buf, true, buf[0] - 0xf7);
      assert buf[..h.prefix] == [buf[0]] + buf[1..h.prefix];
    }
  }

  lemma ShortFits(n: nat)
    requires n < 256
    ensures LengthFits(n)
  {
    assert MinimalBigEndian(n / 256) == [];
  }

  lemma LongHeaderOfExact(buf: seq<byte>, list: bool, n: nat)
    requires buf != [] && n >= 1 && LongHeader(buf, list, n).Ok?
    ensures var total := LongHeader(buf, list, n).value.Total();
      1 + n <= total <= |buf| && LongHeader(buf[..total], list, n) == LongHeader(buf, list, n)
  {
    var item := buf[..LongHeader(buf, list, n).value.Total()];
    assert item[1..1 + n] == buf[1..1 + n];
  }

  /** Only the item itself matters to its header, not what follows. */
  lemma HeaderOfExact(buf: seq<byte>)
    requires DecodeHeader(buf).Ok?
    ensures DecodeHeader(buf[..DecodeHeader(buf).value.Total()]) == DecodeHeader(buf)
  {
    var item := buf[..DecodeHeader(buf).value.Total()];
    assert item[0] == buf[0];
    if 0xb8 <= buf[0] < 0xc0 {
      LongHeaderOfExact(buf, false, buf[0] - 0xb7);
    } else if buf[0] >= 0xf8 {
      LongHeaderOfExact(buf, true, buf[0] - 0xf7);
    }
  }

  // ----- decoding encodings -----

  /** The header of an encoded item spans exactly the encoding. */
  lemma EncodingSpans(x: Item, tail: seq<byte>)
    requires Encode(x).Some?
    ensures Encode(x).value != []
    ensures DecodeHeader(Encode(x).value + tail).Ok?
    ensures DecodeHeader(Encode(x).value + tail).value.Total() == |Encode(x).value|
  {
    var e := Encode(x).value;
    assert (e + tail)[0] == e[0];
    match x {
      case Data(d) =>
        if !(|d| == 1 && d[0] < 0x80) {
          PrefixReadsBack(0x80, d, tail);
        }
      case Array(items) =>
        PrefixReadsBack(0xc0, EncodeAll(items).value, tail);
    }
  }

  function Encodings(items: seq<Item>): seq<seq<byte>>
    requires EncodeAll(items).Some?
  {
    if items == [] then [] else [Encode(items[0]).value] + Encodings(items[1..])
  }

  /** Splitting the payload of a list gives back the encodings of its items. */
  lemma {:induction false} SplitOfEncodings(items: seq<Item>)
    requires EncodeAll(items).Some?
    ensures SplitItems(EncodeAll(items).value) == Ok(Encodings(items))
  {
    if items != [] {
      var e, rest := Encode(items[0]).value, EncodeAll(items[1..]).value;
      SplitOfEncodings(items[1..]);
      EncodingSpans(items[0], rest);
      assert (e + rest)[..|e|] == e && (e + rest)[|e|..] == rest;
    }
  }

  /** Decoding the encoding of any item gives the item back and leaves the rest of the input. */
  lemma {:induction false} DecodeInvertsEncode(x: Item, tail: seq<byte>)
    requires Encode(x).Some?
    ensures DecodeItem(Encode(x).value + tail) == Ok((x, tail))
    decreases x
  {
    var e := Encode(x).value;
    var buf := e + tail;
    EncodingSpans(x, tail);
    assert buf[|e|..] == tail;
    match x {
      case Data(d) =>
        if |d| == 1 && d[0] < 0x80 {
          assert buf[0..1] == d;
        } else {
          PrefixReadsBack(0x80, d, tail);
          assert buf[|LengthPrefix(0x80, |d|)|..|e|] == d;
        }
      case Array(items) =>
        var payload := EncodeAll(items).value;
        PrefixReadsBack(0xc0, payload, tail);
        var prefix := LengthPrefix(0xc0, |payload|);
        assert buf[|prefix|..|e|] == payload;
        SplitOfEncodings(items);
        SplitItemsLength(payload);
        DecodeEachInvertsEncode(items, |buf|);
    }
  }

  lemma {:induction false} DecodeEachInvertsEncode(items: seq<Item>, bound: nat)
    requires EncodeAll(items).Some?
    requires forall e | e in Encodings(items) :: |e| < bound
    ensures DecodeEach(Encodings(items), bound) == Ok(items)
    decreases items
  {
    if items != [] {
      var all := Encodings(items);
      assert all[1..] == Encodings(items[1..]);
      assert forall e | e in all[1..] :: e in all;
      DecodeInvertsEncode(items[0], []);
      assert all[0] + [] == all[0];
      DecodeEachInvertsEncode(items[1..], bound);
      assert [items[0]] + items[1..] == items;
    }
  }

  // ----- nothing but encodings decodes -----

  /** The header of `e` spans all of `e`. */
  ghost predicate Exact(e: seq<byte>) {
    DecodeHeader(e).Ok? && DecodeHeader(e).value.Total() == |e|
  }

  lemma {:induction false} SplitIsExact(payload: seq<byte>)
    requires SplitItems(payload).Ok?
    ensures forall e | e in SplitItems(payload).value :: Exact(e)
    decreases |payload|
  {
    if payload != [] {
      var n := DecodeHeader(payload).value.Total();
      HeaderOfExact(payload);
      SplitIsExact(payload[n..]);
    }
  }

  /** Whatever decodes is the encoding of the item it decodes to, followed by what was left. */
  lemma {:induction false} EncodeInvertsDecode(buf: seq<byte>)
    requires DecodeItem(buf).Ok?
    ensures Encode(DecodeItem(buf).value.0).Some?
    ensures Encode(DecodeItem(buf).value.0).value + DecodeItem(buf).value.1 == buf
    decreases |buf|
  {
    var h := DecodeHeader(buf).value;
    var payload := buf[h.prefix..h.Total()];
    assert buf == buf[..h.prefix] + payload + buf[h.Total()..];
    if !h.list {
      DataReadsBack(buf);
    } else {
      HeaderIsCanonical(buf);
      SplitItemsLength(payload);
      SplitIsExact(payload);
      EncodeEachInvertsDecode(SplitItems(payload).value, |buf|);
    }
  }

  lemma DataReadsBack(buf: seq<byte>)
    requires DecodeHeader(buf).Ok? && !DecodeHeader(buf).value.list
    ensures var h := DecodeHeader(buf).value;
      Encode(Data(buf[h.prefix..h.Total()])) == Some(buf[..h.Total()])
  {
    var h := DecodeHeader(buf).value;
    var payload := buf[h.prefix..h.Total()];
    if buf[0] < 0x80 {
      assert payload == buf[..1];
    } else {
      HeaderIsCanonical(buf);
      assert h.payload == 1 ==> payload[0] == buf[h.prefix];
      assert buf[..h.prefix] + payload == buf[..h.Total()];
    }
  }

  lemma {:induction false} EncodeEachInvertsDecode(encoded: seq<seq<byte>>, bound: nat)
    requires forall e | e in encoded :: |e| < bound && Exact(e)
    requires DecodeEach(encoded, bound).Ok?
    ensures EncodeAll(DecodeEach(encoded, bound).value) == Some(Concat(encoded))
    decreases bound, |encoded|
  {
    if encoded != [] {
      var e := encoded[0];
      EncodeInvertsDecode(e);
      ExactLeavesNothing(e);
      EncodeEachInvertsDecode(encoded[1..], bound);
      var items := DecodeEach(encoded, bound).value;
      assert items[1..] == DecodeEach(encoded[1..], bound).value;
      assert Encode(items[0]).value + [] == Encode(items[0]).value;
    }
  }

  lemma ExactLeavesNothing(e: seq<byte>)
    requires Exact(e) && DecodeItem(e).Ok?
    ensures DecodeItem(e).value.1 == []
  {
  }

  /** Encoding is injective and prefix-free: two encodings can only start the same input if they
      encode the same item. */
  lemma EncodingsArePrefixFree(x: Item, y: Item, a: seq<byte>, b: seq<byte>)
    requires Encode(x).Some? && Encode(y).Some?
    requires Encode(x).value + a == Encode(y).value + b
    ensures x == y && a == b
  {
    DecodeInvertsEncode(x, a);
    DecodeInvertsEncode(y, b);
  }
}
