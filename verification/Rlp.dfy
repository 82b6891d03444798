/**
 RLP items (crates/cast/src/rlp_converter.rs): encoding, and the decoder that keeps its own stack of
 list frames instead of recursing. The header layer follows Appendix B of the Ethereum Yellow Paper:
 a decoder is its inverse, so non-minimal length prefixes are rejected.
 */
module Rlp {
  import opened Common

  datatype Item = Data(bytes: seq<byte>) | Array(items: seq<Item>)

  datatype RlpError = InputTooShort | LeadingZero | NonCanonicalSingleByte | NonCanonicalSize

  // ----- encoding, Appendix B -----

  /** The big-endian form of `n` without leading zeros. */
  function MinimalBigEndian(n: nat): seq<byte> {
    if n == 0 then [] else MinimalBigEndian(n / 256) + [n % 256]
  }

  /** Lengths that fit in eight bytes. */
  predicate LengthFits(n: nat) {
    |MinimalBigEndian(n)| <= 8
  }

  /** The prefix for a payload of `n` bytes: a string when `base` is 0x80, a list when 0xc0. */
  function LengthPrefix(base: byte, n: nat): (r: seq<byte>)
    requires (base == 0x80 || base == 0xc0) && LengthFits(n)
    ensures |r| >= 1
  {
    if n < 56 then [base + n]
    else [base + 55 + |MinimalBigEndian(n)|] + MinimalBigEndian(n)
  }

  /** Undefined for items whose lengths do not fit. */
  function Encode(x: Item): Option<seq<byte>> {
    match x
    case Data(d) =>
      if |d| == 1 && d[0] < 0x80 then Some(d)
      else if LengthFits(|d|) then Some(LengthPrefix(0x80, |d|) + d)
      else None
    case Array(items) =>
      var payload := EncodeAll(items);
      if payload.Some? && LengthFits(|payload.value|) then
        Some(LengthPrefix(0xc0, |payload.value|) + payload.value)
      else None
  }

  function EncodeAll(items: seq<Item>): Option<seq<byte>> {
    if items == [] then Some([])
    else
      var head, tail := Encode(items[0]), EncodeAll(items[1..]);
      if head.Some? && tail.Some? then Some(head.value + tail.value) else None
  }

  // ----- headers -----

  datatype Header = Header(list: bool, prefix: nat, payload: nat) {
    function Total(): nat { prefix + payload }
  }

  /** Reads a header and checks that its payload is there. */
  function DecodeHeader(buf: seq<byte>): (r: Result<Header, RlpError>)
    ensures r.Ok? ==> 1 <= r.value.Total() <= |buf|
    ensures r.Ok? && r.value.list ==> r.value.prefix >= 1
  {
    if buf == [] then Err(InputTooShort)
    else if buf[0] < 0x80 then Ok(Header(false, 0, 1))
    else if buf[0] < 0xb8 then
      var n := buf[0] - 0x80;
      if n == 1 && |buf| < 2 then Err(InputTooShort)
      else if n == 1 && buf[1] < 0x80 then Err(NonCanonicalSingleByte)
      else Sized(buf, Header(false, 1, n))
    else if buf[0] < 0xc0 then LongHeader(buf, false, buf[0] - 0xb7)
    else if buf[0] < 0xf8 then Sized(buf, Header(true, 1, buf[0] - 0xc0))
    else LongHeader(buf, true, buf[0] - 0xf7)
  }

  function Sized(buf: seq<byte>, h: Header): Result<Header, RlpError> {
    if |buf| < h.Total() then Err(InputTooShort) else Ok(h)
  }

  function LongHeader(buf: seq<byte>, list: bool, n: nat): Result<Header, RlpError>
    requires buf != [] && n >= 1
  {
    if |buf| < 1 + n then Err(InputTooShort)
    else if buf[1] == 0 then Err(LeadingZero)
    else
      var length := FromBigEndian(buf[1..1 + n]);
      if length < 56 then Err(NonCanonicalSize) else Sized(buf, Header(list, 1 + n, length))
  }

  // ----- one level of decoding -----

  datatype PayloadView = StringView(data: seq<byte>) | ListView(items: seq<seq<byte>>)

  /** The encoded items of a list payload, side by side. */
  function SplitItems(payload: seq<byte>): Result<seq<seq<byte>>, RlpError>
    decreases |payload|
  {
    if payload == [] then Ok([])
    else
      var h := DecodeHeader(payload);
      if h.Err? then Err(h.error)
      else
        var rest := SplitItems(payload[h.value.Total()..]);
        if rest.Err? then rest else Ok([payload[..h.value.Total()]] + rest.value)
  }

  /** The total length of encoded items. */
  function TotalLength(items: seq<seq<byte>>): nat {
    if items == [] then 0 else |items[0]| + TotalLength(items[1..])
  }

  lemma {:induction false} SplitItemsLength(payload: seq<byte>)
    ensures SplitItems(payload).Ok? ==> TotalLength(SplitItems(payload).value) == |payload|
    ensures SplitItems(payload).Ok? ==> Concat(SplitItems(payload).value) == payload
    ensures SplitItems(payload).Ok? ==> forall e | e in SplitItems(payload).value :: 1 <= |e| <= |payload|
    decreases |payload|
  {
    if payload != [] && DecodeHeader(payload).Ok? {
      var n := DecodeHeader(payload).value.Total();
      SplitItemsLength(payload[n..]);
      if SplitItems(payload).Ok? {
        var items := SplitItems(payload).value;
        assert items[1..] == SplitItems(payload[n..]).value;
        assert payload[..n] + payload[n..] == payload;
      }
    }
  }

  function DecodeRaw(buf: seq<byte>): (r: Result<(PayloadView, seq<byte>), RlpError>)
    ensures r.Ok? && r.value.0.ListView? ==> forall e | e in r.value.0.items :: 1 <= |e| < |buf|
    ensures r.Ok? && r.value.0.ListView? ==> TotalLength(r.value.0.items) < |buf|
  {
    var h := DecodeHeader(buf);
    if h.Err? then Err(h.error)
    else
      var payload := buf[h.value.prefix..h.value.Total()];
      var rest := buf[h.value.Total()..];
      if !h.value.list then Ok((StringView(payload), rest))
      else
        SplitItemsLength(payload);
        var items := SplitItems(payload);
        if items.Err? then Err(items.error) else Ok((ListView(items.value), rest))
  }

  // ----- the recursive reference decoder -----

  function DecodeItem(buf: seq<byte>): Result<(Item, seq<byte>), RlpError>
    decreases |buf|
  {
    var raw := DecodeRaw(buf);
    if raw.Err? then Err(raw.error)
    else match raw.value.0
      case StringView(data) => Ok((Data(data), raw.value.1))
      case ListView(encoded) =>
        var items := DecodeEach(encoded, |buf|);
        if items.Err? then Err(items.error) else Ok((Array(items.value), raw.value.1))
  }

  /** Decodes each encoded item on its own; `bound` exceeds all their lengths. */
  function DecodeEach(encoded: seq<seq<byte>>, ghost bound: nat): Result<seq<Item>, RlpError>
    requires forall e | e in encoded :: |e| < bound
    decreases bound, |encoded|
  {
    if encoded == [] then Ok([])
    else
      var head := DecodeItem(encoded[0]);
      if head.Err? then Err(head.error)
      else
        var tail := DecodeEach(encoded[1..], bound);
        if tail.Err? then tail else Ok([head.value.0] + tail.value)
  }

  lemma {:induction false} DecodeEachBound(encoded: seq<seq<byte>>, a: nat, b: nat)
    requires forall e | e in encoded :: |e| < a && |e| < b
    ensures DecodeEach(encoded, a) == DecodeEach(encoded, b)
  {
    if encoded != [] {
      DecodeEachBound(encoded[1..], a, b);
    }
  }

  // ----- the frame stack -----

  /** A list being decoded: the encoded items still to come, and the items decoded so far. */
  datatype ListFrame = ListFrame(remaining: seq<seq<byte>>, items: seq<Item>)

  ghost function Bound(encoded: seq<seq<byte>>): (r: nat)
    ensures forall e | e in encoded :: |e| < r
  {
    if encoded == [] then 0
    else var b := Bound(encoded[1..]); if |encoded[0]| < b then b else |encoded[0]| + 1
  }

  ghost function DecodeRest(encoded: seq<seq<byte>>): Result<seq<Item>, RlpError> {
    DecodeEach(encoded, Bound(encoded))
  }

  ghost function FinishFrame(f: ListFrame): Result<Item, RlpError> {
    var rest := DecodeRest(f.remaining);
    if rest.Err? then Err(rest.error) else Ok(Array(f.items + rest.value))
  }

  function Last(frames: seq<ListFrame>): ListFrame
    requires frames != []
  {
    frames[|frames| - 1]
  }

  function WithItem(f: ListFrame, item: Item): ListFrame {
    f.(items := f.items + [item])
  }

  /** The frames with the last one replaced. */
  function Replaced(frames: seq<ListFrame>, f: ListFrame): (r: seq<ListFrame>)
    requires frames != []
    ensures r != [] && |r| == |frames| && Last(r) == f && r[..|r| - 1] == frames[..|frames| - 1]
  {
    frames[..|frames| - 1] + [f]
  }

  /** What the recursive decoder returns from here: finish the innermost list, hand it to its
      parent, and so on outwards. */
  ghost function Resume(frames: seq<ListFrame>): Result<Item, RlpError>
    requires frames != []
    decreases |frames|
  {
    var inner := FinishFrame(Last(frames));
    if inner.Err? || |frames| == 1 then inner
    else
      var outer := frames[..|frames| - 1];
      Resume(Replaced(outer, WithItem(Last(outer), inner.value)))
  }

  /** Work left: two per encoded byte, and one per open list. */
  function Work(frames: seq<ListFrame>): nat {
    if frames == [] then 0
    else 1 + 2 * TotalLength(Last(frames).remaining) + Work(frames[..|frames| - 1])
  }

  lemma DecodeRestCons(e: seq<byte>, rest: seq<seq<byte>>)
    ensures DecodeRest([e] + rest) ==
      if DecodeItem(e).Err? then Err(DecodeItem(e).error)
      else if DecodeRest(rest).Err? then DecodeRest(rest)
      else Ok([DecodeItem(e).value.0] + DecodeRest(rest).value)
  {
    var all := [e] + rest;
    assert all[1..] == rest;
    assert forall x | x in rest :: x in all;
    DecodeEachBound(rest, Bound(all), Bound(rest));
  }

  /** Taking the next encoded item off the innermost list. */
  lemma FinishNext(f: ListFrame)
    requires f.remaining != []
    ensures var e, rest := f.remaining[0], f.(remaining := f.remaining[1..]);
      FinishFrame(f) ==
      if DecodeItem(e).Err? then Err(DecodeItem(e).error)
      else FinishFrame(WithItem(rest, DecodeItem(e).value.0))
  {
    var e, rest := f.remaining[0], f.remaining[1..];
    assert f.remaining == [e] + rest;
    DecodeRestCons(e, rest);
    if DecodeItem(e).Ok? && DecodeRest(rest).Ok? {
      var x, xs := DecodeItem(e).value.0, DecodeRest(rest).value;
      assert f.items + ([x] + xs) == (f.items + [x]) + xs;
    }
  }

  lemma ResumeCongruence(a: seq<ListFrame>, b: seq<ListFrame>)
    requires a != [] && b != [] && a[..|a| - 1] == b[..|b| - 1]
    requires FinishFrame(Last(a)) == FinishFrame(Last(b))
    ensures Resume(a) == Resume(b)
  {
    assert |a[..|a| - 1]| == |b[..|b| - 1]|;
  }

  /** The decoder with an explicit stack terminates on every input and returns what the recursive
      decoder returns, error for error. */
  method Decode(buf: seq<byte>) returns (r: Result<(Item, seq<byte>), RlpError>)
    ensures r == DecodeItem(buf)
  {
    var raw := DecodeRaw(buf);
    if raw.Err? {
      return Err(raw.error);
    }
    var tail := raw.value.1;
    if raw.value.0.StringView? {
      return Ok((Data(raw.value.0.data), tail));
    }
    var encoded := raw.value.0.items;
    var frames := [ListFrame(encoded, [])];
    DecodeEachBound(encoded, |buf|, Bound(encoded));
    StartResumes(encoded);
    ghost var goal := Resume(frames);
    while true
      invariant frames != []
      invariant Resume(frames) == goal
      decreases Work(frames)
    {
      var top := Last(frames);
      if top.remaining == [] {
        var item := Array(top.items);
        assert FinishFrame(top) == Ok(item) by { assert top.items + [] == top.items; }
        frames := frames[..|frames| - 1];
        if frames == [] {
          return Ok((item, tail));
        }
        WorkReplaced(frames, WithItem(Last(frames), item));
        frames := Replaced(frames, WithItem(Last(frames), item));
      } else {
        var e := top.remaining[0];
        var next := top.(remaining := top.remaining[1..]);
        FinishNext(top);
        var inner := DecodeRaw(e);
        if inner.Err? {
          return Err(inner.error);
        }
        match inner.value.0 {
          case StringView(data) =>
            ResumeCongruence(frames, Replaced(frames, WithItem(next, Data(data))));
            WorkReplaced(frames, WithItem(next, Data(data)));
            EncodedNonEmpty(e);
            frames := Replaced(frames, WithItem(next, Data(data)));
          case ListView(items) =>
            ResumePush(frames, e, next, items);
            WorkReplaced(frames, next);
            frames := Replaced(frames, next) + [ListFrame(items, [])];
            assert frames[..|frames| - 1] == Replaced(frames[..|frames| - 1], next);
        }
      }
    }
  }

  lemma EncodedNonEmpty(e: seq<byte>)
    requires DecodeRaw(e).Ok?
    ensures |e| >= 1
  {
  }

  lemma StartResumes(encoded: seq<seq<byte>>)
    ensures Resume([ListFrame(encoded, [])]) ==
      if DecodeRest(encoded).Err? then Err(DecodeRest(encoded).error) else Ok(Array(DecodeRest(encoded).value))
  {
    if DecodeRest(encoded).Ok? {
      assert [] + DecodeRest(encoded).value == DecodeRest(encoded).value;
    }
  }

  lemma WorkReplaced(frames: seq<ListFrame>, f: ListFrame)
    requires frames != []
    ensures Work(Replaced(frames, f)) ==
      Work(frames) - 2 * TotalLength(Last(frames).remaining) + 2 * TotalLength(f.remaining)
  {
  }

  /** Opening a nested list leaves what the decoder will return unchanged. */
  lemma ResumePush(frames: seq<ListFrame>, e: seq<byte>, next: ListFrame, items: seq<seq<byte>>)
    requires frames != [] && Last(frames).remaining != [] && e == Last(frames).remaining[0]
    requires next == Last(frames).(remaining := Last(frames).remaining[1..])
    requires DecodeRaw(e).Ok? && DecodeRaw(e).value.0 == ListView(items)
    ensures Resume(Replaced(frames, next) + [ListFrame(items, [])]) == Resume(frames)
  {
    var top, nested := Last(frames), ListFrame(items, []);
    var outer := Replaced(frames, next);
    var all := outer + [nested];
    assert all[..|all| - 1] == outer;
    FinishNext(top);
    DecodeEachBound(items, |e|, Bound(items));
    NestedResult(e, items);
    if FinishFrame(nested).Ok? {
      var item := FinishFrame(nested).value;
      ResumeCongruence(frames, Replaced(outer, WithItem(next, item)));
    }
  }

  lemma NestedResult(e: seq<byte>, items: seq<seq<byte>>)
    requires DecodeRaw(e).Ok? && DecodeRaw(e).value.0 == ListView(items)
    ensures FinishFrame(ListFrame(items, [])).Err? <==> DecodeItem(e).Err?
    ensures DecodeItem(e).Err? ==> FinishFrame(ListFrame(items, [])).error == DecodeItem(e).error
    ensures DecodeItem(e).Ok? ==> FinishFrame(ListFrame(items, [])).value == DecodeItem(e).value.0
  {
    DecodeEachBound(items, |e|, Bound(items));
    if DecodeRest(items).Ok? {
      assert [] + DecodeRest(items).value == DecodeRest(items).value;
    }
  }
}
