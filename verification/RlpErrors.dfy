/**
 What an error of the RLP header layer means: an input is too short exactly when more bytes could make it
 right, and any other error is there to stay.
 */
module RlpErrors {
  import opened Common
  import opened Rlp

  /** More bytes make the header right. */
  ghost predicate Completable(buf: seq<byte>) {
    exists tail :: DecodeHeader(buf + tail).Ok?
  }

  /** The number of bytes that hold the length, for a payload of more than 55 bytes. */
  function LengthBytes(first: byte): nat {
    if 0xb8 <= first < 0xc0 then first - 0xb7 else if 0xf8 <= first then first - 0xf7 else 0
  }

  /** The length is cut short and would be rejected anyway for its leading zero. */
  predicate CutLeadingZero(buf: seq<byte>) {
    1 < |buf| <= LengthBytes(buf[0]) && buf[1] == 0
  }

  lemma {:induction false} LargeLength(bytes: seq<byte>)
    requires bytes != [] && (bytes[0] >= 56 || (|bytes| >= 2 && bytes[0] >= 1))
    ensures FromBigEndian(bytes) >= 56
  {
    var front := bytes[..|bytes| - 1];
    if |bytes| == 1 {
      assert FromBigEndian(front) == 0;
    } else if |bytes| == 2 {
      assert front[..0] == [];
      assert FromBigEndian(front) == bytes[0];
    } else {
      LargeLength(front);
    }
  }

  /** A long header whose length is there, right and large becomes right with its payload. */
  lemma LongCompletes(buf: seq<byte>, list: bool, n: nat) returns (tail: seq<byte>)
    requires n >= 1 && |buf| >= 1 + n && buf[1] != 0 && FromBigEndian(buf[1..1 + n]) >= 56
    ensures LongHeader(buf + tail, list, n).Ok?
  {
    tail := Repeat(0, 1 + n + FromBigEndian(buf[1..1 + n]));
    assert (buf + tail)[1..1 + n] == buf[1..1 + n];
  }

  /** A cut length that does not start with zero can be filled up. */
  lemma CutCompletes(buf: seq<byte>, list: bool, n: nat) returns (tail: seq<byte>)
    requires 1 <= |buf| <= n && (|buf| > 1 ==> buf[1] != 0)
    ensures LongHeader(buf + tail, list, n).Ok?
  {
    var fill := if |buf| > 1 then Repeat(0, 1 + n - |buf|) else [56] + Repeat(0, n - 1);
    var whole := buf + fill;
    assert whole[1..1 + n][0] == whole[1] != 0;
    LargeLength(whole[1..1 + n]);
    var payload := LongCompletes(whole, list, n);
    tail := fill + payload;
    assert buf + tail == whole + payload;
  }

  lemma TooShortCompletes(buf: seq<byte>) returns (tail: seq<byte>)
    requires DecodeHeader(buf) == Err(InputTooShort) && !CutLeadingZero(buf)
    ensures DecodeHeader(buf + tail).Ok?
  {
    if buf == [] {
      tail := [0];
    } else if buf[0] < 0xb8 {
      tail := [0x80] + Repeat(0, 55);
    } else if LengthBytes(buf[0]) == 0 {
      tail := Repeat(0, 56);
    } else if |buf| <= LengthBytes(buf[0]) {
      tail := CutCompletes(buf, buf[0] >= 0xf8, LengthBytes(buf[0]));
    } else {
      tail := LongCompletes(buf, buf[0] >= 0xf8, LengthBytes(buf[0]));
    }
  }

  /** Any other error stays, whatever follows. */
  lemma ErrorStays(buf: seq<byte>, tail: seq<byte>)
    requires DecodeHeader(buf).Err? && DecodeHeader(buf) != Err(InputTooShort)
    ensures DecodeHeader(buf + tail) == DecodeHeader(buf)
  {
    var n := LengthBytes(buf[0]);
    if n > 0 {
      assert (buf + tail)[1..1 + n] == buf[1..1 + n];
    }
  }

  lemma CutLeadingZeroFails(buf: seq<byte>, tail: seq<byte>)
    requires CutLeadingZero(buf)
    ensures DecodeHeader(buf + tail).Err? && DecodeHeader(buf) == Err(InputTooShort)
  {
  }

  /** A header is reported as too short if and only if it is wrong and more bytes could make it right, or its
      length was cut before its leading zero could be objected to. */
  lemma TooShortIff(buf: seq<byte>)
    ensures DecodeHeader(buf) == Err(InputTooShort) <==>
      DecodeHeader(buf).Err? && (Completable(buf) || CutLeadingZero(buf))
  {
    if DecodeHeader(buf) == Err(InputTooShort) && !CutLeadingZero(buf) {
      var tail := TooShortCompletes(buf);
    }
    if CutLeadingZero(buf) {
      CutLeadingZeroFails(buf, []);
    }
    if DecodeHeader(buf).Err? && DecodeHeader(buf) != Err(InputTooShort) {
      forall tail ensures DecodeHeader(buf + tail).Err? {
        ErrorStays(buf, tail);
      }
    }
  }

  /** The other errors: a single byte below 0x80 behind a prefix, a length with a leading zero, or a length of
      at most 55 in the long form. */
  lemma OtherErrors(buf: seq<byte>)
    ensures DecodeHeader(buf) == Err(NonCanonicalSingleByte) <==> |buf| >= 2 && buf[0] == 0x81 && buf[1] < 0x80
    ensures DecodeHeader(buf) == Err(LeadingZero) <==>
      buf != [] && 0 < LengthBytes(buf[0]) < |buf| && buf[1] == 0
    ensures DecodeHeader(buf) == Err(NonCanonicalSize) <==>
      && buf != [] && 0 < LengthBytes(buf[0]) < |buf| && buf[1] != 0
      && FromBigEndian(buf[1..1 + LengthBytes(buf[0])]) <= 55
  {
  }
}
