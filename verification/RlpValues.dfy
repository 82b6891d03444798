/**
 What a JSON value means as an RLP item (crates/cast/src/rlp_converter.rs): exactly which values convert, and
 to which item.
 */
module RlpValues {
  import opened Common
  import opened Rlp
  import opened RlpRoundTrip
  import opened RlpText
  import NumberBase

  // ----- strings -----

  /** The text spells the bytes, two digits each. */
  ghost predicate SpellsBytes(s: string, bytes: seq<byte>) {
    |s| == 2 * |bytes| &&
    forall i | 0 <= i < |bytes| :: IsHexDigit(s[2 * i], bytes[i] / 16) && IsHexDigit(s[2 * i + 1], bytes[i] % 16)
  }

  lemma DigitIff(c: char, n: nat)
    ensures HexDigitValue(c) == Some(n) <==> IsHexDigit(c, n)
  {
    if n < 16 {
      HexDigitForm(c, n);
    }
  }

  lemma PairIff(hi: nat, lo: nat, b: byte)
    requires hi < 16 && lo < 16
    ensures hi * 16 + lo == b <==> hi == b / 16 && lo == b % 16
  {
  }

  lemma SpellsCons(s: string, bytes: seq<byte>)
    requires |s| >= 2 && bytes != []
    ensures SpellsBytes(s, bytes) <==>
      IsHexDigit(s[0], bytes[0] / 16) && IsHexDigit(s[1], bytes[0] % 16) && SpellsBytes(s[2..], bytes[1..])
  {
    var t, rest := s[2..], bytes[1..];
    if SpellsBytes(t, rest) && IsHexDigit(s[0], bytes[0] / 16) && IsHexDigit(s[1], bytes[0] % 16) {
      forall i | 0 <= i < |bytes|
        ensures IsHexDigit(s[2 * i], bytes[i] / 16) && IsHexDigit(s[2 * i + 1], bytes[i] % 16)
      {
        if i > 0 {
          assert s[2 * i] == t[2 * (i - 1)] && s[2 * i + 1] == t[2 * (i - 1) + 1] && bytes[i] == rest[i - 1];
        }
      }
    }
    if SpellsBytes(s, bytes) {
      assert IsHexDigit(s[2 * 0], bytes[0] / 16) && IsHexDigit(s[2 * 0 + 1], bytes[0] % 16);
      forall i | 0 <= i < |rest| ensures IsHexDigit(t[2 * i], rest[i] / 16) && IsHexDigit(t[2 * i + 1], rest[i] % 16) {
        assert t[2 * i] == s[2 * (i + 1)] && t[2 * i + 1] == s[2 * (i + 1) + 1] && rest[i] == bytes[i + 1];
      }
    }
  }

  lemma {:induction false} PairsIff(s: string, bytes: seq<byte>)
    ensures HexPairs(s) == Some(bytes) <==> SpellsBytes(s, bytes)
  {
    if |s| >= 2 {
      var hi, lo, rest := HexDigitValue(s[0]), HexDigitValue(s[1]), HexPairs(s[2..]);
      if bytes != [] {
        PairsIff(s[2..], bytes[1..]);
        SpellsCons(s, bytes);
        DigitIff(s[0], bytes[0] / 16);
        DigitIff(s[1], bytes[0] % 16);
        if hi.Some? && lo.Some? {
          PairIff(hi.value, lo.value, bytes[0]);
        }
        assert bytes == [bytes[0]] + bytes[1..];
      }
    }
  }

  /** The text without the prefix it may have. */
  function Bare(s: string): string {
    if |s| >= 2 && s[0] == '0' && s[1] == 'x' then s[2..] else s
  }

  lemma DecodesIff(s: string, bytes: seq<byte>)
    ensures HexDecode(s) == Some(bytes) <==> SpellsBytes(Bare(s), bytes)
  {
    PairsIff(Bare(s), bytes);
  }

  // ----- numbers -----

  /** The bytes are the number, most significant first, without leading zeros. */
  predicate IsWord(bytes: seq<byte>, n: nat) {
    FromBigEndian(bytes) == n && (bytes == [] || bytes[0] != 0)
  }

  lemma MinimalIff(bytes: seq<byte>, n: nat)
    ensures bytes == MinimalBigEndian(n) <==> IsWord(bytes, n)
  {
    MinimalReadsBack(n);
    if IsWord(bytes, n) && bytes != [] {
      MinimalIsUnique(bytes);
    }
  }

  /** Decimal digits and nothing else. */
  predicate IsDecimal(s: string) {
    forall i | 0 <= i < |s| :: '0' <= s[i] <= '9'
  }

  lemma {:induction false} DecimalIff(s: string, n: nat)
    ensures DecimalValue(s) == Some(n) <==> IsDecimal(s) && NumberBase.NumeralValue(s, 10) == n
  {
    if s != "" {
      var front, last := s[..|s| - 1], s[|s| - 1];
      if DecimalValue(front).Some? {
        DecimalIff(front, DecimalValue(front).value);
      }
      DecimalIff(front, NumberBase.NumeralValue(front, 10));
      assert IsDecimal(s) <==> IsDecimal(front) && '0' <= last <= '9';
    }
  }

  // ----- values -----

  /** The item a value stands for: null is no bytes, a number below two to the 256 its bytes, a hex string the
      bytes it spells, and a list the items of its values. */
  ghost predicate StandsFor(v: Value, x: Item)
    decreases v, 1
  {
    match v
    case Null => x == Data([])
    case Number(digits) =>
      && IsDecimal(digits) && NumberBase.NumeralValue(digits, 10) < NumberBase.RANGE
      && x.Data? && IsWord(x.bytes, NumberBase.NumeralValue(digits, 10))
    case String(s) => x.Data? && SpellsBytes(Bare(s), x.bytes)
    case List(values) => x.Array? && StandForAll(values, x.items)
    case _ => false
  }

  ghost predicate StandForAll(values: seq<Value>, items: seq<Item>)
    decreases values, 0
  {
    |values| == |items| &&
    (values == [] || (StandsFor(values[0], items[0]) && StandForAll(values[1..], items[1..])))
  }

  lemma NumberIff(digits: string, x: Item)
    ensures ValueToItem(Number(digits)) == Ok(x) <==> StandsFor(Number(digits), x)
  {
    var n := NumberBase.NumeralValue(digits, 10);
    DecimalIff(digits, n);
    if DecimalValue(digits).Some? {
      DecimalIff(digits, DecimalValue(digits).value);
    }
    if x.Data? {
      MinimalIff(x.bytes, n);
    }
  }

  lemma StringIff(s: string, x: Item)
    ensures ValueToItem(String(s)) == Ok(x) <==> StandsFor(String(s), x)
  {
    if x.Data? {
      DecodesIff(s, x.bytes);
    }
  }

  /** A value converts to an item exactly when it stands for it. */
  lemma {:induction false} ConvertsIff(v: Value, x: Item)
    ensures ValueToItem(v) == Ok(x) <==> StandsFor(v, x)
    decreases v, 1
  {
    match v {
      case Number(digits) => NumberIff(digits, x);
      case String(s) => StringIff(s, x);
      case List(values) =>
        if x.Array? {
          AllConvertIff(values, x.items);
        }
      case _ =>
    }
  }

  lemma {:induction false} AllConvertIff(values: seq<Value>, items: seq<Item>)
    ensures ValuesToItems(values) == Ok(items) <==> StandForAll(values, items)
    decreases values, 0
  {
    if values != [] && items != [] {
      ConvertsIff(values[0], items[0]);
      AllConvertIff(values[1..], items[1..]);
      assert items == [items[0]] + items[1..];
    }
  }

  /** In particular every number below two to the 256, written in decimal, converts to bytes that read back as
      that number, and no larger one converts. */
  lemma NumberReadsBack(n: nat)
    ensures var r := ValueToItem(Number(NumberBase.Digits(n, NumberBase.Decimal)));
      if n < NumberBase.RANGE then r.Ok? && r.value.Data? && FromBigEndian(r.value.bytes) == n else r == Err(NotAWord)
  {
    var digits := NumberBase.Digits(n, NumberBase.Decimal);
    NumberBase.DigitsValue(n, NumberBase.Decimal);
    DecimalIff(digits, n);
    MinimalIff(MinimalBigEndian(n), n);
  }
}
