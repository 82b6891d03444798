/**
 Numbers in four bases (crates/cast/src/base.rs): 256-bit two's-complement numbers, printed in a base
 with its prefix and read back with the base detected from the text.

 The integer readers belong to libraries. They are any readers that get plain numerals right.
 */
module NumberBase {
  import opened Common

  datatype Base = Binary | Octal | Decimal | Hexadecimal {
    function Radix(): (r: nat)
      ensures 2 <= r <= 16
    {
      match this
      case Binary => 2
      case Octal => 8
      case Decimal => 10
      case Hexadecimal => 16
    }

    function Prefix(): string {
      match this
      case Binary => "0b"
      case Octal => "0o"
      case Decimal => ""
      case Hexadecimal => "0x"
    }
  }

  // the powers two to the 255 and two to the 256
  const SIGN_BIT: int := 0x8000_0000_0000_0000_0000_0000_0000_0000_0000_0000_0000_0000_0000_0000_0000_0000
  const RANGE: int := 2 * SIGN_BIT

  type U256 = n: nat | n < RANGE

  function WrappingNeg(n: U256): U256 {
    if n == 0 then 0 else RANGE - n
  }

  // ----- numerals -----

  function DigitValue(c: char): (d: nat)
    ensures d <= 16
  {
    if '0' <= c <= '9' then c as int - '0' as int
    else if 'a' <= c <= 'f' then c as int - 'a' as int + 10
    else if 'A' <= c <= 'F' then c as int - 'A' as int + 10
    else 16
  }

  function DigitChar(d: nat): (c: char)
    requires d < 16
    ensures DigitValue(c) == d
    ensures d < 10 ==> '0' <= c <= '9'
  {
    if d < 10 then ('0' as int + d) as char else ('a' as int + d - 10) as char
  }

  predicate IsNumeral(s: string, base: Base) {
    s != [] && forall i :: 0 <= i < |s| ==> DigitValue(s[i]) < base.Radix()
  }

  function NumeralValue(s: string, radix: nat): nat {
    if s == [] then 0 else NumeralValue(s[..|s| - 1], radix) * radix + DigitValue(s[|s| - 1])
  }

  /** The digits of a number, most significant first, in lower case. */
  function Digits(v: nat, base: Base): (s: string)
    ensures IsNumeral(s, base)
    ensures base == Decimal ==> forall i :: 0 <= i < |s| ==> '0' <= s[i] <= '9'
    decreases v
  {
    var radix := base.Radix();
    if v < radix then [DigitChar(v)] else Digits(v / radix, base) + [DigitChar(v % radix)]
  }

  lemma {:induction false} DigitsValue(v: nat, base: Base)
    ensures NumeralValue(Digits(v, base), base.Radix()) == v
    decreases v
  {
    var radix := base.Radix();
    if v < radix {
      assert Digits(v, base)[..0] == [];
    } else {
      DigitsValue(v / radix, base);
      assert Digits(v, base)[..|Digits(v / radix, base)|] == Digits(v / radix, base);
    }
  }

  // ----- library readers -----

  datatype Readers = Readers(
    readU256: (string, Base) -> Option<U256>,
    acceptsU64: (string, Base) -> bool)

  /** The readers get the text right if it is a numeral, and a sign is no digit to them. An overflow does not
      count against the 64-bit reader, which is only asked whether the digits are right. */
  predicate Reads(lib: Readers, s: string, base: Base) {
    && (IsNumeral(s, base) ==>
          && lib.acceptsU64(s, base)
          && var v := NumeralValue(s, base.Radix()); v < RANGE ==> lib.readU256(s, base) == Some(v))
    && (s != [] && (s[0] == '+' || s[0] == '-') ==> lib.readU256(s, base) == None)
  }

  ghost predicate ReadNumerals(lib: Readers) {
    forall s, base :: Reads(lib, s, base)
  }

  // ----- numbers -----

  datatype Number = Number(number: U256, isNonnegative: bool, base: Base) {
    function WithBase(b: Base): Number {
      this.(base := b)
    }

    /** The absolute value of the bits as a signed number. */
    function Magnitude(): U256 {
      if number >= SIGN_BIT then RANGE - number else number
    }

    /** The digits without prefix and sign. A negative number in decimal shows the magnitude of the
        signed value. */
    function Format(): string {
      if base == Decimal && !isNonnegative then Digits(Magnitude(), Decimal) else Digits(number, base)
    }

    /** The alternate debug form: sign, prefix, digits. */
    function Print(): string {
      if number == 0 then base.Prefix() + "0"
      else
        (if base != Decimal || isNonnegative then "" else "-") + base.Prefix() + Format()
    }
  }

  datatype Error = BadDigits | OutOfRange

  function FromSigned(v: int): Number
    requires -SIGN_BIT <= v < SIGN_BIT
  {
    Number(if v < 0 then v + RANGE else v, v >= 0, Decimal)
  }

  function FromUnsigned(v: U256): Number {
    Number(v, true, Decimal)
  }

  // ----- reading -----

  function StripSign(s: string): string {
    if s != [] && (s[0] == '+' || s[0] == '-') then s[1..] else s
  }

  /** The text starts with the base's prefix, in either case. */
  predicate HasPrefix(s: string, base: Base) {
    |s| >= 2 && s[0] == '0' &&
    (|| (base == Binary && (s[1] == 'b' || s[1] == 'B'))
     || (base == Octal && (s[1] == 'o' || s[1] == 'O'))
     || (base == Hexadecimal && (s[1] == 'x' || s[1] == 'X')))
  }

  function Detect(lib: Readers, text: string): Result<Base, Error> {
    var s := StripSign(text);
    if HasPrefix(s, Binary) then DetectPrefixed(lib, s, Binary)
    else if HasPrefix(s, Octal) then DetectPrefixed(lib, s, Octal)
    else if HasPrefix(s, Hexadecimal) then DetectPrefixed(lib, s, Hexadecimal)
    else if lib.readU256(s, Decimal).Some? then Ok(Decimal)
    else if lib.readU256(s, Hexadecimal).Some? then Ok(Hexadecimal)
    else Err(BadDigits)
  }

  function DetectPrefixed(lib: Readers, s: string, base: Base): Result<Base, Error>
    requires |s| >= 2
  {
    if lib.acceptsU64(s[2..], base) then Ok(base) else Err(BadDigits)
  }

  function ParseDigits(lib: Readers, s: string, base: Base): Result<U256, Error> {
    var digits := lib.readU256(if HasPrefix(s, base) then s[2..] else s, base);
    if digits.Some? then Ok(digits.value) else Err(BadDigits)
  }

  /** Reads a signed number in a base. */
  function ParseIntIn(lib: Readers, text: string, base: Base): Result<Number, Error> {
    var negative := text != [] && text[0] == '-';
    var digits := ParseDigits(lib, StripSign(text), base);
    if digits.Err? then Err(digits.error)
    else if !negative then Ok(Number(digits.value, true, base))
    else if digits.value > SIGN_BIT then Err(OutOfRange)
    else Ok(Number(WrappingNeg(digits.value), false, base))
  }

  function ParseInt(lib: Readers, text: string): Result<Number, Error> {
    var base := Detect(lib, text);
    if base.Err? then Err(base.error) else ParseIntIn(lib, text, base.value)
  }

  function ParseUint(lib: Readers, text: string): Result<Number, Error> {
    var base := Detect(lib, text);
    if base.Err? then Err(base.error)
    else
      var digits := ParseDigits(lib, text, base.value);
      if digits.Err? then Err(digits.error) else Ok(Number(digits.value, true, base.value))
  }

  // ----- the sign agrees with the bits -----

  /** A number marked negative is negative as a signed number, or zero. */
  predicate SignAgrees(n: Number) {
    n.isNonnegative || n.number == 0 || n.number >= SIGN_BIT
  }

  /** Every way to make a number gives one whose sign agrees, in every base. */
  lemma MadeNumbersAgree(lib: Readers, text: string, base: Base, base': Base, v: int, u: U256)
    requires -SIGN_BIT <= v < SIGN_BIT
    ensures SignAgrees(FromSigned(v).WithBase(base')) && SignAgrees(FromUnsigned(u).WithBase(base'))
    ensures ParseIntIn(lib, text, base).Ok? ==> SignAgrees(ParseIntIn(lib, text, base).value.WithBase(base'))
    ensures ParseInt(lib, text).Ok? ==> SignAgrees(ParseInt(lib, text).value.WithBase(base'))
    ensures ParseUint(lib, text).Ok? ==> SignAgrees(ParseUint(lib, text).value.WithBase(base'))
  {
  }

  // ----- what is read -----

  /** The number that bits stand for in two's complement. */
  function SignedValue(n: U256): int {
    if n < SIGN_BIT then n else n - RANGE
  }

  /** The prefix of a base, in either case. */
  predicate IsPrefix(prefix: string, base: Base) {
    match base
    case Binary => prefix == "0b" || prefix == "0B"
    case Octal => prefix == "0o" || prefix == "0O"
    case Decimal => prefix == ""
    case Hexadecimal => prefix == "0x" || prefix == "0X"
  }

  predicate IsSign(sign: string) {
    sign == "" || sign == "+" || sign == "-"
  }

  lemma PlainText(s: string)
    requires s != [] && forall i :: 0 <= i < |s| ==> '0' <= s[i] <= '9'
    ensures StripSign(s) == s && !HasPrefix(s, Binary) && !HasPrefix(s, Octal) && !HasPrefix(s, Hexadecimal)
  {
  }

  lemma StripsSign(sign: string, body: string)
    requires IsSign(sign) && body != [] && body[0] != '+' && body[0] != '-'
    ensures StripSign(sign + body) == body
  {
    if sign == "" {
      assert sign + body == body;
    } else {
      assert (sign + body)[1..] == body;
    }
  }

  /** What the digits of a base are worth. */
  function RadixOf(base: Base): nat {
    match base case Binary => 2 case Octal => 8 case Decimal => 10 case Hexadecimal => 16
  }

  ghost predicate IsDigitOf(c: char, base: Base) {
    exists d | 0 <= d < RadixOf(base) :: IsHexDigit(c, d)
  }

  lemma DigitIff(c: char, d: nat)
    requires d < 16
    ensures DigitValue(c) == d <==> IsHexDigit(c, d)
  {
    HexDigitForm(c, d);
  }

  /** Digits after the prefix of their base, or decimal digits without one. */
  ghost predicate IsBody(body: string, prefix: string, s: string, base: Base) {
    && IsPrefix(prefix, base)
    && s != [] && (forall i | 0 <= i < |s| :: IsDigitOf(s[i], base))
    && NumeralValue(s, RadixOf(base)) < RANGE
    && body == prefix + s
  }

  lemma BodyIsNumeral(body: string, prefix: string, s: string, base: Base)
    requires IsBody(body, prefix, s, base)
    ensures IsNumeral(s, base) && base.Radix() == RadixOf(base)
  {
    forall i | 0 <= i < |s| ensures DigitValue(s[i]) < base.Radix() {
      var d :| 0 <= d < RadixOf(base) && IsHexDigit(s[i], d);
      DigitIff(s[i], d);
    }
  }

  lemma NumeralIsBody(prefix: string, s: string, base: Base)
    requires IsPrefix(prefix, base) && IsNumeral(s, base) && NumeralValue(s, base.Radix()) < RANGE
    ensures IsBody(prefix + s, prefix, s, base)
  {
    forall i | 0 <= i < |s| ensures IsDigitOf(s[i], base) {
      DigitIff(s[i], DigitValue(s[i]));
      assert IsHexDigit(s[i], DigitValue(s[i]));
    }
  }

  lemma BodyForm(body: string, prefix: string, s: string, base: Base)
    requires IsBody(body, prefix, s, base)
    ensures body != [] && body[0] != '+' && body[0] != '-'
    ensures IsNumeral(s, base) && base.Radix() == RadixOf(base)
    ensures if base == Decimal then body == s && forall i :: 0 <= i < |s| ==> '0' <= s[i] <= '9'
            else HasPrefix(body, base) && body[2..] == s
  {
    BodyIsNumeral(body, prefix, s, base);
    if base == Decimal {
      assert body == s;
      forall i | 0 <= i < |s| ensures '0' <= s[i] <= '9' {
        assert DigitValue(s[i]) < 10;
      }
    }
  }

  lemma NumeralReads(lib: Readers, s: string, base: Base)
    requires ReadNumerals(lib) && IsNumeral(s, base) && NumeralValue(s, base.Radix()) < RANGE
    ensures lib.readU256(s, base) == Some(NumeralValue(s, base.Radix())) && lib.acceptsU64(s, base)
  {
    assert Reads(lib, s, base);
  }

  lemma DetectsPrefix(lib: Readers, text: string, base: Base)
    requires HasPrefix(StripSign(text), base) && lib.acceptsU64(StripSign(text)[2..], base)
    ensures Detect(lib, text) == Ok(base)
  {
  }

  lemma DetectsPlain(lib: Readers, text: string, s: string)
    requires StripSign(text) == s != [] && (forall i :: 0 <= i < |s| ==> '0' <= s[i] <= '9')
    requires lib.readU256(s, Decimal).Some?
    ensures Detect(lib, text) == Ok(Decimal)
  {
    PlainText(s);
  }

  /** The base of such a text is detected. */
  lemma DetectsBase(lib: Readers, text: string, body: string, prefix: string, s: string, base: Base)
    requires ReadNumerals(lib) && IsBody(body, prefix, s, base) && StripSign(text) == body
    ensures Detect(lib, text) == Ok(base)
  {
    BodyForm(body, prefix, s, base);
    NumeralReads(lib, s, base);
    if base == Decimal {
      DetectsPlain(lib, text, s);
    } else {
      DetectsPrefix(lib, text, base);
    }
  }

  lemma ReadsDigits(lib: Readers, body: string, s: string, base: Base, v: U256)
    requires lib.readU256(s, base) == Some(v)
    requires if HasPrefix(body, base) then body[2..] == s else body == s
    ensures ParseDigits(lib, body, base) == Ok(v)
  {
  }

  lemma BodyDigits(body: string, prefix: string, s: string, base: Base)
    requires IsBody(body, prefix, s, base)
    ensures if HasPrefix(body, base) then body[2..] == s else body == s
    ensures IsNumeral(s, base) && base.Radix() == RadixOf(base) && NumeralValue(s, RadixOf(base)) < RANGE
  {
    BodyForm(body, prefix, s, base);
  }

  lemma DigitsParse(lib: Readers, body: string, prefix: string, s: string, base: Base)
    requires ReadNumerals(lib) && IsBody(body, prefix, s, base)
    ensures ParseDigits(lib, body, base) == Ok(NumeralValue(s, RadixOf(base)))
  {
    BodyDigits(body, prefix, s, base);
    assert lib.readU256(s, base) == Some(NumeralValue(s, RadixOf(base))) by {
      NumeralReads(lib, s, base);
    }
    ReadsDigits(lib, body, s, base, NumeralValue(s, RadixOf(base)));
  }

  lemma ParsesSigned(lib: Readers, text: string, base: Base, v: U256)
    requires Detect(lib, text) == Ok(base) && ParseDigits(lib, StripSign(text), base) == Ok(v)
    ensures var r := ParseInt(lib, text);
      if text == [] || text[0] != '-' then r == Ok(Number(v, true, base))
      else if v > SIGN_BIT then r == Err(OutOfRange)
      else r.Ok? && SignedValue(r.value.number) + v == 0 && !r.value.isNonnegative && r.value.base == base
  {
  }

  /** Reading as signed: a sign or none, the prefix of the base in either case, and digits in either case, with
      or without leading zeros, give that number in that base; a negative one below the minimum is out of
      range. */
  lemma ReadsSigned(lib: Readers, sign: string, body: string, prefix: string, s: string, base: Base)
    requires ReadNumerals(lib) && IsSign(sign) && IsBody(body, prefix, s, base)
    ensures var v, r := NumeralValue(s, RadixOf(base)), ParseInt(lib, sign + body);
      if sign != "-" then r == Ok(Number(v, true, base))
      else if v > SIGN_BIT then r == Err(OutOfRange)
      else r.Ok? && SignedValue(r.value.number) + v == 0 && !r.value.isNonnegative && r.value.base == base
  {
    var text := sign + body;
    assert Detect(lib, text) == Ok(base) && StripSign(text) == body && (text[0] == '-' <==> sign == "-") by {
      BodyForm(body, prefix, s, base);
      StripsSign(sign, body);
      DetectsBase(lib, text, body, prefix, s, base);
      assert text[0] == if sign == "" then body[0] else sign[0];
    }
    DigitsParse(lib, body, prefix, s, base);
    ParsesSigned(lib, text, base, NumeralValue(s, RadixOf(base)));
  }

  lemma SignIsNoDigit(lib: Readers, text: string, base: Base)
    requires ReadNumerals(lib) && text != [] && (text[0] == '+' || text[0] == '-')
    ensures ParseDigits(lib, text, base) == Err(BadDigits)
  {
    assert !HasPrefix(text, base);
    assert Reads(lib, text, base);
  }

  /** Reading as unsigned: the same without a sign, and any sign is rejected. */
  lemma ReadsUnsigned(lib: Readers, sign: string, body: string, prefix: string, s: string, base: Base)
    requires ReadNumerals(lib) && IsSign(sign) && IsBody(body, prefix, s, base)
    ensures ParseUint(lib, sign + body) ==
      if sign == "" then Ok(Number(NumeralValue(s, RadixOf(base)), true, base)) else Err(BadDigits)
  {
    assert Detect(lib, sign + body) == Ok(base) by {
      BodyForm(body, prefix, s, base);
      StripsSign(sign, body);
      DetectsBase(lib, sign + body, body, prefix, s, base);
    }
    if sign == "" {
      assert sign + body == body;
      DigitsParse(lib, body, prefix, s, base);
    } else {
      assert (sign + body)[0] == sign[0];
      SignIsNoDigit(lib, sign + body, base);
    }
  }

  /** Digits without a prefix that are none in decimal are hexadecimal, if they are that. */
  lemma ReadsBareHex(lib: Readers, s: string)
    requires ReadNumerals(lib) && IsNumeral(s, Hexadecimal) && NumeralValue(s, 16) < RANGE
    requires lib.readU256(s, Decimal).None? && !HasPrefix(s, Binary)
    ensures ParseInt(lib, s) == ParseUint(lib, s) == Ok(Number(NumeralValue(s, 16), true, Hexadecimal))
  {
    assert StripSign(s) == s;
    assert forall i | 0 <= i < |s| :: DigitValue(s[i]) < 16;
    NumeralReads(lib, s, Hexadecimal);
  }

  /** Numbers made from values hold them. */
  lemma MadeNumbersHold(v: int, u: U256)
    requires -SIGN_BIT <= v < SIGN_BIT
    ensures SignedValue(FromSigned(v).number) == v && (FromSigned(v).isNonnegative <==> v >= 0)
    ensures FromUnsigned(u).number == u && FromUnsigned(u).isNonnegative
    ensures FromSigned(v).base == FromUnsigned(u).base == Decimal
  {
  }

  /** A signed value is printed in decimal as its sign and digits, and in other bases as its two's
      complement behind the prefix. */
  lemma PrintsSigned(v: int, base: Base)
    requires -SIGN_BIT <= v < SIGN_BIT
    ensures FromSigned(v).WithBase(base).Print() ==
      if base == Decimal then (if v < 0 then "-" + Digits(-v, Decimal) else Digits(v, Decimal))
      else base.Prefix() + Digits(if v < 0 then RANGE + v else v, base)
  {
    if v == 0 {
      ZeroDigits(base);
      assert base == Decimal ==> base.Prefix() + "0" == "0";
    } else {
      PrintForm(FromSigned(v).WithBase(base));
    }
  }

  // ----- round trip -----

  lemma PrefixedDigits(base: Base)
    ensures IsPrefix(base.Prefix(), base)
  {
  }

  /** Prefixed digits are read in their base. */
  lemma ReadsPrefixed(lib: Readers, v: U256, base: Base)
    requires ReadNumerals(lib) && base != Decimal
    ensures ParseInt(lib, base.Prefix() + Digits(v, base)) == Ok(Number(v, true, base))
  {
    var body := base.Prefix() + Digits(v, base);
    DigitsValue(v, base);
    PrefixedDigits(base);
    NumeralIsBody(base.Prefix(), Digits(v, base), base);
    ReadsSigned(lib, "", body, base.Prefix(), Digits(v, base), base);
    assert "" + body == body;
  }

  /** Decimal digits are read as decimal, although they are hexadecimal digits too. */
  lemma ReadsDecimal(lib: Readers, v: U256)
    requires ReadNumerals(lib)
    ensures ParseInt(lib, Digits(v, Decimal)) == Ok(Number(v, true, Decimal))
  {
    var body := Digits(v, Decimal);
    DigitsValue(v, Decimal);
    assert "" + body == body;
    NumeralIsBody("", body, Decimal);
    ReadsSigned(lib, "", body, "", body, Decimal);
  }

  lemma ReadsNegative(lib: Readers, v: U256)
    requires ReadNumerals(lib)
    ensures ParseInt(lib, "-" + Digits(v, Decimal)) ==
      if v > SIGN_BIT then Err(OutOfRange) else Ok(Number(WrappingNeg(v), false, Decimal))
  {
    var body := Digits(v, Decimal);
    DigitsValue(v, Decimal);
    assert "" + body == body;
    NumeralIsBody("", body, Decimal);
    ReadsSigned(lib, "-", body, "", body, Decimal);
    NegativeBits(ParseInt(lib, "-" + body), v);
  }

  lemma NegativeBits(r: Result<Number, Error>, v: U256)
    requires v <= SIGN_BIT && r.Ok? ==> SignedValue(r.value.number) + v == 0
    ensures v <= SIGN_BIT && r.Ok? ==> r.value.number == WrappingNeg(v)
  {
  }

  lemma ZeroDigits(base: Base)
    ensures Digits(0, base) == "0"
  {
  }

  lemma ReadsZero(lib: Readers, base: Base)
    requires ReadNumerals(lib)
    ensures ParseInt(lib, base.Prefix() + "0") == Ok(Number(0, true, base))
  {
    ZeroDigits(base);
    if base == Decimal {
      assert base.Prefix() + "0" == "0";
      ReadsDecimal(lib, 0);
    } else {
      ReadsPrefixed(lib, 0, base);
    }
  }

  /** What the printed form of a number is read as. */
  function Reading(n: Number): Number {
    if n.number != 0 && n.base == Decimal && !n.isNonnegative then
      Number(if n.number >= SIGN_BIT then n.number else RANGE - n.number, false, Decimal)
    else Number(n.number, true, n.base)
  }

  lemma PrintForm(n: Number)
    requires n.number != 0
    ensures n.Print() ==
      if n.base != Decimal then n.base.Prefix() + Digits(n.number, n.base)
      else if n.isNonnegative then Digits(n.number, Decimal)
      else "-" + Digits(n.Magnitude(), Decimal)
  {
  }

  lemma ReadsPrint(lib: Readers, n: Number)
    requires ReadNumerals(lib)
    ensures ParseInt(lib, n.Print()) == Ok(Reading(n))
  {
    if n.number == 0 {
      ReadsZero(lib, n.base);
    } else {
      PrintForm(n);
      if n.base != Decimal {
        ReadsPrefixed(lib, n.number, n.base);
      } else if n.isNonnegative {
        ReadsDecimal(lib, n.number);
      } else {
        ReadsNegative(lib, n.Magnitude());
      }
    }
  }

  /** Printing with prefix and reading with the base detected gives the same bits in the same base. */
  predicate Survives(lib: Readers, n: Number) {
    var r := ParseInt(lib, n.Print());
    r.Ok? && r.value.number == n.number && r.value.base == n.base
  }

  /** Base round trip: a number survives exactly when its sign agrees with its bits or is not
      printed. */
  lemma RoundTripIff(lib: Readers, n: Number)
    requires ReadNumerals(lib)
    ensures Survives(lib, n) <==> n.base != Decimal || SignAgrees(n)
  {
    ReadsPrint(lib, n);
  }

  /** So every number made from a signed, an unsigned or a parsed value survives in every base,
      zero and the minimum signed value included. */
  lemma SignedRoundTrip(lib: Readers, v: int, base: Base)
    requires ReadNumerals(lib) && -SIGN_BIT <= v < SIGN_BIT
    ensures Survives(lib, FromSigned(v).WithBase(base))
  {
    RoundTripIff(lib, FromSigned(v).WithBase(base));
  }

  lemma ParsedRoundTrip(lib: Readers, text: string, base: Base)
    requires ReadNumerals(lib) && ParseInt(lib, text).Ok?
    ensures Survives(lib, ParseInt(lib, text).value.WithBase(base))
  {
    var n := ParseInt(lib, text).value;
    MadeNumbersAgree(lib, text, base, base, 0, 0);
    RoundTripIff(lib, n.WithBase(base));
  }

  /** A number that no constructor makes, marked negative with positive bits, does not survive. */
  lemma DisagreeingSignIsLost(lib: Readers)
    requires ReadNumerals(lib)
    ensures Number(1, false, Decimal).Print() == "-1"
    ensures ParseInt(lib, "-1") == Ok(Number(RANGE - 1, false, Decimal))
  {
    assert Digits(1, Decimal) == "1";
    ReadsNegative(lib, 1);
  }
}
