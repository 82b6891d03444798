/**
 The text form of RLP items (crates/cast/src/rlp_converter.rs): the printer that keeps its own stack
 of tasks, reading JSON values back into items, and the drop loop that frees an item without
 recursing.
 */
module RlpText {
  import opened Common
  import opened Rlp

  // ----- hexadecimal -----

  const HEX_DIGITS: string := "0123456789abcdef"

  function HexOf(bytes: seq<byte>): string {
    if bytes == [] then "" else [HEX_DIGITS[bytes[0] / 16], HEX_DIGITS[bytes[0] % 16]] + HexOf(bytes[1..])
  }

  function HexDigitValue(c: char): Option<nat> {
    if '0' <= c <= '9' then Some((c - '0') as nat)
    else if 'a' <= c <= 'f' then Some((c - 'a') as nat + 10)
    else if 'A' <= c <= 'F' then Some((c - 'A') as nat + 10)
    else None
  }

  /** Pairs of digits, in either case. */
  function HexPairs(s: string): Option<seq<byte>> {
    if s == "" then Some([])
    else if |s| == 1 then None
    else
      var hi, lo, rest := HexDigitValue(s[0]), HexDigitValue(s[1]), HexPairs(s[2..]);
      if hi.Some? && lo.Some? && rest.Some? && hi.value * 16 + lo.value < 256
      then Some([hi.value * 16 + lo.value] + rest.value)
      else None
  }

  /** The prefix is optional when decoding. */
  function HexDecode(s: string): Option<seq<byte>> {
    if "0x" <= s then HexPairs(s[2..]) else HexPairs(s)
  }

  lemma HexDigitReadsBack(n: nat)
    requires n < 16
    ensures HexDigitValue(HEX_DIGITS[n]) == Some(n)
    ensures HEX_DIGITS[n] != '"'
  {
  }

  lemma {:induction false} HexReadsBack(bytes: seq<byte>)
    ensures HexPairs(HexOf(bytes)) == Some(bytes)
    ensures '"' !in HexOf(bytes)
  {
    if bytes != [] {
      HexReadsBack(bytes[1..]);
      HexDigitReadsBack(bytes[0] / 16);
      HexDigitReadsBack(bytes[0] % 16);
      var s := HexOf(bytes);
      assert s[2..] == HexOf(bytes[1..]);
      assert s[0] == HEX_DIGITS[bytes[0] / 16] && s[1] == HEX_DIGITS[bytes[0] % 16];
      assert [bytes[0]] + bytes[1..] == bytes;
    }
  }

  // ----- printing -----

  /** The obvious recursive printer. */
  function Printed(x: Item): string {
    match x
    case Data(d) => "\"0x" + HexOf(d) + "\""
    case Array(items) => "[" + PrintedList(items) + "]"
  }

  function PrintedList(items: seq<Item>): string {
    if items == [] then ""
    else if |items| == 1 then Printed(items[0])
    else Printed(items[0]) + "," + PrintedList(items[1..])
  }

  datatype Task = Show(item: Item) | Comma | Close

  function TaskText(t: Task): string {
    match t
    case Show(item) => Printed(item)
    case Comma => ","
    case Close => "]"
  }

  /** What popping every task prints; the last task comes first. */
  function Flush(tasks: seq<Task>): string {
    if tasks == [] then "" else TaskText(tasks[|tasks| - 1]) + Flush(tasks[..|tasks| - 1])
  }

  /** Popping an array leaves less to do than the array itself. */
  function Weight(x: Item): (r: nat)
    ensures r >= 1
  {
    match x
    case Data(_) => 1
    case Array(items) => 2 + ListWeight(items)
  }

  function ListWeight(items: seq<Item>): nat {
    if items == [] then 0 else 1 + Weight(items[0]) + ListWeight(items[1..])
  }

  function TaskWeight(t: Task): nat {
    match t
    case Show(item) => Weight(item)
    case Comma => 1
    case Close => 1
  }

  function TotalWeight(tasks: seq<Task>): nat {
    if tasks == [] then 0 else TaskWeight(tasks[|tasks| - 1]) + TotalWeight(tasks[..|tasks| - 1])
  }

  lemma FlushPush(tasks: seq<Task>, t: Task)
    ensures Flush(tasks + [t]) == TaskText(t) + Flush(tasks)
    ensures TotalWeight(tasks + [t]) == TaskWeight(t) + TotalWeight(tasks)
  {
    assert (tasks + [t])[..|tasks|] == tasks;
  }

  /** The printer with an explicit task stack prints what the recursive printer prints. */
  method Display(x: Item) returns (text: string)
    ensures text == Printed(x)
  {
    text := "";
    var tasks := [Show(x)];
    FlushPush([], Show(x));
    assert [] + [Show(x)] == tasks;
    while tasks != []
      invariant text + Flush(tasks) == Printed(x)
      decreases TotalWeight(tasks)
    {
      var task := tasks[|tasks| - 1];
      var rest := tasks[..|tasks| - 1];
      Associate(text, TaskText(task), Flush(rest));
      match task {
        case Show(item) =>
          match item {
            case Data(d) =>
              text := text + ("\"0x" + HexOf(d) + "\"");
              tasks := rest;
            case Array(items) =>
              OpenArray(text, items, Flush(rest));
              text := text + "[";
              tasks := PushItems(rest, items);
          }
        case Comma =>
          text := text + ",";
          tasks := rest;
        case Close =>
          text := text + "]";
          tasks := rest;
      }
    }
  }

  lemma OpenArray(text: string, items: seq<Item>, rest: string)
    ensures text + Printed(Array(items)) + rest == text + "[" + (PrintedList(items) + ("]" + rest))
  {
    var list := PrintedList(items);
    Associate(text, "[" + list + "]", rest);
    Associate("[" + list, "]", rest);
    Associate("[", list, "]" + rest);
    Associate(text, "[", list + ("]" + rest));
  }

  /** What the pushes for the items from `i` on print. */
  function TextFrom(items: seq<Item>, i: nat): string
    requires i <= |items|
    decreases |items| - i
  {
    if i == |items| then ""
    else (if i > 0 then "," else "") + (Printed(items[i]) + TextFrom(items, i + 1))
  }

  lemma {:induction false} TextFromIsList(items: seq<Item>, i: nat)
    requires i <= |items|
    ensures TextFrom(items, i) ==
      if i == 0 || i == |items| then PrintedList(items[i..]) else "," + PrintedList(items[i..])
    decreases |items| - i
  {
    if i < |items| {
      TextFromIsList(items, i + 1);
      ListFrom(items, i);
    }
  }

  lemma ListFrom(items: seq<Item>, i: nat)
    requires i < |items|
    ensures PrintedList(items[i..]) ==
      Printed(items[i]) + if i + 1 < |items| then "," + PrintedList(items[i + 1..]) else ""
  {
    var rest := items[i..];
    assert rest[1..] == items[i + 1..] && rest[0] == items[i];
    if i + 1 < |items| {
      Associate(Printed(items[i]), ",", PrintedList(items[i + 1..]));
    } else {
      assert Printed(items[i]) + "" == Printed(items[i]);
    }
  }

  /** Pushes the closing bracket and the items in reverse, with commas between them. */
  method PushItems(tasks: seq<Task>, items: seq<Item>) returns (r: seq<Task>)
    ensures Flush(r) == PrintedList(items) + ("]" + Flush(tasks))
    ensures TotalWeight(r) < 2 + ListWeight(items) + TotalWeight(tasks)
  {
    r := tasks + [Close];
    FlushPush(tasks, Close);
    ghost var end := "]" + Flush(tasks);
    var i := |items|;
    assert "" + end == end;
    while i > 0
      invariant 0 <= i <= |items|
      invariant Flush(r) == TextFrom(items, i) + end
      invariant TotalWeight(r) <= 1 + ListWeight(items[i..]) + TotalWeight(tasks)
    {
      ghost var tail := TextFrom(items, i);
      i := i - 1;
      assert items[i..][1..] == items[i + 1..];
      FlushPush(r, Show(items[i]));
      r := r + [Show(items[i])];
      Associate(Printed(items[i]), tail, end);
      if i > 0 {
        FlushPush(r, Comma);
        r := r + [Comma];
        Associate(",", Printed(items[i]) + tail, end);
      } else {
        assert "" + (Printed(items[i]) + tail) == Printed(items[i]) + tail;
      }
    }
    TextFromIsList(items, 0);
    assert items[0..] == items;
  }

  // ----- reading JSON back -----

  datatype Value =
    | Null
    | Bool(b: bool)
    | Number(digits: string)
    | String(s: string)
    | List(values: seq<Value>)
    | Object

  datatype ConvertError = NoBooleans | NotAWord | NotHex | NoObjects

  const WORD_SIZE: nat := 0x1_0000000000000000_0000000000000000_0000000000000000_0000000000000000

  /** Decimal digits, without sign, fraction or exponent. */
  function DecimalValue(s: string): Option<nat> {
    if s == "" then Some(0)
    else
      var front, c := DecimalValue(s[..|s| - 1]), s[|s| - 1];
      if front.Some? && '0' <= c <= '9' then Some(front.value * 10 + (c - '0') as nat) else None
  }

  function ValueToItem(v: Value): Result<Item, ConvertError> {
    match v
    case Null => Ok(Data([]))
    case Bool(_) => Err(NoBooleans)
    case Number(digits) =>
      var n := DecimalValue(digits);
      if n.Some? && n.value < WORD_SIZE then Ok(Data(MinimalBigEndian(n.value))) else Err(NotAWord)
    case String(s) =>
      var d := HexDecode(s);
      if d.Some? then Ok(Data(d.value)) else Err(NotHex)
    case List(values) =>
      var items := ValuesToItems(values);
      if items.Ok? then Ok(Array(items.value)) else Err(items.error)
    case Object => Err(NoObjects)
  }

  function ValuesToItems(values: seq<Value>): Result<seq<Item>, ConvertError> {
    if values == [] then Ok([])
    else
      var head := ValueToItem(values[0]);
      if head.Err? then Err(head.error)
      else
        var tail := ValuesToItems(values[1..]);
        if tail.Err? then tail else Ok([head.value] + tail.value)
  }

  /** Reads one JSON value off the front of a text: arrays, and strings without escapes. */
  function ParseValue(text: string): (r: Option<(Value, string)>)
    ensures r.Some? ==> |r.value.1| < |text|
    decreases |text|, 0
  {
    if text == "" then None
    else if text[0] == '"' then
      var end := Quote(text[1..]);
      if end < |text| - 1 then Some((String(text[1..1 + end]), text[end + 2..])) else None
    else if text[0] == '[' then
      if |text| > 1 && text[1] == ']' then Some((List([]), text[2..]))
      else
        var r := ParseElements(text[1..]);
        if r.Some? then Some((List(r.value.0), r.value.1)) else None
    else None
  }

  /** One or more values, separated by commas and closed by a bracket. */
  function ParseElements(text: string): (r: Option<(seq<Value>, string)>)
    ensures r.Some? ==> |r.value.1| < |text|
    decreases |text|, 1
  {
    var head := ParseValue(text);
    if head.None? || head.value.1 == "" then None
    else
      var (v, rest) := head.value;
      if rest[0] == ']' then Some(([v], rest[1..]))
      else if rest[0] == ',' then
        var tail := ParseElements(rest[1..]);
        if tail.Some? then Some(([v] + tail.value.0, tail.value.1)) else None
      else None
  }

  /** The position of the next quote, or the length. */
  function Quote(text: string): (r: nat)
    ensures r <= |text|
  {
    if text == "" || text[0] == '"' then 0 else 1 + Quote(text[1..])
  }

  lemma {:induction false} QuoteAfter(s: string, rest: string)
    requires '"' !in s
    ensures Quote(s + ['"'] + rest) == |s|
  {
    var text := s + ['"'] + rest;
    if s != "" {
      QuoteAfter(s[1..], rest);
      assert text[1..] == s[1..] + ['"'] + rest;
      assert text[0] == s[0];
    }
  }

  /** The JSON value an item prints as. */
  function ToValue(x: Item): Value {
    match x
    case Data(d) => String("0x" + HexOf(d))
    case Array(items) => List(ToValues(items))
  }

  function ToValues(items: seq<Item>): (r: seq<Value>)
    ensures |r| == |items|
  {
    if items == [] then [] else [ToValue(items[0])] + ToValues(items[1..])
  }

  /** Converting the printed value gives the item back. */
  lemma {:induction false} ValueReadsBack(x: Item)
    ensures ValueToItem(ToValue(x)) == Ok(x)
    decreases x
  {
    match x {
      case Data(d) =>
        HexReadsBack(d);
        assert ("0x" + HexOf(d))[2..] == HexOf(d);
      case Array(items) =>
        ValuesReadBack(items);
    }
  }

  lemma {:induction false} ValuesReadBack(items: seq<Item>)
    ensures ValuesToItems(ToValues(items)) == Ok(items)
    decreases items
  {
    if items != [] {
      ValueReadsBack(items[0]);
      ValuesReadBack(items[1..]);
      assert ToValues(items)[1..] == ToValues(items[1..]);
      assert [items[0]] + items[1..] == items;
    }
  }

  lemma PrintedStart(x: Item, rest: string)
    ensures Printed(x) != "" && (Printed(x) + rest)[0] != ']'
  {
  }

  lemma QuotedParses(s: string, rest: string)
    requires '"' !in s
    ensures ParseValue(['"'] + (s + ['"'] + rest)) == Some((String(s), rest))
  {
    var text := ['"'] + (s + ['"'] + rest);
    assert text[1..] == s + ['"'] + rest;
    QuoteAfter(s, rest);
    assert text[1..1 + |s|] == s && text[|s| + 2..] == rest;
  }

  lemma DataParses(d: seq<byte>, rest: string)
    ensures ParseValue(Printed(Data(d)) + rest) == Some((ToValue(Data(d)), rest))
  {
    HexReadsBack(d);
    var s := "0x" + HexOf(d);
    QuotedParses(s, rest);
    RegroupQuoted(HexOf(d), rest);
  }

  lemma RegroupQuoted(digits: string, rest: string)
    ensures "\"0x" + digits + "\"" + rest == ['"'] + ("0x" + digits + ['"'] + rest)
  {
  }

  lemma ListParses(items: seq<Item>, rest: string)
    requires items != []
    requires ParseElements(PrintedList(items) + "]" + rest) == Some((ToValues(items), rest))
    ensures ParseValue(Printed(Array(items)) + rest) == Some((ToValue(Array(items)), rest))
  {
    var text := Printed(Array(items)) + rest;
    assert text[1..] == PrintedList(items) + "]" + rest;
    PrintedListStart(items, rest);
    assert text[1] == text[1..][0];
  }

  /** The printed text of an item parses to its value, whatever follows it. */
  lemma {:induction false} PrintedParses(x: Item, rest: string)
    ensures ParseValue(Printed(x) + rest) == Some((ToValue(x), rest))
    decreases x, 1
  {
    match x {
      case Data(d) =>
        DataParses(d, rest);
      case Array(items) =>
        if items == [] {
          assert Printed(x) == "[]";
          assert ("[]" + rest)[2..] == rest;
        } else {
          PrintedListParses(items, rest);
          ListParses(items, rest);
        }
    }
  }

  lemma PrintedListStart(items: seq<Item>, rest: string)
    requires items != []
    ensures (PrintedList(items) + "]" + rest)[0] != ']'
  {
    PrintedStart(items[0], "");
  }

  lemma {:induction false} PrintedListParses(items: seq<Item>, rest: string)
    requires items != []
    ensures ParseElements(PrintedList(items) + "]" + rest) == Some((ToValues(items), rest))
    decreases items, 0
  {
    if |items| == 1 {
      PrintedParses(items[0], "]" + rest);
      Associate(Printed(items[0]), "]", rest);
      assert items[1..] == [];
      assert ToValues(items) == [ToValue(items[0])];
      LastElement(Printed(items[0]) + ("]" + rest), ToValue(items[0]), rest);
    } else {
      var more := PrintedList(items[1..]) + "]" + rest;
      PrintedParses(items[0], "," + more);
      PrintedListParses(items[1..], rest);
      Regroup(Printed(items[0]), PrintedList(items[1..]), rest);
      MoreElements(Printed(items[0]) + ("," + more), ToValue(items[0]), more);
    }
  }

  lemma Regroup(head: string, tail: string, rest: string)
    ensures head + "," + tail + "]" + rest == head + ("," + (tail + "]" + rest))
  {
    Associate(head, ",", tail);
    Associate(head, "," + tail, "]");
    Associate(head, "," + tail + "]", rest);
    Associate(",", tail, "]");
    Associate(",", tail + "]", rest);
  }

  lemma LastElement(text: string, v: Value, rest: string)
    requires ParseValue(text) == Some((v, "]" + rest))
    ensures ParseElements(text) == Some(([v], rest))
  {
    assert ("]" + rest)[1..] == rest;
  }

  lemma MoreElements(text: string, v: Value, more: string)
    requires ParseValue(text) == Some((v, "," + more)) && ParseElements(more).Some?
    ensures ParseElements(text) == Some(([v] + ParseElements(more).value.0, ParseElements(more).value.1))
  {
    assert ("," + more)[1..] == more;
  }

  /** Printing an item and reading the JSON text back gives the same item. */
  lemma PrintParseRoundTrip(x: Item)
    ensures ParseValue(Printed(x)).Some?
    ensures ParseValue(Printed(x)).value.1 == ""
    ensures ValueToItem(ParseValue(Printed(x)).value.0) == Ok(x)
  {
    PrintedParses(x, "");
    assert Printed(x) + "" == Printed(x);
    ValueReadsBack(x);
  }

  /** Two items with the same text are the same item. */
  lemma PrintingIsInjective(x: Item, y: Item)
    requires Printed(x) == Printed(y)
    ensures x == y
  {
    PrintParseRoundTrip(x);
    PrintParseRoundTrip(y);
  }

  // ----- dropping -----

  /** Every item below `x`. */
  function Below(x: Item): multiset<Item> {
    match x
    case Data(_) => multiset{}
    case Array(items) => AllOf(items)
  }

  /** The items and everything below them. */
  function AllOf(items: seq<Item>): multiset<Item> {
    if items == [] then multiset{} else multiset{items[0]} + Below(items[0]) + AllOf(items[1..])
  }

  lemma AllOfCons(x: Item, rest: seq<Item>)
    ensures AllOf([x] + rest) == multiset{x} + Below(x) + AllOf(rest)
  {
    assert ([x] + rest)[1..] == rest;
  }

  lemma {:induction false} AllOfAppend(a: seq<Item>, b: seq<Item>)
    ensures AllOf(a + b) == AllOf(a) + AllOf(b)
  {
    if a == [] {
      assert a + b == b;
    } else {
      var x, rest := a[0], a[1..];
      AllOfAppend(rest, b);
      assert a == [x] + rest;
      Associate([x], rest, b);
      AllOfCons(x, rest);
      AllOfCons(x, rest + b);
      AssociateUnion(multiset{x} + Below(x), AllOf(rest), AllOf(b));
    }
  }

  lemma AssociateUnion<T>(a: multiset<T>, b: multiset<T>, c: multiset<T>)
    ensures a + b + c == a + (b + c)
  {
  }

  lemma ExchangeUnion<T>(popped: multiset<T>, item: multiset<T>, rest: multiset<T>, below: multiset<T>)
    ensures (popped + item) + (rest + below) == popped + (rest + item + below)
    ensures |item| > 0 ==> |rest + below| < |rest + item + below|
  {
  }

  lemma AllOfSnoc(rest: seq<Item>, item: Item)
    ensures AllOf(rest + [item]) == AllOf(rest) + multiset{item} + Below(item)
  {
    AllOfAppend(rest, [item]);
    assert [item][1..] == [];
  }

  function Children(x: Item): seq<Item> {
    if x.Array? then x.items else []
  }

  /** What is left of an item once its children have been moved out. */
  function Shell(x: Item): Item {
    if x.Array? then Array([]) else x
  }

  ghost predicate Shells(freed: seq<Item>, popped: seq<Item>) {
    |freed| == |popped| && forall k | 0 <= k < |freed| :: freed[k] == Shell(popped[k])
  }

  /** What was popped and what the stack holds make up everything there was. */
  ghost predicate Accounted(popped: seq<Item>, pending: seq<Item>, total: multiset<Item>) {
    multiset(popped) + AllOf(pending) == total
  }

  /** Moving the children of a popped item to the stack keeps everything accounted for. */
  lemma PopItem(popped: seq<Item>, rest: seq<Item>, item: Item, total: multiset<Item>)
    requires Accounted(popped, rest + [item], total)
    ensures Accounted(popped + [item], rest + Children(item), total)
    ensures |AllOf(rest + Children(item))| < |AllOf(rest + [item])|
  {
    AllOfSnoc(rest, item);
    AllOfAppend(rest, Children(item));
    assert AllOf(Children(item)) == Below(item);
    ExchangeUnion(multiset(popped), multiset{item}, AllOf(rest), Below(item));
    assert multiset(popped + [item]) == multiset(popped) + multiset{item};
  }

  lemma AllPopped(popped: seq<Item>, total: multiset<Item>)
    requires Accounted(popped, [], total)
    ensures multiset(popped) == total
  {
  }

  lemma ShellsAreEmpty(freed: seq<Item>, popped: seq<Item>)
    requires Shells(freed, popped)
    ensures forall k | 0 <= k < |freed| :: Below(freed[k]) == multiset{}
  {
  }

  /** The drop loop terminates, pops every item below `x` exactly once, and frees each only after moving
      its children out: no nested item is ever freed through its parent. */
  method Drop(x: Item) returns (popped: seq<Item>, freed: seq<Item>)
    ensures multiset(popped) == Below(x)
    ensures Shells(freed, popped)
    ensures forall k | 0 <= k < |freed| :: Below(freed[k]) == multiset{}
  {
    popped, freed := [], [];
    var pending := Children(x);
    assert AllOf(pending) == Below(x);
    while pending != []
      invariant Accounted(popped, pending, Below(x)) && Shells(freed, popped)
      decreases |AllOf(pending)|
    {
      var item, rest := pending[|pending| - 1], pending[..|pending| - 1];
      assert pending == rest + [item];
      PopItem(popped, rest, item, Below(x));
      pending := rest + Children(item);
      freed := freed + [Shell(item)];
      popped := popped + [item];
    }
    AllPopped(popped, Below(x));
    ShellsAreEmpty(freed, popped);
  }
}
