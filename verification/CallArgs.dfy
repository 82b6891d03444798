/**
 The call-argument splitter (crates/cast/src/call_spec.rs): arguments are separated by the commas
 outside brackets and quotes.
 */
module CallArgs {
  import opened Common

  // ----- characters and trimming -----

  /** The characters with the Unicode property White_Space. */
  predicate IsWhitespace(ch: char) {
    var c := ch as int;
    || 0x09 <= c <= 0x0D || c == 0x20 || c == 0x85 || c == 0xA0 || c == 0x1680
    || 0x2000 <= c <= 0x200A || c == 0x2028 || c == 0x2029 || c == 0x202F || c == 0x205F || c == 0x3000
  }

  predicate IsQuote(ch: char) {
    ch == '\'' || ch == '"'
  }

  function Trim(s: string): string
    decreases |s|
  {
    if s != [] && IsWhitespace(s[0]) then Trim(s[1..])
    else if s != [] && IsWhitespace(s[|s| - 1]) then Trim(s[..|s| - 1])
    else s
  }

  predicate IsTrimmed(s: string) {
    s == [] || (!IsWhitespace(s[0]) && !IsWhitespace(s[|s| - 1]))
  }

  predicate AllWhitespace(s: string) {
    forall i | 0 <= i < |s| :: IsWhitespace(s[i])
  }

  /** Trimming takes off whitespace at both ends, and all of it. */
  lemma {:induction false} TrimTakesEnds(s: string) returns (left: string, right: string)
    ensures s == left + Trim(s) + right
    ensures AllWhitespace(left) && AllWhitespace(right) && IsTrimmed(Trim(s))
    decreases |s|
  {
    left, right := "", "";
    if s != [] && IsWhitespace(s[0]) {
      left, right := TrimTakesEnds(s[1..]);
      left := [s[0]] + left;
    } else if s != [] && IsWhitespace(s[|s| - 1]) {
      left, right := TrimTakesEnds(s[..|s| - 1]);
      right := right + [s[|s| - 1]];
    }
  }

  /** Whatever whitespace is put around a trimmed text, trimming takes it off again. */
  lemma {:induction false} TrimPadded(left: string, s: string, right: string)
    requires AllWhitespace(left) && AllWhitespace(right) && IsTrimmed(s)
    ensures Trim(left + s + right) == s
    decreases |left| + |right|
  {
    var padded := left + s + right;
    if left != [] {
      assert padded[1..] == left[1..] + s + right;
      TrimPadded(left[1..], s, right);
    } else if right != [] {
      if s == [] {
        assert padded == right && padded[1..] == [] + s + right[1..];
        TrimPadded([], s, right[1..]);
      } else {
        assert padded[0] == s[0];
        assert padded[..|padded| - 1] == left + s + right[..|right| - 1];
        TrimPadded(left, s, right[..|right| - 1]);
      }
    } else {
      assert padded == s;
    }
  }

  function TrimAll(pieces: seq<string>): (r: seq<string>)
    ensures |r| == |pieces|
    ensures forall i :: 0 <= i < |r| ==> r[i] == Trim(pieces[i])
  {
    seq(|pieces|, i requires 0 <= i < |pieces| => Trim(pieces[i]))
  }

  // ----- the scanner -----

  datatype Scanner = Scanner(depth: nat, quote: Option<char>, atValueStart: bool) {
    /** Outside all brackets and quotes. */
    predicate IsTop() {
      depth == 0 && quote.None?
    }

    /** The state after one more character. */
    function Next(ch: char): Scanner {
      if quote.Some? then
        if ch == quote.value then this.(quote := None) else this
      else if IsQuote(ch) && atValueStart then Scanner(depth, Some(ch), false)
      else if ch == '(' || ch == '[' then Scanner(depth + 1, None, true)
      else if ch == ')' || ch == ']' then Scanner(if depth == 0 then 0 else depth - 1, None, false)
      else if ch == ',' then Scanner(depth, None, true)
      else if IsWhitespace(ch) && atValueStart then this
      else Scanner(depth, None, false)
    }
  }

  const FRESH := Scanner(0, None, true)

  /** The state after reading `s` from `st`. */
  function Scan(st: Scanner, s: string): Scanner {
    if s == [] then st else Scan(st, s[..|s| - 1]).Next(s[|s| - 1])
  }

  lemma {:induction false} ScanAppend(st: Scanner, s: string, t: string)
    ensures Scan(st, s + t) == Scan(Scan(st, s), t)
  {
    if t == [] {
      assert s + t == s;
    } else {
      var n := |t| - 1;
      ScanAppend(st, s, t[..n]);
      assert (s + t)[..|s| + n] == s + t[..n];
    }
  }

  // ----- what the scanner means -----

  /** Opening brackets less closing ones. */
  function Balance(s: string): int {
    if s == [] then 0
    else
      var last := s[|s| - 1];
      Balance(s[..|s| - 1]) +
      (if last == '(' || last == '[' then 1 else if last == ')' || last == ']' then -1 else 0)
  }

  /** The lowest balance of any prefix. */
  function Lowest(s: string): (r: int)
    ensures r <= 0 && r <= Balance(s)
  {
    if s == [] then 0
    else
      var before := Lowest(s[..|s| - 1]);
      if Balance(s) < before then Balance(s) else before
  }

  predicate Unquoted(s: string) {
    forall i :: 0 <= i < |s| ==> s[i] !in "'\""
  }

  /** Without quotes, the depth is the bracket balance since the balance was last at its lowest: an
      unmatched closing bracket counts for nothing. */
  lemma {:induction false} DepthIsBalance(s: string)
    requires Unquoted(s)
    ensures Scan(FRESH, s).quote.None? && Scan(FRESH, s).depth == Balance(s) - Lowest(s)
  {
    if s != [] {
      DepthIsBalance(s[..|s| - 1]);
    }
  }

  lemma {:induction false} InsideQuotes(st: Scanner, s: string)
    requires st.quote.Some? && forall i :: 0 <= i < |s| ==> s[i] != st.quote.value
    ensures Scan(st, s) == st
  {
    if s != [] {
      InsideQuotes(st, s[..|s| - 1]);
    }
  }

  /** A quoted value is opaque: whatever stands in it, the scanner comes out where it went in. */
  lemma QuotedIsOpaque(st: Scanner, q: char, s: string)
    requires st.quote.None? && st.atValueStart && (q == '\'' || q == '"')
    requires forall i :: 0 <= i < |s| ==> s[i] != q
    ensures Scan(st, [q] + s + [q]) == st.(atValueStart := false)
  {
    var inside := st.(quote := Some(q), atValueStart := false);
    assert [q][..0] == [];
    assert Scan(st, [q]) == inside;
    ScanAppend(st, [q], s);
    InsideQuotes(inside, s);
    assert ([q] + s + [q])[..|s| + 1] == [q] + s;
  }

  lemma {:induction false} WhitespaceSkipped(st: Scanner, s: string)
    requires st.quote.None? && st.atValueStart && forall i :: 0 <= i < |s| ==> IsWhitespace(s[i])
    ensures Scan(st, s) == st
  {
    if s != [] {
      WhitespaceSkipped(st, s[..|s| - 1]);
    }
  }

  lemma {:induction false} WhitespaceInside(st: Scanner, s: string)
    requires st.quote.None? && !st.atValueStart && forall i :: 0 <= i < |s| ==> IsWhitespace(s[i])
    ensures Scan(st, s) == st
  {
    if s != [] {
      WhitespaceInside(st, s[..|s| - 1]);
    }
  }

  /** The last character that is no whitespace. */
  function LastInk(s: string): Option<char> {
    if s == [] then None
    else if IsWhitespace(s[|s| - 1]) then LastInk(s[..|s| - 1])
    else Some(s[|s| - 1])
  }

  /** The text ends where a value may start: at its beginning, after an opening bracket or after a comma,
      whitespace aside. */
  predicate EndsAtValueStart(s: string) {
    LastInk(s) in {None, Some('('), Some('['), Some(',')}
  }

  /** What the scanner knows of value starts is what the text shows. */
  lemma {:induction false} ValueStartIff(s: string)
    ensures var st := Scan(FRESH, s);
      if st.quote.Some? then !st.atValueStart && (st.quote.value == '\'' || st.quote.value == '"')
      else st.atValueStart <==> EndsAtValueStart(s)
  {
    if s != [] {
      ValueStartIff(s[..|s| - 1]);
    }
  }

  /** A quote opens a quoted value only as the first character of a value, whitespace aside: later
      ones are ordinary characters. */
  lemma QuoteOpensIff(s: string, q: char)
    requires Scan(FRESH, s).quote.None? && (q == '\'' || q == '"')
    ensures Scan(FRESH, s + [q]).quote == (if EndsAtValueStart(s) then Some(q) else None)
  {
    assert (s + [q])[..|s|] == s;
    ValueStartIff(s);
  }

  // ----- cutting a text at marked positions -----

  type Marks = seq<bool>

  /** The pieces of `current + s`, cut at the marked positions of `s`, which are dropped. */
  function Cut(current: string, s: string, marks: Marks): (r: seq<string>)
    requires |marks| == |s|
    ensures |r| > 0
    decreases |s|
  {
    if s == [] then [current]
    else if marks[0] then [current] + Cut([], s[1..], marks[1..])
    else Cut(current + [s[0]], s[1..], marks[1..])
  }

  /** The commas that separate arguments. */
  function TopCommas(s: string): (r: Marks)
    ensures |r| == |s|
    ensures forall i :: 0 <= i < |s| ==> r[i] == (s[i] == ',' && Scan(FRESH, s[..i]).IsTop())
  {
    seq(|s|, i requires 0 <= i < |s| => s[i] == ',' && Scan(FRESH, s[..i]).IsTop())
  }

  function AllCommas(s: string): (r: Marks)
    ensures |r| == |s|
    ensures forall i :: 0 <= i < |s| ==> r[i] == (s[i] == ',')
  {
    seq(|s|, i requires 0 <= i < |s| => s[i] == ',')
  }

  /** The arguments as they stand in the text. */
  function Pieces(s: string): (r: seq<string>)
    ensures |r| > 0
  {
    Cut([], s, TopCommas(s))
  }

  /** The pieces of the plain comma split. */
  function LegacyPieces(s: string): (r: seq<string>)
    ensures |r| > 0
  {
    Cut([], s, AllCommas(s))
  }

  // ----- the splitting loop -----

  lemma CutHere(current: string, s: string, marks: Marks)
    requires |marks| == |s| > 0 && marks[0]
    ensures Cut(current, s, marks) == [current] + Cut([], s[1..], marks[1..])
  {
  }

  lemma CutLater(current: string, s: string, marks: Marks)
    requires |marks| == |s| > 0 && !marks[0]
    ensures Cut(current, s, marks) == Cut(current + [s[0]], s[1..], marks[1..])
  {
  }

  lemma CutStep(s: string, marks: Marks, start: nat, i: nat)
    requires |marks| == |s| && start <= i < |s|
    ensures Cut(s[start..i], s[i..], marks[i..]) ==
      if marks[i] then [s[start..i]] + Cut(s[i + 1..i + 1], s[i + 1..], marks[i + 1..])
      else Cut(s[start..i + 1], s[i + 1..], marks[i + 1..])
  {
    assert s[i..][1..] == s[i + 1..] && marks[i..][1..] == marks[i + 1..];
    if marks[i] {
      CutHere(s[start..i], s[i..], marks[i..]);
      assert s[i + 1..i + 1] == [];
    } else {
      CutLater(s[start..i], s[i..], marks[i..]);
      assert s[start..i] + [s[i]] == s[start..i + 1];
    }
  }

  /** The arguments found so far, and the one being scanned. */
  ghost predicate SplitUpTo(s: string, raw: seq<string>, args: seq<string>, start: nat, i: nat) {
    && start <= i <= |s|
    && args == TrimAll(raw)
    && Pieces(s) == raw + Cut(s[start..i], s[i..], TopCommas(s)[i..])
  }

  lemma SplitAt(s: string, raw: seq<string>, args: seq<string>, start: nat, i: nat)
    requires SplitUpTo(s, raw, args, start, i) && i < |s|
    ensures if TopCommas(s)[i] then SplitUpTo(s, raw + [s[start..i]], args + [Trim(s[start..i])], i + 1, i + 1)
            else SplitUpTo(s, raw, args, start, i + 1)
  {
    CutStep(s, TopCommas(s), start, i);
    if TopCommas(s)[i] {
      Associate(raw, [s[start..i]], Cut(s[i + 1..i + 1], s[i + 1..], TopCommas(s)[i + 1..]));
    }
  }

  lemma SplitAll(s: string, raw: seq<string>, args: seq<string>, start: nat)
    requires SplitUpTo(s, raw, args, start, |s|)
    ensures args + [Trim(s[start..])] == TrimAll(Pieces(s))
  {
    assert s[start..|s|] == s[start..] && s[|s|..] == [];
    assert Pieces(s) == raw + [s[start..]];
  }

  lemma ScanStep(s: string, i: nat)
    requires i < |s|
    ensures Scan(FRESH, s[..i + 1]) == Scan(FRESH, s[..i]).Next(s[i])
  {
    assert s[..i + 1][..i] == s[..i];
  }

  /** Splits on top-level commas and trims each argument. */
  method SplitCallArgs(s: string) returns (args: seq<string>)
    ensures args == TrimAll(Pieces(s))
  {
    args := [];
    var depth: nat, start := 0, 0;
    var quote: Option<char>, atValueStart := None, true;
    ghost var raw: seq<string> := [];
    for i := 0 to |s|
      invariant Scanner(depth, quote, atValueStart) == Scan(FRESH, s[..i])
      invariant SplitUpTo(s, raw, args, start, i)
    {
      var ch := s[i];
      SplitAt(s, raw, args, start, i);
      ScanStep(s, i);
      if quote.Some? {
        if ch == quote.value {
          quote := None;
        }
        continue;
      }
      if (ch == '\'' || ch == '"') && atValueStart {
        quote, atValueStart := Some(ch), false;
      } else if ch == '(' || ch == '[' {
        depth, atValueStart := depth + 1, true;
      } else if ch == ')' || ch == ']' {
        depth, atValueStart := if depth == 0 then 0 else depth - 1, false;
      } else if ch == ',' && depth == 0 {
        args := args + [Trim(s[start..i])];
        raw := raw + [s[start..i]];
        start, atValueStart := i + 1, true;
      } else if ch == ',' {
        atValueStart := true;
      } else if IsWhitespace(ch) && atValueStart {
      } else {
        atValueStart := false;
      }
    }
    SplitAll(s, raw, args, start);
    args := args + [Trim(s[start..])];
  }

  // ----- joining -----

  function Join(args: seq<string>): string
    requires |args| > 0
  {
    if |args| == 1 then args[0] else args[0] + [','] + Join(args[1..])
  }

  lemma {:induction false} JoinCut(current: string, s: string, marks: Marks)
    requires |marks| == |s|
    requires forall i :: 0 <= i < |s| && marks[i] ==> s[i] == ','
    ensures Join(Cut(current, s, marks)) == current + s
    decreases |s|
  {
    if s == [] {
      assert current + s == current;
    } else if marks[0] {
      JoinCut([], s[1..], marks[1..]);
      var rest := Cut([], s[1..], marks[1..]);
      assert ([current] + rest)[1..] == rest;
      assert current + [','] + s[1..] == current + s;
    } else {
      JoinCut(current + [s[0]], s[1..], marks[1..]);
      assert current + [s[0]] + s[1..] == current + s;
    }
  }

  /** Cutting loses nothing but the commas cut at. */
  lemma PiecesJoin(s: string)
    ensures Join(Pieces(s)) == s
  {
    JoinCut([], s, TopCommas(s));
    assert [] + s == s;
  }

  // ----- round trip -----

  predicate NoTopComma(s: string) {
    forall i :: 0 <= i < |s| ==> !TopCommas(s)[i]
  }

  /** Scans back to depth 0, outside quotes. */
  predicate Closed(s: string) {
    Scan(FRESH, s).IsTop()
  }

  lemma {:induction false} CutNowhere(current: string, s: string, marks: Marks)
    requires |marks| == |s| && forall i :: 0 <= i < |s| ==> !marks[i]
    ensures Cut(current, s, marks) == [current + s]
    decreases |s|
  {
    if s == [] {
      assert current + s == current;
    } else {
      CutNowhere(current + [s[0]], s[1..], marks[1..]);
      assert current + [s[0]] + s[1..] == current + s;
    }
  }

  lemma {:induction false} CutFirst(current: string, a: string, x: char, b: string, marks: Marks)
    requires |marks| == |a| + 1 + |b|
    requires (forall i :: 0 <= i < |a| ==> !marks[i]) && marks[|a|]
    ensures Cut(current, a + [x] + b, marks) == [current + a] + Cut([], b, marks[|a| + 1..])
    decreases |a|
  {
    var s := a + [x] + b;
    if a == [] {
      assert s[1..] == b && current + a == current;
    } else {
      CutFirst(current + [a[0]], a[1..], x, b, marks[1..]);
      assert s[1..] == a[1..] + [x] + b;
      assert marks[1..][|a|..] == marks[|a| + 1..];
      assert current + [a[0]] + a[1..] == current + a;
    }
  }

  /** After a top-level comma the scanner starts afresh. */
  lemma ScanPastComma(a: string, t: string)
    requires Closed(a)
    ensures Scan(FRESH, a + [','] + t) == Scan(FRESH, t)
  {
    ScanAppend(FRESH, a + [','], t);
    assert (a + [','])[..|a|] == a;
  }

  lemma MarksPastComma(a: string, b: string)
    requires Closed(a) && NoTopComma(a)
    ensures forall i :: 0 <= i < |a| ==> !TopCommas(a + [','] + b)[i]
    ensures TopCommas(a + [','] + b)[|a|]
    ensures TopCommas(a + [','] + b)[|a| + 1..] == TopCommas(b)
  {
    var s := a + [','] + b;
    forall i | 0 <= i < |a| ensures !TopCommas(s)[i] {
      assert !TopCommas(a)[i];
      assert s[..i] == a[..i];
    }
    assert s[..|a|] == a;
    forall i | 0 <= i < |b| ensures TopCommas(s)[|a| + 1 + i] == TopCommas(b)[i] {
      ScanPastComma(a, b[..i]);
      assert s[..|a| + 1 + i] == a + [','] + b[..i];
    }
  }

  lemma PiecesPastComma(a: string, b: string)
    requires Closed(a) && NoTopComma(a)
    ensures Pieces(a + [','] + b) == [a] + Pieces(b)
  {
    MarksPastComma(a, b);
    CutFirst([], a, ',', b, TopCommas(a + [','] + b));
    assert [] + a == a;
  }

  lemma PiecesWhole(s: string)
    requires NoTopComma(s)
    ensures Pieces(s) == [s]
  {
    CutNowhere([], s, TopCommas(s));
    assert [] + s == s;
  }

  /** A list of arguments as the splitter can return it, before trimming: no argument has a top-level
      comma, and all but the last close their brackets and quotes. */
  ghost predicate Separable(args: seq<string>) {
    && (forall i :: 0 <= i < |args| ==> NoTopComma(args[i]))
    && (forall i :: 0 <= i < |args| - 1 ==> Closed(args[i]))
  }

  lemma {:induction false} PiecesOfJoin(args: seq<string>)
    requires |args| > 0 && Separable(args)
    ensures Pieces(Join(args)) == args
  {
    if |args| == 1 {
      PiecesWhole(args[0]);
    } else {
      PiecesOfJoin(args[1..]);
      PiecesPastComma(args[0], Join(args[1..]));
    }
  }

  lemma {:induction false} FirstMark(marks: Marks) returns (i: nat)
    requires exists k :: 0 <= k < |marks| && marks[k]
    ensures i < |marks| && marks[i] && forall k :: 0 <= k < i ==> !marks[k]
  {
    if marks[0] {
      i := 0;
    } else {
      i := FirstMark(marks[1..]);
      i := i + 1;
    }
  }

  lemma MarksOfPrefix(s: string, i: nat)
    requires i <= |s|
    ensures TopCommas(s[..i]) == TopCommas(s)[..i]
  {
    assert forall k :: 0 <= k < i ==> s[..i][..k] == s[..k];
  }

  lemma FirstTopComma(s: string) returns (i: nat)
    requires !NoTopComma(s)
    ensures i < |s| && s[i] == ',' && Closed(s[..i]) && NoTopComma(s[..i])
    ensures s == s[..i] + [','] + s[i + 1..]
  {
    i := FirstMark(TopCommas(s));
    MarksOfPrefix(s, i);
  }

  lemma {:induction false} PiecesAreSeparable(s: string)
    ensures Separable(Pieces(s))
    decreases |s|
  {
    if NoTopComma(s) {
      PiecesWhole(s);
    } else {
      var i := FirstTopComma(s);
      PiecesPastComma(s[..i], s[i + 1..]);
      PiecesAreSeparable(s[i + 1..]);
    }
  }

  /** Splitting and joining are inverse to each other: `Pieces` is the one separable list whose join
      is the text. */
  lemma PiecesCharacterised(s: string, args: seq<string>)
    ensures args == Pieces(s) <==> |args| > 0 && Separable(args) && Join(args) == s
  {
    PiecesAreSeparable(s);
    PiecesJoin(s);
    if |args| > 0 && Separable(args) && Join(args) == s {
      PiecesOfJoin(args);
    }
  }

  lemma {:induction false} WhitespaceKeepsTop(st: Scanner, s: string)
    requires st.IsTop() && AllWhitespace(s)
    ensures Scan(st, s).IsTop()
  {
    if s != [] {
      WhitespaceKeepsTop(st, s[..|s| - 1]);
    }
  }

  lemma PaddedIsClosed(left: string, s: string, right: string)
    requires AllWhitespace(left) && AllWhitespace(right) && Closed(s)
    ensures Closed(left + s + right)
  {
    WhitespaceSkipped(FRESH, left);
    ScanAppend(FRESH, left, s);
    ScanAppend(FRESH, left + s, right);
    WhitespaceKeepsTop(Scan(FRESH, s), right);
  }

  lemma PaddedHasNoTopComma(left: string, s: string, right: string)
    requires AllWhitespace(left) && AllWhitespace(right) && NoTopComma(s)
    ensures NoTopComma(left + s + right)
  {
    var padded := left + s + right;
    WhitespaceSkipped(FRESH, left);
    forall i | 0 <= i < |padded| ensures !TopCommas(padded)[i] {
      var k := i - |left|;
      if 0 <= k < |s| {
        assert padded[..i] == left + s[..k];
        ScanAppend(FRESH, left, s[..k]);
        assert !TopCommas(s)[k];
      }
    }
  }

  /** Splitter round trip: trimmed arguments that close what they open and have no top-level comma
      come back from their comma-join, whatever whitespace each is padded with. */
  lemma SplitRoundTrip(args: seq<string>, left: seq<string>, right: seq<string>, padded: seq<string>)
    requires |args| == |left| == |right| == |padded| > 0
    requires forall i :: 0 <= i < |args| ==> IsTrimmed(args[i]) && Closed(args[i]) && NoTopComma(args[i])
    requires forall i :: 0 <= i < |args| ==> AllWhitespace(left[i]) && AllWhitespace(right[i])
    requires forall i :: 0 <= i < |args| ==> padded[i] == left[i] + args[i] + right[i]
    ensures TrimAll(Pieces(Join(padded))) == args
  {
    forall i | 0 <= i < |args| ensures Trim(padded[i]) == args[i] && Closed(padded[i]) && NoTopComma(padded[i]) {
      TrimPadded(left[i], args[i], right[i]);
      PaddedIsClosed(left[i], args[i], right[i]);
      PaddedHasNoTopComma(left[i], args[i], right[i]);
    }
    PiecesOfJoin(padded);
  }

  // ----- the legacy split -----

  function CountMarks(marks: Marks): nat {
    if marks == [] then 0 else (if marks[0] then 1 else 0) + CountMarks(marks[1..])
  }

  lemma {:induction false} CutCount(current: string, s: string, marks: Marks)
    requires |marks| == |s|
    ensures |Cut(current, s, marks)| == 1 + CountMarks(marks)
    decreases |s|
  {
    if s != [] {
      CutCount(if marks[0] then [] else current + [s[0]], s[1..], marks[1..]);
    }
  }

  /** Fewer marks, if not the same ones, count less. */
  lemma {:induction false} CountSubset(a: Marks, b: Marks)
    requires |a| == |b| && forall i :: 0 <= i < |a| && a[i] ==> b[i]
    ensures CountMarks(a) <= CountMarks(b)
    ensures CountMarks(a) == CountMarks(b) ==> a == b
  {
    if a != [] {
      CountSubset(a[1..], b[1..]);
      assert a == [a[0]] + a[1..] && b == [b[0]] + b[1..];
    }
  }

  /** The split agrees with the plain comma split exactly when no comma stands inside brackets
      or quotes. */
  lemma AgreesWithLegacyIff(s: string)
    ensures TrimAll(Pieces(s)) == TrimAll(LegacyPieces(s)) <==> !HasNestedComma(s)
  {
    NestedCommaIff(s);
    if TrimAll(Pieces(s)) == TrimAll(LegacyPieces(s)) {
      assert |Pieces(s)| == |TrimAll(Pieces(s))| == |LegacyPieces(s)|;
      CutCount([], s, TopCommas(s));
      CutCount([], s, AllCommas(s));
      CountSubset(TopCommas(s), AllCommas(s));
    }
  }

  /** Some comma stands inside brackets or quotes. */
  ghost predicate HasNestedComma(s: string) {
    exists i :: 0 <= i < |s| && s[i] == ',' && !Scan(FRESH, s[..i]).IsTop()
  }

  lemma NestedCommaIff(s: string)
    ensures HasNestedComma(s) <==> TopCommas(s) != AllCommas(s)
  {
    if !HasNestedComma(s) {
      forall i | 0 <= i < |s| ensures TopCommas(s)[i] == AllCommas(s)[i] {
        assert s[i] == ',' ==> Scan(FRESH, s[..i]).IsTop();
      }
    } else {
      var i :| 0 <= i < |s| && s[i] == ',' && !Scan(FRESH, s[..i]).IsTop();
      assert TopCommas(s)[i] != AllCommas(s)[i];
    }
  }

  lemma {:induction false} PlainScan(s: string)
    requires forall i :: 0 <= i < |s| ==> s[i] !in "()[]'\""
    ensures Closed(s)
  {
    if s != [] {
      PlainScan(s[..|s| - 1]);
    }
  }

  /** In particular it agrees on every text without brackets and quotes. */
  lemma AgreesOnPlainText(s: string)
    requires forall i :: 0 <= i < |s| ==> s[i] !in "()[]'\""
    ensures TrimAll(Pieces(s)) == TrimAll(LegacyPieces(s))
  {
    forall i | 0 <= i < |s| ensures Scan(FRESH, s[..i]).IsTop() {
      PlainScan(s[..i]);
    }
    assert TopCommas(s) == AllCommas(s);
  }

  /** The argument fields of a call spec: the legacy split is kept beside the new one exactly when
      some comma of the text stands inside brackets or quotes. */
  method ParseArgs(text: string) returns (args: seq<string>, legacyArgs: Option<seq<string>>)
    ensures args == TrimAll(Pieces(text))
    ensures legacyArgs.Some? <==> HasNestedComma(text)
    ensures legacyArgs.Some? ==> legacyArgs.value == TrimAll(LegacyPieces(text))
  {
    args := SplitCallArgs(text);
    var legacy := TrimAll(LegacyPieces(text));
    legacyArgs := if legacy != args then Some(legacy) else None;
    AgreesWithLegacyIff(text);
  }
}
