/** `convertHexOutsideStrings`: hexadecimal literals outside string literals become decimal. */
module HexScan {
  import opened Literals
  import opened Text

  // ---------------------------------------------------------- hex literals

  predicate IsX(c: char) {
    c == 'x' || c == 'X'
  }

  predicate HexPrefix(s: string) {
    |s| > 1 && s[0] == '0' && IsX(s[1])
  }

  /** The maximal run of hexadecimal digits after `0x`. */
  function HexDigits(s: string): (d: string)
    requires HexPrefix(s)
    ensures All(IsHexDigit, d)
    ensures |d| + 2 <= |s| && !StartsWith(IsHexDigit, s[2 + |d|..])
  {
    RunAll(IsHexDigit, s[2..]);
    assert s[2..][Run(IsHexDigit, s[2..])..] == s[2 + Run(IsHexDigit, s[2..])..];
    s[2..][..Run(IsHexDigit, s[2..])]
  }

  /** A literal that `strconv.ParseInt(.., 16, 64)` accepts begins here. */
  predicate Convertible(s: string) {
    HexPrefix(s) && HexDigits(s) != [] && HexVal(HexDigits(s)) < MAX_INT64
  }

  function HexPass(s: string): string {
    if s == [] then []
    else if Quoted(s) then s[..LiteralLen(s)] + HexPass(s[LiteralLen(s)..])
    else if Convertible(s) then Dec(HexVal(HexDigits(s))) + HexPass(s[2 + |HexDigits(s)|..])
    else [s[0]] + HexPass(s[1..])
  }

  lemma PassStep(s: string)
    requires s != [] && s[0] != '"' && !Convertible(s)
    ensures HexPass(s) == [s[0]] + HexPass(s[1..])
  {
  }

  lemma PassString(s: string)
    requires Quoted(s)
    ensures HexPass(s) == s[..LiteralLen(s)] + HexPass(s[LiteralLen(s)..])
  {
    hide LiteralLen;
  }

  lemma ConvertibleParts(s: string)
    requires Convertible(s)
    ensures HexPrefix(s) && s[0] == '0' && IsX(s[1]) && HexDigits(s) != [] && HexVal(HexDigits(s)) < MAX_INT64
  {
    hide HexDigits, HexVal;
  }

  lemma ConvertibleIs(s: string)
    requires HexPrefix(s)
    ensures Convertible(s) <==> HexDigits(s) != [] && HexVal(HexDigits(s)) < MAX_INT64
  {
    hide HexDigits, HexVal;
  }

  lemma PassConvertible(s: string)
    requires s != [] && s[0] != '"' && Convertible(s)
    ensures HexPass(s) == Dec(HexVal(HexDigits(s))) + HexPass(s[2 + |HexDigits(s)|..])
  {
    hide HexDigits, HexVal, Dec;
  }

  // `HexPass` at position `i`, in the terms of the loop below.

  lemma PassAtString(s: string, i: nat)
    requires i < |s| && s[i] == '"'
    ensures Quoted(s[i..]) && i + LiteralLen(s[i..]) <= |s|
    ensures var e := i + LiteralLen(s[i..]); HexPass(s[i..]) == s[i..e] + HexPass(s[e..])
  {
    assert Quoted(s[i..]);
    PassString(s[i..]);
    hide *;
    SubSlice(s, i, 0, LiteralLen(s[i..]));
    SubDrop(s, i, LiteralLen(s[i..]));
  }

  lemma DigitsAt(s: string, i: nat)
    requires i + 1 < |s| && s[i] == '0' && IsX(s[i + 1])
    ensures HexPrefix(s[i..]) && HexDigits(s[i..]) == s[i + 2..i + 2 + Run(IsHexDigit, s[i + 2..])]
  {
    SubDrop(s, i, 2);
    SubSlice(s, i + 2, 0, Run(IsHexDigit, s[i + 2..]));
  }

  lemma PassAtLiteral(s: string, i: nat, j: nat)
    requires i + 1 < |s| && s[i] == '0' && IsX(s[i + 1]) && j == i + 2 + Run(IsHexDigit, s[i + 2..])
    ensures j <= |s| && All(IsHexDigit, s[i + 2..j])
    ensures Convertible(s[i..]) <==> j > i + 2 && HexVal(s[i + 2..j]) < MAX_INT64
    ensures Convertible(s[i..]) ==> HexPass(s[i..]) == Dec(HexVal(s[i + 2..j])) + HexPass(s[j..])
  {
    hide *;
    DigitsAt(s, i);
    PassAtDigits(s, i, s[i + 2..j]);
    assert i + 2 + |s[i + 2..j]| == j;
  }

  lemma PassAtDigits(s: string, i: nat, d: string)
    requires i < |s| && s[i] != '"' && HexPrefix(s[i..]) && HexDigits(s[i..]) == d
    ensures i + 2 + |d| <= |s| && All(IsHexDigit, d)
    ensures Convertible(s[i..]) <==> d != [] && HexVal(d) < MAX_INT64
    ensures Convertible(s[i..]) ==> HexPass(s[i..]) == Dec(HexVal(d)) + HexPass(s[i + 2 + |d|..])
  {
    var t := s[i..];
    ConvertibleIs(t);
    hide *;
    SubDrop(s, i, 2 + |d|);
    if Convertible(t) {
      PassConvertible(t);
    }
  }

  lemma PassAtPlain(s: string, i: nat)
    requires i < |s| && s[i] != '"' && !Convertible(s[i..])
    ensures HexPass(s[i..]) == [s[i]] + HexPass(s[i + 1..])
  {
    PassStep(s[i..]);
    SubDrop(s, i, 1);
  }

  /** One turn of the scanning loop: the text written and the next position. */
  method NextPiece(s: string, i: nat) returns (piece: string, j: nat)
    requires i < |s|
    ensures i < j <= |s| && HexPass(s[i..]) == piece + HexPass(s[j..])
  {
    hide HexPass, HexDigits, LiteralLen, Run;
    if s[i] == '"' {
      PassAtString(s, i);
      piece, j := ScanLiteral(s, i);
      return;
    }
    if i + 1 < |s| && s[i] == '0' && (s[i + 1] == 'x' || s[i + 1] == 'X') {
      j := i + 2;
      while j < |s| && IsHexDigit(s[j])
        invariant i + 2 <= j <= |s|
        invariant i + 2 + Run(IsHexDigit, s[i + 2..]) == j + Run(IsHexDigit, s[j..])
      {
        RunStep(s, j);
        j := j + 1;
      }
      RunStops(s, j);
      PassAtLiteral(s, i, j);
      if j > i + 2 && HexVal(s[i + 2..j]) < MAX_INT64 {
        piece := Dec(HexVal(s[i + 2..j]));
        return;
      }
    }
    PassAtPlain(s, i);
    piece, j := [s[i]], i + 1;
  }

  lemma RunStep(s: string, j: nat)
    requires j < |s| && IsHexDigit(s[j])
    ensures Run(IsHexDigit, s[j..]) == 1 + Run(IsHexDigit, s[j + 1..])
  {
    SubDrop(s, j, 1);
  }

  lemma RunStops(s: string, j: nat)
    requires j <= |s| && (j == |s| || !IsHexDigit(s[j]))
    ensures Run(IsHexDigit, s[j..]) == 0
  {
  }

  method ConvertHexOutsideStrings(s: string) returns (b: string)
    ensures b == HexPass(s)
  {
    b := "";
    var i := 0;
    while i < |s|
      invariant i <= |s|
      invariant HexPass(s) == b + HexPass(s[i..])
    {
      var piece, j := NextPiece(s, i);
      assert b + (piece + HexPass(s[j..])) == (b + piece) + HexPass(s[j..]);
      b := b + piece;
      i := j;
    }
  }

  // ------------------------------------------------ copying plain characters

  /** No quote and no convertible literal begins inside `w` when `rest` follows. */
  predicate PlainBefore(w: string, rest: string) {
    forall i :: 0 <= i < |w| ==> w[i] != '"' && !Convertible(w[i..] + rest)
  }

  lemma {:induction false} CopyPlain(w: string, rest: string)
    requires PlainBefore(w, rest)
    ensures HexPass(w + rest) == w + HexPass(rest)
  {
    hide HexPass, Convertible;
    if w == [] {
      assert w + rest == rest;
    } else {
      assert w[0..] == w;
      PassStep(w + rest);
      forall i | 0 <= i < |w[1..]|
        ensures w[1..][i] != '"' && !Convertible(w[1..][i..] + rest)
      {
        assert w[1..][i..] == w[i + 1..];
      }
      CopyPlain(w[1..], rest);
      Cons(w, rest);
      Cons(w, HexPass(rest));
    }
  }

  lemma CopyLiteral(lit: string, rest: string)
    requires IsLiteral(lit, rest == [])
    ensures HexPass(lit + rest) == lit + HexPass(rest)
  {
    LiteralIsWhole(lit, rest);
    assert (lit + rest)[..|lit|] == lit && (lit + rest)[|lit|..] == rest;
  }

  lemma ConvertHex(x: char, d: string, rest: string)
    requires IsX(x) && d != [] && All(IsHexDigit, d) && !StartsWith(IsHexDigit, rest)
    ensures HexPrefix(['0', x] + d + rest) && HexDigits(['0', x] + d + rest) == d
    ensures HexVal(d) < MAX_INT64 ==> HexPass(['0', x] + d + rest) == Dec(HexVal(d)) + HexPass(rest)
  {
    hide *;
    var s := ['0', x] + d + rest;
    ReadsDigits(x, d, rest);
    ConvertibleIs(s);
    if HexVal(d) < MAX_INT64 {
      PassConvertible(s);
      assert s[2 + |d|..] == rest;
    }
  }

  lemma ReadsDigits(x: char, d: string, rest: string)
    requires IsX(x) && All(IsHexDigit, d) && !StartsWith(IsHexDigit, rest)
    ensures HexPrefix(['0', x] + d + rest) && HexDigits(['0', x] + d + rest) == d
  {
    hide Run, All, StartsWith;
    var s := ['0', x] + d + rest;
    assert s[2..] == d + rest;
    RunIs(IsHexDigit, d, rest);
    assert s[2..][..|d|] == d;
  }

  // ------------------------------------------------------ the token reading

  datatype Token = Literal(text: string) | Hex(x: char, digits: string) | Plain(c: char)

  function Source(t: Token): string {
    match t
    case Literal(text) => text
    case Hex(x, digits) => ['0', x] + digits
    case Plain(c) => [c]
  }

  /** What a token is rewritten to: only a hexadecimal token changes. */
  function Image(t: Token): string {
    match t
    case Hex(_, digits) => if All(IsHexDigit, digits) then Dec(HexVal(digits)) else []
    case _ => Source(t)
  }

  function SourceOf(ts: seq<Token>): string {
    if ts == [] then [] else Source(ts[0]) + SourceOf(ts[1..])
  }

  function ImageOf(ts: seq<Token>): string {
    if ts == [] then [] else Image(ts[0]) + ImageOf(ts[1..])
  }

  /** Each token is a whole string literal, a maximal hexadecimal literal below 2^63, or a single
      character at which neither begins. */
  predicate Fits(t: Token, rest: string) {
    match t
    case Literal(text) => IsLiteral(text, rest == [])
    case Hex(x, d) =>
      IsX(x) && d != [] && All(IsHexDigit, d) && HexVal(d) < MAX_INT64 && !StartsWith(IsHexDigit, rest)
    case Plain(c) => c != '"' && !Convertible([c] + rest)
  }

  predicate IsLexing(ts: seq<Token>) {
    ts == [] || (Fits(ts[0], SourceOf(ts[1..])) && IsLexing(ts[1..]))
  }

  /** The scanner rewrites token by token, for whatever way the script is read as tokens. */
  lemma {:induction false} PassIsTokenwise(ts: seq<Token>)
    requires IsLexing(ts)
    ensures HexPass(SourceOf(ts)) == ImageOf(ts)
  {
    if ts != [] {
      PassIsTokenwise(ts[1..]);
      var rest := SourceOf(ts[1..]);
      match ts[0]
      case Literal(text) => CopyLiteral(text, rest);
      case Hex(x, d) => ConvertHex(x, d, rest);
      case Plain(c) => assert ([c] + rest)[1..] == rest;
    }
  }

  /** Every script can be read as tokens. */
  lemma {:induction false} LexingExists(s: string) returns (ts: seq<Token>)
    ensures IsLexing(ts) && SourceOf(ts) == s
  {
    hide *;
    NoSource();
    if s == [] {
      ts := [];
    } else {
      var t := FirstToken(s);
      var us := LexingExists(s[|Source(t)|..]);
      ts := [t] + us;
      Prepends(t, us);
    }
  }

  /** What stands at the start of a text. */
  lemma FirstToken(s: string) returns (t: Token)
    requires s != []
    ensures var n := |Source(t)|;
            0 < n <= |s| && s == Source(t) + s[n..] && Fits(t, s[n..])
  {
    hide LiteralLen, Run;
    if Quoted(s) {
      t := Literal(s[..LiteralLen(s)]);
      CutIsLiteral(s);
    } else if Convertible(s) {
      t := Hex(s[1], HexDigits(s));
      AfterHexDigits(s);
    } else {
      t := Plain(s[0]);
      assert [s[0]] + s[1..] == s;
    }
  }

  lemma Prepends(t: Token, us: seq<Token>)
    requires IsLexing(us) && Fits(t, SourceOf(us))
    ensures IsLexing([t] + us) && SourceOf([t] + us) == Source(t) + SourceOf(us)
  {
    hide Fits, Source;
    assert ([t] + us)[1..] == us;
  }

  lemma NoSource()
    ensures SourceOf([]) == [] && IsLexing([])
  {
  }

  /** The reading is unique, so the two lemmas above determine the result on every script. */
  lemma {:induction false} LexingUnique(ts: seq<Token>, us: seq<Token>)
    requires IsLexing(ts) && IsLexing(us) && SourceOf(ts) == SourceOf(us)
    ensures ts == us
  {
    hide *;
    NoSource();
    if ts == [] || us == [] {
      if ts != [] {
        HeadOf(ts);
      } else if us != [] {
        HeadOf(us);
      }
    } else {
      HeadOf(ts);
      HeadOf(us);
      RestOf(ts);
      RestOf(us);
      LexingUnique(ts[1..], us[1..]);
      assert ts == [ts[0]] + ts[1..] && us == [us[0]] + us[1..];
    }
  }

  lemma RestOf(ts: seq<Token>)
    requires IsLexing(ts) && ts != []
    ensures IsLexing(ts[1..]) && |Source(ts[0])| <= |SourceOf(ts)|
    ensures SourceOf(ts)[|Source(ts[0])|..] == SourceOf(ts[1..])
  {
    hide Source, Fits;
  }

  lemma HeadOf(ts: seq<Token>)
    requires IsLexing(ts) && ts != []
    ensures var s := SourceOf(ts);
            s != [] && ts[0] == if Quoted(s) then Literal(s[..LiteralLen(s)])
                                else if Convertible(s) then Hex(s[1], HexDigits(s)) else Plain(s[0])
  {
    var rest := SourceOf(ts[1..]);
    match ts[0]
    case Literal(text) =>
      LiteralIsWhole(text, rest);
      assert (text + rest)[..|text|] == text;
    case Hex(x, d) => ConvertHex(x, d, rest);
    case Plain(c) =>
  }

  // --------------------------------------------------- limits of the scanner

  /** A literal of 2^63 or more stays as written, unless its last digit is `0` and that `0` starts
      the next literal. */
  lemma OverflowingLiteral(x: char, d: string, rest: string)
    requires IsX(x) && d != [] && All(IsHexDigit, d) && !StartsWith(IsHexDigit, rest)
    requires HexVal(d) >= MAX_INT64
    ensures var last := |d| - 1;
            HexPass(['0', x] + d + rest) ==
            if d[last] == '0' && Convertible(['0'] + rest)
            then ['0', x] + (d[..last] + HexPass(['0'] + rest))
            else ['0', x] + (d + HexPass(rest))
  {
    var last := |d| - 1;
    ConvertHex(x, d, rest);
    assert ['0', x] + d + rest == ['0', x] + (d + rest);
    assert !Convertible(['0', x] + (d + rest));
    hide *;
    CopyPrefix(x, d + rest);
    if d[last] == '0' && Convertible(['0'] + rest) {
      LastDigit(d, rest);
      NotTwoZeros(rest);
      CopyDigits(d[..last], ['0'] + rest);
    } else {
      CopyDigits(d, rest);
    }
  }

  lemma LastDigit(d: string, rest: string)
    requires d != [] && d[|d| - 1] == '0' && All(IsHexDigit, d)
    ensures d + rest == d[..|d| - 1] + (['0'] + rest)
    ensures All(IsHexDigit, d[..|d| - 1])
  {
    hide HexVal;
    assert d == d[..|d| - 1] + ['0'];
  }

  lemma NotTwoZeros(rest: string)
    ensures !Convertible(['0'] + (['0'] + rest))
  {
    assert (['0'] + (['0'] + rest))[1] == '0';
  }

  /** Hexadecimal digits are plain text unless the last one begins a literal. */
  lemma CopyDigits(d: string, rest: string)
    requires All(IsHexDigit, d)
    requires d != [] ==> !(d[|d| - 1] == '0' && Convertible(['0'] + rest))
    ensures HexPass(d + rest) == d + HexPass(rest)
  {
    hide HexPass, Convertible, HexDigits, HexVal, HexDigitVal, All, Run, IsHexDigit, HexPrefix;
    forall i | 0 <= i < |d| ensures d[i] != '"' && !Convertible(d[i..] + rest) {
      DigitAt(d, i);
      if i < |d| - 1 {
        DigitAt(d, i + 1);
        NoLiteralAt(d, i, rest);
      } else if d[i] == '0' {
        assert d[i..] + rest == ['0'] + rest;
      } else {
        OnlyAtZero(d[i..] + rest);
      }
    }
    CopyPlain(d, rest);
  }

  lemma DigitAt(d: string, i: nat)
    requires All(IsHexDigit, d) && i < |d|
    ensures IsHexDigit(d[i]) && d[i] != '"'
  {
  }

  lemma NoLiteralAt(d: string, i: nat, rest: string)
    requires i + 1 < |d| && IsHexDigit(d[i + 1])
    ensures !Convertible(d[i..] + rest)
  {
    hide HexDigits;
    assert (d[i..] + rest)[1] == d[i + 1];
  }

  lemma OnlyAtZero(s: string)
    requires s != [] && s[0] != '0'
    ensures !Convertible(s)
  {
    hide HexDigits;
  }

  lemma CopyPrefix(x: char, rest: string)
    requires IsX(x) && !Convertible(['0', x] + rest)
    ensures HexPass(['0', x] + rest) == ['0', x] + HexPass(rest)
  {
    hide HexPass;
    var s := ['0', x] + rest;
    PassStep(s);
    assert s[1..] == [x] + rest;
    PassStep([x] + rest);
    assert ([x] + rest)[1..] == rest;
    assert ['0'] + ([x] + HexPass(rest)) == ['0', x] + HexPass(rest);
  }

  /** The scan does not look at the character before a literal. */
  lemma HexInsideIdentifier()
    ensures HexPass("a0x1") == "a1"
  {
    assert "a0x1"[1..] == ['0', 'x'] + "1" + "";
    ConvertHex('x', "1", "");
    assert HexVal("1") == 1 by { assert "1"[..0] == []; }
  }

  /** Outside string literals, no hexadecimal literal is directly followed by `x` or `X`. */
  predicate NoLiteralThenX(s: string) {
    if s == [] then true
    else if Quoted(s) then NoLiteralThenX(s[LiteralLen(s)..])
    else if HexPrefix(s) && HexDigits(s) != [] then
      var rest := s[2 + |HexDigits(s)|..];
      !StartsWith(IsX, rest) && NoLiteralThenX(rest)
    else NoLiteralThenX(s[1..])
  }

  /** The first output character is a digit exactly when the first input character is, and so on. */
  lemma FirstOfPass(s: string)
    ensures HexPass(s) == [] <==> s == []
    ensures StartsWith(IsX, HexPass(s)) <==> StartsWith(IsX, s)
    ensures StartsWith(IsHexDigit, HexPass(s)) <==> StartsWith(IsHexDigit, s)
  {
    if s != [] && !Quoted(s) && Convertible(s) {
      assert HexPass(s)[0] == Dec(HexVal(HexDigits(s)))[0];
    }
  }

  lemma AfterHexDigits(s: string)
    requires HexPrefix(s)
    ensures var d := HexDigits(s);
            s == ['0', s[1]] + d + s[2 + |d|..]
  {
  }

  /** The decimal image of a literal is plain text when no `x` follows it. */
  lemma CopyDecimal(w: string, out: string)
    requires All(IsDigit, w) && !StartsWith(IsX, out)
    ensures HexPass(w + out) == w + HexPass(out)
  {
    hide HexPass, Convertible;
    forall i | 0 <= i < |w| ensures w[i] != '"' && !Convertible(w[i..] + out) {
      assert IsDigit(w[i]);
      if i < |w| - 1 {
        assert IsDigit(w[i + 1]);
        NoLiteralAt(w, i, out);
      } else {
        assert w[i..] + out == [w[i]] + out;
        NoLiteralBefore(w[i], out);
      }
    }
    CopyPlain(w, out);
  }

  lemma NoLiteralBefore(c: char, out: string)
    requires !StartsWith(IsX, out)
    ensures !Convertible([c] + out)
  {
    hide HexDigits;
    assert out != [] ==> ([c] + out)[1] == out[0];
  }

  lemma IdempotentAtHex(x: char, d: string, rest: string)
    requires IsX(x) && d != [] && All(IsHexDigit, d)
    requires !StartsWith(IsHexDigit, rest) && !StartsWith(IsX, rest)
    requires HexPass(HexPass(rest)) == HexPass(rest)
    ensures HexPass(HexPass(['0', x] + d + rest)) == HexPass(['0', x] + d + rest)
  {
    hide *;
    var out := HexPass(rest);
    FirstOfPass(rest);
    if HexVal(d) < MAX_INT64 {
      ConvertHex(x, d, rest);
      CopyDecimal(Dec(HexVal(d)), out);
    } else {
      NoLiteralBefore('0', rest);
      NoLiteralBefore('0', out);
      OverflowingLiteral(x, d, rest);
      OverflowingLiteral(x, d, out);
      assert ['0', x] + d + out == ['0', x] + (d + out);
    }
  }

  lemma IdempotentAtPlain(s: string)
    requires s != [] && s[0] != '"' && !(HexPrefix(s) && HexDigits(s) != [])
    requires HexPass(HexPass(s[1..])) == HexPass(s[1..])
    ensures HexPass(HexPass(s)) == HexPass(s)
  {
    var out := HexPass(s[1..]);
    var t := [s[0]] + out;
    PassStep(s);
    FirstOfPass(s[1..]);
    assert t[1..] == out;
    if HexPrefix(t) {
      assert IsX(out[0]) && StartsWith(IsX, s[1..]);
      SubDrop(s, 1, 1);
      PassStep(s[1..]);
      FirstOfPass(s[2..]);
      assert t[2..] == HexPass(s[2..]);
      assert HexDigits(t) == [];
    }
    PassStep(t);
  }

  lemma {:induction false} PassIdempotent(s: string)
    requires NoLiteralThenX(s)
    ensures HexPass(HexPass(s)) == HexPass(s)
  {
    if s == [] {
    } else if Quoted(s) {
      var n := LiteralLen(s);
      CutIsLiteral(s);
      FirstOfPass(s[n..]);
      PassIdempotent(s[n..]);
      CopyLiteral(s[..n], HexPass(s[n..]));
    } else if HexPrefix(s) && HexDigits(s) != [] {
      var d := HexDigits(s);
      PassIdempotent(s[2 + |d|..]);
      AfterHexDigits(s);
      IdempotentAtHex(s[1], d, s[2 + |d|..]);
    } else {
      PassIdempotent(s[1..]);
      IdempotentAtPlain(s);
    }
  }

  lemma OneDigit(c: char)
    requires IsHexDigit(c)
    ensures HexVal([c]) == HexDigitVal(c)
  {
    assert [c][..0] == [];
  }

  /** Without that condition a second pass can change the text again. */
  lemma PassNotIdempotent()
    ensures HexPass("0x0x5") == "0x5" && HexPass("0x5") == "5"
  {
    OneDigit('5');
    OneDigit('0');
    ConvertHex('x', "5", "");
    assert "0x5" == ['0', 'x'] + "5" + "";
    assert "0x0x5" == ['0', 'x'] + "0" + "x5";
    assert PlainBefore("x5", "");
    CopyPlain("x5", "");
    assert "x5" + "" == "x5";
    assert !StartsWith(IsHexDigit, "x5");
    ConvertHex('x', "0", "x5");
  }
}
