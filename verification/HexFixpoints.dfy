/** Which texts the hexadecimal scan leaves alone, and when a second scan changes nothing. */
module HexFixpoints {
  import opened HexScan
  import opened Literals
  import opened Text

  // ------------------------------------------- when a pass changes the text

  /** Outside string literals no convertible literal begins. */
  predicate NoLiteral(s: string) {
    if s == [] then true
    else if Quoted(s) then NoLiteral(s[LiteralLen(s)..])
    else !Convertible(s) && NoLiteral(s[1..])
  }

  predicate ZeroOrX(c: char) {
    c == '0' || IsX(c)
  }

  lemma {:induction false} ZeroDigits(d: string)
    requires All(IsHexDigit, d) && HexVal(d) == 0
    ensures All(ZeroOrX, d)
  {
    if d != [] {
      var e, c := d[..|d| - 1], d[|d| - 1];
      assert All(IsHexDigit, e) && IsHexDigit(c) && HexVal(d) == 16 * HexVal(e) + HexDigitVal(c);
      ZeroDigits(e);
      hide HexVal;
      assert ZeroOrX(c);
      assert d == e + [c];
    }
  }

  lemma DecStart(n: nat)
    ensures Dec(n)[0] == '0' <==> n == 0
    ensures n == 0 ==> Dec(n) == "0"
  {
  }

  lemma ConvertibleAlone(t: string, rest: string)
    requires t != [] && !StartsWith(IsHexDigit, rest) && !StartsWith(IsX, rest)
    ensures Convertible(t) <==> Convertible(t + rest)
  {
    hide *;
    SamePrefixes(t, rest);
    if HexPrefix(t) {
      AfterHexDigits(t);
      PrefixIs(t);
      var d := HexDigits(t);
      var t2 := t[2 + |d|..];
      assert t + rest == ['0', t[1]] + (d + (t2 + rest));
      NoDigitJoin(t2, rest);
      DigitsOf(t[1], d, t2 + rest);
      ConvertibleIs(t);
      ConvertibleIs(t + rest);
    } else if Convertible(t) {
      ConvertibleParts(t);
    } else if Convertible(t + rest) {
      ConvertibleParts(t + rest);
    }
  }

  lemma SamePrefixes(t: string, rest: string)
    requires t != [] && !StartsWith(IsX, rest)
    ensures HexPrefix(t) <==> HexPrefix(t + rest)
  {
    assert |t| == 1 && rest != [] ==> (t + rest)[1] == rest[0];
  }

  /** What a convertible literal at the head of `t + rest` is, if `rest` does not continue it. */
  lemma LiteralIn(t: string, rest: string)
    requires t != [] && Convertible(t + rest) && !StartsWith(IsHexDigit, rest) && !StartsWith(IsX, rest)
    ensures HexPrefix(t) && HexDigits(t) == HexDigits(t + rest)
    ensures var d := HexDigits(t);
            && t == ['0', t[1]] + d + t[2 + |d|..]
            && HexPass(t + rest) == Dec(HexVal(d)) + HexPass(t[2 + |d|..] + rest)
  {
    hide *;
    ConvertibleAlone(t, rest);
    ConvertibleParts(t);
    AfterHexDigits(t);
    var d := HexDigits(t);
    var t2 := t[2 + |d|..];
    assert t + rest == ['0', t[1]] + d + (t2 + rest);
    NoDigitJoin(t2, rest);
    ConvertHex(t[1], d, t2 + rest);
  }

  lemma NoDigitJoin(a: string, b: string)
    requires !StartsWith(IsHexDigit, a) && !StartsWith(IsHexDigit, b)
    ensures !StartsWith(IsHexDigit, a + b)
  {
    assert a + b == if a == [] then b else [a[0]] + (a[1..] + b);
  }

  /** The pass never shifts a text behind zeros and `x`s. */
  lemma {:induction false} NoShift(w: string, t: string, rest: string, out: string)
    requires w != [] && All(ZeroOrX, w)
    requires !StartsWith(IsHexDigit, rest) && !StartsWith(IsX, rest)
    ensures HexPass(t + rest) != w + (t + out)
    decreases |t|
  {
    hide *;
    ShiftAtStart(w, t, rest, out);
    if t == [] || t[0] == '"' {
    } else if Convertible(t + rest) {
      ShiftAtLiteral(w, t, rest, out);
      var d := HexDigits(t);
      if HexVal(d) == 0 {
        ShiftedWord(w, t, d);
        NoShift(w[1..] + (['0', t[1]] + d), t[2 + |d|..], rest, out);
      }
    } else {
      ShiftAtPlain(w, t, rest, out);
      if t[0] == w[0] {
        ShiftedChar(w);
        NoShift(w[1..] + [t[0]], t[1..], rest, out);
      }
    }
  }

  lemma ShiftAtStart(w: string, t: string, rest: string, out: string)
    requires w != [] && All(ZeroOrX, w)
    requires !StartsWith(IsHexDigit, rest) && !StartsWith(IsX, rest)
    ensures t == [] || t[0] == '"' ==> HexPass(t + rest) != w + (t + out)
  {
    hide HexPass, LiteralLen;
    assert (w + (t + out))[0] == w[0] && ZeroOrX(w[0]);
    FirstOfPass(t + rest);
    if t == [] {
      assert t + rest == rest;
    } else if t[0] == '"' {
      PassString(t + rest);
    }
  }

  lemma ShiftedWord(w: string, t: string, d: string)
    requires w != [] && All(ZeroOrX, w) && |t| > 1 && IsX(t[1]) && All(IsHexDigit, d) && HexVal(d) == 0
    ensures All(ZeroOrX, w[1..] + (['0', t[1]] + d))
  {
    ZeroDigits(d);
    hide HexVal;
  }

  lemma ShiftedChar(w: string)
    requires w != [] && All(ZeroOrX, w)
    ensures All(ZeroOrX, w[1..] + [w[0]])
  {
  }

  lemma ShiftAtPlain(w: string, t: string, rest: string, out: string)
    requires w != [] && t != [] && t[0] != '"' && !Convertible(t + rest)
    ensures HexPass(t + rest) == w + (t + out) ==>
              t[0] == w[0] && HexPass(t[1..] + rest) == (w[1..] + [t[0]]) + (t[1..] + out)
  {
    hide *;
    PassStep(t + rest);
    assert (t + rest)[1..] == t[1..] + rest;
    assert w + (t + out) == [w[0]] + ((w[1..] + [t[0]]) + (t[1..] + out));
    FirstCancels(t[0], HexPass(t[1..] + rest), w[0], (w[1..] + [t[0]]) + (t[1..] + out));
  }

  lemma FirstCancels(a: char, p: string, b: char, q: string)
    ensures [a] + p == [b] + q <==> a == b && p == q
  {
    assert ([a] + p)[0] == a && ([b] + q)[0] == b;
    assert ([a] + p)[1..] == p && ([b] + q)[1..] == q;
  }

  lemma ShiftAtLiteral(w: string, t: string, rest: string, out: string)
    requires w != [] && All(ZeroOrX, w)
    requires t != [] && Convertible(t + rest) && !StartsWith(IsHexDigit, rest) && !StartsWith(IsX, rest)
    ensures HexPrefix(t) && All(IsHexDigit, HexDigits(t)) && 2 + |HexDigits(t)| <= |t| && IsX(t[1])
    ensures var d, t2 := HexDigits(t), t[2 + |HexDigits(t)|..];
            HexPass(t + rest) == w + (t + out) ==>
              HexVal(d) == 0 && HexPass(t2 + rest) == (w[1..] + (['0', t[1]] + d)) + (t2 + out)
  {
    hide *;
    LiteralIn(t, rest);
    PrefixIs(t);
    var d := HexDigits(t);
    var t2 := t[2 + |d|..];
    var q := HexPass(t2 + rest);
    var n := Dec(HexVal(d));
    DecStart(HexVal(d));
    DigitNotX(n, w);
    assert n + q == [n[0]] + (n[1..] + q);
    assert w + (t + out) == [w[0]] + ((w[1..] + (['0', t[1]] + d)) + (t2 + out));
    FirstCancels(n[0], n[1..] + q, w[0], (w[1..] + (['0', t[1]] + d)) + (t2 + out));
    if HexVal(d) == 0 {
      assert n[1..] + q == q;
    }
  }

  /** A decimal numeral and a text of zeros and `x`s can share only a zero at the front. */
  lemma DigitNotX(n: string, w: string)
    requires n != [] && All(IsDigit, n) && w != [] && All(ZeroOrX, w)
    ensures n[0] == w[0] ==> n[0] == '0'
  {
    assert IsDigit(n[0]) && ZeroOrX(w[0]);
  }

  /** The fixpoints of the pass are exactly the texts without a convertible literal outside strings. */
  lemma {:induction false} FixpointIff(s: string)
    ensures HexPass(s) == s <==> NoLiteral(s)
  {
    if s == [] {
    } else if Quoted(s) {
      var n := LiteralLen(s);
      FixpointIff(s[n..]);
      assert s == s[..n] + s[n..];
      SamePrefix(s[..n], HexPass(s[n..]), s[n..]);
    } else if Convertible(s) {
      assert s + "" == s;
      LiteralChanges(s, "", "");
    } else {
      FixpointIff(s[1..]);
      assert s == [s[0]] + s[1..];
      SamePrefix([s[0]], HexPass(s[1..]), s[1..]);
    }
  }

  /** A text at whose head a literal is converted does not stay, whatever follows. */
  lemma LiteralChanges(t: string, rest: string, out: string)
    requires t != [] && Convertible(t + rest) && !StartsWith(IsHexDigit, rest) && !StartsWith(IsX, rest)
    ensures HexPass(t + rest) != t + out
  {
    StaysAtLiteral(t, rest, out);
    var d := HexDigits(t);
    if HexVal(d) == 0 {
      ZeroDigits(d);
      NoShift([t[1]] + d, t[2 + |d|..], rest, out);
    }
  }

  lemma PrefixIs(t: string)
    requires HexPrefix(t)
    ensures |t| > 1 && t[0] == '0' && IsX(t[1])
  {
  }

  lemma StaysAtLiteral(t: string, rest: string, out: string)
    requires t != [] && Convertible(t + rest) && !StartsWith(IsHexDigit, rest) && !StartsWith(IsX, rest)
    ensures HexPrefix(t) && All(IsHexDigit, HexDigits(t)) && 2 + |HexDigits(t)| <= |t| && IsX(t[1])
    ensures var d, t2 := HexDigits(t), t[2 + |HexDigits(t)|..];
            HexPass(t + rest) == t + out ==> HexVal(d) == 0 && HexPass(t2 + rest) == ([t[1]] + d) + (t2 + out)
  {
    hide *;
    LiteralIn(t, rest);
    PrefixIs(t);
    var d := HexDigits(t);
    DecStart(HexVal(d));
    assert t == ['0'] + ([t[1]] + d) + t[2 + |d|..];
    ZeroCancels(Dec(HexVal(d)), HexPass(t[2 + |d|..] + rest), t, [t[1]] + d, t[2 + |d|..], out);
  }

  /** `n + q` can be `t + out` for a `t` that starts with `0` only if `n` does. */
  lemma ZeroCancels(n: string, q: string, t: string, w: string, t2: string, out: string)
    requires n != [] && t == ['0'] + w + t2
    ensures n + q == t + out ==> n[0] == '0' && (n == "0" ==> q == w + (t2 + out))
  {
    assert (n + q)[0] == n[0];
    assert t + out == ['0'] + (w + (t2 + out));
    if n == "0" {
      SamePrefix(['0'], q, w + (t2 + out));
    }
  }

  /** A text without quotes stays in front of `rest` exactly if no convertible literal begins in it. */
  lemma {:induction false} TextKeptIff(t: string, rest: string)
    requires '"' !in t && !StartsWith(IsHexDigit, rest) && !StartsWith(IsX, rest)
    ensures HexPass(t + rest) == t + HexPass(rest) <==> forall i :: 0 <= i < |t| ==> !Convertible(t[i..])
  {
    hide HexPass, Convertible;
    forall i | 0 <= i < |t| ensures Convertible(t[i..]) <==> Convertible(t[i..] + rest) {
      ConvertibleAlone(t[i..], rest);
    }
    if forall i :: 0 <= i < |t| ==> !Convertible(t[i..] + rest) {
      CopyPlain(t, rest);
    } else {
      TextChanges(t, rest, HexPass(rest));
    }
  }

  lemma {:induction false} TextChanges(t: string, rest: string, out: string)
    requires '"' !in t && !StartsWith(IsHexDigit, rest) && !StartsWith(IsX, rest)
    requires exists i :: 0 <= i < |t| && Convertible(t[i..] + rest)
    ensures HexPass(t + rest) != t + out
  {
    hide HexPass, Convertible;
    if Convertible(t + rest) {
      LiteralChanges(t, rest, out);
    } else {
      var i :| 0 <= i < |t| && Convertible(t[i..] + rest);
      assert t[0..] == t;
      assert t[1..][i - 1..] == t[i..];
      TextChanges(t[1..], rest, out);
      PassStep(t + rest);
      assert (t + rest)[1..] == t[1..] + rest;
      assert t + out == [t[0]] + (t[1..] + out);
      SamePrefix([t[0]], HexPass(t[1..] + rest), t[1..] + out);
    }
  }

  // -------------------------------------------------- idempotence, exactly

  /**
    * The image of token `i` ends in a zero that the following `x` and the images behind it complete to
    * a convertible literal.
    */
  predicate Restarts(ts: seq<Token>, i: nat) {
    && i + 1 < |ts|
    && ts[i].Hex? && All(IsHexDigit, ts[i].digits) && HexVal(ts[i].digits) % 10 == 0
    && ts[i + 1].Plain? && IsX(ts[i + 1].c)
    && Convertible(['0', ts[i + 1].c] + ImageOf(ts[i + 2..]))
  }

  lemma {:induction false} HexValJoin(a: string, b: string)
    requires All(IsHexDigit, a) && All(IsHexDigit, b) && b != []
    ensures HexVal(a + b) >= 16 * HexVal(a)
  {
    var ab := a + b;
    assert ab[..|ab| - 1] == a + b[..|b| - 1] && ab[|ab| - 1] == b[|b| - 1];
    if |b| == 1 {
      assert a + b[..0] == a;
    } else {
      HexValJoin(a, b[..|b| - 1]);
    }
  }

  /** A character at which no literal begins starts none after the pass either. */
  lemma PlainStays(c: char, rest: string)
    requires c != '"' && !Convertible([c] + rest)
    ensures !Convertible([c] + HexPass(rest))
  {
    FirstOfPass(rest);
    var s, t := [c] + rest, [c] + HexPass(rest);
    assert rest != [] ==> s[1] == rest[0];
    assert HexPass(rest) != [] ==> t[1] == HexPass(rest)[0];
    if c == '0' && StartsWith(IsX, rest) {
      assert rest == [rest[0]] + rest[1..];
      assert s == ['0', rest[0]] + rest[1..];
      PrefixStays(rest[0], rest[1..]);
    }
  }

  lemma PrefixStays(x: char, rest: string)
    requires IsX(x) && !Convertible(['0', x] + rest)
    ensures !Convertible(['0'] + HexPass([x] + rest))
  {
    var d := rest[..Run(IsHexDigit, rest)];
    var r3 := rest[|d|..];
    RunAll(IsHexDigit, rest);
    assert rest == d + r3;
    DigitsOf(x, d, r3);
    PassOfPrefix(x, rest);
    hide *;
    if d == [] {
      FirstOfPass(rest);
      NoDigits(x, HexPass(rest));
    } else {
      TooLarge(x, d, r3);
      OverflowStays(x, d, r3);
    }
  }

  lemma OverflowStays(x: char, d: string, rest: string)
    requires IsX(x) && d != [] && All(IsHexDigit, d) && !StartsWith(IsHexDigit, rest) && HexVal(d) >= MAX_INT64
    ensures !Convertible(['0', x] + HexPass(d + rest))
  {
    hide *;
    if d[|d| - 1] == '0' && Convertible(['0'] + rest) {
      LastDigit(d, rest);
      NotTwoZeros(rest);
      CopyDigits(d[..|d| - 1], ['0'] + rest);
      OverflowingRestart(x, d, rest);
    } else {
      CopyDigits(d, rest);
      FirstOfPass(rest);
      TooLarge(x, d, HexPass(rest));
    }
  }

  lemma PassOfPrefix(x: char, rest: string)
    requires IsX(x)
    ensures ['0'] + HexPass([x] + rest) == ['0', x] + HexPass(rest)
  {
    PassStep([x] + rest);
    assert ([x] + rest)[1..] == rest;
  }

  lemma NoDigits(x: char, rest: string)
    requires IsX(x) && !StartsWith(IsHexDigit, rest)
    ensures !Convertible(['0', x] + rest)
  {
    assert [] + rest == rest;
    DigitsOf(x, [], rest);
  }

  lemma TooLarge(x: char, d: string, rest: string)
    requires IsX(x) && d != [] && All(IsHexDigit, d) && !StartsWith(IsHexDigit, rest)
    ensures Convertible(['0', x] + (d + rest)) <==> HexVal(d) < MAX_INT64
  {
    DigitsOf(x, d, rest);
  }

  lemma DigitsOf(x: char, d: string, rest: string)
    requires IsX(x) && All(IsHexDigit, d) && !StartsWith(IsHexDigit, rest)
    ensures HexPrefix(['0', x] + (d + rest)) && HexDigits(['0', x] + (d + rest)) == d
  {
    hide *;
    ReadsDigits(x, d, rest);
    assert ['0', x] + (d + rest) == ['0', x] + d + rest;
  }

  /** If an overflowing literal loses its last zero to the next one, what it gets instead keeps it too large. */
  lemma OverflowingRestart(x: char, d: string, rest: string)
    requires IsX(x) && d != [] && All(IsHexDigit, d) && HexVal(d) >= MAX_INT64
    requires d[|d| - 1] == '0' && Convertible(['0'] + rest)
    ensures !Convertible(['0', x] + (d[..|d| - 1] + HexPass(['0'] + rest)))
  {
    var e := d[..|d| - 1];
    var t := ['0'] + rest;
    var d2 := HexDigits(t);
    AfterHexDigits(t);
    FirstOfPass(t[2 + |d2|..]);
    assert HexPass(t) == Dec(HexVal(d2)) + HexPass(t[2 + |d2|..]);
    assert HexVal(d) == 16 * HexVal(e);
    hide *;
    StillTooLarge(x, e, HexVal(d2), HexPass(t[2 + |d2|..]));
  }

  lemma StillTooLarge(x: char, e: string, n: nat, out: string)
    requires IsX(x) && All(IsHexDigit, e) && 16 * HexVal(e) >= MAX_INT64 && !StartsWith(IsHexDigit, out)
    ensures !Convertible(['0', x] + (e + (Dec(n) + out)))
  {
    hide *;
    var d := Dec(n);
    DecIsHex(n);
    HexValJoin(e, d);
    DigitsJoin(e, d);
    assert e + (d + out) == (e + d) + out;
    TooLarge(x, e + d, out);
  }

  lemma DigitsJoin(a: string, b: string)
    requires All(IsHexDigit, a) && All(IsHexDigit, b)
    ensures All(IsHexDigit, a + b)
  {
  }

  lemma DecIsHex(n: nat)
    ensures All(IsHexDigit, Dec(n))
  {
    var d := Dec(n);
    hide Dec;
    assert forall i :: 0 <= i < |d| ==> IsDigit(d[i]);
  }

  lemma {:induction false} DecEnds(n: nat)
    ensures var s := Dec(n); s[|s| - 1] == '0' <==> n % 10 == 0
  {
  }

  /** In the decimal image of a literal only the last digit can begin one, together with what follows. */
  lemma {:induction false} NoLiteralInDigits(w: string, out: string)
    requires w != [] && All(IsDigit, w)
    ensures NoLiteral(w + out) <==> !(w[|w| - 1] == '0' && Convertible(['0'] + out)) && NoLiteral(out)
  {
    hide NoLiteral, Convertible;
    var s := w + out;
    assert s[0] == w[0] && IsDigit(w[0]) && s[1..] == w[1..] + out;
    NoLiteralStep(s);
    if |w| == 1 {
      assert s == [w[0]] + out && w[1..] + out == out;
      if w[0] != '0' {
        OnlyAtZero(s);
      }
    } else {
      assert IsDigit(w[1]) && w[0..] == w;
      NoLiteralAt(w, 0, out);
      NoLiteralInDigits(w[1..], out);
    }
  }

  lemma NoLiteralStep(s: string)
    requires s != [] && s[0] != '"'
    ensures NoLiteral(s) <==> !Convertible(s) && NoLiteral(s[1..])
  {
  }

  lemma {:induction false} NoLiteralInImage(ts: seq<Token>)
    requires IsLexing(ts)
    ensures NoLiteral(ImageOf(ts)) <==> forall i :: 0 <= i < |ts| ==> !Restarts(ts, i)
  {
    if ts != [] {
      var us := ts[1..];
      NoLiteralInImage(us);
      PassIsTokenwise(us);
      HeadImage(ts);
      hide Restarts, IsLexing, NoLiteral, ImageOf;
      forall i: nat | 0 < i < |ts| ensures Restarts(ts, i) <==> Restarts(us, i - 1) {
        RestartsTail(ts, i);
      }
      if exists i: nat :: i < |us| && Restarts(us, i) {
        var i: nat :| i < |us| && Restarts(us, i);
        assert Restarts(ts, i + 1);
      }
    }
  }

  lemma RestartsTail(ts: seq<Token>, i: nat)
    requires 0 < i < |ts|
    ensures Restarts(ts, i) <==> Restarts(ts[1..], i - 1)
  {
    assert i + 1 < |ts| ==> ts[1..][i + 1..] == ts[i + 2..];
    hide ImageOf, Convertible;
  }

  lemma HeadImage(ts: seq<Token>)
    requires IsLexing(ts) && ts != [] && HexPass(SourceOf(ts[1..])) == ImageOf(ts[1..])
    ensures NoLiteral(ImageOf(ts)) <==> !Restarts(ts, 0) && NoLiteral(ImageOf(ts[1..]))
  {
    var src, out := SourceOf(ts[1..]), ImageOf(ts[1..]);
    FirstOfPass(src);
    match ts[0]
    case Literal(text) =>
      LiteralIsWhole(text, out);
      assert (text + out)[|text|..] == out;
    case Plain(c) =>
      PlainStays(c, src);
      assert ([c] + out)[1..] == out;
    case Hex(x, d) =>
      NoLiteralInDigits(Dec(HexVal(d)), out);
      DecEnds(HexVal(d));
      AfterHexToken(ts);
  }

  /** Behind a hexadecimal token an `x` is a token of its own. */
  lemma AfterHexToken(ts: seq<Token>)
    requires IsLexing(ts) && ts != [] && ts[0].Hex?
    ensures Convertible(['0'] + ImageOf(ts[1..])) <==>
            |ts| > 1 && ts[1].Plain? && IsX(ts[1].c) && Convertible(['0', ts[1].c] + ImageOf(ts[2..]))
  {
    var us := ts[1..];
    if us == [] {
    } else {
      assert us[0] == ts[1] && us[1..] == ts[2..];
      assert Fits(us[0], SourceOf(us[1..])) && ImageOf(us) == Image(us[0]) + ImageOf(us[1..]);
      hide *;
      AfterZero(us[0], SourceOf(us[1..]), ImageOf(us[1..]));
    }
  }

  /** Only an `x` that is a token of its own makes a zero before it the start of a literal. */
  lemma AfterZero(u: Token, src: string, out: string)
    requires Fits(u, src)
    ensures Convertible(['0'] + (Image(u) + out)) <==> u.Plain? && IsX(u.c) && Convertible(['0', u.c] + out)
  {
    hide HexDigits, HexVal, Dec;
    var s := ['0'] + (Image(u) + out);
    match u
    case Literal(text) => assert s[1] == '"';
    case Hex(x, d) => assert s[1] == Dec(HexVal(d))[0] && IsDigit(s[1]);
    case Plain(c) => assert s[1] == c && s == ['0', c] + out;
  }

  /** A second pass changes nothing exactly if no token restarts a literal. */
  lemma PassIdempotentIff(ts: seq<Token>)
    requires IsLexing(ts)
    ensures var s := SourceOf(ts);
            HexPass(HexPass(s)) == HexPass(s) <==> forall i :: 0 <= i < |ts| ==> !Restarts(ts, i)
  {
    PassIsTokenwise(ts);
    FixpointIff(ImageOf(ts));
    NoLiteralInImage(ts);
  }

  /** `8` and `k` zeros. */
  function Eight(k: nat): (d: string)
    ensures |d| == k + 1 && All(IsHexDigit, d) && (k > 0 ==> d[k] == '0' && d[..k] == Eight(k - 1))
  {
    if k == 0 then "8" else Eight(k - 1) + ['0']
  }

  lemma {:induction false} EightVal(k: nat)
    ensures HexVal(Eight(k)) >= if k >= 15 then MAX_INT64 else EightPower(k)
    ensures k < 15 ==> HexVal(Eight(k)) == EightPower(k)
  {
    if k == 0 {
      OneDigit('8');
    } else {
      EightVal(k - 1);
      if k == 15 {
        assert EightPower(14) == 0x10 * EightPower(13) == 0x100 * EightPower(12);
        assert EightPower(12) == 0x10 * EightPower(11) == 0x100 * EightPower(10);
        assert EightPower(10) == 0x10 * EightPower(9) == 0x100 * EightPower(8);
        assert EightPower(8) == 0x10 * EightPower(7) == 0x100 * EightPower(6);
        assert EightPower(6) == 0x10 * EightPower(5) == 0x100 * EightPower(4);
        assert EightPower(4) == 0x10 * EightPower(3) == 0x100 * EightPower(2);
        assert EightPower(2) == 0x10 * EightPower(1) == 0x100 * EightPower(0);
      }
    }
  }

  function EightPower(k: nat): nat {
    if k == 0 then 8 else 16 * EightPower(k - 1)
  }

  lemma LosesZero(k: nat, rest: string)
    requires k >= 16 && Convertible(['0'] + rest) && !StartsWith(IsHexDigit, rest)
    ensures HexPass(['0', 'x'] + Eight(k) + rest) == ['0', 'x'] + (Eight(k - 1) + HexPass(['0'] + rest))
  {
    EightVal(k);
    assert IsX('x');
    hide *;
    OverflowingLiteral('x', Eight(k), rest);
  }

  /** Not every overflowing literal stays as written: `0x80000000000000000x5` loses its last zero. */
  lemma OverflowingLiteralChanges(k: nat)
    requires k >= 16
    ensures HexPass(['0', 'x'] + Eight(k) + "x5") == ['0', 'x'] + (Eight(k - 1) + "5")
  {
    assert !StartsWith(IsHexDigit, "x5");
    FiveStays();
    hide *;
    LosesZero(k, "x5");
  }

  lemma FiveStays()
    ensures Convertible(['0'] + "x5") && HexPass(['0'] + "x5") == "5"
  {
    OneDigit('5');
    ConvertHex('x', "5", "");
    assert ['0'] + "x5" == ['0', 'x'] + "5" + "";
  }
}
