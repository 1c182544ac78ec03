/** Characters, runs of characters, and decimal and hexadecimal numerals. */
module Text {

  /** Go's `unicode.IsLetter` and `unicode.IsDigit`.  Their tables beyond ASCII are left open. */
  datatype CharClass = CharClass(letter: char -> bool, digit: char -> bool) {

    /** The class agrees with Unicode on the 128 ASCII characters. */
    ghost predicate Ascii() {
      forall c: char :: c < 128 as char ==>
        (letter(c) <==> 'a' <= c <= 'z' || 'A' <= c <= 'Z') && (digit(c) <==> '0' <= c <= '9')
    }

    predicate IdentStart(c: char) {
      c == '_' || letter(c)
    }

    predicate IdentPart(c: char) {
      c == '_' || letter(c) || digit(c)
    }
  }

  predicate IsBlank(c: char) {
    c == ' ' || c == '\t'
  }

  /** White space of RFC 8259, section 2. */
  predicate IsWs(c: char) {
    c == ' ' || c == '\t' || c == '\n' || c == '\r'
  }

  predicate IsDigit(c: char) {
    '0' <= c <= '9'
  }

  predicate IsHexDigit(c: char) {
    '0' <= c <= '9' || 'a' <= c <= 'f' || 'A' <= c <= 'F'
  }

  predicate All(p: char -> bool, s: string) {
    forall i :: 0 <= i < |s| ==> p(s[i])
  }

  predicate StartsWith(p: char -> bool, s: string) {
    s != [] && p(s[0])
  }

  lemma SubSlice(s: string, i: nat, a: nat, b: nat)
    requires i + a <= i + b <= |s|
    ensures s[i..][a..b] == s[i + a..i + b]
  {
  }

  lemma SubDrop(s: string, i: nat, a: nat)
    requires i + a <= |s|
    ensures s[i..][a..] == s[i + a..]
  {
  }

  lemma Cons(w: string, x: string)
    requires w != []
    ensures w + x == [w[0]] + (w[1..] + x)
    ensures (w + x)[1..] == w[1..] + x
  {
  }

  lemma SamePrefix(w: string, a: string, b: string)
    ensures w + a == w + b <==> a == b
  {
    assert (w + a)[|w|..] == a && (w + b)[|w|..] == b;
  }

  lemma JoinHead(s: string, i: nat, x: string)
    requires 0 < i <= |s|
    ensures s[..i] + x == [s[0]] + (s[1..][..i - 1] + x)
  {
    assert s[..i] == [s[0]] + s[1..][..i - 1];
  }

  /** The length of the longest prefix of `s` whose characters all satisfy `p`. */
  function Run(p: char -> bool, s: string): (n: nat)
    ensures n <= |s|
  {
    if s == [] || !p(s[0]) then 0 else 1 + Run(p, s[1..])
  }

  lemma {:induction false} RunAll(p: char -> bool, s: string)
    ensures All(p, s[..Run(p, s)])
    ensures !StartsWith(p, s[Run(p, s)..])
  {
    if s != [] && p(s[0]) {
      RunAll(p, s[1..]);
      var n := Run(p, s[1..]);
      assert s[..1 + n] == [s[0]] + s[1..][..n];
      assert s[1 + n..] == s[1..][n..];
    }
  }

  lemma {:induction false} RunIs(p: char -> bool, w: string, rest: string)
    requires All(p, w) && !StartsWith(p, rest)
    ensures Run(p, w + rest) == |w|
  {
    if w == [] {
      assert w + rest == rest;
    } else {
      RunIs(p, w[1..], rest);
      assert (w + rest)[1..] == w[1..] + rest;
    }
  }

  // ---------------------------------------------------------------- numerals

  const MAX_INT64: nat := 0x8000_0000_0000_0000

  function HexDigitVal(c: char): (v: nat)
    requires IsHexDigit(c)
    ensures v < 16
  {
    if IsDigit(c) then c as int - '0' as int
    else if 'a' <= c <= 'f' then c as int - 'a' as int + 10
    else c as int - 'A' as int + 10
  }

  /** The value of a hexadecimal numeral. */
  function HexVal(s: string): nat
    requires All(IsHexDigit, s)
  {
    if s == [] then 0 else 16 * HexVal(s[..|s| - 1]) + HexDigitVal(s[|s| - 1])
  }

  /** The value of a decimal numeral. */
  function DecVal(s: string): nat
    requires All(IsDigit, s)
  {
    if s == [] then 0 else 10 * DecVal(s[..|s| - 1]) + (s[|s| - 1] as int - '0' as int)
  }

  /** `strconv.FormatInt(n, 10)` for a non-negative `n`. */
  function Dec(n: nat): (s: string)
    ensures s != [] && All(IsDigit, s)
    ensures |s| > 1 ==> s[0] != '0'
  {
    if n < 10 then [('0' as int + n) as char] else Dec(n / 10) + [('0' as int + n % 10) as char]
  }

  /** Printing and reading a decimal numeral are inverse. */
  lemma {:induction false} DecValDec(n: nat)
    ensures DecVal(Dec(n)) == n
  {
    if n >= 10 {
      DecValDec(n / 10);
      assert Dec(n)[..|Dec(n)| - 1] == Dec(n / 10);
    } else {
      assert Dec(n)[..0] == [];
    }
  }
}
