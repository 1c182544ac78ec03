/** Double-quoted string literals, which both scanners of the rewriter copy verbatim. */
module Literals {
  import opened Text

  /** How many characters of `s`, the text after an opening quote, belong to the literal: up to the
      first unescaped quote, or everything when there is none. */
  function StrTail(s: string): (n: nat)
    ensures n <= |s|
  {
    if s == [] then 0
    else if s[0] == '\\' && |s| > 1 then 2 + StrTail(s[2..])
    else if s[0] == '"' then 1
    else 1 + StrTail(s[1..])
  }

  predicate Quoted(s: string) {
    s != [] && s[0] == '"'
  }

  function LiteralLen(s: string): (n: nat)
    requires Quoted(s)
    ensures 0 < n <= |s|
  {
    1 + StrTail(s[1..])
  }

  /** The inside of a closed literal: escape pairs and characters other than a quote. */
  predicate Body(s: string) {
    s == [] ||
    (if s[0] == '\\' then |s| > 1 && Body(s[2..]) else s[0] != '"' && Body(s[1..]))
  }

  /** A whole literal: closed, or running to the end of the script. */
  predicate IsLiteral(s: string, atEnd: bool) {
    && Quoted(s)
    && ((|s| > 1 && s[|s| - 1] == '"' && Body(s[1..|s| - 1]))
        || (atEnd && (Body(s[1..]) || (|s| > 1 && s[|s| - 1] == '\\' && Body(s[1..|s| - 1])))))
  }

  lemma {:induction false} TailOfBody(body: string, rest: string)
    requires Body(body)
    ensures StrTail(body + (['"'] + rest)) == |body| + 1
  {
    if body == [] {
      assert body + (['"'] + rest) == ['"'] + rest;
    } else {
      var n := if body[0] == '\\' then 2 else 1;
      TailOfBody(body[n..], rest);
      assert (body + (['"'] + rest))[n..] == body[n..] + (['"'] + rest);
    }
  }

  lemma {:induction false} TailOfOpenBody(body: string, end: string)
    requires Body(body) && (end == [] || end == ['\\'])
    ensures StrTail(body + end) == |body| + |end|
  {
    if body == [] {
      assert body + end == end;
      assert end != [] ==> end[1..] == [];
    } else {
      var n := if body[0] == '\\' then 2 else 1;
      TailOfOpenBody(body[n..], end);
      assert (body + end)[n..] == body[n..] + end;
    }
  }

  lemma LiteralIsWhole(lit: string, rest: string)
    requires IsLiteral(lit, rest == [])
    ensures Quoted(lit + rest) && LiteralLen(lit + rest) == |lit|
  {
    hide StrTail, Body;
    var n := |lit|;
    assert (lit + rest)[1..] == lit[1..] + rest;
    if n > 1 && lit[n - 1] == '"' && Body(lit[1..n - 1]) {
      TailOfBody(lit[1..n - 1], rest);
      assert lit[1..] + rest == lit[1..n - 1] + (['"'] + rest);
    } else if Body(lit[1..]) {
      TailOfOpenBody(lit[1..], []);
      assert lit[1..] + rest == lit[1..] + [];
    } else {
      TailOfOpenBody(lit[1..n - 1], ['\\']);
      assert lit[1..] + rest == lit[1..n - 1] + ['\\'];
    }
  }

  /** The scanner's cut is always a whole literal. */
  lemma {:induction false} TailIsLiteral(s: string)
    ensures var n := StrTail(s);
            (n > 0 && s[n - 1] == '"' && Body(s[..n - 1]))
            || (n == |s| && (Body(s) || (n > 0 && s[n - 1] == '\\' && Body(s[..n - 1]))))
  {
    var n := StrTail(s);
    if s == [] {
    } else if s[0] == '\\' && |s| > 1 {
      TailIsLiteral(s[2..]);
      if n > 2 {
        assert s[..n - 1][2..] == s[2..][..n - 3];
      }
    } else if s[0] == '"' {
    } else {
      TailIsLiteral(s[1..]);
      if s[0] == '\\' {
        assert s[..0] == [];
      } else if n > 1 {
        assert s[..n - 1][1..] == s[1..][..n - 2];
      }
    }
  }

  lemma CutIsLiteral(s: string)
    requires Quoted(s)
    ensures IsLiteral(s[..LiteralLen(s)], LiteralLen(s) == |s|)
  {
    TailIsLiteral(s[1..]);
    var n := LiteralLen(s);
    assert s[..n][1..] == s[1..][..n - 1];
    if n > 1 {
      assert s[..n][1..n - 1] == s[1..][..n - 2];
    }
    assert n == |s| ==> s[..n] == s;
  }

  /** Where the literal ends whose inside goes on at position `j`. */
  function End(s: string, j: nat): (e: nat)
    requires j <= |s|
  {
    j + StrTail(s[j..])
  }

  lemma EndAt(s: string, j: nat)
    requires j < |s|
    ensures s[j] == '\\' && j + 1 < |s| ==> End(s, j) == End(s, j + 2)
    ensures s[j] == '"' ==> End(s, j) == j + 1
    ensures !(s[j] == '\\' && j + 1 < |s|) && s[j] != '"' ==> End(s, j) == End(s, j + 1)
  {
    assert s[j..][1..] == s[j + 1..];
    if j + 1 < |s| {
      assert s[j..][2..] == s[j + 2..];
    }
  }

  lemma TakeOne(s: string, i: nat, j: nat)
    requires i <= j < |s|
    ensures s[i..j + 1] == s[i..j] + [s[j]]
  {
  }

  /** The inner loop of both scanners: copy the literal that opens at position `i`. */
  method ScanLiteral(s: string, i: nat) returns (text: string, j: nat)
    requires i < |s| && s[i] == '"'
    ensures i < j <= |s| && text == s[i..j] && j == i + LiteralLen(s[i..])
  {
    text := [s[i]];
    j := i + 1;
    SubDrop(s, i, 1);
    ghost var end := End(s, j);
    assert i + LiteralLen(s[i..]) == end;
    assert End(s, |s|) == |s|;
    hide StrTail, LiteralLen, End;
    var done := false;
    while j < |s| && !done
      invariant i < j <= |s|
      invariant text == s[i..j]
      invariant (if done then j else End(s, j)) == end
      decreases |s| - j
    {
      EndAt(s, j);
      TakeOne(s, i, j);
      var c := s[j];
      text := text + [c];
      j := j + 1;
      if c == '\\' && j < |s| {
        TakeOne(s, i, j);
        text := text + [s[j]];
        j := j + 1;
      } else {
        done := c == '"';
      }
    }
  }
}
