/** The first rewriting step: `new Array(...)` becomes `[...]` by a leftmost, lazy regular expression. */
module NewArray {
  import opened Literals
  import opened Text

  const HEAD: string := "new Array("

  predicate HeadAt(s: string) {
    HEAD <= s
  }

  predicate NotClose(c: char) {
    c != ')'
  }

  /** The captured body of a match that begins at the start of `s`, up to the first parenthesis. */
  function BodyLen(s: string): (n: nat)
    requires HeadAt(s)
    ensures n + 10 <= |s|
  {
    Run(NotClose, s[10..])
  }

  predicate Matched(s: string) {
    HeadAt(s) && 10 + BodyLen(s) < |s|
  }

  /** `ReplaceAllStringFunc` of the expression. */
  function ArrayPass(s: string): string {
    if s == [] then []
    else if Matched(s) then
      var n := 10 + BodyLen(s);
      ['['] + (s[10..n] + ([']'] + ArrayPass(s[n + 1..])))
    else [s[0]] + ArrayPass(s[1..])
  }

  // ------------------------------------------ the regular expression's reading

  /** The expression matches `s[i..j + 1]`. */
  ghost predicate Match(s: string, i: int, j: int) {
    0 <= i && i + 10 <= j < |s| && HeadAt(s[i..]) && s[j] == ')'
  }

  /** The match the engine takes: no match starts earlier, and none with that start is shorter. */
  ghost predicate LeftmostLazy(s: string, i: int, j: int) {
    && Match(s, i, j)
    && forall i', j' :: Match(s, i', j') ==> i < i' || (i == i' && j <= j')
  }

  lemma MatchedIff(s: string)
    ensures Matched(s) <==> exists j :: Match(s, 0, j)
    ensures Matched(s) ==> Match(s, 0, 10 + BodyLen(s)) && forall j :: Match(s, 0, j) ==> 10 + BodyLen(s) <= j
  {
    assert s[0..] == s;
    if HeadAt(s) {
      var n := BodyLen(s);
      RunAll(NotClose, s[10..]);
      assert s[10..][..n] == s[10..10 + n] && s[10..][n..] == s[10 + n..];
      forall j | Match(s, 0, j) ensures 10 + n <= j {
      }
      if 10 + n < |s| {
        assert s[10 + n..][0] == s[10 + n];
        assert Match(s, 0, 10 + n);
      }
    }
  }

  lemma ShiftMatch(s: string, i: int, j: int)
    requires s != [] && 0 <= i
    ensures Match(s[1..], i, j) <==> Match(s, i + 1, j + 1)
  {
    if i + 10 <= j < |s| - 1 {
      assert s[1..][i..] == s[i + 1..];
    }
  }

  lemma ShiftLeftmost(s: string, i: int, j: int)
    requires LeftmostLazy(s, i, j) && i > 0
    ensures LeftmostLazy(s[1..], i - 1, j - 1) && !Matched(s)
  {
    MatchedIff(s);
    ShiftMatch(s, i - 1, j - 1);
    forall i', j' | Match(s[1..], i', j') ensures i - 1 < i' || (i - 1 == i' && j - 1 <= j') {
      ShiftMatch(s, i', j');
    }
  }

  /** What a match at `i..j` and everything behind it become. */
  function Replacement(s: string, i: int, j: int): string
    requires 0 <= i && i + 10 <= j < |s|
  {
    ['['] + (s[i + 10..j] + ([']'] + ArrayPass(s[j + 1..])))
  }

  lemma ShiftReplacement(s: string, i: int, j: int)
    requires 0 <= i && i + 10 <= j < |s| - 1
    ensures Replacement(s[1..], i, j) == Replacement(s, i + 1, j + 1)
  {
    hide ArrayPass;
    SubSlice(s, 1, i + 10, j);
    SubDrop(s, 1, j + 1);
  }

  lemma ReplacesFirst(s: string, j: int)
    requires LeftmostLazy(s, 0, j)
    ensures ArrayPass(s) == Replacement(s, 0, j)
  {
    MatchedIff(s);
    assert j == 10 + BodyLen(s) && Matched(s);
    hide *;
    MatchedStep(s);
  }

  lemma MatchedStep(s: string)
    requires Matched(s)
    ensures ArrayPass(s) == Replacement(s, 0, 10 + BodyLen(s))
  {
  }

  lemma Bounds(s: string, i: int, j: int)
    requires LeftmostLazy(s, i, j)
    ensures 0 <= i && i + 10 <= j < |s|
  {
  }

  /** One replacement: the engine's match is replaced and the scan goes on behind it. */
  lemma {:induction false} ReplacesFirstMatch(s: string, i: int, j: int)
    requires LeftmostLazy(s, i, j)
    ensures 0 <= i && i + 10 <= j < |s| && ArrayPass(s) == s[..i] + Replacement(s, i, j)
    decreases i
  {
    hide *;
    Bounds(s, i, j);
    if i == 0 {
      ReplacesFirst(s, j);
      assert s[..0] + Replacement(s, 0, j) == Replacement(s, 0, j);
    } else {
      ShiftLeftmost(s, i, j);
      ReplacesFirstMatch(s[1..], i - 1, j - 1);
      ShiftReplacement(s, i - 1, j - 1);
      PlainStep(s);
      JoinHead(s, i, Replacement(s, i, j));
    }
  }

  lemma PlainStep(s: string)
    requires s != [] && !Matched(s)
    ensures ArrayPass(s) == [s[0]] + ArrayPass(s[1..])
  {
  }

  lemma {:induction false} NoMatchNoChange(s: string)
    requires forall i, j :: !Match(s, i, j)
    ensures ArrayPass(s) == s
  {
    if s != [] {
      MatchedIff(s);
      forall i, j ensures !Match(s[1..], i, j) {
        if 0 <= i {
          ShiftMatch(s, i, j);
        }
      }
      NoMatchNoChange(s[1..]);
    }
  }

  lemma {:induction false} PassShrinks(s: string)
    ensures |ArrayPass(s)| <= |s|
    ensures ArrayPass(s) != s ==> |ArrayPass(s)| < |s|
  {
    if s == [] {
    } else if Matched(s) {
      PassShrinks(s[10 + BodyLen(s) + 1..]);
    } else {
      PassShrinks(s[1..]);
    }
  }

  lemma {:induction false} MatchShrinks(s: string, i: nat)
    requires i <= |s| && Matched(s[i..])
    ensures |ArrayPass(s)| < |s|
  {
    assert s[0..] == s;
    if Matched(s) {
      PassShrinks(s[10 + BodyLen(s) + 1..]);
    } else {
      assert s[1..][i - 1..] == s[i..];
      MatchShrinks(s[1..], i - 1);
    }
  }

  /** The texts the pass leaves alone are exactly those without a match. */
  lemma NoMatchIff(s: string)
    ensures ArrayPass(s) == s <==> forall i, j :: !Match(s, i, j)
  {
    if forall i, j :: !Match(s, i, j) {
      NoMatchNoChange(s);
    } else {
      var i, j :| Match(s, i, j);
      assert Match(s[i..], 0, j - i) by {
        assert s[i..][0..] == s[i..];
      }
      MatchedIff(s[i..]);
      MatchShrinks(s, i);
    }
  }

  // ------------------------------------------------------ composing the pass

  lemma {:induction false} CopyPlain(w: string, rest: string)
    requires forall i :: 0 <= i < |w| ==> !Matched(w[i..] + rest)
    ensures ArrayPass(w + rest) == w + ArrayPass(rest)
  {
    hide ArrayPass;
    if w == [] {
      assert w + rest == rest;
    } else {
      assert w[0..] == w;
      PlainStep(w + rest);
      forall i | 0 <= i < |w[1..]| ensures !Matched(w[1..][i..] + rest) {
        assert w[1..][i..] == w[i + 1..];
      }
      CopyPlain(w[1..], rest);
      Cons(w, rest);
      Cons(w, ArrayPass(rest));
    }
  }

  /** Text without `n` holds no head. */
  lemma CopyNoN(w: string, rest: string)
    requires 'n' !in w
    ensures ArrayPass(w + rest) == w + ArrayPass(rest)
  {
    hide ArrayPass;
    forall i | 0 <= i < |w| ensures !HeadAt(w[i..] + rest) {
      assert (w[i..] + rest)[0] == w[i];
      assert HEAD[0] == 'n';
    }
    CopyPlain(w, rest);
  }

  /** If a head begins in `s`, no match begins there when `rest` follows: nothing behind it closes it. */
  ghost predicate Undisturbed(s: string, rest: string) {
    forall i :: 0 <= i <= |s| && HeadAt(s[i..]) ==> ')' !in s[i + 10..] && ')' !in rest
  }

  ghost predicate HasHead(s: string) {
    exists i :: 0 <= i <= |s| && HeadAt(s[i..])
  }

  /** A piece that ends in a character foreign to the head shares no head with what follows. */
  lemma CopyStopped(w: string, stop: char, rest: string)
    requires stop !in HEAD && !HasHead(w)
    ensures ArrayPass(w + ([stop] + rest)) == w + ([stop] + ArrayPass(rest))
  {
    hide ArrayPass;
    var ws := w + [stop];
    forall i | 0 <= i < |ws| ensures !HeadAt(ws[i..] + rest) {
      var t := ws[i..] + rest;
      var n := |w| - i;
      assert t[n] == stop;
      assert n >= 10 && HeadAt(t) ==> HeadAt(w[i..]);
    }
    CopyPlain(ws, rest);
    assert ws + rest == w + ([stop] + rest);
    assert ws + ArrayPass(rest) == w + ([stop] + ArrayPass(rest));
  }

  lemma ReplaceArray(body: string, rest: string)
    requires ')' !in body
    ensures ArrayPass(HEAD + (body + ([')'] + rest))) == ['['] + (body + ([']'] + ArrayPass(rest)))
  {
    var s := HEAD + (body + ([')'] + rest));
    assert s[10..] == body + ([')'] + rest);
    RunIs(NotClose, body, [')'] + rest);
    var n := 10 + |body|;
    assert s[10..n] == body && s[n + 1..] == rest;
  }

  /** A match needs a closing parenthesis behind its head. */
  lemma MatchedNeedsParen(s: string)
    ensures Matched(s) <==> HeadAt(s) && ')' in s[10..]
  {
    if HeadAt(s) {
      RunAll(NotClose, s[10..]);
      var n := BodyLen(s);
      assert forall k :: 0 <= k < n ==> s[10..][k] == s[10..][..n][k];
      if n < |s| - 10 {
        assert s[10..][n..][0] == s[10..][n];
      }
    }
  }
}
