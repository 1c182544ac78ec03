/** When the whole rewrite of a literal is what it should be: exactly if the first pass is. */
module RewriteLimits {
  import opened ArrayLimits
  import opened JsText
  import opened JsToJson
  import opened Literals
  import opened Text
  import HexFixpoints
  import HexScan
  import KeyScan
  import NewArray
  import Rewrite

  // ------------------------------------ the later passes keep what parts texts

  /** Neither of the scanners looks twice at a mark's characters. */
  predicate Dull(c: char) {
    c != '"' && c != '\\' && c != ':' && c != '0' && !HexScan.IsX(c)
  }

  lemma MarkIs(m: string)
    requires Mark(m)
    ensures m != [] && All(Dull, m) && !IsHexDigit(m[0]) && !IsBlank(m[0])
  {
    assert NewArray.HEAD == "new Array(";
  }

  /** The text after an opening quote holds the closing one. */
  predicate Closes(s: string) {
    if s == [] then false
    else if s[0] == '\\' && |s| > 1 then Closes(s[2..])
    else if s[0] == '"' then true
    else Closes(s[1..])
  }

  lemma TailStep(s: string)
    requires s != []
    ensures s[0] == '\\' && |s| > 1 ==> StrTail(s) == 2 + StrTail(s[2..]) && Closes(s) == Closes(s[2..])
    ensures s[0] == '"' ==> StrTail(s) == 1 && Closes(s)
    ensures !(s[0] == '\\' && |s| > 1) && s[0] != '"' ==>
              StrTail(s) == 1 + StrTail(s[1..]) && Closes(s) == Closes(s[1..])
  {
  }

  lemma TailOfNothing()
    ensures StrTail([]) == 0 && !Closes([])
  {
  }

  /** A literal that `p` leaves open takes a mark behind it along. */
  lemma {:induction false} OpenTakes(p: string, m: string, x: string)
    requires All(Dull, m) && m != []
    ensures Closes(p) ==> StrTail(p + (m + x)) == StrTail(p)
    ensures !Closes(p) ==> StrTail(p) == |p| && StrTail(p + (m + x)) >= |p| + |m|
    decreases |p|
  {
    hide StrTail, Closes;
    var s := p + (m + x);
    TailOfNothing();
    if p == [] {
      assert s == m + x;
      DullTail(m, x);
    } else {
      TailStep(p);
      TailStep(s);
      if p[0] == '\\' && |p| > 1 {
        assert s[2..] == p[2..] + (m + x);
        OpenTakes(p[2..], m, x);
      } else if p[0] == '\\' {
        assert s[2..] == m[1..] + x && p[1..] == [];
        DullTail(m[1..], x);
      } else if p[0] != '"' {
        assert s[1..] == p[1..] + (m + x);
        OpenTakes(p[1..], m, x);
      }
    }
  }

  lemma {:induction false} DullTail(m: string, x: string)
    requires All(Dull, m)
    ensures StrTail(m + x) >= |m|
  {
    if m != [] {
      assert Dull(m[0]);
      assert (m + x)[1..] == m[1..] + x;
      DullTail(m[1..], x);
    }
  }

  lemma HexOfMark(m: string, x: string)
    requires Mark(m)
    ensures HexScan.HexPass(m + x) == m + HexScan.HexPass(x)
  {
    MarkIs(m);
    hide HexScan.HexPass, Mark;
    forall i | 0 <= i < |m| ensures m[i] != '"' && !HexScan.Convertible(m[i..] + x) {
      assert Dull(m[i]) && (m[i..] + x)[0] == m[i];
    }
    HexScan.CopyPlain(m, x);
  }

  lemma CutAtMark(p: string, m: string, x: string)
    requires Quoted(p) && Mark(m)
    ensures Quoted(p + (m + x)) && p[0] == '"'
    ensures LiteralLen(p + (m + x)) >= if Closes(p[1..]) then 1 else |p| + |m|
    ensures Closes(p[1..]) ==> LiteralLen(p + (m + x)) == LiteralLen(p)
    ensures !Closes(p[1..]) ==> LiteralLen(p) == |p|
  {
    hide StrTail, Closes, Mark;
    MarkIs(m);
    assert (p + (m + x))[1..] == p[1..] + (m + x);
    OpenTakes(p[1..], m, x);
  }

  lemma HexAtLiteral(p: string, m: string, x: string)
    requires Quoted(p) && Mark(m)
    ensures Quoted(p + (m + x))
    ensures Closes(p[1..]) ==>
              var n := LiteralLen(p);
              && HexScan.HexPass(p) == p[..n] + HexScan.HexPass(p[n..])
              && HexScan.HexPass(p + (m + x)) == p[..n] + HexScan.HexPass(p[n..] + (m + x))
    ensures !Closes(p[1..]) ==> HexScan.HexPass(p) == p && p + m <= HexScan.HexPass(p + (m + x))
  {
    hide *;
    MarkIs(m);
    var s, n := p + (m + x), LiteralLen(p);
    CutAtMark(p, m, x);
    HexScan.PassString(p);
    HexScan.PassString(s);
    if Closes(p[1..]) {
      assert s[..n] == p[..n] && s[n..] == p[n..] + (m + x);
    } else {
      HexOfNothing();
      assert p[..n] + "" == p;
      assert s == (p + m) + x;
    }
  }

  lemma HexOfNothing()
    ensures HexScan.HexPass("") == ""
  {
  }

  lemma HexAtNumber(p: string, rest: string)
    requires p != [] && HexScan.Convertible(p) && !StartsWith(IsHexDigit, rest) && !StartsWith(HexScan.IsX, rest)
    ensures var d := HexScan.HexDigits(p);
            HexScan.HexPass(p + rest) == Dec(HexVal(d)) + HexScan.HexPass(p[2 + |d|..] + rest)
  {
    hide *;
    HexFixpoints.ConvertibleAlone(p, rest);
    HexFixpoints.LiteralIn(p, rest);
  }

  /** The second pass keeps a mark, whatever stands before it, and depends on nothing behind it there. */
  lemma {:induction false} HexKeeps(p: string, m: string, x: string) returns (y: string)
    requires Mark(m)
    ensures HexScan.HexPass(p + (m + x)) == HexScan.HexPass(p) + (m + y)
    decreases |p|
  {
    hide *;
    MarkIs(m);
    HexOfNothing();
    var s := p + (m + x);
    if p == [] {
      HexOfMark(m, x);
      assert s == m + x && "" + (m + HexScan.HexPass(x)) == m + HexScan.HexPass(x);
      y := HexScan.HexPass(x);
    } else if p[0] == '"' {
      IsQuoted(p);
      HexAtLiteral(p, m, x);
      if Closes(p[1..]) {
        var n := LiteralLen(p);
        y := HexKeeps(p[n..], m, x);
        assert p[..n] + (HexScan.HexPass(p[n..]) + (m + y)) == HexScan.HexPass(p) + (m + y);
      } else {
        y := HexScan.HexPass(s)[|p + m|..];
        assert HexScan.HexPass(s) == (p + m) + y == p + (m + y);
      }
    } else {
      NotDigit(m, x);
      HexFixpoints.ConvertibleAlone(p, m + x);
      if HexScan.Convertible(p) {
        NothingStarts();
        HexScan.ConvertibleParts(p);
        HexAtNumber(p, m + x);
        HexAtNumber(p, "");
        var d := HexScan.HexDigits(p);
        var t := p[2 + |d|..];
        assert p + "" == p && t + "" == t;
        y := HexKeeps(t, m, x);
        assert Dec(HexVal(d)) + (HexScan.HexPass(t) + (m + y)) == HexScan.HexPass(p) + (m + y);
      } else {
        HexScan.PassStep(p);
        HexScan.PassStep(s);
        assert s[1..] == p[1..] + (m + x);
        y := HexKeeps(p[1..], m, x);
        assert [p[0]] + (HexScan.HexPass(p[1..]) + (m + y)) == HexScan.HexPass(p) + (m + y);
      }
    }
  }

  lemma IsQuoted(p: string)
    requires p != [] && p[0] == '"'
    ensures Quoted(p)
  {
  }

  lemma NotDigit(m: string, x: string)
    requires m != "" && All(Dull, m) && !IsHexDigit(m[0])
    ensures !StartsWith(IsHexDigit, m + x) && !StartsWith(HexScan.IsX, m + x)
  {
    assert Dull(m[0]) && (m + x)[0] == m[0];
  }

  lemma NothingStarts()
    ensures !StartsWith(IsHexDigit, "") && !StartsWith(HexScan.IsX, "") && AfterValue("")
  {
  }

  // ---------------------------------------------------------------- keys

  lemma KeysOfMark(u: CharClass, m: string, x: string) returns (y: string)
    requires u.Ascii() && Mark(m)
    ensures KeyScan.KeyPass(u, m + x) == m + y
  {
    hide KeyScan.KeyPass, KeyScan.Ends;
    if m == NewArray.HEAD {
      HeadEnds(u, x);
      var t := "Array(" + x;
      KeyScan.NonKeyTail(u, "new", " ", t);
      assert m + x == "new" + " " + t;
      KeyScan.NonKeyTail(u, "Array", "", "(" + x);
      assert t == "Array" + "" + ("(" + x);
      Rewrite.CopyNoIdent(u, "(", x);
      y := KeyScan.KeyPass(u, x);
      assert "new" + " " + ("Array" + "" + ("(" + y)) == m + y;
    } else {
      Rewrite.CopyNoIdent(u, m, x);
      y := KeyScan.KeyPass(u, x);
    }
  }

  lemma HeadEnds(u: CharClass, x: string)
    requires u.Ascii()
    ensures All(u.IdentPart, "new") && All(IsBlank, " ") && KeyScan.Ends(u, " ", "Array(" + x)
    ensures All(u.IdentPart, "Array") && All(IsBlank, "") && KeyScan.Ends(u, "", "(" + x)
  {
    assert ("Array(" + x)[0] == 'A' && ("(" + x)[0] == '(';
  }

  lemma KeysAtLiteral(u: CharClass, p: string, m: string, x: string)
    requires Quoted(p) && Mark(m)
    ensures Quoted(p + (m + x))
    ensures Closes(p[1..]) ==>
              var n := LiteralLen(p);
              && KeyScan.KeyPass(u, p) == p[..n] + KeyScan.KeyPass(u, p[n..])
              && KeyScan.KeyPass(u, p + (m + x)) == p[..n] + KeyScan.KeyPass(u, p[n..] + (m + x))
    ensures !Closes(p[1..]) ==> KeyScan.KeyPass(u, p) == p && p + m <= KeyScan.KeyPass(u, p + (m + x))
  {
    hide *;
    MarkIs(m);
    var s, n := p + (m + x), LiteralLen(p);
    CutAtMark(p, m, x);
    KeysAtString(u, p);
    KeysAtString(u, s);
    if Closes(p[1..]) {
      assert s[..n] == p[..n] && s[n..] == p[n..] + (m + x);
    } else {
      PassesOfEmpty(u);
      assert p[..n] + "" == p;
      assert s == (p + m) + x;
    }
  }

  lemma KeysAtString(u: CharClass, s: string)
    requires Quoted(s)
    ensures KeyScan.KeyPass(u, s) == s[..LiteralLen(s)] + KeyScan.KeyPass(u, s[LiteralLen(s)..])
  {
    hide LiteralLen;
  }

  /** A key that begins in `p` is a key of `p` alone. */
  lemma NoNewKey(u: CharClass, p: string, m: string, x: string)
    requires u.Ascii() && p != [] && Mark(m) && !KeyScan.KeyAt(u, p)
    ensures !KeyScan.KeyAt(u, p + (m + x))
  {
    assert (p + (m + x))[0] == p[0];
    if StartsWith(u.IdentStart, p) {
      KeyScan.ColonProps(u, p);
      var j, k := Run(u.IdentPart, p), KeyScan.ColonPos(u, p);
      var name, gap, rest := p[..j], p[j..k], p[k..];
      assert p == name + gap + rest;
      assert rest != [] ==> rest[0] == p[k];
      assert rest != [] && rest[0] == ':' ==> |rest| > 1 && rest[1] == p[k + 1] == ':';
      hide KeyScan.KeyAt, KeyScan.ColonPos, Run;
      EndsWithMark(u, name, gap, rest, m, x);
    }
  }

  lemma EndsWithMark(u: CharClass, name: string, gap: string, rest: string, m: string, x: string)
    requires u.Ascii() && Mark(m) && All(u.IdentPart, name) && All(IsBlank, gap)
    requires !StartsWith(IsBlank, rest) && (gap == [] ==> !StartsWith(u.IdentPart, rest))
    requires rest != [] && rest[0] == ':' ==> |rest| > 1 && rest[1] == ':'
    ensures !KeyScan.KeyAt(u, name + gap + rest + (m + x))
  {
    hide *;
    var t := rest + (m + x);
    assert name + gap + rest + (m + x) == name + gap + t;
    if rest == [] && gap == [] && m == NewArray.HEAD {
      HeadEnds(u, x);
      IdentJoin(u, name, "new");
      KeyScan.NotKey(u, name + "new", " ", "Array(" + x);
      HeadSplits(name, x);
      assert name + gap + t == name + (NewArray.HEAD + x);
    } else {
      TailEnds(u, gap, rest, m, x);
      KeyScan.NotKey(u, name, gap, t);
    }
  }

  lemma IdentJoin(u: CharClass, a: string, b: string)
    requires All(u.IdentPart, a) && All(u.IdentPart, b)
    ensures All(u.IdentPart, a + b)
  {
  }

  lemma HeadSplits(name: string, x: string)
    ensures name + (NewArray.HEAD + x) == (name + "new") + " " + ("Array(" + x)
  {
    assert NewArray.HEAD == "new" + " " + "Array(";
  }

  lemma TailEnds(u: CharClass, gap: string, rest: string, m: string, x: string)
    requires u.Ascii() && Mark(m) && !(rest == [] && gap == [] && m == NewArray.HEAD)
    requires !StartsWith(IsBlank, rest) && (gap == [] ==> !StartsWith(u.IdentPart, rest))
    requires rest != [] && rest[0] == ':' ==> |rest| > 1 && rest[1] == ':'
    ensures KeyScan.Ends(u, gap, rest + (m + x))
  {
    MarkIs(m);
    var t := rest + (m + x);
    if rest == [] {
      assert t == m + x && t[0] == m[0] && Dull(m[0]);
    } else {
      assert t[0] == rest[0];
    }
  }

  lemma KeyParts(u: CharClass, p: string)
    requires KeyScan.KeyAt(u, p)
    ensures var j, k := Run(u.IdentPart, p), KeyScan.ColonPos(u, p);
            && k < |p| && StartsWith(u.IdentStart, p[..j]) && All(u.IdentPart, p[..j]) && All(IsBlank, p[j..k])
            && (p[k + 1..] != [] ==> p[k + 1..][0] != ':')
  {
    KeyScan.ColonProps(u, p);
  }

  lemma KeysAtKey(u: CharClass, p: string, rest: string)
    requires u.Ascii() && KeyScan.KeyAt(u, p) && (rest == [] || rest[0] != ':')
    ensures var j, k := Run(u.IdentPart, p), KeyScan.ColonPos(u, p);
            KeyScan.KeyPass(u, p + rest) == KeyScan.QuotedKey(p[..j], p[j..k]) + KeyScan.KeyPass(u, p[k + 1..] + rest)
  {
    hide *;
    KeyParts(u, p);
    KeyScan.SplitKey(u, p);
    var j, k := Run(u.IdentPart, p), KeyScan.ColonPos(u, p);
    var name, gap, t := p[..j], p[j..k], p[k + 1..];
    KeyScan.QuoteKey(u, name, gap, t + rest);
    assert p + rest == name + gap + [':'] + (t + rest);
  }

  lemma NotColon(m: string, x: string)
    requires Mark(m)
    ensures m + x != [] && (m + x)[0] != ':'
  {
    MarkIs(m);
    assert Dull(m[0]);
  }

  /** The third pass keeps a mark likewise. */
  lemma {:induction false} KeysKeep(u: CharClass, p: string, m: string, x: string) returns (y: string)
    requires u.Ascii() && Mark(m)
    ensures KeyScan.KeyPass(u, p + (m + x)) == KeyScan.KeyPass(u, p) + (m + y)
    decreases |p|
  {
    hide *;
    MarkIs(m);
    PassesOfEmpty(u);
    var s := p + (m + x);
    if p == [] {
      y := KeysOfMark(u, m, x);
      assert s == m + x && "" + (m + y) == m + y;
    } else if p[0] == '"' {
      IsQuoted(p);
      KeysAtLiteral(u, p, m, x);
      if Closes(p[1..]) {
        var n := LiteralLen(p);
        y := KeysKeep(u, p[n..], m, x);
        assert p[..n] + (KeyScan.KeyPass(u, p[n..]) + (m + y)) == KeyScan.KeyPass(u, p) + (m + y);
      } else {
        y := KeyScan.KeyPass(u, s)[|p + m|..];
        assert KeyScan.KeyPass(u, s) == (p + m) + y == p + (m + y);
      }
    } else if KeyScan.KeyAt(u, p) {
      KeyParts(u, p);
      NotColon(m, x);
      KeysAtKey(u, p, m + x);
      KeysAtKey(u, p, "");
      var j, k := Run(u.IdentPart, p), KeyScan.ColonPos(u, p);
      var key, t := KeyScan.QuotedKey(p[..j], p[j..k]), p[k + 1..];
      assert p + "" == p && t + "" == t;
      y := KeysKeep(u, t, m, x);
      assert key + (KeyScan.KeyPass(u, t) + (m + y)) == KeyScan.KeyPass(u, p) + (m + y);
    } else {
      NoNewKey(u, p, m, x);
      KeyScan.PassStep(u, p);
      KeyScan.PassStep(u, s);
      assert s[1..] == p[1..] + (m + x);
      y := KeysKeep(u, p[1..], m, x);
      assert [p[0]] + (KeyScan.KeyPass(u, p[1..]) + (m + y)) == KeyScan.KeyPass(u, p) + (m + y);
    }
  }

  // -------------------------------------------------------- the whole rewrite

  /** Texts that part before the later passes part behind them. */
  lemma StillPart(u: CharClass, a: string, b: string)
    requires u.Ascii() && Part(a, b)
    ensures Part(KeyScan.KeyPass(u, HexScan.HexPass(a)), KeyScan.KeyPass(u, HexScan.HexPass(b)))
  {
    var w, m, x, n, y :| PartAt(a, b, w, m, x, n, y);
    assert Mark(m) && Mark(n) && m != n && a == w + (m + x) && b == w + (n + y);
    hide *;
    var p := HexScan.HexPass(w);
    var x1 := HexKeeps(w, m, x);
    var y1 := HexKeeps(w, n, y);
    var x2 := KeysKeep(u, p, m, x1);
    var y2 := KeysKeep(u, p, n, y1);
    PartsAt(KeyScan.KeyPass(u, p), m, x2, n, y2);
  }

  lemma PartsAt(w: string, m: string, x: string, n: string, y: string)
    requires Mark(m) && Mark(n) && m != n
    ensures Part(w + (m + x), w + (n + y))
  {
    assert PartAt(w + (m + x), w + (n + y), w, m, x, n, y);
  }

  /** The rewrite of a literal is its JSON spelling if and only if no parenthesis misleads the first pass. */
  lemma RewritesTextIff(u: CharClass, v: Js, lead: string, trail: string)
    requires u.Ascii() && JsOk(u, v) && All(IsSpace, lead) && All(IsSpace, trail)
    ensures Rewritten(u, lead + (JsTextOf(v, Page, "") + trail)) == JsTextOf(v, Json, "") <==> ArraySafe(v, "")
  {
    hide *;
    if ArraySafe(v, "") {
      RewritesText(u, v, lead, trail);
    } else {
      var page := JsTextOf(v, Page, "");
      RewrittenIs(u, v, lead, trail);
      PassesOfEmpty(u);
      NothingStarts();
      Rewrite.HexOfValue(u, v, "");
      Rewrite.KeysOfValue(u, v, "");
      ValueBreaks(u, v, "", "");
      StillPart(u, NewArray.ArrayPass(page), JsTextOf(v, Arrays, ""));
      PartDiffer(Rewritten(u, lead + (page + trail)), JsTextOf(v, Json, ""));
    }
  }

  lemma RewrittenIs(u: CharClass, v: Js, lead: string, trail: string)
    requires u.Ascii() && JsOk(u, v) && All(IsSpace, lead) && All(IsSpace, trail)
    ensures Rewritten(u, lead + (JsTextOf(v, Page, "") + trail))
            == KeyScan.KeyPass(u, HexScan.HexPass(NewArray.ArrayPass(JsTextOf(v, Page, ""))))
  {
    TextEnds(u, v);
    hide JsTextOf, NewArray.ArrayPass, HexScan.HexPass, KeyScan.KeyPass, TrimSpace;
    Trims(lead, JsTextOf(v, Page, ""), trail);
  }
}
