/** `quoteUnquotedKeys`: bare identifier keys of object literals get double quotes. */
module KeyScan {
  import opened Literals
  import opened Text

  /** Where the scanner, standing on an identifier, looks for the colon: after the identifier and the
      spaces and tabs behind it. */
  function ColonPos(u: CharClass, s: string): (k: nat)
    ensures Run(u.IdentPart, s) <= k <= |s|
  {
    var j := Run(u.IdentPart, s);
    j + Run(IsBlank, s[j..])
  }

  lemma ColonPosIs(u: CharClass, s: string)
    ensures var j := Run(u.IdentPart, s); ColonPos(u, s) == j + Run(IsBlank, s[j..])
  {
    hide Run;
  }

  /** The identifier, the blanks, and what stands at the colon's place. */
  lemma ColonProps(u: CharClass, s: string)
    ensures var j, k := Run(u.IdentPart, s), ColonPos(u, s);
            && All(u.IdentPart, s[..j]) && All(IsBlank, s[j..k])
            && !StartsWith(IsBlank, s[k..]) && (j == k ==> !StartsWith(u.IdentPart, s[k..]))
  {
    hide *;
    ColonPosIs(u, s);
    var j, k := Run(u.IdentPart, s), ColonPos(u, s);
    RunAll(u.IdentPart, s);
    RunAll(IsBlank, s[j..]);
    SubSlice(s, j, 0, k - j);
    SubDrop(s, j, k - j);
  }

  /** A bare key begins here: an identifier, blanks, and one colon that is not half of `::`. */
  predicate KeyAt(u: CharClass, s: string) {
    && StartsWith(u.IdentStart, s)
    && var k := ColonPos(u, s);
       k < |s| && s[k] == ':' && !(k + 1 < |s| && s[k + 1] == ':')
  }

  /** How a bare key is written out. */
  function QuotedKey(name: string, gap: string): string {
    ['"'] + name + ['"'] + (gap + [':'])
  }

  function KeyPass(u: CharClass, s: string): string {
    if s == [] then []
    else if Quoted(s) then s[..LiteralLen(s)] + KeyPass(u, s[LiteralLen(s)..])
    else if KeyAt(u, s) then
      var j, k := Run(u.IdentPart, s), ColonPos(u, s);
      QuotedKey(s[..j], s[j..k]) + KeyPass(u, s[k + 1..])
    else [s[0]] + KeyPass(u, s[1..])
  }

  /** `KeyPass` at position `i`, in the terms of the loop below. */
  lemma LiteralAt(u: CharClass, s: string, i: nat)
    requires i < |s| && s[i] == '"'
    ensures var e := i + LiteralLen(s[i..]);
            KeyPass(u, s[i..]) == s[i..e] + KeyPass(u, s[e..])
  {
    var n := LiteralLen(s[i..]);
    assert s[i..][..n] == s[i..i + n] && s[i..][n..] == s[i + n..];
  }

  lemma MeasuredAt(u: CharClass, s: string, i: nat)
    requires i < |s|
    ensures var j := i + 1 + Run(u.IdentPart, s[i + 1..]);
            var k := j + Run(IsBlank, s[j..]);
            && (u.IdentStart(s[i]) ==> j == i + Run(u.IdentPart, s[i..]) && k == i + ColonPos(u, s[i..]))
            && (KeyAt(u, s[i..]) <==>
                  u.IdentStart(s[i]) && k < |s| && s[k] == ':' && !(k + 1 < |s| && s[k + 1] == ':'))
  {
    assert s[i..][1..] == s[i + 1..];
    if u.IdentStart(s[i]) {
      var j := Run(u.IdentPart, s[i..]);
      SubDrop(s, i, j);
    }
  }

  lemma KeyStep(u: CharClass, s: string)
    requires KeyAt(u, s) && !Quoted(s)
    ensures var j, k := Run(u.IdentPart, s), ColonPos(u, s);
            KeyPass(u, s) == QuotedKey(s[0..j], s[j..k]) + KeyPass(u, s[k + 1..])
  {
    hide LiteralLen, Run, ColonPos, KeyAt, QuotedKey;
    assert s[0..Run(u.IdentPart, s)] == s[..Run(u.IdentPart, s)];
    KeyLength(u, s);
  }

  lemma KeyLength(u: CharClass, s: string)
    requires KeyAt(u, s)
    ensures s != [] && ColonPos(u, s) < |s|
  {
  }

  lemma BareKeyAt(u: CharClass, s: string, i: nat, a: nat, b: nat)
    requires i < |s| && KeyAt(u, s[i..]) && !Quoted(s[i..])
    requires a == Run(u.IdentPart, s[i..]) && b == ColonPos(u, s[i..]) && i + b < |s|
    ensures KeyPass(u, s[i..]) == QuotedKey(s[i..i + a], s[i + a..i + b]) + KeyPass(u, s[i + b + 1..])
  {
    hide *;
    SubSlice(s, i, 0, a);
    SubSlice(s, i, a, b);
    SubDrop(s, i, b + 1);
    KeyStep(u, s[i..]);
  }

  lemma PassStep(u: CharClass, s: string)
    requires s != [] && s[0] != '"' && !KeyAt(u, s)
    ensures KeyPass(u, s) == [s[0]] + KeyPass(u, s[1..])
  {
  }

  lemma PlainAt(u: CharClass, s: string, i: nat)
    requires i < |s| && s[i] != '"' && !KeyAt(u, s[i..])
    ensures KeyPass(u, s[i..]) == [s[i]] + KeyPass(u, s[i + 1..])
  {
    assert s[i..][1..] == s[i + 1..];
  }

  method MeasureRun(p: char -> bool, s: string, i: nat) returns (j: nat)
    requires i <= |s|
    ensures i <= j <= |s| && j == i + Run(p, s[i..])
  {
    j := i;
    while j < |s| && p(s[j])
      invariant i <= j <= |s|
      invariant i + Run(p, s[i..]) == j + Run(p, s[j..])
    {
      j := j + 1;
      assert s[j - 1..][1..] == s[j..];
    }
  }

  /** One turn of the scanning loop: the text written and the next position. */
  method NextPiece(u: CharClass, s: string, i: nat) returns (piece: string, next: nat)
    requires i < |s|
    ensures i < next <= |s| && KeyPass(u, s[i..]) == piece + KeyPass(u, s[next..])
  {
    hide KeyPass, KeyAt, ColonPos, LiteralLen, Run, QuotedKey;
    MeasuredAt(u, s, i);
    if s[i] == '"' {
      LiteralAt(u, s, i);
      piece, next := ScanLiteral(s, i);
      return;
    }
    if u.IdentStart(s[i]) {
      var j := MeasureRun(u.IdentPart, s, i + 1);
      var k := MeasureRun(IsBlank, s, j);
      if k < |s| && s[k] == ':' {
        if k + 1 < |s| && s[k + 1] == ':' {
          PlainAt(u, s, i);
          piece, next := [s[i]], i + 1;
          return;
        }
        BareKeyAt(u, s, i, j - i, k - i);
        piece, next := QuotedKey(s[i..j], s[j..k]), k + 1;
        return;
      }
    }
    PlainAt(u, s, i);
    piece, next := [s[i]], i + 1;
  }

  method QuoteUnquotedKeys(u: CharClass, s: string) returns (b: string)
    ensures b == KeyPass(u, s)
  {
    b := "";
    var i := 0;
    while i < |s|
      invariant i <= |s|
      invariant KeyPass(u, s) == b + KeyPass(u, s[i..])
    {
      var piece, next := NextPiece(u, s, i);
      assert b + (piece + KeyPass(u, s[next..])) == (b + piece) + KeyPass(u, s[next..]);
      b := b + piece;
      i := next;
    }
  }

  // ------------------------------------------------ keys and plain characters

  /** No quote and no bare key begins inside `w` when `rest` follows. */
  predicate PlainBefore(u: CharClass, w: string, rest: string) {
    forall i :: 0 <= i < |w| ==> w[i] != '"' && !KeyAt(u, w[i..] + rest)
  }

  lemma {:induction false} CopyPlain(u: CharClass, w: string, rest: string)
    requires PlainBefore(u, w, rest)
    ensures KeyPass(u, w + rest) == w + KeyPass(u, rest)
  {
    hide KeyPass, KeyAt;
    if w == [] {
      assert w + rest == rest;
    } else {
      assert w[0..] == w;
      PassStep(u, w + rest);
      forall i | 0 <= i < |w[1..]|
        ensures w[1..][i] != '"' && !KeyAt(u, w[1..][i..] + rest)
      {
        assert w[1..][i..] == w[i + 1..];
      }
      CopyPlain(u, w[1..], rest);
      Cons(w, rest);
      Cons(w, KeyPass(u, rest));
    }
  }

  lemma CopyLiteral(u: CharClass, lit: string, rest: string)
    requires IsLiteral(lit, rest == [])
    ensures KeyPass(u, lit + rest) == lit + KeyPass(u, rest)
  {
    LiteralIsWhole(lit, rest);
    assert (lit + rest)[..|lit|] == lit && (lit + rest)[|lit|..] == rest;
  }

  /** The scanner's two measurements of `name gap rest`. */
  lemma Measure(u: CharClass, name: string, gap: string, rest: string)
    requires u.Ascii()
    requires All(u.IdentPart, name) && All(IsBlank, gap)
    requires gap == [] ==> !StartsWith(u.IdentPart, rest)
    requires !StartsWith(IsBlank, rest)
    ensures Run(u.IdentPart, name + gap + rest) == |name|
    ensures ColonPos(u, name + gap + rest) == |name| + |gap|
  {
    assert name + gap + rest == name + (gap + rest);
    assert gap == [] ==> gap + rest == rest;
    assert gap != [] ==> IsBlank(gap[0]) && !u.IdentPart(gap[0]);
    RunIs(u.IdentPart, name, gap + rest);
    assert (name + gap + rest)[|name|..] == gap + rest;
    RunIs(IsBlank, gap, rest);
  }

  lemma QuoteKey(u: CharClass, name: string, gap: string, rest: string)
    requires u.Ascii()
    requires StartsWith(u.IdentStart, name) && All(u.IdentPart, name) && All(IsBlank, gap)
    requires !(rest != [] && rest[0] == ':')
    ensures KeyPass(u, name + gap + [':'] + rest) == QuotedKey(name, gap) + KeyPass(u, rest)
  {
    var s := name + gap + [':'] + rest;
    hide KeyPass;
    assert s == name + gap + ([':'] + rest);
    Measure(u, name, gap, [':'] + rest);
    var k := |name| + |gap|;
    assert s[0..|name|] == name && s[|name|..k] == gap && s[k + 1..] == rest;
    KeyStep(u, s);
  }

  // ------------------------------------------ what the pass adds, and fixpoints

  /** `t` is `s` with some double quotes inserted and nothing else changed. */
  ghost predicate Inserts(s: string, t: string)
    decreases |t|
  {
    if t == [] then s == []
    else (s != [] && s[0] == t[0] && Inserts(s[1..], t[1..])) || (t[0] == '"' && Inserts(s, t[1..]))
  }

  lemma {:induction false} InsertsCopy(w: string, s: string, t: string)
    requires Inserts(s, t)
    ensures Inserts(w + s, w + t)
  {
    if w == [] {
      assert w + s == s && w + t == t;
    } else {
      InsertsCopy(w[1..], s, t);
      assert (w + s)[1..] == w[1..] + s && (w + t)[1..] == w[1..] + t;
    }
  }

  lemma InsertsQuote(s: string, t: string)
    requires Inserts(s, t)
    ensures Inserts(s, ['"'] + t)
  {
    assert (['"'] + t)[1..] == t;
  }

  lemma InsertsKey(name: string, gap: string, s: string, t: string)
    requires Inserts(s, t)
    ensures Inserts(name + gap + [':'] + s, QuotedKey(name, gap) + t)
  {
    var tail := gap + [':'];
    InsertsCopy(tail, s, t);
    InsertsQuote(tail + s, tail + t);
    InsertsCopy(name, tail + s, ['"'] + (tail + t));
    InsertsQuote(name + (tail + s), name + (['"'] + (tail + t)));
    assert name + (tail + s) == name + gap + [':'] + s;
    assert ['"'] + (name + (['"'] + (tail + t))) == QuotedKey(name, gap) + t;
  }

  lemma SplitKey(u: CharClass, s: string)
    requires KeyAt(u, s)
    ensures var j, k := Run(u.IdentPart, s), ColonPos(u, s);
            s == s[..j] + s[j..k] + [':'] + s[k + 1..]
  {
    hide *;
    KeyColon(u, s);
    var j, k := Run(u.IdentPart, s), ColonPos(u, s);
    assert s[..j] + s[j..k] == s[..k];
    assert s[..k] + [':'] == s[..k + 1];
  }

  lemma KeyColon(u: CharClass, s: string)
    requires KeyAt(u, s)
    ensures var k := ColonPos(u, s); k < |s| && s[k] == ':'
  {
    hide ColonPos;
  }

  /** Erasing the inserted quotes gives the input back: the pass loses and invents nothing else. */
  lemma {:induction false} PassConserves(u: CharClass, s: string)
    ensures Inserts(s, KeyPass(u, s))
  {
    if s == [] {
    } else if Quoted(s) {
      var n := LiteralLen(s);
      PassConserves(u, s[n..]);
      InsertsCopy(s[..n], s[n..], KeyPass(u, s[n..]));
      assert s == s[..n] + s[n..];
    } else if KeyAt(u, s) {
      var j, k := Run(u.IdentPart, s), ColonPos(u, s);
      PassConserves(u, s[k + 1..]);
      SplitKey(u, s);
      InsertsKey(s[..j], s[j..k], s[k + 1..], KeyPass(u, s[k + 1..]));
    } else {
      PassConserves(u, s[1..]);
      InsertsCopy([s[0]], s[1..], KeyPass(u, s[1..]));
      assert s == [s[0]] + s[1..];
    }
  }

  /** Outside string literals there is no bare key. */
  predicate NoBareKey(u: CharClass, s: string) {
    if s == [] then true
    else if Quoted(s) then NoBareKey(u, s[LiteralLen(s)..])
    else !KeyAt(u, s) && NoBareKey(u, s[1..])
  }

  /** The texts the pass leaves alone are exactly those without bare keys. */
  lemma {:induction false} FixpointIff(u: CharClass, s: string)
    ensures KeyPass(u, s) == s <==> NoBareKey(u, s)
    ensures |KeyPass(u, s)| >= |s|
  {
    if s == [] {
    } else if Quoted(s) {
      var n := LiteralLen(s);
      FixpointIff(u, s[n..]);
      assert s == s[..n] + s[n..];
      if KeyPass(u, s) == s {
        assert (s[..n] + KeyPass(u, s[n..]))[n..] == KeyPass(u, s[n..]);
      }
    } else if KeyAt(u, s) {
      FixpointIff(u, s[ColonPos(u, s) + 1..]);
    } else {
      FixpointIff(u, s[1..]);
      assert s == [s[0]] + s[1..];
      if KeyPass(u, s) == s {
        assert ([s[0]] + KeyPass(u, s[1..]))[1..] == KeyPass(u, s[1..]);
      }
    }
  }

  lemma {:induction false} NoBareKeyIn(u: CharClass, w: string, rest: string)
    requires forall i :: 0 <= i < |w| ==> w[i] != '"' && !u.IdentStart(w[i])
    requires NoBareKey(u, rest)
    ensures NoBareKey(u, w + rest)
  {
    if w == [] {
      assert w + rest == rest;
    } else {
      NoBareKeyIn(u, w[1..], rest);
      assert (w + rest)[1..] == w[1..] + rest;
    }
  }

  lemma {:induction false} IdentIsBody(u: CharClass, name: string)
    requires u.Ascii() && All(u.IdentPart, name)
    ensures Body(name)
  {
    if name != [] {
      IdentIsBody(u, name[1..]);
    }
  }

  /** `rest` does not continue an identifier or its blanks, and starts no key's colon. */
  predicate Ends(u: CharClass, gap: string, rest: string) {
    && (gap == [] ==> !StartsWith(u.IdentPart, rest))
    && !StartsWith(IsBlank, rest)
    && (rest != [] && rest[0] == ':' ==> |rest| > 1 && rest[1] == ':')
  }

  lemma NotKey(u: CharClass, name: string, gap: string, rest: string)
    requires u.Ascii() && All(u.IdentPart, name) && All(IsBlank, gap) && Ends(u, gap, rest)
    ensures !KeyAt(u, name + gap + rest)
  {
    Measure(u, name, gap, rest);
    assert (name + gap + rest)[|name| + |gap|..] == rest;
  }

  lemma CopyName(u: CharClass, name: string, gap: string, rest: string)
    requires u.Ascii() && All(u.IdentPart, name) && All(IsBlank, gap) && Ends(u, gap, rest)
    ensures KeyPass(u, name + (gap + rest)) == name + KeyPass(u, gap + rest)
  {
    hide KeyPass, KeyAt, Ends;
    forall i | 0 <= i < |name| ensures name[i] != '"' && !KeyAt(u, name[i..] + (gap + rest)) {
      assert u.IdentPart(name[i]);
      NotKey(u, name[i..], gap, rest);
      assert name[i..] + (gap + rest) == name[i..] + gap + rest;
    }
    CopyPlain(u, name, gap + rest);
  }

  lemma CopyGap(u: CharClass, gap: string, rest: string)
    requires u.Ascii() && All(IsBlank, gap)
    ensures KeyPass(u, gap + rest) == gap + KeyPass(u, rest)
  {
    hide KeyPass;
    forall i | 0 <= i < |gap| ensures gap[i] != '"' && !KeyAt(u, gap[i..] + rest) {
      assert IsBlank(gap[i]);
    }
    CopyPlain(u, gap, rest);
  }

  /** The rest of an identifier that is not a key holds no key either. */
  lemma NonKeyTail(u: CharClass, name: string, gap: string, rest: string)
    requires u.Ascii() && All(u.IdentPart, name) && All(IsBlank, gap) && Ends(u, gap, rest)
    ensures KeyPass(u, name + gap + rest) == name + gap + KeyPass(u, rest)
  {
    hide KeyPass, Ends;
    CopyName(u, name, gap, rest);
    CopyGap(u, gap, rest);
    assert name + gap + rest == name + (gap + rest);
    assert name + gap + KeyPass(u, rest) == name + (gap + KeyPass(u, rest));
  }

  /** What the pass writes from a point where an identifier, its blanks and no single colon end. */
  lemma EndStays(u: CharClass, rest: string)
    requires u.Ascii()
    requires rest != [] && rest[0] == ':' ==> |rest| > 1 && rest[1] == ':'
    ensures var out := KeyPass(u, rest);
            && (out != [] && out[0] == ':' ==> |out| > 1 && out[1] == ':')
            && (StartsWith(IsBlank, out) ==> StartsWith(IsBlank, rest))
            && (StartsWith(u.IdentPart, out) ==> StartsWith(u.IdentPart, rest))
  {
    if rest != [] && rest[0] == ':' {
      assert rest[1..][0] == ':' && !u.IdentStart(':');
      assert KeyPass(u, rest)[0] == ':' && KeyPass(u, rest)[1] == KeyPass(u, rest[1..])[0];
    } else if rest != [] {
      assert KeyPass(u, rest)[0] == rest[0] || KeyPass(u, rest)[0] == '"';
    }
  }

  /** An identifier that is not a key is copied, and is still not a key in the output. */
  lemma NonKeyStays(u: CharClass, s: string)
    requires u.Ascii() && StartsWith(u.IdentStart, s) && !KeyAt(u, s)
    ensures !KeyAt(u, [s[0]] + KeyPass(u, s[1..]))
  {
    hide *;
    var name, gap, rest := NonKeyParts(u, s);
    var out := KeyPass(u, rest);
    NonKeyTail(u, name[1..], gap, rest);
    EndStays(u, rest);
    StillEnds(u, gap, rest, out);
    assert s[0] == name[0] && s[1..] == name[1..] + gap + rest;
    assert [s[0]] + KeyPass(u, s[1..]) == name + gap + out;
    NotKey(u, name, gap, out);
  }

  /** An identifier that is not a key, its blanks, and what ends them. */
  lemma NonKeyParts(u: CharClass, s: string) returns (name: string, gap: string, rest: string)
    requires u.Ascii() && StartsWith(u.IdentStart, s) && !KeyAt(u, s)
    ensures s == name + gap + rest && name != [] && All(IsBlank, gap) && Ends(u, gap, rest)
    ensures All(u.IdentPart, name) && All(u.IdentPart, name[1..])
    ensures rest != [] && rest[0] == ':' ==> |rest| > 1 && rest[1] == ':'
  {
    ColonProps(u, s);
    var j, k := Run(u.IdentPart, s), ColonPos(u, s);
    name, gap, rest := s[..j], s[j..k], s[k..];
    assert j > 0;
    hide Run, ColonPos;
    assert s == name + gap + rest;
    assert rest != [] ==> rest[0] == s[k];
    assert |rest| > 1 ==> rest[1] == s[k + 1];
  }

  lemma StillEnds(u: CharClass, gap: string, rest: string, out: string)
    requires Ends(u, gap, rest)
    requires out != [] && out[0] == ':' ==> |out| > 1 && out[1] == ':'
    requires StartsWith(IsBlank, out) ==> StartsWith(IsBlank, rest)
    requires StartsWith(u.IdentPart, out) ==> StartsWith(u.IdentPart, rest)
    ensures Ends(u, gap, out)
  {
  }

  lemma NoBareKeyQuoted(u: CharClass, name: string, gap: string, rest: string)
    requires u.Ascii() && All(u.IdentPart, name) && All(IsBlank, gap) && NoBareKey(u, rest)
    ensures NoBareKey(u, QuotedKey(name, gap) + rest)
  {
    NoIdentIn(u, gap);
    IdentIsLiteral(u, name);
    hide *;
    NoBareKeyIn(u, gap + [':'], rest);
    var lit, tail := ['"'] + name + ['"'], gap + [':'] + rest;
    LiteralIsWhole(lit, tail);
    NoBareKeyBehind(u, lit + tail);
    assert (lit + tail)[|lit|..] == tail;
    QuotedKeyIs(name, gap, rest);
  }

  lemma QuotedKeyIs(name: string, gap: string, rest: string)
    ensures QuotedKey(name, gap) + rest == (['"'] + name + ['"']) + (gap + [':'] + rest)
  {
  }

  lemma NoIdentIn(u: CharClass, gap: string)
    requires u.Ascii() && All(IsBlank, gap)
    ensures var w := gap + [':']; forall i :: 0 <= i < |w| ==> w[i] != '"' && !u.IdentStart(w[i])
  {
    assert forall i :: 0 <= i < |gap| ==> IsBlank(gap[i]);
  }

  lemma IdentIsLiteral(u: CharClass, name: string)
    requires u.Ascii() && All(u.IdentPart, name)
    ensures forall atEnd :: IsLiteral(['"'] + name + ['"'], atEnd)
  {
    IdentIsBody(u, name);
    var lit := ['"'] + name + ['"'];
    assert lit[1..|lit| - 1] == name;
  }

  lemma NoBareKeyBehind(u: CharClass, s: string)
    requires Quoted(s)
    ensures NoBareKey(u, s) == NoBareKey(u, s[LiteralLen(s)..])
  {
    hide LiteralLen;
  }

  lemma {:induction false} PassLeavesNoBareKey(u: CharClass, s: string)
    requires u.Ascii()
    ensures NoBareKey(u, KeyPass(u, s))
  {
    if s == [] {
    } else if Quoted(s) {
      var n := LiteralLen(s);
      var out := KeyPass(u, s[n..]);
      PassLeavesNoBareKey(u, s[n..]);
      CutIsLiteral(s);
      LiteralIsWhole(s[..n], out);
      assert (s[..n] + out)[n..] == out;
    } else if KeyAt(u, s) {
      var j, k := Run(u.IdentPart, s), ColonPos(u, s);
      PassLeavesNoBareKey(u, s[k + 1..]);
      ColonProps(u, s);
      NoBareKeyQuoted(u, s[..j], s[j..k], KeyPass(u, s[k + 1..]));
    } else {
      PassLeavesNoBareKey(u, s[1..]);
      if StartsWith(u.IdentStart, s) {
        NonKeyStays(u, s);
      }
      assert ([s[0]] + KeyPass(u, s[1..]))[1..] == KeyPass(u, s[1..]);
    }
  }

  /** A second pass changes nothing, whatever the text. */
  lemma PassIdempotent(u: CharClass, s: string)
    requires u.Ascii()
    ensures KeyPass(u, KeyPass(u, s)) == KeyPass(u, s)
  {
    PassLeavesNoBareKey(u, s);
    FixpointIff(u, KeyPass(u, s));
  }
}
