/** The first pass reads a literal as intended exactly if no parenthesis misleads it. */
module ArrayLimits {
  import opened JsText
  import opened NewArray
  import opened Text
  import Rewrite

  // ------------------------------------------------- texts that part for good

  /** What the first pass writes in place of something else: none of these can begin a token of a later pass. */
  predicate Mark(m: string) {
    m == "[" || m == "]" || m == ")" || m == HEAD
  }

  /** After a common prefix the texts go on with different marks. */
  ghost predicate Part(a: string, b: string) {
    exists w, m, x, n, y :: PartAt(a, b, w, m, x, n, y)
  }

  predicate PartAt(a: string, b: string, w: string, m: string, x: string, n: string, y: string) {
    Mark(m) && Mark(n) && m != n && a == w + (m + x) && b == w + (n + y)
  }

  lemma PartDiffer(a: string, b: string)
    requires Part(a, b)
    ensures a != b
  {
    var w, m, x, n, y :| PartAt(a, b, w, m, x, n, y);
    assert HEAD[0] == 'n';
    assert (m + x)[0] == m[0] != n[0] == (n + y)[0];
    SamePrefix(w, m + x, n + y);
  }

  lemma PartBehind(w: string, a: string, b: string)
    requires Part(a, b)
    ensures Part(w + a, w + b)
  {
    var v, m, x, n, y :| PartAt(a, b, v, m, x, n, y);
    hide Mark;
    assert w + (v + (m + x)) == (w + v) + (m + x);
    assert w + (v + (n + y)) == (w + v) + (n + y);
    assert PartAt(w + a, w + b, w + v, m, x, n, y);
  }

  // ------------------------------------- a parenthesis inside a constructor

  /** The text before the first closing parenthesis. */
  function Before(p: string): string {
    p[..Run(NotClose, p)]
  }

  /** Before any parenthesis that both have, one of them opens a constructor where the other has a bracket. */
  ghost predicate Strays(p: string, q: string) {
    exists w, x, y :: StraysAt(p, q, w, x, y)
  }

  predicate StraysAt(p: string, q: string, w: string, x: string, y: string) {
    ')' !in w && ((p == w + (HEAD + x) && q == w + (['['] + y)) || (p == w + ([')'] + x) && q == w + ([')'] + y)))
  }

  lemma StraysBehind(w: string, p: string, q: string)
    requires ')' !in w && Strays(p, q)
    ensures Strays(w + p, w + q)
  {
    var v, x, y :| StraysAt(p, q, v, x, y);
    assert w + (v + (HEAD + x)) == (w + v) + (HEAD + x) && w + (v + (['['] + y)) == (w + v) + (['['] + y);
    assert w + (v + ([')'] + x)) == (w + v) + ([')'] + x) && w + (v + ([')'] + y)) == (w + v) + ([')'] + y);
    assert StraysAt(w + p, w + q, w + v, x, y);
  }

  lemma BeforeIs(w: string, x: string)
    requires ')' !in w
    ensures Before(w + ([')'] + x)) == w
    ensures w + HEAD <= Before(w + (HEAD + x))
  {
    hide Run;
    RunIs(NotClose, w, [')'] + x);
    RunSkips(w + HEAD, x);
    assert w + (HEAD + x) == (w + HEAD) + x;
  }

  lemma {:induction false} RunSkips(w: string, p: string)
    requires ')' !in w
    ensures Run(NotClose, w + p) == |w| + Run(NotClose, p)
  {
    if w == [] {
      assert w + p == p;
    } else {
      assert (w + p)[1..] == w[1..] + p;
      RunSkips(w[1..], p);
    }
  }

  lemma SharedParen(w: string, a: string, b: string)
    requires ')' in w
    ensures Strays(w + a, w + b)
  {
    RunAll(NotClose, w);
    hide Run;
    var n := Run(NotClose, w);
    var i :| 0 <= i < |w| && w[i] == ')';
    assert i < n ==> NotClose(w[..n][i]);
    var v, z := w[..n], w[n + 1..];
    assert w[n..][0] == w[n];
    assert w + a == v + ([')'] + (z + a)) && w + b == v + ([')'] + (z + b));
    assert ')' !in v;
    assert StraysAt(w + a, w + b, v, z + a, z + b);
  }

  lemma StraysAtOnce(x: string, y: string)
    ensures Strays(HEAD + x, ['['] + y)
  {
    assert "" + (HEAD + x) == HEAD + x && "" + (['['] + y) == ['['] + y;
    assert StraysAt(HEAD + x, ['['] + y, "", x, y);
  }

  lemma WsHasNoParen(ws: string)
    requires WsText(ws)
    ensures ')' !in ws
  {
    assert forall i :: 0 <= i < |ws| ==> IsWs(ws[i]);
  }

  lemma NumeralHasNoParen(n: Numeral)
    requires NumeralOk(n)
    ensures ')' !in NumeralText(n, Page)
  {
    match n
    case Decimal(d) => assert forall i :: 0 <= i < |d| ==> IsDigit(d[i]);
    case Hexadecimal(x, d) => assert forall i :: 0 <= i < |d| ==> IsHexDigit(d[i]);
  }

  lemma LiteralRegroup(body: string, a: string)
    ensures ['"'] + (body + a) == (['"'] + body) + a
  {
  }

  lemma {:induction false} ValueStrays(u: CharClass, v: Js, a: string, b: string)
    requires u.Ascii() && JsOk(u, v)
    ensures ')' in JsTextOf(v, Page, "") ==> Strays(JsTextOf(v, Page, a), JsTextOf(v, Arrays, b))
    decreases v, 0
  {
    hide Strays;
    match v
    case Num(neg, n) => NumeralHasNoParen(n);
    case Str(body) =>
      LiteralRegroup(body, ['"'] + a);
      LiteralRegroup(body, ['"'] + b);
      if ')' in body {
        SharedParen(['"'] + body, ['"'] + a, ['"'] + b);
      }
    case Word(name) =>
    case Arr(viaNew, items) =>
      if viaNew {
        StraysAtOnce(ItemsText(items, Page, [')'] + a), ItemsText(items, Arrays, [']'] + b));
      } else {
        ItemsSplit(items, Page, [']'] + "");
        if ')' in ItemsText(items, Page, "") {
          ItemsStray(u, items, [']'] + a, [']'] + b);
          StraysBehind(['['], ItemsText(items, Page, [']'] + a), ItemsText(items, Arrays, [']'] + b));
        }
      }
    case Obj(ms) =>
      MembersSplit(ms, Page, ['}'] + "");
      if ')' in MembersText(ms, Page, "") {
        MembersStray(u, ms, ['}'] + a, ['}'] + b);
        StraysBehind(['{'], MembersText(ms, Page, ['}'] + a), MembersText(ms, Arrays, ['}'] + b));
      }
  }

  /** Either the item holds a parenthesis itself, or what strays behind it does so with it. */
  lemma {:induction false} ItemStrays(u: CharClass, pre: string, v: Js, post: string, a: string, b: string)
    requires u.Ascii() && JsOk(u, v) && WsText(pre) && WsText(post)
    ensures ')' in JsTextOf(v, Page, "") || Strays(a, b) ==>
              Strays(pre + JsTextOf(v, Page, post + a), pre + JsTextOf(v, Arrays, post + b))
    decreases v, 1
  {
    hide *;
    WsHasNoParen(pre);
    WsHasNoParen(post);
    if ')' in JsTextOf(v, Page, "") {
      ValueStrays(u, v, post + a, post + b);
      StraysBehind(pre, JsTextOf(v, Page, post + a), JsTextOf(v, Arrays, post + b));
    } else if Strays(a, b) {
      NoParenIsFlat(v, "");
      FlatSame(v, post + b);
      TextSplits(v, Page, post + a);
      TextSplits(v, Page, post + b);
      StraysBehind(post, a, b);
      StraysBehind(JsTextOf(v, Page, ""), post + a, post + b);
      StraysBehind(pre, JsTextOf(v, Page, post + a), JsTextOf(v, Arrays, post + b));
    }
  }

  lemma InItem(pre: string, v: Js, post: string)
    requires WsText(pre) && WsText(post)
    ensures ')' in pre + JsTextOf(v, Page, post) <==> ')' in JsTextOf(v, Page, "")
  {
    hide JsTextOf;
    WsHasNoParen(pre);
    WsHasNoParen(post);
    TextSplits(v, Page, post);
  }

  lemma {:induction false} ItemsStray(u: CharClass, items: Items, a: string, b: string)
    requires u.Ascii() && ItemsOk(u, items)
    ensures ')' in ItemsText(items, Page, "") ==> Strays(ItemsText(items, Page, a), ItemsText(items, Arrays, b))
    decreases items, 0
  {
    hide Strays, JsTextOf;
    match items
    case NoItems(ws) =>
      WsHasNoParen(ws);
      assert ws + "" == ws;
    case LastItem(pre, v, post) =>
      assert post + "" == post;
      InItem(pre, v, post);
      ItemStrays(u, pre, v, post, a, b);
    case MoreItems(pre, v, post, more) =>
      var t := [','] + ItemsText(more, Page, "");
      assert ')' in t <==> ')' in ItemsText(more, Page, "");
      InTail(pre, v, post, t);
      if ')' in ItemsText(more, Page, "") {
        ItemsStray(u, more, a, b);
        StraysBehind([','], ItemsText(more, Page, a), ItemsText(more, Arrays, b));
      }
      ItemStrays(u, pre, v, post, [','] + ItemsText(more, Page, a), [','] + ItemsText(more, Arrays, b));
  }

  lemma InTail(pre: string, v: Js, post: string, t: string)
    requires WsText(pre) && WsText(post)
    ensures ')' in pre + JsTextOf(v, Page, post + t) <==> ')' in JsTextOf(v, Page, "") || ')' in t
  {
    hide JsTextOf;
    WsHasNoParen(pre);
    WsHasNoParen(post);
    TextSplits(v, Page, post + t);
  }

  /** The same for a key and its colon. */
  lemma KeyStrays(u: CharClass, key: Key, gap: string, a: string, b: string)
    requires u.Ascii() && KeyOk(u, key) && All(IsBlank, gap)
    ensures (key.InQuotes? && ')' in key.body) || Strays(a, b) ==>
              Strays(KeyText(key, Page, gap + ([':'] + a)), KeyText(key, Arrays, gap + ([':'] + b)))
    ensures ')' in KeyText(key, Page, gap + ([':'] + a)) <==> (key.InQuotes? && ')' in key.body) || ')' in a
  {
    hide Strays, NoHexIn, JsonBody;
    assert ')' !in gap by {
      assert forall i :: 0 <= i < |gap| ==> IsBlank(gap[i]);
    }
    var ta, tb := gap + ([':'] + a), gap + ([':'] + b);
    if Strays(a, b) {
      StraysBehind([':'], a, b);
      StraysBehind(gap, [':'] + a, [':'] + b);
    }
    match key
    case Bare(name) =>
      assert ')' !in name by {
        assert forall i :: 0 <= i < |name| ==> u.IdentPart(name[i]);
      }
      if Strays(a, b) {
        StraysBehind(name, ta, tb);
      }
    case InQuotes(body) =>
      LiteralRegroup(body, ['"'] + ta);
      LiteralRegroup(body, ['"'] + tb);
      if ')' in body {
        SharedParen(['"'] + body, ['"'] + ta, ['"'] + tb);
      } else if Strays(a, b) {
        StraysBehind(['"'], ta, tb);
        StraysBehind(['"'] + body, ['"'] + ta, ['"'] + tb);
      }
  }

  lemma {:induction false} MemberStrays(u: CharClass, m: Member, a: string, b: string)
    requires u.Ascii() && MemberOk(u, m)
    ensures ')' in MemberText(m, Page, "") || Strays(a, b) ==>
              Strays(MemberText(m, Page, a), MemberText(m, Arrays, b))
    decreases m, 0
  {
    hide Strays, JsTextOf, KeyText, JsOk, KeyOk;
    WsHasNoParen(m.pre);
    assert m.post + "" == m.post;
    var t := m.mid + JsTextOf(m.v, Page, m.post);
    var x, y := m.mid + JsTextOf(m.v, Page, m.post + a), m.mid + JsTextOf(m.v, Arrays, m.post + b);
    InItem(m.mid, m.v, m.post);
    ItemStrays(u, m.mid, m.v, m.post, a, b);
    KeyStrays(u, m.key, m.gap, t, t);
    KeyStrays(u, m.key, m.gap, x, y);
    if ')' in MemberText(m, Page, "") || Strays(a, b) {
      StraysBehind(m.pre, KeyText(m.key, Page, m.gap + ([':'] + x)), KeyText(m.key, Arrays, m.gap + ([':'] + y)));
    }
  }

  lemma {:induction false} MembersStray(u: CharClass, ms: Members, a: string, b: string)
    requires u.Ascii() && MembersOk(u, ms)
    ensures ')' in MembersText(ms, Page, "") ==> Strays(MembersText(ms, Page, a), MembersText(ms, Arrays, b))
    decreases ms, 0
  {
    hide Strays, MemberText, MemberOk;
    match ms
    case NoMembers(ws) =>
      WsHasNoParen(ws);
      assert ws + "" == ws;
    case LastMember(m) => MemberStrays(u, m, a, b);
    case MoreMembers(m, more) =>
      if ')' in MembersText(more, Page, "") {
        MembersStray(u, more, a, b);
        StraysBehind([','], MembersText(more, Page, a), MembersText(more, Arrays, b));
      }
      MemberStrays(u, m, [','] + MembersText(more, Page, a), [','] + MembersText(more, Arrays, b));
      MemberSplit(m, Page, [','] + MembersText(more, Page, ""));
  }

  // ------------------------------------------------ what an unsafe literal does

  /** From the first head that is closed on, the pass writes a bracket where the literal has the head. */
  lemma HeadBreaks(w: string, s: string, out: string)
    requires forall i :: 0 <= i < |w| ==> !Matched(w[i..] + s)
    requires Matched(s) && HeadAt(out)
    ensures Part(ArrayPass(w + s), w + out)
  {
    assert ArrayPass(s)[0] == '[';
    hide ArrayPass;
    CopyPlain(w, s);
    var x, y := ArrayPass(s)[1..], out[10..];
    assert ArrayPass(s) == "[" + x && out == HEAD + y;
    assert "[" != HEAD;
    assert PartAt(ArrayPass(w + s), w + out, w, "[", x, HEAD, y);
  }

  lemma LiteralBreaks(body: string, rest: string, out: string)
    requires !Undisturbed(body, rest)
    ensures Part(ArrayPass(['"'] + (body + (['"'] + rest))), ['"'] + (body + (['"'] + out)))
  {
    var i :| 0 <= i <= |body| && HeadAt(body[i..]) && (')' in body[i + 10..] || ')' in rest);
    var k := FirstHead(body, i);
    ClosedLater(body, i, k);
    BreaksAt(body, k, rest, out);
  }

  lemma ClosedLater(s: string, i: nat, k: nat)
    requires k <= i && i + 10 <= |s|
    ensures ')' in s[i + 10..] ==> ')' in s[k + 10..]
  {
    if ')' in s[i + 10..] {
      var j :| 0 <= j < |s| - i - 10 && s[i + 10..][j] == ')';
      assert s[k + 10..][j + i - k] == ')';
    }
  }

  /** The match at the first head of a body. */
  lemma BreaksAt(body: string, k: nat, rest: string, out: string)
    requires k <= |body| && HeadAt(body[k..]) && (')' in body[k + 10..] || ')' in rest)
    requires forall j :: 0 <= j < k ==> !HeadAt(body[j..])
    ensures Part(ArrayPass(['"'] + (body + (['"'] + rest))), ['"'] + (body + (['"'] + out)))
  {
    var w, s := ['"'] + body[..k], body[k..] + (['"'] + rest);
    assert HeadAt(body[k..] + (['"'] + out)) && HeadAt(s);
    assert s[10..] == body[k + 10..] + (['"'] + rest);
    MatchedNeedsParen(s);
    forall j | 0 <= j < |w| ensures !Matched(w[j..] + s) {
      assert w[j..] + s == (['"'] + body + ['"'])[j..] + rest;
      if HeadAt(w[j..] + s) {
        Rewrite.HeadInBody(body, rest, j);
      }
    }
    hide *;
    HeadBreaks(w, s, body[k..] + (['"'] + out));
    SplitBody(body, k, ['"'] + rest);
    SplitBody(body, k, ['"'] + out);
  }

  lemma SplitBody(body: string, k: nat, a: string)
    requires k <= |body|
    ensures (['"'] + body[..k]) + (body[k..] + a) == ['"'] + (body + a)
  {
  }

  lemma {:induction false} FirstHead(s: string, i: nat) returns (k: nat)
    requires i <= |s| && HeadAt(s[i..])
    ensures k <= i && HeadAt(s[k..]) && forall j :: 0 <= j < k ==> !HeadAt(s[j..])
  {
    k := 0;
    while !HeadAt(s[k..])
      invariant k <= i && forall j :: 0 <= j < k ==> !HeadAt(s[j..])
      decreases i - k
    {
      k := k + 1;
    }
  }

  lemma ConstructorBreaks(u: CharClass, items: Items, rest: string, out: string)
    requires u.Ascii() && ItemsOk(u, items) && ')' in ItemsText(items, Page, "")
    ensures Part(ArrayPass(HEAD + ItemsText(items, Page, [')'] + rest)), ['['] + ItemsText(items, Arrays, [']'] + out))
  {
    var p, q := ItemsText(items, Page, [')'] + rest), ItemsText(items, Arrays, [']'] + out);
    ItemsStray(u, items, [')'] + rest, [']'] + out);
    ItemsSplit(items, Page, [')'] + rest);
    hide *;
    ClosesAtFirst(p, q);
  }

  /** The pass closes the bracket at the first parenthesis. */
  lemma ClosesAtFirst(p: string, q: string)
    requires ')' in p && Strays(p, q)
    ensures Part(ArrayPass(HEAD + p), ['['] + q)
  {
    hide *;
    var tail := PassOfHead(p);
    StraysPart(p, q, tail);
    PartBehind(['['], Before(p) + ([']'] + tail), q);
  }

  lemma PassOfHead(p: string) returns (tail: string)
    requires ')' in p
    ensures ArrayPass(HEAD + p) == ['['] + (Before(p) + ([']'] + tail))
  {
    var s := HEAD + p;
    assert s[10..] == p;
    MatchedNeedsParen(s);
    var n := Run(NotClose, p);
    tail := ArrayPass(s[10 + n + 1..]);
    assert s[10..10 + n] == p[..n];
  }

  lemma StraysPart(p: string, q: string, tail: string)
    requires Strays(p, q)
    ensures Part(Before(p) + ([']'] + tail), q)
  {
    var w, x, y :| StraysAt(p, q, w, x, y);
    hide Before;
    BeforeIs(w, x);
    var a := Before(p) + ([']'] + tail);
    assert "[" != HEAD;
    if p == w + (HEAD + x) && q == w + (['['] + y) {
      var z := Before(p)[|w| + 10..] + ([']'] + tail);
      assert a == (w + HEAD) + z == w + (HEAD + z);
      assert PartAt(a, q, w, HEAD, z, "[", y);
    } else {
      assert PartAt(a, q, w, "]", tail, ")", y);
    }
  }

  lemma {:induction false} ValueBreaks(u: CharClass, v: Js, rest: string, out: string)
    requires u.Ascii() && JsOk(u, v)
    ensures !ArraySafe(v, rest) ==> Part(ArrayPass(JsTextOf(v, Page, rest)), JsTextOf(v, Arrays, out))
    decreases v, 0
  {
    hide ArrayPass, Undisturbed, Part;
    match v
    case Str(body) =>
      if !Undisturbed(body, rest) {
        LiteralBreaks(body, rest, out);
      }
    case Arr(viaNew, items) =>
      if viaNew {
        if ')' in ItemsText(items, Page, "") {
          ConstructorBreaks(u, items, rest, out);
        }
      } else {
        var t := ItemsText(items, Page, [']'] + rest);
        CopyNoN(['['], t);
        if !ItemsSafe(items, [']'] + rest) {
          ItemsBreak(u, items, [']'] + rest, [']'] + out);
          PartBehind(['['], ArrayPass(t), ItemsText(items, Arrays, [']'] + out));
        }
      }
    case Obj(ms) =>
      var t := MembersText(ms, Page, ['}'] + rest);
      CopyNoN(['{'], t);
      if !MembersSafe(ms, ['}'] + rest) {
        MembersBreak(u, ms, ['}'] + rest, ['}'] + out);
        PartBehind(['{'], ArrayPass(t), MembersText(ms, Arrays, ['}'] + out));
      }
    case _ =>
  }

  /** An item that is unsafe breaks, and one that is safe passes on what breaks behind it. */
  lemma {:induction false} ItemBreaks(u: CharClass, pre: string, v: Js, post: string, rest: string, out: string)
    requires u.Ascii() && JsOk(u, v) && WsText(pre) && WsText(post)
    ensures !ArraySafe(v, post + rest) || Part(ArrayPass(rest), out) ==>
              Part(ArrayPass(pre + JsTextOf(v, Page, post + rest)), pre + JsTextOf(v, Arrays, post + out))
    decreases v, 1
  {
    hide *;
    if !ArraySafe(v, post + rest) {
      Rewrite.WsHasNoN(pre);
      CopyNoN(pre, JsTextOf(v, Page, post + rest));
      ValueBreaks(u, v, post + rest, post + out);
      PartBehind(pre, ArrayPass(JsTextOf(v, Page, post + rest)), JsTextOf(v, Arrays, post + out));
    } else if Part(ArrayPass(rest), out) {
      Rewrite.ArraysOfItem(u, pre, v, post, rest);
      TextSplits(v, Arrays, post + ArrayPass(rest));
      TextSplits(v, Arrays, post + out);
      PartBehind(post, ArrayPass(rest), out);
      PartBehind(JsTextOf(v, Arrays, ""), post + ArrayPass(rest), post + out);
      PartBehind(pre, JsTextOf(v, Arrays, post + ArrayPass(rest)), JsTextOf(v, Arrays, post + out));
    }
  }

  lemma CommaBreaks(rest: string, out: string)
    requires Part(ArrayPass(rest), out)
    ensures Part(ArrayPass([','] + rest), [','] + out)
  {
    hide ArrayPass;
    CopyNoN([','], rest);
    PartBehind([','], ArrayPass(rest), out);
  }

  lemma {:induction false} ItemsBreak(u: CharClass, items: Items, rest: string, out: string)
    requires u.Ascii() && ItemsOk(u, items)
    ensures !ItemsSafe(items, rest) ==> Part(ArrayPass(ItemsText(items, Page, rest)), ItemsText(items, Arrays, out))
    decreases items, 0
  {
    hide ArrayPass, JsTextOf, ArraySafe, JsOk, Part;
    match items
    case NoItems(_) =>
    case LastItem(pre, v, post) => ItemBreaks(u, pre, v, post, rest, out);
    case MoreItems(pre, v, post, more) =>
      var a, b := ItemsText(more, Page, rest), ItemsText(more, Arrays, out);
      if !ItemsSafe(more, rest) {
        ItemsBreak(u, more, rest, out);
        CommaBreaks(a, b);
      }
      ItemBreaks(u, pre, v, post, [','] + a, [','] + b);
  }

  lemma {:induction false} MemberBreaks(u: CharClass, m: Member, rest: string, out: string)
    requires u.Ascii() && MemberOk(u, m)
    ensures !MemberSafe(m, rest) || Part(ArrayPass(rest), out) ==>
              Part(ArrayPass(MemberText(m, Page, rest)), MemberText(m, Arrays, out))
    decreases m, 0
  {
    var x, y := m.mid + JsTextOf(m.v, Page, m.post + rest), m.mid + JsTextOf(m.v, Arrays, m.post + out);
    ItemBreaks(u, m.mid, m.v, m.post, rest, out);
    KeyBreaks(u, m.key, m.gap, x, y);
    Rewrite.WsHasNoN(m.pre);
    hide ArrayPass, KeyText, JsTextOf, ArraySafe, KeySafe, Part;
    var s, t := KeyText(m.key, Page, m.gap + ([':'] + x)), KeyText(m.key, Arrays, m.gap + ([':'] + y));
    CopyNoN(m.pre, s);
    if !MemberSafe(m, rest) || Part(ArrayPass(rest), out) {
      PartBehind(m.pre, ArrayPass(s), t);
    }
  }

  lemma KeyBreaks(u: CharClass, key: Key, gap: string, rest: string, out: string)
    requires u.Ascii() && KeyOk(u, key) && All(IsBlank, gap)
    ensures !KeySafe(key, gap + ([':'] + rest)) || Part(ArrayPass(rest), out) ==>
              Part(ArrayPass(KeyText(key, Page, gap + ([':'] + rest))), KeyText(key, Arrays, gap + ([':'] + out)))
  {
    hide ArrayPass, Undisturbed, NoHexIn, JsonBody, Part;
    if !KeySafe(key, gap + ([':'] + rest)) {
      LiteralBreaks(key.body, gap + ([':'] + rest), gap + ([':'] + out));
    } else if Part(ArrayPass(rest), out) {
      Rewrite.ArraysOfKey(u, key, gap, rest);
      PartBehindKey(key, gap, ArrayPass(rest), out);
    }
  }

  lemma PartBehindKey(key: Key, gap: string, a: string, b: string)
    requires Part(a, b)
    ensures Part(KeyText(key, Arrays, gap + ([':'] + a)), KeyText(key, Arrays, gap + ([':'] + b)))
  {
    hide Part;
    var s, t := gap + ([':'] + a), gap + ([':'] + b);
    PartBehind([':'], a, b);
    PartBehind(gap, [':'] + a, [':'] + b);
    match key
    case Bare(name) => PartBehind(name, s, t);
    case InQuotes(body) =>
      PartBehind(['"'], s, t);
      PartBehind(body, ['"'] + s, ['"'] + t);
      PartBehind(['"'], body + (['"'] + s), body + (['"'] + t));
  }

  lemma {:induction false} MembersBreak(u: CharClass, ms: Members, rest: string, out: string)
    requires u.Ascii() && MembersOk(u, ms)
    ensures !MembersSafe(ms, rest) ==> Part(ArrayPass(MembersText(ms, Page, rest)), MembersText(ms, Arrays, out))
    decreases ms, 0
  {
    hide ArrayPass, MemberText, MemberSafe, MemberOk, Part;
    match ms
    case NoMembers(_) =>
    case LastMember(m) => MemberBreaks(u, m, rest, out);
    case MoreMembers(m, more) =>
      var a, b := MembersText(more, Page, rest), MembersText(more, Arrays, out);
      if !MembersSafe(more, rest) {
        MembersBreak(u, more, rest, out);
        CommaBreaks(a, b);
      }
      MemberBreaks(u, m, [','] + a, [','] + b);
  }

  /** The first pass turns a literal into its bracketed form, whatever follows, exactly if it is safe there. */
  lemma ArraysOfValueIff(u: CharClass, v: Js, rest: string)
    requires u.Ascii() && JsOk(u, v)
    ensures ArrayPass(JsTextOf(v, Page, rest)) == JsTextOf(v, Arrays, ArrayPass(rest)) <==> ArraySafe(v, rest)
  {
    hide *;
    if ArraySafe(v, rest) {
      Rewrite.ArraysOfValue(u, v, rest);
    } else {
      ValueBreaks(u, v, rest, ArrayPass(rest));
      PartDiffer(ArrayPass(JsTextOf(v, Page, rest)), JsTextOf(v, Arrays, ArrayPass(rest)));
    }
  }
}
