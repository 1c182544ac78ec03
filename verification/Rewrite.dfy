/** `JSToJSON`: each pass takes a literal's text to its text at the next stage. */
module Rewrite {
  import opened JsText
  import opened Literals
  import opened Text
  import HexFixpoints
  import HexScan
  import KeyScan
  import NewArray

  // ------------------------------------------------- pass 1: array constructors

  lemma NoParenNoHead(w: string)
    requires '(' !in w
    ensures !NewArray.HasHead(w)
  {
    forall i | 0 <= i <= |w| ensures !NewArray.HeadAt(w[i..]) {
      assert |w[i..]| > 9 ==> w[i..][9] == w[i + 9];
    }
  }

  /** A head that begins in a string literal lies inside its body. */
  lemma HeadInBody(body: string, rest: string, i: nat)
    requires i < |body| + 2 && NewArray.HeadAt((['"'] + body + ['"'])[i..] + rest)
    ensures 1 <= i <= |body| && NewArray.HeadAt(body[i - 1..])
    ensures ((['"'] + body + ['"'])[i..] + rest)[10..] == body[i + 9..] + (['"'] + rest)
  {
    var lit := ['"'] + body + ['"'];
    var s := lit[i..] + rest;
    var n := |body| + 1 - i;
    assert s[n] == '"' && '"' !in NewArray.HEAD;
    assert s[0] == lit[i] && NewArray.HEAD[0] == 'n';
    assert n >= 10;
    assert body[i - 1..][..10] == s[..10];
  }

  lemma NoMatchInLiteral(body: string, rest: string)
    requires NewArray.Undisturbed(body, rest)
    ensures var lit := ['"'] + body + ['"'];
            forall i :: 0 <= i < |lit| ==> !NewArray.Matched(lit[i..] + rest)
  {
    hide NewArray.Matched, NewArray.HeadAt;
    var lit := ['"'] + body + ['"'];
    forall i | 0 <= i < |lit| ensures !NewArray.Matched(lit[i..] + rest) {
      NewArray.MatchedNeedsParen(lit[i..] + rest);
      if NewArray.HeadAt(lit[i..] + rest) {
        HeadInBody(body, rest, i);
      }
    }
  }

  lemma ArraysOfLiteral(body: string, rest: string)
    requires NewArray.Undisturbed(body, rest)
    ensures NewArray.ArrayPass(['"'] + (body + (['"'] + rest)))
            == ['"'] + (body + (['"'] + NewArray.ArrayPass(rest)))
  {
    hide *;
    var lit := ['"'] + body + ['"'];
    NoMatchInLiteral(body, rest);
    NewArray.CopyPlain(lit, rest);
    assert lit + rest == ['"'] + (body + (['"'] + rest));
    assert lit + NewArray.ArrayPass(rest) == ['"'] + (body + (['"'] + NewArray.ArrayPass(rest)));
  }

  lemma ArraysOfNull(rest: string)
    ensures NewArray.ArrayPass("null" + rest) == "null" + NewArray.ArrayPass(rest)
  {
    hide NewArray.ArrayPass;
    var t := "ull" + rest;
    assert ("n"[0..] + t)[1] == 'u' && NewArray.HEAD[1] == 'e';
    NewArray.CopyPlain("n", t);
    NewArray.CopyNoN("ull", rest);
    assert "null" + rest == "n" + t;
    assert "n" + ("ull" + NewArray.ArrayPass(rest)) == "null" + NewArray.ArrayPass(rest);
  }

  lemma NumeralHasNoN(n: Numeral, st: Stage)
    requires NumeralOk(n)
    ensures 'n' !in NumeralText(n, st)
  {
    match n
    case Decimal(d) => assert forall i :: 0 <= i < |d| ==> IsDigit(d[i]);
    case Hexadecimal(x, d) => assert forall i :: 0 <= i < |d| ==> IsHexDigit(d[i]);
  }

  lemma {:induction false} ArraysOfValue(u: CharClass, v: Js, rest: string)
    requires u.Ascii() && JsOk(u, v) && ArraySafe(v, rest)
    ensures NewArray.ArrayPass(JsTextOf(v, Page, rest)) == JsTextOf(v, Arrays, NewArray.ArrayPass(rest))
    decreases v, 0
  {
    hide NewArray.ArrayPass;
    match v
    case Num(neg, n) =>
      NumeralHasNoN(n, Page);
      NewArray.CopyNoN(if neg then ['-'] else [], NumeralText(n, Page) + rest);
      NewArray.CopyNoN(NumeralText(n, Page), rest);
    case Str(body) => ArraysOfLiteral(body, rest);
    case Word(name) =>
      if name == "null" { ArraysOfNull(rest); } else { NewArray.CopyNoN(name, rest); }
    case Arr(viaNew, items) =>
      if viaNew {
        ArraysOfConstructor(items, rest);
      } else {
        NewArray.CopyNoN(['['], ItemsText(items, Page, [']'] + rest));
        ArraysOfItems(u, items, [']'] + rest);
        NewArray.CopyNoN([']'], rest);
      }
    case Obj(ms) =>
      NewArray.CopyNoN(['{'], MembersText(ms, Page, ['}'] + rest));
      ArraysOfMembers(u, ms, ['}'] + rest);
      NewArray.CopyNoN(['}'], rest);
  }

  lemma ArraysOfConstructor(items: Items, rest: string)
    requires ')' !in ItemsText(items, Page, "")
    ensures NewArray.ArrayPass(NewArray.HEAD + ItemsText(items, Page, [')'] + rest))
            == ['['] + ItemsText(items, Arrays, [']'] + NewArray.ArrayPass(rest))
  {
    hide *;
    var t := NewArray.ArrayPass(rest);
    ItemsSplit(items, Page, [')'] + rest);
    NoParenIsFlatItems(items, "");
    NewArray.ReplaceArray(ItemsText(items, Page, ""), rest);
    ItemsSplit(items, Page, [']'] + t);
    FlatItemsSame(items, [']'] + t);
  }

  lemma WsHasNoN(ws: string)
    requires WsText(ws)
    ensures 'n' !in ws
  {
    assert forall i :: 0 <= i < |ws| ==> IsWs(ws[i]);
  }

  lemma {:induction false} ArraysOfItems(u: CharClass, items: Items, rest: string)
    requires u.Ascii() && ItemsOk(u, items) && ItemsSafe(items, rest)
    ensures NewArray.ArrayPass(ItemsText(items, Page, rest)) == ItemsText(items, Arrays, NewArray.ArrayPass(rest))
    decreases items, 0
  {
    hide NewArray.ArrayPass;
    match items
    case NoItems(ws) =>
      WsHasNoN(ws);
      NewArray.CopyNoN(ws, rest);
    case LastItem(pre, v, post) =>
      ArraysOfItem(u, pre, v, post, rest);
    case MoreItems(pre, v, post, more) =>
      ArraysOfItem(u, pre, v, post, [','] + ItemsText(more, Page, rest));
      NewArray.CopyNoN([','], ItemsText(more, Page, rest));
      ArraysOfItems(u, more, rest);
  }

  lemma {:induction false} ArraysOfItem(u: CharClass, pre: string, v: Js, post: string, rest: string)
    requires u.Ascii() && WsText(pre) && JsOk(u, v) && WsText(post) && ArraySafe(v, post + rest)
    ensures NewArray.ArrayPass(pre + JsTextOf(v, Page, post + rest))
            == pre + JsTextOf(v, Arrays, post + NewArray.ArrayPass(rest))
    decreases v, 1
  {
    hide *;
    WsHasNoN(pre);
    WsHasNoN(post);
    NewArray.CopyNoN(pre, JsTextOf(v, Page, post + rest));
    ArraysOfValue(u, v, post + rest);
    NewArray.CopyNoN(post, rest);
  }

  lemma ArraysOfKey(u: CharClass, key: Key, gap: string, rest: string)
    requires u.Ascii() && KeyOk(u, key) && All(IsBlank, gap)
    requires KeySafe(key, gap + ([':'] + rest))
    ensures NewArray.ArrayPass(KeyText(key, Page, gap + ([':'] + rest)))
            == KeyText(key, Arrays, gap + ([':'] + NewArray.ArrayPass(rest)))
  {
    hide NewArray.ArrayPass, NewArray.HasHead;
    var t := NewArray.ArrayPass(rest);
    assert forall i :: 0 <= i < |gap| ==> IsBlank(gap[i]);
    match key
    case Bare(name) =>
      assert forall i :: 0 <= i < |name| ==> u.IdentPart(name[i]);
      NoParenNoHead(name + gap);
      assert ':' !in NewArray.HEAD;
      NewArray.CopyStopped(name + gap, ':', rest);
      assert name + (gap + ([':'] + rest)) == (name + gap) + ([':'] + rest);
      assert name + (gap + ([':'] + t)) == (name + gap) + ([':'] + t);
    case InQuotes(body) =>
      ArraysOfLiteral(body, gap + ([':'] + rest));
      NewArray.CopyNoN(gap, [':'] + rest);
      NewArray.CopyNoN([':'], rest);
  }

  lemma {:induction false} ArraysOfMember(u: CharClass, m: Member, rest: string)
    requires u.Ascii() && MemberOk(u, m) && MemberSafe(m, rest)
    ensures NewArray.ArrayPass(MemberText(m, Page, rest)) == MemberText(m, Arrays, NewArray.ArrayPass(rest))
    decreases m, 0
  {
    hide NewArray.ArrayPass, NewArray.HasHead, KeyText, JsTextOf;
    var x := m.mid + JsTextOf(m.v, Page, m.post + rest);
    WsHasNoN(m.pre);
    NewArray.CopyNoN(m.pre, KeyText(m.key, Page, m.gap + ([':'] + x)));
    ArraysOfKey(u, m.key, m.gap, x);
    ArraysOfItem(u, m.mid, m.v, m.post, rest);
  }

  lemma {:induction false} ArraysOfMembers(u: CharClass, ms: Members, rest: string)
    requires u.Ascii() && MembersOk(u, ms) && MembersSafe(ms, rest)
    ensures NewArray.ArrayPass(MembersText(ms, Page, rest)) == MembersText(ms, Arrays, NewArray.ArrayPass(rest))
    decreases ms, 0
  {
    hide NewArray.ArrayPass;
    match ms
    case NoMembers(ws) =>
      WsHasNoN(ws);
      NewArray.CopyNoN(ws, rest);
    case LastMember(m) => ArraysOfMember(u, m, rest);
    case MoreMembers(m, more) =>
      ArraysOfMember(u, m, [','] + MembersText(more, Page, rest));
      NewArray.CopyNoN([','], MembersText(more, Page, rest));
      ArraysOfMembers(u, more, rest);
  }

  // ------------------------------------------------ pass 2: hexadecimal numbers

  /** Text without zeros and quotes is plain for the scanner. */
  lemma CopyNoZero(w: string, rest: string)
    requires '0' !in w && '"' !in w
    ensures HexScan.HexPass(w + rest) == w + HexScan.HexPass(rest)
  {
    hide HexScan.HexPass;
    forall i | 0 <= i < |w| ensures w[i] != '"' && !HexScan.Convertible(w[i..] + rest) {
      assert (w[i..] + rest)[0] == w[i];
    }
    HexScan.CopyPlain(w, rest);
  }

  lemma WsHasNoZero(ws: string)
    requires WsText(ws)
    ensures '0' !in ws && '"' !in ws
  {
    assert forall i :: 0 <= i < |ws| ==> IsWs(ws[i]);
  }

  lemma HexOfLiteral(body: string, rest: string)
    requires JsonBody(body)
    ensures HexScan.HexPass(['"'] + (body + (['"'] + rest))) == ['"'] + (body + (['"'] + HexScan.HexPass(rest)))
  {
    hide *;
    var lit := InQuotesText(body);
    BodyIsLiteral(body, rest == []);
    HexScan.CopyLiteral(lit, rest);
    QuotesRegroup(body, rest);
    QuotesRegroup(body, HexScan.HexPass(rest));
  }

  lemma AfterValueStops(rest: string)
    requires AfterValue(rest)
    ensures !StartsWith(IsHexDigit, rest) && !StartsWith(HexScan.IsX, rest)
  {
  }

  lemma HexOfNumeral(n: Numeral, rest: string)
    requires NumeralOk(n) && AfterValue(rest)
    ensures HexScan.HexPass(NumeralText(n, Arrays) + rest) == NumeralText(n, Numbers) + HexScan.HexPass(rest)
  {
    AfterValueStops(rest);
    hide HexScan.HexPass;
    match n
    case Decimal(d) => HexScan.CopyDecimal(d, rest);
    case Hexadecimal(x, d) => HexScan.ConvertHex(x, d, rest);
  }

  lemma HexOfName(name: string, rest: string)
    requires '"' !in name && NoHexIn(name)
    requires !StartsWith(HexScan.IsX, rest) && !StartsWith(IsHexDigit, rest)
    ensures HexScan.HexPass(name + rest) == name + HexScan.HexPass(rest)
  {
    hide HexScan.HexPass, HexScan.Convertible;
    HexFixpoints.TextKeptIff(name, rest);
  }

  lemma {:induction false} HexOfValue(u: CharClass, v: Js, rest: string)
    requires u.Ascii() && JsOk(u, v) && AfterValue(rest)
    ensures HexScan.HexPass(JsTextOf(v, Arrays, rest)) == JsTextOf(v, Numbers, HexScan.HexPass(rest))
    decreases v, 0
  {
    hide HexScan.HexPass;
    match v
    case Num(neg, n) =>
      CopyNoZero(if neg then ['-'] else [], NumeralText(n, Arrays) + rest);
      HexOfNumeral(n, rest);
    case Str(body) => HexOfLiteral(body, rest);
    case Word(name) => CopyNoZero(name, rest);
    case Arr(_, items) =>
      CopyNoZero(['['], ItemsText(items, Arrays, [']'] + rest));
      HexOfItems(u, items, [']'] + rest);
      CopyNoZero([']'], rest);
    case Obj(ms) =>
      CopyNoZero(['{'], MembersText(ms, Arrays, ['}'] + rest));
      HexOfMembers(u, ms, ['}'] + rest);
      CopyNoZero(['}'], rest);
  }

  lemma {:induction false} HexOfItem(u: CharClass, pre: string, v: Js, post: string, rest: string)
    requires u.Ascii() && WsText(pre) && JsOk(u, v) && WsText(post) && AfterValue(rest)
    ensures HexScan.HexPass(pre + JsTextOf(v, Arrays, post + rest))
            == pre + JsTextOf(v, Numbers, post + HexScan.HexPass(rest))
    decreases v, 1
  {
    hide *;
    WsHasNoZero(pre);
    WsHasNoZero(post);
    AfterWs(post, rest);
    CopyNoZero(pre, JsTextOf(v, Arrays, post + rest));
    HexOfValue(u, v, post + rest);
    CopyNoZero(post, rest);
  }

  lemma {:induction false} HexOfItems(u: CharClass, items: Items, rest: string)
    requires u.Ascii() && ItemsOk(u, items) && AfterValue(rest)
    ensures HexScan.HexPass(ItemsText(items, Arrays, rest)) == ItemsText(items, Numbers, HexScan.HexPass(rest))
    decreases items, 0
  {
    hide HexScan.HexPass;
    match items
    case NoItems(ws) =>
      WsHasNoZero(ws);
      CopyNoZero(ws, rest);
    case LastItem(pre, v, post) => HexOfItem(u, pre, v, post, rest);
    case MoreItems(pre, v, post, more) =>
      HexOfItem(u, pre, v, post, [','] + ItemsText(more, Arrays, rest));
      CopyNoZero([','], ItemsText(more, Arrays, rest));
      HexOfItems(u, more, rest);
  }

  lemma HexOfKey(u: CharClass, key: Key, gap: string, rest: string)
    requires u.Ascii() && KeyOk(u, key) && All(IsBlank, gap)
    ensures HexScan.HexPass(KeyText(key, Arrays, gap + ([':'] + rest)))
            == KeyText(key, Numbers, gap + ([':'] + HexScan.HexPass(rest)))
  {
    hide HexScan.HexPass;
    assert forall i :: 0 <= i < |gap| ==> IsBlank(gap[i]);
    CopyNoZero(gap, [':'] + rest);
    CopyNoZero([':'], rest);
    match key
    case Bare(name) =>
      assert forall i :: 0 <= i < |name| ==> u.IdentPart(name[i]);
      var t := gap + ([':'] + rest);
      assert t[0] == ':' || IsBlank(t[0]);
      HexOfName(name, t);
    case InQuotes(body) => HexOfLiteral(body, gap + ([':'] + rest));
  }

  lemma {:induction false} HexOfMember(u: CharClass, m: Member, rest: string)
    requires u.Ascii() && MemberOk(u, m) && AfterValue(rest)
    ensures HexScan.HexPass(MemberText(m, Arrays, rest)) == MemberText(m, Numbers, HexScan.HexPass(rest))
    decreases m, 0
  {
    hide HexScan.HexPass, KeyText, JsTextOf;
    var x := m.mid + JsTextOf(m.v, Arrays, m.post + rest);
    WsHasNoZero(m.pre);
    CopyNoZero(m.pre, KeyText(m.key, Arrays, m.gap + ([':'] + x)));
    HexOfKey(u, m.key, m.gap, x);
    HexOfItem(u, m.mid, m.v, m.post, rest);
  }

  lemma {:induction false} HexOfMembers(u: CharClass, ms: Members, rest: string)
    requires u.Ascii() && MembersOk(u, ms) && AfterValue(rest)
    ensures HexScan.HexPass(MembersText(ms, Arrays, rest)) == MembersText(ms, Numbers, HexScan.HexPass(rest))
    decreases ms, 0
  {
    hide HexScan.HexPass;
    match ms
    case NoMembers(ws) =>
      WsHasNoZero(ws);
      CopyNoZero(ws, rest);
    case LastMember(m) => HexOfMember(u, m, rest);
    case MoreMembers(m, more) =>
      HexOfMember(u, m, [','] + MembersText(more, Arrays, rest));
      CopyNoZero([','], MembersText(more, Arrays, rest));
      HexOfMembers(u, more, rest);
  }

  // ---------------------------------------------------------- pass 3: bare keys

  /** Text in which no identifier and no literal starts. */
  lemma CopyNoIdent(u: CharClass, w: string, rest: string)
    requires forall i :: 0 <= i < |w| ==> w[i] != '"' && !u.IdentStart(w[i])
    ensures KeyScan.KeyPass(u, w + rest) == w + KeyScan.KeyPass(u, rest)
  {
    hide KeyScan.KeyPass;
    forall i | 0 <= i < |w| ensures w[i] != '"' && !KeyScan.KeyAt(u, w[i..] + rest) {
      assert (w[i..] + rest)[0] == w[i];
    }
    KeyScan.CopyPlain(u, w, rest);
  }

  lemma WsHasNoIdent(u: CharClass, ws: string)
    requires u.Ascii() && WsText(ws)
    ensures forall i :: 0 <= i < |ws| ==> ws[i] != '"' && !u.IdentStart(ws[i])
  {
    assert forall i :: 0 <= i < |ws| ==> IsWs(ws[i]);
  }

  lemma KeysOfLiteral(u: CharClass, body: string, rest: string)
    requires JsonBody(body)
    ensures KeyScan.KeyPass(u, ['"'] + (body + (['"'] + rest)))
            == ['"'] + (body + (['"'] + KeyScan.KeyPass(u, rest)))
  {
    hide *;
    var lit := InQuotesText(body);
    BodyIsLiteral(body, rest == []);
    KeyScan.CopyLiteral(u, lit, rest);
    QuotesRegroup(body, rest);
    QuotesRegroup(body, KeyScan.KeyPass(u, rest));
  }

  /** Nothing that can follow a value makes the value a key. */
  lemma {:induction false} AfterValueEnds(u: CharClass, rest: string)
    requires u.Ascii() && AfterValue(rest)
    ensures var g := Run(IsBlank, rest);
            && All(IsBlank, rest[..g])
            && KeyScan.Ends(u, rest[..g], rest[g..])
            && (rest[g..] != [] ==> rest[g..][0] != ':' && !u.IdentPart(rest[g..][0]))
  {
    RunAll(IsBlank, rest);
    if rest != [] && IsBlank(rest[0]) {
      AfterValueEnds(u, rest[1..]);
      var g := Run(IsBlank, rest);
      assert rest[1..][g - 1..] == rest[g..];
    }
  }

  lemma KeysOfWord(u: CharClass, name: string, rest: string)
    requires u.Ascii() && All(u.IdentPart, name) && AfterValue(rest)
    ensures KeyScan.KeyPass(u, name + rest) == name + KeyScan.KeyPass(u, rest)
  {
    hide KeyScan.KeyPass, AfterValue, KeyScan.Ends;
    AfterValueEnds(u, rest);
    var g := Run(IsBlank, rest);
    var gap, tail := rest[..g], rest[g..];
    assert rest == gap + tail;
    KeyScan.CopyName(u, name, gap, tail);
  }

  lemma NumeralIsNoIdent(u: CharClass, n: Numeral)
    requires u.Ascii() && NumeralOk(n)
    ensures var t := NumeralText(n, Numbers);
            t == NumeralText(n, Json) && forall i :: 0 <= i < |t| ==> t[i] != '"' && !u.IdentStart(t[i])
  {
    var t := NumeralText(n, Numbers);
    assert All(IsDigit, t);
    assert forall i :: 0 <= i < |t| ==> IsDigit(t[i]);
  }

  lemma {:induction false} KeysOfValue(u: CharClass, v: Js, rest: string)
    requires u.Ascii() && JsOk(u, v) && AfterValue(rest)
    ensures KeyScan.KeyPass(u, JsTextOf(v, Numbers, rest)) == JsTextOf(v, Json, KeyScan.KeyPass(u, rest))
    decreases v, 0
  {
    hide KeyScan.KeyPass;
    match v
    case Num(neg, n) =>
      CopyNoIdent(u, if neg then ['-'] else [], NumeralText(n, Numbers) + rest);
      NumeralIsNoIdent(u, n);
      CopyNoIdent(u, NumeralText(n, Numbers), rest);
    case Str(body) => KeysOfLiteral(u, body, rest);
    case Word(name) =>
      assert All(u.IdentPart, name);
      KeysOfWord(u, name, rest);
    case Arr(_, items) =>
      CopyNoIdent(u, ['['], ItemsText(items, Numbers, [']'] + rest));
      KeysOfItems(u, items, [']'] + rest);
      CopyNoIdent(u, [']'], rest);
    case Obj(ms) =>
      CopyNoIdent(u, ['{'], MembersText(ms, Numbers, ['}'] + rest));
      KeysOfMembers(u, ms, ['}'] + rest);
      CopyNoIdent(u, ['}'], rest);
  }

  lemma {:induction false} KeysOfItem(u: CharClass, pre: string, v: Js, post: string, rest: string)
    requires u.Ascii() && WsText(pre) && JsOk(u, v) && WsText(post) && AfterValue(rest)
    ensures KeyScan.KeyPass(u, pre + JsTextOf(v, Numbers, post + rest))
            == pre + JsTextOf(v, Json, post + KeyScan.KeyPass(u, rest))
    decreases v, 1
  {
    hide *;
    WsHasNoIdent(u, pre);
    WsHasNoIdent(u, post);
    AfterWs(post, rest);
    CopyNoIdent(u, pre, JsTextOf(v, Numbers, post + rest));
    KeysOfValue(u, v, post + rest);
    CopyNoIdent(u, post, rest);
  }

  lemma {:induction false} KeysOfItems(u: CharClass, items: Items, rest: string)
    requires u.Ascii() && ItemsOk(u, items) && AfterValue(rest)
    ensures KeyScan.KeyPass(u, ItemsText(items, Numbers, rest)) == ItemsText(items, Json, KeyScan.KeyPass(u, rest))
    decreases items, 0
  {
    hide KeyScan.KeyPass;
    match items
    case NoItems(ws) =>
      WsHasNoIdent(u, ws);
      CopyNoIdent(u, ws, rest);
    case LastItem(pre, v, post) => KeysOfItem(u, pre, v, post, rest);
    case MoreItems(pre, v, post, more) =>
      KeysOfItem(u, pre, v, post, [','] + ItemsText(more, Numbers, rest));
      CopyNoIdent(u, [','], ItemsText(more, Numbers, rest));
      KeysOfItems(u, more, rest);
  }

  lemma KeysOfKey(u: CharClass, key: Key, gap: string, rest: string)
    requires u.Ascii() && KeyOk(u, key) && All(IsBlank, gap)
    requires !(rest != [] && rest[0] == ':')
    ensures KeyScan.KeyPass(u, KeyText(key, Numbers, gap + ([':'] + rest)))
            == KeyText(key, Json, gap + ([':'] + KeyScan.KeyPass(u, rest)))
  {
    hide KeyScan.KeyPass, JsonBody, NoHexIn;
    var t := KeyScan.KeyPass(u, rest);
    match key
    case Bare(name) =>
      KeyScan.QuoteKey(u, name, gap, rest);
      assert name + (gap + ([':'] + rest)) == name + gap + [':'] + rest;
      assert KeyScan.QuotedKey(name, gap) + t == ['"'] + (name + (['"'] + (gap + ([':'] + t))));
    case InQuotes(body) =>
      assert forall i :: 0 <= i < |gap| ==> IsBlank(gap[i]);
      KeysOfLiteral(u, body, gap + ([':'] + rest));
      CopyNoIdent(u, gap, [':'] + rest);
      CopyNoIdent(u, [':'], rest);
  }

  lemma NoColonFirst(u: CharClass, mid: string, v: Js, st: Stage, rest: string)
    requires WsText(mid) && JsOk(u, v)
    ensures var t := mid + JsTextOf(v, st, rest);
            !(t != [] && t[0] == ':')
  {
    FirstOfText(u, v, st, rest);
    hide JsTextOf, JsOk;
    assert mid != [] ==> IsWs(mid[0]);
  }

  lemma {:induction false} KeysOfMember(u: CharClass, m: Member, rest: string)
    requires u.Ascii() && MemberOk(u, m) && AfterValue(rest)
    ensures KeyScan.KeyPass(u, MemberText(m, Numbers, rest)) == MemberText(m, Json, KeyScan.KeyPass(u, rest))
    decreases m, 0
  {
    hide KeyScan.KeyPass, KeyText, JsTextOf;
    var x := m.mid + JsTextOf(m.v, Numbers, m.post + rest);
    WsHasNoIdent(u, m.pre);
    CopyNoIdent(u, m.pre, KeyText(m.key, Numbers, m.gap + ([':'] + x)));
    NoColonFirst(u, m.mid, m.v, Numbers, m.post + rest);
    KeysOfKey(u, m.key, m.gap, x);
    KeysOfItem(u, m.mid, m.v, m.post, rest);
  }

  lemma {:induction false} KeysOfMembers(u: CharClass, ms: Members, rest: string)
    requires u.Ascii() && MembersOk(u, ms) && AfterValue(rest)
    ensures KeyScan.KeyPass(u, MembersText(ms, Numbers, rest)) == MembersText(ms, Json, KeyScan.KeyPass(u, rest))
    decreases ms, 0
  {
    hide KeyScan.KeyPass;
    match ms
    case NoMembers(ws) =>
      WsHasNoIdent(u, ws);
      CopyNoIdent(u, ws, rest);
    case LastMember(m) => KeysOfMember(u, m, rest);
    case MoreMembers(m, more) =>
      KeysOfMember(u, m, [','] + MembersText(more, Numbers, rest));
      CopyNoIdent(u, [','], MembersText(more, Numbers, rest));
      KeysOfMembers(u, more, rest);
  }
}
