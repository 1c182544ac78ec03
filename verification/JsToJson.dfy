/** `JSToJSON` as a whole, and what it preserves. */
module JsToJson {
  import opened JsText
  import opened Meaning
  import opened Text
  import opened Wrappers
  import HexScan
  import KeyScan
  import NewArray
  import Rewrite

  /** `unicode.IsSpace`. */
  predicate IsSpace(c: char) {
    var n := c as int;
    (9 <= n <= 13) || n == 0x20 || n == 0x85 || n == 0xA0 || n == 0x1680 || (0x2000 <= n <= 0x200a)
    || n == 0x2028 || n == 0x2029 || n == 0x202f || n == 0x205f || n == 0x3000
  }

  function TrimRight(s: string): (t: string)
    ensures |t| <= |s|
  {
    if s != [] && IsSpace(s[|s| - 1]) then TrimRight(s[..|s| - 1]) else s
  }

  function TrimSpace(s: string): string {
    TrimRight(s[Run(IsSpace, s)..])
  }

  function Rewritten(u: CharClass, js: string): string {
    KeyScan.KeyPass(u, HexScan.HexPass(NewArray.ArrayPass(TrimSpace(js))))
  }

  method JSToJSON(u: CharClass, js: string) returns (s: string)
    ensures s == Rewritten(u, js)
  {
    s := TrimSpace(js);
    s := NewArray.ArrayPass(s);
    s := HexScan.ConvertHexOutsideStrings(s);
    s := KeyScan.QuoteUnquotedKeys(u, s);
  }

  lemma {:induction false} TrimRightOf(s: string, trail: string)
    requires s != [] && !IsSpace(s[|s| - 1]) && All(IsSpace, trail)
    ensures TrimRight(s + trail) == s
  {
    if trail == [] {
      assert s + trail == s;
    } else {
      var n := |s + trail| - 1;
      assert (s + trail)[n] == trail[|trail| - 1];
      assert (s + trail)[..n] == s + trail[..|trail| - 1];
      TrimRightOf(s, trail[..|trail| - 1]);
    }
  }

  lemma Trims(lead: string, s: string, trail: string)
    requires s != [] && !IsSpace(s[0]) && !IsSpace(s[|s| - 1])
    requires All(IsSpace, lead) && All(IsSpace, trail)
    ensures TrimSpace(lead + (s + trail)) == s
  {
    RunIs(IsSpace, lead, s + trail);
    assert (lead + (s + trail))[|lead|..] == s + trail;
    TrimRightOf(s, trail);
  }

  lemma NumeralEnds(n: Numeral)
    requires NumeralOk(n)
    ensures var d := NumeralText(n, Page); d != [] && !IsSpace(d[0]) && !IsSpace(d[|d| - 1])
  {
    match n
    case Decimal(d) => assert IsDigit(d[|d| - 1]) && IsDigit(d[0]);
    case Hexadecimal(_, d) => assert IsHexDigit(d[|d| - 1]);
  }

  predicate NoSpaceEnds(t: string) {
    t != [] && !IsSpace(t[0]) && !IsSpace(t[|t| - 1])
  }

  lemma NumEnds(neg: bool, n: Numeral)
    requires NumeralOk(n)
    ensures NoSpaceEnds(JsTextOf(Num(neg, n), Page, ""))
  {
    NumeralEnds(n);
    hide NumeralText, NumeralOk;
    var d := NumeralText(n, Page);
    var t := (if neg then ['-'] else []) + d;
    assert JsTextOf(Num(neg, n), Page, "") == t;
    assert t[|t| - 1] == d[|d| - 1];
  }

  lemma StrEnds(body: string)
    ensures NoSpaceEnds(JsTextOf(Str(body), Page, ""))
  {
    var t := ['"'] + (body + ['"']);
    assert JsTextOf(Str(body), Page, "") == t;
    assert t[|t| - 1] == '"';
  }

  lemma ArrEnds(viaNew: bool, items: Items)
    ensures NoSpaceEnds(JsTextOf(Arr(viaNew, items), Page, ""))
  {
    var open := if viaNew then NewArray.HEAD else ['['];
    var close := if viaNew then [')'] else [']'];
    ItemsSplit(items, Page, close);
    hide ItemsText;
    var t := open + (ItemsText(items, Page, "") + close);
    assert close + "" == close;
    assert JsTextOf(Arr(viaNew, items), Page, "") == t;
    assert t[|t| - 1] == close[0] && t[0] == open[0];
    assert NewArray.HEAD[0] == 'n';
  }

  lemma WordText(name: string)
    ensures JsTextOf(Word(name), Page, "") == name
  {
    assert name + "" == name;
  }

  lemma ObjEnds(ms: Members)
    ensures NoSpaceEnds(JsTextOf(Obj(ms), Page, ""))
  {
    MembersSplit(ms, Page, ['}']);
    hide MembersText;
    var t := ['{'] + (MembersText(ms, Page, "") + ['}']);
    assert ['}'] + "" == ['}'];
    assert JsTextOf(Obj(ms), Page, "") == t;
    assert t[|t| - 1] == '}';
  }

  /** No value text begins or ends in a space. */
  lemma TextEnds(u: CharClass, v: Js)
    requires u.Ascii() && JsOk(u, v)
    ensures NoSpaceEnds(JsTextOf(v, Page, ""))
  {
    hide JsTextOf;
    match v
    case Num(neg, n) => NumEnds(neg, n);
    case Str(body) => StrEnds(body);
    case Word(name) => WordText(name);
    case Arr(viaNew, items) => ArrEnds(viaNew, items);
    case Obj(ms) => ObjEnds(ms);
  }

  /** The rewrite is the JSON spelling of the same literal, layout included. */
  lemma RewritesText(u: CharClass, v: Js, lead: string, trail: string)
    requires u.Ascii() && JsOk(u, v) && ArraySafe(v, "")
    requires All(IsSpace, lead) && All(IsSpace, trail)
    ensures Rewritten(u, lead + (JsTextOf(v, Page, "") + trail)) == JsTextOf(v, Json, "")
  {
    TextEnds(u, v);
    Trims(lead, JsTextOf(v, Page, ""), trail);
    Rewrite.ArraysOfValue(u, v, "");
    Rewrite.HexOfValue(u, v, "");
    Rewrite.KeysOfValue(u, v, "");
  }

  lemma {:induction false} WsIsSpace(ws: string)
    requires WsText(ws)
    ensures All(IsSpace, ws)
  {
    assert forall i :: 0 <= i < |ws| ==> IsWs(ws[i]);
  }

  lemma AfterTrail(trail: string)
    requires WsText(trail)
    ensures AfterValue(trail) && SkipWs(trail) == []
  {
    AfterWs(trail, "");
    assert trail + "" == trail;
    SkipsWs(trail, "");
  }

  lemma PageReads(u: CharClass, v: Js, lead: string, trail: string)
    requires u.Ascii() && JsOk(u, v) && WsText(lead) && WsText(trail)
    ensures Parse(PageScript(u), lead + (JsTextOf(v, Page, "") + trail)) == Some(ValueOf(v))
  {
    hide ParseValue, JsTextOf, JsOk, ValueOf, SkipWs;
    var d, t := PageScript(u), JsTextOf(v, Page, "");
    TextSplits(v, Page, trail);
    AfterTrail(trail);
    ParsesValue(d, u, v, Page, trail);
    TextOpens(u, v, Page, trail);
    SkipsWs(lead, t + trail);
    SkipsWs("", t + trail);
    assert "" + (t + trail) == t + trail;
    SameSkip(d, lead + (t + trail), t + trail);
  }

  lemma JsonReads(u: CharClass, v: Js)
    requires u.Ascii() && JsOk(u, v)
    ensures Parse(StrictJson, JsTextOf(v, Json, "")) == Some(ValueOf(v))
  {
    hide ParseValue, JsTextOf, JsOk, ValueOf, SkipWs;
    AfterTrail("");
    ParsesValue(StrictJson, u, v, Json, "");
  }

  /** Meaning preservation: the page's reading of a literal is the JSON reading of its rewrite. */
  lemma MeaningPreserved(u: CharClass, v: Js, lead: string, trail: string)
    requires u.Ascii() && JsOk(u, v) && ArraySafe(v, "") && WsText(lead) && WsText(trail)
    ensures var page := lead + (JsTextOf(v, Page, "") + trail);
            && Parse(PageScript(u), page) == Some(ValueOf(v))
            && Parse(StrictJson, Rewritten(u, page)) == Some(ValueOf(v))
  {
    hide Parse, JsTextOf, JsOk, ArraySafe, Rewritten, ValueOf;
    WsIsSpace(lead);
    WsIsSpace(trail);
    PageReads(u, v, lead, trail);
    RewritesText(u, v, lead, trail);
    JsonReads(u, v);
  }

  // ------------------------------------------ why the side conditions are there

  /** A nested constructor is closed at the inner parenthesis, and its own head stays. */
  lemma NestedConstructor(inner: string, rest: string)
    requires ')' !in inner
    ensures NewArray.ArrayPass(NewArray.HEAD + ((NewArray.HEAD + inner) + ([')'] + rest)))
            == ['['] + ((NewArray.HEAD + inner) + ([']'] + NewArray.ArrayPass(rest)))
  {
    hide NewArray.ArrayPass;
    assert ')' !in NewArray.HEAD;
    NewArray.ReplaceArray(NewArray.HEAD + inner, rest);
  }

  lemma ArraysOfStrings()
    ensures NewArray.ArrayPass("[\"new Array(\",\")\"]") == "[\"[\",\"]\"]"
  {
    var pre, body, post := "[\"", "\",\"", "\"]";
    hide NewArray.ArrayPass;
    NewArray.CopyNoN(pre, NewArray.HEAD + (body + ([')'] + post)));
    NewArray.ReplaceArray(body, post);
    NewArray.CopyNoN(post, "");
    assert post + "" == post && NewArray.ArrayPass("") == "" by { NewArray.NoMatchNoChange(""); }
    assert pre + (NewArray.HEAD + (body + ([')'] + post))) == "[\"new Array(\",\")\"]";
    assert pre + (['['] + (body + ([']'] + post))) == "[\"[\",\"]\"]";
  }

  /** Two strings, each a bracket. */
  const BRACKETS := Arr(false, MoreItems("", Str("["), "", LastItem("", Str("]"), "")))

  lemma BracketText(c: char, st: Stage, rest: string)
    ensures "" + JsTextOf(Str([c]), st, "" + rest) == ['"', c, '"'] + rest
  {
    assert "" + rest == rest;
  }

  lemma BracketsText(u: CharClass, st: Stage)
    ensures JsOk(u, BRACKETS) && JsTextOf(BRACKETS, st, "") == "[\"[\",\"]\"]"
  {
    BracketsOk(u);
    var last := LastItem("", Str("]"), "");
    var t := ItemsText(last, st, [']'] + "");
    OneItem("", Str("]"), "", st, [']'] + "");
    ManyItems("", Str("["), "", last, st, [']'] + "");
    assert JsTextOf(BRACKETS, st, "") == ['['] + ItemsText(MoreItems("", Str("["), "", last), st, [']'] + "");
    hide *;
    BracketText(']', st, [']'] + "");
    BracketText('[', st, [','] + t);
  }

  lemma BracketsOk(u: CharClass)
    ensures JsOk(u, BRACKETS)
  {
    assert "["[1..] == "" && "]"[1..] == "";
    assert JsonBody("[") && JsonBody("]");
    assert JsOk(u, Str("[")) && ItemsOk(u, LastItem("", Str("]"), ""));
    assert ItemsOk(u, BRACKETS.items);
  }

  lemma OneItem(pre: string, v: Js, post: string, st: Stage, rest: string)
    ensures ItemsText(LastItem(pre, v, post), st, rest) == pre + JsTextOf(v, st, post + rest)
  {
    hide JsTextOf;
  }

  lemma ManyItems(pre: string, v: Js, post: string, more: Items, st: Stage, rest: string)
    ensures ItemsText(MoreItems(pre, v, post, more), st, rest)
            == pre + JsTextOf(v, st, post + ([','] + ItemsText(more, st, rest)))
  {
    hide JsTextOf;
  }

  lemma ConstructorText()
    ensures var js := "[\"new Array(\",\")\"]"; NoSpaceEnds(js) && "" + (js + "") == js
    ensures All(IsSpace, "") && AfterValue("")
  {
  }

  /** The text of a constructor inside strings is rewritten: two strings change. */
  lemma ConstructorInStrings(u: CharClass)
    requires u.Ascii()
    ensures Rewritten(u, "[\"new Array(\",\")\"]") == "[\"[\",\"]\"]"
  {
    hide *;
    var js := "[\"new Array(\",\")\"]";
    ConstructorText();
    TrimsTo(u, js);
    ArraysOfStrings();
    BracketsText(u, Arrays);
    BracketsText(u, Numbers);
    BracketsText(u, Json);
    PassesOfEmpty(u);
    Rewrite.HexOfValue(u, BRACKETS, "");
    Rewrite.KeysOfValue(u, BRACKETS, "");
  }

  lemma TrimsTo(u: CharClass, js: string)
    requires NoSpaceEnds(js)
    ensures Rewritten(u, js) == KeyScan.KeyPass(u, HexScan.HexPass(NewArray.ArrayPass(js)))
  {
    hide NewArray.ArrayPass, HexScan.HexPass, KeyScan.KeyPass, TrimSpace;
    Trims("", js, "");
    assert "" + (js + "") == js;
  }

  lemma PassesOfEmpty(u: CharClass)
    ensures NewArray.ArrayPass("") == "" && HexScan.HexPass("") == "" && KeyScan.KeyPass(u, "") == ""
  {
  }

  lemma HexOfKey()
    ensures HexScan.HexPass("{a0x1:2}") == "{a1:2}"
  {
    PassesOfEmpty(CharClass(c => false, c => false));
    hide HexScan.HexPass;
    HexScan.OneDigit('1');
    Rewrite.CopyNoZero(":2}", "");
    assert ":2}" + "" == ":2}";
    HexScan.ConvertHex('x', "1", ":2}");
    Rewrite.CopyNoZero("{a", ['0', 'x'] + "1" + ":2}");
    assert Dec(1) == "1";
    assert "{a" + (['0', 'x'] + "1" + ":2}") == "{a0x1:2}" && "{a" + ("1" + ":2}") == "{a1:2}";
  }

  lemma KeysOfKey(u: CharClass)
    requires u.Ascii()
    ensures KeyScan.KeyPass(u, "{a1:2}") == "{\"a1\":2}"
  {
    PassesOfEmpty(u);
    hide KeyScan.KeyPass;
    Rewrite.CopyNoIdent(u, "2}", "");
    assert "2}" + "" == "2}";
    KeyScan.QuoteKey(u, "a1", "", "2}");
    Rewrite.CopyNoIdent(u, "{", "a1:2}");
    assert "a1" + "" + [':'] + "2}" == "a1:2}" && "{" + "a1:2}" == "{a1:2}";
    assert "{" + (KeyScan.QuotedKey("a1", "") + "2}") == "{\"a1\":2}";
  }

  /** A hexadecimal literal inside a bare key is converted: the key changes its name. */
  lemma HexInKey(u: CharClass)
    requires u.Ascii()
    ensures Rewritten(u, "{a0x1:2}") == "{\"a1\":2}"
  {
    var js := "{a0x1:2}";
    assert NoSpaceEnds(js) && 'n' !in js && js + "" == js;
    hide *;
    HexOfKey();
    KeysOfKey(u);
    PassesOfEmpty(u);
    TrimsTo(u, js);
    NewArray.CopyNoN(js, "");
  }
}
