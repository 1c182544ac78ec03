/** What a literal means, read by one recursive-descent parser with two dialects: JSON as in RFC 8259, and the
    literals of page scripts. */
module Meaning {
  import opened JsText
  import opened Text
  import opened Wrappers
  import HexScan
  import NewArray

  /** Strings keep their escapes and numbers with a fraction or an exponent their text: those read alike. */
  datatype Value =
    | VNum(n: int)
    | VFraction(text: string)
    | VStr(raw: string)
    | VWord(name: string)
    | VArr(items: seq<Value>)
    | VObj(members: seq<(string, Value)>)

  datatype Dialect = StrictJson | PageScript(u: CharClass)

  function SkipWs(s: string): (t: string)
    ensures |t| <= |s|
  {
    s[Run(IsWs, s)..]
  }

  predicate Starts(s: string, c: char) {
    s != [] && s[0] == c
  }

  // --------------------------------------------------------------- the parser

  function ParseNumeral(d: Dialect, s: string): (r: Option<(nat, string)>)
    ensures r.Some? ==> |r.value.1| < |s|
  {
    if d.PageScript? && HexScan.HexPrefix(s) then
      var digits := HexScan.HexDigits(s);
      if digits == [] then None else Some((HexVal(digits), s[2 + |digits|..]))
    else
      var n := Run(IsDigit, s);
      RunAll(IsDigit, s);
      if n == 0 || (n > 1 && s[0] == '0') then None
      else if n < |s| && (s[n] == '.' || s[n] == 'e' || s[n] == 'E') then None
      else Some((DecVal(s[..n]), s[n..]))
  }

  /** The body of a string literal, behind its opening quote. */
  function ParseBody(s: string): (r: Option<(string, string)>)
    ensures r.Some? ==> |r.value.1| < |s|
  {
    if s == [] || s[0] < ' ' then None
    else if s[0] == '"' then Some(([], s[1..]))
    else
      var n := if s[0] != '\\' then 1
               else if |s| > 1 && IsEscape(s[1]) then 2
               else if |s| > 5 && s[1] == 'u' && All(IsHexDigit, s[2..6]) then 6 else 0;
      if n == 0 then None
      else
        var (body, rest) :- ParseBody(s[n..]);
        Some((s[..n] + body, rest))
  }

  function ParseKey(d: Dialect, s: string): (r: Option<(string, string)>)
    ensures r.Some? ==> |r.value.1| < |s|
  {
    if Starts(s, '"') then ParseBody(s[1..])
    else if d.PageScript? && StartsWith(d.u.IdentStart, s) then
      var n := Run(d.u.IdentPart, s);
      Some((s[..n], s[n..]))
    else None
  }

  function Negated(neg: bool, n: int): int {
    if neg then -n else n
  }

  /** What follows digits, a fraction and an exponent, of which the last two may be missing. */
  function AfterFraction(s: string): (r: Option<string>)
    ensures r.Some? ==> |r.value| < |s|
  {
    var n := Run(IsDigit, s);
    if n == 0 || (n > 1 && s[0] == '0') then None
    else
      var t := s[n..];
      if !Starts(t, '.') then AfterExponent(t)
      else
        var k := Run(IsDigit, t[1..]);
        if k == 0 then None else AfterExponent(t[1 + k..])
  }

  function AfterExponent(s: string): (r: Option<string>)
    ensures r.Some? ==> |r.value| <= |s|
  {
    if !Starts(s, 'e') && !Starts(s, 'E') then Some(s)
    else
      var t := if Starts(s[1..], '+') || Starts(s[1..], '-') then s[2..] else s[1..];
      var n := Run(IsDigit, t);
      if n == 0 then None else Some(t[n..])
  }

  function ParseScalar(d: Dialect, t: string): (r: Option<(Value, string)>)
    ensures r.Some? ==> |r.value.1| < |t|
  {
    if "true" <= t then Some((VWord("true"), t[4..]))
    else if "false" <= t then Some((VWord("false"), t[5..]))
    else if "null" <= t then Some((VWord("null"), t[4..]))
    else
      var neg := Starts(t, '-');
      match ParseNumeral(d, if neg then t[1..] else t)
      case Some((n, rest)) => Some((VNum(Negated(neg, n)), rest))
      case None =>
        var rest :- AfterFraction(if neg then t[1..] else t);
        Some((VFraction(t[..|t| - |rest|]), rest))
  }

  function ParseValue(d: Dialect, s: string): (r: Option<(Value, string)>)
    ensures r.Some? ==> |r.value.1| < |s|
    decreases |s|, 2
  {
    var t := SkipWs(s);
    if Starts(t, '"') then
      var (body, rest) :- ParseBody(t[1..]);
      Some((VStr(body), rest))
    else if Starts(t, '[') then
      var (items, rest) :- ParseItems(d, t[1..], ']');
      Some((VArr(items), rest))
    else if d.PageScript? && NewArray.HeadAt(t) then
      var (items, rest) :- ParseItems(d, t[10..], ')');
      Some((VArr(items), rest))
    else if Starts(t, '{') then
      var (members, rest) :- ParseMembers(d, t[1..]);
      Some((VObj(members), rest))
    else ParseScalar(d, t)
  }

  function ParseItems(d: Dialect, s: string, close: char): (r: Option<(seq<Value>, string)>)
    ensures r.Some? ==> |r.value.1| < |s|
    decreases |s|, 4
  {
    if Starts(SkipWs(s), close) then Some(([], SkipWs(s)[1..])) else ParseMoreItems(d, s, close)
  }

  function ParseMoreItems(d: Dialect, s: string, close: char): (r: Option<(seq<Value>, string)>)
    ensures r.Some? ==> |r.value.1| < |s|
    decreases |s|, 3
  {
    var (v, rest) :- ParseValue(d, s);
    var t := SkipWs(rest);
    if Starts(t, close) then Some(([v], t[1..]))
    else if Starts(t, ',') then
      var (more, rest) :- ParseMoreItems(d, t[1..], close);
      Some(([v] + more, rest))
    else None
  }

  function ParseMembers(d: Dialect, s: string): (r: Option<(seq<(string, Value)>, string)>)
    ensures r.Some? ==> |r.value.1| < |s|
    decreases |s|, 4
  {
    if Starts(SkipWs(s), '}') then Some(([], SkipWs(s)[1..])) else ParseMoreMembers(d, s)
  }

  function ParseMember(d: Dialect, s: string): (r: Option<((string, Value), string)>)
    ensures r.Some? ==> |r.value.1| < |s|
    decreases |s|, 2
  {
    var (key, rest) :- ParseKey(d, SkipWs(s));
    var t := SkipWs(rest);
    if !Starts(t, ':') then None
    else
      var (v, rest) :- ParseValue(d, t[1..]);
      Some(((key, v), rest))
  }

  function ParseMoreMembers(d: Dialect, s: string): (r: Option<(seq<(string, Value)>, string)>)
    ensures r.Some? ==> |r.value.1| < |s|
    decreases |s|, 3
  {
    var (m, rest) :- ParseMember(d, s);
    var t := SkipWs(rest);
    if Starts(t, '}') then Some(([m], t[1..]))
    else if Starts(t, ',') then
      var (more, rest) :- ParseMoreMembers(d, t[1..]);
      Some(([m] + more, rest))
    else None
  }

  /** A whole text: one value with white space around it. */
  function Parse(d: Dialect, s: string): Option<Value> {
    var (v, rest) :- ParseValue(d, s);
    if SkipWs(rest) == [] then Some(v) else None
  }

  // ------------------------------------------------- the meaning of a literal

  function NumeralValue(n: Numeral): nat {
    match n
    case Decimal(d) => if All(IsDigit, d) then DecVal(d) else 0
    case Hexadecimal(_, d) => if All(IsHexDigit, d) then HexVal(d) else 0
  }

  function ValueOf(v: Js): Value {
    match v
    case Num(neg, n) => VNum(Negated(neg, NumeralValue(n)))
    case Str(body) => VStr(body)
    case Word(name) => VWord(name)
    case Arr(_, items) => VArr(ItemValues(items))
    case Obj(ms) => VObj(MemberValues(ms))
  }

  function ItemValues(items: Items): seq<Value> {
    match items
    case NoItems(_) => []
    case LastItem(_, v, _) => [ValueOf(v)]
    case MoreItems(_, v, _, more) => [ValueOf(v)] + ItemValues(more)
  }

  function MemberValue(m: Member): (string, Value) {
    (if m.key.Bare? then m.key.name else m.key.body, ValueOf(m.v))
  }

  function MemberValues(ms: Members): seq<(string, Value)> {
    match ms
    case NoMembers(_) => []
    case LastMember(m) => [MemberValue(m)]
    case MoreMembers(m, more) => [MemberValue(m)] + MemberValues(more)
  }

  // -------------------------------------------- the parser reads what is printed

  /** The dialect in which the text of a stage is written. */
  ghost predicate Reads(d: Dialect, u: CharClass, st: Stage) {
    (d == StrictJson && st == Json) || (d == PageScript(u) && st == Page)
  }

  lemma SkipsWs(ws: string, t: string)
    requires WsText(ws) && !StartsWith(IsWs, t)
    ensures SkipWs(ws + t) == t
  {
    RunIs(IsWs, ws, t);
  }

  /** How many characters of a body the parser takes at once. */
  function Unit(s: string): (n: nat)
    requires s != [] && JsonBody(s)
    ensures 0 < n <= |s| && JsonBody(s[n..])
  {
    if s[0] != '\\' then 1 else if IsEscape(s[1]) then 2 else 6
  }

  lemma UnitStep(s: string, t: string)
    requires s != [] && JsonBody(s)
    ensures ParseBody(s + t) ==
            match ParseBody((s + t)[Unit(s)..])
            case None => None
            case Some((body, rest)) => Some((s[..Unit(s)] + body, rest))
  {
    var n, x := Unit(s), s + t;
    assert x[0] == s[0] && x[..n] == s[..n];
    if n == 6 {
      assert x[2..6] == s[2..6];
    }
  }

  lemma EmptyBody(rest: string)
    ensures ParseBody(['"'] + rest) == Some(([], rest))
  {
    assert (['"'] + rest)[1..] == rest;
  }

  lemma {:induction false} ParsesBody(body: string, rest: string)
    requires JsonBody(body)
    ensures ParseBody(body + (['"'] + rest)) == Some((body, rest))
  {
    hide JsonBody, ParseBody, Unit;
    if body == [] {
      assert body + (['"'] + rest) == ['"'] + rest;
      EmptyBody(rest);
    } else {
      var n := Unit(body);
      UnitStep(body, ['"'] + rest);
      assert (body + (['"'] + rest))[n..] == body[n..] + (['"'] + rest);
      ParsesBody(body[n..], rest);
      assert body == body[..n] + body[n..];
    }
  }

  lemma AfterValueEndsNumber(rest: string)
    requires AfterValue(rest)
    ensures !StartsWith(IsDigit, rest) && !StartsWith(IsHexDigit, rest) && !StartsWith(HexScan.IsX, rest)
    ensures rest != [] ==> rest[0] != '.' && rest[0] != 'e' && rest[0] != 'E'
  {
  }

  lemma ParsesDecimal(d: Dialect, digits: string, rest: string)
    requires NumeralOk(Decimal(digits)) && AfterValue(rest)
    ensures ParseNumeral(d, digits + rest) == Some((DecVal(digits), rest))
  {
    AfterValueEndsNumber(rest);
    var s := digits + rest;
    RunIs(IsDigit, digits, rest);
    assert s[..|digits|] == digits && s[|digits|..] == rest;
    assert !HexScan.HexPrefix(s) by {
      assert IsDigit(digits[0]);
      if |digits| > 1 {
        assert IsDigit(digits[1]) && s[1] == digits[1];
      }
    }
  }

  lemma ParsesNumeral(d: Dialect, u: CharClass, n: Numeral, st: Stage, rest: string)
    requires Reads(d, u, st) && NumeralOk(n) && AfterValue(rest)
    ensures ParseNumeral(d, NumeralText(n, st) + rest) == Some((NumeralValue(n), rest))
  {
    AfterValueEndsNumber(rest);
    match n
    case Decimal(digits) => ParsesDecimal(d, digits, rest);
    case Hexadecimal(x, digits) =>
      if st == Json {
        ParsesDecimal(d, Dec(HexVal(digits)), rest);
        DecValDec(HexVal(digits));
      } else {
        HexScan.ConvertHex(x, digits, rest);
        assert (['0', x] + digits + rest)[2 + |digits|..] == rest;
      }
  }

  /** How a value's text begins. */
  predicate Opens(s: string) {
    s != [] && !IsWs(s[0]) && !Closer(s[0]) && s[0] != ':'
  }

  lemma NumeralOpens(n: Numeral, st: Stage)
    requires NumeralOk(n)
    ensures NumeralText(n, st) != [] && IsDigit(NumeralText(n, st)[0])
  {
    if n.Decimal? {
      assert IsDigit(n.digits[0]);
    }
  }

  lemma TextOpens(u: CharClass, v: Js, st: Stage, rest: string)
    requires JsOk(u, v)
    ensures Opens(JsTextOf(v, st, rest))
  {
    match v
    case Num(neg, n) => NumeralOpens(n, st);
    case _ =>
  }

  /** A text that opens like a scalar is read as one. */
  lemma ScalarDispatch(d: Dialect, t: string)
    requires Opens(t) && !Starts(t, '"') && !Starts(t, '[') && !Starts(t, '{') && !NewArray.HeadAt(t)
    ensures ParseValue(d, t) == ParseScalar(d, t)
  {
    hide ParseScalar, ParseItems, ParseMembers, ParseBody;
    SkipsWs("", t);
    assert "" + t == t;
  }

  lemma ScalarNumber(d: Dialect, t: string, n: nat, rest: string)
    requires t != [] && (IsDigit(t[0]) || t[0] == '-')
    requires ParseNumeral(d, if t[0] == '-' then t[1..] else t) == Some((n, rest))
    ensures ParseScalar(d, t) == Some((VNum(Negated(t[0] == '-', n)), rest))
    ensures !NewArray.HeadAt(t)
  {
    hide ParseNumeral;
    assert NewArray.HEAD[0] == 'n' && "true"[0] == 't' && "false"[0] == 'f' && "null"[0] == 'n';
  }

  lemma ParsesSigned(d: Dialect, neg: bool, text: string, n: nat, rest: string)
    requires StartsWith(IsDigit, text) && ParseNumeral(d, text) == Some((n, rest))
    ensures ParseValue(d, (if neg then ['-'] else []) + text) == Some((VNum(Negated(neg, n)), rest))
  {
    hide ParseNumeral, ParseValue, ParseScalar, Negated;
    if neg {
      var t := ['-'] + text;
      assert t[1..] == text;
      ScalarNumber(d, t, n, rest);
      ScalarDispatch(d, t);
    } else {
      assert [] + text == text;
      ScalarNumber(d, text, n, rest);
      ScalarDispatch(d, text);
    }
  }

  lemma ParsesNum(d: Dialect, u: CharClass, neg: bool, n: Numeral, st: Stage, rest: string)
    requires Reads(d, u, st) && NumeralOk(n) && AfterValue(rest)
    ensures ParseValue(d, JsTextOf(Num(neg, n), st, rest)) == Some((ValueOf(Num(neg, n)), rest))
  {
    NumeralOpens(n, st);
    ParsesNumeral(d, u, n, st, rest);
    hide NumeralText, ParseNumeral, NumeralValue, ParseValue, Negated;
    assert StartsWith(IsDigit, NumeralText(n, st) + rest);
    ParsesSigned(d, neg, NumeralText(n, st) + rest, NumeralValue(n), rest);
  }

  lemma ParsesWord(d: Dialect, name: string, rest: string)
    requires name == "true" || name == "false" || name == "null"
    ensures ParseValue(d, name + rest) == Some((VWord(name), rest))
  {
    hide ParseNumeral, ParseValue;
    var t := name + rest;
    assert t[0] == name[0] && t[1] == name[1] && t[|name|..] == rest && name <= t;
    assert NewArray.HEAD[0] == 'n' && NewArray.HEAD[1] == 'e' && "true"[0] == 't' && "false"[0] == 'f';
    ScalarDispatch(d, t);
  }

  // How the parser goes on behind the first character of a string, a list or an object.

  lemma StringDispatch(d: Dialect, s: string, body: string, rest: string)
    requires ParseBody(s) == Some((body, rest))
    ensures ParseValue(d, ['"'] + s) == Some((VStr(body), rest))
  {
    hide ParseBody, ParseScalar, ParseItems, ParseMembers, SkipWs, NewArray.HeadAt;
    NoSkip(['"'] + s);
    assert (['"'] + s)[1..] == s;
  }

  lemma ListDispatch(d: Dialect, s: string, items: seq<Value>, rest: string)
    requires ParseItems(d, s, ']') == Some((items, rest))
    ensures ParseValue(d, ['['] + s) == Some((VArr(items), rest))
  {
    hide ParseBody, ParseScalar, ParseItems, ParseMembers, SkipWs, NewArray.HeadAt;
    NoSkip(['['] + s);
    assert (['['] + s)[1..] == s;
  }

  lemma ConstructorDispatch(d: Dialect, s: string, items: seq<Value>, rest: string)
    requires d.PageScript? && ParseItems(d, s, ')') == Some((items, rest))
    ensures ParseValue(d, NewArray.HEAD + s) == Some((VArr(items), rest))
  {
    hide ParseBody, ParseScalar, ParseItems, ParseMembers, SkipWs, NewArray.HeadAt;
    var t := NewArray.HEAD + s;
    HeadFirst(s);
    NoSkip(t);
    assert !Starts(t, '"') && !Starts(t, '[') && t[10..] == s;
  }

  lemma HeadFirst(s: string)
    ensures NewArray.HeadAt(NewArray.HEAD + s) && (NewArray.HEAD + s)[0] == 'n'
    ensures NewArray.HeadAt(s) ==> s[0] == 'n'
  {
    assert NewArray.HEAD[0] == 'n';
  }

  lemma ObjectDispatch(d: Dialect, s: string, members: seq<(string, Value)>, rest: string)
    requires ParseMembers(d, s) == Some((members, rest))
    ensures ParseValue(d, ['{'] + s) == Some((VObj(members), rest))
  {
    hide ParseBody, ParseScalar, ParseItems, ParseMembers, SkipWs, NewArray.HeadAt;
    var t := ['{'] + s;
    NoSkip(t);
    HeadFirst(t);
    assert t[1..] == s && t[0] == '{';
  }

  lemma NoSkip(t: string)
    requires t != [] && !IsWs(t[0])
    ensures SkipWs(t) == t
  {
    SkipsWs("", t);
    assert "" + t == t;
  }

  lemma {:induction false} ParsesValue(d: Dialect, u: CharClass, v: Js, st: Stage, rest: string)
    requires u.Ascii() && Reads(d, u, st) && JsOk(u, v) && AfterValue(rest)
    ensures ParseValue(d, JsTextOf(v, st, rest)) == Some((ValueOf(v), rest))
    decreases v, 0
  {
    hide ParseValue, ParseItems, ParseMembers, ParseBody, NumeralText;
    match v
    case Num(neg, n) => ParsesNum(d, u, neg, n, st, rest);
    case Str(body) =>
      ParsesBody(body, rest);
      StringDispatch(d, body + (['"'] + rest), body, rest);
    case Word(name) => ParsesWord(d, name, rest);
    case Arr(viaNew, items) =>
      if viaNew && st == Page {
        ParsesItems(d, u, items, st, ')', rest);
        ConstructorDispatch(d, ItemsText(items, st, [')'] + rest), ItemValues(items), rest);
      } else {
        ParsesItems(d, u, items, st, ']', rest);
        ListDispatch(d, ItemsText(items, st, [']'] + rest), ItemValues(items), rest);
      }
    case Obj(ms) =>
      ParsesMembers(d, u, ms, st, rest);
      ObjectDispatch(d, MembersText(ms, st, ['}'] + rest), MemberValues(ms), rest);
  }

  lemma {:induction false} ParsesItem(
      d: Dialect, u: CharClass, pre: string, v: Js, st: Stage, post: string, rest: string)
    requires u.Ascii() && Reads(d, u, st)
    requires WsText(pre) && JsOk(u, v) && WsText(post) && AfterValue(rest)
    ensures ParseValue(d, pre + JsTextOf(v, st, post + rest)) == Some((ValueOf(v), post + rest))
    ensures var t := SkipWs(pre + JsTextOf(v, st, post + rest)); Opens(t)
    decreases v, 1
  {
    var t := JsTextOf(v, st, post + rest);
    AfterWs(post, rest);
    ParsesValue(d, u, v, st, post + rest);
    TextOpens(u, v, st, post + rest);
    hide JsTextOf, JsOk, ValueOf;
    SkipsWs(pre, t);
    SkipsWs("", t);
    assert "" + t == t;
    SameSkip(d, pre + t, t);
  }

  /** A value's text may be preceded by white space. */
  lemma SameSkip(d: Dialect, s: string, t: string)
    requires SkipWs(s) == SkipWs(t)
    ensures ParseValue(d, s) == ParseValue(d, t)
  {
    hide ParseNumeral, ParseItems, ParseMembers, ParseBody, SkipWs;
  }

  lemma {:induction false} ParsesItems(d: Dialect, u: CharClass, items: Items, st: Stage, close: char, rest: string)
    requires u.Ascii() && Reads(d, u, st) && ItemsOk(u, items) && (close == ']' || close == ')')
    ensures ParseItems(d, ItemsText(items, st, [close] + rest), close) == Some((ItemValues(items), rest))
    decreases items, 1
  {
    match items
    case NoItems(ws) =>
      SkipsWs(ws, [close] + rest);
    case LastItem(pre, v, post) =>
      ParsesItem(d, u, pre, v, st, post, [close] + rest);
      ParsesMoreItems(d, u, items, st, close, rest);
    case MoreItems(pre, v, post, more) =>
      ParsesItem(d, u, pre, v, st, post, [','] + ItemsText(more, st, [close] + rest));
      ParsesMoreItems(d, u, items, st, close, rest);
  }

  lemma {:induction false} ParsesMoreItems(d: Dialect, u: CharClass, items: Items, st: Stage, close: char, rest: string)
    requires u.Ascii() && Reads(d, u, st) && ItemsOk(u, items) && (close == ']' || close == ')')
    requires !items.NoItems?
    ensures ParseMoreItems(d, ItemsText(items, st, [close] + rest), close) == Some((ItemValues(items), rest))
    decreases items, 0
  {
    hide ParseValue, ValueOf;
    match items
    case LastItem(pre, v, post) =>
      ParsesItem(d, u, pre, v, st, post, [close] + rest);
      SkipsWs(post, [close] + rest);
    case MoreItems(pre, v, post, more) =>
      var tail := [','] + ItemsText(more, st, [close] + rest);
      ParsesItem(d, u, pre, v, st, post, tail);
      SkipsWs(post, tail);
      assert tail[1..] == ItemsText(more, st, [close] + rest);
      ParsesMoreItems(d, u, more, st, close, rest);
  }

  lemma ParsesKey(d: Dialect, u: CharClass, key: Key, st: Stage, gap: string, rest: string)
    requires u.Ascii() && Reads(d, u, st) && KeyOk(u, key) && All(IsBlank, gap)
    ensures var t := gap + ([':'] + rest);
            && Opens(KeyText(key, st, t))
            && ParseKey(d, KeyText(key, st, t)) == Some((if key.Bare? then key.name else key.body, t))
  {
    var t := gap + ([':'] + rest);
    match key
    case InQuotes(body) => ParsesBody(body, t);
    case Bare(name) =>
      if st == Json {
        IdentIsJsonBody(u, name);
        ParsesBody(name, t);
      } else {
        assert t[0] == ':' || IsBlank(t[0]);
        RunIs(u.IdentPart, name, t);
        var s := name + t;
        assert s[..|name|] == name && s[|name|..] == t;
      }
  }

  lemma {:induction false} IdentIsJsonBody(u: CharClass, name: string)
    requires u.Ascii() && All(u.IdentPart, name)
    ensures JsonBody(name)
  {
    if name != [] {
      assert u.IdentPart(name[0]);
      IdentIsJsonBody(u, name[1..]);
    }
  }

  lemma {:induction false} ParsesMember(d: Dialect, u: CharClass, m: Member, st: Stage, rest: string)
    requires u.Ascii() && Reads(d, u, st) && MemberOk(u, m) && AfterValue(rest)
    ensures ParseMember(d, MemberText(m, st, rest)) == Some((MemberValue(m), m.post + rest))
    ensures Opens(SkipWs(MemberText(m, st, rest)))
    decreases m, 1
  {
    hide ParseValue, ParseKey, KeyText, ValueOf, JsTextOf, JsOk, KeyOk;
    var x := m.mid + JsTextOf(m.v, st, m.post + rest);
    ParsesKey(d, u, m.key, st, m.gap, x);
    var k := KeyText(m.key, st, m.gap + ([':'] + x));
    SkipsWs(m.pre, k);
    assert WsText(m.gap) by {
      assert forall i :: 0 <= i < |m.gap| ==> IsBlank(m.gap[i]);
    }
    SkipsWs(m.gap, [':'] + x);
    assert ([':'] + x)[1..] == x;
    ParsesItem(d, u, m.mid, m.v, st, m.post, rest);
  }

  lemma {:induction false} ParsesMembers(d: Dialect, u: CharClass, ms: Members, st: Stage, rest: string)
    requires u.Ascii() && Reads(d, u, st) && MembersOk(u, ms)
    ensures ParseMembers(d, MembersText(ms, st, ['}'] + rest)) == Some((MemberValues(ms), rest))
    decreases ms, 1
  {
    match ms
    case NoMembers(ws) =>
      SkipsWs(ws, ['}'] + rest);
    case LastMember(m) =>
      ParsesMember(d, u, m, st, ['}'] + rest);
      ParsesMoreMembers(d, u, ms, st, rest);
    case MoreMembers(m, more) =>
      ParsesMember(d, u, m, st, [','] + MembersText(more, st, ['}'] + rest));
      ParsesMoreMembers(d, u, ms, st, rest);
  }

  lemma {:induction false} ParsesMoreMembers(d: Dialect, u: CharClass, ms: Members, st: Stage, rest: string)
    requires u.Ascii() && Reads(d, u, st) && MembersOk(u, ms) && !ms.NoMembers?
    ensures ParseMoreMembers(d, MembersText(ms, st, ['}'] + rest)) == Some((MemberValues(ms), rest))
    decreases ms, 0
  {
    hide ParseMember, MemberText, MemberValue;
    match ms
    case LastMember(m) =>
      ParsesMember(d, u, m, st, ['}'] + rest);
      SkipsWs(m.post, ['}'] + rest);
    case MoreMembers(m, more) =>
      var tail := [','] + MembersText(more, st, ['}'] + rest);
      ParsesMember(d, u, m, st, tail);
      SkipsWs(m.post, tail);
      assert tail[1..] == MembersText(more, st, ['}'] + rest);
      ParsesMoreMembers(d, u, more, st, rest);
  }
}
