/** JavaScript value literals as the switch pages spell them, and their texts at each stage of the rewrite. */
module JsText {
  import opened Literals
  import opened NewArray
  import opened Text
  import HexScan

  datatype Numeral = Decimal(digits: string) | Hexadecimal(x: char, digits: string)

  datatype Key = Bare(name: string) | InQuotes(body: string)

  /** A literal with its layout: every white space the page may contain has a place. */
  datatype Js =
    | Num(neg: bool, numeral: Numeral)
    | Str(body: string)
    | Word(name: string)
    | Arr(viaNew: bool, items: Items)
    | Obj(members: Members)

  datatype Items =
    | NoItems(ws: string)
    | LastItem(pre: string, v: Js, post: string)
    | MoreItems(pre: string, v: Js, post: string, more: Items)

  datatype Member = Member(pre: string, key: Key, gap: string, mid: string, v: Js, post: string)

  datatype Members =
    | NoMembers(ws: string)
    | LastMember(m: Member)
    | MoreMembers(m: Member, more: Members)

  /** The stages of the rewrite: the page, then after each of the three passes. */
  datatype Stage = Page | Arrays | Numbers | Json

  // --------------------------------------------------------------- printing

  function NumeralText(n: Numeral, st: Stage): string {
    match n
    case Decimal(digits) => digits
    case Hexadecimal(x, digits) =>
      if (st == Page || st == Arrays) || !All(IsHexDigit, digits) then ['0', x] + digits
      else Dec(HexVal(digits))
  }

  function KeyText(key: Key, st: Stage, rest: string): string {
    match key
    case Bare(name) => if st == Json then ['"'] + (name + (['"'] + rest)) else name + rest
    case InQuotes(body) => ['"'] + (body + (['"'] + rest))
  }

  /** The text of `v` followed by `rest`. */
  function JsTextOf(v: Js, st: Stage, rest: string): string {
    match v
    case Num(neg, n) => (if neg then ['-'] else []) + (NumeralText(n, st) + rest)
    case Str(body) => ['"'] + (body + (['"'] + rest))
    case Word(name) => name + rest
    case Arr(viaNew, items) =>
      if viaNew && st == Page then HEAD + ItemsText(items, st, [')'] + rest)
      else ['['] + ItemsText(items, st, [']'] + rest)
    case Obj(ms) => ['{'] + MembersText(ms, st, ['}'] + rest)
  }

  function ItemsText(items: Items, st: Stage, rest: string): string {
    match items
    case NoItems(ws) => ws + rest
    case LastItem(pre, v, post) => pre + JsTextOf(v, st, post + rest)
    case MoreItems(pre, v, post, more) => pre + JsTextOf(v, st, post + ([','] + ItemsText(more, st, rest)))
  }

  function MemberText(m: Member, st: Stage, rest: string): string {
    m.pre + KeyText(m.key, st, m.gap + ([':'] + (m.mid + JsTextOf(m.v, st, m.post + rest))))
  }

  function MembersText(ms: Members, st: Stage, rest: string): string {
    match ms
    case NoMembers(ws) => ws + rest
    case LastMember(m) => MemberText(m, st, rest)
    case MoreMembers(m, more) => MemberText(m, st, [','] + MembersText(more, st, rest))
  }

  // -------------------------------------------------------- well-formed trees

  predicate WsText(s: string) {
    All(IsWs, s)
  }

  predicate NumeralOk(n: Numeral) {
    match n
    case Decimal(d) => d != [] && All(IsDigit, d) && (|d| > 1 ==> d[0] != '0')
    case Hexadecimal(x, d) =>
      (x == 'x' || x == 'X') && d != [] && All(IsHexDigit, d) && HexVal(d) < MAX_INT64
  }

  predicate IsEscape(c: char) {
    c == '"' || c == '\\' || c == '/' || c == 'b' || c == 'f' || c == 'n' || c == 'r' || c == 't'
  }

  /** The inside of a string literal of RFC 8259, section 7. */
  predicate JsonBody(s: string) {
    if s == [] then true
    else if s[0] == '\\' then
      |s| > 1 && ((IsEscape(s[1]) && JsonBody(s[2..]))
                  || (s[1] == 'u' && |s| > 5 && All(IsHexDigit, s[2..6]) && JsonBody(s[6..])))
    else s[0] != '"' && s[0] >= ' ' && JsonBody(s[1..])
  }

  /** No literal that the hexadecimal scan would convert begins inside the name. */
  predicate NoHexIn(name: string) {
    forall i :: 0 <= i < |name| ==> !HexScan.Convertible(name[i..])
  }

  predicate KeyOk(u: CharClass, key: Key) {
    match key
    case Bare(name) =>
      StartsWith(u.IdentStart, name) && All(u.IdentPart, name) && NoHexIn(name)
    case InQuotes(body) => JsonBody(body)
  }

  /** Literals of the shape the rewrite is made for.  The letters of bare keys follow `u`. */
  predicate JsOk(u: CharClass, v: Js) {
    match v
    case Num(_, n) => NumeralOk(n)
    case Str(body) => JsonBody(body)
    case Word(name) => name == "true" || name == "false" || name == "null"
    case Arr(_, items) => ItemsOk(u, items)
    case Obj(ms) => MembersOk(u, ms)
  }

  predicate ItemsOk(u: CharClass, items: Items) {
    match items
    case NoItems(ws) => WsText(ws)
    case LastItem(pre, v, post) => WsText(pre) && JsOk(u, v) && WsText(post)
    case MoreItems(pre, v, post, more) =>
      WsText(pre) && JsOk(u, v) && WsText(post) && !more.NoItems? && ItemsOk(u, more)
  }

  predicate MemberOk(u: CharClass, m: Member) {
    && WsText(m.pre) && KeyOk(u, m.key) && All(IsBlank, m.gap)
    && WsText(m.mid) && JsOk(u, m.v) && WsText(m.post)
  }

  predicate MembersOk(u: CharClass, ms: Members) {
    match ms
    case NoMembers(ws) => WsText(ws)
    case LastMember(m) => MemberOk(u, m)
    case MoreMembers(m, more) => MemberOk(u, m) && !more.NoMembers? && MembersOk(u, more)
  }

  // ------------------------------------ what the first pass needs of a literal

  /** No `new Array` constructor. */
  predicate Flat(v: Js) {
    match v
    case Arr(viaNew, items) => !viaNew && FlatItems(items)
    case Obj(ms) => FlatMembers(ms)
    case _ => true
  }

  predicate FlatItems(items: Items) {
    match items
    case NoItems(_) => true
    case LastItem(_, v, _) => Flat(v)
    case MoreItems(_, v, _, more) => Flat(v) && FlatItems(more)
  }

  predicate FlatMembers(ms: Members) {
    match ms
    case NoMembers(_) => true
    case LastMember(m) => Flat(m.v)
    case MoreMembers(m, more) => Flat(m.v) && FlatMembers(more)
  }

  /**
    * The first pass reads `v` as intended when `rest` follows: `new Array` bodies hold no closing
    * parenthesis, and elsewhere no string holds the text of a constructor's head that a parenthesis closes.
    */
  ghost predicate ArraySafe(v: Js, rest: string) {
    match v
    case Str(body) => Undisturbed(body, rest)
    case Arr(viaNew, items) =>
      if viaNew then ')' !in ItemsText(items, Page, "") else ItemsSafe(items, [']'] + rest)
    case Obj(ms) => MembersSafe(ms, ['}'] + rest)
    case _ => true
  }

  ghost predicate ItemsSafe(items: Items, rest: string) {
    match items
    case NoItems(_) => true
    case LastItem(_, v, post) => ArraySafe(v, post + rest)
    case MoreItems(_, v, post, more) =>
      ArraySafe(v, post + ([','] + ItemsText(more, Page, rest))) && ItemsSafe(more, rest)
  }

  ghost predicate KeySafe(key: Key, rest: string) {
    key.InQuotes? ==> Undisturbed(key.body, rest)
  }

  ghost predicate MemberSafe(m: Member, rest: string) {
    && KeySafe(m.key, m.gap + ([':'] + (m.mid + JsTextOf(m.v, Page, m.post + rest))))
    && ArraySafe(m.v, m.post + rest)
  }

  ghost predicate MembersSafe(ms: Members, rest: string) {
    match ms
    case NoMembers(_) => true
    case LastMember(m) => MemberSafe(m, rest)
    case MoreMembers(m, more) => MemberSafe(m, [','] + MembersText(more, Page, rest)) && MembersSafe(more, rest)
  }

  // ------------------------------------------------------------ what follows

  predicate Closer(c: char) {
    c == ',' || c == ']' || c == '}' || c == ')'
  }

  /** What can follow a value: white space, then a comma, a closing bracket or the end. */
  predicate AfterValue(rest: string) {
    rest == [] || Closer(rest[0]) || (IsWs(rest[0]) && AfterValue(rest[1..]))
  }

  lemma {:induction false} AfterWs(ws: string, rest: string)
    requires WsText(ws) && AfterValue(rest)
    ensures AfterValue(ws + rest)
  {
    if ws == [] {
      assert ws + rest == rest;
    } else {
      Cons(ws, rest);
      AfterWs(ws[1..], rest);
    }
  }

  /** A string body of JSON is a body for both scanners. */
  lemma {:induction false} JsonBodyIsBody(s: string)
    requires JsonBody(s)
    ensures Body(s)
  {
    if s == [] {
    } else if s[0] != '\\' {
      JsonBodyIsBody(s[1..]);
    } else if IsEscape(s[1]) && JsonBody(s[2..]) {
      JsonBodyIsBody(s[2..]);
    } else {
      JsonBodyIsBody(s[6..]);
      HexIsBody(s[2..6], s[6..]);
      assert s[2..6] + s[6..] == s[2..];
    }
  }

  function InQuotesText(body: string): string {
    ['"'] + (body + ['"'])
  }

  lemma BodyIsLiteral(body: string, atEnd: bool)
    requires JsonBody(body)
    ensures IsLiteral(InQuotesText(body), atEnd)
  {
    JsonBodyIsBody(body);
    var lit := InQuotesText(body);
    assert lit[1..|lit| - 1] == body;
  }

  lemma QuotesRegroup(body: string, rest: string)
    ensures ['"'] + (body + (['"'] + rest)) == InQuotesText(body) + rest
  {
  }

  lemma {:induction false} HexIsBody(h: string, s: string)
    requires All(IsHexDigit, h) && Body(s)
    ensures Body(h + s)
  {
    if h == [] {
      assert h + s == s;
    } else {
      Cons(h, s);
      assert IsHexDigit(h[0]);
      HexIsBody(h[1..], s);
    }
  }

  /** No value text starts with a colon. */
  lemma FirstOfText(u: CharClass, v: Js, st: Stage, rest: string)
    requires JsOk(u, v)
    ensures JsTextOf(v, st, rest) != [] && JsTextOf(v, st, rest)[0] != ':'
  {
    match v
    case Num(neg, n) =>
      assert NumeralText(n, st) != [];
      assert NumeralText(n, st)[0] != ':' by {
        if n.Decimal? { assert IsDigit(n.digits[0]); }
      }
    case _ =>
  }

  // --------------------------------------------------------- printing lemmas

  lemma {:induction false} FlatSame(v: Js, rest: string)
    requires Flat(v)
    ensures JsTextOf(v, Page, rest) == JsTextOf(v, Arrays, rest)
    decreases v
  {
    match v
    case Arr(_, items) => FlatItemsSame(items, [']'] + rest);
    case Obj(ms) => FlatMembersSame(ms, ['}'] + rest);
    case _ =>
  }

  lemma {:induction false} FlatItemsSame(items: Items, rest: string)
    requires FlatItems(items)
    ensures ItemsText(items, Page, rest) == ItemsText(items, Arrays, rest)
    decreases items
  {
    match items
    case NoItems(_) =>
    case LastItem(_, v, post) => FlatSame(v, post + rest);
    case MoreItems(_, v, post, more) =>
      FlatItemsSame(more, rest);
      FlatSame(v, post + ([','] + ItemsText(more, Page, rest)));
  }

  lemma {:induction false} FlatMemberSame(m: Member, rest: string)
    requires Flat(m.v)
    ensures MemberText(m, Page, rest) == MemberText(m, Arrays, rest)
    decreases m
  {
    FlatSame(m.v, m.post + rest);
  }

  lemma {:induction false} FlatMembersSame(ms: Members, rest: string)
    requires FlatMembers(ms)
    ensures MembersText(ms, Page, rest) == MembersText(ms, Arrays, rest)
    decreases ms
  {
    match ms
    case NoMembers(_) =>
    case LastMember(m) => FlatMemberSame(m, rest);
    case MoreMembers(m, more) =>
      FlatMembersSame(more, rest);
      FlatMemberSame(m, [','] + MembersText(more, Page, rest));
  }

  /** The continuation can be split off. */
  lemma {:induction false} TextSplits(v: Js, st: Stage, rest: string)
    ensures JsTextOf(v, st, rest) == JsTextOf(v, st, "") + rest
    decreases v, 0
  {
    match v
    case Num(neg, n) => Around(if neg then ['-'] else [], NumeralText(n, st), "", rest);
    case Str(body) => Around(['"'], body, ['"'], rest);
    case Word(name) =>
    case Arr(viaNew, items) =>
      var open, close := if viaNew && st == Page then HEAD else ['['], if viaNew && st == Page then [')'] else [']'];
      ItemsSplit(items, st, close + rest);
      ItemsSplit(items, st, close + "");
      Around(open, ItemsText(items, st, ""), close, rest);
    case Obj(ms) =>
      MembersSplit(ms, st, ['}'] + rest);
      MembersSplit(ms, st, ['}'] + "");
      Around(['{'], MembersText(ms, st, ""), ['}'], rest);
  }

  lemma Around(a: string, b: string, c: string, d: string)
    ensures a + (b + (c + d)) == (a + (b + (c + ""))) + d
    ensures a + (b + d) == (a + (b + "")) + d
  {
    assert c + "" == c && b + "" == b;
  }

  lemma {:induction false} ItemsSplit(items: Items, st: Stage, rest: string)
    ensures ItemsText(items, st, rest) == ItemsText(items, st, "") + rest
    decreases items, 0
  {
    match items
    case NoItems(ws) =>
    case LastItem(pre, v, post) =>
      ItemSplit(pre, v, st, post, rest);
      assert post + "" == post;
    case MoreItems(pre, v, post, more) =>
      ItemsSplit(more, st, rest);
      var t := ItemsText(more, st, "");
      assert post + ([','] + (t + rest)) == (post + ([','] + t)) + rest;
      ItemSplit(pre, v, st, post + ([','] + t), rest);
  }

  lemma {:induction false} ItemSplit(pre: string, v: Js, st: Stage, post: string, rest: string)
    ensures pre + JsTextOf(v, st, post + rest) == (pre + JsTextOf(v, st, post)) + rest
    decreases v, 1
  {
    hide *;
    TextSplits(v, st, post + rest);
    TextSplits(v, st, post);
    var t := JsTextOf(v, st, "");
    assert pre + (t + (post + rest)) == (pre + (t + post)) + rest;
  }

  lemma {:induction false} MemberSplit(m: Member, st: Stage, rest: string)
    ensures MemberText(m, st, rest) == MemberText(m, st, "") + rest
    decreases m, 0
  {
    assert m.post + "" == m.post;
    ItemSplit(m.mid, m.v, st, m.post, rest);
    var t := m.mid + JsTextOf(m.v, st, m.post);
    hide JsTextOf;
    assert m.gap + ([':'] + (t + rest)) == (m.gap + ([':'] + t)) + rest;
    KeySplit(m.pre, m.key, st, m.gap + ([':'] + t), rest);
  }

  lemma KeySplit(pre: string, key: Key, st: Stage, tail: string, rest: string)
    ensures pre + KeyText(key, st, tail + rest) == (pre + KeyText(key, st, tail)) + rest
  {
    assert ['"'] + (tail + rest) == (['"'] + tail) + rest;
    if key.Bare? {
      assert key.name + (tail + rest) == (key.name + tail) + rest;
      assert key.name + ((['"'] + tail) + rest) == (key.name + (['"'] + tail)) + rest;
    } else {
      assert key.body + ((['"'] + tail) + rest) == (key.body + (['"'] + tail)) + rest;
    }
  }

  lemma {:induction false} MembersSplit(ms: Members, st: Stage, rest: string)
    ensures MembersText(ms, st, rest) == MembersText(ms, st, "") + rest
    decreases ms, 0
  {
    match ms
    case NoMembers(ws) =>
    case LastMember(m) => MemberSplit(m, st, rest);
    case MoreMembers(m, more) =>
      MembersSplit(more, st, rest);
      CommaSplit(m, st, MembersText(more, st, ""), rest);
  }

  lemma {:induction false} CommaSplit(m: Member, st: Stage, t: string, rest: string)
    ensures MemberText(m, st, [','] + (t + rest)) == MemberText(m, st, [','] + t) + rest
    decreases m, 1
  {
    hide *;
    MemberSplit(m, st, [','] + (t + rest));
    MemberSplit(m, st, [','] + t);
    var a := MemberText(m, st, "");
    assert a + ([','] + (t + rest)) == (a + ([','] + t)) + rest;
  }

  // ----------------------------------- constructors close with a parenthesis

  lemma ConstructorHasParen(items: Items, rest: string)
    ensures ')' in HEAD + ItemsText(items, Page, [')'] + rest)
  {
    ItemsSplit(items, Page, [')'] + rest);
    assert (HEAD + ItemsText(items, Page, [')'] + rest))[10 + |ItemsText(items, Page, "")|] == ')';
  }

  lemma {:induction false} NoParenIsFlat(v: Js, rest: string)
    requires ')' !in JsTextOf(v, Page, rest)
    ensures Flat(v)
    decreases v, 0
  {
    match v
    case Arr(viaNew, items) =>
      if viaNew {
        ConstructorHasParen(items, rest);
      } else {
        assert forall c :: c in ItemsText(items, Page, [']'] + rest) ==> c in JsTextOf(v, Page, rest);
        NoParenIsFlatItems(items, [']'] + rest);
      }
    case Obj(ms) =>
      assert forall c :: c in MembersText(ms, Page, ['}'] + rest) ==> c in JsTextOf(v, Page, rest);
      NoParenIsFlatMembers(ms, ['}'] + rest);
    case _ =>
  }

  lemma {:induction false} NoParenIsFlatItems(items: Items, rest: string)
    requires ')' !in ItemsText(items, Page, rest)
    ensures FlatItems(items)
    decreases items, 0
  {
    match items
    case NoItems(_) =>
    case LastItem(_, v, post) => NoParenIsFlat(v, post + rest);
    case MoreItems(_, v, post, more) =>
      var follow := post + ([','] + ItemsText(more, Page, rest));
      NoParenIsFlat(v, follow);
      TextSplits(v, Page, follow);
      assert forall c :: c in ItemsText(more, Page, rest) ==> c in follow;
      NoParenIsFlatItems(more, rest);
  }

  lemma {:induction false} NoParenIsFlatMember(m: Member, rest: string)
    requires ')' !in MemberText(m, Page, rest)
    ensures Flat(m.v)
    decreases m, 0
  {
    var t := JsTextOf(m.v, Page, m.post + rest);
    assert forall c :: c in t ==> c in m.gap + ([':'] + (m.mid + t));
    assert forall c :: c in m.gap + ([':'] + (m.mid + t)) ==> c in MemberText(m, Page, rest);
    NoParenIsFlat(m.v, m.post + rest);
  }

  lemma {:induction false} NoParenIsFlatMembers(ms: Members, rest: string)
    requires ')' !in MembersText(ms, Page, rest)
    ensures FlatMembers(ms)
    decreases ms, 0
  {
    match ms
    case NoMembers(_) =>
    case LastMember(m) => NoParenIsFlatMember(m, rest);
    case MoreMembers(m, more) =>
      var follow := [','] + MembersText(more, Page, rest);
      NoParenIsFlatMember(m, follow);
      MemberSplit(m, Page, follow);
      assert forall c :: c in MembersText(more, Page, rest) ==> c in follow;
      NoParenIsFlatMembers(more, rest);
  }
}
