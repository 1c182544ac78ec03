/** `ExtractVar`: cutting the value of one declaration out of a page script by three regular expressions. */
module ExtractVar {
  import opened Text
  import opened Wrappers
  import JsToJson
  import NewArray

  /** `\s` of the regular expressions. */
  predicate ReSpace(c: char) {
    c == ' ' || c == '\t' || c == '\n' || c == '\r' || c == 0x0c as char
  }

  /** `[^;{\n]`. */
  predicate ScalarChar(c: char) {
    c != ';' && c != '{' && c != '\n'
  }

  function SkipSpace(s: string): (t: string)
    ensures |t| <= |s|
  {
    s[Run(ReSpace, s)..]
  }

  // ------------------------------------------------- the expressions, piecewise

  /** `var\s+NAME\s*=` at the start of `s`: what follows the match. */
  function AfterHead(s: string, name: string): (r: Option<string>)
    ensures r.Some? ==> |r.value| < |s|
  {
    if !("var" <= s) || !StartsWith(ReSpace, s[3..]) then None
    else AfterName(SkipSpace(s[3..]), name)
  }

  /** `NAME\s*=` at the start of `t`. */
  function AfterName(t: string, name: string): (r: Option<string>)
    ensures r.Some? ==> |r.value| < |t|
  {
    if !(name <= t) then None
    else
      var r := SkipSpace(t[|name|..]);
      if r != [] && r[0] == '=' then Some(r[1..]) else None
  }

  /** `\s*;` at the start of `s`. */
  predicate Terminated(s: string) {
    var t := SkipSpace(s);
    t != [] && t[0] == ';'
  }

  /** The lazy tail `[\s\S]*?CLOSE` before `\s*;`: the first closing character so terminated. */
  function LazyClose(close: char, s: string): (r: Option<nat>)
    ensures r.Some? ==> r.value < |s|
  {
    if s == [] then None
    else if s[0] == close && Terminated(s[1..]) then Some(0)
    else
      var n :- LazyClose(close, s[1..]);
      Some(n + 1)
  }

  /** The lazy `[^;{\n]+?` before `\s*;`: the length of the shortest such body. */
  function ScalarBody(s: string): (r: Option<nat>)
    ensures r.Some? ==> r.value <= |s|
  {
    if s == [] || !ScalarChar(s[0]) then None
    else if Terminated(s[1..]) then Some(1)
    else
      match ScalarBody(s[1..])
      case None => None
      case Some(n) => Some(n + 1)
  }

  /** `\s*` gives characters back one by one when the body does not match behind it. */
  function ScalarFrom(t: string, r: nat): Option<string>
    requires r <= |t|
  {
    match ScalarBody(t[r..])
    case Some(n) => Some(t[r..][..n])
    case None => if r == 0 then None else ScalarFrom(t, r - 1)
  }

  datatype Kind = ObjectKind | ArrayKind | ScalarKind

  /** One of the three expressions at the start of `s`: its captured group. */
  function MatchHere(kind: Kind, s: string, name: string): Option<string> {
    var t :- AfterHead(s, name);
    var v := SkipSpace(t);
    match kind
    case ObjectKind =>
      if v != [] && v[0] == '{' then
        var n :- LazyClose('}', v[1..]);
        Some(v[..n + 2])
      else None
    case ArrayKind =>
      if NewArray.HeadAt(v) then
        var n :- LazyClose(')', v[10..]);
        Some(v[10..10 + n])
      else None
    case ScalarKind => ScalarFrom(t, Run(ReSpace, t))
  }

  /** The leftmost match. */
  function Find(kind: Kind, s: string, name: string): Option<string> {
    var m := MatchHere(kind, s, name);
    if m.Some? then m else if s == [] then None else Find(kind, s[1..], name)
  }

  function ExtractVar(js: string, name: string): string {
    match Find(ObjectKind, js, name)
    case Some(m) => JsToJson.TrimSpace(m)
    case None =>
      match Find(ArrayKind, js, name)
      case Some(m) => NewArray.HEAD + (m + [')'])
      case None =>
        match Find(ScalarKind, js, name)
        case Some(m) => JsToJson.TrimSpace(m)
        case None => ""
  }

  // ------------------------------------------------------------ page scripts

  predicate NameChar(c: char) {
    'a' <= c <= 'z' || 'A' <= c <= 'Z' || '0' <= c <= '9' || c == '_' || c == '$'
  }

  predicate NameOk(name: string) {
    name != [] && All(NameChar, name)
  }

  datatype DeclValue = ObjectText(inner: string) | ArrayText(body: string) | ScalarText(text: string)

  function ValueText(v: DeclValue): string {
    match v
    case ObjectText(inner) => ['{'] + (inner + ['}'])
    case ArrayText(body) => NewArray.HEAD + (body + [')'])
    case ScalarText(text) => text
  }

  /** `var NAME = VALUE;` with its white space, and the white space behind it. */
  datatype Decl = Decl(ws1: string, name: string, ws2: string, ws3: string, value: DeclValue, ws4: string, sep: string)

  /** What stands behind the declared value. */
  function Tail(d: Decl, rest: string): string {
    d.ws4 + ([';'] + (d.sep + rest))
  }

  function DeclText(d: Decl, rest: string): string {
    "var" + (d.ws1 + (d.name + (d.ws2 + (['='] + (d.ws3 + (ValueText(d.value) + Tail(d, rest)))))))
  }

  function Script(ds: seq<Decl>): string {
    if ds == [] then "" else DeclText(ds[0], Script(ds[1..]))
  }

  /** No closing character inside is followed by white space and a semicolon. */
  predicate NoEarlyEnd(close: char, inner: string) {
    forall j :: 0 <= j < |inner| ==> !(inner[j] == close && Terminated(inner[j + 1..]))
  }

  predicate ValueOk(v: DeclValue) {
    match v
    case ObjectText(inner) => NoEarlyEnd('}', inner)
    case ArrayText(body) => NoEarlyEnd(')', body)
    case ScalarText(text) =>
      && text != [] && All(ScalarChar, text) && !NewArray.HeadAt(text)
      && !JsToJson.IsSpace(text[0]) && !JsToJson.IsSpace(text[|text| - 1])
  }

  predicate LayoutOk(d: Decl) {
    && d.ws1 != [] && All(ReSpace, d.ws1) && NameOk(d.name) && All(ReSpace, d.ws2)
    && All(ReSpace, d.ws3) && All(ReSpace, d.ws4) && All(ReSpace, d.sep)
  }

  predicate DeclOk(d: Decl) {
    LayoutOk(d) && ValueOk(d.value)
  }

  /** The text holds no declaration head of that name. */
  predicate NoHeadIn(text: string, name: string) {
    forall i :: 0 <= i < |text| ==> AfterHead(text[i..], name).None?
  }

  /** Well-formed declarations with distinct names, whose values hold no declaration of `name`. */
  predicate ScriptOk(ds: seq<Decl>, name: string) {
    && (forall d <- ds :: DeclOk(d) && NoHeadIn(ValueText(d.value), name))
    && forall i, j :: 0 <= i < j < |ds| ==> ds[i].name != ds[j].name
  }

  // ------------------------------------------------------- white space lemmas

  lemma Skips(ws: string, t: string)
    requires All(ReSpace, ws) && !StartsWith(ReSpace, t)
    ensures SkipSpace(ws + t) == t
  {
    RunIs(ReSpace, ws, t);
  }

  lemma {:induction false} SkipSplit(y: string, tail: string)
    ensures SkipSpace(y + tail) == if SkipSpace(y) == [] then SkipSpace(tail) else SkipSpace(y) + tail
    ensures SkipSpace(y) != [] ==> !ReSpace(SkipSpace(y)[0])
  {
    if y == [] {
      assert y + tail == tail;
    } else if ReSpace(y[0]) {
      Cons(y, tail);
      SkipSplit(y[1..], tail);
      SubDrop(y, 1, Run(ReSpace, y[1..]));
      SubDrop(y + tail, 1, Run(ReSpace, y[1..] + tail));
    }
  }

  lemma TailSkips(d: Decl, rest: string)
    requires All(ReSpace, d.ws4)
    ensures SkipSpace(Tail(d, rest)) == [';'] + (d.sep + rest)
    ensures Terminated(Tail(d, rest))
    ensures Tail(d, rest) != [] && (Tail(d, rest)[0] == ';' || ReSpace(Tail(d, rest)[0]))
  {
    Skips(d.ws4, [';'] + (d.sep + rest));
    if d.ws4 != [] {
      assert ReSpace(d.ws4[0]);
    }
  }

  // ------------------------------------------------------- where heads can be

  /** The head's expression read as a relation: it matches exactly its spelled-out texts. */
  lemma HeadIs(ws1: string, name: string, ws2: string, t: string)
    requires ws1 != [] && All(ReSpace, ws1) && NameOk(name) && All(ReSpace, ws2)
    ensures AfterHead("var" + (ws1 + (name + (ws2 + (['='] + t)))), name) == Some(t)
  {
    var u := name + (ws2 + (['='] + t));
    var s := "var" + (ws1 + u);
    assert NameChar(name[0]) && u[0] == name[0];
    assert s[3..] == ws1 + u && ReSpace(ws1[0]);
    Skips(ws1, u);
    assert u[|name|..] == ws2 + (['='] + t);
    Skips(ws2, ['='] + t);
    assert (['='] + t)[1..] == t;
  }

  lemma OtherName(name: string, ws2: string, t: string, q: string)
    requires NameOk(name) && NameOk(q) && q != name && All(ReSpace, ws2)
    ensures AfterName(name + (ws2 + (['='] + t)), q) == None
  {
    var u := name + (ws2 + (['='] + t));
    var n := |q|;
    assert forall k :: 0 <= k < n ==> NameChar(q[k]);
    assert n < |name| ==> u[n..][0] == name[n] && NameChar(name[n]);
    assert u[|name|] == '=' || (ws2 != [] && u[|name|] == ws2[0] && ReSpace(ws2[0]));
    assert u[..|name|] == name;
  }

  lemma NoHeadOfOther(d: Decl, rest: string, q: string)
    requires DeclOk(d) && NameOk(q) && q != d.name
    ensures AfterHead(DeclText(d, rest), q) == None
  {
    hide ValueOk, ValueText, Tail;
    var t := d.ws3 + (ValueText(d.value) + Tail(d, rest));
    var u := d.name + (d.ws2 + (['='] + t));
    assert NameChar(d.name[0]) && u[0] == d.name[0];
    assert DeclText(d, rest)[3..] == d.ws1 + u;
    Skips(d.ws1, u);
    OtherName(d.name, d.ws2, t, q);
  }

  /** No head of `q` starts inside `w` when `rest` follows. */
  predicate NoHead(w: string, rest: string, q: string) {
    forall i :: 0 <= i < |w| ==> AfterHead(w[i..] + rest, q).None?
  }

  lemma {:induction false} FindSkips(kind: Kind, w: string, rest: string, q: string)
    requires NoHead(w, rest, q)
    ensures Find(kind, w + rest, q) == Find(kind, rest, q)
  {
    hide AfterHead;
    if w == [] {
      assert w + rest == rest;
    } else {
      assert w[0..] == w;
      forall i | 0 <= i < |w[1..]| ensures AfterHead(w[1..][i..] + rest, q).None? {
        SubDrop(w, 1, i);
      }
      FindSkips(kind, w[1..], rest, q);
      Cons(w, rest);
    }
  }

  lemma FindSkipsNoV(kind: Kind, w: string, rest: string, q: string)
    requires 'v' !in w
    ensures Find(kind, w + rest, q) == Find(kind, rest, q)
  {
    hide Find;
    forall i | 0 <= i < |w| ensures AfterHead(w[i..] + rest, q).None? {
      assert (w[i..] + rest)[0] == w[i];
      assert "var"[0] == 'v';
    }
    FindSkips(kind, w, rest, q);
  }

  lemma SpaceNoV(ws: string)
    requires All(ReSpace, ws)
    ensures 'v' !in ws
  {
    assert forall i :: 0 <= i < |ws| ==> ReSpace(ws[i]);
  }

  lemma NoHeadInName(x: string, ws2: string, t: string, q: string)
    requires All(NameChar, x) && x != [] && All(ReSpace, ws2) && NameOk(q)
    ensures AfterHead(x + (ws2 + (['='] + t)), q).None?
  {
    var e := ['='] + t;
    var s := x + (ws2 + e);
    assert |x| > 3 ==> s[3] == x[3] && NameChar(x[3]);
    if "var" <= s && StartsWith(ReSpace, s[3..]) {
      assert s[0] == 'v' && s[1] == 'a' && s[2] == 'r';
      assert forall k :: |x| <= k < |x| + |ws2| ==> s[k] == ws2[k - |x|] && ReSpace(ws2[k - |x|]);
      assert s[|x| + |ws2|] == '=';
      assert |x| >= 3;
      assert |x| == 3;
      assert s[3..] == ws2 + e;
      Skips(ws2, e);
      assert NameChar(q[0]);
    }
  }

  /** A head that starts inside a declared value lies inside it: it cannot pass the semicolon. */
  lemma NoHeadInValue(x: string, d: Decl, rest: string, q: string)
    requires x != [] && AfterHead(x, q).None? && NameOk(q) && All(ReSpace, d.ws4)
    ensures AfterHead(x + Tail(d, rest), q).None?
  {
    var tail := Tail(d, rest);
    var s := x + tail;
    hide Tail, Terminated, AfterName, SkipSpace;
    if "var" <= s && StartsWith(ReSpace, s[3..]) {
      TailSkips(d, rest);
      VarInside(x, tail);
      NoNameBehindSpace(x[3..], d, rest, q);
    }
  }

  /** `var` does not reach into a text that begins with white space or a semicolon. */
  lemma VarInside(x: string, tail: string)
    requires tail != [] && (tail[0] == ';' || ReSpace(tail[0])) && x != []
    requires "var" <= x + tail && StartsWith(ReSpace, (x + tail)[3..])
    ensures "var" <= x && (x + tail)[3..] == x[3..] + tail && (x[3..] == [] || StartsWith(ReSpace, x[3..]))
  {
    var s := x + tail;
    assert s[0] == 'v' && s[1] == 'a' && s[2] == 'r' && s[|x|] == tail[0];
    assert |x| >= 3;
    assert x[3..] != [] ==> s[3..][0] == x[3..][0];
  }

  lemma NoNameBehindSpace(x: string, d: Decl, rest: string, q: string)
    requires NameOk(q) && All(ReSpace, d.ws4)
    requires StartsWith(ReSpace, x) ==> AfterName(SkipSpace(x), q).None?
    requires x == [] || StartsWith(ReSpace, x)
    ensures AfterName(SkipSpace(x + Tail(d, rest)), q).None?
  {
    TailSkips(d, rest);
    SkipSplit(x, Tail(d, rest));
    hide Tail, SkipSpace;
    assert NameChar(q[0]);
    if SkipSpace(x) != [] {
      assert x != [];
      NoNameInValue(SkipSpace(x), d, rest, q);
    }
  }

  lemma NoNameInValue(y: string, d: Decl, rest: string, q: string)
    requires AfterName(y, q).None? && NameOk(q) && All(ReSpace, d.ws4)
    ensures AfterName(y + Tail(d, rest), q).None?
  {
    var tail := Tail(d, rest);
    hide Tail, SkipSpace, Terminated;
    TailSkips(d, rest);
    if q <= y + tail {
      NameInside(q, y, tail);
      SkipSplit(y[|q|..], tail);
    }
  }

  lemma NameInside(q: string, y: string, tail: string)
    requires NameOk(q) && tail != [] && (tail[0] == ';' || ReSpace(tail[0])) && q <= y + tail
    ensures q <= y && (y + tail)[|q|..] == y[|q|..] + tail
  {
    assert forall k :: 0 <= k < |q| ==> NameChar(q[k]) && q[k] == (y + tail)[k];
    assert (y + tail)[|y|] == tail[0];
    assert |q| <= |y|;
  }

  // ------------------------------------------------- skipping a declaration

  lemma FindSkipsValue(kind: Kind, d: Decl, rest: string, q: string)
    requires LayoutOk(d) && NameOk(q) && NoHeadIn(ValueText(d.value), q)
    ensures Find(kind, ValueText(d.value) + Tail(d, rest), q) == Find(kind, rest, q)
  {
    hide Find, AfterHead, ValueText;
    var w, tail := ValueText(d.value), Tail(d, rest);
    forall i | 0 <= i < |w| ensures AfterHead(w[i..] + tail, q).None? {
      NoHeadInValue(w[i..], d, rest, q);
    }
    FindSkips(kind, w, tail, q);
    SpaceNoV(d.ws4);
    SpaceNoV(d.sep);
    FindSkipsNoV(kind, d.ws4, [';'] + (d.sep + rest), q);
    FindSkipsNoV(kind, [';'], d.sep + rest, q);
    FindSkipsNoV(kind, d.sep, rest, q);
  }

  lemma FindSkipsName(kind: Kind, name: string, ws2: string, t: string, q: string)
    requires NameOk(name) && All(ReSpace, ws2) && NameOk(q)
    ensures Find(kind, name + (ws2 + (['='] + t)), q) == Find(kind, t, q)
  {
    hide Find, AfterHead;
    var rest := ws2 + (['='] + t);
    forall i | 0 <= i < |name| ensures AfterHead(name[i..] + rest, q).None? {
      NoHeadInName(name[i..], ws2, t, q);
    }
    FindSkips(kind, name, rest, q);
    SpaceNoV(ws2);
    FindSkipsNoV(kind, ws2, ['='] + t, q);
    FindSkipsNoV(kind, ['='], t, q);
  }

  lemma FindSkipsVar(kind: Kind, body: string, q: string)
    ensures MatchHere(kind, "var" + body, q) == None ==> Find(kind, "var" + body, q) == Find(kind, body, q)
  {
    hide MatchHere;
    assert ("var" + body)[1..] == "ar" + body;
    FindSkipsNoV(kind, "ar", body, q);
  }

  /** If the expression does not match at a declaration, the search goes on behind it. */
  lemma FindSkipsDecl(kind: Kind, d: Decl, rest: string, q: string)
    requires LayoutOk(d) && NameOk(q) && NoHeadIn(ValueText(d.value), q)
    requires MatchHere(kind, DeclText(d, rest), q) == None
    ensures Find(kind, DeclText(d, rest), q) == Find(kind, rest, q)
  {
    var t := d.ws3 + (ValueText(d.value) + Tail(d, rest));
    var u := d.name + (d.ws2 + (['='] + t));
    FindSkipsVar(kind, d.ws1 + u, q);
    assert DeclText(d, rest) == "var" + (d.ws1 + u);
    assert NameOk(d.name) && All(ReSpace, d.ws1) && All(ReSpace, d.ws2) && All(ReSpace, d.ws3);
    hide *;
    SpaceNoV(d.ws1);
    FindSkipsNoV(kind, d.ws1, u, q);
    FindSkipsName(kind, d.name, d.ws2, t, q);
    SpaceNoV(d.ws3);
    FindSkipsNoV(kind, d.ws3, ValueText(d.value) + Tail(d, rest), q);
    FindSkipsValue(kind, d, rest, q);
  }

  lemma NoMatchWithoutHead(kind: Kind, s: string, q: string)
    requires AfterHead(s, q) == None
    ensures MatchHere(kind, s, q) == None
  {
  }

  lemma {:induction false} FindAbsent(kind: Kind, ds: seq<Decl>, q: string)
    requires NameOk(q) && ScriptOk(ds, q) && forall d <- ds :: d.name != q
    ensures Find(kind, Script(ds), q) == None
  {
    if ds == [] {
      assert AfterHead("", q) == None;
    } else {
      var rest := Script(ds[1..]);
      RestOk(ds, q);
      FindAbsent(kind, ds[1..], q);
      hide Find, MatchHere, AfterHead, DeclOk, NoHeadIn;
      NoHeadOfOther(ds[0], rest, q);
      NoMatchWithoutHead(kind, DeclText(ds[0], rest), q);
      FindSkipsDecl(kind, ds[0], rest, q);
    }
  }

  // --------------------------------------------------- the declared value itself

  lemma LazyStep(close: char, s: string)
    requires s != []
    ensures s[0] == close && Terminated(s[1..]) ==> LazyClose(close, s) == Some(0)
    ensures !(s[0] == close && Terminated(s[1..])) ==>
              LazyClose(close, s) ==
              (match LazyClose(close, s[1..]) case None => None case Some(n) => Some(n + 1))
  {
  }

  lemma NoEarlyEndTail(close: char, inner: string)
    requires inner != []
    ensures NoEarlyEnd(close, inner) <==>
            !(inner[0] == close && Terminated(inner[1..])) && NoEarlyEnd(close, inner[1..])
  {
    hide Terminated;
    var u := inner[1..];
    forall j | 0 <= j < |u| ensures u[j] == inner[j + 1] && u[j + 1..] == inner[j + 2..] {
      SubDrop(inner, 1, j + 1);
    }
    if NoEarlyEnd(close, inner) {
      forall j | 0 <= j < |u| ensures !(u[j] == close && Terminated(u[j + 1..])) {
        assert !(inner[j + 1] == close && Terminated(inner[j + 2..]));
      }
    } else {
      var j :| 0 <= j < |inner| && inner[j] == close && Terminated(inner[j + 1..]);
      if j > 0 {
        assert u[j - 1] == inner[j] && Terminated(u[j - 1 + 1..]);
      }
    }
  }

  /** Termination looks no further than the first character that is not white space. */
  lemma TerminatedInside(y: string, tail: string)
    ensures Terminated(y) ==> Terminated(y + tail)
    ensures tail != [] && !ReSpace(tail[0]) && tail[0] != ';' ==> (Terminated(y + tail) ==> Terminated(y))
  {
    SkipSplit(y, tail);
    if tail != [] && !ReSpace(tail[0]) {
      Skips("", tail);
      assert "" + tail == tail;
    }
  }

  lemma {:induction false} LazyCloseAt(close: char, inner: string, rest: string)
    requires NoEarlyEnd(close, inner) && Terminated(rest) && close != ';' && !ReSpace(close)
    ensures LazyClose(close, inner + ([close] + rest)) == Some(|inner|)
  {
    hide *;
    var tail := [close] + rest;
    LazyStep(close, inner + tail);
    if inner == [] {
      assert inner + tail == tail && tail[1..] == rest;
    } else {
      Cons(inner, tail);
      NoEarlyEndTail(close, inner);
      TerminatedInside(inner[1..], tail);
      LazyCloseAt(close, inner[1..], rest);
    }
  }

  lemma {:induction false} ScalarBodyAt(text: string, tail: string)
    requires text != [] && All(ScalarChar, text) && !ReSpace(text[|text| - 1]) && Terminated(tail)
    ensures ScalarBody(text + tail) == Some(|text|)
  {
    hide *;
    Cons(text, tail);
    ScalarTail(text);
    ScalarBodyStep(text + tail);
    if |text| == 1 {
      assert text[1..] + tail == tail;
    } else {
      ScalarBodyAt(text[1..], tail);
      NotTerminated(text[1..], tail);
    }
  }

  lemma ScalarTail(text: string)
    requires text != [] && All(ScalarChar, text)
    ensures ScalarChar(text[0]) && All(ScalarChar, text[1..])
  {
  }

  lemma ScalarBodyStep(s: string)
    requires s != [] && ScalarChar(s[0])
    ensures Terminated(s[1..]) ==> ScalarBody(s) == Some(1)
    ensures !Terminated(s[1..]) ==>
              ScalarBody(s) == (match ScalarBody(s[1..]) case None => None case Some(n) => Some(n + 1))
  {
    hide Terminated, ScalarChar;
  }

  lemma NotTerminated(y: string, tail: string)
    requires y != [] && All(ScalarChar, y) && !ReSpace(y[|y| - 1])
    ensures !Terminated(y + tail)
  {
    NonSpaceSurvives(y);
    hide SkipSpace;
    SkipSplit(y, tail);
  }

  lemma NonSpaceSurvives(y: string)
    requires y != [] && All(ScalarChar, y) && !ReSpace(y[|y| - 1])
    ensures SkipSpace(y) != [] && SkipSpace(y)[0] != ';'
  {
    RunAll(ReSpace, y);
    var n := Run(ReSpace, y);
    assert y[..|y|] == y;
    assert forall k :: 0 <= k < |y| ==> ScalarChar(y[k]);
  }

  lemma GoSpaceCoversReSpace(c: char)
    ensures ReSpace(c) ==> JsToJson.IsSpace(c)
  {
  }

  /** What the expressions see behind the head of a declaration. */
  lemma BehindHead(d: Decl, rest: string)
    requires LayoutOk(d) && !StartsWith(ReSpace, ValueText(d.value) + Tail(d, rest))
    ensures var v := ValueText(d.value) + Tail(d, rest);
            AfterHead(DeclText(d, rest), d.name) == Some(d.ws3 + v) && SkipSpace(d.ws3 + v) == v
  {
    hide ValueText, Tail, AfterHead;
    var v := ValueText(d.value) + Tail(d, rest);
    HeadIs(d.ws1, d.name, d.ws2, d.ws3 + v);
    Skips(d.ws3, v);
  }

  lemma ObjectGroup(inner: string, tail: string)
    requires NoEarlyEnd('}', inner) && Terminated(tail)
    ensures var v := ['{'] + (inner + ['}']) + tail;
            LazyClose('}', v[1..]) == Some(|inner|) && v[..|inner| + 2] == ['{'] + (inner + ['}'])
  {
    hide Terminated, LazyClose;
    var v := ['{'] + (inner + ['}']) + tail;
    assert v[1..] == inner + (['}'] + tail);
    LazyCloseAt('}', inner, tail);
  }

  /** Behind the head: the captured group of the expression that fits, and of no earlier one. */
  lemma MatchObject(d: Decl, rest: string)
    requires DeclOk(d) && d.value.ObjectText?
    ensures MatchHere(ObjectKind, DeclText(d, rest), d.name) == Some(ValueText(d.value))
  {
    TailSkips(d, rest);
    BehindHead(d, rest);
    ObjectGroup(d.value.inner, Tail(d, rest));
    hide AfterHead, DeclText, Tail, LazyClose, SkipSpace, Terminated;
  }

  lemma ArrayGroup(body: string, tail: string)
    requires NoEarlyEnd(')', body) && Terminated(tail)
    ensures var v := NewArray.HEAD + (body + [')']) + tail;
            && NewArray.HeadAt(v) && v[0] == 'n'
            && LazyClose(')', v[10..]) == Some(|body|) && v[10..10 + |body|] == body
  {
    hide Terminated, LazyClose;
    var v := NewArray.HEAD + (body + [')']) + tail;
    assert v[10..] == body + ([')'] + tail);
    assert v[0] == NewArray.HEAD[0];
    LazyCloseAt(')', body, tail);
  }

  lemma MatchArray(d: Decl, rest: string)
    requires DeclOk(d) && d.value.ArrayText?
    ensures MatchHere(ObjectKind, DeclText(d, rest), d.name) == None
    ensures MatchHere(ArrayKind, DeclText(d, rest), d.name) == Some(d.value.body)
  {
    TailSkips(d, rest);
    ArrayGroup(d.value.body, Tail(d, rest));
    BehindHead(d, rest);
    hide AfterHead, DeclText, Tail, LazyClose, SkipSpace, Terminated, NewArray.HeadAt;
  }

  lemma NoHeadAtScalar(text: string, d: Decl, rest: string)
    requires !NewArray.HeadAt(text) && All(ReSpace, d.ws4)
    ensures !NewArray.HeadAt(text + Tail(d, rest))
  {
    var s := text + Tail(d, rest);
    var m := |text| + |d.ws4|;
    assert s[m] == ';' && ';' !in NewArray.HEAD;
    assert forall k :: |text| <= k < m ==> s[k] == d.ws4[k - |text|] && ReSpace(d.ws4[k - |text|]);
    assert NewArray.HEAD[9] == '(';
    assert |text| >= 10 ==> s[..10] == text[..10];
  }

  /** Behind the head of a scalar: the expression that fits, and what the earlier ones see. */
  lemma MatchText(d: Decl, rest: string)
    requires LayoutOk(d) && d.value.ScalarText? && d.value.text != [] && All(ScalarChar, d.value.text)
    requires !JsToJson.IsSpace(d.value.text[0]) && !JsToJson.IsSpace(d.value.text[|d.value.text| - 1])
    ensures MatchHere(ObjectKind, DeclText(d, rest), d.name) == None
    ensures var v := d.value.text + Tail(d, rest);
            (NewArray.HeadAt(v) ==> LazyClose(')', v[10..]) == None) ==>
              MatchHere(ArrayKind, DeclText(d, rest), d.name) == None
    ensures MatchHere(ScalarKind, DeclText(d, rest), d.name) == Some(d.value.text)
  {
    hide *;
    var text, tail := d.value.text, Tail(d, rest);
    ScalarStart(text, tail);
    ScalarLayout(d);
    TailSkips(d, rest);
    BehindHead(d, rest);
    RunIs(ReSpace, d.ws3, text + tail);
    ScalarBodyAt(text, tail);
    assert (text + tail)[..|text|] == text;
    MatchKinds(DeclText(d, rest), d.name, d.ws3, text + tail, |text|);
  }

  lemma ScalarLayout(d: Decl)
    requires LayoutOk(d) && d.value.ScalarText?
    ensures ValueText(d.value) == d.value.text && All(ReSpace, d.ws3) && All(ReSpace, d.ws4)
  {
  }

  /** What the expressions capture behind a head, if no brace follows. */
  lemma MatchKinds(s: string, name: string, ws: string, v: string, n: nat)
    requires AfterHead(s, name) == Some(ws + v) && SkipSpace(ws + v) == v && Run(ReSpace, ws + v) == |ws|
    requires ScalarBody(v) == Some(n) && v != [] && v[0] != '{'
    ensures MatchHere(ObjectKind, s, name) == None
    ensures (NewArray.HeadAt(v) ==> LazyClose(')', v[10..]) == None) ==> MatchHere(ArrayKind, s, name) == None
    ensures MatchHere(ScalarKind, s, name) == Some(v[..n])
  {
    hide AfterHead, ScalarBody, LazyClose, SkipSpace, Run, NewArray.HeadAt;
    assert (ws + v)[|ws|..] == v;
  }

  lemma ScalarStart(text: string, tail: string)
    requires text != [] && All(ScalarChar, text)
    requires !JsToJson.IsSpace(text[0]) && !JsToJson.IsSpace(text[|text| - 1])
    ensures var v := text + tail; v != [] && !StartsWith(ReSpace, v) && v[0] != '{'
    ensures !ReSpace(text[|text| - 1])
  {
    GoSpaceCoversReSpace(text[0]);
    GoSpaceCoversReSpace(text[|text| - 1]);
    assert ScalarChar(text[0]) && (text + tail)[0] == text[0];
  }

  lemma MatchScalar(d: Decl, rest: string)
    requires DeclOk(d) && d.value.ScalarText?
    ensures MatchHere(ObjectKind, DeclText(d, rest), d.name) == None
    ensures MatchHere(ArrayKind, DeclText(d, rest), d.name) == None
    ensures MatchHere(ScalarKind, DeclText(d, rest), d.name) == Some(d.value.text)
  {
    hide MatchHere, DeclText, Tail, NewArray.HeadAt, LazyClose;
    MatchText(d, rest);
    NoHeadAtScalar(d.value.text, d, rest);
  }

  lemma TrimmedAlready(s: string)
    requires s != [] && !JsToJson.IsSpace(s[0]) && !JsToJson.IsSpace(s[|s| - 1])
    ensures JsToJson.TrimSpace(s) == s
  {
    JsToJson.Trims("", s, "");
    assert "" + (s + "") == s;
  }

  lemma FindsHere(kind: Kind, s: string, q: string)
    ensures MatchHere(kind, s, q).Some? ==> Find(kind, s, q) == MatchHere(kind, s, q)
  {
  }

  lemma ExtractHere(d: Decl, rest: string)
    requires DeclOk(d) && NoHeadIn(ValueText(d.value), d.name)
    requires Find(ObjectKind, rest, d.name) == None && Find(ArrayKind, rest, d.name) == None
    ensures ExtractVar(DeclText(d, rest), d.name) == ValueText(d.value)
  {
    var s := DeclText(d, rest);
    FindsHere(ObjectKind, s, d.name);
    FindsHere(ArrayKind, s, d.name);
    FindsHere(ScalarKind, s, d.name);
    hide Find, MatchHere, NoHeadIn, DeclText, JsToJson.TrimSpace, AfterHead, NewArray.HeadAt, Script;
    match d.value
    case ObjectText(inner) =>
      MatchObject(d, rest);
      TrimmedAlready(ValueText(d.value));
    case ArrayText(body) =>
      MatchArray(d, rest);
      FindSkipsDecl(ObjectKind, d, rest, d.name);
    case ScalarText(text) =>
      MatchScalar(d, rest);
      FindSkipsDecl(ObjectKind, d, rest, d.name);
      FindSkipsDecl(ArrayKind, d, rest, d.name);
      TrimmedAlready(text);
  }

  lemma ExtractSkips(d: Decl, rest: string, q: string)
    requires DeclOk(d) && NoHeadIn(ValueText(d.value), q) && NameOk(q) && q != d.name
    ensures ExtractVar(DeclText(d, rest), q) == ExtractVar(rest, q)
  {
    assert LayoutOk(d);
    hide *;
    var s := DeclText(d, rest);
    NoHeadOfOther(d, rest, q);
    forall kind ensures Find(kind, s, q) == Find(kind, rest, q) {
      NoMatchWithoutHead(kind, s, q);
      FindSkipsDecl(kind, d, rest, q);
    }
    SameFound(s, rest, q);
  }

  lemma SameFound(s: string, t: string, q: string)
    requires forall kind :: Find(kind, s, q) == Find(kind, t, q)
    ensures ExtractVar(s, q) == ExtractVar(t, q)
  {
    hide Find, JsToJson.TrimSpace;
  }

  lemma RestOk(ds: seq<Decl>, q: string)
    requires ds != [] && ScriptOk(ds, q)
    ensures ScriptOk(ds[1..], q)
    ensures forall d <- ds[1..] :: d.name != ds[0].name
  {
    forall i, j | 0 <= i < j < |ds[1..]| ensures ds[1..][i].name != ds[1..][j].name {
      assert ds[i + 1].name != ds[j + 1].name;
    }
  }

  lemma ExtractsFirst(ds: seq<Decl>)
    requires ds != [] && ScriptOk(ds, ds[0].name)
    ensures ExtractVar(Script(ds), ds[0].name) == ValueText(ds[0].value)
  {
    var d, q := ds[0], ds[0].name;
    RestOk(ds, q);
    assert DeclOk(d) && NameOk(q) && NoHeadIn(ValueText(d.value), q);
    hide ExtractVar, NoHeadIn, DeclOk, ValueText, DeclText, Find, ScriptOk;
    FindAbsent(ObjectKind, ds[1..], q);
    FindAbsent(ArrayKind, ds[1..], q);
    ExtractHere(d, Script(ds[1..]));
  }

  /** Extraction round trip: from a script of declarations each name gets exactly its declared value. */
  lemma {:induction false} ExtractsDeclared(ds: seq<Decl>, i: nat, d: Decl)
    requires i < |ds| && ds[i] == d && ScriptOk(ds, d.name)
    ensures ExtractVar(Script(ds), d.name) == ValueText(d.value)
  {
    if i == 0 {
      ExtractsFirst(ds);
    } else {
      ExtractsDeclared(ds[1..], i - 1, d) by {
        RestOk(ds, d.name);
      }
      SkipFirst(ds, i, d.name);
    }
  }

  lemma SkipFirst(ds: seq<Decl>, i: nat, q: string)
    requires 0 < i < |ds| && ds[i].name == q && ScriptOk(ds, q)
    ensures ExtractVar(Script(ds), q) == ExtractVar(Script(ds[1..]), q)
  {
    var d := ds[0];
    assert DeclOk(ds[i]) && NameOk(q) && q != d.name;
    assert DeclOk(d) && NoHeadIn(ValueText(d.value), q);
    assert Script(ds) == DeclText(d, Script(ds[1..]));
    hide *;
    ExtractSkips(d, Script(ds[1..]), q);
  }

  /** A name that is not declared gives the empty string. */
  lemma ExtractsNothing(ds: seq<Decl>, q: string)
    requires NameOk(q) && ScriptOk(ds, q) && forall d <- ds :: d.name != q
    ensures ExtractVar(Script(ds), q) == ""
  {
    FindAbsent(ObjectKind, ds, q);
    FindAbsent(ArrayKind, ds, q);
    FindAbsent(ScalarKind, ds, q);
  }
}
