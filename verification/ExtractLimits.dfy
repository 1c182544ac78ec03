/** When the text of a declaration is extracted whole, and what extraction can give at all. */
module ExtractLimits {
  import opened Extraction = ExtractVar
  import opened Text
  import opened Wrappers
  import JsToJson
  import NewArray

  // ------------------------------------------------------- the shapes of results

  lemma {:induction false} TrimRightIs(s: string)
    ensures JsToJson.TrimRight(s) <= s
    ensures var t := JsToJson.TrimRight(s); t == [] || !JsToJson.IsSpace(t[|t| - 1])
  {
    if s != [] && JsToJson.IsSpace(s[|s| - 1]) {
      TrimRightIs(s[..|s| - 1]);
    }
  }

  /** Trimming takes from both ends, and all the white space there. */
  lemma TrimIs(s: string) returns (i: nat)
    ensures var t := JsToJson.TrimSpace(s);
            && i + |t| <= |s| && t == s[i..i + |t|]
            && (t == [] || JsToJson.NoSpaceEnds(t))
  {
    i := Run(JsToJson.IsSpace, s);
    RunAll(JsToJson.IsSpace, s);
    TrimRightIs(s[i..]);
    hide JsToJson.TrimRight, Run;
    var t := JsToJson.TrimSpace(s);
    SubSlice(s, i, 0, |t|);
    assert s[i..][0..|t|] == s[i..][..|t|] == t;
    assert t != [] ==> t[0] == s[i..][0];
  }

  predicate ObjectShape(t: string) {
    |t| > 1 && t[0] == '{' && t[|t| - 1] == '}'
  }

  predicate ArrayShape(t: string) {
    |t| > 10 && NewArray.HeadAt(t) && t[|t| - 1] == ')'
  }

  lemma {:induction false} LazyCloseIs(close: char, s: string)
    ensures LazyClose(close, s).Some? ==> s[LazyClose(close, s).value] == close
    ensures LazyClose(close, s) == None <==> NoEarlyEnd(close, s)
  {
    if s != [] {
      NoEarlyEndTail(close, s);
      LazyCloseIs(close, s[1..]);
      hide NoEarlyEnd, Terminated;
    }
  }

  lemma {:induction false} ScalarBodyIs(s: string)
    ensures ScalarBody(s).Some? ==> All(ScalarChar, s[..ScalarBody(s).value])
  {
    hide Terminated;
    if s != [] && ScalarChar(s[0]) {
      ScalarBodyIs(s[1..]);
      if ScalarBody(s).Some? {
        var n := ScalarBody(s).value;
        assert s[..n] == [s[0]] + s[1..][..n - 1];
      }
    }
  }

  lemma {:induction false} ScalarFromIs(t: string, r: nat)
    requires r <= |t|
    ensures ScalarFrom(t, r).Some? ==> All(ScalarChar, ScalarFrom(t, r).value)
  {
    hide ScalarBody;
    ScalarBodyIs(t[r..]);
    if ScalarBody(t[r..]) == None && r > 0 {
      ScalarFromIs(t, r - 1);
    }
  }

  /** What an expression captures. */
  predicate GroupShape(kind: Kind, m: string) {
    match kind
    case ObjectKind => ObjectShape(m)
    case ArrayKind => true
    case ScalarKind => All(ScalarChar, m)
  }

  lemma GroupOfMatch(kind: Kind, s: string, name: string)
    ensures MatchHere(kind, s, name).Some? ==> GroupShape(kind, MatchHere(kind, s, name).value)
  {
    hide AfterHead, LazyClose, ScalarFrom, SkipSpace, Run, NewArray.HeadAt;
    if AfterHead(s, name).Some? {
      var t := AfterHead(s, name).value;
      var v := SkipSpace(t);
      match kind
      case ObjectKind => LazyCloseIs('}', if v == [] then [] else v[1..]);
      case ArrayKind =>
      case ScalarKind => ScalarFromIs(t, Run(ReSpace, t));
    }
  }

  lemma {:induction false} GroupOfFind(kind: Kind, s: string, name: string)
    ensures Find(kind, s, name).Some? ==> GroupShape(kind, Find(kind, s, name).value)
  {
    hide MatchHere, GroupShape;
    GroupOfMatch(kind, s, name);
    if MatchHere(kind, s, name) == None && s != [] {
      GroupOfFind(kind, s[1..], name);
    }
  }

  /** Whatever the page, what is extracted has no white space at its ends and one of three shapes. */
  lemma ExtractShape(js: string, name: string)
    ensures var r := Extraction.ExtractVar(js, name);
            && (r == [] || JsToJson.NoSpaceEnds(r))
            && (ObjectShape(r) || ArrayShape(r) || All(ScalarChar, r))
    ensures Find(ObjectKind, js, name) == None && Find(ArrayKind, js, name).Some? ==>
              ArrayShape(Extraction.ExtractVar(js, name))
  {
    hide Find, JsToJson.TrimSpace;
    GroupOfFind(ObjectKind, js, name);
    GroupOfFind(ScalarKind, js, name);
    match Find(ObjectKind, js, name)
    case Some(m) =>
      assert JsToJson.NoSpaceEnds(m);
      TrimmedAlready(m);
    case None =>
      match Find(ArrayKind, js, name)
      case Some(m) =>
        assert NewArray.HEAD[0] == 'n';
      case None =>
        match Find(ScalarKind, js, name)
        case Some(m) =>
          var i := TrimIs(m);
        case None =>
  }

  // ------------------------------------------------------ objects and arrays


  lemma {:induction false} LazyCloseEarly(close: char, inner: string, rest: string)
    requires !NoEarlyEnd(close, inner)
    ensures LazyClose(close, inner + rest).Some? && LazyClose(close, inner + rest).value < |inner|
  {
    assert inner != [];
    hide *;
    LazyStep(close, inner + rest);
    Cons(inner, rest);
    NoEarlyEndTail(close, inner);
    TerminatedInside(inner[1..], rest);
    if !(inner[0] == close && Terminated(inner[1..])) {
      LazyCloseEarly(close, inner[1..], rest);
    }
  }

  lemma ObjectGroupEarly(inner: string, tail: string)
    requires !NoEarlyEnd('}', inner)
    ensures var v := ['{'] + (inner + ['}']) + tail;
            LazyClose('}', v[1..]).Some? && LazyClose('}', v[1..]).value < |inner|
  {
    hide LazyClose, NoEarlyEnd;
    var v := ['{'] + (inner + ['}']) + tail;
    assert v[1..] == inner + (['}'] + tail);
    LazyCloseEarly('}', inner, ['}'] + tail);
  }

  lemma ObjectCutShort(d: Decl, rest: string)
    requires LayoutOk(d) && d.value.ObjectText? && !NoEarlyEnd('}', d.value.inner)
    ensures var m := MatchHere(ObjectKind, DeclText(d, rest), d.name);
            m.Some? && |m.value| < |ValueText(d.value)|
  {
    BehindHead(d, rest);
    ObjectGroupEarly(d.value.inner, Tail(d, rest));
    hide AfterHead, DeclText, Tail, LazyClose, SkipSpace, NoEarlyEnd;
  }

  lemma ArrayGroupEarly(body: string, tail: string)
    requires !NoEarlyEnd(')', body)
    ensures var v := NewArray.HEAD + (body + [')']) + tail;
            && NewArray.HeadAt(v) && v[0] == 'n'
            && LazyClose(')', v[10..]).Some? && LazyClose(')', v[10..]).value < |body|
  {
    hide LazyClose, NoEarlyEnd;
    var v := NewArray.HEAD + (body + [')']) + tail;
    assert v[10..] == body + ([')'] + tail);
    assert v[0] == NewArray.HEAD[0];
    LazyCloseEarly(')', body, [')'] + tail);
  }

  lemma ArrayCutShort(d: Decl, rest: string)
    requires LayoutOk(d) && d.value.ArrayText? && !NoEarlyEnd(')', d.value.body)
    ensures MatchHere(ObjectKind, DeclText(d, rest), d.name) == None
    ensures var m := MatchHere(ArrayKind, DeclText(d, rest), d.name);
            m.Some? && |m.value| < |d.value.body|
  {
    hide AfterHead, DeclText, Tail, LazyClose, SkipSpace, NoEarlyEnd, NewArray.HeadAt;
    ArrayGroupEarly(d.value.body, Tail(d, rest));
    BehindHead(d, rest);
  }

  /** An object or array is extracted whole exactly when nothing inside it ends it early. */
  lemma StructureWholeIff(d: Decl, rest: string)
    requires LayoutOk(d) && !d.value.ScalarText? && NoHeadIn(ValueText(d.value), d.name)
    requires Find(ObjectKind, rest, d.name) == None
    ensures ExtractVar(DeclText(d, rest), d.name) == ValueText(d.value) <==>
            (match d.value
             case ObjectText(inner) => NoEarlyEnd('}', inner)
             case ArrayText(body) => NoEarlyEnd(')', body)
             case ScalarText(_) => true)
  {
    var s := DeclText(d, rest);
    if ValueOk(d.value) {
      MatchOwn(d, rest);
    } else {
      FindsHere(ObjectKind, s, d.name);
      FindsHere(ArrayKind, s, d.name);
      if d.value.ObjectText? {
        ObjectCutShort(d, rest);
        var i := TrimIs(MatchHere(ObjectKind, s, d.name).value);
        hide Find, MatchHere, NoHeadIn, DeclText, JsToJson.TrimSpace, AfterHead, NewArray.HeadAt, NoEarlyEnd;
      } else {
        ArrayCutShort(d, rest);
        hide Find, MatchHere, NoHeadIn, DeclText, JsToJson.TrimSpace, AfterHead, NewArray.HeadAt, NoEarlyEnd;
        FindSkipsDecl(ObjectKind, d, rest, d.name);
      }
    }
  }

  lemma MatchOwn(d: Decl, rest: string)
    requires DeclOk(d) && !d.value.ScalarText? && NoHeadIn(ValueText(d.value), d.name)
    requires Find(ObjectKind, rest, d.name) == None
    ensures ExtractVar(DeclText(d, rest), d.name) == ValueText(d.value)
  {
    var s := DeclText(d, rest);
    FindsHere(ObjectKind, s, d.name);
    FindsHere(ArrayKind, s, d.name);
    hide Find, MatchHere, NoHeadIn, DeclText, JsToJson.TrimSpace, AfterHead, NewArray.HeadAt, Script;
    if d.value.ObjectText? {
      MatchObject(d, rest);
      TrimmedAlready(ValueText(d.value));
    } else {
      MatchArray(d, rest);
      FindSkipsDecl(ObjectKind, d, rest, d.name);
    }
  }

  // ---------------------------------------------------------------- scalars

  /**
    * The text is extracted whole when `tail` follows.  An object or constructor must not end early; a text
    * that only begins like a constructor must not be taken for one; any other must be free of `;`, `{` and
    * line breaks.
    */
  predicate Whole(text: string, tail: string) {
    text == [] ||
    (&& JsToJson.NoSpaceEnds(text)
     && if ObjectShape(text) then NoEarlyEnd('}', Inside(text, 1))
        else if ArrayShape(text) then NoEarlyEnd(')', Inside(text, 10))
        else All(ScalarChar, text) && (NewArray.HeadAt(text) ==> NoEarlyEnd(')', text[10..] + tail)))
  }

  function Inside(t: string, i: nat): string
    requires i < |t|
  {
    t[i..|t| - 1]
  }

  /** The same line with its value read as an object or a constructor, if it looks like one. */
  function Reread(d: Decl): Decl {
    var t := ValueText(d.value);
    if ObjectShape(t) then d.(value := ObjectText(Inside(t, 1)))
    else if ArrayShape(t) then d.(value := ArrayText(Inside(t, 10)))
    else d
  }

  lemma SameLine(d: Decl, rest: string)
    ensures ValueText(Reread(d).value) == ValueText(d.value)
    ensures DeclText(Reread(d), rest) == DeclText(d, rest) && Tail(Reread(d), rest) == Tail(d, rest)
    ensures LayoutOk(d) ==> LayoutOk(Reread(d))
    ensures Reread(d).name == d.name
  {
    var t := ValueText(d.value);
    if ObjectShape(t) {
      assert t == ['{'] + (t[1..|t| - 1] + ['}']);
    } else if ArrayShape(t) {
      assert t == NewArray.HEAD + (t[10..|t| - 1] + [')']);
    }
  }

  lemma RereadIs(d: Decl)
    ensures var t := ValueText(d.value);
            match Reread(d).value
            case ObjectText(inner) => ObjectShape(t) && inner == Inside(t, 1)
            case ArrayText(body) => !ObjectShape(t) && ArrayShape(t) && body == Inside(t, 10)
            case ScalarText(text) => d.value.ScalarText? && !ObjectShape(t) && !ArrayShape(t) && text == t
  {
    var t := ValueText(d.value);
    assert NewArray.HEAD[0] == 'n';
    if d.value.ArrayText? {
      assert NewArray.HeadAt(t);
    }
  }

  lemma WholeIs(text: string, tail: string)
    requires !ObjectShape(text) && !ArrayShape(text)
    ensures Whole(text, tail) <==>
            text == [] ||
            (&& JsToJson.NoSpaceEnds(text) && All(ScalarChar, text)
             && (NewArray.HeadAt(text) ==> NoEarlyEnd(')', text[10..] + tail)))
  {
    hide JsToJson.NoSpaceEnds, All, NoEarlyEnd, ObjectShape, ArrayShape;
  }

  /** A text that is none of the shapes is extracted whole only as a scalar. */
  lemma ScalarWholeIff(d: Decl, rest: string)
    requires LayoutOk(d) && d.value.ScalarText? && NoHeadIn(d.value.text, d.name)
    requires Find(ObjectKind, rest, d.name) == None
    requires Find(ArrayKind, rest, d.name) == None && Find(ScalarKind, rest, d.name) == None
    requires !ObjectShape(d.value.text) && !ArrayShape(d.value.text)
    ensures Extraction.ExtractVar(DeclText(d, rest), d.name) == d.value.text <==> Whole(d.value.text, Tail(d, rest))
  {
    assert ValueText(d.value) == d.value.text;
    hide *;
    WholeIs(d.value.text, Tail(d, rest));
    var text, s := d.value.text, DeclText(d, rest);
    ExtractShape(s, d.name);
    if text == [] {
      NothingDeclared(d, rest);
    } else if JsToJson.NoSpaceEnds(text) && All(ScalarChar, text) {
      ScalarFound(d, rest);
    }
  }

  /** A scalar is taken for a constructor if it begins like one and a closing parenthesis ends the search. */
  lemma ScalarFound(d: Decl, rest: string)
    requires LayoutOk(d) && d.value.ScalarText? && NoHeadIn(d.value.text, d.name)
    requires Find(ObjectKind, rest, d.name) == None && Find(ArrayKind, rest, d.name) == None
    requires JsToJson.NoSpaceEnds(d.value.text) && All(ScalarChar, d.value.text) && !ArrayShape(d.value.text)
    ensures Extraction.ExtractVar(DeclText(d, rest), d.name) == d.value.text <==>
            (NewArray.HeadAt(d.value.text) ==> NoEarlyEnd(')', d.value.text[10..] + Tail(d, rest)))
  {
    var text, s := d.value.text, DeclText(d, rest);
    var v := text + Tail(d, rest);
    assert ValueText(d.value) == text;
    MatchText(d, rest);
    TakenForArray(d, rest);
    ExtractShape(s, d.name);
    FindsHere(ArrayKind, s, d.name);
    FindsHere(ScalarKind, s, d.name);
    hide *;
    FindSkipsDecl(ObjectKind, d, rest, d.name);
    if NewArray.HeadAt(text) && !NoEarlyEnd(')', text[10..] + Tail(d, rest)) {
    } else {
      FindSkipsDecl(ArrayKind, d, rest, d.name);
      ScalarTrimmed(s, d.name, text);
    }
  }

  lemma ScalarTrimmed(s: string, name: string, text: string)
    requires Find(ObjectKind, s, name) == None && Find(ArrayKind, s, name) == None
    requires Find(ScalarKind, s, name) == Some(text) && JsToJson.NoSpaceEnds(text)
    ensures Extraction.ExtractVar(s, name) == text
  {
    hide Find;
    TrimmedAlready(text);
  }

  lemma TakenForArray(d: Decl, rest: string)
    requires LayoutOk(d) && d.value.ScalarText? && JsToJson.NoSpaceEnds(d.value.text)
    requires All(ScalarChar, d.value.text)
    ensures var text, v := d.value.text, d.value.text + Tail(d, rest);
            && (NewArray.HeadAt(v) <==> NewArray.HeadAt(text))
            && (NewArray.HeadAt(text) ==> v[10..] == text[10..] + Tail(d, rest))
            && (NewArray.HeadAt(text) && !NoEarlyEnd(')', text[10..] + Tail(d, rest)) ==>
                  MatchHere(ArrayKind, DeclText(d, rest), d.name).Some?)
            && (NewArray.HeadAt(text) && NoEarlyEnd(')', text[10..] + Tail(d, rest)) ==>
                  LazyClose(')', v[10..]) == None)
  {
    var text := d.value.text;
    var v := text + Tail(d, rest);
    if NewArray.HeadAt(text) {
      assert NewArray.HeadAt(v) && v[10..] == text[10..] + Tail(d, rest);
      LazyCloseIs(')', v[10..]);
      assert v[0] == NewArray.HEAD[0] == 'n';
      BehindHead(d, rest);
      hide AfterHead, DeclText, Tail, LazyClose, SkipSpace, NoEarlyEnd;
    } else {
      NoHeadAtScalar(text, d, rest);
    }
  }

  /** Behind white space and a semicolon the scalar expression gives white space back, and nothing else. */
  lemma {:induction false} OnlySpace(w: string, t: string, r: nat)
    requires All(ReSpace, w) && t != [] && t[0] == ';' && r <= |w|
    ensures var m := ScalarFrom(w + t, r); m.Some? ==> |m.value| == 1 && ReSpace(m.value[0])
  {
    hide ScalarBody, All, ReSpace;
    SpaceBody(w, t, r);
    if r > 0 {
      OnlySpace(w, t, r - 1);
    }
  }

  lemma SpaceBody(w: string, t: string, r: nat)
    requires All(ReSpace, w) && t != [] && t[0] == ';' && r <= |w|
    ensures var b := ScalarBody((w + t)[r..]); b.Some? ==> b == Some(1) && ReSpace((w + t)[r..][..1][0])
  {
    var s := (w + t)[r..];
    if r < |w| {
      assert s[1..] == w[r + 1..] + t && s[0] == w[r] && ReSpace(w[r]);
      hide SkipSpace;
      Skips(w[r + 1..], t);
    } else {
      assert s[0] == ';';
    }
  }

  lemma EmptyMatch(d: Decl, rest: string)
    requires LayoutOk(d) && ValueText(d.value) == []
    ensures var s := DeclText(d, rest);
            && MatchHere(ObjectKind, s, d.name) == None && MatchHere(ArrayKind, s, d.name) == None
            && (MatchHere(ScalarKind, s, d.name).Some? ==>
                  var m := MatchHere(ScalarKind, s, d.name).value; |m| == 1 && ReSpace(m[0]))
  {
    var w, t := d.ws3 + d.ws4, [';'] + (d.sep + rest);
    EmptyHead(d, rest);
    OnlySpace(w, t, |w|);
    hide AfterHead, ScalarFrom, LazyClose, DeclText, SkipSpace, Run;
    assert NewArray.HEAD[0] == 'n' && t[0] == ';';
  }

  lemma EmptyHead(d: Decl, rest: string)
    requires LayoutOk(d) && ValueText(d.value) == []
    ensures var w, t := d.ws3 + d.ws4, [';'] + (d.sep + rest);
            && All(ReSpace, w) && AfterHead(DeclText(d, rest), d.name) == Some(w + t)
            && SkipSpace(w + t) == t && Run(ReSpace, w + t) == |w|
  {
    var w, t := d.ws3 + d.ws4, [';'] + (d.sep + rest);
    SpaceJoin(d.ws3, d.ws4);
    EmptyText(d, rest);
    assert !StartsWith(ReSpace, t);
    hide AfterHead, SkipSpace, Run, DeclText, Tail, ValueText, All, ReSpace;
    HeadIs(d.ws1, d.name, d.ws2, w + t);
    Skips(w, t);
    RunIs(ReSpace, w, t);
  }

  lemma SpaceJoin(a: string, b: string)
    requires All(ReSpace, a) && All(ReSpace, b)
    ensures All(ReSpace, a + b)
  {
  }

  lemma EmptyText(d: Decl, rest: string)
    requires ValueText(d.value) == []
    ensures DeclText(d, rest) ==
            "var" + (d.ws1 + (d.name + (d.ws2 + (['='] + (d.ws3 + d.ws4 + ([';'] + (d.sep + rest)))))))
  {
    hide ValueText;
    var t := [';'] + (d.sep + rest);
    assert [] + (d.ws4 + t) == d.ws4 + t;
    assert d.ws3 + (d.ws4 + t) == d.ws3 + d.ws4 + t;
  }

  lemma NothingDeclared(d: Decl, rest: string)
    requires LayoutOk(d) && ValueText(d.value) == [] && NoHeadIn([], d.name)
    requires Find(ObjectKind, rest, d.name) == None
    requires Find(ArrayKind, rest, d.name) == None && Find(ScalarKind, rest, d.name) == None
    ensures Extraction.ExtractVar(DeclText(d, rest), d.name) == []
  {
    var s := DeclText(d, rest);
    EmptyMatch(d, rest);
    FindsHere(ScalarKind, s, d.name);
    hide Find, MatchHere, NoHeadIn, DeclText, JsToJson.TrimSpace, AfterHead, LayoutOk;
    FindSkipsDecl(ObjectKind, d, rest, d.name);
    FindSkipsDecl(ArrayKind, d, rest, d.name);
    match MatchHere(ScalarKind, s, d.name)
    case Some(m) => SpaceTrims(m);
    case None => FindSkipsDecl(ScalarKind, d, rest, d.name);
  }

  lemma SpaceTrims(m: string)
    requires |m| == 1 && ReSpace(m[0])
    ensures JsToJson.TrimSpace(m) == []
  {
    GoSpaceCoversReSpace(m[0]);
    assert Run(JsToJson.IsSpace, m) == 1 by {
      assert m[1..] == [];
    }
  }

  /** The text of any declaration, whatever it is, is extracted exactly if it is whole. */
  lemma ExtractsWholeIff(d: Decl, rest: string)
    requires LayoutOk(d) && NoHeadIn(ValueText(d.value), d.name)
    requires Find(ObjectKind, rest, d.name) == None
    requires Reread(d).value.ScalarText? ==>
               Find(ArrayKind, rest, d.name) == None && Find(ScalarKind, rest, d.name) == None
    ensures Extraction.ExtractVar(DeclText(d, rest), d.name) == ValueText(d.value) <==>
            Whole(ValueText(d.value), Tail(d, rest))
  {
    var t, c := ValueText(d.value), Reread(d);
    RereadIs(d);
    SameLine(d, rest);
    hide Extraction.ExtractVar, DeclText, Tail, LayoutOk, NoHeadIn, Find, NoEarlyEnd, Reread, ScalarChar;
    if c.value.ScalarText? {
      ScalarWholeIff(d, rest);
    } else {
      assert JsToJson.NoSpaceEnds(t) by {
        assert NewArray.HEAD[0] == 'n';
      }
      StructureWholeIff(c, rest);
    }
  }
}
