/** Page variables that are objects: reading any of them, and the plain way in which a switch can show one. */
module ObjectPages {
  import opened Extraction = ExtractVar
  import opened JsText
  import opened Masks
  import opened Meaning
  import opened Numbers
  import opened Pages
  import opened Text
  import opened Unmarshal
  import opened Wrappers
  import ArrayLimits
  import HexScan
  import NewArray

  /** Extraction finds a declared literal, and reading it gives its value. */
  lemma DeclaredArrives(u: CharClass, ds: seq<Decl>, i: nat, v: Js)
    requires u.Ascii() && i < |ds| && ScriptOk(ds, ds[i].name)
    requires JsOk(u, v) && ArraySafe(v, "") && ValueText(ds[i].value) == JsTextOf(v, Page, "")
    ensures Extraction.ExtractVar(Script(ds), ds[i].name) != ""
    ensures ReadVar(u, Script(ds), ds[i].name) == Some(ValueOf(v))
  {
    hide *;
    ExtractsDeclared(ds, i, ds[i]);
    ReadsDeclared(u, ds, i, v);
    FirstOfText(u, v, Page, "");
  }

  // --------------------------------------------------- what a switch shows

  /** The members of an object, without any white space. */
  function MembersOf(fields: seq<(string, Js)>): Members {
    if fields == [] then NoMembers("")
    else
      var m := Member("", Bare(fields[0].0), "", "", fields[0].1, "");
      if |fields| == 1 then LastMember(m) else MoreMembers(m, MembersOf(fields[1..]))
  }

  function StrItems(bodies: seq<string>): Items {
    if bodies == [] then NoItems("")
    else if |bodies| == 1 then LastItem("", Str(bodies[0]), "")
    else MoreItems("", Str(bodies[0]), "", StrItems(bodies[1..]))
  }

  function IntList(ns: seq<int>): Js {
    Arr(false, ItemsOf(ns))
  }

  function StrList(bodies: seq<string>): Js {
    Arr(false, StrItems(bodies))
  }

  // ------------------------------------------------------------- its meaning

  function ValuesOf(fields: seq<(string, Js)>): (ms: seq<(string, Value)>)
    ensures |ms| == |fields| && forall i :: 0 <= i < |ms| ==> ms[i] == (fields[i].0, ValueOf(fields[i].1))
  {
    seq(|fields|, i requires 0 <= i < |fields| => (fields[i].0, ValueOf(fields[i].1)))
  }

  lemma {:induction false} MemberValuesOf(fields: seq<(string, Js)>)
    ensures MemberValues(MembersOf(fields)) == ValuesOf(fields)
  {
    hide ValueOf;
    if |fields| > 1 {
      MemberValuesOf(fields[1..]);
    }
  }

  lemma {:induction false} StrItemValues(bodies: seq<string>)
    ensures |ItemValues(StrItems(bodies))| == |bodies|
    ensures forall i :: 0 <= i < |bodies| ==> ItemValues(StrItems(bodies))[i] == VStr(bodies[i])
  {
    if |bodies| > 1 {
      StrItemValues(bodies[1..]);
    }
  }

  /** Each body is a way to write the text with the same index. */
  predicate Spells(bodies: seq<string>, ss: seq<string>) {
    |bodies| == |ss| && forall i :: 0 <= i < |ss| ==> JsonBody(bodies[i]) && Unescape(bodies[i]) == ss[i]
  }

  lemma StrsShown(bodies: seq<string>, ss: seq<string>)
    requires Spells(bodies, ss)
    ensures Assign(StrsField([], 0), ValueOf(StrList(bodies))) == Some(StrsField(ss, |ss|))
  {
    var vs := ItemValues(StrItems(bodies));
    assert ValueOf(StrList(bodies)) == VArr(vs);
    StrItemValues(bodies);
    hide Assign, ItemValues, StrItems, Unescape, JsonBody, ValueOf;
    StrsRead(ss, vs);
  }

  lemma IntsShown(u: CharClass, ns: seq<Int64>)
    ensures Assign(IntsField([], 0), ValueOf(IntList(ns))) == Some(IntsField(ns, |ns|))
  {
    var vs := ItemValues(ItemsOf(ns));
    assert ValueOf(IntList(ns)) == VArr(vs);
    ItemsOfOk(u, ns);
    hide Assign, ItemValues, ItemsOf, ValueOf;
    IntsRead(ns, vs);
  }

  lemma IntShown(n: Int64)
    ensures Assign(IntField(0), ValueOf(NumberOf(n))) == Some(IntField(n))
  {
    NumberText(n, "");
    hide ValueOf, NumberOf;
  }

  /** Reading an object that shows each of some fields once. */
  lemma ObjectReads(
      names: seq<string>, zero: seq<Field>, shown: seq<(string, Js)>, index: seq<nat>, values: seq<Field>)
    requires |zero| == |names| && Holds(names, zero, ValuesOf(shown), index, values)
    ensures ReadStruct(names, zero, ValueOf(Obj(MembersOf(shown)))).Some?
    ensures var r := ReadStruct(names, zero, ValueOf(Obj(MembersOf(shown)))).value;
            && (forall i :: 0 <= i < |shown| ==> r[index[i]] == values[i])
            && (forall k :: 0 <= k < |names| && k !in index ==> r[k] == zero[k])
  {
    hide *;
    ObjectValue(shown);
    ReadsObject(names, zero, ValuesOf(shown));
    DecodesFields(names, zero, ValuesOf(shown), index, values);
    assert |ValuesOf(shown)| == |shown|;
  }

  lemma ObjectValue(shown: seq<(string, Js)>)
    ensures ValueOf(Obj(MembersOf(shown))) == VObj(ValuesOf(shown))
  {
    MemberValuesOf(shown);
    hide MemberValues, MembersOf;
  }

  lemma ReadsObject(names: seq<string>, zero: seq<Field>, ms: seq<(string, Value)>)
    requires |zero| == |names|
    ensures ReadStruct(names, zero, VObj(ms)) == Decode(names, zero, ms)
  {
    hide Decode;
  }

  // ---------------------------------------------------------------- its text

  predicate BareChar(c: char) {
    'a' <= c <= 'z' || 'A' <= c <= 'Z' || c == '_' || '1' <= c <= '9'
  }

  predicate BareName(s: string) {
    s != [] && All(BareChar, s) && !('1' <= s[0] <= '9')
  }

  /** A text that needs no escape and cannot be mistaken for the end of a value or the head of a declaration. */
  predicate PlainName(s: string) {
    forall i :: 0 <= i < |s| ==>
      s[i] >= ' ' && s[i] != '"' && s[i] != '\\' && s[i] != '}' && s[i] != ')' && s[i] != '='
  }

  lemma {:induction false} PlainIsBody(s: string)
    requires PlainName(s)
    ensures JsonBody(s) && '\\' !in s
  {
    if s != [] {
      assert PlainName(s[1..]);
      PlainIsBody(s[1..]);
      assert s == [s[0]] + s[1..];
    }
  }

  /** Plain texts are written as they are. */
  lemma PlainSpells(ss: seq<string>)
    requires forall s :: s in ss ==> PlainName(s)
    ensures Spells(ss, ss)
  {
    hide Unescape, JsonBody;
    forall i | 0 <= i < |ss| ensures JsonBody(ss[i]) && Unescape(ss[i]) == ss[i] {
      assert ss[i] in ss;
      PlainIsBody(ss[i]);
      UnescapePlain(ss[i]);
    }
  }

  lemma {:induction false} SpellingsExist(ss: seq<string>) returns (bodies: seq<string>)
    ensures Spells(bodies, ss)
  {
    hide Unescape, JsonBody, Spelling;
    bodies := seq(|ss|, i requires 0 <= i < |ss| => Spelling(ss[i]));
    forall i | 0 <= i < |ss| ensures JsonBody(bodies[i]) && Unescape(bodies[i]) == ss[i] {
      SpellingMeans(ss[i]);
    }
  }

  predicate InnerChar(c: char) {
    c != '}' && c != ')' && c != '='
  }

  lemma BareNameOk(u: CharClass, s: string)
    requires u.Ascii() && BareName(s)
    ensures KeyOk(u, Bare(s)) && All(InnerChar, s) && '\\' !in s
  {
    assert forall i :: 0 <= i < |s| ==> BareChar(s[i]);
    forall i | 0 <= i < |s| ensures !HexScan.Convertible(s[i..]) {
      assert s[i..][0] == s[i];
    }
  }

  predicate Clean(s: string) {
    All(InnerChar, s)
  }

  lemma CleanJoin(a: string, b: string)
    requires Clean(a) && Clean(b)
    ensures Clean(a + b)
  {
  }

  lemma NumbersClean(s: string)
    requires All(NumberChar, s)
    ensures Clean(s)
  {
    assert forall i :: 0 <= i < |s| ==> NumberChar(s[i]);
  }

  lemma CharClean(c: char, s: string)
    requires Clean(s) && InnerChar(c)
    ensures Clean([c] + s)
  {
  }

  lemma NumberClean(u: CharClass, n: int, rest: string)
    requires Clean(rest)
    ensures Clean(JsTextOf(NumberOf(n), Page, rest)) && JsOk(u, NumberOf(n))
  {
    assert JsOk(u, NumberOf(n));
    hide *;
    NumberText(n, rest);
    ItoaChars(n);
    NumbersClean(Itoa(n));
    CleanJoin(Itoa(n), rest);
  }

  lemma IntListClean(u: CharClass, ns: seq<int>, rest: string)
    requires Clean(rest)
    ensures Clean(JsTextOf(IntList(ns), Page, rest)) && JsOk(u, IntList(ns))
  {
    ItemsOfOk(u, ns);
    hide ItemsText, ItemsOf, Clean, Join, ItemsOk, ItemValues, FlatItems;
    assert JsOk(u, IntList(ns));
    assert JsTextOf(IntList(ns), Page, rest) == ['['] + ItemsText(ItemsOf(ns), Page, [']'] + rest);
    hide *;
    ItemsTextOf(ns, [']'] + rest);
    JoinChars(ns);
    NumbersClean(Join(ns));
    BracketsClean();
    CharClean(']', rest);
    CleanJoin(Join(ns), [']'] + rest);
    CharClean('[', Join(ns) + ([']'] + rest));
  }

  lemma BracketsClean()
    ensures InnerChar('[') && InnerChar(']') && InnerChar('"') && InnerChar(',') && InnerChar(':') && Clean("")
  {
  }

  lemma StrClean(s: string, rest: string)
    requires PlainName(s) && Clean(rest)
    ensures Clean(JsTextOf(Str(s), Page, rest))
  {
  }

  lemma {:induction false} StrItemsClean(u: CharClass, ss: seq<string>, rest: string)
    requires Clean(rest) && forall s :: s in ss ==> PlainName(s)
    ensures Clean(ItemsText(StrItems(ss), Page, rest)) && ItemsOk(u, StrItems(ss))
    ensures |ss| > 0 ==> !StrItems(ss).NoItems?
  {
    hide JsTextOf, Clean, JsonBody, PlainName, InnerChar;
    assert "" + rest == rest;
    if |ss| > 0 {
      PlainIsBody(ss[0]);
      StrClean(ss[0], rest);
    }
    if |ss| > 1 {
      StrItemsClean(u, ss[1..], rest);
      var more := [','] + ItemsText(StrItems(ss[1..]), Page, rest);
      BracketsClean();
      CharClean(',', ItemsText(StrItems(ss[1..]), Page, rest));
      assert "" + more == more;
      StrClean(ss[0], more);
      assert "" + JsTextOf(Str(ss[0]), Page, more) == JsTextOf(Str(ss[0]), Page, more);
    } else if |ss| == 1 {
      assert "" + JsTextOf(Str(ss[0]), Page, rest) == JsTextOf(Str(ss[0]), Page, rest);
    }
  }

  lemma StrListClean(u: CharClass, ss: seq<string>, rest: string)
    requires Clean(rest) && forall s :: s in ss ==> PlainName(s)
    ensures Clean(JsTextOf(StrList(ss), Page, rest)) && JsOk(u, StrList(ss))
  {
    hide ItemsText, StrItems, Clean, InnerChar, PlainName, ItemsOk;
    BracketsClean();
    CharClean(']', rest);
    StrItemsClean(u, ss, [']'] + rest);
    CharClean('[', ItemsText(StrItems(ss), Page, [']'] + rest));
  }

  /** A well-formed literal whose text is clean. */
  ghost predicate CleanField(u: CharClass, field: (string, Js)) {
    && BareName(field.0) && JsOk(u, field.1)
    && forall rest :: Clean(rest) ==> Clean(JsTextOf(field.1, Page, rest))
  }

  lemma NumberField(u: CharClass, name: string, n: int)
    requires BareName(name)
    ensures CleanField(u, (name, NumberOf(n)))
  {
    hide JsTextOf, JsOk, NumberOf, Clean;
    BracketsClean();
    NumberClean(u, n, "");
    forall rest | Clean(rest) ensures Clean(JsTextOf(NumberOf(n), Page, rest)) {
      NumberClean(u, n, rest);
    }
  }

  lemma IntListField(u: CharClass, name: string, ns: seq<int>)
    requires BareName(name)
    ensures CleanField(u, (name, IntList(ns)))
  {
    hide JsTextOf, JsOk, IntList, Clean;
    BracketsClean();
    IntListClean(u, ns, "");
    forall rest | Clean(rest) ensures Clean(JsTextOf(IntList(ns), Page, rest)) {
      IntListClean(u, ns, rest);
    }
  }

  lemma StrListField(u: CharClass, name: string, ss: seq<string>)
    requires BareName(name) && forall s :: s in ss ==> PlainName(s)
    ensures CleanField(u, (name, StrList(ss)))
  {
    hide JsTextOf, JsOk, StrList, Clean;
    BracketsClean();
    StrListClean(u, ss, "");
    forall rest | Clean(rest) ensures Clean(JsTextOf(StrList(ss), Page, rest)) {
      StrListClean(u, ss, rest);
    }
  }

  lemma FieldClean(u: CharClass, field: (string, Js), rest: string)
    requires u.Ascii() && CleanField(u, field) && Clean(rest)
    ensures var m := Member("", Bare(field.0), "", "", field.1, "");
            Clean(MemberText(m, Page, rest)) && MemberOk(u, m)
  {
    BareNameOk(u, field.0);
    var x := JsTextOf(field.1, Page, rest);
    assert "" + rest == rest && "" + x == x;
    assert Clean(x);
    hide JsTextOf, JsOk, NoHexIn;
    BracketsClean();
    CharClean(':', x);
    assert "" + ([':'] + x) == [':'] + x;
    CleanJoin(field.0, [':'] + x);
    assert "" + (field.0 + ([':'] + x)) == field.0 + ([':'] + x);
  }

  lemma {:induction false} MembersClean(u: CharClass, fields: seq<(string, Js)>, rest: string)
    requires u.Ascii() && Clean(rest) && forall f :: f in fields ==> CleanField(u, f)
    ensures Clean(MembersText(MembersOf(fields), Page, rest)) && MembersOk(u, MembersOf(fields))
    ensures fields != [] ==> !MembersOf(fields).NoMembers?
  {
    hide Clean, CleanField, MemberText, MemberOk, InnerChar;
    assert "" + rest == rest;
    if |fields| > 0 {
      assert fields[0] in fields;
      FieldClean(u, fields[0], rest);
    }
    if |fields| > 1 {
      MembersClean(u, fields[1..], rest);
      BracketsClean();
      CharClean(',', MembersText(MembersOf(fields[1..]), Page, rest));
      FieldClean(u, fields[0], [','] + MembersText(MembersOf(fields[1..]), Page, rest));
    }
  }

  /** The inside of the object. */
  function Inner(fields: seq<(string, Js)>): string {
    MembersText(MembersOf(fields), Page, "")
  }

  /** The line of a page script that shows the object. */
  function ObjectDecl(name: string, fields: seq<(string, Js)>): Decl {
    Decl(" ", name, " ", " ", ObjectText(Inner(fields)), "", "\n")
  }

  lemma ObjectTextIs(name: string, fields: seq<(string, Js)>)
    ensures JsTextOf(Obj(MembersOf(fields)), Page, "") == ['{'] + (Inner(fields) + ['}'])
    ensures ValueText(ObjectDecl(name, fields).value) == ['{'] + (Inner(fields) + ['}'])
  {
    MembersSplit(MembersOf(fields), Page, ['}']);
    assert ['}'] + "" == ['}'];
    hide MembersText, MembersOf;
  }

  lemma NoEqualsNoHead(s: string, name: string)
    requires '=' !in s
    ensures AfterHead(s, name).None?
  {
    if "var" <= s && StartsWith(ReSpace, s[3..]) {
      var t := SkipSpace(s[3..]);
      assert forall c :: c in s[3..] ==> c in s;
      assert forall c :: c in t ==> c in s[3..];
      if name <= t {
        var r := SkipSpace(t[|name|..]);
        assert forall c :: c in t[|name|..] ==> c in t;
        assert forall c :: c in r ==> c in t[|name|..];
        assert r != [] ==> r[0] in r;
      }
    }
  }

  lemma CleanHasNone(s: string)
    requires Clean(s)
    ensures '=' !in s && ')' !in s && NoEarlyEnd('}', s)
  {
    hide Terminated;
    assert forall i :: 0 <= i < |s| ==> InnerChar(s[i]);
  }

  lemma ObjectDeclOk(u: CharClass, name: string, fields: seq<(string, Js)>)
    requires u.Ascii() && NameOk(name) && forall f :: f in fields ==> CleanField(u, f)
    ensures ScriptOk([ObjectDecl(name, fields)], name)
  {
    BracketsClean();
    MembersClean(u, fields, "");
    CleanHasNone(Inner(fields));
    var d := ObjectDecl(name, fields);
    var text := ValueText(d.value);
    assert text == ['{'] + (Inner(fields) + ['}']) && '=' !in text;
    assert DeclOk(d);
    hide Inner, MembersText, AfterHead, MembersOf, DeclOk, ValueText;
    forall i | 0 <= i < |text| ensures AfterHead(text[i..], name).None? {
      assert forall c :: c in text[i..] ==> c in text;
      NoEqualsNoHead(text[i..], name);
    }
    assert NoHeadIn(text, name);
  }

  /** Without a parenthesis nothing can mislead the first pass. */
  lemma NoParenIsSafe(u: CharClass, v: Js)
    requires u.Ascii() && JsOk(u, v) && ')' !in JsTextOf(v, Page, "")
    ensures ArraySafe(v, "")
  {
    var t := JsTextOf(v, Page, "");
    hide JsTextOf, ArraySafe, JsOk, NewArray.ArrayPass;
    NoParenIsFlat(v, "");
    FlatSame(v, "");
    forall i, j ensures !NewArray.Match(t, i, j) {
    }
    NewArray.NoMatchNoChange(t);
    forall i, j ensures !NewArray.Match("", i, j) {
    }
    NewArray.NoMatchNoChange("");
    ArrayLimits.ArraysOfValueIff(u, v, "");
  }

  lemma ObjectOk(u: CharClass, name: string, fields: seq<(string, Js)>)
    requires u.Ascii() && forall f :: f in fields ==> CleanField(u, f)
    ensures JsOk(u, Obj(MembersOf(fields))) && ArraySafe(Obj(MembersOf(fields)), "")
  {
    BracketsClean();
    MembersClean(u, fields, "");
    assert JsOk(u, Obj(MembersOf(fields)));
    CleanHasNone(Inner(fields));
    hide JsTextOf, JsOk, ArraySafe, Inner, MembersOf;
    ObjectTextIs(name, fields);
    NoParenIsSafe(u, Obj(MembersOf(fields)));
  }
}
