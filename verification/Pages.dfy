/** From a form to the page a switch shows and back: extraction, rewriting and JSON reading end to end. */
module Pages {
  import opened Extraction = ExtractVar
  import opened JsText
  import opened JsToJson
  import opened Masks
  import opened Meaning
  import opened NewArray
  import opened Numbers
  import opened Strided
  import opened Text
  import opened Unmarshal
  import opened Wrappers

  /** `json.Unmarshal([]byte(JSToJSON(ExtractVar(js, name))), ..)`. */
  function ReadVar(u: CharClass, js: string, name: string): Option<Value> {
    Parse(StrictJson, Rewritten(u, ExtractVar(js, name)))
  }

  /**
    * For every script of well-formed declarations: what the program reads for a declared object or
    * constructor is what the script says.
    */
  lemma ReadsDeclared(u: CharClass, ds: seq<Decl>, i: nat, v: Js)
    requires u.Ascii() && i < |ds| && ScriptOk(ds, ds[i].name)
    requires JsOk(u, v) && ArraySafe(v, "") && ValueText(ds[i].value) == JsTextOf(v, Page, "")
    ensures ReadVar(u, Script(ds), ds[i].name) == Some(ValueOf(v))
  {
    hide *;
    ExtractsDeclared(ds, i, ds[i]);
    NoLayout(JsTextOf(v, Page, ""));
    MeaningPreserved(u, v, "", "");
    ReadVarIs(u, Script(ds), ds[i].name);
  }

  lemma ReadVarIs(u: CharClass, js: string, name: string)
    ensures ReadVar(u, js, name) == Parse(StrictJson, Rewritten(u, ExtractVar(js, name)))
  {
    hide Parse, Rewritten, ExtractVar;
  }

  lemma NoLayout(t: string)
    ensures WsText("") && "" + (t + "") == t
  {
  }

  // --------------------------------------------------------- integer arrays

  /** `joinStrings` of the printed numbers. */
  function Join(ns: seq<int>): string {
    if ns == [] then "" else if |ns| == 1 then Itoa(ns[0]) else Itoa(ns[0]) + ([','] + Join(ns[1..]))
  }

  function NumberOf(n: int): Js {
    Num(n < 0, Decimal(Dec(if n < 0 then -n else n)))
  }

  function ItemsOf(ns: seq<int>): Items {
    if ns == [] then NoItems("")
    else if |ns| == 1 then LastItem("", NumberOf(ns[0]), "")
    else MoreItems("", NumberOf(ns[0]), "", ItemsOf(ns[1..]))
  }

  lemma NumberText(n: int, rest: string)
    ensures JsTextOf(NumberOf(n), Page, rest) == Itoa(n) + rest
    ensures ValueOf(NumberOf(n)) == VNum(n)
  {
    var m := if n < 0 then -n else n;
    DecValDec(m);
  }

  lemma FirstItemText(n: int, post: string)
    ensures JsTextOf(NumberOf(n), Page, "" + post) == Itoa(n) + post
    ensures "" + (Itoa(n) + post) == Itoa(n) + post
  {
    assert "" + post == post;
    hide NumberOf, Itoa;
    NumberText(n, post);
  }

  lemma {:induction false} ItemsTextOf(ns: seq<int>, rest: string)
    ensures ItemsText(ItemsOf(ns), Page, rest) == Join(ns) + rest
  {
    hide Itoa, NumberOf, JsTextOf;
    if |ns| == 1 {
      FirstItemText(ns[0], rest);
    } else if |ns| > 1 {
      ItemsTextOf(ns[1..], rest);
      FirstItemText(ns[0], [','] + (Join(ns[1..]) + rest));
      MoreText(ns, rest);
    }
  }

  lemma MoreText(ns: seq<int>, rest: string)
    requires |ns| > 1
    ensures Join(ns) + rest == Itoa(ns[0]) + ([','] + (Join(ns[1..]) + rest))
  {
    hide Itoa;
  }

  lemma {:induction false} ItemsOfOk(u: CharClass, ns: seq<int>)
    ensures ItemsOk(u, ItemsOf(ns)) && FlatItems(ItemsOf(ns)) && !(|ns| > 0 && ItemsOf(ns).NoItems?)
    ensures |ItemValues(ItemsOf(ns))| == |ns| && forall i :: 0 <= i < |ns| ==> ItemValues(ItemsOf(ns))[i] == VNum(ns[i])
  {
    if |ns| > 0 {
      NumberText(ns[0], "");
      if |ns| > 1 {
        ItemsOfOk(u, ns[1..]);
      }
    }
  }

  predicate NumberChar(c: char) {
    IsDigit(c) || c == '-' || c == ','
  }

  lemma {:induction false} JoinChars(ns: seq<int>)
    ensures All(NumberChar, Join(ns))
  {
    if |ns| > 0 {
      ItoaChars(ns[0]);
      hide Itoa;
      if |ns| > 1 {
        JoinChars(ns[1..]);
      }
    }
  }

  lemma ItoaChars(n: int)
    ensures All(NumberChar, Itoa(n))
  {
    assert All(IsDigit, Dec(if n < 0 then -n else n));
  }

  /** A declared literal that stands for the given numbers. */
  ghost predicate ShowsInts(u: CharClass, v: Js, ns: seq<int>) {
    && JsOk(u, v) && ArraySafe(v, "")
    && ReadInts(ValueOf(v)).Some? && ReadInts(ValueOf(v)).value == ns
  }

  /** What the program reads from any script that declares such a literal. */
  lemma ArrayArrives(u: CharClass, ds: seq<Decl>, i: nat, v: Js, ns: seq<int>)
    requires u.Ascii() && i < |ds| && ScriptOk(ds, ds[i].name)
    requires ValueText(ds[i].value) == JsTextOf(v, Page, "") && ShowsInts(u, v, ns)
    ensures var back := ReadVar(u, Script(ds), ds[i].name);
            back.Some? && ReadInts(back.value).Some? && ReadInts(back.value).value == ns
  {
    assert JsOk(u, v) && ArraySafe(v, "") && ReadInts(ValueOf(v)).Some? && ReadInts(ValueOf(v)).value == ns;
    hide *;
    ReadsDeclared(u, ds, i, v);
  }

  /** The line of a page script that shows an array. */
  function ArrayDecl(name: string, ns: seq<int>): Decl {
    Decl(" ", name, " ", " ", ArrayText(Join(ns)), "", "\n")
  }

  lemma ArrayDeclOk(name: string, ns: seq<int>)
    requires NameOk(name)
    ensures ScriptOk([ArrayDecl(name, ns)], name)
  {
    JoinChars(ns);
    var text := ValueText(ArrayText(Join(ns)));
    assert HEAD == "new Array(" && |text| == 11 + |Join(ns)|;
    hide Join, AfterHead;
    forall i | 0 <= i < |text| ensures AfterHead(text[i..], name).None? {
      NoVarInArray(Join(ns), i);
      NoVarNoHead(text[i..], name);
    }
    NoParenNoEnd(Join(ns));
  }

  lemma NoVarInArray(body: string, i: nat)
    requires All(NumberChar, body) && i < 11 + |body|
    ensures ValueText(ArrayText(body))[i] != 'v'
  {
    var text := ValueText(ArrayText(body));
    assert 'v' !in HEAD;
    if 10 <= i < 10 + |body| {
      assert text[i] == body[i - 10] && NumberChar(body[i - 10]);
    }
  }

  lemma NoVarNoHead(s: string, name: string)
    requires s != [] && s[0] != 'v'
    ensures AfterHead(s, name).None?
  {
    assert "var"[0] == 'v';
  }

  lemma NoParenNoEnd(body: string)
    requires All(NumberChar, body)
    ensures NoEarlyEnd(')', body)
  {
    hide Terminated;
    assert forall j :: 0 <= j < |body| ==> NumberChar(body[j]);
  }

  /** The literal on that line. */
  function ArrayOf(ns: seq<int>): Js {
    Arr(true, ItemsOf(ns))
  }

  /** The printed numbers are such a literal, alone on their line. */
  lemma ArrayOfIs(u: CharClass, name: string, ns: seq<Int64>)
    requires NameOk(name)
    ensures ShowsInts(u, ArrayOf(ns), ns) && ScriptOk([ArrayDecl(name, ns)], name)
    ensures JsTextOf(ArrayOf(ns), Page, "") == ValueText(ArrayDecl(name, ns).value)
  {
    hide ItemsText, ItemsOf, Join, ReadInts, ScriptOk;
    assert [')'] + "" == [')'] && Join(ns) + "" == Join(ns);
    ItemsTextOf(ns, [')']);
    ItemsTextOf(ns, "");
    ItemsOfOk(u, ns);
    JoinChars(ns);
    assert !NumberChar(')');
    IntsRead(ns, ItemValues(ItemsOf(ns)));
    ArrayDeclOk(name, ns);
  }

  // -------------------------------------------------------------- end to end

  /**
    * The whole way of a bandwidth form: shown by whatever literal that stands for its slots, in any script,
    * extracted, rewritten, read and decoded.
    */
  lemma BandwidthEndToEnd(u: CharClass, bw: seq<Bandwidth>, ds: seq<Decl>, d: nat, v: Js, i: nat)
    requires u.Ascii() && d < |ds| && ds[d].name == "bcInfo" && ScriptOk(ds, "bcInfo")
    requires ValueText(ds[d].value) == JsTextOf(v, Page, "") && ShowsInts(u, v, BandwidthSlots(bw))
    requires i < PORTS
    ensures var back := ReadVar(u, Script(ds), "bcInfo");
            && back.Some? && ReadInts(back.value).Some?
            && BandwidthAt(ReadInts(back.value).value, i) ==
               match LastFor(bw, PortOf, i + 1)
               case Some(last) => Bandwidth(i + 1, EverOn(bw, i + 1), last.ingress, last.egress)
               case None => Bandwidth(i + 1, false, 0, 0)
  {
    hide *;
    ArrayArrives(u, ds, d, v, BandwidthSlots(bw));
    BandwidthRoundTrip(bw, i);
  }
}
