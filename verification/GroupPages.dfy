/** Trunk groups through the page text: the object a switch shows, read by `ParseLAG`. */
module GroupPages {
  import opened Extraction = ExtractVar
  import opened Groups
  import opened JsText
  import opened Masks
  import opened Meaning
  import opened ObjectPages
  import opened Pages
  import opened Text
  import opened Unmarshal
  import opened Wrappers

  const NAMES := ["maxTrunkNum", "portNum", "portStr_g1", "portStr_g2"]

  const ZERO := [IntField(0), IntField(0), IntsField([], 0), IntsField([], 0)]

  /** `trunk_conf`, as far as it is looked at. */
  datatype TrunkPage = TrunkPage(portNum: Int64, g1: seq<Int64>, g2: seq<Int64>)

  function PageOf(fields: seq<Field>): TrunkPage
    requires |fields| == 4
  {
    TrunkPage(IntOf(fields[1]), IntsOf(fields[2]), IntsOf(fields[3]))
  }

  /** The value unmarshalled into the struct. */
  function ReadPage(v: Value): Option<TrunkPage> {
    var fields :- ReadStruct(NAMES, ZERO, v);
    Some(PageOf(fields))
  }

  /** `ParseLAG` on the text of a page. */
  method ParsePage(u: CharClass, js: string) returns (r: Option<seq<Group>>)
    ensures r.Some? <==> Extraction.ExtractVar(js, "trunk_conf") != "" && ReadVar(u, js, "trunk_conf").Some?
                         && ReadPage(ReadVar(u, js, "trunk_conf").value).Some?
    ensures r.Some? ==>
              var page := ReadPage(ReadVar(u, js, "trunk_conf").value).value;
              r.value == Groups.Groups(page.portNum, page.g1, page.g2)
  {
    hide *;
    if Extraction.ExtractVar(js, "trunk_conf") == "" {
      return None;
    }
    var v := ReadVar(u, js, "trunk_conf");
    if !v.Some? {
      return None;
    }
    var page := ReadPage(v.value);
    if !page.Some? {
      return None;
    }
    var groups := ParseLAG(page.value.portNum, page.value.g1, page.value.g2);
    return Some(groups);
  }

  /** A declared literal that stands for the port count and the two vectors. */
  ghost predicate ShowsPage(u: CharClass, v: Js, page: TrunkPage) {
    JsOk(u, v) && ArraySafe(v, "") && ReadPage(ValueOf(v)) == Some(page)
  }

  /** The page of a switch that was sent the groups. */
  function Echo(groups: seq<Group>, portNum: Int64): TrunkPage {
    TrunkPage(portNum, Vector(groups, false), Vector(groups, true))
  }

  /**
    * The whole way of trunk groups: sent as two vectors, shown by whatever literal that stands for them, in any
    * script, extracted, rewritten, read and decoded, they give the union of the groups with id 2 and that of all
    * others, each ascending and cut to the switch's ports.
    */
  method SetAndParse(u: CharClass, groups: seq<Group>, portNum: Int64, ds: seq<Decl>, d: nat, ghost v: Js)
    returns (r: Option<seq<Group>>)
    requires u.Ascii() && d < |ds| && ds[d].name == "trunk_conf" && ScriptOk(ds, "trunk_conf")
    requires ValueText(ds[d].value) == JsTextOf(v, Page, "") && ShowsPage(u, v, Echo(groups, portNum))
    ensures var n := Kept(portNum, Vector(groups, false));
            var one := PortsWhere(HasPort(groups, false), n);
            var two := PortsWhere(HasPort(groups, true), n);
            r == Some((if one == [] then [] else [Group(1, GroupName(1), one, false, true)])
                      + (if two == [] then [] else [Group(2, GroupName(2), two, false, true)]))
  {
    ghost var page := Echo(groups, portNum);
    assert ReadPage(ValueOf(v)) == Some(page) && JsOk(u, v) && ArraySafe(v, "");
    assert page.portNum == portNum && page.g1 == Vector(groups, false) && page.g2 == Vector(groups, true);
    hide *;
    LagRoundTrip(groups, portNum);
    DeclaredArrives(u, ds, d, v);
    r := ParsePage(u, Script(ds));
  }

  // --------------------------------------------------- such literals and scripts

  function Shown(page: TrunkPage): seq<(string, Js)> {
    [("portNum", NumberOf(page.portNum)), ("portStr_g1", IntList(page.g1)), ("portStr_g2", IntList(page.g2))]
  }

  function Literal(page: TrunkPage): Js {
    Obj(MembersOf(Shown(page)))
  }

  lemma NamesDiffer()
    ensures Distinguishable(NAMES)
  {
    forall i, j | 0 <= i < j < |NAMES| ensures Folded(NAMES[i]) != Folded(NAMES[j]) {
      assert |Folded(NAMES[i])| == |NAMES[i]| && |Folded(NAMES[j])| == |NAMES[j]|;
      if i == 2 {
        assert NAMES[2][9] == '1' && NAMES[3][9] == '2';
        assert Folded(NAMES[2])[9] == Fold('1') && Folded(NAMES[3])[9] == Fold('2');
      }
    }
  }

  const SHOWN: seq<nat> := [1, 2, 3]

  function FieldsOf(page: TrunkPage): seq<Field> {
    [IntField(page.portNum), IntsField(page.g1, |page.g1|), IntsField(page.g2, |page.g2|)]
  }

  lemma ShownHolds(u: CharClass, page: TrunkPage)
    ensures Holds(NAMES, ZERO, ValuesOf(Shown(page)), SHOWN, FieldsOf(page))
  {
    hide Assign, FieldIndex, Unescape, ValueOf, IntList, NumberOf;
    NamesDiffer();
    FieldNamed(NAMES, 1, "portNum");
    FieldNamed(NAMES, 2, "portStr_g1");
    FieldNamed(NAMES, 3, "portStr_g2");
    IntShown(page.portNum);
    IntsShown(u, page.g1);
    IntsShown(u, page.g2);
  }

  lemma LiteralIs(page: TrunkPage)
    ensures Literal(page) == Obj(MembersOf(Shown(page)))
  {
    hide MembersOf, Shown;
  }

  lemma LiteralMeans(u: CharClass, page: TrunkPage)
    ensures ReadPage(ValueOf(Literal(page))) == Some(page)
  {
    hide *;
    LiteralIs(page);
    ShownSizes(page);
    ReadPageIs(ValueOf(Literal(page)));
    ShownHolds(u, page);
    ObjectReads(NAMES, ZERO, Shown(page), SHOWN, FieldsOf(page));
    PageOfFields(page, ReadStruct(NAMES, ZERO, ValueOf(Literal(page))).value);
  }

  lemma ReadPageIs(v: Value)
    requires |NAMES| == |ZERO| == 4
    ensures ReadStruct(NAMES, ZERO, v).Some? ==> ReadPage(v) == Some(PageOf(ReadStruct(NAMES, ZERO, v).value))
  {
    hide ReadStruct, PageOf;
  }

  lemma ShownSizes(page: TrunkPage)
    ensures |NAMES| == |ZERO| == 4 && |Shown(page)| == |SHOWN| == |FieldsOf(page)| == 3
  {
  }

  lemma PageOfFields(page: TrunkPage, r: seq<Field>)
    requires |r| == 4 && forall i :: 0 <= i < 3 ==> r[SHOWN[i]] == FieldsOf(page)[i]
    ensures PageOf(r) == page
  {
    assert r[SHOWN[0]] == FieldsOf(page)[0] && r[SHOWN[1]] == FieldsOf(page)[1] && r[SHOWN[2]] == FieldsOf(page)[2];
  }

  /** Every page is shown by such a literal, and alone on its line it meets every condition. */
  lemma PlainPageShows(u: CharClass, page: TrunkPage)
    requires u.Ascii()
    ensures ShowsPage(u, Literal(page), page)
    ensures var d := ObjectDecl("trunk_conf", Shown(page));
            && d.name == "trunk_conf" && ScriptOk([d], "trunk_conf")
            && ValueText(d.value) == JsTextOf(Literal(page), Page, "")
  {
    assert NameOk("trunk_conf");
    var shown := Shown(page);
    assert ObjectDecl("trunk_conf", shown).name == "trunk_conf";
    hide *;
    LiteralIs(page);
    LiteralMeans(u, page);
    ShownClean(u, page);
    ObjectOk(u, "trunk_conf", shown);
    ObjectDeclOk(u, "trunk_conf", shown);
    ObjectTextIs("trunk_conf", shown);
    ShowsIf(u, Literal(page), page);
  }

  lemma ShowsIf(u: CharClass, v: Js, page: TrunkPage)
    requires JsOk(u, v) && ArraySafe(v, "") && ReadPage(ValueOf(v)) == Some(page)
    ensures ShowsPage(u, v, page)
  {
    hide JsOk, ArraySafe, ReadPage, ValueOf;
  }

  lemma ShownClean(u: CharClass, page: TrunkPage)
    ensures forall f :: f in Shown(page) ==> CleanField(u, f)
  {
    assert BareName("portNum") && BareName("portStr_g1") && BareName("portStr_g2");
    hide CleanField, IntList, NumberOf, BareName;
    NumberField(u, "portNum", page.portNum);
    IntListField(u, "portStr_g1", page.g1);
    IntListField(u, "portStr_g2", page.g2);
  }
}
