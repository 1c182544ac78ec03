/** VLAN tables through the page text: the object a switch shows, read by `ParseVLAN8021Q`. */
module VlanPages {
  import opened Extraction = ExtractVar
  import opened JsText
  import opened Masks
  import opened Meaning
  import opened Numbers
  import opened ObjectPages
  import opened Pages
  import opened Text
  import opened Unmarshal
  import opened Wrappers
  import Vlans

  const NAMES := ["state", "portNum", "maxVids", "count", "vids", "names", "tagMbrs", "untagMbrs"]

  const ZERO := [
    IntField(0), IntField(0), IntField(0), IntField(0), IntsField([], 0), StrsField([], 0), IntsField([], 0),
    IntsField([], 0)]

  function PageOf(fields: seq<Field>): Vlans.Page
    requires |fields| == 8
  {
    Vlans.Page(IntOf(fields[1]), IntsOf(fields[4]), StrsOf(fields[5]), IntsOf(fields[6]), IntsOf(fields[7]))
  }

  /** The value unmarshalled into the struct. */
  function ReadPage(v: Value): Option<Vlans.Page> {
    var fields :- ReadStruct(NAMES, ZERO, v);
    Some(PageOf(fields))
  }

  /** `ParseVLAN8021Q` on the text of a page. */
  method ParseVLAN8021Q(u: CharClass, js: string) returns (r: Option<seq<Vlans.Vlan>>)
    ensures r.Some? <==> Extraction.ExtractVar(js, "qvlan_ds") != "" && ReadVar(u, js, "qvlan_ds").Some?
                         && ReadPage(ReadVar(u, js, "qvlan_ds").value).Some?
    ensures r.Some? ==>
              var page := ReadPage(ReadVar(u, js, "qvlan_ds").value).value;
              |r.value| == |page.vids| && forall i :: 0 <= i < |r.value| ==> r.value[i] == Vlans.Decoded(page, i)
  {
    hide *;
    if Extraction.ExtractVar(js, "qvlan_ds") == "" {
      return None;
    }
    var v := ReadVar(u, js, "qvlan_ds");
    if !v.Some? {
      return None;
    }
    var page := ReadPage(v.value);
    if !page.Some? {
      return None;
    }
    var vlans := Vlans.ParseVLAN8021Q(page.value);
    return Some(vlans);
  }

  /** A declared literal that stands for the table. */
  ghost predicate ShowsPage(u: CharClass, v: Js, page: Vlans.Page) {
    JsOk(u, v) && ArraySafe(v, "") && ReadPage(ValueOf(v)) == Some(page)
  }

  /** What the program reads from any script that declares such a literal. */
  lemma PageArrives(u: CharClass, ds: seq<Decl>, i: nat, v: Js, page: Vlans.Page)
    requires u.Ascii() && i < |ds| && ds[i].name == "qvlan_ds" && ScriptOk(ds, "qvlan_ds")
    requires ValueText(ds[i].value) == JsTextOf(v, Page, "") && ShowsPage(u, v, page)
    ensures var js := Script(ds);
            && Extraction.ExtractVar(js, "qvlan_ds") != ""
            && ReadVar(u, js, "qvlan_ds").Some?
            && ReadPage(ReadVar(u, js, "qvlan_ds").value) == Some(page)
  {
    assert JsOk(u, v) && ArraySafe(v, "") && ReadPage(ValueOf(v)) == Some(page);
    hide *;
    DeclaredArrives(u, ds, i, v);
  }

  /**
    * The whole way of a VLAN table: sent as a form, shown by whatever literal that stands for it, in any script,
    * extracted, rewritten, read and decoded, it gives back every id, name and mode in order.
    */
  method SetAndParse(u: CharClass, vlans: seq<Vlans.Vlan>, portNum: Int64, ds: seq<Decl>, d: nat, ghost v: Js)
    returns (r: Option<seq<Vlans.Vlan>>)
    requires u.Ascii() && Vlans.PortsOk(vlans)
    requires d < |ds| && ds[d].name == "qvlan_ds" && ScriptOk(ds, "qvlan_ds")
    requires ValueText(ds[d].value) == JsTextOf(v, Page, "")
    requires ShowsPage(u, v, Vlans.Echo(Vlans.Fields(vlans, |vlans|), portNum))
    ensures r.Some? && |r.value| == |vlans|
    ensures forall i :: 0 <= i < |vlans| ==>
              r.value[i] == vlans[i].(members := Vlans.Normal(Vlans.PortCount(portNum), vlans[i].members))
  {
    hide *;
    var form := Vlans.SetVLANs(vlans);
    ghost var page := Vlans.Echo(form, portNum);
    EchoLength(vlans, portNum);
    forall i | 0 <= i < |vlans|
      ensures Vlans.Decoded(page, i)
              == vlans[i].(members := Vlans.Normal(Vlans.PortCount(portNum), vlans[i].members))
    {
      Vlans.RoundTrip(vlans, portNum, i);
    }
    PageArrives(u, ds, d, v, page);
    r := ParseVLAN8021Q(u, Script(ds));
  }

  lemma EchoLength(vlans: seq<Vlans.Vlan>, portNum: Int64)
    ensures var page := Vlans.Echo(Vlans.Fields(vlans, |vlans|), portNum);
            |page.vids| == |page.names| == |vlans|
  {
    Vlans.CountField(vlans, |vlans|);
    AtoiItoa(|vlans|);
    hide Itoa, Atoi, Vlans.Fields, Vlans.Get, Vlans.Key, ParseInt;
  }

  // --------------------------------------------------- such literals and scripts

  /** The table as members, its names written in one of their spellings. */
  function Shown(page: Vlans.Page, bodies: seq<string>): seq<(string, Js)> {
    [("portNum", NumberOf(page.portNum)), ("vids", IntList(page.vids)), ("names", StrList(bodies)),
     ("tagMbrs", IntList(page.tagMbrs)), ("untagMbrs", IntList(page.untagMbrs))]
  }

  function Literal(page: Vlans.Page, bodies: seq<string>): Js {
    Obj(MembersOf(Shown(page, bodies)))
  }

  lemma NamesDiffer()
    ensures Distinguishable(NAMES)
  {
    forall i, j | 0 <= i < j < |NAMES| ensures Folded(NAMES[i]) != Folded(NAMES[j]) {
      assert |Folded(NAMES[i])| == |NAMES[i]| && |Folded(NAMES[j])| == |NAMES[j]|;
      assert Folded(NAMES[i])[0] == Fold(NAMES[i][0]) && Folded(NAMES[j])[0] == Fold(NAMES[j][0]);
    }
  }

  /** Which fields such a literal shows. */
  const SHOWN: seq<nat> := [1, 4, 5, 6, 7]

  function FieldsOf(page: Vlans.Page): seq<Field> {
    [IntField(page.portNum), IntsField(page.vids, |page.vids|), StrsField(page.names, |page.names|),
     IntsField(page.tagMbrs, |page.tagMbrs|), IntsField(page.untagMbrs, |page.untagMbrs|)]
  }

  lemma ShownNames()
    ensures FieldIndex(NAMES, Unescape("portNum")) == Some(1) && FieldIndex(NAMES, Unescape("vids")) == Some(4)
    ensures FieldIndex(NAMES, Unescape("names")) == Some(5) && FieldIndex(NAMES, Unescape("tagMbrs")) == Some(6)
    ensures FieldIndex(NAMES, Unescape("untagMbrs")) == Some(7)
  {
    hide Unescape, FieldIndex;
    NamesDiffer();
    FieldNamed(NAMES, 1, "portNum");
    FieldNamed(NAMES, 4, "vids");
    FieldNamed(NAMES, 5, "names");
    FieldNamed(NAMES, 6, "tagMbrs");
    FieldNamed(NAMES, 7, "untagMbrs");
  }

  lemma ShownHolds(u: CharClass, page: Vlans.Page, bodies: seq<string>)
    requires Spells(bodies, page.names)
    ensures Holds(NAMES, ZERO, ValuesOf(Shown(page, bodies)), SHOWN, FieldsOf(page))
  {
    hide Assign, FieldIndex, Unescape, ValueOf, IntList, StrList, NumberOf, Spells;
    ShownNames();
    IntShown(page.portNum);
    IntsShown(u, page.vids);
    StrsShown(bodies, page.names);
    IntsShown(u, page.tagMbrs);
    IntsShown(u, page.untagMbrs);
  }

  lemma LiteralIs(page: Vlans.Page, bodies: seq<string>)
    ensures Literal(page, bodies) == Obj(MembersOf(Shown(page, bodies)))
  {
    hide MembersOf, Shown;
  }

  /** Every table is shown by such literals, one for each way of writing its names. */
  lemma LiteralMeans(u: CharClass, page: Vlans.Page, bodies: seq<string>)
    requires Spells(bodies, page.names)
    ensures ReadPage(ValueOf(Literal(page, bodies))) == Some(page)
  {
    hide *;
    LiteralIs(page, bodies);
    ShownSizes(page, bodies);
    ReadPageIs(ValueOf(Literal(page, bodies)));
    ShownHolds(u, page, bodies);
    ObjectReads(NAMES, ZERO, Shown(page, bodies), SHOWN, FieldsOf(page));
    PageOfFields(page, ReadStruct(NAMES, ZERO, ValueOf(Literal(page, bodies))).value);
  }

  lemma ReadPageIs(v: Value)
    requires |NAMES| == |ZERO| == 8
    ensures ReadStruct(NAMES, ZERO, v).Some? ==> ReadPage(v) == Some(PageOf(ReadStruct(NAMES, ZERO, v).value))
  {
    hide ReadStruct, PageOf;
  }

  lemma ShownSizes(page: Vlans.Page, bodies: seq<string>)
    ensures |NAMES| == |ZERO| == 8 && |Shown(page, bodies)| == |SHOWN| == |FieldsOf(page)| == 5
  {
  }

  lemma PageOfFields(page: Vlans.Page, r: seq<Field>)
    requires |r| == 8 && forall i :: 0 <= i < 5 ==> r[SHOWN[i]] == FieldsOf(page)[i]
    ensures PageOf(r) == page
  {
    assert r[SHOWN[0]] == FieldsOf(page)[0] && r[SHOWN[1]] == FieldsOf(page)[1];
    assert r[SHOWN[2]] == FieldsOf(page)[2] && r[SHOWN[3]] == FieldsOf(page)[3] && r[SHOWN[4]] == FieldsOf(page)[4];
  }

  /** With plain names such a literal, alone on its line, meets every condition. */
  lemma PlainPageShows(u: CharClass, page: Vlans.Page)
    requires u.Ascii() && forall s :: s in page.names ==> PlainName(s)
    ensures ShowsPage(u, Literal(page, page.names), page)
    ensures var d := ObjectDecl("qvlan_ds", Shown(page, page.names));
            && d.name == "qvlan_ds" && ScriptOk([d], "qvlan_ds")
            && ValueText(d.value) == JsTextOf(Literal(page, page.names), Page, "")
  {
    assert NameOk("qvlan_ds");
    var shown := Shown(page, page.names);
    assert ObjectDecl("qvlan_ds", shown).name == "qvlan_ds";
    hide *;
    LiteralIs(page, page.names);
    PlainSpells(page.names);
    LiteralMeans(u, page, page.names);
    ShownClean(u, page);
    ObjectOk(u, "qvlan_ds", shown);
    ObjectDeclOk(u, "qvlan_ds", shown);
    ObjectTextIs("qvlan_ds", shown);
    ShowsIf(u, Literal(page, page.names), page);
  }

  lemma ShowsIf(u: CharClass, v: Js, page: Vlans.Page)
    requires JsOk(u, v) && ArraySafe(v, "") && ReadPage(ValueOf(v)) == Some(page)
    ensures ShowsPage(u, v, page)
  {
    hide JsOk, ArraySafe, ReadPage, ValueOf;
  }

  lemma ShownClean(u: CharClass, page: Vlans.Page)
    requires u.Ascii() && forall s :: s in page.names ==> PlainName(s)
    ensures forall f :: f in Shown(page, page.names) ==> CleanField(u, f)
  {
    assert BareName("portNum") && BareName("vids") && BareName("names") && BareName("tagMbrs");
    assert BareName("untagMbrs");
    hide CleanField, IntList, StrList, NumberOf, BareName, PlainName;
    NumberField(u, "portNum", page.portNum);
    IntListField(u, "vids", page.vids);
    StrListField(u, "names", page.names);
    IntListField(u, "tagMbrs", page.tagMbrs);
    IntListField(u, "untagMbrs", page.untagMbrs);
  }
}
