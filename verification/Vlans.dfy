/** VLAN tables: the form that `SetVLANs` posts, the page the switch then shows, and its two parsers. */
module Vlans {
  import opened Masks
  import opened Numbers
  import opened Text

  /** The source's membership modes; `Excluded` stands for every other string as well. */
  datatype Mode = Tagged | Untagged | Excluded

  datatype Vlan = Vlan(id: Int64, name: string, members: map<int, Mode>)

  // ------------------------------------------------------------- encoding

  /** Port `i + 1` is a member in the given mode. */
  predicate In(members: map<int, Mode>, mode: Mode, i: nat) {
    i + 1 in members && members[i + 1] == mode
  }

  function ModeMask(members: map<int, Mode>, mode: Mode): (m: nat)
    ensures IsWord(m)
  {
    MaskOfIsWord((i: nat) => In(members, mode, i), WIDTH);
    MaskOf((i: nat) => In(members, mode, i), WIDTH)
  }

  lemma ModeBit(members: map<int, Mode>, mode: Mode, i: nat)
    ensures Bit(ModeMask(members, mode), i) <==> i < WIDTH && In(members, mode, i)
  {
    MaskOfBit((i: nat) => In(members, mode, i), WIDTH, i);
  }

  /** `m` has the bits of exactly those members in `mode` that are no longer to be visited. */
  ghost predicate Collected(m: nat, members: map<int, Mode>, mode: Mode, todo: set<int>) {
    forall i: nat :: Bit(m, i) <==> i < WIDTH && In(members, mode, i) && i + 1 !in todo
  }

  lemma CollectsNone(members: map<int, Mode>, mode: Mode)
    ensures Collected(0, members, mode, members.Keys)
  {
    forall i: nat ensures !Bit(0, i) {
      ZeroBits(i);
    }
  }

  lemma CollectsOne(m: nat, members: map<int, Mode>, mode: Mode, todo: set<int>, port: int)
    requires Collected(m, members, mode, todo) && port in todo && port in members && port >= 1
    ensures Collected(if members[port] == mode then Or(m, Shifted(port - 1)) else m, members, mode, todo - {port})
  {
    var m1 := if members[port] == mode then Or(m, Shifted(port - 1)) else m;
    forall i: nat ensures Bit(m1, i) <==> i < WIDTH && In(members, mode, i) && i + 1 !in todo - {port} {
      hide Or, Shifted, Bit;
      SetsBit(m, port - 1, i);
    }
  }

  lemma CollectsAll(m: nat, members: map<int, Mode>, mode: Mode)
    requires Collected(m, members, mode, {})
    ensures m == ModeMask(members, mode)
  {
    forall i: nat ensures Bit(m, i) <==> Bit(ModeMask(members, mode), i) {
      hide Bit, ModeMask;
      ModeBit(members, mode, i);
    }
    SameBits(m, ModeMask(members, mode));
  }

  /** The loop over a VLAN's members, in whatever order the map yields them. */
  method MasksOf(members: map<int, Mode>) returns (tag: nat, untag: nat)
    requires forall p :: p in members ==> p >= 1
    ensures tag == ModeMask(members, Tagged) && untag == ModeMask(members, Untagged)
  {
    hide Collected, Or, Shifted, ModeMask, Bit;
    tag, untag := 0, 0;
    var todo: set<int> := members.Keys;
    CollectsNone(members, Tagged);
    CollectsNone(members, Untagged);
    while exists p :: p in todo
      invariant todo <= members.Keys
      invariant Collected(tag, members, Tagged, todo) && Collected(untag, members, Untagged, todo)
      decreases |todo|
    {
      var port :| port in todo;
      var bit := Shifted(port - 1);
      CollectsOne(tag, members, Tagged, todo, port);
      CollectsOne(untag, members, Untagged, todo, port);
      match members[port] {
        case Tagged => tag := Or(tag, bit);
        case Untagged => untag := Or(untag, bit);
        case Excluded =>
      }
      todo := todo - {port};
    }
    assert todo == {};
    CollectsAll(tag, members, Tagged);
    CollectsAll(untag, members, Untagged);
  }

  datatype Column = Vid | Name | TagMbr | UntagMbr {
    function Prefix(): string {
      match this
      case Vid => "vid"
      case Name => "name"
      case TagMbr => "tagMbr"
      case UntagMbr => "untagMbr"
    }
  }

  /** `fmt.Sprintf("vid%d", i)` and the like. */
  function Key(c: Column, i: nat): string {
    c.Prefix() + Dec(i)
  }

  /** What the form says about one VLAN in a column. */
  function FieldOf(v: Vlan, c: Column): string {
    match c
    case Vid => Itoa(v.id)
    case Name => v.name
    case TagMbr => Itoa(Signed(ModeMask(v.members, Tagged)))
    case UntagMbr => Itoa(Signed(ModeMask(v.members, Untagged)))
  }

  const COUNT := "count"

  function Head(count: nat): map<string, string> {
    map["apply" := "apply", "state" := "1", COUNT := Itoa(count)]
  }

  /** The fields of the first `n` VLANs, as `SetVLANs` adds them to the form. */
  function Fields(vlans: seq<Vlan>, n: nat): map<string, string>
    requires n <= |vlans|
  {
    if n == 0 then Head(|vlans|)
    else
      AddRow(Fields(vlans, n - 1), n - 1, vlans[n - 1])
  }

  function AddRow(form: map<string, string>, i: nat, v: Vlan): map<string, string> {
    form[Key(Vid, i) := FieldOf(v, Vid)][Key(Name, i) := FieldOf(v, Name)]
        [Key(TagMbr, i) := FieldOf(v, TagMbr)][Key(UntagMbr, i) := FieldOf(v, UntagMbr)]
  }

  /** A port below 1 would make the shift panic. */
  ghost predicate PortsOk(vlans: seq<Vlan>) {
    forall v :: v in vlans ==> forall p :: p in v.members ==> p >= 1
  }

  /** One round of the loop below. */
  method PutRow(form: map<string, string>, i: nat, v: Vlan) returns (data: map<string, string>)
    requires forall p :: p in v.members ==> p >= 1
    ensures data == AddRow(form, i, v)
  {
    hide Key, ModeMask, Signed, Itoa;
    data := form;
    data := data[Key(Vid, i) := Itoa(v.id)];
    data := data[Key(Name, i) := v.name];
    var tagMask, untagMask := MasksOf(v.members);
    data := data[Key(TagMbr, i) := Itoa(Signed(tagMask))];
    data := data[Key(UntagMbr, i) := Itoa(Signed(untagMask))];
  }

  method SetVLANs(vlans: seq<Vlan>) returns (data: map<string, string>)
    requires PortsOk(vlans)
    ensures data == Fields(vlans, |vlans|)
  {
    hide Head, AddRow;
    data := Head(|vlans|);
    for i := 0 to |vlans|
      invariant data == Fields(vlans, i)
    {
      data := PutRow(data, i, vlans[i]);
    }
  }

  // --------------------------------------------------------------- decoding

  /** `qvlan_ds`, as read from the page. */
  datatype Page = Page(portNum: Int64, vids: seq<Int64>, names: seq<string>, tagMbrs: seq<Int64>, untagMbrs: seq<Int64>)

  function PortCount(portNum: int): int {
    if portNum == 0 then 8 else portNum
  }

  function ModeAt(tag: nat, untag: nat, port: int): Mode
    requires port >= 1
  {
    if port > WIDTH then Excluded
    else if Bit(tag, port - 1) then Tagged
    else if Bit(untag, port - 1) then Untagged
    else Excluded
  }

  function Members(n: int, tag: nat, untag: nat): map<int, Mode> {
    map p | 1 <= p <= n :: ModeAt(tag, untag, p)
  }

  function At(masks: seq<Int64>, i: nat): nat {
    if i < |masks| then Word(masks[i]) else 0
  }

  function Decoded(page: Page, i: nat): Vlan
    requires i < |page.vids|
  {
    Vlan(page.vids[i], if i < |page.names| then page.names[i] else "",
         Members(PortCount(page.portNum), At(page.tagMbrs, i), At(page.untagMbrs, i)))
  }

  method ParseVLAN8021Q(page: Page) returns (vlans: seq<Vlan>)
    ensures |vlans| == |page.vids| && forall i :: 0 <= i < |vlans| ==> vlans[i] == Decoded(page, i)
  {
    var portNum: int := page.portNum;
    if portNum == 0 {
      portNum := 8;
    }
    vlans := [];
    for i := 0 to |page.vids|
      invariant |vlans| == i && forall j :: 0 <= j < i ==> vlans[j] == Decoded(page, j)
    {
      var name := "";
      if i < |page.names| {
        name := page.names[i];
      }
      var tagMask, untagMask := 0, 0;
      if i < |page.tagMbrs| {
        tagMask := Word(page.tagMbrs[i]);
      }
      if i < |page.untagMbrs| {
        untagMask := Word(page.untagMbrs[i]);
      }
      var members := FillMembers(portNum, tagMask, untagMask);
      vlans := vlans + [Vlan(page.vids[i], name, members)];
    }
  }

  /** The inner loop over the ports. */
  method FillMembers(portNum: int, tagMask: nat, untagMask: nat) returns (members: map<int, Mode>)
    ensures members == Members(portNum, tagMask, untagMask)
  {
    members := map[];
    var port := 1;
    while port <= portNum
      invariant 1 <= port && (port <= portNum + 1 || port == 1)
      invariant members == Members(port - 1, tagMask, untagMask)
    {
      hide Bit, And, Shifted;
      var bit := Shifted(port - 1);
      TestsBit(tagMask, port - 1);
      TestsBit(untagMask, port - 1);
      if And(tagMask, bit) != 0 {
        members := members[port := Tagged];
      } else if And(untagMask, bit) != 0 {
        members := members[port := Untagged];
      } else {
        members := members[port := Excluded];
      }
      port := port + 1;
    }
  }

  // ------------------------------------------------------------ the switch

  function Get(form: map<string, string>, key: string): string {
    if key in form then form[key] else ""
  }

  /** A switch that shows the VLANs it was sent. */
  function Echo(form: map<string, string>, portNum: Int64): Page {
    var count := Atoi(Get(form, COUNT));
    var n := if count.Some? && count.value >= 0 then count.value else 0;
    Page(portNum,
         seq(n, i requires 0 <= i => Number(Get(form, Key(Vid, i)))),
         seq(n, i requires 0 <= i => Get(form, Key(Name, i))),
         seq(n, i requires 0 <= i => Number(Get(form, Key(TagMbr, i)))),
         seq(n, i requires 0 <= i => Number(Get(form, Key(UntagMbr, i)))))
  }

  lemma KeysDiffer(c: Column, i: nat, d: Column, j: nat)
    ensures Key(c, i) == Key(d, j) ==> c == d && i == j
    ensures Key(c, i) != COUNT
  {
    var k, l := Key(c, i), Key(d, j);
    assert k[0] == c.Prefix()[0] && l[0] == d.Prefix()[0];
    if k == l {
      assert k[|c.Prefix()|..] == Dec(i) && l[|d.Prefix()|..] == Dec(j);
      DecInjective(i, j);
    }
  }

  /** No field overwrites another. */
  lemma RowAt(form: map<string, string>, i: nat, v: Vlan, c: Column, j: nat)
    ensures Get(AddRow(form, i, v), Key(c, j)) == if i == j then FieldOf(v, c) else Get(form, Key(c, j))
    ensures Get(AddRow(form, i, v), COUNT) == Get(form, COUNT)
  {
    hide Key, FieldOf, MaskOf, Pow2;
    forall d, k ensures (Key(c, j) == Key(d, k) ==> c == d && j == k) && Key(d, k) != COUNT {
      KeysDiffer(c, j, d, k);
      KeysDiffer(d, k, c, j);
    }
  }

  lemma FieldsStep(vlans: seq<Vlan>, n: nat)
    requires 0 < n <= |vlans|
    ensures Fields(vlans, n) == AddRow(Fields(vlans, n - 1), n - 1, vlans[n - 1])
  {
    hide AddRow;
  }

  lemma {:induction false} FieldsAt(vlans: seq<Vlan>, n: nat, c: Column, i: nat)
    requires i < n <= |vlans|
    ensures Get(Fields(vlans, n), Key(c, i)) == FieldOf(vlans[i], c)
  {
    hide *;
    FieldsStep(vlans, n);
    RowAt(Fields(vlans, n - 1), n - 1, vlans[n - 1], c, i);
    if i < n - 1 {
      FieldsAt(vlans, n - 1, c, i);
    }
  }

  lemma HeadFields(vlans: seq<Vlan>)
    ensures Get(Fields(vlans, 0), COUNT) == Itoa(|vlans|)
  {
    hide Itoa;
  }

  lemma {:induction false} CountField(vlans: seq<Vlan>, n: nat)
    requires n <= |vlans|
    ensures Get(Fields(vlans, n), COUNT) == Itoa(|vlans|)
  {
    hide *;
    if n == 0 {
      HeadFields(vlans);
    } else {
      FieldsStep(vlans, n);
      RowAt(Fields(vlans, n - 1), n - 1, vlans[n - 1], Vid, 0);
      CountField(vlans, n - 1);
    }
  }

  lemma EchoAt(form: map<string, string>, portNum: Int64, n: nat, i: nat)
    requires Get(form, COUNT) == Itoa(n) && i < n
    ensures var page := Echo(form, portNum);
            && |page.vids| == |page.names| == |page.tagMbrs| == |page.untagMbrs| == n && page.portNum == portNum
            && page.vids[i] == Number(Get(form, Key(Vid, i))) && page.names[i] == Get(form, Key(Name, i))
            && page.tagMbrs[i] == Number(Get(form, Key(TagMbr, i)))
            && page.untagMbrs[i] == Number(Get(form, Key(UntagMbr, i)))
  {
    AtoiItoa(n);
    hide Key, Itoa, Atoi, Get, Number;
  }

  lemma NumberAt(vlans: seq<Vlan>, c: Column, i: nat, n: Int64)
    requires i < |vlans| && FieldOf(vlans[i], c) == Itoa(n)
    ensures Number(Get(Fields(vlans, |vlans|), Key(c, i))) == n
  {
    hide FieldOf, Fields, Key, Itoa, Get, ParseInt;
    FieldsAt(vlans, |vlans|, c, i);
    ParsePrinted(n);
  }

  lemma Columns(v: Vlan)
    ensures FieldOf(v, Vid) == Itoa(v.id) && FieldOf(v, Name) == v.name
    ensures FieldOf(v, TagMbr) == Itoa(Signed(ModeMask(v.members, Tagged)))
    ensures FieldOf(v, UntagMbr) == Itoa(Signed(ModeMask(v.members, Untagged)))
  {
    hide Itoa, Signed, ModeMask;
  }

  /** The page of a switch that was sent `vlans`. */
  lemma EchoOfFields(vlans: seq<Vlan>, portNum: Int64, i: nat)
    requires i < |vlans|
    ensures var page := Echo(Fields(vlans, |vlans|), portNum);
            && |page.vids| == |page.names| == |page.tagMbrs| == |page.untagMbrs| == |vlans|
            && page.portNum == portNum && page.vids[i] == vlans[i].id && page.names[i] == vlans[i].name
            && page.tagMbrs[i] == Signed(ModeMask(vlans[i].members, Tagged))
            && page.untagMbrs[i] == Signed(ModeMask(vlans[i].members, Untagged))
  {
    hide *;
    var v := vlans[i];
    Columns(v);
    NumberAt(vlans, Vid, i, v.id);
    NumberAt(vlans, TagMbr, i, Signed(ModeMask(v.members, Tagged)));
    NumberAt(vlans, UntagMbr, i, Signed(ModeMask(v.members, Untagged)));
    CountField(vlans, |vlans|);
    EchoAt(Fields(vlans, |vlans|), portNum, |vlans|, i);
    FieldsAt(vlans, |vlans|, Name, i);
  }

  /** What survives of a membership map: ports that are listed or fit no bit of a mask become excluded. */
  function Normal(n: int, members: map<int, Mode>): map<int, Mode> {
    map p | 1 <= p <= n :: if p in members && p <= WIDTH then members[p] else Excluded
  }

  lemma InIs(members: map<int, Mode>, mode: Mode, p: int)
    requires p >= 1
    ensures In(members, mode, p - 1) <==> p in members && members[p] == mode
  {
  }

  lemma ModeOfMasks(members: map<int, Mode>, p: int)
    requires p >= 1
    ensures ModeAt(ModeMask(members, Tagged), ModeMask(members, Untagged), p) ==
            if p in members && p <= WIDTH then members[p] else Excluded
  {
    hide ModeMask, MaskOf, Pow2, Bit, In;
    ModeBit(members, Tagged, p - 1);
    ModeBit(members, Untagged, p - 1);
    InIs(members, Tagged, p);
    InIs(members, Untagged, p);
  }

  lemma MembersOfMasks(n: int, members: map<int, Mode>)
    ensures Members(n, ModeMask(members, Tagged), ModeMask(members, Untagged)) == Normal(n, members)
  {
    hide ModeMask, ModeAt;
    forall p | 1 <= p <= n
      ensures ModeAt(ModeMask(members, Tagged), ModeMask(members, Untagged), p) == Normal(n, members)[p]
    {
      ModeOfMasks(members, p);
    }
  }

  /** VLAN round trip: ids, names and modes come back in order. */
  lemma RoundTrip(vlans: seq<Vlan>, portNum: Int64, i: nat)
    requires i < |vlans|
    ensures var page := Echo(Fields(vlans, |vlans|), portNum);
            && |page.vids| == |vlans|
            && Decoded(page, i) == vlans[i].(members := Normal(PortCount(portNum), vlans[i].members))
  {
    hide Echo, Fields, ModeMask, Members, Normal;
    EchoOfFields(vlans, portNum, i);
    MembersOfMasks(PortCount(portNum), vlans[i].members);
    WordOfSigned(ModeMask(vlans[i].members, Tagged));
    WordOfSigned(ModeMask(vlans[i].members, Untagged));
  }

  /** Nothing is lost exactly if the switch's ports are listed and those without a bit are excluded. */
  lemma NormalIsSame(n: int, members: map<int, Mode>)
    ensures Normal(n, members) == members <==>
            && (forall p :: p in members <==> 1 <= p <= n)
            && (forall p :: p in members && p > WIDTH ==> members[p] == Excluded)
  {
    assert forall p :: p in Normal(n, members) <==> 1 <= p <= n;
    if Normal(n, members) == members {
      assert forall p :: p in members ==> members[p] == Normal(n, members)[p];
    }
  }

  /** Encoding what was decoded: the masks cut to the switch's ports, and tagged wins. */
  lemma ReEncoded(n: int, tag: nat, untag: nat, i: nat)
    ensures Bit(ModeMask(Members(n, tag, untag), Tagged), i) <==> i < n && i < WIDTH && Bit(tag, i)
    ensures Bit(ModeMask(Members(n, tag, untag), Untagged), i) <==> i < n && i < WIDTH && Bit(untag, i) && !Bit(tag, i)
  {
    ModeBit(Members(n, tag, untag), Tagged, i);
    ModeBit(Members(n, tag, untag), Untagged, i);
    hide ModeMask, Bit;
  }

  // ------------------------------------------------------ port-based VLANs

  /** `pvlan_ds`. */
  datatype PortPage = PortPage(portNum: Int64, vids: seq<Int64>, mbrs: seq<Int64>)

  method ParseVLANPortBased(page: PortPage) returns (vlans: seq<Vlan>)
    ensures |vlans| == |page.vids|
    ensures forall i :: 0 <= i < |vlans| ==>
              vlans[i] == Vlan(page.vids[i], "", Members(PortCount(page.portNum), 0, At(page.mbrs, i)))
  {
    var portNum: int := page.portNum;
    if portNum == 0 {
      portNum := 8;
    }
    vlans := [];
    for i := 0 to |page.vids|
      invariant |vlans| == i
      invariant forall j :: 0 <= j < i ==>
                  vlans[j] == Vlan(page.vids[j], "", Members(PortCount(page.portNum), 0, At(page.mbrs, j)))
    {
      var mask := 0;
      if i < |page.mbrs| {
        mask := Word(page.mbrs[i]);
      }
      var members: map<int, Mode> := map[];
      var port := 1;
      while port <= portNum
        invariant 1 <= port && (port <= portNum + 1 || port == 1)
        invariant members == Members(port - 1, 0, mask)
      {
        hide Bit, And, Shifted;
        TestsBit(mask, port - 1);
        ZeroBits(port - 1);
        members := members[port := if And(mask, Shifted(port - 1)) != 0 then Untagged else Excluded];
        port := port + 1;
      }
      vlans := vlans + [Vlan(page.vids[i], "", members)];
    }
  }

  /** A port-based table written back as 802.1Q keeps its members untagged and tags nothing. */
  lemma PortBasedIsUntagged(n: int, mask: nat, i: nat)
    ensures ModeMask(Members(n, 0, mask), Tagged) == 0
    ensures Bit(ModeMask(Members(n, 0, mask), Untagged), i) <==> i < n && i < WIDTH && Bit(mask, i)
  {
    forall j: nat ensures Bit(ModeMask(Members(n, 0, mask), Tagged), j) <==> Bit(0, j) {
      ReEncoded(n, 0, mask, j);
      ZeroBits(j);
    }
    SameBits(ModeMask(Members(n, 0, mask), Tagged), 0);
    ReEncoded(n, 0, mask, i);
    ZeroBits(i);
  }
}
