/** Port sets that travel as membership vectors: trunk groups and the mirror's sources. */
module Groups {
  import opened Masks
  import opened Numbers
  import opened Text

  // ------------------------------------------------------ ascending port lists

  predicate Increasing(s: seq<int>) {
    forall i, j :: 0 <= i < j < |s| ==> s[i] < s[j]
  }

  /** The ports from 1 to `n` that satisfy `f`, in ascending order. */
  function PortsWhere(f: int -> bool, n: nat): seq<int> {
    if n == 0 then [] else PortsWhere(f, n - 1) + if f(n) then [n] else []
  }

  lemma IncreasingSnoc(s: seq<int>, x: int)
    requires Increasing(s) && forall y :: y in s ==> y < x
    ensures Increasing(s + [x])
  {
    assert forall i :: 0 <= i < |s| ==> s[i] in s;
  }

  lemma {:induction false} PortsWhereIs(f: int -> bool, n: nat)
    ensures Increasing(PortsWhere(f, n))
    ensures forall p :: p in PortsWhere(f, n) <==> 1 <= p <= n && f(p)
  {
    if n > 0 {
      PortsWhereIs(f, n - 1);
      IncreasingSnoc(PortsWhere(f, n - 1), n);
    }
  }

  lemma LastIsGreatest(s: seq<int>, x: int)
    requires Increasing(s) && x in s
    ensures s != [] && x <= s[|s| - 1]
    ensures x in s[..|s| - 1] <==> x < s[|s| - 1]
  {
    var i :| 0 <= i < |s| && s[i] == x;
    assert i < |s| - 1 ==> s[..|s| - 1][i] == x;
  }

  lemma EmptyAlike(s: seq<int>, t: seq<int>)
    requires forall p :: p in s <==> p in t
    ensures s == [] <==> t == []
  {
    if s != [] {
      var x := s[0];
      assert x in s && x in t;
    }
    if t != [] {
      var x := t[0];
      assert x in t && x in s;
    }
  }

  /** Ascending lists are determined by their elements. */
  lemma {:induction false} SameElements(s: seq<int>, t: seq<int>)
    requires Increasing(s) && Increasing(t) && forall p :: p in s <==> p in t
    ensures s == t
  {
    EmptyAlike(s, t);
    if s != [] {
      var x, y := s[|s| - 1], t[|t| - 1];
      assert x in s && y in t;
      LastIsGreatest(t, x);
      LastIsGreatest(s, y);
      var s0, t0 := s[..|s| - 1], t[..|t| - 1];
      forall p ensures p in s0 <==> p in t0 {
        hide Increasing;
        if p in s {
          LastIsGreatest(s, p);
          LastIsGreatest(t, p);
        }
      }
      SameElements(s0, t0);
    }
  }

  lemma SamePorts(f: int -> bool, m: nat, g: int -> bool, n: nat)
    requires forall p :: 1 <= p <= m && f(p) <==> 1 <= p <= n && g(p)
    ensures PortsWhere(f, m) == PortsWhere(g, n)
  {
    PortsWhereIs(f, m);
    PortsWhereIs(g, n);
    SameElements(PortsWhere(f, m), PortsWhere(g, n));
  }

  // ----------------------------------------------------------- trunk groups

  datatype Group = Group(id: int, name: string, ports: seq<int>, lacp: bool, active: bool)

  /** Some group of the list, of id 2 or of any other id, has the port. */
  predicate Member(groups: seq<Group>, second: bool, p: int) {
    exists g :: g in groups && (g.id == 2) == second && p in g.ports
  }

  function HasPort(groups: seq<Group>, second: bool): int -> bool {
    p => Member(groups, second, p)
  }

  function Vector(groups: seq<Group>, second: bool): (v: seq<int>)
    ensures |v| == PORTS && forall k :: 0 <= k < PORTS ==> v[k] == if Member(groups, second, k + 1) then 1 else 0
  {
    seq(PORTS, k requires 0 <= k => if Member(groups, second, k + 1) then 1 else 0)
  }

  lemma MemberSnoc(groups: seq<Group>, i: nat)
    requires i < |groups|
    ensures forall second, p :: Member(groups[..i + 1], second, p) <==>
              Member(groups[..i], second, p) || ((groups[i].id == 2) == second && p in groups[i].ports)
  {
    var s, t := groups[..i], groups[..i + 1];
    assert t == s + [groups[i]];
    forall second, p
      ensures Member(t, second, p) <==> Member(s, second, p) || ((groups[i].id == 2) == second && p in groups[i].ports)
    {
      if Member(s, second, p) {
        var g :| g in s && (g.id == 2) == second && p in g.ports;
        assert g in t;
      } else if (groups[i].id == 2) == second && p in groups[i].ports {
        assert groups[i] in t;
      }
    }
  }

  method SetLAG(groups: seq<Group>) returns (g1: array<int>, g2: array<int>)
    ensures fresh(g1) && g1[..] == Vector(groups, false)
    ensures fresh(g2) && g2[..] == Vector(groups, true)
  {
    g1 := new int[PORTS](_ => 0);
    g2 := new int[PORTS](_ => 0);
    for i := 0 to |groups|
      invariant forall k :: 0 <= k < PORTS ==> g1[k] == if Member(groups[..i], false, k + 1) then 1 else 0
      invariant forall k :: 0 <= k < PORTS ==> g2[k] == if Member(groups[..i], true, k + 1) then 1 else 0
    {
      var g := groups[i];
      var target, other := g1, g2;
      if g.id == 2 {
        target, other := g2, g1;
      }
      ghost var was, kept := target[..], other[..];
      for j := 0 to |g.ports|
        invariant other[..] == kept
        invariant forall k :: 0 <= k < PORTS ==> target[k] == if k + 1 in g.ports[..j] then 1 else was[k]
      {
        var p := g.ports[j];
        if p >= 1 && p <= 8 {
          target[p - 1] := 1;
        }
      }
      assert g.ports[..|g.ports|] == g.ports;
      MemberSnoc(groups, i);
    }
    assert groups[..|groups|] == groups;
  }

  /** The ports a parser keeps of a vector, when the page says there are `portNum` of them. */
  function Kept(portNum: int, v: seq<int>): (n: nat)
    ensures n <= |v|
  {
    var n := if portNum == 0 then PORTS else portNum;
    if n < 0 then 0 else if n < |v| then n else |v|
  }

  function IsSet(v: seq<int>): int -> bool {
    p => 1 <= p <= |v| && v[p - 1] != 0
  }

  function GroupName(id: nat): string {
    "LAG" + Dec(id)
  }

  /** The group that a vector stands for, if it has any port. */
  function GroupOf(id: nat, portNum: int, v: seq<int>): seq<Group> {
    var ports := PortsWhere(IsSet(v), Kept(portNum, v));
    if ports == [] then [] else [Group(id, GroupName(id), ports, false, true)]
  }

  function Groups(portNum: int, v1: seq<int>, v2: seq<int>): seq<Group> {
    GroupOf(1, portNum, v1) + GroupOf(2, portNum, v2)
  }

  method MemberPorts(portNum: int, arr: seq<int>) returns (ports: seq<int>)
    requires portNum != 0
    ensures ports == PortsWhere(IsSet(arr), Kept(portNum, arr))
  {
    ports := [];
    var i := 0;
    while i < portNum && i < |arr|
      invariant 0 <= i <= |arr| && (i == 0 || i <= portNum)
      invariant ports == PortsWhere(IsSet(arr), i)
    {
      if arr[i] != 0 {
        ports := ports + [i + 1];
      }
      i := i + 1;
    }
  }

  lemma KeptDefault(portNum: int)
    ensures forall v :: Kept(portNum, v) == Kept(if portNum == 0 then 8 else portNum, v)
  {
  }

  method ParseLAG(portNum: int, g1: seq<int>, g2: seq<int>) returns (groups: seq<Group>)
    ensures groups == Groups(portNum, g1, g2)
  {
    hide Kept, IsSet, PortsWhere, GroupName;
    var n := portNum;
    if n == 0 {
      n := 8;
    }
    KeptDefault(portNum);
    groups := [];
    for idx := 0 to 2
      invariant groups == if idx == 0 then [] else if idx == 1 then GroupOf(1, portNum, g1) else Groups(portNum, g1, g2)
    {
      var ports := MemberPorts(n, if idx == 0 then g1 else g2);
      if |ports| == 0 {
        continue;
      }
      groups := groups + [Group(idx + 1, GroupName(idx + 1), ports, false, true)];
    }
  }

  /**
    * What comes back of any list of groups: under id 2 the union of the groups with id 2, under id 1 that of
    * all others, each ascending and cut to the switch's ports, and no group without ports.
    */
  lemma LagRoundTrip(groups: seq<Group>, portNum: int)
    ensures var n := Kept(portNum, Vector(groups, false));
            var one := PortsWhere(HasPort(groups, false), n);
            var two := PortsWhere(HasPort(groups, true), n);
            Groups(portNum, Vector(groups, false), Vector(groups, true)) ==
            (if one == [] then [] else [Group(1, GroupName(1), one, false, true)])
            + (if two == [] then [] else [Group(2, GroupName(2), two, false, true)])
  {
    var n := Kept(portNum, Vector(groups, false));
    SamePorts(IsSet(Vector(groups, false)), n, HasPort(groups, false), n);
    SamePorts(IsSet(Vector(groups, true)), n, HasPort(groups, true), n);
  }

  /** The lists that `ParseLAG` produces for an 8-port switch, up to names and flags. */
  ghost predicate Canonical(groups: seq<Group>) {
    && (forall g :: g in groups ==>
          && (g.id == 1 || g.id == 2) && g.ports != [] && Increasing(g.ports)
          && forall p :: p in g.ports ==> 1 <= p <= PORTS)
    && forall i, j :: 0 <= i < j < |groups| ==> groups[i].id < groups[j].id
  }

  /** The ports of the group with the given id, if there is one. */
  function PortsOf(groups: seq<Group>, id: int): seq<int> {
    if groups == [] then [] else if groups[0].id == id then groups[0].ports else PortsOf(groups[1..], id)
  }

  lemma {:induction false} IdsGrow(groups: seq<Group>, i: nat)
    requires Canonical(groups) && i < |groups|
    ensures i + 1 <= groups[i].id <= 2
  {
    assert groups[i] in groups;
    if i > 0 {
      IdsGrow(groups, i - 1);
    }
  }

  lemma CanonicalShape(groups: seq<Group>)
    requires Canonical(groups)
    ensures |groups| == (if PortsOf(groups, 1) == [] then 0 else 1) + (if PortsOf(groups, 2) == [] then 0 else 1)
    ensures |groups| > 0 ==> groups[0].ports == PortsOf(groups, groups[0].id) != []
    ensures |groups| == 1 ==> groups[0].id == 1 || groups[0].id == 2
    ensures |groups| == 2 ==> groups[0].id == 1 && groups[1].id == 2 && groups[1].ports == PortsOf(groups, 2)
    ensures Increasing(PortsOf(groups, 1)) && Increasing(PortsOf(groups, 2))
  {
    if |groups| > 0 {
      IdsGrow(groups, 0);
      IdsGrow(groups, |groups| - 1);
      assert groups[0] in groups && groups[|groups| - 1] in groups;
    }
    if |groups| == 2 {
      assert groups[0].id < groups[1].id;
    }
    hide Increasing;
  }

  lemma {:induction false} PortsOfMembers(groups: seq<Group>, second: bool, p: int)
    requires Canonical(groups)
    ensures p in PortsOf(groups, if second then 2 else 1) <==> 1 <= p <= PORTS && Member(groups, second, p)
  {
    var id := if second then 2 else 1;
    if |groups| > 0 {
      IdsGrow(groups, |groups| - 1);
      assert groups[0] in groups && groups[|groups| - 1] in groups;
    }
    assert |groups| <= 2;
    if Member(groups, second, p) {
      var g :| g in groups && (g.id == 2) == second && p in g.ports;
      assert g == groups[0] || g == groups[|groups| - 1];
      assert |groups| == 2 ==> groups[0].id < groups[1].id;
    }
  }

  lemma PortsOfCanonical(groups: seq<Group>, second: bool)
    requires Canonical(groups)
    ensures PortsWhere(HasPort(groups, second), PORTS) == PortsOf(groups, if second then 2 else 1)
  {
    CanonicalShape(groups);
    PortsWhereIs(HasPort(groups, second), PORTS);
    forall p
      ensures p in PortsOf(groups, if second then 2 else 1) <==> p in PortsWhere(HasPort(groups, second), PORTS)
    {
      hide PortsOf, PortsWhere, Canonical, Member;
      PortsOfMembers(groups, second, p);
    }
    SameElements(PortsWhere(HasPort(groups, second), PORTS), PortsOf(groups, if second then 2 else 1));
  }

  /** The same ids and ports, up to names and flags. */
  ghost predicate SameGroups(a: seq<Group>, b: seq<Group>) {
    |a| == |b| && forall i :: 0 <= i < |a| ==> a[i].id == b[i].id && a[i].ports == b[i].ports
  }

  /** On those lists the round trip is the identity exactly if the page's port count covers every port listed. */
  lemma LagIdentityIff(groups: seq<Group>, portNum: int)
    requires Canonical(groups)
    ensures SameGroups(Groups(portNum, Vector(groups, false), Vector(groups, true)), groups) <==>
            forall g :: g in groups ==> forall p :: p in g.ports ==> p <= Kept(portNum, Vector(groups, false))
  {
    var n := Kept(portNum, Vector(groups, false));
    hide Groups, Vector, Canonical;
    if forall g :: g in groups ==> forall p :: p in g.ports ==> p <= n {
      AllKept(groups, portNum);
    } else {
      var g :| g in groups && exists p :: p in g.ports && p > n;
      var i :| 0 <= i < |groups| && groups[i] == g;
      forall j | 0 <= j < |Groups(portNum, Vector(groups, false), Vector(groups, true))|
        ensures forall p :: p in Groups(portNum, Vector(groups, false), Vector(groups, true))[j].ports ==> p <= n
      {
        PortsWithin(portNum, Vector(groups, false), Vector(groups, true), j);
      }
    }
  }

  lemma AllKept(groups: seq<Group>, portNum: int)
    requires Canonical(groups)
    requires forall g :: g in groups ==> forall p :: p in g.ports ==> p <= Kept(portNum, Vector(groups, false))
    ensures SameGroups(Groups(portNum, Vector(groups, false), Vector(groups, true)), groups)
  {
    hide *;
    var n := Kept(portNum, Vector(groups, false));
    KeptBound(portNum, Vector(groups, false));
    KeptPorts(groups, false, n);
    KeptPorts(groups, true, n);
    LagRoundTrip(groups, portNum);
    CanonicalShape(groups);
    SameShape(groups, PortsOf(groups, 1), PortsOf(groups, 2));
  }

  lemma KeptBound(portNum: int, v: seq<int>)
    requires |v| == PORTS
    ensures Kept(portNum, v) <= PORTS
  {
  }

  /** A list of that shape agrees with the groups built from its ports. */
  lemma SameShape(groups: seq<Group>, one: seq<int>, two: seq<int>)
    requires |groups| == (if one == [] then 0 else 1) + (if two == [] then 0 else 1)
    requires |groups| == 1 ==> groups[0].id == 1 || groups[0].id == 2
    requires |groups| > 0 ==> groups[0].ports == (if groups[0].id == 1 then one else two) != []
    requires |groups| == 2 ==> groups[0].id == 1 && groups[1].id == 2 && groups[1].ports == two
    ensures SameGroups((if one == [] then [] else [Group(1, GroupName(1), one, false, true)])
                       + (if two == [] then [] else [Group(2, GroupName(2), two, false, true)]), groups)
  {
    hide GroupName;
    var a := if one == [] then [] else [Group(1, GroupName(1), one, false, true)];
    var b := if two == [] then [] else [Group(2, GroupName(2), two, false, true)];
    assert |a + b| == |groups|;
    assert a == [] ==> a + b == b;
  }

  lemma PortsWithin(portNum: int, v1: seq<int>, v2: seq<int>, j: nat)
    requires |v1| == |v2| && j < |Groups(portNum, v1, v2)|
    ensures forall p :: p in Groups(portNum, v1, v2)[j].ports ==> p <= Kept(portNum, v1)
  {
    PortsWhereIs(IsSet(v1), Kept(portNum, v1));
    PortsWhereIs(IsSet(v2), Kept(portNum, v2));
  }

  lemma KeptPorts(groups: seq<Group>, second: bool, n: nat)
    requires Canonical(groups) && n <= PORTS
    requires forall g :: g in groups ==> forall p :: p in g.ports ==> p <= n
    ensures PortsWhere(HasPort(groups, second), n) == PortsOf(groups, if second then 2 else 1)
  {
    PortsOfCanonical(groups, second);
    SamePorts(HasPort(groups, second), n, HasPort(groups, second), PORTS);
  }

  // -------------------------------------------------------------- mirroring

  /** `OtherMode` stands for every string that is not one of the three. */
  datatype MirrorMode = Both | Ingress | Egress | OtherMode

  datatype Mirror = Mirror(enabled: bool, dest: Int64, mode: MirrorMode, sources: seq<int>)

  /** The form's fields as they are sent. */
  datatype MirrorForm =
    MirrorForm(enabled: string, dest: string, modeCode: string, ingressMask: string, egressMask: string)

  /** The bits of the listed ports. */
  function SourceMask(ports: seq<int>): (m: nat)
    ensures IsWord(m)
  {
    MaskOfIsWord((i: nat) => i + 1 in ports, WIDTH);
    MaskOf((i: nat) => i + 1 in ports, WIDTH)
  }

  lemma SourceBit(ports: seq<int>, i: nat)
    ensures Bit(SourceMask(ports), i) <==> i < WIDTH && i + 1 in ports
  {
    MaskOfBit((j: nat) => j + 1 in ports, WIDTH, i);
  }

  lemma SourceSnoc(ports: seq<int>, p: int)
    requires p >= 1
    ensures SourceMask(ports + [p]) == Or(SourceMask(ports), Shifted(p - 1))
  {
    hide SourceMask, Bit, Or, Shifted;
    forall i: nat ensures Bit(SourceMask(ports + [p]), i) <==> Bit(Or(SourceMask(ports), Shifted(p - 1)), i) {
      SourceBit(ports + [p], i);
      SourceBit(ports, i);
      SetsBit(SourceMask(ports), p - 1, i);
    }
    SameBits(SourceMask(ports + [p]), Or(SourceMask(ports), Shifted(p - 1)));
  }

  lemma NoSources()
    ensures SourceMask([]) == 0
  {
    forall i: nat ensures Bit(SourceMask([]), i) <==> Bit(0, i) {
      SourceBit([], i);
      ZeroBits(i);
    }
    SameBits(SourceMask([]), 0);
  }

  function IngressMask(m: Mirror): (w: nat)
    ensures IsWord(w)
  {
    if m.mode == Ingress || m.mode == Both then SourceMask(m.sources) else 0
  }

  function EgressMask(m: Mirror): (w: nat)
    ensures IsWord(w)
  {
    if m.mode == Egress || m.mode == Both then SourceMask(m.sources) else 0
  }

  function MirrorFormOf(m: Mirror): MirrorForm {
    MirrorForm(if m.enabled then "1" else "0", Itoa(m.dest),
               if m.mode == Ingress then "1" else if m.mode == Egress then "2" else "0",
               Itoa(Signed(IngressMask(m))), Itoa(Signed(EgressMask(m))))
  }

  method SetPortMirror(m: Mirror) returns (form: MirrorForm)
    requires forall p :: p in m.sources ==> p >= 1
    ensures form == MirrorFormOf(m)
  {
    hide SourceMask, Or, Shifted, Itoa, Signed;
    NoSources();
    var enabled := "0";
    if m.enabled {
      enabled := "1";
    }
    var modeCode := "0";
    match m.mode {
      case Ingress => modeCode := "1";
      case Egress => modeCode := "2";
      case _ =>
    }
    var ingressMask, egressMask := 0, 0;
    for i := 0 to |m.sources|
      invariant ingressMask == if m.mode == Ingress || m.mode == Both then SourceMask(m.sources[..i]) else 0
      invariant egressMask == if m.mode == Egress || m.mode == Both then SourceMask(m.sources[..i]) else 0
    {
      var p := m.sources[i];
      assert p in m.sources;
      var bit := Shifted(p - 1);
      SourceSnoc(m.sources[..i], p);
      assert m.sources[..i] + [p] == m.sources[..i + 1];
      if m.mode == Ingress || m.mode == Both {
        ingressMask := Or(ingressMask, bit);
      }
      if m.mode == Egress || m.mode == Both {
        egressMask := Or(egressMask, bit);
      }
    }
    assert m.sources[..|m.sources|] == m.sources;
    form := MirrorForm(enabled, Itoa(m.dest), modeCode, Itoa(Signed(ingressMask)), Itoa(Signed(egressMask)));
  }

  datatype MirrorPage = MirrorPage(enabled: Int64, dest: Int64, modeCode: Int64, ingress: seq<int>, egress: seq<int>)

  function ModeOf(code: int): MirrorMode {
    if code == 1 then Ingress else if code == 2 then Egress else Both
  }

  /** The number of ports that `ParsePortMirror` looks at. */
  function SourceCount(ingress: seq<int>): nat {
    if |ingress| == 0 then PORTS else |ingress|
  }

  /** A port that either vector names. */
  function Seen(page: MirrorPage): int -> bool {
    p => IsSet(page.ingress)(p) || IsSet(page.egress)(p)
  }

  function Mirrored(page: MirrorPage): Mirror {
    Mirror(page.enabled != 0, page.dest, ModeOf(page.modeCode), PortsWhere(Seen(page), SourceCount(page.ingress)))
  }

  method ParsePortMirror(page: MirrorPage) returns (m: Mirror)
    ensures m == Mirrored(page)
  {
    var seen: set<int> := {};
    for i := 0 to |page.ingress|
      invariant forall p :: p in seen <==> p <= i && IsSet(page.ingress)(p)
    {
      if page.ingress[i] != 0 {
        seen := seen + {i + 1};
      }
    }
    for i := 0 to |page.egress|
      invariant forall p :: p in seen <==> IsSet(page.ingress)(p) || (p <= i && IsSet(page.egress)(p))
    {
      if page.egress[i] != 0 {
        seen := seen + {i + 1};
      }
    }
    var portCount := |page.ingress|;
    if portCount == 0 {
      portCount := 8;
    }
    var src := [];
    for p := 1 to portCount + 1
      invariant src == PortsWhere(Seen(page), p - 1)
    {
      if p in seen {
        src := src + [p];
      }
    }
    var mode := Both;
    if page.modeCode == 1 {
      mode := Ingress;
    } else if page.modeCode == 2 {
      mode := Egress;
    }
    m := Mirror(page.enabled != 0, page.dest, mode, src);
  }

  /** A switch with `n` ports that shows the masks it was sent as vectors. */
  function MirrorEcho(form: MirrorForm, n: nat): MirrorPage {
    MirrorPage(Number(form.enabled), Number(form.dest), Number(form.modeCode),
               Bits(Word(Number(form.ingressMask)), n), Bits(Word(Number(form.egressMask)), n))
  }

  lemma NumberOfDigit()
    ensures Number("0") == 0 && Number("1") == 1 && Number("2") == 2
  {
    ParsePrinted(0);
    ParsePrinted(1);
    ParsePrinted(2);
    assert Itoa(0) == "0" && Itoa(1) == "1" && Itoa(2) == "2";
  }

  /** The page in terms of the mirror, past the printing and reading of the form. */
  lemma EchoPage(m: Mirror, n: nat)
    ensures MirrorEcho(MirrorFormOf(m), n) ==
            MirrorPage(if m.enabled then 1 else 0, m.dest,
                       if m.mode == Ingress then 1 else if m.mode == Egress then 2 else 0,
                       Bits(IngressMask(m), n), Bits(EgressMask(m), n))
  {
    NumberOfDigit();
    ParsePrinted(m.dest);
    ParsePrinted(Signed(IngressMask(m)));
    ParsePrinted(Signed(EgressMask(m)));
    WordOfSigned(IngressMask(m));
    WordOfSigned(EgressMask(m));
    hide Itoa, ParseInt, IngressMask, EgressMask, Bits, Signed, Word;
  }

  function Bits(mask: nat, n: nat): (v: seq<int>)
    ensures |v| == n && forall i :: 0 <= i < n ==> v[i] == if Bit(mask, i) then 1 else 0
  {
    seq(n, i requires 0 <= i => if Bit(mask, i) then 1 else 0)
  }

  /** The sources that reach the switch: those with a bit, under a mode it knows. */
  function Sent(m: Mirror): int -> bool {
    p => m.mode != OtherMode && p in m.sources && p <= WIDTH
  }

  lemma BitsSet(ports: seq<int>, n: nat, p: int)
    requires 1 <= p <= n
    ensures IsSet(Bits(SourceMask(ports), n))(p) <==> p in ports && p <= WIDTH
    ensures !IsSet(Bits(0, n))(p)
  {
    SourceBit(ports, p - 1);
    ZeroBits(p - 1);
    hide SourceMask, Bit;
  }

  lemma EchoSeen(m: Mirror, n: nat, p: int)
    requires 1 <= p <= n
    ensures Seen(MirrorEcho(MirrorFormOf(m), n))(p) <==> Sent(m)(p)
  {
    EchoPage(m, n);
    BitsSet(m.sources, n, p);
    hide SourceMask, Bits, IsSet, MirrorEcho, MirrorFormOf;
  }

  /**
    * Mirroring comes back with its sources ascending, without duplicates and cut to the switch's ports.
    * A mode that is none of the three loses its sources and reads as both.
    */
  lemma MirrorRoundTrip(m: Mirror, n: nat)
    ensures Mirrored(MirrorEcho(MirrorFormOf(m), n)) ==
            Mirror(m.enabled, m.dest, if m.mode == OtherMode then Both else m.mode, PortsWhere(Sent(m), n))
  {
    EchoPage(m, n);
    var page := MirrorEcho(MirrorFormOf(m), n);
    hide MirrorEcho, MirrorFormOf;
    var count := SourceCount(page.ingress);
    forall p ensures 1 <= p <= count && Seen(page)(p) <==> 1 <= p <= n && Sent(m)(p) {
      hide SourceMask;
      if 1 <= p <= n {
        EchoSeen(m, n, p);
      } else {
        assert !IsSet(page.ingress)(p) && !IsSet(page.egress)(p);
      }
    }
    SamePorts(Seen(page), count, Sent(m), n);
  }
}
