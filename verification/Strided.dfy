/** Per-port settings that travel as flat arrays: bandwidth, storm control, priorities and counters. */
module Strided {
  import opened Masks
  import opened Wrappers

  const SLOTS := 25

  /** The last entry for a port: the one whose values a loop over the list leaves behind. */
  function LastFor<T>(entries: seq<T>, port: T -> int, p: int): Option<T> {
    if entries == [] then None
    else if port(entries[|entries| - 1]) == p then Some(entries[|entries| - 1])
    else LastFor(entries[..|entries| - 1], port, p)
  }

  /** `LastFor` picks an entry for the port behind which there is no other. */
  lemma {:induction false} LastForIs<T>(entries: seq<T>, port: T -> int, p: int)
    ensures LastFor(entries, port, p).None? <==> forall e :: e in entries ==> port(e) != p
    ensures LastFor(entries, port, p).Some? ==>
              exists i :: 0 <= i < |entries| && LastFor(entries, port, p) == Some(entries[i]) && port(entries[i]) == p
                          && forall j :: i < j < |entries| ==> port(entries[j]) != p
  {
    if entries != [] {
      var n := |entries| - 1;
      LastForIs(entries[..n], port, p);
      assert entries == entries[..n] + [entries[n]];
      if port(entries[n]) != p && LastFor(entries[..n], port, p).Some? {
        var i :| 0 <= i < n && LastFor(entries[..n], port, p) == Some(entries[..n][i]) && port(entries[..n][i]) == p
                 && forall j :: i < j < n ==> port(entries[..n][j]) != p;
        assert forall j :: i < j < |entries| ==> port(entries[j]) != p by {
          assert forall j :: i < j < n ==> entries[..n][j] == entries[j];
        }
      }
    }
  }

  // -------------------------------------------------------------- bandwidth

  datatype Bandwidth = Bandwidth(port: int, on: bool, ingress: int, egress: int)

  function PortOf(b: Bandwidth): int {
    b.port
  }

  /** Some entry for the port enables it. */
  predicate EverOn(bw: seq<Bandwidth>, p: int) {
    exists b :: b in bw && b.port == p && b.on
  }

  /** What `SetBandwidth` puts into slot `k`; the flag of a port is set and never cleared. */
  function BandwidthSlot(bw: seq<Bandwidth>, k: nat): int {
    var p := k / 3 + 1;
    var last := LastFor(bw, PortOf, p);
    if p > PORTS then 0
    else if k % 3 == 0 then if EverOn(bw, p) then 1 else 0
    else if last.None? then 0
    else if k % 3 == 1 then last.value.ingress
    else last.value.egress
  }

  function BandwidthSlots(bw: seq<Bandwidth>): (vals: seq<int>)
    ensures |vals| == SLOTS && forall k :: 0 <= k < SLOTS ==> vals[k] == BandwidthSlot(bw, k)
  {
    seq(SLOTS, k requires 0 <= k => BandwidthSlot(bw, k))
  }

  lemma BandwidthSlotSnoc(bw: seq<Bandwidth>, b: Bandwidth, k: nat)
    requires k < SLOTS
    ensures BandwidthSlot(bw + [b], k) ==
            if b.port < 1 || b.port > PORTS || k / 3 + 1 != b.port then BandwidthSlot(bw, k)
            else if k % 3 == 0 then if b.on then 1 else BandwidthSlot(bw, k)
            else if k % 3 == 1 then b.ingress else b.egress
  {
    assert (bw + [b])[..|bw|] == bw;
    assert EverOn(bw + [b], k / 3 + 1) <==> EverOn(bw, k / 3 + 1) || (b.port == k / 3 + 1 && b.on);
  }

  method SetBandwidth(bw: seq<Bandwidth>) returns (vals: array<int>)
    ensures fresh(vals) && vals[..] == BandwidthSlots(bw)
  {
    vals := new int[SLOTS](_ => 0);
    for i := 0 to |bw|
      invariant forall k :: 0 <= k < SLOTS ==> vals[k] == BandwidthSlot(bw[..i], k)
    {
      hide BandwidthSlot;
      var b := bw[i];
      assert bw[..i + 1] == bw[..i] + [b];
      forall k | 0 <= k < SLOTS
        ensures BandwidthSlot(bw[..i + 1], k) ==
                if b.port < 1 || b.port > PORTS || k / 3 + 1 != b.port then BandwidthSlot(bw[..i], k)
                else if k % 3 == 0 then if b.on then 1 else BandwidthSlot(bw[..i], k)
                else if k % 3 == 1 then b.ingress else b.egress
      {
        BandwidthSlotSnoc(bw[..i], b, k);
      }
      if b.port < 1 || b.port > 8 {
        continue;
      }
      var base := (b.port - 1) * 3;
      if b.on {
        vals[base] := 1;
      }
      vals[base + 1] := b.ingress;
      vals[base + 2] := b.egress;
    }
    assert bw[..|bw|] == bw;
  }

  function BandwidthAt(vals: seq<int>, i: nat): Bandwidth {
    if 3 * i + 2 < |vals| then Bandwidth(i + 1, vals[3 * i] != 0, vals[3 * i + 1], vals[3 * i + 2])
    else Bandwidth(i + 1, false, 0, 0)
  }

  method ParseBandwidth(portNum: int, vals: seq<int>) returns (result: array<Bandwidth>)
    requires portNum >= 0
    ensures result.Length == portNum && forall i :: 0 <= i < portNum ==> result[i] == BandwidthAt(vals, i)
  {
    result := new Bandwidth[portNum](_ => Bandwidth(0, false, 0, 0));
    for i := 0 to portNum
      invariant forall j :: 0 <= j < i ==> result[j] == BandwidthAt(vals, j)
    {
      var bc := Bandwidth(i + 1, false, 0, 0);
      var base := i * 3;
      if base + 2 < |vals| {
        bc := bc.(on := vals[base] != 0);
        bc := bc.(ingress := vals[base + 1]);
        bc := bc.(egress := vals[base + 2]);
      }
      result[i] := bc;
    }
  }

  /** Reading back what was sent: the last entry's rates, the disjunction of all flags, and nothing past port 8. */
  lemma BandwidthRoundTrip(bw: seq<Bandwidth>, i: nat)
    ensures var last := LastFor(bw, PortOf, i + 1);
            BandwidthAt(BandwidthSlots(bw), i) ==
            if i < PORTS && last.Some? then Bandwidth(i + 1, EverOn(bw, i + 1), last.value.ingress, last.value.egress)
            else Bandwidth(i + 1, false, 0, 0)
  {
    hide LastFor, EverOn;
    LastForIs(bw, PortOf, i + 1);
    if i < PORTS {
      assert (3 * i) / 3 == i && (3 * i + 1) / 3 == i && (3 * i + 2) / 3 == i;
      assert (3 * i) % 3 == 0 && (3 * i + 1) % 3 == 1 && (3 * i + 2) % 3 == 2;
      EverOnHasLast(bw, i + 1);
    }
  }

  lemma EverOnHasLast(bw: seq<Bandwidth>, p: int)
    ensures EverOn(bw, p) ==> LastFor(bw, PortOf, p).Some?
  {
    LastForIs(bw, PortOf, p);
  }

  /** Sending back what was read, unchanged, gives the slots the page had: the flags must be 0 or 1. */
  lemma BandwidthResubmit(vals: seq<int>, k: nat)
    requires |vals| == SLOTS && k < SLOTS
    ensures var bw := seq(PORTS, i requires 0 <= i => BandwidthAt(vals, i));
            BandwidthSlot(bw, k) ==
            if k == SLOTS - 1 then 0 else if k % 3 == 0 then if vals[k] != 0 then 1 else 0 else vals[k]
  {
    hide LastFor;
    var bw := seq(PORTS, i requires 0 <= i => BandwidthAt(vals, i));
    var p := k / 3 + 1;
    assert forall i :: 0 <= i < PORTS ==> bw[i].port == i + 1;
    if p <= PORTS {
      LastForIs(bw, PortOf, p);
      assert bw[p - 1] in bw && PortOf(bw[p - 1]) == p;
      assert bw[p - 1] == BandwidthAt(vals, p - 1);
      assert LastFor(bw, PortOf, p) == Some(bw[p - 1]);
      assert EverOn(bw, p) <==> bw[p - 1].on;
    }
  }

  // ---------------------------------------------------------- storm control

  datatype Storm = Storm(port: int, broadcast: int, multicast: int, unicast: int)

  function StormPort(s: Storm): int {
    s.port
  }

  function StormSlot(sc: seq<Storm>, k: nat): int {
    var last := LastFor(sc, StormPort, k / 3 + 1);
    if k / 3 >= PORTS || last.None? then 0
    else if k % 3 == 0 then last.value.broadcast
    else if k % 3 == 1 then last.value.multicast
    else last.value.unicast
  }

  function StormSlots(sc: seq<Storm>): (vals: seq<int>)
    ensures |vals| == SLOTS && forall k :: 0 <= k < SLOTS ==> vals[k] == StormSlot(sc, k)
  {
    seq(SLOTS, k requires 0 <= k => StormSlot(sc, k))
  }

  lemma StormSlotSnoc(sc: seq<Storm>, s: Storm, k: nat)
    requires k < SLOTS
    ensures StormSlot(sc + [s], k) ==
            if s.port < 1 || s.port > PORTS || k / 3 + 1 != s.port then StormSlot(sc, k)
            else if k % 3 == 0 then s.broadcast else if k % 3 == 1 then s.multicast else s.unicast
  {
    assert (sc + [s])[..|sc|] == sc;
  }

  method SetStormControl(sc: seq<Storm>) returns (vals: array<int>)
    ensures fresh(vals) && vals[..] == StormSlots(sc)
  {
    vals := new int[SLOTS](_ => 0);
    for i := 0 to |sc|
      invariant forall k :: 0 <= k < SLOTS ==> vals[k] == StormSlot(sc[..i], k)
    {
      hide StormSlot;
      var s := sc[i];
      assert sc[..i + 1] == sc[..i] + [s];
      forall k | 0 <= k < SLOTS
        ensures StormSlot(sc[..i + 1], k) ==
                if s.port < 1 || s.port > PORTS || k / 3 + 1 != s.port then StormSlot(sc[..i], k)
                else if k % 3 == 0 then s.broadcast else if k % 3 == 1 then s.multicast else s.unicast
      {
        StormSlotSnoc(sc[..i], s, k);
      }
      if s.port < 1 || s.port > 8 {
        continue;
      }
      var base := (s.port - 1) * 3;
      vals[base] := s.broadcast;
      vals[base + 1] := s.multicast;
      vals[base + 2] := s.unicast;
    }
    assert sc[..|sc|] == sc;
  }

  function StormAt(vals: seq<int>, i: nat): Storm {
    if 3 * i + 2 < |vals| then Storm(i + 1, vals[3 * i], vals[3 * i + 1], vals[3 * i + 2]) else Storm(i + 1, 0, 0, 0)
  }

  method ParseStormControl(portNum: int, vals: seq<int>) returns (result: array<Storm>)
    requires portNum >= 0
    ensures result.Length == portNum && forall i :: 0 <= i < portNum ==> result[i] == StormAt(vals, i)
  {
    result := new Storm[portNum](_ => Storm(0, 0, 0, 0));
    for i := 0 to portNum
      invariant forall j :: 0 <= j < i ==> result[j] == StormAt(vals, j)
    {
      var sc := Storm(i + 1, 0, 0, 0);
      var base := i * 3;
      if base + 2 < |vals| {
        sc := sc.(broadcast := vals[base]);
        sc := sc.(multicast := vals[base + 1]);
        sc := sc.(unicast := vals[base + 2]);
      }
      result[i] := sc;
    }
  }

  /** Storm control comes back as each port's last entry, or as zeros. */
  lemma StormRoundTrip(sc: seq<Storm>, i: nat)
    ensures var last := LastFor(sc, StormPort, i + 1);
            StormAt(StormSlots(sc), i) == if i < PORTS && last.Some? then last.value else Storm(i + 1, 0, 0, 0)
  {
    hide LastFor;
    LastForIs(sc, StormPort, i + 1);
    if i < PORTS {
      assert (3 * i) / 3 == i && (3 * i + 1) / 3 == i && (3 * i + 2) / 3 == i;
      assert (3 * i) % 3 == 0 && (3 * i + 1) % 3 == 1 && (3 * i + 2) % 3 == 2;
    }
  }

  /** And sending back what was read changes no slot of a port. */
  lemma StormResubmit(vals: seq<int>, k: nat)
    requires |vals| == SLOTS && k < SLOTS - 1
    ensures StormSlot(seq(PORTS, i requires 0 <= i => StormAt(vals, i)), k) == vals[k]
  {
    hide LastFor;
    var sc := seq(PORTS, i requires 0 <= i => StormAt(vals, i));
    var p := k / 3 + 1;
    assert forall i :: 0 <= i < PORTS ==> sc[i].port == i + 1;
    LastForIs(sc, StormPort, p);
    assert sc[p - 1] in sc && StormPort(sc[p - 1]) == p;
    assert sc[p - 1] == StormAt(vals, p - 1);
    assert LastFor(sc, StormPort, p) == Some(sc[p - 1]);
  }

  // -------------------------------------------------------------- priorities

  /** `OtherMode` stands for every string that is not one of the three. */
  datatype QosMode = PortMode | Mode8021p | DscpMode | OtherMode

  datatype Priority = Priority(port: int, level: int)

  function PriorityPort(p: Priority): int {
    p.port
  }

  /** `qosModeMap`; `None` is the empty mode of a code it does not list. */
  function ModeOf(code: int): Option<QosMode> {
    if code == 1 then Some(PortMode)
    else if code == 2 then Some(Mode8021p)
    else if code == 3 then Some(DscpMode) else None
  }

  function PrioritySlot(ports: seq<Priority>, k: nat): int {
    var last := LastFor(ports, PriorityPort, k + 1);
    if last.None? then 1 else last.value.level
  }

  function PrioritySlots(ports: seq<Priority>): (pris: seq<int>)
    ensures |pris| == PORTS && forall k :: 0 <= k < PORTS ==> pris[k] == PrioritySlot(ports, k)
  {
    seq(PORTS, k requires 0 <= k => PrioritySlot(ports, k))
  }

  method SetQoS(mode: QosMode, ports: seq<Priority>) returns (modeCode: int, pris: array<int>)
    ensures ModeOf(modeCode) == Some(if mode == OtherMode then Mode8021p else mode)
    ensures fresh(pris) && pris[..] == PrioritySlots(ports)
  {
    modeCode := 2;
    match mode {
      case PortMode => modeCode := 1;
      case DscpMode => modeCode := 3;
      case _ =>
    }
    pris := new int[PORTS](_ => 1);
    for i := 0 to |ports|
      invariant forall k :: 0 <= k < PORTS ==> pris[k] == PrioritySlot(ports[..i], k)
    {
      var p := ports[i];
      assert ports[..i + 1][..i] == ports[..i];
      if p.port >= 1 && p.port <= 8 {
        pris[p.port - 1] := p.level;
      }
    }
    assert ports[..|ports|] == ports;
  }

  function PriorityAt(pris: seq<int>, i: nat): Priority {
    Priority(i + 1, if i < |pris| then pris[i] else 1)
  }

  method ParseQoSBasic(mode: int, portNum: int, pris: seq<int>) returns (m: Option<QosMode>, ports: array<Priority>)
    requires portNum >= 0
    ensures m == ModeOf(mode)
    ensures ports.Length == portNum && forall i :: 0 <= i < portNum ==> ports[i] == PriorityAt(pris, i)
  {
    m := ModeOf(mode);
    ports := new Priority[portNum](_ => Priority(0, 0));
    for i := 0 to portNum
      invariant forall j :: 0 <= j < i ==> ports[j] == PriorityAt(pris, j)
    {
      var pri := 1;
      if i < |pris| {
        pri := pris[i];
      }
      ports[i] := Priority(i + 1, pri);
    }
  }

  /** Priorities come back as each port's last entry, or as 1. */
  lemma PriorityRoundTrip(ports: seq<Priority>, i: nat)
    ensures var last := LastFor(ports, PriorityPort, i + 1);
            PriorityAt(PrioritySlots(ports), i) == if i < PORTS && last.Some? then last.value else Priority(i + 1, 1)
  {
    hide LastFor;
    LastForIs(ports, PriorityPort, i + 1);
  }

  // ---------------------------------------------------------------- counters

  datatype Counters = Counters(port: int, txGood: nat, txBad: nat, rxGood: nat, rxBad: nat)

  function CountersAt(pkts: seq<Int64>, i: nat): Counters {
    if 4 * i + 3 < |pkts|
    then Counters(i + 1, Word(pkts[4 * i]), Word(pkts[4 * i + 1]), Word(pkts[4 * i + 2]), Word(pkts[4 * i + 3]))
    else Counters(i + 1, 0, 0, 0, 0)
  }

  method ParsePortStats(portCount: int, pkts: seq<Int64>) returns (stats: array<Counters>)
    requires portCount >= 0
    ensures stats.Length == portCount && forall i :: 0 <= i < portCount ==> stats[i] == CountersAt(pkts, i)
  {
    stats := new Counters[portCount](_ => Counters(0, 0, 0, 0, 0));
    for i := 0 to portCount
      invariant forall j :: 0 <= j < i ==> stats[j] == CountersAt(pkts, j)
    {
      var s := Counters(i + 1, 0, 0, 0, 0);
      var base := i * 4;
      if base + 3 < |pkts| {
        s := s.(txGood := Word(pkts[base]));
        s := s.(txBad := Word(pkts[base + 1]));
        s := s.(rxGood := Word(pkts[base + 2]));
        s := s.(rxBad := Word(pkts[base + 3]));
      }
      stats[i] := s;
    }
  }

  /** One port's counters as the switch shows them. */
  datatype Row = Row(txGood: Int64, txBad: Int64, rxGood: Int64, rxBad: Int64)

  /** The flat array of all rows. */
  function Laid(rows: seq<Row>): (pkts: seq<Int64>)
    ensures |pkts| == 4 * |rows|
  {
    if rows == [] then []
    else
      var r := rows[|rows| - 1];
      Laid(rows[..|rows| - 1]) + [r.txGood, r.txBad, r.rxGood, r.rxBad]
  }

  lemma {:induction false} LaidAt(rows: seq<Row>, i: nat)
    requires i < |rows|
    ensures var pkts := Laid(rows);
            && pkts[4 * i] == rows[i].txGood && pkts[4 * i + 1] == rows[i].txBad
            && pkts[4 * i + 2] == rows[i].rxGood && pkts[4 * i + 3] == rows[i].rxBad
  {
    if i < |rows| - 1 {
      LaidAt(rows[..|rows| - 1], i);
    }
  }

  /**
    * Of a table cut off anywhere, exactly the ports whose four counters are all there come back, as the
    * unsigned numbers of the same bits; the others read as zero.
    */
  lemma CountersRoundTrip(rows: seq<Row>, cut: nat, i: nat)
    requires i < |rows| && cut <= 4 * |rows|
    ensures CountersAt(Laid(rows)[..cut], i) ==
            if 4 * i + 4 <= cut
            then Counters(i + 1, Word(rows[i].txGood), Word(rows[i].txBad), Word(rows[i].rxGood), Word(rows[i].rxBad))
            else Counters(i + 1, 0, 0, 0, 0)
  {
    hide Laid, Word;
    LaidAt(rows, i);
  }
}
