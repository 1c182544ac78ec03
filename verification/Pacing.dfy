/** `GetSnapshot`: one request per page with pauses in between, each page filling its part of the snapshot. */
module Pacing {
  import opened Wrappers

  const BATCH_SIZE := 6
  const INTER_REQUEST := 200
  const INTER_BATCH := 1500

  // ------------------------------------------------------------- the pages

  datatype Section =
    | SystemInfo | PortSettings | Lag | Igmp | Qos | BandwidthPage | Storm | MirrorPage | LoopPage | Stats

  /** A page that was fetched and parsed; the contents of a section are left uninterpreted. */
  datatype Page = Plain(section: Section, value: nat) | Vlan8021Q(vlans: seq<nat>) | VlanPortBased(vlans: seq<nat>)

  datatype Snapshot = Snapshot(sections: map<Section, nat>, vlans: seq<nat>)

  const BLANK := Snapshot(map[], [])

  /** The closures that write into the shared snapshot; `None` is a page that failed. */
  function Apply(snap: Snapshot, page: Option<Page>): Snapshot {
    match page
    case None => snap
    case Some(Plain(section, value)) => snap.(sections := snap.sections[section := value])
    case Some(Vlan8021Q(vlans)) => if |vlans| > 0 then snap.(vlans := vlans) else snap
    case Some(VlanPortBased(vlans)) => if |snap.vlans| == 0 && |vlans| > 0 then snap.(vlans := vlans) else snap
  }

  function Fold(pages: seq<Option<Page>>): Snapshot {
    if pages == [] then BLANK else Apply(Fold(pages[..|pages| - 1]), pages[|pages| - 1])
  }

  // -------------------------------------------------------------- the loop

  /** The pause behind request `i`, in milliseconds. */
  function Delay(i: nat): nat {
    if (i + 1) % BATCH_SIZE == 0 then INTER_BATCH else INTER_REQUEST
  }

  function Delays(n: nat): (d: seq<nat>)
    ensures |d| == n && forall i :: 0 <= i < n ==> d[i] == Delay(i)
  {
    seq(n, i requires 0 <= i => Delay(i))
  }

  /** Where the context is cancelled, if it is: found at the top of a step, or during the pause behind it. */
  datatype Cancel = Never | AtStep(step: nat) | InPause(step: nat)

  /** `pages[i]` is what step `i` gets if it is reached; `delays` lists the pauses begun. */
  method GetSnapshot(pages: seq<Option<Page>>, cancel: Cancel) returns (snap: Snapshot, delays: seq<nat>, ok: bool)
    ensures !ok <==> (cancel.AtStep? && cancel.step < |pages|) || (cancel.InPause? && cancel.step + 1 < |pages|)
    ensures ok ==> snap == Fold(pages) && delays == Delays(if |pages| == 0 then 0 else |pages| - 1)
    ensures !ok && cancel.AtStep? ==> snap == Fold(pages[..cancel.step]) && delays == Delays(cancel.step)
    ensures !ok && cancel.InPause? ==> snap == Fold(pages[..cancel.step + 1]) && delays == Delays(cancel.step + 1)
  {
    snap, delays, ok := BLANK, [], true;
    for i := 0 to |pages|
      invariant snap == Fold(pages[..i]) && delays == Delays(i)
      invariant i > 0 ==> i < |pages|
      invariant cancel.AtStep? ==> cancel.step >= i
      invariant cancel.InPause? ==> cancel.step >= i
    {
      assert pages[..i + 1][..i] == pages[..i];
      if cancel == AtStep(i) {
        return snap, delays, false;
      }
      match pages[i] {
        case Some(page) => snap := Apply(snap, Some(page));
        case None =>
      }
      if i == |pages| - 1 {
        assert pages[..i + 1] == pages;
        break;
      }
      var delay := INTER_REQUEST;
      if (i + 1) % BATCH_SIZE == 0 {
        delay := INTER_BATCH;
      }
      delays := delays + [delay];
      if cancel == InPause(i) {
        return snap, delays, false;
      }
    }
  }

  // -------------------------------------------------------------- the pacing

  function Sum(d: seq<nat>): nat {
    if d == [] then 0 else Sum(d[..|d| - 1]) + d[|d| - 1]
  }

  /** The total of the first `m` pauses: with `m` one less than the number of pages, of a whole run. */
  lemma {:induction false} TotalDelay(m: nat)
    ensures Sum(Delays(m)) == INTER_REQUEST * m + (INTER_BATCH - INTER_REQUEST) * (m / BATCH_SIZE)
  {
    if m > 0 {
      TotalDelay(m - 1);
      assert Delays(m)[..m - 1] == Delays(m - 1);
      Carry(m);
    }
  }

  lemma Carry(m: nat)
    requires m > 0
    ensures m / BATCH_SIZE == (m - 1) / BATCH_SIZE + if m % BATCH_SIZE == 0 then 1 else 0
  {
  }

  /** Requests `i` to `j` with no long pause between them. */
  ghost predicate Burst(i: nat, j: nat) {
    forall k :: i <= k < j ==> Delay(k) < INTER_BATCH
  }

  /** Any seven consecutive requests have a long pause among them; six can be without one. */
  lemma BurstsAreShort(i: nat, j: nat)
    requires i <= j
    ensures Burst(i, j) ==> j - i + 1 <= BATCH_SIZE
    ensures i % BATCH_SIZE == 0 ==> (Burst(i, j) <==> j - i + 1 <= BATCH_SIZE)
  {
    var k := i + BATCH_SIZE - 1 - i % BATCH_SIZE;
    assert (k + 1) % BATCH_SIZE == 0 by {
      assert k + 1 == (i / BATCH_SIZE + 1) * BATCH_SIZE;
    }
    assert Delay(k) == INTER_BATCH;
    if i % BATCH_SIZE == 0 {
      forall l | i <= l < k ensures Delay(l) < INTER_BATCH {
        assert (l + 1) % BATCH_SIZE == (l + 1 - i) % BATCH_SIZE;
      }
    }
  }

  // ------------------------------------------------------- what the fold keeps

  /** The last page that fills a section decides it; failed pages and other pages leave it alone. */
  function LastValue(pages: seq<Option<Page>>, s: Section): Option<nat> {
    if pages == [] then None
    else
      var p := pages[|pages| - 1];
      if p.Some? && p.value.Plain? && p.value.section == s then Some(p.value.value)
      else LastValue(pages[..|pages| - 1], s)
  }

  lemma {:induction false} FoldSections(pages: seq<Option<Page>>, s: Section)
    ensures s in Fold(pages).sections <==> LastValue(pages, s).Some?
    ensures s in Fold(pages).sections ==> LastValue(pages, s) == Some(Fold(pages).sections[s])
  {
    if pages != [] {
      FoldSections(pages[..|pages| - 1], s);
    }
  }

  /** A page that carries a non-empty table of the given kind. */
  predicate Carries(page: Option<Page>, tagged: bool) {
    && page.Some?
    && (if tagged then page.value.Vlan8021Q? else page.value.VlanPortBased?)
    && |page.value.vlans| > 0
  }

  /**
    * In whatever order the pages come: the table of an 802.1Q page that has one, the last such; only if
    * there is none, the first port-based table; and without either, none.
    */
  lemma {:induction false} FoldVlans(pages: seq<Option<Page>>)
    ensures (exists i :: 0 <= i < |pages| && Carries(pages[i], true)) ==>
              exists i :: 0 <= i < |pages| && Carries(pages[i], true) && Fold(pages).vlans == pages[i].value.vlans
                          && forall j :: i < j < |pages| ==> !Carries(pages[j], true)
    ensures (forall i :: 0 <= i < |pages| ==> !Carries(pages[i], true))
            && (exists i :: 0 <= i < |pages| && Carries(pages[i], false)) ==>
              exists i :: 0 <= i < |pages| && Carries(pages[i], false) && Fold(pages).vlans == pages[i].value.vlans
                          && forall j :: 0 <= j < i ==> !Carries(pages[j], false)
    ensures Fold(pages).vlans == [] <==>
            forall i :: 0 <= i < |pages| ==> !Carries(pages[i], true) && !Carries(pages[i], false)
  {
    if pages != [] {
      var n := |pages| - 1;
      var before, p := pages[..n], pages[n];
      assert forall i :: 0 <= i < n ==> before[i] == pages[i];
      FoldVlans(before);
    }
  }
}
