/**
 * The transaction handler of src/agent.ts. It walks the DAI `Transfer` logs of
 * one transaction in order; the first transfer whose destination is not a
 * monitored escrow ends the whole batch. Each monitored transfer yields an info
 * finding, then the escrow's L1 balance one block below the transaction and the
 * matching L2 supply are read, and an exploit finding follows when the balance
 * is strictly below the supply.
 */
module Agent {
  import opened Wrappers
  import opened Utils
  import DecimalText

  /** The decoded arguments of one DAI `Transfer` log. */
  datatype Transfer = Transfer(from: string, to: string, value: nat)

  datatype FindingSeverity = Unknown | Info | Low | Medium | High | Critical
  datatype FindingType = Unknown | Exploit | Suspicious | Degraded | Info

  datatype Finding = Finding(
    name: string,
    description: string,
    alertId: string,
    severity: FindingSeverity,
    findingType: FindingType,
    metadata: Metadata)

  /** The two metadata shapes the handler emits. */
  datatype Metadata =
    | TransferMetadata(from: string, to: string, escrow: string, value: string)
    | ViolationMetadata(address: string, name: string)
  {
    /** The string-keyed map of the emitted finding. */
    function ToMap(): map<string, string>
    {
      match this
      case TransferMetadata(from, to, escrow, value) =>
        map["from" := from, "to" := to, "escrow" := escrow, "value" := value]
      case ViolationMetadata(address, name) =>
        map["address" := address, "name" := name]
    }
  }

  /**
   * Why the handler's promise rejects: the L2 read is not guarded by a `try`,
   * and an `undefined` L1 balance has no `lt` method.
   */
  datatype Fault = L2ReadThrew | L1BalanceUndefined

  /** The three nodes the handler is built with. */
  datatype Providers = Providers(l1: L1Provider, arb: L2Provider, opt: L2Provider)

  const TRANSFER_NAME: string := "DAI Transfer Event Emission to monitored Escrow"
  const TRANSFER_DESCRIPTION: string := "DAI Transfer Event Emission to "
  const VIOLATION_NAME: string := "DAI total supply exceeds balance"
  const VIOLATION_DESCRIPTION: string := " total supply of DAI exceeds and violates balance at L1 "

  function TransferFinding(address: string, name: string, t: Transfer): Finding
  {
    Finding(
      TRANSFER_NAME,
      TRANSFER_DESCRIPTION + name + " escrow at: " + address,
      name + "-TRANSFER-1",
      FindingSeverity.Info,
      FindingType.Info,
      TransferMetadata(t.from, t.to, name, DecimalText.Render(t.value)))
  }

  function ViolationFinding(address: string, name: string): Finding
  {
    Finding(
      VIOLATION_NAME,
      "L2 " + name + VIOLATION_DESCRIPTION + name + " Escrow, at DAI contract address: " + L2_DAI + "  ",
      name + "-BAL-1",
      FindingSeverity.High,
      FindingType.Exploit,
      ViolationMetadata(address, name))
  }

  /** The transfer finding of a transfer, with the resolver's address and name. */
  function Announcement(t: Transfer): Finding
  {
    var (address, name) := CheckToAddress(t.to);
    TransferFinding(address, name, t)
  }

  /** The `value` metadata is the exact decimal rendering of the amount. */
  lemma AnnouncedValueIsExact(t: Transfer)
    ensures Announcement(t).metadata.TransferMetadata?
    ensures DecimalText.AllDigits(Announcement(t).metadata.value)
    ensures DecimalText.Parse(Announcement(t).metadata.value) == t.value
  {
    DecimalText.ParseRender(t.value);
  }

  /** The emitted maps: a transfer finding's keys and values, a violation finding's keys. */
  lemma MetadataMaps(t: Transfer, u: Transfer)
    ensures Announcement(t).metadata.ToMap().Keys == {"from", "to", "escrow", "value"}
    ensures Announcement(t).metadata.ToMap()["from"] == t.from
    ensures Announcement(t).metadata.ToMap()["to"] == t.to
    ensures Announcement(t).metadata.ToMap()["escrow"] == CheckToAddress(t.to).1
    ensures Announcement(t).metadata.ToMap()["value"] == DecimalText.Render(t.value)
    ensures ViolationFinding(u.to, CheckToAddress(u.to).1).metadata.ToMap().Keys == {"address", "name"}
    ensures ViolationFinding(u.to, CheckToAddress(u.to).1).metadata.ToMap()["name"] == CheckToAddress(u.to).1
  {
  }

  /** Alert ids tell the networks, and transfers from violations, apart. */
  lemma AlertIdsDistinct(t: Transfer, u: Transfer)
    requires IsMonitored(t.to) && IsMonitored(u.to)
    ensures Announcement(t).alertId == Announcement(u).alertId <==> t.to == u.to
    ensures Announcement(t).alertId != ViolationFinding(u.to, CheckToAddress(u.to).1).alertId
  {
    NetworksDistinct();
    var a := Announcement(t).alertId;
    var b := Announcement(u).alertId;
    if t.to != u.to {
      assert a[0] != b[0];
    }
    var v := ViolationFinding(u.to, CheckToAddress(u.to).1).alertId;
    assert |a| != |v|;
  }

  /**
   * One monitored transfer: its info finding, then the violation check. The L1
   * balance is read for the transfer's own escrow at `blockNumber - 1`; the L2
   * supply from the Arbitrum node exactly when the transfer goes to the
   * Arbitrum escrow. A violation is reported iff the balance is strictly below
   * the supply.
   */
  function HandleTransfer(t: Transfer, i: nat, blockNumber: int, p: Providers): (r: Result<seq<Finding>, Fault>)
    requires IsMonitored(t.to)
    ensures
      var name := CheckToAddress(t.to).1;
      var l1 := p.l1.balanceOf(t.to, blockNumber - 1);
      var l2 := CheckL2DaiBalance(if t.to == L1_ARBITRUM_ESCROW then p.arb else p.opt, i);
      && (r == Failure(L2ReadThrew) <==> l2.Threw?)
      && (r == Failure(L1BalanceUndefined) <==> l2.Returned? && l1.Threw?)
      && (r.Success? ==>
            && |r.value| == (if l1.value < l2.value then 2 else 1)
            && r.value[0] == TransferFinding(t.to, name, t)
            && (|r.value| == 2 ==> r.value[1] == ViolationFinding(t.to, name)))
  {
    var (address, name) := CheckToAddress(t.to);
    var l1balance := CheckEscrowBalance(address, p.l1, blockNumber - 1);
    var l2Provider := if name == ArbObject.name then p.arb else p.opt;
    var l2Balance := CheckL2DaiBalance(l2Provider, i);
    if l2Balance.Threw? then Failure(L2ReadThrew)
    else if l1balance.None? then Failure(L1BalanceUndefined)
    else
      Success([TransferFinding(address, name, t)]
        + if l1balance.value < l2Balance.value then [ViolationFinding(address, name)] else [])
  }

  function Prepend(fs: seq<Finding>, r: Result<seq<Finding>, Fault>): Result<seq<Finding>, Fault>
  {
    match r
    case Success(rest) => Success(fs + rest)
    case Failure(e) => Failure(e)
  }

  lemma PrependNothing(r: Result<seq<Finding>, Fault>)
    ensures Prepend([], r) == r
  {
    if r.Success? {
      assert [] + r.value == r.value;
    }
  }

  lemma PrependAssoc(fs: seq<Finding>, gs: seq<Finding>, r: Result<seq<Finding>, Fault>)
    ensures Prepend(fs, Prepend(gs, r)) == Prepend(fs + gs, r)
  {
    if r.Success? {
      assert fs + (gs + r.value) == (fs + gs) + r.value;
    }
  }

  /** The findings of the transfers from position `i` on. */
  function Process(ts: seq<Transfer>, i: nat, blockNumber: int, p: Providers): Result<seq<Finding>, Fault>
    requires i <= |ts|
    decreases |ts| - i
  {
    if i == |ts| || !IsMonitored(ts[i].to) then Success([])
    else
      match HandleTransfer(ts[i], i, blockNumber, p)
      case Failure(e) => Failure(e)
      case Success(fs) => Prepend(fs, Process(ts, i + 1, blockNumber, p))
  }

  /** What the handler returns for a batch, or why it rejects. */
  function Handle(ts: seq<Transfer>, blockNumber: int, p: Providers): Result<seq<Finding>, Fault>
  {
    Process(ts, 0, blockNumber, p)
  }

  /**
   * `provideHandleTransaction(l1, arb, opt)(txEvent)`, as the code runs it:
   * a loop that pushes findings and returns early at the first unmonitored
   * destination.
   */
  method HandleTransaction(transfers: seq<Transfer>, blockNumber: nat, p: Providers)
    returns (r: Result<seq<Finding>, Fault>)
    ensures r == Handle(transfers, blockNumber, p)
    ensures transfers == [] ==> r == Success([])
  {
    var findings: seq<Finding> := [];
    var i := 0;
    PrependNothing(Handle(transfers, blockNumber, p));
    while i < |transfers|
      invariant 0 <= i <= |transfers|
      invariant Handle(transfers, blockNumber, p) == Prepend(findings, Process(transfers, i, blockNumber, p))
    {
      var t := transfers[i];
      if t.to != ArbObject.escrow && t.to != OptObject.escrow {
        assert findings + [] == findings;
        return Success(findings);
      }
      ghost var before := findings;
      var (address, name) := CheckToAddress(t.to);
      findings := findings + [TransferFinding(address, name, t)];
      var l1balance := CheckEscrowBalance(address, p.l1, blockNumber - 1);
      var l2Provider := if name == ArbObject.name then p.arb else p.opt;
      var l2Balance := CheckL2DaiBalance(l2Provider, i);
      ghost var step := HandleTransfer(t, i, blockNumber, p);
      assert Process(transfers, i, blockNumber, p) ==
        match step
        case Failure(e) => Failure(e)
        case Success(fs) => Prepend(fs, Process(transfers, i + 1, blockNumber, p));
      if l2Balance.Threw? {
        assert step == Failure(L2ReadThrew);
        return Failure(L2ReadThrew);
      }
      if l1balance.None? {
        assert step == Failure(L1BalanceUndefined);
        return Failure(L1BalanceUndefined);
      }
      ghost var group := [TransferFinding(address, name, t)];
      if l1balance.value < l2Balance.value {
        findings := findings + [ViolationFinding(address, name)];
        group := group + [ViolationFinding(address, name)];
      }
      assert findings == before + group;
      assert address == t.to && name == CheckToAddress(t.to).1;
      assert step.Success? && |step.value| == |group|;
      assert step.value == group;
      PrependAssoc(before, group, Process(transfers, i + 1, blockNumber, p));
      i := i + 1;
    }
    assert findings + [] == findings;
    return Success(findings);
  }

  /** How many transfers from position `i` on are handled before the batch stops. */
  function LeadingMonitored(ts: seq<Transfer>, i: nat): (n: nat)
    requires i <= |ts|
    ensures i + n <= |ts|
    ensures forall j :: i <= j < i + n ==> IsMonitored(ts[j].to)
    ensures i + n < |ts| ==> !IsMonitored(ts[i + n].to)
    decreases |ts| - i
  {
    if i == |ts| || !IsMonitored(ts[i].to) then 0 else 1 + LeadingMonitored(ts, i + 1)
  }

  lemma {:induction false} ProcessStopsAt(ts: seq<Transfer>, k: nat, i: nat, blockNumber: int, p: Providers)
    requires i <= k < |ts| && !IsMonitored(ts[k].to)
    ensures Process(ts, i, blockNumber, p) == Process(ts[..k], i, blockNumber, p)
    decreases k - i
  {
    if i < k {
      assert ts[..k][i] == ts[i];
      if IsMonitored(ts[i].to) {
        ProcessStopsAt(ts, k, i + 1, blockNumber, p);
      }
    }
  }

  /**
   * At a transfer to an unmonitored address the handler returns what it has
   * gathered: the result is that of the batch cut just before that transfer.
   */
  lemma StopsAtUnmonitored(ts: seq<Transfer>, k: nat, blockNumber: int, p: Providers)
    requires k < |ts| && !IsMonitored(ts[k].to)
    ensures Handle(ts, blockNumber, p) == Handle(ts[..k], blockNumber, p)
  {
    ProcessStopsAt(ts, k, 0, blockNumber, p);
  }

  /** No transfer after an unmonitored one is examined: two batches that agree up to it agree. */
  lemma LaterTransfersNotExamined(ts: seq<Transfer>, us: seq<Transfer>, k: nat, blockNumber: int, p: Providers)
    requires k < |ts| && k < |us| && ts[..k + 1] == us[..k + 1]
    requires !IsMonitored(ts[k].to)
    ensures Handle(ts, blockNumber, p) == Handle(us, blockNumber, p)
  {
    assert ts[k] == ts[..k + 1][k] == us[k];
    assert ts[..k] == ts[..k + 1][..k] == us[..k];
    StopsAtUnmonitored(ts, k, blockNumber, p);
    StopsAtUnmonitored(us, k, blockNumber, p);
  }

  /** A successful run from a monitored transfer: that transfer's findings, then the rest. */
  lemma ProcessStep(ts: seq<Transfer>, i: nat, blockNumber: int, p: Providers)
    requires i < |ts| && IsMonitored(ts[i].to) && Process(ts, i, blockNumber, p).Success?
    ensures HandleTransfer(ts[i], i, blockNumber, p).Success?
    ensures Process(ts, i + 1, blockNumber, p).Success?
    ensures Process(ts, i, blockNumber, p).value
      == HandleTransfer(ts[i], i, blockNumber, p).value + Process(ts, i + 1, blockNumber, p).value
  {
  }

  /** The info findings of a list of findings, in order. */
  function TransferAlerts(fs: seq<Finding>): seq<Finding>
  {
    if fs == [] then []
    else (if fs[0].findingType == FindingType.Info then [fs[0]] else []) + TransferAlerts(fs[1..])
  }

  lemma {:induction false} TransferAlertsConcat(a: seq<Finding>, b: seq<Finding>)
    ensures TransferAlerts(a + b) == TransferAlerts(a) + TransferAlerts(b)
  {
    if a == [] {
      assert a + b == b;
    } else {
      var head := if a[0].findingType == FindingType.Info then [a[0]] else [];
      assert (a + b)[0] == a[0];
      assert (a + b)[1..] == a[1..] + b;
      assert TransferAlerts(a) == head + TransferAlerts(a[1..]);
      TransferAlertsConcat(a[1..], b);
      assert TransferAlerts(a + b) == head + (TransferAlerts(a[1..]) + TransferAlerts(b));
    }
  }

  /** The transfer findings of the `n` transfers from position `i`, in order. */
  function Announcements(ts: seq<Transfer>, i: nat, n: nat): (r: seq<Finding>)
    requires i + n <= |ts|
    ensures |r| == n
    decreases n
  {
    if n == 0 then [] else [Announcement(ts[i])] + Announcements(ts, i + 1, n - 1)
  }

  /** A transfer finding directly followed by the violation finding of the same escrow. */
  predicate Precedes(transfer: Finding, violation: Finding)
  {
    && transfer.findingType == FindingType.Info
    && transfer.metadata.TransferMetadata? && violation.metadata.ViolationMetadata?
    && transfer.metadata.to == violation.metadata.address
    && transfer.metadata.escrow == violation.metadata.name
  }

  /** The shape of one successful transfer step. */
  lemma HandledShape(t: Transfer, i: nat, blockNumber: int, p: Providers)
    requires IsMonitored(t.to) && HandleTransfer(t, i, blockNumber, p).Success?
    ensures var g := HandleTransfer(t, i, blockNumber, p).value;
      && (|g| == 1 || |g| == 2)
      && g[0] == Announcement(t)
      && g[0].findingType == FindingType.Info
      && TransferAlerts(g) == [Announcement(t)]
      && (|g| == 2 ==> g[1].findingType == FindingType.Exploit && Precedes(g[0], g[1]))
  {
    var g := HandleTransfer(t, i, blockNumber, p).value;
    assert g[0] == Announcement(t);
    if |g| == 2 {
      assert g[1..] == [g[1]];
      assert [g[1]][1..] == [];
      assert TransferAlerts([g[1]]) == [];
    } else {
      assert g[1..] == [];
    }
  }

  /**
   * The info findings of a successful run are, in order, one per handled
   * transfer, each with its network's alert id, severity, type and metadata.
   */
  lemma {:induction false} TransferAlertsInEventOrder(ts: seq<Transfer>, i: nat, blockNumber: int, p: Providers, fs: seq<Finding>)
    requires i <= |ts| && Process(ts, i, blockNumber, p) == Success(fs)
    ensures TransferAlerts(fs) == Announcements(ts, i, LeadingMonitored(ts, i))
    decreases |ts| - i
  {
    if i < |ts| && IsMonitored(ts[i].to) {
      var g := HandleTransfer(ts[i], i, blockNumber, p).value;
      var rest := Process(ts, i + 1, blockNumber, p).value;
      ProcessStep(ts, i, blockNumber, p);
      HandledShape(ts[i], i, blockNumber, p);
      TransferAlertsConcat(g, rest);
      TransferAlertsInEventOrder(ts, i + 1, blockNumber, p, rest);
    }
  }

  /** Each handled transfer yields one or two findings. */
  lemma {:induction false} FindingCountBounds(ts: seq<Transfer>, i: nat, blockNumber: int, p: Providers, fs: seq<Finding>)
    requires i <= |ts| && Process(ts, i, blockNumber, p) == Success(fs)
    ensures LeadingMonitored(ts, i) <= |fs| <= 2 * LeadingMonitored(ts, i)
    decreases |ts| - i
  {
    if i < |ts| && IsMonitored(ts[i].to) {
      var g := HandleTransfer(ts[i], i, blockNumber, p).value;
      var rest := Process(ts, i + 1, blockNumber, p).value;
      ProcessStep(ts, i, blockNumber, p);
      HandledShape(ts[i], i, blockNumber, p);
      FindingCountBounds(ts, i + 1, blockNumber, p, rest);
    }
  }

  /** Every violation finding comes directly after the transfer finding of its own escrow. */
  lemma {:induction false} ViolationFollowsItsTransfer(ts: seq<Transfer>, i: nat, blockNumber: int, p: Providers, fs: seq<Finding>)
    requires i <= |ts| && Process(ts, i, blockNumber, p) == Success(fs)
    ensures forall j :: 0 <= j < |fs| && fs[j].findingType == FindingType.Exploit ==>
      0 < j && Precedes(fs[j - 1], fs[j])
    decreases |ts| - i
  {
    if i < |ts| && IsMonitored(ts[i].to) {
      var g := HandleTransfer(ts[i], i, blockNumber, p).value;
      var rest := Process(ts, i + 1, blockNumber, p).value;
      ProcessStep(ts, i, blockNumber, p);
      HandledShape(ts[i], i, blockNumber, p);
      ViolationFollowsItsTransfer(ts, i + 1, blockNumber, p, rest);
      forall j | 0 <= j < |fs| && fs[j].findingType == FindingType.Exploit
        ensures 0 < j && Precedes(fs[j - 1], fs[j])
      {
        if j >= |g| {
          assert fs[j] == rest[j - |g|];
          if j - |g| > 0 {
            assert fs[j - 1] == rest[j - |g| - 1];
          }
        }
      }
    }
  }

  /** The handler rejects iff one of the handled transfers faults. */
  lemma {:induction false} FaultIff(ts: seq<Transfer>, i: nat, blockNumber: int, p: Providers)
    requires i <= |ts|
    ensures Process(ts, i, blockNumber, p).Failure? <==>
      exists j :: i <= j < i + LeadingMonitored(ts, i) && IsMonitored(ts[j].to)
        && HandleTransfer(ts[j], j, blockNumber, p).Failure?
    decreases |ts| - i
  {
    var n := LeadingMonitored(ts, i);
    if i < |ts| && IsMonitored(ts[i].to) {
      assert n == 1 + LeadingMonitored(ts, i + 1);
      FaultIff(ts, i + 1, blockNumber, p);
      var step := HandleTransfer(ts[i], i, blockNumber, p);
      if step.Failure? {
        assert Process(ts, i, blockNumber, p).Failure?;
        assert i < i + n && IsMonitored(ts[i].to) && step.Failure?;
      } else {
        assert Process(ts, i, blockNumber, p) == Prepend(step.value, Process(ts, i + 1, blockNumber, p));
      }
    } else {
      assert n == 0;
    }
  }

  /**
   * Two transfers, to the Optimism and then the Arbitrum escrow, both of
   * whose escrows are short of their L2 supply: four findings, in event order.
   */
  lemma TwoViolatingEscrows(a: Transfer, b: Transfer, blockNumber: int, p: Providers)
    requires a.to == L1_OPTIMISM_ESCROW && b.to == L1_ARBITRUM_ESCROW
    requires p.l1.balanceOf(a.to, blockNumber - 1).Returned? && CheckL2DaiBalance(p.opt, 0).Returned?
    requires p.l1.balanceOf(b.to, blockNumber - 1).Returned? && CheckL2DaiBalance(p.arb, 1).Returned?
    requires p.l1.balanceOf(a.to, blockNumber - 1).value < CheckL2DaiBalance(p.opt, 0).value
    requires p.l1.balanceOf(b.to, blockNumber - 1).value < CheckL2DaiBalance(p.arb, 1).value
    ensures Handle([a, b], blockNumber, p) == Success([
      TransferFinding(a.to, OPT, a), ViolationFinding(a.to, OPT),
      TransferFinding(b.to, ARB, b), ViolationFinding(b.to, ARB)])
  {
    NetworksDistinct();
    var ts := [a, b];
    assert ts[0] == a && ts[1] == b && |ts| == 2;
    var ga := HandleTransfer(a, 0, blockNumber, p).value;
    var gb := HandleTransfer(b, 1, blockNumber, p).value;
    assert ga == [TransferFinding(a.to, OPT, a), ViolationFinding(a.to, OPT)];
    assert gb == [TransferFinding(b.to, ARB, b), ViolationFinding(b.to, ARB)];
    assert Process(ts, 2, blockNumber, p) == Success([]);
    assert gb + [] == gb;
    assert HandleTransfer(b, 1, blockNumber, p) == Success(gb);
    assert Process(ts, 1, blockNumber, p) == Success(gb);
    assert HandleTransfer(a, 0, blockNumber, p) == Success(ga);
    assert Process(ts, 0, blockNumber, p) == Success(ga + gb);
    assert ga + gb == [TransferFinding(a.to, OPT, a), ViolationFinding(a.to, OPT),
      TransferFinding(b.to, ARB, b), ViolationFinding(b.to, ARB)];
  }

  /** Equal balance and supply is safe: a lone transfer finding. */
  lemma EqualBalanceIsSafe(t: Transfer, blockNumber: int, p: Providers)
    requires IsMonitored(t.to)
    requires p.l1.balanceOf(t.to, blockNumber - 1).Returned?
    requires CheckL2DaiBalance(if t.to == L1_ARBITRUM_ESCROW then p.arb else p.opt, 0)
      == Returned(p.l1.balanceOf(t.to, blockNumber - 1).value)
    ensures Handle([t], blockNumber, p) == Success([Announcement(t)])
  {
    var g := HandleTransfer(t, 0, blockNumber, p).value;
    HandledShape(t, 0, blockNumber, p);
    assert g == [Announcement(t)];
    assert Process([t], 1, blockNumber, p) == Success([]);
    assert g + [] == g;
  }
}
