/**
 * The state of the batch-distribution form, the events that change it, and
 * the contract calls its two buttons build from it.
 */
module BatchForm {
  import opened Wrappers
  import opened BatchParse

  /** The batch-transfer contract every distribution goes through. */
  const BatchTransferAddress: string := "0x110769E12155d2d1875D42dcf66D7D92acA1E207"

  /** Decimals assumed until the token contract reports its own. */
  const DefaultDecimals: nat := 18

  /** The three reads of the token contract (`symbol`, `decimals`, `allowance`); a missing result is `None`. */
  datatype TokenReads = TokenReads(symbol: Option<string>, decimals: Option<nat>, allowance: Option<nat>)

  /** The component's state variables that the core logic reads or writes. */
  datatype Form = Form(
    transferType: TransferType,
    tokenAddress: string,
    tokenReads: TokenReads,
    inputText: string,
    parsed: seq<Entry>,
    errorMsg: string,
    singleMode: bool,
    globalAmount: string)

  /** `tokenDecimals`: the token's reported decimals, else 18. */
  function Decimals(f: Form): (d: nat)
    ensures f.tokenReads.decimals == None ==> d == DefaultDecimals
    ensures f.tokenReads.decimals.Some? ==> d == f.tokenReads.decimals.value
  {
    f.tokenReads.decimals.GetOr(DefaultDecimals)
  }

  /** `currentAllowance`: the reported (uint256) allowance of the batch contract, else 0. */
  function Allowance(f: Form): (a: nat)
    ensures f.tokenReads.allowance == None ==> a == 0
    ensures f.tokenReads.allowance.Some? ==> a == f.tokenReads.allowance.value
  {
    f.tokenReads.allowance.GetOr(0)
  }

  /** The form as first rendered: ETH, list mode, everything empty, nothing read yet. */
  const Initial: Form := Form(Eth, "", TokenReads(None, None, None), "", [], "", false, "")

  /** User actions, plus `ReadsChanged` for a new result of the token-contract reads. */
  datatype Event =
    | SelectType(newType: TransferType)
    | EditTokenAddress(address: string)
    | ReadsChanged(newReads: TokenReads)
    | SelectMode(single: bool)
    | EditGlobalAmount(amount: string)
    | EditText(text: string)
    | Validate

  /** The state setters an event's handler calls, before any effect runs. */
  function Handle(f: Form, ev: Event, v: Viem): Form {
    match ev
    case SelectType(t) => f.(transferType := t)
    case EditTokenAddress(a) => f.(tokenAddress := a)
    case ReadsChanged(r) => f.(tokenReads := r)
    case SelectMode(single) => f.(singleMode := single, parsed := [], errorMsg := "")
    case EditGlobalAmount(g) => f.(globalAmount := g)
    case EditText(t) => f.(inputText := t, parsed := [])
    case Validate =>
      match Parse(f.inputText, f.singleMode, f.transferType, f.tokenAddress, Decimals(f), f.globalAmount, v)
      case Failure(e) => f.(errorMsg := Message(e))
      case Success(es) => f.(errorMsg := "", parsed := es)
  }

  /**
   * One event: its handler, then the effect that empties the parsed list
   * whenever the decimals or the transfer type differ from before. Each event
   * changes only the fields named in its clause; "Validate List" changes at
   * most the list and the error message (see `ValidateOutcome`).
   */
  function Step(f: Form, ev: Event, v: Viem): (g: Form)
    ensures ev.SelectType? ==>
              g == f.(transferType := ev.newType, parsed := if ev.newType == f.transferType then f.parsed else [])
    ensures ev.EditTokenAddress? ==> g == f.(tokenAddress := ev.address)
    ensures ev.ReadsChanged? ==>
              g == f.(tokenReads := ev.newReads,
                      parsed := if ev.newReads.decimals.GetOr(DefaultDecimals) == Decimals(f) then f.parsed else [])
    ensures ev.SelectMode? ==> g == f.(singleMode := ev.single, parsed := [], errorMsg := [])
    ensures ev.EditGlobalAmount? ==> g == f.(globalAmount := ev.amount)
    ensures ev.EditText? ==> g == f.(inputText := ev.text, parsed := [])
    ensures ev.Validate? ==> g.(parsed := f.parsed, errorMsg := f.errorMsg) == f
    ensures g.transferType != f.transferType || Decimals(g) != Decimals(f) ==> g.parsed == []
  {
    var h := Handle(f, ev, v);
    if Decimals(h) != Decimals(f) || h.transferType != f.transferType then h.(parsed := []) else h
  }

  /**
   * "Validate List": a successful parse replaces the list and clears the error;
   * a failed one sets its message and leaves the list as it was.
   */
  lemma ValidateOutcome(f: Form, v: Viem)
    ensures var g := Step(f, Validate, v);
            match Parse(f.inputText, f.singleMode, f.transferType, f.tokenAddress, Decimals(f), f.globalAmount, v)
            case Failure(e) => g.parsed == f.parsed && g.errorMsg == Message(e)
            case Success(es) => g.parsed == es && g.errorMsg == []
  {
  }

  /** The events of `evs` applied in order. */
  function Run(f: Form, evs: seq<Event>, v: Viem): Form
    decreases |evs|
  {
    if evs == [] then f else Run(Step(f, evs[0], v), evs[1..], v)
  }

  /** Every committed entry is a valid address whose base-unit amount matches the current decimals. */
  predicate Consistent(f: Form, v: Viem) {
    forall k :: 0 <= k < |f.parsed| ==> UnitConsistent(f.parsed[k], Decimals(f), v)
  }

  /** One event never leaves an entry computed under other decimals. */
  lemma StepKeepsConsistent(f: Form, ev: Event, v: Viem)
    requires Consistent(f, v)
    ensures Consistent(Step(f, ev, v), v)
  {
    var g := Step(f, ev, v);
    if g.parsed == [] {
    } else if ev.Validate? {
      ValidateOutcome(f, v);
      var p := Parse(f.inputText, f.singleMode, f.transferType, f.tokenAddress, Decimals(f), f.globalAmount, v);
      if p.Success? {
        assert g.parsed == p.value;
      } else {
        assert g.parsed == f.parsed;
      }
    } else {
      assert g.parsed == f.parsed && Decimals(g) == Decimals(f);
    }
  }

  /** From the first render on, whatever the events, the parsed list is unit-consistent. */
  lemma {:induction false} RunKeepsConsistent(f: Form, evs: seq<Event>, v: Viem)
    requires Consistent(f, v)
    ensures Consistent(Run(f, evs, v), v)
    decreases |evs|
  {
    if evs != [] {
      StepKeepsConsistent(f, evs[0], v);
      RunKeepsConsistent(Step(f, evs[0], v), evs[1..], v);
    }
  }

  lemma InitialConsistent(v: Viem)
    ensures Decimals(Initial) == 18 && Allowance(Initial) == 0
    ensures Consistent(Initial, v)
  {
  }

  // ---------------------------------------------------------------- total and approval gate

  /**
   * `totalValueWei`: the unbounded sum of the entries' base-unit amounts. viem's
   * `parseUnits` accepts a leading minus sign, so amounts, and the total, can be negative.
   */
  function Total(es: seq<Entry>): (t: int)
    ensures (forall k :: 0 <= k < |es| ==> es[k].amountWei >= 0) ==> t >= 0
  {
    if es == [] then 0 else Total(es[..|es| - 1]) + es[|es| - 1].amountWei
  }

  /** Sum of a sequence of integers. */
  function Sum(xs: seq<int>): int
  {
    if xs == [] then 0 else xs[0] + Sum(xs[1..])
  }

  /** The total splits over concatenation. */
  lemma {:induction false} TotalAppend(a: seq<Entry>, b: seq<Entry>)
    ensures Total(a + b) == Total(a) + Total(b)
    decreases |b|
  {
    if b == [] {
      assert a + b == a;
    } else {
      assert (a + b)[..|a + b| - 1] == a + b[..|b| - 1];
      assert (a + b)[|a + b| - 1] == b[|b| - 1];
      TotalAppend(a, b[..|b| - 1]);
    }
  }

  /** The left-to-right `reduce` equals the plain sum of the amounts, in any grouping. */
  lemma {:induction false} TotalIsSum(es: seq<Entry>)
    ensures Total(es) == Sum(Amounts(es))
  {
    if es != [] {
      assert es == [es[0]] + es[1..];
      TotalAppend([es[0]], es[1..]);
      assert Total([es[0]]) == es[0].amountWei by {
        assert [es[0]][..0] == [];
      }
      assert Amounts(es)[1..] == Amounts(es[1..]);
      TotalIsSum(es[1..]);
    }
  }

  /** In single mode every entry carries the same amount, so the total is count times that amount. */
  lemma {:induction false} TotalOfUniform(es: seq<Entry>, w: int)
    requires forall k :: 0 <= k < |es| ==> es[k].amountWei == w
    ensures Total(es) == |es| * w
  {
    if es != [] {
      TotalOfUniform(es[..|es| - 1], w);
    }
  }

  /**
   * `needsApproval`: an ERC20 distribution whose total exceeds the known allowance.
   * The allowance is never negative, so approval is only ever asked for a positive total.
   */
  function NeedsApproval(f: Form): (b: bool)
    ensures b ==> f.transferType == Erc20 && Total(f.parsed) > 0
    ensures f.transferType == Erc20 && Total(f.parsed) > 0 && f.tokenReads.allowance.None? ==> b
  {
    f.transferType == Erc20 && Allowance(f) < Total(f.parsed)
  }

  /**
   * The approval gate is a strict comparison: an allowance equal to the total is
   * enough, one below it is not, and a native-asset distribution never needs one.
   */
  lemma ApprovalGate(f: Form)
    ensures f.transferType == Eth ==> !NeedsApproval(f)
    ensures f.transferType == Erc20 && Allowance(f) == Total(f.parsed) ==> !NeedsApproval(f)
    ensures f.transferType == Erc20 && Allowance(f) == Total(f.parsed) - 1 ==> NeedsApproval(f)
  {
  }

  // ---------------------------------------------------------------- contract calls

  /** The contract functions the form calls. */
  datatype CallMethod =
    | Approve(spender: string, amount: int)
    | DistributeEth(receivers: seq<string>, amounts: seq<int>)
    | DistributeErc20(token: string, receivers: seq<string>, amounts: seq<int>)

  /** A `writeContract` request: target contract, function with arguments, attached native value. */
  datatype Call = Call(target: string, invocation: CallMethod, value: Option<int>)

  function Receivers(es: seq<Entry>): (r: seq<string>)
    ensures |r| == |es| && forall k :: 0 <= k < |es| ==> r[k] == es[k].address
  {
    seq(|es|, k requires 0 <= k < |es| => es[k].address)
  }

  function Amounts(es: seq<Entry>): (r: seq<int>)
    ensures |r| == |es| && forall k :: 0 <= k < |es| ==> r[k] == es[k].amountWei
  {
    seq(|es|, k requires 0 <= k < |es| => es[k].amountWei)
  }

  /** `handleApprove`: nothing for an invalid token address, else `approve(batch contract, total)`. */
  function ApproveCall(f: Form, v: Viem): (r: Option<Call>)
    ensures r.Some? <==> v.isAddress(f.tokenAddress)
    ensures r.Some? ==> r.value.target == f.tokenAddress && r.value.value == None
    ensures r.Some? ==> r.value.invocation == Approve(BatchTransferAddress, Total(f.parsed))
  {
    if !v.isAddress(f.tokenAddress) then None
    else Some(Call(f.tokenAddress, Approve(BatchTransferAddress, Total(f.parsed)), None))
  }

  /**
   * Approving the requested amount is exactly enough: once the allowance reads
   * back as that amount the gate opens, and any smaller amount would keep it shut.
   */
  lemma ApproveIsExact(f: Form, v: Viem, smaller: nat)
    requires f.transferType == Erc20 && ApproveCall(f, v).Some?
    requires smaller < ApproveCall(f, v).value.invocation.amount
    ensures var granted := ApproveCall(f, v).value.invocation.amount;
            !NeedsApproval(f.(tokenReads := f.tokenReads.(allowance := Some(granted))))
    ensures NeedsApproval(f.(tokenReads := f.tokenReads.(allowance := Some(smaller))))
  {
  }

  /**
   * `handleSendBatch`: receivers and amounts in parsed order; ETH goes to
   * `distributeETH` with the total attached, a token to `distributeERC20` with no value.
   */
  function SendCall(f: Form): (r: Call)
    ensures r.target == BatchTransferAddress
    ensures f.transferType == Eth ==> r.invocation.DistributeEth? && r.value == Some(Total(f.parsed))
    ensures f.transferType == Erc20 ==> r.invocation.DistributeErc20? && r.invocation.token == f.tokenAddress && r.value == None
    ensures |r.invocation.receivers| == |r.invocation.amounts| == |f.parsed|
    ensures forall k :: 0 <= k < |f.parsed| ==>
              r.invocation.receivers[k] == f.parsed[k].address && r.invocation.amounts[k] == f.parsed[k].amountWei
  {
    var receivers := Receivers(f.parsed);
    var amounts := Amounts(f.parsed);
    match f.transferType
    case Eth => Call(BatchTransferAddress, DistributeEth(receivers, amounts), Some(Total(f.parsed)))
    case Erc20 => Call(BatchTransferAddress, DistributeErc20(f.tokenAddress, receivers, amounts), None)
  }

  /** The native value attached to `distributeETH` is exactly the sum of the amounts it distributes. */
  lemma SendEthValueIsSum(f: Form)
    requires f.transferType == Eth
    ensures SendCall(f).value == Some(Sum(SendCall(f).invocation.amounts))
  {
    TotalIsSum(f.parsed);
    assert SendCall(f).invocation.amounts == Amounts(f.parsed);
  }

  // ---------------------------------------------------------------- what the form offers

  /** The action area: hidden, the approve button, or the send button, each enabled or not. */
  datatype Offer = Hidden | ApproveButton(enabled: bool) | SendButton(enabled: bool)

  /** The list is shown when it is non-empty and no error message is set. */
  predicate ListShown(f: Form) {
    |f.parsed| > 0 && f.errorMsg == []
  }

  /** The button the form renders; `busy` is a pending wallet request or an unconfirmed transaction. */
  function Offered(f: Form, connected: bool, busy: bool): (o: Offer)
    ensures o.Hidden? <==> !ListShown(f)
    ensures o.SendButton? ==> !NeedsApproval(f)
    ensures o.ApproveButton? ==> f.transferType == Erc20 && Allowance(f) < Total(f.parsed)
    ensures !o.Hidden? ==> (o.enabled <==> connected && !busy)
  {
    if !ListShown(f) then Hidden
    else if NeedsApproval(f) then ApproveButton(connected && !busy)
    else SendButton(connected && !busy)
  }

  /**
   * A failed validation keeps the previously committed list but hides it
   * behind the error message, so nothing can be sent from it.
   */
  lemma FailedValidateHidesList(f: Form, v: Viem, connected: bool, busy: bool)
    ensures Parse(f.inputText, f.singleMode, f.transferType, f.tokenAddress, Decimals(f), f.globalAmount, v).Failure? ==>
              Step(f, Validate, v).parsed == f.parsed && Offered(Step(f, Validate, v), connected, busy) == Hidden
  {
    ValidateOutcome(f, v);
  }

  /** After the decimals change, nothing is offered until the text is validated again. */
  lemma DecimalsChangeHidesList(f: Form, r: TokenReads, v: Viem, connected: bool, busy: bool)
    requires r.decimals.GetOr(DefaultDecimals) != Decimals(f)
    ensures Step(f, ReadsChanged(r), v).parsed == []
    ensures Offered(Step(f, ReadsChanged(r), v), connected, busy) == Hidden
  {
  }
}
