/**
 * `parseInput` of the batch-distribution form: pasted text becomes an ordered
 * list of (address, amount string, amount in base units), all or nothing.
 */
module BatchParse {
  import opened Wrappers
  import opened JsText

  /**
   * viem's `isAddress` and `parseUnits`, whose bodies are not part of this model.
   * `parseUnits(s, decimals)` is `None` where the library call throws.
   */
  datatype Viem = Viem(isAddress: string -> bool, parseUnits: (string, nat) -> Option<int>)

  /** `'ETH' | 'ERC20'`: the native asset or a fungible token. */
  datatype TransferType = Eth | Erc20

  /** One recipient; `amountWei` is in the asset's base units. */
  datatype Entry = Entry(address: string, amountStr: string, amountWei: int)

  /** The reasons `parseInput` stops, one per error message it sets. */
  datatype ParseError =
    | TokenAddressInvalid
    | GlobalAmountInvalid
    | InvalidAddress(address: string)
    | InvalidAmount(address: string, amountStr: string)
    | NoValidEntries(singleMode: bool)

  /** The text shown in the form's error banner. */
  function Message(e: ParseError): (m: string)
    ensures m != []
  {
    match e
    case TokenAddressInvalid => "Please enter a valid ERC20 token address first."
    case GlobalAmountInvalid => "Please enter a valid global amount"
    case InvalidAddress(a) => "Invalid address found: " + a
    case InvalidAmount(a, s) => "Invalid amount format for address " + a + ": " + s
    case NoValidEntries(single) =>
      if single then "No valid addresses could be parsed."
      else "No valid entries could be parsed. Format should be: 0xAddress Amount"
  }

  /** An entry whose address passed validation and whose amount is its base-unit value at `decimals`. */
  predicate UnitConsistent(e: Entry, decimals: nat, v: Viem) {
    v.isAddress(e.address) && v.parseUnits(e.amountStr, decimals) == Some(e.amountWei)
  }

  /** What the loop body makes of one line: skip it, abort with an error, or keep an entry. */
  datatype Verdict = Skip | Bad(error: ParseError) | Good(entry: Entry)

  /**
   * List mode: the first two `[\s,]+` fields are the address and the amount; a
   * line with fewer is skipped. A line is kept exactly when its address is valid
   * and its amount parses; the address is checked first, so a line wrong in both
   * is reported as an invalid address.
   */
  function ListVerdict(line: string, decimals: nat, v: Viem): (r: Verdict)
    ensures r.Skip? <==> |Fields(line)| < 2
    ensures |Fields(line)| >= 2 ==>
              (r.Good? <==> v.isAddress(Fields(line)[0]) && v.parseUnits(Fields(line)[1], decimals).Some?)
    ensures r.Bad? ==> r.error == if !v.isAddress(Fields(line)[0]) then InvalidAddress(Fields(line)[0])
                                  else InvalidAmount(Fields(line)[0], Fields(line)[1])
    ensures r.Good? ==> r.entry.address == Fields(line)[0] && r.entry.amountStr == Fields(line)[1]
    ensures r.Good? ==> UnitConsistent(r.entry, decimals, v)
  {
    var parts := Fields(line);
    if |parts| < 2 then Skip
    else if !v.isAddress(parts[0]) then Bad(InvalidAddress(parts[0]))
    else match v.parseUnits(parts[1], decimals)
      case None => Bad(InvalidAmount(parts[0], parts[1]))
      case Some(wei) => Good(Entry(parts[0], parts[1], wei))
  }

  /**
   * Single mode: the first field is the address and every line gets the global
   * amount. A line is kept exactly when that address is valid.
   */
  function SingleVerdict(line: string, globalAmount: string, globalWei: int, v: Viem): (r: Verdict)
    ensures !r.Skip?
    ensures r.Good? <==> v.isAddress(Fields(line)[0])
    ensures r.Bad? ==> r.error == InvalidAddress(Fields(line)[0])
    ensures r.Good? ==> r.entry == Entry(Fields(line)[0], globalAmount, globalWei)
  {
    var address := Fields(line)[0];
    if !v.isAddress(address) then Bad(InvalidAddress(address))
    else Good(Entry(address, globalAmount, globalWei))
  }

  /**
   * The `for` loop over the lines: entries of the good lines in order, or the
   * error of the first bad line, in which case nothing collected so far survives.
   */
  function Collect(vs: seq<Verdict>): (r: Result<seq<Entry>, ParseError>)
    ensures r.Success? <==> forall i :: 0 <= i < |vs| ==> !vs[i].Bad?
    ensures r.Success? ==> |r.value| <= |vs|
    ensures r.Success? ==> (|r.value| == 0 <==> forall i :: 0 <= i < |vs| ==> vs[i].Skip?)
    ensures r.Failure? ==> exists i :: 0 <= i < |vs| && vs[i] == Bad(r.error) && forall j :: 0 <= j < i ==> !vs[j].Bad?
  {
    if vs == [] then Success([])
    else
      var rest := Collect(vs[1..]);
      assert forall i :: 1 <= i < |vs| ==> vs[i] == vs[1..][i - 1];
      match vs[0]
      case Bad(e) => Failure(e)
      case Skip => rest
      case Good(e) =>
        if rest.Failure? then
          var i :| 0 <= i < |vs[1..]| && vs[1..][i] == Bad(rest.error) && forall j :: 0 <= j < i ==> !vs[1..][j].Bad?;
          assert vs[i + 1] == Bad(rest.error);
          rest
        else Success([e] + rest.value)
  }

  /** `text.split('\n').map(l => l.trim()).filter(l => l)` fed through the per-line rule of list mode. */
  function ListVerdicts(lines: seq<string>, decimals: nat, v: Viem): (vs: seq<Verdict>)
    ensures |vs| == |lines|
    ensures forall i :: 0 <= i < |lines| ==> vs[i] == ListVerdict(lines[i], decimals, v)
  {
    seq(|lines|, i requires 0 <= i < |lines| => ListVerdict(lines[i], decimals, v))
  }

  function SingleVerdicts(lines: seq<string>, globalAmount: string, globalWei: int, v: Viem): (vs: seq<Verdict>)
    ensures |vs| == |lines|
    ensures forall i :: 0 <= i < |lines| ==> vs[i] == SingleVerdict(lines[i], globalAmount, globalWei, v)
  {
    seq(|lines|, i requires 0 <= i < |lines| => SingleVerdict(lines[i], globalAmount, globalWei, v))
  }

  /** The token-address guard of `parseInput`: an ERC20 distribution needs a valid token contract. */
  predicate TokenReady(ty: TransferType, tokenAddress: string, v: Viem) {
    ty == Erc20 ==> v.isAddress(tokenAddress)
  }

  /** `!globalAmount || globalAmount.trim() === ''`. */
  predicate Blank(s: string) {
    Trim(s) == []
  }

  /**
   * `parseInput(text)` with the form's state as parameters. `Success` is what
   * `setParsedData` receives; `Failure` names the error message that is set.
   */
  function Parse(text: string, singleMode: bool, ty: TransferType, tokenAddress: string,
                 decimals: nat, globalAmount: string, v: Viem): (r: Result<seq<Entry>, ParseError>)
    ensures !TokenReady(ty, tokenAddress, v) ==> r == Failure(TokenAddressInvalid)
    ensures TokenReady(ty, tokenAddress, v) && singleMode
            && (Blank(globalAmount) || v.parseUnits(globalAmount, decimals).None?)
            ==> r == Failure(GlobalAmountInvalid)
    ensures r.Success? ==> 0 < |r.value| <= |Lines(text)|
    ensures r.Success? ==> forall k :: 0 <= k < |r.value| ==> UnitConsistent(r.value[k], decimals, v)
  {
    if !TokenReady(ty, tokenAddress, v) then Failure(TokenAddressInvalid)
    else if singleMode then
      if Blank(globalAmount) then Failure(GlobalAmountInvalid)
      else match v.parseUnits(globalAmount, decimals)
        case None => Failure(GlobalAmountInvalid)
        case Some(globalWei) => Finish(CollectSingle(Lines(text), globalAmount, globalWei, decimals, v), true)
    else Finish(CollectList(Lines(text), decimals, v), false)
  }

  /** The check after the loop: an empty collection is an error of its own. */
  function Finish(c: Result<seq<Entry>, ParseError>, singleMode: bool): (r: Result<seq<Entry>, ParseError>)
    ensures r.Success? <==> c.Success? && |c.value| > 0
    ensures r.Success? ==> r.value == c.value
    ensures c.Failure? ==> r == c
    ensures c.Success? && |c.value| == 0 ==> r == Failure(NoValidEntries(singleMode))
  {
    match c
    case Failure(e) => Failure(e)
    case Success(es) => if |es| == 0 then Failure(NoValidEntries(singleMode)) else Success(es)
  }

  function CollectList(lines: seq<string>, decimals: nat, v: Viem): (r: Result<seq<Entry>, ParseError>)
    ensures r.Success? ==> |r.value| <= |lines|
    ensures r.Success? ==> forall k :: 0 <= k < |r.value| ==> UnitConsistent(r.value[k], decimals, v)
  {
    var vs := ListVerdicts(lines, decimals, v);
    CollectGood(vs);
    Collect(vs)
  }

  function CollectSingle(lines: seq<string>, globalAmount: string, globalWei: int, decimals: nat, v: Viem): (r: Result<seq<Entry>, ParseError>)
    requires v.parseUnits(globalAmount, decimals) == Some(globalWei)
    ensures r.Success? ==> |r.value| <= |lines|
    ensures r.Success? ==> forall k :: 0 <= k < |r.value| ==> UnitConsistent(r.value[k], decimals, v)
  {
    var vs := SingleVerdicts(lines, globalAmount, globalWei, v);
    CollectGood(vs);
    Collect(vs)
  }

  /** Every collected entry is one carried by a `Good` verdict. */
  lemma {:induction false} CollectGood(vs: seq<Verdict>)
    ensures Collect(vs).Success? ==> forall k :: 0 <= k < |Collect(vs).value| ==> Good(Collect(vs).value[k]) in vs
  {
    if vs != [] {
      CollectGood(vs[1..]);
    }
  }

  /** Positions at or after `i` of the `Good` verdicts, in increasing order. */
  function GoodPositions(vs: seq<Verdict>, i: nat): (idx: seq<nat>)
    requires i <= |vs|
    ensures forall k :: 0 <= k < |idx| ==> i <= idx[k] < |vs| && vs[idx[k]].Good?
    ensures forall k, l :: 0 <= k < l < |idx| ==> idx[k] < idx[l]
    ensures forall j :: i <= j < |vs| && vs[j].Good? ==> j in idx
    decreases |vs| - i
  {
    if i == |vs| then []
    else if vs[i].Good? then [i] + GoodPositions(vs, i + 1)
    else GoodPositions(vs, i + 1)
  }

  /**
   * A successful collection holds exactly the entries of the `Good` verdicts,
   * in their order: the k-th entry comes from the k-th good line.
   */
  lemma {:induction false} CollectInOrder(vs: seq<Verdict>, i: nat)
    requires i <= |vs|
    requires Collect(vs[i..]).Success?
    ensures var es, idx := Collect(vs[i..]).value, GoodPositions(vs, i);
            |es| == |idx| && forall k :: 0 <= k < |idx| ==> vs[idx[k]] == Good(es[k])
    decreases |vs| - i
  {
    if i < |vs| {
      CollectCons(vs, i);
      CollectInOrder(vs, i + 1);
      var tail, idx := Collect(vs[i + 1..]).value, GoodPositions(vs, i + 1);
      if vs[i].Good? {
        var es, all := [vs[i].entry] + tail, [i] + idx;
        forall k | 0 <= k < |all|
          ensures vs[all[k]] == Good(es[k])
        {
          if k > 0 {
            assert all[k] == idx[k - 1] && es[k] == tail[k - 1];
          }
        }
      }
    }
  }

  /** One step of the loop: a successful collection from `i` is the entry at `i`, if good, then the rest. */
  lemma CollectCons(vs: seq<Verdict>, i: nat)
    requires i < |vs|
    requires Collect(vs[i..]).Success?
    ensures Collect(vs[i + 1..]).Success?
    ensures Collect(vs[i..]).value == (if vs[i].Good? then [vs[i].entry] else []) + Collect(vs[i + 1..]).value
  {
    assert vs[i..][1..] == vs[i + 1..];
    assert vs[i..][0] == vs[i];
  }

  /** When every verdict is `Good`, every line contributes its entry, in order. */
  lemma {:induction false} CollectAllGood(vs: seq<Verdict>)
    requires forall i :: 0 <= i < |vs| ==> vs[i].Good?
    ensures Collect(vs).Success?
    ensures |Collect(vs).value| == |vs|
    ensures forall k :: 0 <= k < |vs| ==> Collect(vs).value[k] == vs[k].entry
  {
    if vs != [] {
      assert forall i :: 1 <= i < |vs| ==> vs[i] == vs[1..][i - 1];
      CollectAllGood(vs[1..]);
    }
  }

  /** In single mode no line is skipped, so a collection without a rejected line kept every line. */
  lemma AllGoodWhenNoneBad(vs: seq<Verdict>)
    requires forall i :: 0 <= i < |vs| ==> !vs[i].Skip?
    requires Collect(vs).Success?
    ensures forall i :: 0 <= i < |vs| ==> vs[i].Good?
  {
  }

  /**
   * Single mode: one entry per non-blank line, in line order; its address is
   * the line's first field and every entry carries the same global amount.
   */
  lemma SingleModeEntries(text: string, ty: TransferType, tokenAddress: string,
                          decimals: nat, globalAmount: string, v: Viem)
    ensures var r := Parse(text, true, ty, tokenAddress, decimals, globalAmount, v);
            var lines := Lines(text);
            r.Success? ==>
              && v.parseUnits(globalAmount, decimals).Some?
              && |r.value| == |lines|
              && forall k :: 0 <= k < |r.value| ==>
                   r.value[k] == Entry(Fields(lines[k])[0], globalAmount, v.parseUnits(globalAmount, decimals).value)
  {
    var r := Parse(text, true, ty, tokenAddress, decimals, globalAmount, v);
    if r.Success? {
      var w := v.parseUnits(globalAmount, decimals).value;
      var vs := SingleVerdicts(Lines(text), globalAmount, w, v);
      assert r == Finish(Collect(vs), true);
      SingleCollectAll(Lines(text), globalAmount, w, v);
    }
  }

  lemma SingleCollectAll(lines: seq<string>, globalAmount: string, w: int, v: Viem)
    requires Collect(SingleVerdicts(lines, globalAmount, w, v)).Success?
    ensures var es := Collect(SingleVerdicts(lines, globalAmount, w, v)).value;
            |es| == |lines| && forall k :: 0 <= k < |es| ==> es[k] == Entry(Fields(lines[k])[0], globalAmount, w)
  {
    var vs := SingleVerdicts(lines, globalAmount, w, v);
    AllGoodWhenNoneBad(vs);
    CollectAllGood(vs);
  }

  /**
   * `idx` lists, in increasing order, every line with at least two fields, and
   * the k-th entry is built from the first two fields of line `idx[k]`.
   */
  predicate PicksFieldedLines(idx: seq<nat>, lines: seq<string>, es: seq<Entry>) {
    && |idx| == |es|
    && (forall k, l :: 0 <= k < l < |idx| ==> idx[k] < idx[l])
    && (forall k :: 0 <= k < |idx| ==>
          && idx[k] < |lines|
          && |Fields(lines[idx[k]])| >= 2
          && es[k].address == Fields(lines[idx[k]])[0]
          && es[k].amountStr == Fields(lines[idx[k]])[1])
    && (forall j :: 0 <= j < |lines| && |Fields(lines[j])| >= 2 ==> j in idx)
  }

  /**
   * List mode: the entries are those of the lines with at least two fields,
   * in line order, each built from its line's first two fields; later fields are ignored.
   */
  lemma ListModeEntries(text: string, ty: TransferType, tokenAddress: string,
                        decimals: nat, globalAmount: string, v: Viem)
    ensures var r := Parse(text, false, ty, tokenAddress, decimals, globalAmount, v);
            r.Success? ==> exists idx: seq<nat> :: PicksFieldedLines(idx, Lines(text), r.value)
  {
    if Parse(text, false, ty, tokenAddress, decimals, globalAmount, v).Success? {
      var lines := Lines(text);
      var vs := ListVerdicts(lines, decimals, v);
      var es := Parse(text, false, ty, tokenAddress, decimals, globalAmount, v).value;
      assert CollectList(lines, decimals, v) == Collect(vs);
      assert es == Collect(vs).value;
      assert vs[0..] == vs;
      CollectInOrder(vs, 0);
      var idx := GoodPositions(vs, 0);
      forall k | 0 <= k < |idx|
        ensures idx[k] < |lines| && |Fields(lines[idx[k]])| >= 2
        ensures es[k].address == Fields(lines[idx[k]])[0] && es[k].amountStr == Fields(lines[idx[k]])[1]
      {
        assert vs[idx[k]] == Good(es[k]);
      }
      forall j | 0 <= j < |lines| && |Fields(lines[j])| >= 2
        ensures j in idx
      {
        assert !vs[j].Bad? && !vs[j].Skip?;
      }
      assert PicksFieldedLines(idx, lines, es);
    }
  }

  /**
   * All or nothing, list mode: parsing succeeds exactly when the token guard
   * passes, every line with two or more fields has a valid address and an
   * amount that parses, and at least one line has two fields.
   */
  lemma ListModeSucceedsIff(text: string, ty: TransferType, tokenAddress: string,
                            decimals: nat, globalAmount: string, v: Viem)
    ensures var lines := Lines(text);
            Parse(text, false, ty, tokenAddress, decimals, globalAmount, v).Success?
            <==> && TokenReady(ty, tokenAddress, v)
                 && (forall i :: 0 <= i < |lines| && |Fields(lines[i])| >= 2 ==>
                       v.isAddress(Fields(lines[i])[0]) && v.parseUnits(Fields(lines[i])[1], decimals).Some?)
                 && (exists i :: 0 <= i < |lines| && |Fields(lines[i])| >= 2)
  {
    var lines := Lines(text);
    var vs := ListVerdicts(lines, decimals, v);
    if TokenReady(ty, tokenAddress, v) {
      assert Parse(text, false, ty, tokenAddress, decimals, globalAmount, v) == Finish(Collect(vs), false);
      ListNoneBad(lines, decimals, v);
      ListSomeFielded(lines, decimals, v);
    }
  }

  /** No line is rejected exactly when every line with two fields has a valid address and amount. */
  lemma ListNoneBad(lines: seq<string>, decimals: nat, v: Viem)
    ensures var vs := ListVerdicts(lines, decimals, v);
            (forall i :: 0 <= i < |lines| && |Fields(lines[i])| >= 2 ==>
               v.isAddress(Fields(lines[i])[0]) && v.parseUnits(Fields(lines[i])[1], decimals).Some?)
            <==> forall i :: 0 <= i < |vs| ==> !vs[i].Bad?
  {
    var vs := ListVerdicts(lines, decimals, v);
    forall i | 0 <= i < |lines|
      ensures !vs[i].Bad? <==>
                (|Fields(lines[i])| >= 2 ==>
                   v.isAddress(Fields(lines[i])[0]) && v.parseUnits(Fields(lines[i])[1], decimals).Some?)
    {
      assert vs[i] == ListVerdict(lines[i], decimals, v);
    }
  }

  /** Some line is not skipped exactly when some line has two fields. */
  lemma ListSomeFielded(lines: seq<string>, decimals: nat, v: Viem)
    ensures var vs := ListVerdicts(lines, decimals, v);
            (exists i :: 0 <= i < |lines| && |Fields(lines[i])| >= 2)
            <==> !forall i :: 0 <= i < |vs| ==> vs[i].Skip?
  {
    var vs := ListVerdicts(lines, decimals, v);
    assert forall i :: 0 <= i < |lines| ==> (vs[i].Skip? <==> |Fields(lines[i])| < 2);
  }

  /**
   * All or nothing, single mode: parsing succeeds exactly when the token guard
   * passes, the global amount is non-blank and parses, there is at least one
   * line, and every line's first field is a valid address.
   */
  lemma SingleModeSucceedsIff(text: string, ty: TransferType, tokenAddress: string,
                              decimals: nat, globalAmount: string, v: Viem)
    ensures var lines := Lines(text);
            Parse(text, true, ty, tokenAddress, decimals, globalAmount, v).Success?
            <==> && TokenReady(ty, tokenAddress, v)
                 && !Blank(globalAmount)
                 && v.parseUnits(globalAmount, decimals).Some?
                 && |lines| > 0
                 && (forall i :: 0 <= i < |lines| ==> v.isAddress(Fields(lines[i])[0]))
  {
    var lines := Lines(text);
    if TokenReady(ty, tokenAddress, v) && !Blank(globalAmount) && v.parseUnits(globalAmount, decimals).Some? {
      var w := v.parseUnits(globalAmount, decimals).value;
      var vs := SingleVerdicts(lines, globalAmount, w, v);
      var c := Collect(vs);
      assert Parse(text, true, ty, tokenAddress, decimals, globalAmount, v) == Finish(c, true);
      SingleNoneBad(lines, globalAmount, w, v);
    }
  }

  /** In single mode no line is rejected exactly when every line's first field is an address; none is skipped. */
  lemma SingleNoneBad(lines: seq<string>, globalAmount: string, w: int, v: Viem)
    ensures var vs := SingleVerdicts(lines, globalAmount, w, v);
            && ((forall i :: 0 <= i < |lines| ==> v.isAddress(Fields(lines[i])[0]))
                <==> forall i :: 0 <= i < |vs| ==> !vs[i].Bad?)
            && (|lines| > 0 <==> !forall i :: 0 <= i < |vs| ==> vs[i].Skip?)
  {
    var vs := SingleVerdicts(lines, globalAmount, w, v);
    forall i | 0 <= i < |lines|
      ensures !vs[i].Skip? && (!vs[i].Bad? <==> v.isAddress(Fields(lines[i])[0]))
    {
      assert vs[i] == SingleVerdict(lines[i], globalAmount, w, v);
    }
    if |lines| > 0 {
      assert !vs[0].Skip?;
    }
  }

  /**
   * Fail-fast, list mode: a failure past the token guard is either "no valid
   * entries" (every line skipped) or the error of the first rejected line.
   */
  lemma ListModeFirstError(text: string, ty: TransferType, tokenAddress: string,
                           decimals: nat, globalAmount: string, v: Viem)
    requires TokenReady(ty, tokenAddress, v)
    ensures var r := Parse(text, false, ty, tokenAddress, decimals, globalAmount, v);
            var lines := Lines(text);
            r.Failure? ==>
              || (r.error == NoValidEntries(false) && forall i :: 0 <= i < |lines| ==> |Fields(lines[i])| < 2)
              || exists i :: 0 <= i < |lines|
                   && ListVerdict(lines[i], decimals, v) == Bad(r.error)
                   && forall j :: 0 <= j < i ==> |Fields(lines[j])| < 2 || ListVerdict(lines[j], decimals, v).Good?
  {
    var lines := Lines(text);
    var vs := ListVerdicts(lines, decimals, v);
    var c := Collect(vs);
    assert Parse(text, false, ty, tokenAddress, decimals, globalAmount, v) == Finish(c, false);
    if c.Failure? {
      var i :| 0 <= i < |vs| && vs[i] == Bad(c.error) && forall j :: 0 <= j < i ==> !vs[j].Bad?;
      forall j | 0 <= j < i
        ensures |Fields(lines[j])| < 2 || ListVerdict(lines[j], decimals, v).Good?
      {
        assert !vs[j].Bad?;
      }
    }
  }

  /**
   * Fail-fast, single mode: once the token guard and the global amount pass,
   * a failure is either "no valid addresses" (there is no line at all) or the
   * invalid address of the first line whose first field is not an address.
   */
  lemma SingleModeFirstError(text: string, ty: TransferType, tokenAddress: string,
                             decimals: nat, globalAmount: string, v: Viem)
    requires TokenReady(ty, tokenAddress, v) && !Blank(globalAmount)
    requires v.parseUnits(globalAmount, decimals).Some?
    ensures var r := Parse(text, true, ty, tokenAddress, decimals, globalAmount, v);
            var lines := Lines(text);
            r.Failure? ==>
              || (r.error == NoValidEntries(true) && lines == [])
              || exists i :: 0 <= i < |lines|
                   && !v.isAddress(Fields(lines[i])[0])
                   && r.error == InvalidAddress(Fields(lines[i])[0])
                   && forall j :: 0 <= j < i ==> v.isAddress(Fields(lines[j])[0])
  {
    var lines := Lines(text);
    var w := v.parseUnits(globalAmount, decimals).value;
    var c := Collect(SingleVerdicts(lines, globalAmount, w, v));
    assert Parse(text, true, ty, tokenAddress, decimals, globalAmount, v) == Finish(c, true);
    SingleFirstBad(lines, globalAmount, w, v);
    SingleEmpty(lines, globalAmount, w, v);
  }

  /** A failed single-mode loop stops at the first line whose first field is not an address. */
  lemma SingleFirstBad(lines: seq<string>, globalAmount: string, w: int, v: Viem)
    ensures var c := Collect(SingleVerdicts(lines, globalAmount, w, v));
            c.Failure? ==>
              exists i :: 0 <= i < |lines|
                && !v.isAddress(Fields(lines[i])[0])
                && c.error == InvalidAddress(Fields(lines[i])[0])
                && forall j :: 0 <= j < i ==> v.isAddress(Fields(lines[j])[0])
  {
    var vs := SingleVerdicts(lines, globalAmount, w, v);
    var c := Collect(vs);
    if c.Failure? {
      var i :| 0 <= i < |vs| && vs[i] == Bad(c.error) && forall j :: 0 <= j < i ==> !vs[j].Bad?;
      assert vs[i] == SingleVerdict(lines[i], globalAmount, w, v);
      forall j | 0 <= j < i
        ensures v.isAddress(Fields(lines[j])[0])
      {
        assert vs[j] == SingleVerdict(lines[j], globalAmount, w, v);
      }
    }
  }

  /** A single-mode loop that keeps nothing had no line to look at. */
  lemma SingleEmpty(lines: seq<string>, globalAmount: string, w: int, v: Viem)
    ensures var c := Collect(SingleVerdicts(lines, globalAmount, w, v));
            c.Success? && |c.value| == 0 ==> lines == []
  {
    SingleNoneBad(lines, globalAmount, w, v);
  }

}
