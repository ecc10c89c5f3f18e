/** Fees of a route list read in one batch, apps/web/hooks/usePoolFees.ts. */
module PoolFees {
  import opened Results

  datatype Route = Route(stable: bool, poolType: string)

  /** A contract read: the pool's own fee, or the fee module's fee for a pool. */
  datatype Call = PoolFee(pool: string) | ModuleFee(feeModule: string, pool: string)

  datatype CallResult = Ok(value: nat) | Failed

  datatype Fee = Fee(feeBasisPoints: nat, isDynamicFee: bool, baseFeeBasisPoints: nat)

  const ZERO_ADDRESS := "0x0000000000000000000000000000000000000000"

  /** The default fees of basic pools, with the fallbacks for failed reads. */
  datatype Defaults = Defaults(stableFee: nat, volatileFee: nat)

  function DefaultFees(stableFee: CallResult, volatileFee: CallResult): Defaults {
    Defaults(if stableFee.Ok? then stableFee.value else 5, if volatileFee.Ok? then volatileFee.value else 30)
  }

  /** The fee module in use: a successful read of an address that is not zero or empty. */
  function ActiveModule(read: Option<string>): Option<string> {
    if read.Some? && read.value != "" && read.value != ZERO_ADDRESS then read else None
  }

  /** `poolAddresses?.[i]`, where an empty address counts as none. */
  function AddressAt(addresses: seq<Option<string>>, i: nat): Option<string> {
    if i < |addresses| && addresses[i].Some? && addresses[i].value != "" then addresses[i] else None
  }

  function CallsOfRoute(route: Route, address: Option<string>, feeModule: Option<string>): seq<Call> {
    if route.poolType != "CL" || address.None? then []
    else [PoolFee(address.value)] + if feeModule.Some? then [ModuleFee(feeModule.value, address.value)] else []
  }

  /** The calls pushed for the first `n` routes. */
  function CallsBefore(routes: seq<Route>, addresses: seq<Option<string>>, feeModule: Option<string>, n: nat): seq<Call>
    requires n <= |routes|
  {
    if n == 0 then []
    else
      CallsBefore(routes, addresses, feeModule, n - 1)
      + CallsOfRoute(routes[n - 1], AddressAt(addresses, n - 1), feeModule)
  }

  lemma CallsNext(routes: seq<Route>, addresses: seq<Option<string>>, feeModule: Option<string>, n: nat)
    requires n < |routes|
    ensures CallsBefore(routes, addresses, feeModule, n + 1)
         == CallsBefore(routes, addresses, feeModule, n) + CallsOfRoute(routes[n], AddressAt(addresses, n), feeModule)
  {
  }

  lemma NoCalls(routes: seq<Route>, addresses: seq<Option<string>>, feeModule: Option<string>)
    ensures CallsBefore(routes, addresses, feeModule, 0) == []
  {
  }

  lemma PushedCalls(calls: seq<Call>, route: Route, address: Option<string>, feeModule: Option<string>)
    ensures calls + CallsOfRoute(route, address, feeModule) ==
      if route.poolType != "CL" || address.None? then calls
      else if feeModule.None? then calls + [PoolFee(address.value)]
      else calls + [PoolFee(address.value)] + [ModuleFee(feeModule.value, address.value)]
  {
  }

  method BuildCalls(routes: seq<Route>, addresses: seq<Option<string>>, feeModule: Option<string>)
    returns (calls: seq<Call>)
    ensures calls == CallsBefore(routes, addresses, feeModule, |routes|)
  {
    hide CallsBefore, AddressAt, CallsOfRoute;
    calls := [];
    NoCalls(routes, addresses, feeModule);
    for i := 0 to |routes|
      invariant calls == CallsBefore(routes, addresses, feeModule, i)
    {
      CallsNext(routes, addresses, feeModule, i);
      PushedCalls(calls, routes[i], AddressAt(addresses, i), feeModule);
      var isCL := routes[i].poolType == "CL";
      var poolAddr := AddressAt(addresses, i);
      if isCL && poolAddr.Some? {
        calls := calls + [PoolFee(poolAddr.value)];
        if feeModule.Some? {
          calls := calls + [ModuleFee(feeModule.value, poolAddr.value)];
        }
      }
    }
  }

  /** `Math.round(Number(result) / 100)`. */
  function RoundToBps(value: nat): (bps: nat)
    ensures 100 * bps - 50 <= value < 100 * bps + 50
  {
    (value + 50) / 100
  }

  /** `clFeeData?.[idx]`: absent while loading and past the end. */
  function ResultAt(data: Option<seq<CallResult>>, idx: nat): CallResult {
    if data.Some? && idx < |data.value| then data.value[idx] else Failed
  }

  /** What a CL route shows for the answers to its own calls. */
  function ClFee(base: CallResult, dynamic: CallResult, hasModule: bool): Fee {
    var baseFee := if base.Ok? then RoundToBps(base.value) else 30;
    Fee(if hasModule && dynamic.Ok? then RoundToBps(dynamic.value) else baseFee, hasModule, baseFee)
  }

  function BasicFee(route: Route, defaults: Defaults): Fee {
    var fee := if route.stable then defaults.stableFee else defaults.volatileFee;
    Fee(fee, false, fee)
  }

  /** The module that was read, if it is one. */
  ghost function ModuleOf(moduleRead: Option<string>): Option<string> {
    if moduleRead == Some("") || moduleRead == Some("0x0000000000000000000000000000000000000000") then None
    else moduleRead
  }

  /**
   * The fee of a route from the answers to calls, with no cursor involved: hundredths rounded
   * half up for a CL pool with an address, the default fee of its kind for every other.
   */
  ghost function FeeOf(route: Route, address: Option<string>, moduleRead: Option<string>, stableRead: CallResult,
                       volatileRead: CallResult, answer: Call -> CallResult): Fee {
    if route.poolType == "CL" && address.Some? && address != Some("") then
      var own, feeModule := answer(PoolFee(address.value)), ModuleOf(moduleRead);
      var base := if own.Ok? then (own.value + 50) / 100 else 30;
      if feeModule.None? then Fee(base, false, base)
      else
        var dynamic := answer(ModuleFee(feeModule.value, address.value));
        Fee(if dynamic.Ok? then (dynamic.value + 50) / 100 else base, true, base)
    else
      var read := if route.stable then stableRead else volatileRead;
      var fee := if read.Ok? then read.value else if route.stable then 5 else 30;
      Fee(fee, false, fee)
  }

  /** The address given for route `i`, if any. */
  ghost function Given(addresses: seq<Option<string>>, i: nat): Option<string> {
    if i < |addresses| then addresses[i] else None
  }

  /** What the reading loop shows for a route when its cursor stands at `at`. */
  function FeeAt(route: Route, poolAddr: Option<string>, feeModule: Option<string>, defaults: Defaults,
                 data: Option<seq<CallResult>>, at: nat): Fee {
    if route.poolType == "CL" && poolAddr.Some?
    then ClFee(ResultAt(data, at), ResultAt(data, at + 1), feeModule.Some?)
    else BasicFee(route, defaults)
  }

  /** The body of the reading loop: one route, from the cursor on. */
  method ReadRoute(route: Route, poolAddr: Option<string>, feeModule: Option<string>, defaults: Defaults,
                   data: Option<seq<CallResult>>, at: nat) returns (fee: Fee, clDataIdx: nat)
    ensures clDataIdx == at + |CallsOfRoute(route, poolAddr, feeModule)|
    ensures fee == FeeAt(route, poolAddr, feeModule, defaults, data, at)
  {
    clDataIdx := at;
    if route.poolType == "CL" && poolAddr.Some? {
      var baseFeeResult := ResultAt(data, clDataIdx);
      clDataIdx := clDataIdx + 1;
      var baseFeeRaw := if baseFeeResult.Ok? then RoundToBps(baseFeeResult.value) else 30;
      var currentFeeBps := baseFeeRaw;
      if feeModule.Some? {
        var dynamicFeeResult := ResultAt(data, clDataIdx);
        clDataIdx := clDataIdx + 1;
        if dynamicFeeResult.Ok? {
          currentFeeBps := RoundToBps(dynamicFeeResult.value);
        }
      }
      fee := Fee(currentFeeBps, feeModule.Some?, baseFeeRaw);
    } else {
      var feeBasisPoints := if route.stable then defaults.stableFee else defaults.volatileFee;
      fee := Fee(feeBasisPoints, false, feeBasisPoints);
    }
  }

  /** The reading loop: at every route the cursor stands past the calls of the routes before it. */
  method ReadFees(routes: seq<Route>, addresses: seq<Option<string>>, feeModule: Option<string>, defaults: Defaults,
                  data: Option<seq<CallResult>>) returns (fees: seq<Fee>, clDataIdx: nat)
    ensures |fees| == |routes| && clDataIdx == |CallsBefore(routes, addresses, feeModule, |routes|)|
    ensures forall i :: 0 <= i < |routes| ==>
      fees[i]
        == FeeAt(routes[i], AddressAt(addresses, i), feeModule, defaults, data,
                 |CallsBefore(routes, addresses, feeModule, i)|)
  {
    hide AddressAt, CallsOfRoute, CallsBefore, FeeAt, ResultAt, ClFee, BasicFee;
    fees, clDataIdx := [], 0;
    NoCalls(routes, addresses, feeModule);
    for i := 0 to |routes|
      invariant |fees| == i && clDataIdx == |CallsBefore(routes, addresses, feeModule, i)|
      invariant forall k :: 0 <= k < i ==>
        fees[k]
          == FeeAt(routes[k], AddressAt(addresses, k), feeModule, defaults, data,
                   |CallsBefore(routes, addresses, feeModule, k)|)
    {
      CallsNext(routes, addresses, feeModule, i);
      var fee: Fee;
      fee, clDataIdx := ReadRoute(routes[i], AddressAt(addresses, i), feeModule, defaults, data, clDataIdx);
      fees := fees + [fee];
    }
  }

  /** The calls of route `i` stand in the batch right where the cursor is at route `i`. */
  lemma {:induction false} CursorAligned(routes: seq<Route>, addresses: seq<Option<string>>, feeModule: Option<string>,
                                         i: nat, n: nat)
    requires i < n <= |routes|
    ensures var calls, at, own := CallsBefore(routes, addresses, feeModule, n),
        |CallsBefore(routes, addresses, feeModule, i)|,
                                  CallsOfRoute(routes[i], AddressAt(addresses, i), feeModule);
      at + |own| <= |calls| && calls[at..at + |own|] == own
  {
    hide CallsOfRoute, AddressAt;
    var last := CallsOfRoute(routes[n - 1], AddressAt(addresses, n - 1), feeModule);
    var before := CallsBefore(routes, addresses, feeModule, n - 1);
    if i < n - 1 {
      CursorAligned(routes, addresses, feeModule, i, n - 1);
      var at, own := |CallsBefore(routes, addresses, feeModule, i)|,
        CallsOfRoute(routes[i], AddressAt(addresses, i), feeModule);
      SliceOfAppend(before, last, at, at + |own|);
    } else {
      SliceOfAppend(before + last, [], |before|, |before| + |last|);
      assert before + last + [] == before + last;
      assert (before + last)[|before|..] == last;
    }
  }

  lemma SliceOfAppend(a: seq<Call>, b: seq<Call>, lo: nat, hi: nat)
    requires lo <= hi <= |a|
    ensures (a + b)[lo..hi] == a[lo..hi]
  {
  }

  ghost predicate Answers(data: seq<CallResult>, calls: seq<Call>, answer: Call -> CallResult) {
    |data| == |calls| && forall k :: 0 <= k < |calls| ==> data[k] == answer(calls[k])
  }

  /** When the batch is answered, every route shows the fees of its own pool. */
  lemma FeesAreOwn(routes: seq<Route>, addresses: seq<Option<string>>, moduleRead: Option<string>,
                   stableRead: CallResult, volatileRead: CallResult, data: seq<CallResult>,
                   answer: Call -> CallResult, i: nat)
    requires i < |routes|
    requires Answers(data, CallsBefore(routes, addresses, ActiveModule(moduleRead), |routes|), answer)
    ensures FeeAt(routes[i], AddressAt(addresses, i), ActiveModule(moduleRead), DefaultFees(stableRead, volatileRead),
                  Some(data), |CallsBefore(routes, addresses, ActiveModule(moduleRead), i)|)
         == FeeOf(routes[i], Given(addresses, i), moduleRead, stableRead, volatileRead, answer)
  {
    hide CallsBefore;
    var feeModule := ActiveModule(moduleRead);
    CursorAligned(routes, addresses, feeModule, i, |routes|);
    var calls, at := CallsBefore(routes, addresses, feeModule, |routes|),
      |CallsBefore(routes, addresses, feeModule, i)|;
    var own := CallsOfRoute(routes[i], AddressAt(addresses, i), feeModule);
    OwnAnswers(calls, data, answer, at, own);
  }

  /** While the batch is loading, every route shows what it would if all calls had failed. */
  lemma FeesWhileLoading(route: Route, addresses: seq<Option<string>>, moduleRead: Option<string>,
                         stableRead: CallResult, volatileRead: CallResult, at: nat, i: nat)
    ensures FeeAt(route, AddressAt(addresses, i), ActiveModule(moduleRead), DefaultFees(stableRead, volatileRead),
                  None, at)
         == FeeOf(route, Given(addresses, i), moduleRead, stableRead, volatileRead, (call: Call) => Failed)
  {
  }

  lemma OwnAnswers(calls: seq<Call>, data: seq<CallResult>, answer: Call -> CallResult, at: nat, own: seq<Call>)
    requires Answers(data, calls, answer) && at + |own| <= |calls| && calls[at..at + |own|] == own
    ensures forall k: nat :: k < |own| ==> ResultAt(Some(data), at + k) == answer(own[k])
    ensures |own| > 0 ==> ResultAt(Some(data), at) == answer(own[0])
    ensures |own| > 1 ==> ResultAt(Some(data), at + 1) == answer(own[1])
  {
    forall k: nat | k < |own| ensures ResultAt(Some(data), at + k) == answer(own[k]) {
      assert calls[at..at + |own|][k] == calls[at + k];
    }
    assert |own| > 0 ==> ResultAt(Some(data), at + 0) == answer(own[0]);
  }

  function SumFees(fees: seq<Fee>): nat {
    if fees == [] then 0 else SumFees(fees[..|fees| - 1]) + fees[|fees| - 1].feeBasisPoints
  }

  ghost function SumOfOwnFees(routes: seq<Route>, addresses: seq<Option<string>>, moduleRead: Option<string>,
                              stableRead: CallResult, volatileRead: CallResult, answer: Call -> CallResult,
                              n: nat): nat
    requires n <= |routes|
  {
    if n == 0 then 0
    else
      var fee := FeeOf(routes[n - 1], Given(addresses, n - 1), moduleRead, stableRead, volatileRead, answer);
      SumOfOwnFees(routes, addresses, moduleRead, stableRead, volatileRead, answer, n - 1) + fee.feeBasisPoints
  }

  lemma {:induction false} SumIsOfOwnFees(routes: seq<Route>, addresses: seq<Option<string>>,
                                          moduleRead: Option<string>, stableRead: CallResult,
                                          volatileRead: CallResult, answer: Call -> CallResult, fees: seq<Fee>)
    requires |fees| <= |routes|
    requires forall i :: 0 <= i < |fees| ==>
      fees[i] == FeeOf(routes[i], Given(addresses, i), moduleRead, stableRead, volatileRead, answer)
    ensures SumFees(fees) == SumOfOwnFees(routes, addresses, moduleRead, stableRead, volatileRead, answer, |fees|)
  {
    hide FeeOf, Given;
    if fees != [] {
      SumIsOfOwnFees(routes, addresses, moduleRead, stableRead, volatileRead, answer, fees[..|fees| - 1]);
    }
  }

  /**
   * Building, answering and reading back: all results are consumed, every route has its own
   * fees, and the total is the sum over the routes.
   */
  method RouteFees(routes: seq<Route>, addresses: seq<Option<string>>, moduleRead: Option<string>,
                   stableRead: CallResult, volatileRead: CallResult, answer: Call -> CallResult)
    returns (fees: seq<Fee>, total: nat)
    ensures |fees| == |routes|
    ensures forall i :: 0 <= i < |routes| ==>
      fees[i] == FeeOf(routes[i], Given(addresses, i), moduleRead, stableRead, volatileRead, answer)
    ensures total == SumOfOwnFees(routes, addresses, moduleRead, stableRead, volatileRead, answer, |routes|)
  {
    hide FeeOf, FeeAt, AddressAt, ActiveModule, Given, SumOfOwnFees, CallsBefore;
    var defaults := DefaultFees(stableRead, volatileRead);
    var feeModule := ActiveModule(moduleRead);
    var calls := BuildCalls(routes, addresses, feeModule);
    var data := seq(|calls|, k requires 0 <= k < |calls| => answer(calls[k]));
    var consumed: nat;
    fees, consumed := ReadFees(routes, addresses, feeModule, defaults, Some(data));
    assert consumed == |data|;
    forall i | 0 <= i < |routes|
      ensures fees[i] == FeeOf(routes[i], Given(addresses, i), moduleRead, stableRead, volatileRead, answer) {
      FeesAreOwn(routes, addresses, moduleRead, stableRead, volatileRead, data, answer, i);
    }
    SumIsOfOwnFees(routes, addresses, moduleRead, stableRead, volatileRead, answer, fees);
    total := SumFees(fees);
  }
}
