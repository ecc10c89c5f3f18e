/** Dynamic-fee read model, apps/broker/src/dynamic-fee/dynamic-swap-fee-read-model.service.ts. */
module Fees {
  import opened Results
  import opened EventLog

  datatype GlobalRow = GlobalRow(defaultFeeCap: Option<string>, defaultScalingFactor: Option<string>,
                                 secondsAgo: Option<string>, defaultUnstakedFee: Option<string>,
                                 swapFeeModule: Option<string>)

  datatype PoolRow = PoolRow(baseFee: Option<string>, feeCap: Option<string>, scalingFactor: Option<string>)

  /** The singleton global row, the pool curves and the discounts. */
  datatype Tables = Tables(global: Option<GlobalRow>, pools: map<string, PoolRow>, discounts: map<string, string>)

  datatype GlobalField = DefaultFeeCap | DefaultScalingFactor | SecondsAgo | DefaultUnstakedFee | SwapFeeModule

  datatype Event =
    | GlobalSet(field: GlobalField, wire: string)
    | FeeCapSet(pool: string, wire: string)
    | ScalingFactorSet(pool: string, wire: string)
    | CustomFeeSet(pool: string, wire: string)
    | DynamicFeeReset(pool: string)
    | DiscountedRegistered(address: string, wire: string)
    | DiscountedDeregistered(address: string)

  /** A column of a partial update: left alone, or set, possibly to null. */
  datatype Change = Keep | Set(value: Option<string>) {
    function On(before: Option<string>): Option<string> {
      if Keep? then before else value
    }
  }

  datatype PoolPatch = PoolPatch(baseFee: Change, feeCap: Change, scalingFactor: Change)

  function UpsertGlobal(t: Tables, field: GlobalField, wire: string): Tables {
    var row := if t.global.Some? then t.global.value else GlobalRow(None, None, None, None, None);
    t.(global := Some(
      match field
      case DefaultFeeCap => row.(defaultFeeCap := Some(wire))
      case DefaultScalingFactor => row.(defaultScalingFactor := Some(wire))
      case SecondsAgo => row.(secondsAgo := Some(wire))
      case DefaultUnstakedFee => row.(defaultUnstakedFee := Some(wire))
      case SwapFeeModule => row.(swapFeeModule := Some(wire))))
  }

  function UpsertPool(t: Tables, pool: string, patch: PoolPatch): Tables {
    var row := if pool in t.pools then t.pools[pool] else PoolRow(None, None, None);
    t.(pools := t.pools[pool := PoolRow(patch.baseFee.On(row.baseFee), patch.feeCap.On(row.feeCap),
                                        patch.scalingFactor.On(row.scalingFactor))])
  }

  /** Each handler runs one statement. */
  function Apply(t: Tables, e: Event): Tables {
    match e
    case GlobalSet(field, wire) => UpsertGlobal(t, field, wire)
    case FeeCapSet(pool, wire) => UpsertPool(t, pool, PoolPatch(Keep, Set(Some(wire)), Keep))
    case ScalingFactorSet(pool, wire) => UpsertPool(t, pool, PoolPatch(Keep, Keep, Set(Some(wire))))
    case CustomFeeSet(pool, wire) => UpsertPool(t, pool, PoolPatch(Set(Some(wire)), Keep, Keep))
    case DynamicFeeReset(pool) => UpsertPool(t, pool, PoolPatch(Keep, Set(None), Set(None)))
    case DiscountedRegistered(address, wire) => t.(discounts := t.discounts[address := wire])
    case DiscountedDeregistered(address) => t.(discounts := t.discounts - {address})
  }

  // ---- Last writers -----------------------------------------------------------------------

  datatype PoolField = BaseFee | FeeCap | ScalingFactor

  /** One value the read model exposes. */
  datatype Cell =
    | GlobalCell(field: GlobalField)
    | PoolCell(pool: string, poolField: PoolField)
    | DiscountCell(address: string)

  ghost function Read(t: Tables, cell: Cell): Option<string> {
    match cell
    case GlobalCell(field) =>
      if t.global.None? then None
      else (match field
        case DefaultFeeCap => t.global.value.defaultFeeCap
        case DefaultScalingFactor => t.global.value.defaultScalingFactor
        case SecondsAgo => t.global.value.secondsAgo
        case DefaultUnstakedFee => t.global.value.defaultUnstakedFee
        case SwapFeeModule => t.global.value.swapFeeModule)
    case PoolCell(pool, field) =>
      if pool !in t.pools then None
      else (match field
        case BaseFee => t.pools[pool].baseFee
        case FeeCap => t.pools[pool].feeCap
        case ScalingFactor => t.pools[pool].scalingFactor)
    case DiscountCell(address) => if address in t.discounts then Some(t.discounts[address]) else None
  }

  /** What an event says about a cell; a reset speaks of the cap and the scaling factor only. */
  ghost function Writes(e: Event, cell: Cell): Change {
    match e
    case GlobalSet(field, wire) => if cell == GlobalCell(field) then Set(Some(wire)) else Keep
    case FeeCapSet(pool, wire) => if cell == PoolCell(pool, FeeCap) then Set(Some(wire)) else Keep
    case ScalingFactorSet(pool, wire) => if cell == PoolCell(pool, ScalingFactor) then Set(Some(wire)) else Keep
    case CustomFeeSet(pool, wire) => if cell == PoolCell(pool, BaseFee) then Set(Some(wire)) else Keep
    case DynamicFeeReset(pool) =>
      if cell == PoolCell(pool, FeeCap) || cell == PoolCell(pool, ScalingFactor) then Set(None) else Keep
    case DiscountedRegistered(address, wire) => if cell == DiscountCell(address) then Set(Some(wire)) else Keep
    case DiscountedDeregistered(address) => if cell == DiscountCell(address) then Set(None) else Keep
  }

  lemma ReadAfter(t: Tables, e: Event, cell: Cell)
    ensures Read(Apply(t, e), cell) == Writes(e, cell).On(Read(t, cell))
  {
  }

  /** The last change a log makes to a cell. */
  ghost function LastWrite(log: seq<Event>, cell: Cell): Change {
    if log == [] then Keep
    else
      var last := Writes(log[|log| - 1], cell);
      if last.Set? then last else LastWrite(log[..|log| - 1], cell)
  }

  /** Every exposed value is the one its last writer gave it. */
  lemma {:induction false} LastWriterWins(t: Tables, log: seq<Event>, cell: Cell)
    ensures Read(Fold(Apply, t, log), cell) == LastWrite(log, cell).On(Read(t, cell))
  {
    if log != [] {
      var rest := log[..|log| - 1];
      LastWriterWins(t, rest, cell);
      ReadAfter(Fold(Apply, t, rest), log[|log| - 1], cell);
    }
  }

  // ---- Replays ----------------------------------------------------------------------------

  /** Which rows exist, and every value in them. */
  lemma SameTables(t: Tables, u: Tables)
    requires t.global.Some? == u.global.Some? && t.pools.Keys == u.pools.Keys
    requires forall cell :: Read(t, cell) == Read(u, cell)
    ensures t == u
  {
    if t.global.Some? {
      forall f ensures Read(t, GlobalCell(f)) == Read(u, GlobalCell(f)) { }
      assert Read(t, GlobalCell(DefaultFeeCap)) == Read(u, GlobalCell(DefaultFeeCap));
      assert Read(t, GlobalCell(DefaultScalingFactor)) == Read(u, GlobalCell(DefaultScalingFactor));
      assert Read(t, GlobalCell(SecondsAgo)) == Read(u, GlobalCell(SecondsAgo));
      assert Read(t, GlobalCell(DefaultUnstakedFee)) == Read(u, GlobalCell(DefaultUnstakedFee));
      assert Read(t, GlobalCell(SwapFeeModule)) == Read(u, GlobalCell(SwapFeeModule));
    }
    forall p | p in t.pools ensures p in u.pools && t.pools[p] == u.pools[p] {
      assert p in u.pools.Keys;
      assert Read(t, PoolCell(p, BaseFee)) == Read(u, PoolCell(p, BaseFee));
      assert Read(t, PoolCell(p, FeeCap)) == Read(u, PoolCell(p, FeeCap));
      assert Read(t, PoolCell(p, ScalingFactor)) == Read(u, PoolCell(p, ScalingFactor));
    }
    assert t.pools == u.pools;
    forall a
      ensures (a in t.discounts <==> a in u.discounts) && (a in t.discounts ==> t.discounts[a] == u.discounts[a]) {
      assert Read(t, DiscountCell(a)) == Read(u, DiscountCell(a));
    }
    assert t.discounts == u.discounts;
  }

  lemma RowsAfter(t: Tables, e: Event)
    ensures Apply(t, e).global.Some? <==> t.global.Some? || e.GlobalSet?
    ensures Apply(t, e).pools.Keys == t.pools.Keys
      + if e.FeeCapSet? || e.ScalingFactorSet? || e.CustomFeeSet? || e.DynamicFeeReset? then {e.pool} else {}
  {
  }

  lemma ApplyTwice(t: Tables, a: Event)
    ensures Apply(Apply(t, a), a) == Apply(t, a)
  {
    hide Apply, Read, Writes;
    var u := Apply(t, a);
    RowsAfter(t, a);
    RowsAfter(u, a);
    forall cell ensures Read(Apply(u, a), cell) == Read(u, cell) {
      ReadAfter(t, a, cell);
      ReadAfter(u, a, cell);
    }
    SameTables(Apply(u, a), u);
  }

  lemma ApplyAround(t: Tables, a: Event, b: Event)
    ensures Apply(Apply(Apply(t, a), b), a) == Apply(Apply(t, b), a)
  {
    hide Apply, Read, Writes;
    var u, v := Apply(Apply(t, a), b), Apply(t, b);
    RowsAfter(t, a);
    RowsAfter(Apply(t, a), b);
    RowsAfter(u, a);
    RowsAfter(t, b);
    RowsAfter(v, a);
    forall cell ensures Read(Apply(u, a), cell) == Read(Apply(v, a), cell) {
      ReadAfter(t, a, cell);
      ReadAfter(Apply(t, a), b, cell);
      ReadAfter(u, a, cell);
      ReadAfter(t, b, cell);
      ReadAfter(v, a, cell);
    }
    SameTables(Apply(u, a), Apply(v, a));
  }

  /** Replaying the fee log, or any suffix of it, on the finished tables changes nothing. */
  lemma ReplayFees(t: Tables, log: seq<Event>, from: nat)
    requires from <= |log|
    ensures Fold(Apply, Fold(Apply, t, log), log[from..]) == Fold(Apply, t, log)
  {
    hide Apply;
    forall s, a | a in log ensures Apply(Apply(s, a), a) == Apply(s, a) {
      ApplyTwice(s, a);
    }
    forall s, a, b | a in log && b in log ensures Apply(Apply(Apply(s, a), b), a) == Apply(Apply(s, b), a) {
      ApplyAround(s, a, b);
    }
    ReplaySuffix(Apply, t, log, from);
  }

  // ---- The read model ---------------------------------------------------------------------

  datatype SenderDiscount = SenderDiscount(address: string, discountWire: Option<string>, discountBps: Option<int>)

  datatype ReadModel = ReadModel(poolId: string, globals: GlobalRow, curve: PoolRow, sender: Option<SenderDiscount>)

  /** Wire integer to basis points; `parse` stands for `parseWireBigInt`. */
  function FeeWireToBps(parse: string -> int, wire: string): int {
    var v := parse(wire);
    if v >= 0 then v / 100 else -((-v) / 100)
  }

  function GetClReadModel(t: Tables, parse: string -> int, pool: string, sender: Option<string>): ReadModel {
    var globals := if t.global.Some? then t.global.value else GlobalRow(None, None, None, None, None);
    var curve := if pool in t.pools then t.pools[pool] else PoolRow(None, None, None);
    ReadModel(pool, globals, curve,
      if sender.None? || sender.value == "" then None
      else
        var wire := if sender.value in t.discounts then Some(t.discounts[sender.value]) else None;
        Some(SenderDiscount(sender.value, wire, if wire.Some? then Some(FeeWireToBps(parse, wire.value)) else None)))
  }

  // What each column was last set to, over a log: the specification of the whole read model.

  ghost function LastGlobal(log: seq<Event>, field: GlobalField): Option<string> {
    if log == [] then None
    else
      var e := log[|log| - 1];
      if e.GlobalSet? && e.field == field then Some(e.wire) else LastGlobal(log[..|log| - 1], field)
  }

  ghost function LastBaseFee(log: seq<Event>, pool: string): Option<string> {
    if log == [] then None
    else
      var e := log[|log| - 1];
      if e.CustomFeeSet? && e.pool == pool then Some(e.wire) else LastBaseFee(log[..|log| - 1], pool)
  }

  /** A reset takes the cap back, and the scaling factor, but not the base fee. */
  ghost function LastFeeCap(log: seq<Event>, pool: string): Option<string> {
    if log == [] then None
    else
      var e := log[|log| - 1];
      if e.FeeCapSet? && e.pool == pool then Some(e.wire)
      else if e.DynamicFeeReset? && e.pool == pool then None
      else LastFeeCap(log[..|log| - 1], pool)
  }

  ghost function LastScalingFactor(log: seq<Event>, pool: string): Option<string> {
    if log == [] then None
    else
      var e := log[|log| - 1];
      if e.ScalingFactorSet? && e.pool == pool then Some(e.wire)
      else if e.DynamicFeeReset? && e.pool == pool then None
      else LastScalingFactor(log[..|log| - 1], pool)
  }

  ghost function LastDiscount(log: seq<Event>, address: string): Option<string> {
    if log == [] then None
    else
      var e := log[|log| - 1];
      if e.DiscountedRegistered? && e.address == address then Some(e.wire)
      else if e.DiscountedDeregistered? && e.address == address then None
      else LastDiscount(log[..|log| - 1], address)
  }

  lemma {:induction false} LastWrites(log: seq<Event>, cell: Cell)
    ensures LastWrite(log, cell).On(None) ==
      match cell
      case GlobalCell(field) => LastGlobal(log, field)
      case PoolCell(pool, BaseFee) => LastBaseFee(log, pool)
      case PoolCell(pool, FeeCap) => LastFeeCap(log, pool)
      case PoolCell(pool, ScalingFactor) => LastScalingFactor(log, pool)
      case DiscountCell(address) => LastDiscount(log, address)
  {
    if log != [] {
      LastWrites(log[..|log| - 1], cell);
    }
  }

  /** Whole hundreds of the wire integer, towards zero. */
  ghost predicate InBps(wire: int, bps: int) {
    if wire >= 0 then 100 * bps <= wire < 100 * bps + 100 else 100 * bps - 100 < wire <= 100 * bps
  }

  /**
   * After any log, the read model serves what every column was last set to; and the discount of
   * the sender, in basis points too, if one is named.
   */
  lemma ReadModelServesLastWrites(log: seq<Event>, parse: string -> int, pool: string, sender: Option<string>)
    ensures var m := GetClReadModel(Fold(Apply, Tables(None, map[], map[]), log), parse, pool, sender);
      && m.poolId == pool
      && m.globals.defaultFeeCap == LastGlobal(log, DefaultFeeCap)
      && m.globals.defaultScalingFactor == LastGlobal(log, DefaultScalingFactor)
      && m.globals.secondsAgo == LastGlobal(log, SecondsAgo)
      && m.globals.defaultUnstakedFee == LastGlobal(log, DefaultUnstakedFee)
      && m.globals.swapFeeModule == LastGlobal(log, SwapFeeModule)
      && m.curve.baseFee == LastBaseFee(log, pool)
      && m.curve.feeCap == LastFeeCap(log, pool)
      && m.curve.scalingFactor == LastScalingFactor(log, pool)
      && (m.sender.None? <==> sender.None? || sender == Some(""))
      && (m.sender.Some? ==>
            var s, wire := m.sender.value, LastDiscount(log, sender.value);
            && s.address == sender.value && s.discountWire == wire
            && (s.discountBps.Some? <==> wire.Some?)
            && (wire.Some? ==> InBps(parse(wire.value), s.discountBps.value)))
  {
    hide Apply, LastWrite, Read, LastGlobal, LastBaseFee, LastFeeCap, LastScalingFactor, LastDiscount, FeeWireToBps,
      InBps;
    var empty := Tables(None, map[], map[]);
    forall cell ensures Read(Fold(Apply, empty, log), cell) == LastWrite(log, cell).On(None) {
      LastWriterWins(empty, log, cell);
      NothingRead(cell);
    }
    ReadModelReads(Fold(Apply, empty, log), parse, pool, sender);
    LastWrites(log, GlobalCell(DefaultFeeCap));
    LastWrites(log, GlobalCell(DefaultScalingFactor));
    LastWrites(log, GlobalCell(SecondsAgo));
    LastWrites(log, GlobalCell(DefaultUnstakedFee));
    LastWrites(log, GlobalCell(SwapFeeModule));
    LastWrites(log, PoolCell(pool, BaseFee));
    LastWrites(log, PoolCell(pool, FeeCap));
    LastWrites(log, PoolCell(pool, ScalingFactor));
    if sender.Some? {
      LastWrites(log, DiscountCell(sender.value));
    }
  }

  lemma NothingRead(cell: Cell)
    ensures Read(Tables(None, map[], map[]), cell) == None
  {
  }

  lemma ReadModelReads(t: Tables, parse: string -> int, pool: string, sender: Option<string>)
    ensures var m := GetClReadModel(t, parse, pool, sender);
      && m.poolId == pool
      && m.globals == GlobalRow(Read(t, GlobalCell(DefaultFeeCap)), Read(t, GlobalCell(DefaultScalingFactor)),
                                Read(t, GlobalCell(SecondsAgo)), Read(t, GlobalCell(DefaultUnstakedFee)),
                                Read(t, GlobalCell(SwapFeeModule)))
      && m.curve
        == PoolRow(Read(t, PoolCell(pool, BaseFee)), Read(t, PoolCell(pool, FeeCap)),
                   Read(t, PoolCell(pool, ScalingFactor)))
      && (m.sender.None? <==> sender.None? || sender == Some(""))
      && (m.sender.Some? ==>
            var s, wire := m.sender.value, Read(t, DiscountCell(sender.value));
            && s.address == sender.value && s.discountWire == wire
            && (s.discountBps.Some? <==> wire.Some?)
            && (wire.Some? ==> InBps(parse(wire.value), s.discountBps.value)))
  {
  }
}
