/** Exchange-wide bucket rollups, apps/broker/src/exchange/exchange-rollup.service.ts. */
module ExchangeRollup {
  import opened Results
  import opened Totals

  /** The three streams, in the order they are bumped. */
  datatype Resolution = Day | Week | Month

  const ROLLUP_RESOLUTIONS: seq<Resolution> := [Day, Week, Month]

  /** `alignBucketStart`: the start of the bucket that a time falls into. */
  type Aligner = (int, Resolution) -> int

  function StreamIndex(res: Resolution): int {
    match res
    case Day => 3
    case Week => 4
    case Month => 5
  }

  datatype Key = Key(index: int, protocolId: string, timestamp: int)

  datatype Row = Row(totalVolume: real, totalFeesUsd: real, tvl: real, totalGlobalTrades: real, totalGlobalPairs: real)

  const EMPTY_ROW := Row(0.0, 0.0, 0.0, 0.0, 0.0)

  type Buckets = map<Key, Row>

  /** A number that may be missing or not finite. */
  type Num = Option<real>

  datatype Event =
    | Swap(protocolId: string, blockTs: int, volumeUsd: Num, feeUsd: Num)
    | Liquidity(protocolId: string, blockTs: int, tvlUsdDelta: Num)
    | NewPair(protocolId: string, blockTs: int)
    | WallClock(protocolId: string, blockTs: int)

  /** `Number.isFinite(x) ? Math.max(0, x) : 0`. */
  function Clamped(x: Num): real {
    if x.Some? && x.value > 0.0 then x.value else 0.0
  }

  function Add(row: Row, d: Row): Row {
    Row(row.totalVolume + d.totalVolume, row.totalFeesUsd + d.totalFeesUsd, row.tvl + d.tvl,
        row.totalGlobalTrades + d.totalGlobalTrades, row.totalGlobalPairs + d.totalGlobalPairs)
  }

  /** What an event adds to its bucket in one stream; counts go to the day stream alone. */
  function Delta(e: Event, res: Resolution): Row {
    match e
    case Swap(_, _, volume, fee) => Row(Clamped(volume), Clamped(fee), 0.0, if res == Day then 1.0 else 0.0, 0.0)
    case Liquidity(_, _, d) => Row(0.0, 0.0, Clamped(d), 0.0, 0.0)
    case NewPair(_, _) => Row(0.0, 0.0, 0.0, 0.0, if res == Day then 1.0 else 0.0)
    case WallClock(_, _) => EMPTY_ROW
  }

  /** Liquidity without value is not recorded at all. */
  predicate Recorded(e: Event) {
    e.Liquidity? ==> Clamped(e.tvlUsdDelta) != 0.0
  }

  function RowAt(m: Buckets, key: Key): Row {
    if key in m then m[key] else EMPTY_ROW
  }

  function KeyFor(align: Aligner, e: Event, res: Resolution): Key {
    Key(StreamIndex(res), e.protocolId, align(e.blockTs, res))
  }

  /** One bucket found or created, and bumped. */
  function Bumped(m: Buckets, key: Key, d: Row): Buckets {
    m[key := Add(RowAt(m, key), d)]
  }

  function ApplyTo(align: Aligner, m: Buckets, e: Event, n: nat): Buckets
    requires n <= 3
  {
    if n == 0 then m
    else
      var res := ROLLUP_RESOLUTIONS[n - 1];
      Bumped(ApplyTo(align, m, e, n - 1), KeyFor(align, e, res), Delta(e, res))
  }

  function Apply(align: Aligner, m: Buckets, e: Event): Buckets {
    if Recorded(e) then ApplyTo(align, m, e, 3) else m
  }

  ghost function Run(align: Aligner, log: seq<Event>): Buckets {
    if log == [] then map[] else Apply(align, Run(align, log[..|log| - 1]), log[|log| - 1])
  }

  /**
   * One bump of a call: its bucket and delta, the buckets when the row was found, and the buckets
   * it met when the row was saved. Other calls may save in between.
   */
  datatype Visit = Visit(key: Key, delta: Row, found: Buckets, met: Buckets)

  /** A save writes the found row with the delta added, whatever stands there now. */
  function After(v: Visit): Buckets {
    v.met[v.key := Add(RowAt(v.found, v.key), v.delta)]
  }

  /** The first `n` bumps of a call for an event, stream by stream. */
  ghost predicate Visited(align: Aligner, e: Event, visits: seq<Visit>, n: nat) {
    && |visits| == n <= 3
    && forall k :: 0 <= k < n ==>
      && visits[k].key == KeyFor(align, e, ROLLUP_RESOLUTIONS[k]) && visits[k].delta == Delta(e, ROLLUP_RESOLUTIONS[k])
  }

  ghost predicate IsCall(align: Aligner, e: Event, visits: seq<Visit>) {
    Visited(align, e, visits, if Recorded(e) then 3 else 0)
  }

  lemma VisitedNext(align: Aligner, e: Event, visits: seq<Visit>, visit: Visit, n: nat)
    requires Visited(align, e, visits, n) && n < 3
    requires visit.key == KeyFor(align, e, ROLLUP_RESOLUTIONS[n]) && visit.delta == Delta(e, ROLLUP_RESOLUTIONS[n])
    ensures Visited(align, e, visits + [visit], n + 1)
  {
    hide KeyFor, Delta;
  }

  lemma NothingVisited(align: Aligner, e: Event)
    ensures Visited(align, e, [], 0)
  {
  }

  /**
   * Three bumps, of the bucket of the time in the third, fourth and fifth of the stored streams:
   * the first stream by one row, the others by another.
   */
  ghost predicate Bumps(align: Aligner, visits: seq<Visit>, protocolId: string, time: int, first: Row, rest: Row) {
    && |visits| == 3
    && visits[0].key == Key(3, protocolId, align(time, Day)) && visits[0].delta == first
    && visits[1].key == Key(4, protocolId, align(time, Week)) && visits[1].delta == rest
    && visits[2].key == Key(5, protocolId, align(time, Month)) && visits[2].delta == rest
  }

  lemma CallBumps(align: Aligner, e: Event, visits: seq<Visit>)
    requires Visited(align, e, visits, 3)
    ensures Bumps(align, visits, e.protocolId, e.blockTs, Delta(e, Day), Delta(e, Week))
  {
    assert visits[0].key == KeyFor(align, e, ROLLUP_RESOLUTIONS[0]);
    assert visits[1].key == KeyFor(align, e, ROLLUP_RESOLUTIONS[1]);
    assert visits[2].key == KeyFor(align, e, ROLLUP_RESOLUTIONS[2]);
  }

  /** Nothing else was saved from before the call to its end. */
  ghost predicate Undisturbed(m: Buckets, visits: seq<Visit>) {
    && (forall v :: v in visits ==> v.met == v.found)
    && (visits != [] ==> visits[0].found == m)
    && (forall n :: 0 < n < |visits| ==> visits[n].found == After(visits[n - 1]))
  }

  /** The service, on storage that does not fail. */
  class ExchangeRollupService {
    const align: Aligner
    var buckets: Buckets

    constructor (align: Aligner)
      ensures this.align == align && buckets == map[]
    {
      this.align := align;
      buckets := map[];
    }

    /** While a call awaits the storage, other calls may save whatever they like. */
    method Await()
      modifies this`buckets
    {
      buckets := *;
    }

    /** Columns with a zero delta are left alone. */
    method MoveColumns(found: Row, d: Row) returns (row: Row)
      ensures row == Add(found, d)
    {
      row := found;
      if d.totalVolume != 0.0 { row := row.(totalVolume := row.totalVolume + d.totalVolume); }
      if d.totalFeesUsd != 0.0 { row := row.(totalFeesUsd := row.totalFeesUsd + d.totalFeesUsd); }
      if d.tvl != 0.0 { row := row.(tvl := row.tvl + d.tvl); }
      if d.totalGlobalTrades != 0.0 { row := row.(totalGlobalTrades := row.totalGlobalTrades + d.totalGlobalTrades); }
      if d.totalGlobalPairs != 0.0 { row := row.(totalGlobalPairs := row.totalGlobalPairs + d.totalGlobalPairs); }
    }

    /** The row is saved whether or not a column moved. */
    method BumpBucket(key: Key, d: Row) returns (ghost visit: Visit)
      modifies this`buckets
      ensures visit.key == key && visit.delta == d && buckets == After(visit)
      ensures buckets == visit.met[key := buckets[key]]
      ensures forall c ::
        Get(buckets[key], c) == (if key in visit.found then Get(visit.found[key], c) else 0.0) + Get(d, c)
    {
      hide Get, Add;
      Await();
      ghost var found := buckets;
      var row := MoveColumns(if key in buckets then buckets[key] else EMPTY_ROW, d);
      Await();
      AddedColumns(found, key, d);
      visit := Visit(key, d, found, buckets);
      buckets := buckets[key := row];
    }

    method RecordSwapVolumeAndTrade(protocolId: string, blockTs: int, volumeUsd: Num, feeUsd: Num)
      returns (ghost visits: seq<Visit>)
      modifies this`buckets
      ensures IsCall(align, Swap(protocolId, blockTs, volumeUsd, feeUsd), visits)
      ensures var v, f := if volumeUsd.Some? && volumeUsd.value > 0.0 then volumeUsd.value else 0.0,
                          if feeUsd.Some? && feeUsd.value > 0.0 then feeUsd.value else 0.0;
        Bumps(align, visits, protocolId, blockTs, Row(v, f, 0.0, 1.0, 0.0), Row(v, f, 0.0, 0.0, 0.0))
      ensures buckets == After(visits[2])
      ensures Undisturbed(old(buckets), visits)
        ==> buckets == Apply(align, old(buckets), Swap(protocolId, blockTs, volumeUsd, feeUsd))
    {
      hide After, Visited, Undisturbed, Apply, Bumps;
      ghost var e := Swap(protocolId, blockTs, volumeUsd, feeUsd);
      visits := [];
      NothingVisited(align, e);
      var vol := if volumeUsd.Some? && volumeUsd.value > 0.0 then volumeUsd.value else 0.0;
      var fee := if feeUsd.Some? && feeUsd.value > 0.0 then feeUsd.value else 0.0;
      for n := 0 to 3
        invariant Visited(align, e, visits, n) && |visits| == n && (n > 0 ==> buckets == After(visits[n - 1]))
      {
        var res := ROLLUP_RESOLUTIONS[n];
        ghost var visit := BumpBucket(Key(StreamIndex(res), protocolId, align(blockTs, res)),
                                      Row(vol, fee, 0.0, if res == Day then 1.0 else 0.0, 0.0));
        VisitedNext(align, e, visits, visit, n);
        visits := visits + [visit];
      }
      CallBumps(align, e, visits);
      if Undisturbed(old(buckets), visits) {
        UndisturbedCall(align, old(buckets), e, visits);
      }
    }

    method RecordLiquidityTvlUsd(protocolId: string, blockTs: int, tvlUsdDelta: Num)
      returns (ghost visits: seq<Visit>)
      modifies this`buckets
      ensures IsCall(align, Liquidity(protocolId, blockTs, tvlUsdDelta), visits)
      ensures if tvlUsdDelta.None? || tvlUsdDelta.value <= 0.0 then visits == [] && buckets == old(buckets)
              else
                var d := Row(0.0, 0.0, tvlUsdDelta.value, 0.0, 0.0);
                Bumps(align, visits, protocolId, blockTs, d, d) && buckets == After(visits[2])
      ensures Undisturbed(old(buckets), visits)
        ==> buckets == Apply(align, old(buckets), Liquidity(protocolId, blockTs, tvlUsdDelta))
    {
      hide After, Visited, Undisturbed, Apply, Bumps;
      ghost var e := Liquidity(protocolId, blockTs, tvlUsdDelta);
      visits := [];
      NothingVisited(align, e);
      var d := if tvlUsdDelta.Some? && tvlUsdDelta.value > 0.0 then tvlUsdDelta.value else 0.0;
      if d == 0.0 {
        NothingRecorded(align, buckets, e, Day, Volume);
        return;
      }
      for n := 0 to 3
        invariant Visited(align, e, visits, n) && |visits| == n && (n > 0 ==> buckets == After(visits[n - 1]))
      {
        var res := ROLLUP_RESOLUTIONS[n];
        ghost var visit := BumpBucket(Key(StreamIndex(res), protocolId, align(blockTs, res)),
                                      Row(0.0, 0.0, d, 0.0, 0.0));
        VisitedNext(align, e, visits, visit, n);
        visits := visits + [visit];
      }
      CallBumps(align, e, visits);
      if Undisturbed(old(buckets), visits) {
        UndisturbedCall(align, old(buckets), e, visits);
      }
    }

    method RecordNewPair(protocolId: string, blockTs: int) returns (ghost visits: seq<Visit>)
      modifies this`buckets
      ensures IsCall(align, NewPair(protocolId, blockTs), visits)
      ensures Bumps(align, visits, protocolId, blockTs, Row(0.0, 0.0, 0.0, 0.0, 1.0), Row(0.0, 0.0, 0.0, 0.0, 0.0))
      ensures buckets == After(visits[2])
      ensures Undisturbed(old(buckets), visits) ==> buckets == Apply(align, old(buckets), NewPair(protocolId, blockTs))
    {
      hide After, Visited, Undisturbed, Apply, Bumps;
      ghost var e := NewPair(protocolId, blockTs);
      visits := [];
      NothingVisited(align, e);
      for n := 0 to 3
        invariant Visited(align, e, visits, n) && |visits| == n && (n > 0 ==> buckets == After(visits[n - 1]))
      {
        var res := ROLLUP_RESOLUTIONS[n];
        ghost var visit := BumpBucket(Key(StreamIndex(res), protocolId, align(blockTs, res)),
                                      Row(0.0, 0.0, 0.0, 0.0, if res == Day then 1.0 else 0.0));
        VisitedNext(align, e, visits, visit, n);
        visits := visits + [visit];
      }
      CallBumps(align, e, visits);
      if Undisturbed(old(buckets), visits) {
        UndisturbedCall(align, old(buckets), e, visits);
      }
    }

    method EnsureWallClockBuckets(protocolId: string, nowSec: int) returns (ghost visits: seq<Visit>)
      modifies this`buckets
      ensures IsCall(align, WallClock(protocolId, nowSec), visits)
      ensures Bumps(align, visits, protocolId, nowSec, Row(0.0, 0.0, 0.0, 0.0, 0.0), Row(0.0, 0.0, 0.0, 0.0, 0.0))
      ensures buckets == After(visits[2])
      ensures Undisturbed(old(buckets), visits) ==> buckets == Apply(align, old(buckets), WallClock(protocolId, nowSec))
    {
      hide After, Visited, Undisturbed, Apply, Bumps;
      ghost var e := WallClock(protocolId, nowSec);
      visits := [];
      NothingVisited(align, e);
      for n := 0 to 3
        invariant Visited(align, e, visits, n) && |visits| == n && (n > 0 ==> buckets == After(visits[n - 1]))
      {
        var res := ROLLUP_RESOLUTIONS[n];
        ghost var visit := BumpBucket(Key(StreamIndex(res), protocolId, align(nowSec, res)), EMPTY_ROW);
        VisitedNext(align, e, visits, visit, n);
        visits := visits + [visit];
      }
      CallBumps(align, e, visits);
      if Undisturbed(old(buckets), visits) {
        UndisturbedCall(align, old(buckets), e, visits);
      }
    }
  }

  /** A call that nothing disturbs is one event applied. */
  lemma UndisturbedCall(align: Aligner, m: Buckets, e: Event, visits: seq<Visit>)
    requires IsCall(align, e, visits) && Undisturbed(m, visits)
    ensures (if visits == [] then m else After(visits[2])) == Apply(align, m, e)
  {
    hide KeyFor, Delta, Add, RowAt;
    if Recorded(e) {
      ThreeBumps(align, m, e);
      assert visits[0].met == visits[0].found == m && visits[0].key == KeyFor(align, e, ROLLUP_RESOLUTIONS[0]);
      assert visits[1].found == After(visits[0]) && visits[1].key == KeyFor(align, e, ROLLUP_RESOLUTIONS[1]);
      assert visits[2].found == After(visits[1]) && visits[2].key == KeyFor(align, e, ROLLUP_RESOLUTIONS[2]);
      assert After(visits[0]) == Bumped(m, KeyFor(align, e, Day), Delta(e, Day));
      assert After(visits[1]) == Bumped(After(visits[0]), KeyFor(align, e, Week), Delta(e, Week));
    }
  }

  // ---- Buckets ----------------------------------------------------------------------------

  datatype Column = Volume | Fees | Tvl | Trades | Pairs

  ghost function Get(row: Row, c: Column): real {
    match c
    case Volume => row.totalVolume
    case Fees => row.totalFeesUsd
    case Tvl => row.tvl
    case Trades => row.totalGlobalTrades
    case Pairs => row.totalGlobalPairs
  }

  /** What is missing, not finite or negative counts as nothing. */
  ghost function Positive(x: Num): real {
    if x.Some? && x.value > 0.0 then x.value else 0.0
  }

  /** What an event adds to one column of a stream. */
  ghost function Adds(e: Event, res: Resolution, c: Column): real {
    match c
    case Volume => if e.Swap? then Positive(e.volumeUsd) else 0.0
    case Fees => if e.Swap? then Positive(e.feeUsd) else 0.0
    case Tvl => if e.Liquidity? then Positive(e.tvlUsdDelta) else 0.0
    case Trades => if e.Swap? && res == Day then 1.0 else 0.0
    case Pairs => if e.NewPair? && res == Day then 1.0 else 0.0
  }

  lemma DeltaAdds(e: Event, res: Resolution, c: Column)
    ensures Get(Delta(e, res), c) == Adds(e, res, c)
  {
  }

  /** What an event adds to one bucket of a stream: something only if it aligns to it. */
  ghost function Contribution(align: Aligner, e: Event, res: Resolution, key: Key, c: Column): real {
    if key.protocolId == e.protocolId && key.timestamp == align(e.blockTs, res) then Adds(e, res, c) else 0.0
  }

  ghost function SumFor(align: Aligner, log: seq<Event>, res: Resolution, key: Key, c: Column): real {
    if log == [] then 0.0
    else SumFor(align, log[..|log| - 1], res, key, c) + Contribution(align, log[|log| - 1], res, key, c)
  }

  lemma NothingRecorded(align: Aligner, m: Buckets, e: Event, res: Resolution, c: Column)
    requires !Recorded(e)
    ensures Apply(align, m, e) == m && Adds(e, res, c) == 0.0
  {
  }

  lemma ThreeBumps(align: Aligner, m: Buckets, e: Event)
    requires Recorded(e)
    ensures Apply(align, m, e) ==
      Bumped(Bumped(Bumped(m, KeyFor(align, e, Day), Delta(e, Day)), KeyFor(align, e, Week), Delta(e, Week)),
             KeyFor(align, e, Month), Delta(e, Month))
  {
    hide Bumped, KeyFor, Delta;
    assert ApplyTo(align, m, e, 1) == Bumped(m, KeyFor(align, e, Day), Delta(e, Day));
    assert ApplyTo(align, m, e, 2) == Bumped(ApplyTo(align, m, e, 1), KeyFor(align, e, Week), Delta(e, Week));
    assert ApplyTo(align, m, e, 3) == Bumped(ApplyTo(align, m, e, 2), KeyFor(align, e, Month), Delta(e, Month));
  }

  lemma AddedColumns(m: Buckets, key: Key, d: Row)
    ensures forall c ::
      Get(Add(RowAt(m, key), d), c) == (if key in m then Get(m[key], c) else 0.0) + Get(d, c)
  {
  }

  lemma BumpedBucket(m: Buckets, at: Key, d: Row, key: Key, c: Column)
    ensures Get(RowAt(Bumped(m, at, d), key), c) == Get(RowAt(m, key), c) + if at == key then Get(d, c) else 0.0
  {
  }

  lemma ApplyBucket(align: Aligner, m: Buckets, e: Event, res: Resolution, key: Key, c: Column)
    requires key.index == StreamIndex(res)
    ensures Get(RowAt(Apply(align, m, e), key), c) == Get(RowAt(m, key), c) + Contribution(align, e, res, key, c)
  {
    hide Bumped, Delta, Get, RowAt, Apply, Recorded, Adds;
    if !Recorded(e) {
      NothingRecorded(align, m, e, res, c);
    } else {
      DeltaAdds(e, res, c);
      ThreeBumps(align, m, e);
      var m1 := Bumped(m, KeyFor(align, e, Day), Delta(e, Day));
      var m2 := Bumped(m1, KeyFor(align, e, Week), Delta(e, Week));
      BumpedBucket(m, KeyFor(align, e, Day), Delta(e, Day), key, c);
      BumpedBucket(m1, KeyFor(align, e, Week), Delta(e, Week), key, c);
      BumpedBucket(m2, KeyFor(align, e, Month), Delta(e, Month), key, c);
    }
  }

  /** The wall clock makes sure the buckets exist, and changes nothing in any. */
  lemma WallClockAddsNothing(align: Aligner, m: Buckets, protocolId: string, nowSec: int, key: Key)
    ensures var e := WallClock(protocolId, nowSec);
      var after := Apply(align, m, e);
      && RowAt(after, key) == RowAt(m, key)
      && (key in after <==> key in m || key in [KeyFor(align, e, Day), KeyFor(align, e, Week), KeyFor(align, e, Month)])
  {
    hide KeyFor, Bumped, RowAt, Apply;
    var e := WallClock(protocolId, nowSec);
    ThreeBumps(align, m, e);
    var m1 := Bumped(m, KeyFor(align, e, Day), EMPTY_ROW);
    var m2 := Bumped(m1, KeyFor(align, e, Week), EMPTY_ROW);
    BumpedByNothing(m, KeyFor(align, e, Day), key);
    BumpedByNothing(m1, KeyFor(align, e, Week), key);
    BumpedByNothing(m2, KeyFor(align, e, Month), key);
  }

  lemma BumpedByNothing(m: Buckets, at: Key, key: Key)
    ensures var after := Bumped(m, at, EMPTY_ROW);
      RowAt(after, key) == RowAt(m, key) && (key in after <==> key in m || key == at)
  {
  }

  /** Every column of every bucket is the sum over the events aligned to it. */
  lemma {:induction false} BucketIsSumOfItsEvents(align: Aligner, log: seq<Event>, res: Resolution, key: Key, c: Column)
    requires key.index == StreamIndex(res)
    ensures Get(RowAt(Run(align, log), key), c) == SumFor(align, log, res, key, c)
  {
    hide Apply;
    if log != [] {
      var rest := log[..|log| - 1];
      BucketIsSumOfItsEvents(align, rest, res, key, c);
      ApplyBucket(align, Run(align, rest), log[|log| - 1], res, key, c);
    }
  }

  // ---- Streams ----------------------------------------------------------------------------

  /** The buckets of one stream of one protocol. */
  ghost function Stream(m: Buckets, res: Resolution, protocolId: string): Buckets {
    map k | k in m && k.index == StreamIndex(res) && k.protocolId == protocolId :: m[k]
  }

  ghost function Selector(c: Column): Row -> real {
    (row: Row) => Get(row, c)
  }

  ghost function StreamTotal(m: Buckets, res: Resolution, protocolId: string, c: Column): real {
    Total(Stream(m, res, protocolId), Selector(c))
  }

  ghost function SumOf(log: seq<Event>, res: Resolution, protocolId: string, c: Column): real {
    if log == [] then 0.0
    else
      var e := log[|log| - 1];
      SumOf(log[..|log| - 1], res, protocolId, c) + (if e.protocolId == protocolId then Adds(e, res, c) else 0.0)
  }

  lemma BumpedStream(m: Buckets, at: Key, d: Row, res: Resolution, protocolId: string, c: Column)
    ensures StreamTotal(Bumped(m, at, d), res, protocolId, c) == StreamTotal(m, res, protocolId, c)
      + if at.index == StreamIndex(res) && at.protocolId == protocolId then Get(d, c) else 0.0
  {
    var before, after := Stream(m, res, protocolId), Stream(Bumped(m, at, d), res, protocolId);
    if at.index == StreamIndex(res) && at.protocolId == protocolId {
      assert after == before[at := Add(RowAt(m, at), d)];
      TotalSet(before, Selector(c), at, Add(RowAt(m, at), d));
      BumpedBucket(m, at, d, at, c);
    } else {
      assert after == before;
    }
  }

  lemma ApplyStream(align: Aligner, m: Buckets, e: Event, res: Resolution, protocolId: string, c: Column)
    ensures StreamTotal(Apply(align, m, e), res, protocolId, c) == StreamTotal(m, res, protocolId, c)
      + if e.protocolId == protocolId then Adds(e, res, c) else 0.0
  {
    hide Bumped, Delta, Get, StreamTotal, Apply, Recorded, Adds;
    if !Recorded(e) {
      NothingRecorded(align, m, e, res, c);
    } else {
      DeltaAdds(e, res, c);
      ThreeBumps(align, m, e);
      var m1 := Bumped(m, KeyFor(align, e, Day), Delta(e, Day));
      var m2 := Bumped(m1, KeyFor(align, e, Week), Delta(e, Week));
      BumpedStream(m, KeyFor(align, e, Day), Delta(e, Day), res, protocolId, c);
      BumpedStream(m1, KeyFor(align, e, Week), Delta(e, Week), res, protocolId, c);
      BumpedStream(m2, KeyFor(align, e, Month), Delta(e, Month), res, protocolId, c);
    }
  }

  /** Nothing is lost or counted twice: a stream adds up to what all events of the protocol contributed. */
  lemma {:induction false} StreamIsSumOfEvents(align: Aligner, log: seq<Event>, res: Resolution, protocolId: string,
                                               c: Column)
    ensures StreamTotal(Run(align, log), res, protocolId, c) == SumOf(log, res, protocolId, c)
  {
    hide Apply, Delta;
    if log == [] {
      assert Stream(map[], res, protocolId) == map[];
    } else {
      var rest := log[..|log| - 1];
      StreamIsSumOfEvents(align, rest, res, protocolId, c);
      ApplyStream(align, Run(align, rest), log[|log| - 1], res, protocolId, c);
    }
  }

  /** Positive swap volumes, and the numbers of swaps and of new pairs, of one protocol. */
  ghost function SwapVolume(log: seq<Event>, protocolId: string): real {
    if log == [] then 0.0
    else
      var e := log[|log| - 1];
      SwapVolume(log[..|log| - 1], protocolId)
        + (if e.Swap? && e.protocolId == protocolId then Positive(e.volumeUsd) else 0.0)
  }

  ghost function SwapCount(log: seq<Event>, protocolId: string): nat {
    |Swaps(log, protocolId)|
  }

  ghost function Swaps(log: seq<Event>, protocolId: string): seq<Event> {
    if log == [] then []
    else
      var e := log[|log| - 1];
      Swaps(log[..|log| - 1], protocolId) + (if e.Swap? && e.protocolId == protocolId then [e] else [])
  }

  ghost function NewPairs(log: seq<Event>, protocolId: string): seq<Event> {
    if log == [] then []
    else
      var e := log[|log| - 1];
      NewPairs(log[..|log| - 1], protocolId) + (if e.NewPair? && e.protocolId == protocolId then [e] else [])
  }

  lemma {:induction false} SumsOfEvents(log: seq<Event>, res: Resolution, protocolId: string)
    ensures SumOf(log, res, protocolId, Volume) == SwapVolume(log, protocolId)
    ensures SumOf(log, res, protocolId, Fees) == SumOf(log, Day, protocolId, Fees)
    ensures SumOf(log, res, protocolId, Tvl) == SumOf(log, Day, protocolId, Tvl)
    ensures SumOf(log, res, protocolId, Trades) == if res == Day then SwapCount(log, protocolId) as real else 0.0
    ensures SumOf(log, res, protocolId, Pairs) == if res == Day then |NewPairs(log, protocolId)| as real else 0.0
  {
    if log != [] {
      SumsOfEvents(log[..|log| - 1], res, protocolId);
    }
  }

  /**
   * After any run, wall-clock ticks included, the day, week and month streams hold the same
   * volume, that of all swaps, and the same fees and value; the trades of the three streams
   * together are the swaps, and the pairs the new pairs.
   */
  lemma StreamsAgree(align: Aligner, log: seq<Event>, protocolId: string)
    ensures var m := Run(align, log);
      && StreamTotal(m, Day, protocolId, Volume) == SwapVolume(log, protocolId)
      && StreamTotal(m, Week, protocolId, Volume) == SwapVolume(log, protocolId)
      && StreamTotal(m, Month, protocolId, Volume) == SwapVolume(log, protocolId)
      && StreamTotal(m, Day, protocolId, Fees) == StreamTotal(m, Week, protocolId, Fees)
         == StreamTotal(m, Month, protocolId, Fees)
      && StreamTotal(m, Day, protocolId, Tvl) == StreamTotal(m, Week, protocolId, Tvl)
         == StreamTotal(m, Month, protocolId, Tvl)
      && StreamTotal(m, Day, protocolId, Trades) + StreamTotal(m, Week, protocolId, Trades)
        + StreamTotal(m, Month, protocolId, Trades)
         == SwapCount(log, protocolId) as real
      && StreamTotal(m, Day, protocolId, Pairs) + StreamTotal(m, Week, protocolId, Pairs)
        + StreamTotal(m, Month, protocolId, Pairs)
         == |NewPairs(log, protocolId)| as real
  {
    hide StreamTotal, SumOf, SwapVolume, SwapCount, NewPairs;
    forall res, c: Column ensures StreamTotal(Run(align, log), res, protocolId, c) == SumOf(log, res, protocolId, c) {
      StreamIsSumOfEvents(align, log, res, protocolId, c);
    }
    SumsOfEvents(log, Day, protocolId);
    SumsOfEvents(log, Week, protocolId);
    SumsOfEvents(log, Month, protocolId);
  }
}
