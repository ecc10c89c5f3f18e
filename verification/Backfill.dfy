/** Backfill of running totals, apps/broker/src/cli/backfill-cumulative-buckets.main.ts. */
module Backfill {

  /** A stored double: absent, NaN or infinite, or a number. */
  datatype Cell = Null | NotFinite | Num(value: real)

  datatype Row = Row(bucketIndex: int, baseVolumeUSD: Cell, quoteVolumeUSD: Cell, count: Cell,
                     totalBase: Cell, totalQuote: Cell, totalTrades: Cell, totalFees: Cell)

  /** The running totals of one stream. */
  datatype Running = Running(base: real, quote: real, trades: real, fees: real)

  const START := Running(0.0, 0.0, 0.0, 0.0)

  const EPS: real := 0.000000000001

  function NearlyEqual(a: Cell, b: real): bool {
    a.Num? && -EPS <= a.value - b <= EPS
  }

  /** `x ?? 0`. */
  function OrZero(c: Cell): Cell {
    if c.Null? then Num(0.0) else c
  }

  /** `Number.isFinite(x) ? (x ?? 0) : 0`. */
  function Amount(c: Cell): real {
    if c.Num? then c.value else 0.0
  }

  function Advance(run: Running, r: Row): Running {
    Running(run.base + Amount(r.baseVolumeUSD), run.quote + Amount(r.quoteVolumeUSD), run.trades + Amount(r.count),
            if r.totalFees.Num? && r.totalFees.value > 0.0 then r.totalFees.value else run.fees)
  }

  predicate FeesUnset(r: Row) {
    OrZero(r.totalFees) == Num(0.0)
  }

  predicate Needs(r: Row, next: Running) {
    || !NearlyEqual(OrZero(r.totalBase), next.base)
    || !NearlyEqual(OrZero(r.totalQuote), next.quote)
    || !NearlyEqual(OrZero(r.totalTrades), next.trades)
    || (FeesUnset(r) && next.fees != 0.0)
  }

  function Updated(r: Row, next: Running): Row {
    var u := r.(totalBase := Num(next.base), totalQuote := Num(next.quote), totalTrades := Num(next.trades));
    if FeesUnset(r) then u.(totalFees := Num(next.fees)) else u
  }

  /** The running totals after all rows. */
  function RunAfter(rows: seq<Row>): Running {
    if rows == [] then START else Advance(RunAfter(rows[..|rows| - 1]), rows[|rows| - 1])
  }

  /** The rows of a stream, from its first visited one, after the backfill. */
  function Filled(rows: seq<Row>): (r: seq<Row>)
    ensures |r| == |rows|
  {
    if rows == [] then []
    else
      var last, next := rows[|rows| - 1], RunAfter(rows);
      Filled(rows[..|rows| - 1]) + [if Needs(last, next) then Updated(last, next) else last]
  }

  /** How many rows the backfill writes. */
  function Writes(rows: seq<Row>): nat {
    if rows == [] then 0
    else Writes(rows[..|rows| - 1]) + (if Needs(rows[|rows| - 1], RunAfter(rows)) then 1 else 0)
  }

  // ---- The paginated loop -----------------------------------------------------------------

  ghost predicate Sorted(rows: seq<Row>) {
    forall i, j :: 0 <= i < j < |rows| ==> rows[i].bucketIndex < rows[j].bucketIndex
  }

  /** `WHERE bucketIndex > after ORDER BY bucketIndex LIMIT size`, on rows kept in index order. */
  function Page(rows: seq<Row>, after: int, size: nat): seq<Row> {
    if rows == [] then []
    else if rows[0].bucketIndex <= after then Page(rows[1..], after, size)
    else rows[..if |rows| <= size then |rows| else size]
  }

  /** Rows up to `after`, which a query from there on leaves out. */
  function Skipped(rows: seq<Row>, after: int): (n: nat)
    ensures n <= |rows|
  {
    if rows == [] || rows[0].bucketIndex > after then 0 else 1 + Skipped(rows[1..], after)
  }

  lemma {:induction false} PageIsSlice(rows: seq<Row>, after: int, size: nat)
    ensures var n := Skipped(rows, after);
      Page(rows, after, size) == rows[n..if |rows| - n <= size then |rows| else n + size]
  {
    if rows != [] && rows[0].bucketIndex <= after {
      PageIsSlice(rows[1..], after, size);
      var n := Skipped(rows, after);
      var hi := if |rows| - n <= size then |rows| else n + size;
      SliceOfRest(rows, n, hi);
    }
  }

  lemma SliceOfRest(rows: seq<Row>, lo: nat, hi: nat)
    requires 0 < lo <= hi <= |rows|
    ensures rows[1..][lo - 1..hi - 1] == rows[lo..hi]
  {
  }

  lemma {:induction false} SkippedAt(rows: seq<Row>, after: int, n: nat)
    requires Sorted(rows) && n <= |rows|
    requires forall i :: 0 <= i < n ==> rows[i].bucketIndex <= after
    requires forall i :: n <= i < |rows| ==> rows[i].bucketIndex > after
    ensures Skipped(rows, after) == n
  {
    if n > 0 {
      SkippedAt(rows[1..], after, n - 1);
    }
  }

  /** The rows with an index from 1 on. */
  function Visited(rows: seq<Row>): seq<Row> {
    rows[Skipped(rows, 0)..]
  }

  /** The whole stream after a backfill. */
  function Final(rows: seq<Row>): seq<Row> {
    rows[..Skipped(rows, 0)] + Filled(Visited(rows))
  }

  /** The bucket rows of one (pair, resolution) stream, in index order. */
  class Stream {
    var rows: seq<Row>

    constructor (rows: seq<Row>)
      ensures this.rows == rows
    {
      this.rows := rows;
    }

    method Update(ghost at: nat, r: Row, next: Running)
      requires Sorted(rows) && at < |rows| && rows[at] == r
      modifies this
      ensures rows == old(rows)[at := Updated(r, next)]
    {
      var k := 0;
      while rows[k].bucketIndex != r.bucketIndex
        invariant k <= at
        decreases at - k
      {
        k := k + 1;
      }
      rows := rows[k := Updated(r, next)];
    }

    /** Whatever the page size, every row with an index from 1 on is visited once, in order. */
    method Backfill(pageSize: nat) returns (updated: nat)
      requires pageSize > 0 && Sorted(rows)
      modifies this
      ensures rows == Final(old(rows)) && updated == Writes(Visited(old(rows)))
    {
      hide Progress, RunAfter, Writes, Filled, Skipped, Page, Needs, Updated, Advance, Sorted, Final, Visited;
      ghost var before, first := rows, Skipped(rows, 0);
      ghost var pos := first;
      var running, afterIndex := START, 0;
      updated := 0;
      ProgressStarts(before);
      while true
        invariant first <= pos <= |before|
        invariant Progress(before, rows, first, pos, running, updated, afterIndex)
        decreases |before| - pos
      {
        var page := Page(rows, afterIndex, pageSize);
        PageAtProgress(before, rows, first, pos, running, updated, afterIndex, pageSize);
        if |page| == 0 {
          break;
        }
        ghost var start := pos;
        for k := 0 to |page|
          invariant pos == start + k && start + |page| <= |before|
          invariant page == before[start..start + |page|]
          invariant Progress(before, rows, first, pos, running, updated, afterIndex)
        {
          var r := page[k];
          assert r == before[pos];
          RowAtProgress(before, rows, first, pos, running, updated, afterIndex);
          ProgressStep(before, rows, first, pos, running, updated, afterIndex);
          var next := Running(running.base + Amount(r.baseVolumeUSD), running.quote + Amount(r.quoteVolumeUSD),
                              running.trades + Amount(r.count),
                              if r.totalFees.Num? && r.totalFees.value > 0.0 then r.totalFees.value else running.fees);
          AdvanceIs(running, r);
          if Needs(r, next) {
            Update(pos, r, next);
            updated := updated + 1;
          }
          running := next;
          afterIndex := r.bucketIndex;
          pos := pos + 1;
        }
      }
      ProgressEnds(before, rows, first, running, updated, afterIndex);
    }
  }

  lemma AdvanceIs(run: Running, r: Row)
    ensures Advance(run, r) ==
      Running(run.base + Amount(r.baseVolumeUSD), run.quote + Amount(r.quoteVolumeUSD), run.trades + Amount(r.count),
              if r.totalFees.Num? && r.totalFees.value > 0.0 then r.totalFees.value else run.fees)
  {
  }

  /** The rows up to `pos` are filled, the rest are as they were. */
  ghost predicate Progress(before: seq<Row>, rows: seq<Row>, first: nat, pos: nat, running: Running, updated: nat,
                           afterIndex: int) {
    && first <= pos <= |before| && Sorted(before) && first == Skipped(before, 0)
    && rows == before[..first] + Filled(before[first..pos]) + before[pos..]
    && running == RunAfter(before[first..pos]) && updated == Writes(before[first..pos])
    && afterIndex == if pos == first then 0 else before[pos - 1].bucketIndex
  }

  lemma ProgressStarts(before: seq<Row>)
    requires Sorted(before)
    ensures var first := Skipped(before, 0); Progress(before, before, first, first, START, 0, 0)
  {
    hide Skipped;
    var first := Skipped(before, 0);
    assert before[first..first] == [];
    assert before == before[..first] + [] + before[first..];
  }

  lemma ProgressEnds(before: seq<Row>, rows: seq<Row>, first: nat, running: Running, updated: nat, afterIndex: int)
    requires Progress(before, rows, first, |before|, running, updated, afterIndex)
    ensures rows == Final(before) && updated == Writes(Visited(before))
  {
    hide Skipped, Filled, Writes, RunAfter;
    assert before[first..|before|] == before[first..];
    assert rows == before[..first] + Filled(before[first..]) + [];
  }

  lemma {:induction false} FilledKeepsIndexes(rows: seq<Row>)
    ensures forall i :: 0 <= i < |rows| ==> Filled(rows)[i].bucketIndex == rows[i].bucketIndex
  {
    if rows != [] {
      FilledKeepsIndexes(rows[..|rows| - 1]);
    }
  }

  lemma {:induction false} SkippedSplits(rows: seq<Row>, after: int)
    requires Sorted(rows)
    ensures var n := Skipped(rows, after);
      (forall i :: 0 <= i < n ==> rows[i].bucketIndex <= after)
        && (forall i :: n <= i < |rows| ==> rows[i].bucketIndex > after)
  {
    if rows != [] && rows[0].bucketIndex <= after {
      SkippedSplits(rows[1..], after);
    }
  }

  lemma RowAtProgress(before: seq<Row>, rows: seq<Row>, first: nat, pos: nat, running: Running, updated: nat,
                      afterIndex: int)
    requires Progress(before, rows, first, pos, running, updated, afterIndex)
    ensures |rows| == |before| && Sorted(rows)
    ensures forall i :: pos <= i < |rows| ==> rows[i] == before[i]
    ensures forall i :: 0 <= i < |rows| ==> rows[i].bucketIndex == before[i].bucketIndex
  {
    hide Filled, RunAfter, Writes, Skipped;
    FilledKeepsIndexes(before[first..pos]);
    forall i | 0 <= i < |rows| ensures rows[i].bucketIndex == before[i].bucketIndex {
      if first <= i < pos {
        assert rows[i] == Filled(before[first..pos])[i - first];
      }
    }
  }

  /** The next page is the next stretch of unvisited rows. */
  lemma PageAtProgress(before: seq<Row>, rows: seq<Row>, first: nat, pos: nat, running: Running, updated: nat,
                       afterIndex: int, size: nat)
    requires Progress(before, rows, first, pos, running, updated, afterIndex)
    ensures var hi := if |before| - pos <= size then |before| else pos + size;
      Page(rows, afterIndex, size) == before[pos..hi]
  {
    hide Filled, RunAfter, Writes, Skipped, Page;
    RowAtProgress(before, rows, first, pos, running, updated, afterIndex);
    SkippedSplits(before, 0);
    SkippedAt(rows, afterIndex, pos);
    PageIsSlice(rows, afterIndex, size);
    var hi := if |before| - pos <= size then |before| else pos + size;
    assert rows[pos..hi] == before[pos..hi];
  }

  lemma ProgressStep(before: seq<Row>, rows: seq<Row>, first: nat, pos: nat, running: Running, updated: nat,
                     afterIndex: int)
    requires Progress(before, rows, first, pos, running, updated, afterIndex) && pos < |before| && pos < |rows|
    ensures var r, next := before[pos], Advance(running, before[pos]);
      && Progress(before, if Needs(r, next) then rows[pos := Updated(r, next)] else rows, first, pos + 1, next,
                  updated + (if Needs(r, next) then 1 else 0), r.bucketIndex)
  {
    hide Needs, Updated, Advance, Skipped;
    var done, more := before[first..pos], before[first..pos + 1];
    assert more == done + [before[pos]] && more[..|more| - 1] == done;
    var r, next := before[pos], Advance(running, before[pos]);
    assert before[pos..] == [r] + before[pos + 1..];
    var f := if Needs(r, next) then Updated(r, next) else r;
    assert Filled(more) == Filled(done) + [f];
    assert |before[..first] + Filled(done)| == pos;
    assert (if Needs(r, next) then rows[pos := f] else rows)
        == before[..first] + (Filled(done) + [f]) + before[pos + 1..];
  }

  // ---- What the backfill leaves -----------------------------------------------------------

  /** The true prefix sum of a column, in which only numbers count. */
  ghost function PrefixSum(rows: seq<Row>, column: Row -> Cell, n: nat): real
    requires n <= |rows|
  {
    if n == 0 then 0.0
    else
      var c := column(rows[n - 1]);
      PrefixSum(rows, column, n - 1) + if c.Num? then c.value else 0.0
  }

  lemma {:induction false} RunIsPrefixSum(rows: seq<Row>, n: nat)
    requires n <= |rows|
    ensures var run := RunAfter(rows[..n]);
      && run.base == PrefixSum(rows, (r: Row) => r.baseVolumeUSD, n)
      && run.quote == PrefixSum(rows, (r: Row) => r.quoteVolumeUSD, n)
      && run.trades == PrefixSum(rows, (r: Row) => r.count, n)
      && run.fees >= 0.0
  {
    if n > 0 {
      RunIsPrefixSum(rows, n - 1);
      assert rows[..n][..n - 1] == rows[..n - 1];
    }
  }

  lemma {:induction false} FilledAt(rows: seq<Row>, i: nat)
    requires i < |rows|
    ensures var next := RunAfter(rows[..i + 1]);
      Filled(rows)[i] == if Needs(rows[i], next) then Updated(rows[i], next) else rows[i]
  {
    if i + 1 == |rows| {
      assert rows[..i + 1] == rows;
    } else {
      FilledAt(rows[..|rows| - 1], i);
      assert rows[..|rows| - 1][..i + 1] == rows[..i + 1];
    }
  }

  /** Within 10^-12, a missing number standing for zero. */
  ghost predicate Close(c: Cell, x: real) {
    !c.NotFinite? && -0.000000000001 <= (if c.Num? then c.value else 0.0) - x <= 0.000000000001
  }

  /** Every total ends up that close to the true prefix sum; the deltas are untouched. */
  lemma TotalsArePrefixSums(rows: seq<Row>, i: nat)
    requires i < |rows|
    ensures var f := Filled(rows)[i];
      && Close(f.totalBase, PrefixSum(rows, (r: Row) => r.baseVolumeUSD, i + 1))
      && Close(f.totalQuote, PrefixSum(rows, (r: Row) => r.quoteVolumeUSD, i + 1))
      && Close(f.totalTrades, PrefixSum(rows, (r: Row) => r.count, i + 1))
      && f.bucketIndex == rows[i].bucketIndex && f.baseVolumeUSD == rows[i].baseVolumeUSD
      && f.quoteVolumeUSD == rows[i].quoteVolumeUSD && f.count == rows[i].count
  {
    hide RunAfter, Filled;
    FilledAt(rows, i);
    RunIsPrefixSum(rows, i + 1);
  }

  /** No fees, or none yet. */
  ghost predicate Unset(fees: Cell) {
    fees == Null || fees == Num(0.0)
  }

  /** The last positive fee total up to row `n`, zero before any. */
  ghost function CarriedFees(rows: seq<Row>, n: nat): real
    requires n <= |rows|
  {
    if n == 0 then 0.0
    else if rows[n - 1].totalFees.Num? && rows[n - 1].totalFees.value > 0.0 then rows[n - 1].totalFees.value
    else CarriedFees(rows, n - 1)
  }

  lemma {:induction false} RunCarriesFees(rows: seq<Row>, n: nat)
    requires n <= |rows|
    ensures RunAfter(rows[..n]).fees == CarriedFees(rows, n)
  {
    if n > 0 {
      RunCarriesFees(rows, n - 1);
      assert rows[..n][..n - 1] == rows[..n - 1];
    }
  }

  /** Fees that are set stay; unset ones become the last positive total before them. */
  lemma FeesCarryForward(rows: seq<Row>, i: nat)
    requires i < |rows|
    ensures var f := Filled(rows)[i];
      && (!Unset(rows[i].totalFees) ==> f.totalFees == rows[i].totalFees)
      && (Unset(rows[i].totalFees) ==>
            f.totalFees == Num(CarriedFees(rows, i + 1)) || (f.totalFees == Null && CarriedFees(rows, i + 1) == 0.0))
  {
    hide RunAfter, Filled;
    FilledAt(rows, i);
    RunCarriesFees(rows, i + 1);
  }

  lemma {:induction false} RunsAgree(rows: seq<Row>, n: nat)
    requires n <= |rows|
    ensures RunAfter(Filled(rows)[..n]) == RunAfter(rows[..n])
  {
    if n > 0 {
      var f := Filled(rows);
      RunsAgree(rows, n - 1);
      FilledAt(rows, n - 1);
      RunIsPrefixSum(rows, n - 1);
      assert rows[..n][..n - 1] == rows[..n - 1] && f[..n][..n - 1] == f[..n - 1];
      AdvanceAgrees(RunAfter(rows[..n - 1]), rows[n - 1]);
    }
  }

  lemma AdvanceAgrees(run: Running, r: Row)
    requires run.fees >= 0.0
    ensures var next := Advance(run, r);
      Advance(run, if Needs(r, next) then Updated(r, next) else r) == next
  {
  }

  /** A second run makes no update at all. */
  lemma {:induction false} SecondRunIsIdle(rows: seq<Row>, n: nat)
    requires n <= |rows|
    ensures Writes(Filled(rows)[..n]) == 0 && Filled(Filled(rows)[..n]) == Filled(rows)[..n]
  {
    hide Filled, Writes, RunAfter, Needs, Updated;
    var f := Filled(rows);
    if n == 0 {
      NothingToDo();
    } else {
      SecondRunIsIdle(rows, n - 1);
      RunsAgree(rows, n);
      FilledAt(rows, n - 1);
      NeedsNothing(rows[n - 1], RunAfter(rows[..n]));
      assert f[..n][..n - 1] == f[..n - 1] && f[..n] == f[..n - 1] + [f[n - 1]];
      LastIdle(f[..n]);
    }
  }

  lemma NothingToDo()
    ensures Writes([]) == 0 && Filled([]) == []
  {
  }

  lemma LastIdle(rows: seq<Row>)
    requires rows != [] && !Needs(rows[|rows| - 1], RunAfter(rows))
    ensures Writes(rows) == Writes(rows[..|rows| - 1])
    ensures Filled(rows) == Filled(rows[..|rows| - 1]) + [rows[|rows| - 1]]
  {
    hide Needs, Updated, RunAfter;
  }

  lemma NeedsNothing(r: Row, next: Running)
    ensures !Needs(if Needs(r, next) then Updated(r, next) else r, next)
  {
  }

  /** Backfilling a stream twice: the second run writes nothing and leaves every row. */
  lemma BackfillIsIdempotent(rows: seq<Row>)
    requires Sorted(rows)
    ensures Sorted(Final(rows)) && Final(Final(rows)) == Final(rows) && Writes(Visited(Final(rows))) == 0
  {
    hide RunAfter, Writes, Filled, Skipped;
    var n, f := Skipped(rows, 0), Filled(Visited(rows));
    FilledKeepsIndexes(Visited(rows));
    forall i | 0 <= i < |rows| ensures Final(rows)[i].bucketIndex == rows[i].bucketIndex {
      if n <= i {
        assert Final(rows)[i] == f[i - n];
      }
    }
    SkippedSplits(rows, 0);
    SkippedAt(Final(rows), 0, n);
    assert Visited(Final(rows)) == f && Final(rows)[..n] == rows[..n];
    SecondRunIsIdle(Visited(rows), |f|);
    assert f[..|f|] == f;
  }

  // ---- The whole stream, row by row -------------------------------------------------------

  /** The sum of a column over the rows before `n` with an index from 1 on. */
  ghost function SumFromOne(rows: seq<Row>, column: Row -> Cell, n: nat): real
    requires n <= |rows|
  {
    if n == 0 then 0.0
    else
      var c := column(rows[n - 1]);
      SumFromOne(rows, column, n - 1) + if rows[n - 1].bucketIndex >= 1 && c.Num? then c.value else 0.0
  }

  /** The last positive fee total in the rows before `n` with an index from 1 on, zero before any. */
  ghost function FeesFromOne(rows: seq<Row>, n: nat): real
    requires n <= |rows|
  {
    if n == 0 then 0.0
    else
      var r := rows[n - 1];
      if r.bucketIndex >= 1 && r.totalFees.Num? && r.totalFees.value > 0.0 then r.totalFees.value
      else FeesFromOne(rows, n - 1)
  }

  /** Row `i` has a total that is off, or no fees when there are some to carry. */
  ghost predicate Stale(rows: seq<Row>, i: nat)
    requires i < |rows|
  {
    var r := rows[i];
    r.bucketIndex >= 1 &&
    !(&& Close(r.totalBase, SumFromOne(rows, (r: Row) => r.baseVolumeUSD, i + 1))
      && Close(r.totalQuote, SumFromOne(rows, (r: Row) => r.quoteVolumeUSD, i + 1))
      && Close(r.totalTrades, SumFromOne(rows, (r: Row) => r.count, i + 1))
      && (Unset(r.totalFees) ==> FeesFromOne(rows, i + 1) == 0.0))
  }

  ghost function StaleRows(rows: seq<Row>, n: nat): nat
    requires n <= |rows|
  {
    if n == 0 then 0 else StaleRows(rows, n - 1) + if Stale(rows, n - 1) then 1 else 0
  }

  lemma {:induction false} SumsOfVisited(rows: seq<Row>, column: Row -> Cell, k: nat)
    requires Sorted(rows) && Skipped(rows, 0) + k <= |rows|
    ensures var n := Skipped(rows, 0);
      && SumFromOne(rows, column, n + k) == PrefixSum(Visited(rows), column, k)
      && FeesFromOne(rows, n + k) == CarriedFees(Visited(rows), k)
  {
    hide Skipped, Sorted;
    SkippedSplits(rows, 0);
    if k == 0 {
      NothingFromOne(rows, column, Skipped(rows, 0));
    } else {
      SumsOfVisited(rows, column, k - 1);
    }
  }

  lemma {:induction false} NothingFromOne(rows: seq<Row>, column: Row -> Cell, n: nat)
    requires n <= |rows| && forall i :: 0 <= i < n ==> rows[i].bucketIndex <= 0
    ensures SumFromOne(rows, column, n) == 0.0 && FeesFromOne(rows, n) == 0.0
  {
    if n > 0 {
      NothingFromOne(rows, column, n - 1);
    }
  }

  /** The running totals at a visited row are the sums over the rows from index 1 on. */
  lemma RunAtRow(rows: seq<Row>, i: nat)
    requires Sorted(rows) && Skipped(rows, 0) <= i < |rows|
    ensures RunAfter(Visited(rows)[..i - Skipped(rows, 0) + 1]) ==
      Running(SumFromOne(rows, (r: Row) => r.baseVolumeUSD, i + 1),
              SumFromOne(rows, (r: Row) => r.quoteVolumeUSD, i + 1),
              SumFromOne(rows, (r: Row) => r.count, i + 1), FeesFromOne(rows, i + 1))
  {
    hide RunAfter, Sorted, Skipped, SumFromOne, FeesFromOne, PrefixSum, CarriedFees;
    var k := i - Skipped(rows, 0) + 1;
    RunIsPrefixSum(Visited(rows), k);
    RunCarriesFees(Visited(rows), k);
    SumsOfVisited(rows, (r: Row) => r.baseVolumeUSD, k);
    SumsOfVisited(rows, (r: Row) => r.quoteVolumeUSD, k);
    SumsOfVisited(rows, (r: Row) => r.count, k);
  }

  lemma NeedsIffStale(rows: seq<Row>, i: nat, next: Running)
    requires i < |rows| && rows[i].bucketIndex >= 1
    requires next ==
      Running(SumFromOne(rows, (r: Row) => r.baseVolumeUSD, i + 1),
              SumFromOne(rows, (r: Row) => r.quoteVolumeUSD, i + 1),
              SumFromOne(rows, (r: Row) => r.count, i + 1), FeesFromOne(rows, i + 1))
    ensures Needs(rows[i], next) <==> Stale(rows, i)
    ensures Updated(rows[i], next) == rows[i].(
      totalBase := Num(next.base), totalQuote := Num(next.quote), totalTrades := Num(next.trades),
      totalFees := if Unset(rows[i].totalFees) then Num(next.fees) else rows[i].totalFees)
  {
    hide SumFromOne, FeesFromOne;
  }

  /**
   * What the backfill leaves in each row: a stale one gets the sums of its stream, and the carried
   * fees if it has none; every other row, and every row below index 1, is as it was.
   */
  lemma RowsAfterBackfill(rows: seq<Row>, i: nat)
    requires Sorted(rows) && i < |rows|
    ensures |Final(rows)| == |rows|
    ensures Final(rows)[i] ==
      if !Stale(rows, i) then rows[i]
      else rows[i].(
        totalBase := Num(SumFromOne(rows, (r: Row) => r.baseVolumeUSD, i + 1)),
        totalQuote := Num(SumFromOne(rows, (r: Row) => r.quoteVolumeUSD, i + 1)),
        totalTrades := Num(SumFromOne(rows, (r: Row) => r.count, i + 1)),
        totalFees := if Unset(rows[i].totalFees) then Num(FeesFromOne(rows, i + 1)) else rows[i].totalFees)
  {
    hide RunAfter, Filled, Skipped, Sorted, SumFromOne, FeesFromOne, Needs, Updated, Unset, Close;
    SkippedSplits(rows, 0);
    var n := Skipped(rows, 0);
    if i >= n {
      RunAtRow(rows, i);
      FilledAt(Visited(rows), i - n);
      NeedsIffStale(rows, i, RunAfter(Visited(rows)[..i - n + 1]));
    }
  }

  lemma {:induction false} WritesUpTo(rows: seq<Row>, k: nat)
    requires Sorted(rows) && Skipped(rows, 0) + k <= |rows|
    ensures Writes(Visited(rows)[..k]) == StaleRows(rows, Skipped(rows, 0) + k)
  {
    hide RunAfter, Skipped, Sorted, SumFromOne, FeesFromOne, Needs, Stale;
    SkippedSplits(rows, 0);
    var n, v := Skipped(rows, 0), Visited(rows);
    if k == 0 {
      NothingStale(rows, n);
    } else {
      WritesUpTo(rows, k - 1);
      assert v[..k][..k - 1] == v[..k - 1];
      RunAtRow(rows, n + k - 1);
      NeedsIffStale(rows, n + k - 1, RunAfter(v[..k]));
    }
  }

  lemma {:induction false} NothingStale(rows: seq<Row>, n: nat)
    requires n <= |rows| && forall i :: 0 <= i < n ==> rows[i].bucketIndex <= 0
    ensures StaleRows(rows, n) == 0
  {
    hide SumFromOne, FeesFromOne;
    if n > 0 {
      NothingStale(rows, n - 1);
    }
  }

  /** Exactly the stale rows are written. */
  lemma WritesAreStaleRows(rows: seq<Row>)
    requires Sorted(rows)
    ensures Writes(Visited(rows)) == StaleRows(rows, |rows|)
  {
    hide Skipped, Writes, StaleRows, Sorted;
    var v := Visited(rows);
    WritesUpTo(rows, |v|);
    assert v[..|v|] == v;
  }
}
