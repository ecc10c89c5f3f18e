/** What the read models say once every produced message has been delivered. */
module EndToEnd {
  import opened Results
  import opened EventLog
  import opened BrokerDb
  import opened Delivery
  import opened IndexerConsumer
  import Replay
  import Votes
  import Stakes
  import Whitelist
  import Fees
  import Locks
  import LockLedger

  ghost function WhitelistEvents(log: seq<Payload>): seq<Whitelist.Event> {
    if log == [] then []
    else
      var last := log[|log| - 1].event;
      WhitelistEvents(log[..|log| - 1]) + (if last.WhitelistEvent? then [last.whitelist] else [])
  }

  ghost function FeeEvents(log: seq<Payload>): seq<Fees.Event> {
    if log == [] then []
    else
      var last := log[|log| - 1].event;
      FeeEvents(log[..|log| - 1]) + (if last.FeeEvent? then [last.fee] else [])
  }

  ghost function VoteEvents(log: seq<Payload>): seq<Votes.Event> {
    if log == [] then []
    else
      var last := log[|log| - 1].event;
      VoteEvents(log[..|log| - 1]) + (if last.VoteEvent? then [last.vote] else [])
  }

  ghost function StakeEvents(log: seq<Payload>): seq<Stakes.Event> {
    if log == [] then []
    else
      var last := log[|log| - 1].event;
      StakeEvents(log[..|log| - 1]) + (if last.StakeEvent? then [last.stake] else [])
  }

  ghost function LockEvents(log: seq<Payload>): seq<Locks.Event> {
    if log == [] then []
    else
      var last := log[|log| - 1].event;
      LockEvents(log[..|log| - 1]) + (if last.LockEvent? then [last.lock] else [])
  }

  /** One message changes the tables of its own kind only. */
  lemma ApplyByKind(db: DB, p: Payload)
    ensures var d := Apply(db, p);
      && d.votes == (if p.event.VoteEvent? then Votes.Apply(db.votes, p.event.vote) else db.votes)
      && d.stakes == (if p.event.StakeEvent? then Stakes.Apply(db.stakes, p.event.stake) else db.stakes)
      && d.whitelist == (
        if p.event.WhitelistEvent? then Whitelist.Apply(db.whitelist, p.event.whitelist) else db.whitelist)
      && d.fees == (if p.event.FeeEvent? then Fees.Apply(db.fees, p.event.fee) else db.fees)
      && d.locks == (if p.event.LockEvent? then Locks.Apply(db.locks, p.event.lock) else db.locks)
  {
    hide Apply, Replay.Aggregate, Votes.Apply, Whitelist.Apply, Fees.Apply, Locks.Apply;
    Replay.ApplyOne(db, p);
    Replay.AggregateByKind(db, p);
  }

  lemma {:induction false} FoldByKind(db: DB, log: seq<Payload>)
    ensures var d := Fold(Apply, db, log);
      && d.votes == Fold(Votes.Apply, db.votes, VoteEvents(log))
      && d.stakes == Fold(Stakes.Apply, db.stakes, StakeEvents(log))
      && d.whitelist == Fold(Whitelist.Apply, db.whitelist, WhitelistEvents(log))
      && d.fees == Fold(Fees.Apply, db.fees, FeeEvents(log))
      && d.locks == Fold(Locks.Apply, db.locks, LockEvents(log))
  {
    hide Apply, Votes.Apply, Stakes.Apply, Whitelist.Apply, Fees.Apply, Locks.Apply;
    if log != [] {
      var rest, p := log[..|log| - 1], log[|log| - 1];
      FoldByKind(db, rest);
      ApplyByKind(Fold(Apply, db, rest), p);
      FoldNext(Votes.Apply, db.votes, VoteEvents(rest),
               if p.event.VoteEvent? then [p.event.vote] else []);
      FoldNext(Stakes.Apply, db.stakes, StakeEvents(rest),
               if p.event.StakeEvent? then [p.event.stake] else []);
      FoldNext(Whitelist.Apply, db.whitelist, WhitelistEvents(rest),
               if p.event.WhitelistEvent? then [p.event.whitelist] else []);
      FoldNext(Fees.Apply, db.fees, FeeEvents(rest),
               if p.event.FeeEvent? then [p.event.fee] else []);
      FoldNext(Locks.Apply, db.locks, LockEvents(rest),
               if p.event.LockEvent? then [p.event.lock] else []);
    }
  }

  /**
   * However the run crashed and requeued, each pair that began unlisted ends up listed exactly
   * when the last whitelist events produced for its two tokens say so.
   */
  lemma DeliveredFlags(init: DB, steps: seq<Step>, p: string)
    requires Drained(init, steps) && init.whitelist.tokens == map[]
    requires forall q :: q in init.whitelist.pairs ==> !init.whitelist.pairs[q].gaugeWhitelisted
    requires p in init.whitelist.pairs && init.whitelist.pairs[p].token0 != "" && init.whitelist.pairs[p].token1 != ""
    ensures var s, pair := Run(Initial(init), steps).value, init.whitelist.pairs[p];
      && p in s.db.whitelist.pairs
      && (s.db.whitelist.pairs[p].gaugeWhitelisted <==>
            Whitelist.LatestStatus(WhitelistEvents(s.produced), pair.token0)
            && Whitelist.LatestStatus(WhitelistEvents(s.produced), pair.token1))
  {
    hide Run, Apply, AddedAgain;
    DrainedTablesAreFold(init, steps);
    var s := Run(Initial(init), steps).value;
    FoldByKind(init, s.produced);
    Whitelist.FlagsAreConjunctions(init.whitelist.pairs, WhitelistEvents(s.produced), p);
  }

  /** A vote position is what the last vote or abstention produced for it made of it. */
  lemma DeliveredVotes(init: DB, steps: seq<Step>, k: nat)
    requires Drained(init, steps)
    requires var log := VoteEvents(Run(Initial(init), steps).value.produced);
      k < |log| && forall j :: k < j < |log| ==> log[j].row.key != log[k].row.key
    ensures var s := Run(Initial(init), steps).value;
      var r := VoteEvents(s.produced)[k].row;
      if r.kind == Votes.Voted
      then r.key in s.db.votes.positions
        && s.db.votes.positions[r.key] == Votes.Row(r.owner, r.weight, r.totalWeight, r.epochTimestamp, true)
      else r.key in s.db.votes.positions ==>
        !s.db.votes.positions[r.key].isActive && s.db.votes.positions[r.key].weight == "0"
  {
    hide Run, Apply, AddedAgain, Votes.Apply;
    DrainedTablesAreFold(init, steps);
    var s := Run(Initial(init), steps).value;
    FoldByKind(init, s.produced);
    Votes.LastVoteDecides(init.votes, VoteEvents(s.produced), VoteEvents(s.produced)[k].row.key, k);
  }

  /** There is one row for each (transaction, log index) a stake event was produced with, from the first of them. */
  lemma DeliveredStakes(init: DB, steps: seq<Step>, key: Stakes.Key)
    requires Drained(init, steps) && init.stakes == map[]
    ensures var s := Run(Initial(init), steps).value;
      var log := StakeEvents(s.produced);
      && (key in s.db.stakes <==> exists j :: 0 <= j < |log| && log[j].key == key)
      && forall k :: 0 <= k < |log| && log[k].key == key && (forall j :: 0 <= j < k ==> log[j].key != key) ==>
           Stakes.Says(s.db.stakes[key], log[k])
  {
    hide Run, Apply, AddedAgain, Stakes.Apply;
    DrainedTablesAreFold(init, steps);
    var s := Run(Initial(init), steps).value;
    FoldByKind(init, s.produced);
    var log := StakeEvents(s.produced);
    Stakes.KeysAfter(map[], log, key);
    forall k | 0 <= k < |log| && log[k].key == key && forall j :: 0 <= j < k ==> log[j].key != key
      ensures Stakes.Says(s.db.stakes[key], log[k]) {
      Stakes.FirstEventWins(map[], log, k);
    }
  }

  /**
   * When the lock events are a run of the escrow, the delivered rows are the escrow's ledger,
   * unless an increase was requeued with its value already added.
   */
  lemma DeliveredLocks(init: DB, steps: seq<Step>)
    requires Drained(init, steps) && init.locks == LockLedger.NO_ROWS
    requires var s := Run(Initial(init), steps).value;
      && LockLedger.Posted(LockEvents(s.produced)).Some?
      && forall i :: 0 <= i < |s.acked| ==> !AddedAgain(init, s.acked, i)
    ensures var s := Run(Initial(init), steps).value;
      LockLedger.Represents(s.db.locks, LockLedger.Posted(LockEvents(s.produced)).value)
  {
    hide Run, Apply, Locks.Apply, LockLedger.Represents, AddedAgain;
    DrainedTablesAreFold(init, steps);
    var s := Run(Initial(init), steps).value;
    FoldByKind(init, s.produced);
    LockLedger.ProjectionIsLedger(LockEvents(s.produced));
  }

  // ---- Lock amounts, increases requeued complete included ---------------------------------

  /** What complete attempts added to token `k` beyond the first, since an event last set its amount. */
  ghost function Excess(acked: seq<Msg>, k: string): int {
    if acked == [] then 0
    else
      var m, before := acked[|acked| - 1], Excess(acked[..|acked| - 1], k);
      if !m.payload.event.LockEvent? then before
      else
        var e := m.payload.event.lock;
        if LockLedger.SetsAmount(e, k) then 0
        else before + if Locks.IsIncrease(e) && e.tokenId == k then m.completed * e.value else 0
  }

  /** The row of every token is the ledger's but for the excess. */
  ghost predicate RowsAgree(db: DB, acked: seq<Msg>, l: LockLedger.Ledger) {
    l.locks.Keys <= l.minted && forall k :: LockLedger.AgreesOn(Locks.PositionOf(db.locks, k), l, k, Excess(acked, k))
  }

  lemma {:induction false} AppliedLocks(init: DB, acked: seq<Msg>)
    requires init.locks == LockLedger.NO_ROWS && LockLedger.Posted(LockEvents(Payloads(acked))).Some?
    ensures RowsAgree(Applied(init, acked), acked, LockLedger.Posted(LockEvents(Payloads(acked))).value)
  {
    hide RowsAgree, Payloads, Times, LockLedger.CanEmit, LockLedger.Post, LockEvents, LockLedger.Posted;
    if acked == [] {
      NoPayloads();
      NoRowsAgree(init);
    } else {
      var front, m := acked[..|acked| - 1], acked[|acked| - 1];
      assert acked == front + [m];
      PayloadsOfConcat(front, [m]);
      LockEventsNext(Payloads(front), m.payload);
      var events := LockEvents(Payloads(front));
      assert events + [] == events;
      assert Payloads(acked) == Payloads(front) + [m.payload];
      if m.payload.event.LockEvent? {
        PostedNext(events, m.payload.event.lock);
      }
      AppliedLocks(init, front);
      AckedRows(Applied(init, front), front, m, LockLedger.Posted(events).value);
    }
  }

  lemma NoRowsAgree(db: DB)
    requires db.locks == LockLedger.NO_ROWS
    ensures LockLedger.Posted(LockEvents([])) == Some(LockLedger.EMPTY) && RowsAgree(db, [], LockLedger.EMPTY)
  {
  }

  lemma LockEventsNext(log: seq<Payload>, p: Payload)
    ensures LockEvents(log + [p]) == LockEvents(log) + if p.event.LockEvent? then [p.event.lock] else []
  {
    assert (log + [p])[..|log|] == log;
  }

  lemma PostedNext(log: seq<Locks.Event>, e: Locks.Event)
    ensures var before := LockLedger.Posted(log);
      LockLedger.Posted(log + [e]) ==
      if before.Some? && LockLedger.CanEmit(before.value, e) then Some(LockLedger.Post(before.value, e)) else None
  {
    hide LockLedger.CanEmit, LockLedger.Post;
    assert (log + [e])[..|log|] == log;
  }

  lemma AckedRows(db: DB, front: seq<Msg>, m: Msg, l: LockLedger.Ledger)
    requires RowsAgree(db, front, l)
    requires m.payload.event.LockEvent? ==> LockLedger.CanEmit(l, m.payload.event.lock)
    ensures RowsAgree(Times(db, m.payload, m.completed + 1), front + [m],
                      if m.payload.event.LockEvent? then LockLedger.Post(l, m.payload.event.lock) else l)
  {
    hide Times, LockLedger.AgreesOn, LockLedger.CanEmit, LockLedger.Post, Locks.PositionOf, Apply, Locks.Apply;
    var p, after := m.payload, Times(db, m.payload, m.completed + 1);
    assert (front + [m])[..|front|] == front;
    ApplyByKind(db, p);
    if !p.event.LockEvent? {
      TimesOnce(db, p, m.completed + 1);
    } else {
      var e := p.event.lock;
      MintedAfter(l, e);
      forall k
        ensures LockLedger.AgreesOn(Locks.PositionOf(after.locks, k), LockLedger.Post(l, e), k,
                                    Excess(front + [m], k)) {
        AckedRow(db, front, m, l, k);
      }
    }
  }

  lemma MintedAfter(l: LockLedger.Ledger, e: Locks.Event)
    requires LockLedger.CanEmit(l, e) && l.locks.Keys <= l.minted
    ensures LockLedger.Post(l, e).locks.Keys <= LockLedger.Post(l, e).minted
  {
    LockLedger.PostBalances(l, e);
  }

  lemma AckedRow(db: DB, front: seq<Msg>, m: Msg, l: LockLedger.Ledger, k: string)
    requires RowsAgree(db, front, l) && m.payload.event.LockEvent? && LockLedger.CanEmit(l, m.payload.event.lock)
    ensures LockLedger.AgreesOn(Locks.PositionOf(Times(db, m.payload, m.completed + 1).locks, k),
                                LockLedger.Post(l, m.payload.event.lock), k, Excess(front + [m], k))
  {
    hide Times, Apply, LockLedger.RowAfter, Locks.Stmts, LockLedger.Post, LockLedger.AgreesOn, LockLedger.SetsAmount,
      Locks.PositionOf, Locks.Exec;
    var p, e, t := m.payload, m.payload.event.lock, db.locks;
    assert (front + [m])[..|front|] == front;
    assert LockLedger.AgreesOn(Locks.PositionOf(t, k), l, k, Excess(front, k));
    if Locks.IsIncrease(e) {
      assert LockLedger.AgreesOn(Locks.PositionOf(t, e.tokenId), l, e.tokenId, Excess(front, e.tokenId));
      LiveRow(t, l, e, Excess(front, e.tokenId));
      IncreasedRow(db, p, m.completed + 1, l, k, Excess(front, k));
      MoreExcess(front, m, k);
    } else {
      LockMessage(db, p);
      LockLedger.FoldPosition(t, Locks.Stmts(e), k);
      LockLedger.RowFollowsLedger(l, e, k, Locks.PositionOf(t, k), Excess(front, k));
      TimesOnce(db, p, m.completed + 1);
    }
  }

  lemma LiveRow(t: Locks.Tables, l: LockLedger.Ledger, e: Locks.Event, excess: int)
    requires Locks.IsIncrease(e) && LockLedger.CanEmit(l, e)
    requires LockLedger.AgreesOn(Locks.PositionOf(t, e.tokenId), l, e.tokenId, excess)
    ensures e.tokenId in t.positions
  {
  }

  lemma MoreExcess(front: seq<Msg>, m: Msg, k: string)
    requires m.payload.event.LockEvent? && Locks.IsIncrease(m.payload.event.lock)
    ensures var e := m.payload.event.lock;
      Excess(front + [m], k) == Excess(front, k) + if e.tokenId == k then m.completed * e.value else 0
  {
    assert (front + [m])[..|front|] == front;
  }

  /** Applying an increase `n` times adds its value once to the ledger, and the rest to the excess. */
  lemma IncreasedRow(db: DB, p: Payload, n: nat, l: LockLedger.Ledger, k: string, excess: int)
    requires n > 0 && IsAdditive(p) && LockLedger.CanEmit(l, p.event.lock)
    requires p.event.lock.tokenId in db.locks.positions
    requires LockLedger.AgreesOn(Locks.PositionOf(db.locks, k), l, k, excess)
    ensures var e := p.event.lock;
      LockLedger.AgreesOn(Locks.PositionOf(Times(db, p, n).locks, k), LockLedger.Post(l, e), k,
                          excess + if e.tokenId == k then (n - 1) * e.value else 0)
  {
    hide Times, Apply;
    AmountAfterTimes(db, p, n);
    assert n * p.event.lock.value == (n - 1) * p.event.lock.value + p.event.lock.value;
  }

  /**
   * The general case: after any drained run of the escrow's events, the amount of each token is
   * the ledger's plus what complete attempts of its increases added since it was last set.
   */
  lemma DeliveredAmounts(init: DB, steps: seq<Step>, k: string)
    requires Drained(init, steps) && init.locks == LockLedger.NO_ROWS
    requires LockLedger.Posted(LockEvents(Run(Initial(init), steps).value.produced)).Some?
    ensures var s := Run(Initial(init), steps).value;
      LockLedger.AgreesOn(Locks.PositionOf(s.db.locks, k), LockLedger.Posted(LockEvents(s.produced)).value, k,
                          Excess(s.acked, k))
  {
    hide Run, Apply, Applied, LockLedger.AgreesOn, AddedAgain, LockLedger.Posted;
    DrainedTablesAreFold(init, steps);
    AppliedLocks(init, Run(Initial(init), steps).value.acked);
  }

  /** Every fee value the read model serves is the last one produced for it. */
  lemma DeliveredFees(init: DB, steps: seq<Step>, cell: Fees.Cell)
    requires Drained(init, steps)
    ensures var s := Run(Initial(init), steps).value;
      Fees.Read(s.db.fees, cell) == Fees.LastWrite(FeeEvents(s.produced), cell).On(Fees.Read(init.fees, cell))
  {
    hide Run, Apply, AddedAgain, Fees.Apply;
    DrainedTablesAreFold(init, steps);
    var s := Run(Initial(init), steps).value;
    FoldByKind(init, s.produced);
    Fees.LastWriterWins(init.fees, FeeEvents(s.produced), cell);
  }

  // ---- What an increase requeued complete does --------------------------------------------

  lemma {:induction false} RunConcat(s: State, a: seq<Step>, b: seq<Step>)
    requires Run(s, a).Some?
    ensures Run(s, a + b) == Run(Run(s, a).value, b)
  {
    hide Next;
    if b == [] {
      assert a + b == a;
    } else {
      assert (a + b)[..|a + b| - 1] == a + b[..|b| - 1];
      RunConcat(s, a, b[..|b| - 1]);
    }
  }

  /** The message delivered to the handler, which executes everything and is then sent on, or not. */
  lemma WholeAttempt(s: State, sent: bool) returns (steps: seq<Step>)
    requires s.inflight.None? && s.queue != []
    ensures var m := s.queue[0];
      var after := s.(queue := s.queue[1..], db := Apply(s.db, m.payload));
      Run(s, steps) == Some(
        if sent then after.(acked := s.acked + [m], handled := s.handled + [Sent(m)], base := after.db)
        else after.(queue := [Msg(m.payload, true, m.errorRequeues, m.completed + 1, m.cuts + [|Stmts(m.payload)|])]
                    + s.queue[1..]))
  {
    hide Exec, Stmts, Run;
    var p := s.queue[0].payload;
    var t := Next(s, Deliver).value;
    OneStep(s, Deliver);
    var rest := HandlerIsARun(t, false, Done, sent, |Stmts(p)|);
    assert Stmts(p)[..|Stmts(p)|] == Stmts(p);
    steps := [Deliver] + rest;
    RunConcat(s, [Deliver], rest);
  }

  lemma OneStep(s: State, step: Step)
    ensures Run(s, [step]) == Next(s, step)
  {
    hide Next;
    assert [step][..0] == [];
    assert Run(s, [step][..0]) == Some(s);
  }

  /**
   * There is such a run for every increase of an existing lock: one refused publication, no
   * error, no crash, and the drained lock carries the value twice.
   */
  lemma LateRequeueAddsTwice(init: DB, p: Payload) returns (steps: seq<Step>)
    requires AddsToRow(init, p)
    ensures Drained(init, steps) && Run(Initial(init), steps).value.produced == [p]
    ensures var s, k := Run(Initial(init), steps).value, p.event.lock.tokenId;
      && s.db != Fold(Apply, init, s.produced)
      && k in s.db.locks.positions
      && s.db.locks.positions[k].amount == init.locks.positions[k].amount + 2 * p.event.lock.value
  {
    hide Apply, Run, AddsToRow, IsAdditive;
    var s0 := Initial(init);
    var s1 := Next(s0, Produce(p)).value;
    OneStep(s0, Produce(p));
    var refused := WholeAttempt(s1, false);
    var s2 := Run(s1, refused).value;
    var again := WholeAttempt(s2, true);
    RunConcat(s0, [Produce(p)], refused);
    RunConcat(s0, [Produce(p)] + refused, again);
    steps := [Produce(p)] + refused + again;
    FoldOne(Apply, init, [p]);
    assert Times(init, p, 2) == Apply(Apply(init, p), p) by {
      assert Times(init, p, 1) == Apply(Times(init, p, 0), p);
    }
    TimesOnce(init, p, 2);
    Additive(init, p);
    AmountAfterTimes(init, p, 2);
  }

  lemma Additive(db: DB, p: Payload)
    requires AddsToRow(db, p)
    ensures IsAdditive(p) && p.event.LockEvent? && p.event.lock.Deposit? && p.event.lock.tokenId in db.locks.positions
  {
  }
}
