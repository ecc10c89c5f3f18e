/** Replaying stored events into the read models, apps/broker/src/cli/replay-indexed-events.runner.ts. */
module Replay {
  import opened EventLog
  import opened BrokerDb
  import opened IndexerConsumer
  import Votes
  import Stakes
  import Whitelist
  import Fees
  import Locks

  /** One stored event aggregated again, without persisting it. */
  ghost function Aggregate(db: DB, p: Payload): DB {
    Fold(Exec, db, AggregationStmts(p.event))
  }

  /**
   * A row the loop reached: what came of it, how many of its statements committed, and the
   * numbers that its statements got.
   */
  datatype Attempt = Attempt(outcome: Outcome, ran: nat, from: nat, to: nat)

  /** The attempts are on the first rows, one after another, and end as their statements do. */
  ghost predicate Fits(rows: seq<Payload>, attempts: seq<Attempt>, fate: nat -> Fate, from: nat) {
    && |attempts| <= |rows|
    && (forall i :: 0 <= i < |attempts| ==> IsAttempt(rows[i], attempts[i], fate))
    && Contiguous(attempts, from)
  }

  /** Each attempt begins with the number that the one before it left. */
  ghost predicate Contiguous(attempts: seq<Attempt>, from: nat) {
    && (attempts != [] ==> attempts[0].from == from)
    && forall i, j :: 0 <= i < |attempts| && j == i + 1 < |attempts| ==> attempts[j].from == attempts[i].to
  }

  lemma ContiguousNext(attempts: seq<Attempt>, a: Attempt, from: nat)
    requires Contiguous(attempts, from) && a.from == if attempts == [] then from else attempts[|attempts| - 1].to
    ensures Contiguous(attempts + [a], from)
  {
  }

  ghost predicate IsAttempt(row: Payload, a: Attempt, fate: nat -> Fate) {
    var stmts := AggregationStmts(row.event);
    a.ran <= |stmts| && Ended(stmts, a.outcome, a.ran, fate, a.from, a.to)
  }

  lemma FitsNext(rows: seq<Payload>, attempts: seq<Attempt>, a: Attempt, fate: nat -> Fate, from: nat)
    requires Fits(rows, attempts, fate, from) && |attempts| < |rows| && IsAttempt(rows[|attempts|], a, fate)
    requires a.from == if attempts == [] then from else attempts[|attempts| - 1].to
    ensures Fits(rows, attempts + [a], fate, from) && Bounded(rows, attempts + [a])
  {
    hide IsAttempt, Contiguous;
    var longer := attempts + [a];
    forall i | 0 <= i < |longer| ensures IsAttempt(rows[i], longer[i], fate) {
      assert i < |attempts| ==> IsAttempt(rows[i], attempts[i], fate);
    }
    ContiguousNext(attempts, a, from);
    FitsIsBounded(rows, longer, fate, from);
  }

  ghost predicate Bounded(rows: seq<Payload>, attempts: seq<Attempt>) {
    |attempts| <= |rows| && forall i :: 0 <= i < |attempts| ==>
      var n := |AggregationStmts(rows[i].event)|;
      attempts[i].ran <= n && (attempts[i].outcome.Done? ==> attempts[i].ran == n)
  }

  lemma NoAttempts(rows: seq<Payload>, fate: nat -> Fate, from: nat)
    ensures Fits(rows, [], fate, from) && Bounded(rows, [])
  {
  }

  lemma FitsIsBounded(rows: seq<Payload>, attempts: seq<Attempt>, fate: nat -> Fate, from: nat)
    requires Fits(rows, attempts, fate, from)
    ensures Bounded(rows, attempts)
  {
    hide AggregationStmts;
    forall i | 0 <= i < |attempts| ensures IsAttempt(rows[i], attempts[i], fate) {
    }
  }

  /** Every attempt starts from what the one before it left, failed or not. */
  ghost function After(db: DB, rows: seq<Payload>, attempts: seq<Attempt>): DB
    requires Bounded(rows, attempts)
  {
    if attempts == [] then db
    else
      var n := |attempts| - 1;
      Fold(Exec, After(db, rows, attempts[..n]), AggregationStmts(rows[n].event)[..attempts[n].ran])
  }

  ghost function Succeeded(attempts: seq<Attempt>): nat {
    if attempts == [] then 0
    else Succeeded(attempts[..|attempts| - 1]) + if attempts[|attempts| - 1].outcome.Done? then 1 else 0
  }

  lemma AfterNext(db: DB, rows: seq<Payload>, attempts: seq<Attempt>, a: Attempt)
    requires Bounded(rows, attempts + [a])
    ensures Bounded(rows, attempts)
    ensures var n := |attempts|;
      After(db, rows, attempts + [a]) == Fold(Exec, After(db, rows, attempts), AggregationStmts(rows[n].event)[..a.ran])
    ensures Succeeded(attempts + [a]) == Succeeded(attempts) + if a.outcome.Done? then 1 else 0
  {
    hide Exec, AggregationStmts;
    var longer := attempts + [a];
    assert longer[..|attempts|] == attempts;
    forall i | 0 <= i < |attempts| ensures attempts[i] == longer[i] {
    }
  }

  lemma NothingAfter(db: DB, rows: seq<Payload>)
    ensures After(db, rows, []) == db && Succeeded([]) == 0
  {
  }

  /** Without failures the replay is the fold of the rows. */
  lemma {:induction false} CleanReplayIsFold(db: DB, rows: seq<Payload>, attempts: seq<Attempt>)
    requires Bounded(rows, attempts)
    ensures Succeeded(attempts) <= |attempts|
    ensures Succeeded(attempts) == |attempts| ==> After(db, rows, attempts) == Fold(Aggregate, db, rows[..|attempts|])
  {
    hide AggregationStmts, Exec;
    if attempts != [] {
      var n := |attempts| - 1;
      CleanReplayIsFold(db, rows, attempts[..n]);
      assert rows[..n + 1][..n] == rows[..n];
      if attempts[n].outcome.Done? {
        var s := AggregationStmts(rows[n].event);
        assert s[..attempts[n].ran] == s;
      }
    }
  }

  /** The replay loop over the selected rows, in order. `thrown` is the error that stops it. */
  method RunReplay(db: Database, rows: seq<Payload>, dryRun: bool, continueOnError: bool)
    returns (thrown: bool, processed: nat, failed: nat, ghost attempts: seq<Attempt>)
    modifies db
    ensures Fits(rows, attempts, db.fate, old(db.calls)) && Bounded(rows, attempts)
    ensures db.Tables() == After(old(db.Tables()), rows, attempts)
    ensures processed == Succeeded(attempts) && processed + failed == |attempts|
    ensures dryRun ==> !thrown && attempts == []
    ensures !dryRun && !thrown ==> |attempts| == |rows|
    ensures thrown <==> !continueOnError && failed > 0
    ensures thrown ==> failed == 1 && attempts[processed].outcome.Thrown?
    ensures !dryRun && failed == 0 ==> db.Tables() == Fold(Aggregate, old(db.Tables()), rows)
  {
    hide AggregationStmts, Exec, Database.Tables, Fits, Bounded, Ended, Aggregate, After, Succeeded;
    NoAttempts(rows, db.fate, db.calls);
    NothingAfter(db.Tables(), rows);
    thrown, processed, failed, attempts := false, 0, 0, [];
    if dryRun {
      return;
    }
    for index := 0 to |rows|
      invariant |attempts| == processed + failed == index && !thrown
      invariant !continueOnError ==> failed == 0
      invariant Fits(rows, attempts, db.fate, old(db.calls)) && Bounded(rows, attempts)
      invariant processed == Succeeded(attempts)
      invariant db.calls == if attempts == [] then old(db.calls) else attempts[|attempts| - 1].to
      invariant db.Tables() == After(old(db.Tables()), rows, attempts)
    {
      ghost var was, from := attempts, db.calls;
      var o, done := db.AggregateIndexedEvent(rows[index].event);
      FitsNext(rows, attempts, Attempt(o, done, from, db.calls), db.fate, old(db.calls));
      attempts := attempts + [Attempt(o, done, from, db.calls)];
      AfterNext(old(db.Tables()), rows, was, attempts[index]);
      if o.Done? {
        processed := processed + 1;
      } else {
        failed := failed + 1;
        if !continueOnError {
          thrown := true;
          return;
        }
      }
    }
    CleanReplayIsFold(old(db.Tables()), rows, attempts);
    assert rows[..|rows|] == rows;
  }

  // ---- Replays on top of the finished tables ----------------------------------------------

  /** Everything but lock events is decided by last writers or by unique keys. */
  ghost predicate Replayable(p: Payload) {
    !p.event.LockEvent?
  }

  /** Event ids, and (transaction, log index) pairs, identify events. */
  ghost predicate Consistent(log: seq<Payload>) {
    && (forall a, b :: a in log && b in log ==>
          a.event.VoteEvent? && b.event.VoteEvent? && a.event.vote.id == b.event.vote.id ==> a.event == b.event)
    && (forall a, b :: a in log && b in log ==>
          a.event.StakeEvent? && b.event.StakeEvent? && a.event.stake.key == b.event.stake.key ==> a.event == b.event)
  }

  /** Aggregating an event changes the tables of its own kind only. */
  lemma AggregateByKind(db: DB, p: Payload)
    ensures Aggregate(db, p) ==
      match p.event
      case VoteEvent(v) => db.(votes := Votes.Apply(db.votes, v))
      case StakeEvent(e) => db.(stakes := Stakes.Apply(db.stakes, e))
      case WhitelistEvent(w) => db.(whitelist := Whitelist.Apply(db.whitelist, w))
      case FeeEvent(f) => db.(fees := Fees.Apply(db.fees, f))
      case LockEvent(l) => db.(locks := Locks.Apply(db.locks, l))
      case Unmapped(_) => db
  {
    hide Votes.Exec, Votes.Stmts, Whitelist.Exec, Whitelist.Stmts, Votes.Apply, Whitelist.Apply, Locks.Exec,
      Locks.Stmts;
    match p.event
    case VoteEvent(v) =>
      FoldVotes(db, Votes.Stmts(v));
      Votes.AttemptAbsorbed(db.votes, v, 0);
    case WhitelistEvent(w) =>
      FoldWhitelist(db, Whitelist.Stmts(w));
      Whitelist.AttemptAbsorbed(db.whitelist, w, 0);
    case StakeEvent(e) =>
      FoldOne(Exec, db, [StakeStmt(e)]);
    case FeeEvent(f) =>
      FoldOne(Exec, db, [FeeStmt(f)]);
    case LockEvent(l) =>
      FoldLocks(db, Locks.Stmts(l));
    case Unmapped(_) =>
  }

  lemma AggregateTwice(db: DB, a: Payload)
    requires Replayable(a)
    ensures Aggregate(Aggregate(db, a), a) == Aggregate(db, a)
  {
    hide Aggregate, Votes.Apply, Whitelist.Apply, Fees.Apply;
    AggregateByKind(db, a);
    AggregateByKind(Aggregate(db, a), a);
    match a.event
    case VoteEvent(v) => Votes.ApplyTwice(db.votes, v);
    case WhitelistEvent(w) => Whitelist.ApplyTwice(db.whitelist, w);
    case FeeEvent(f) => Fees.ApplyTwice(db.fees, f);
    case _ =>
  }

  lemma AggregateAround(db: DB, a: Payload, b: Payload)
    requires Replayable(a) && Replayable(b) && Consistent([a, b])
    ensures Aggregate(Aggregate(Aggregate(db, a), b), a) == Aggregate(Aggregate(db, b), a)
  {
    hide Aggregate, Votes.Apply, Whitelist.Apply, Fees.Apply;
    assert a in [a, b] && b in [a, b];
    var da, db_ := Aggregate(db, a), Aggregate(db, b);
    AggregateByKind(db, a);
    AggregateByKind(da, b);
    AggregateByKind(Aggregate(da, b), a);
    AggregateByKind(db, b);
    AggregateByKind(db_, a);
    match a.event
    case VoteEvent(v) =>
      Votes.ApplyTwice(db.votes, v);
      if b.event.VoteEvent? { Votes.ApplyAround(db.votes, v, b.event.vote); }
    case WhitelistEvent(w) =>
      Whitelist.ApplyTwice(db.whitelist, w);
      if b.event.WhitelistEvent? { Whitelist.ApplyAround(db.whitelist, w, b.event.whitelist); }
    case FeeEvent(f) =>
      Fees.ApplyTwice(db.fees, f);
      if b.event.FeeEvent? { Fees.ApplyAround(db.fees, f, b.event.fee); }
    case StakeEvent(e) =>
      if b.event.StakeEvent? { StakesAround(db.stakes, e, b.event.stake); }
    case _ =>
  }

  lemma StakesAround(t: Stakes.Table, a: Stakes.Event, b: Stakes.Event)
    requires a.key == b.key ==> a == b
    ensures Stakes.Apply(Stakes.Apply(Stakes.Apply(t, a), b), a) == Stakes.Apply(Stakes.Apply(t, b), a)
  {
  }

  /** A message applied whole is persisting it and aggregating it. */
  lemma {:induction false} ApplyIsAggregate(init: DB, log: seq<Payload>)
    ensures var d := Fold(Apply, init, log);
      d == Fold(Aggregate, init, log).(indexed := d.indexed)
    ensures forall i :: Fold(Aggregate, init.(indexed := i), log) == Fold(Aggregate, init, log).(indexed := i)
  {
    hide Apply, Aggregate;
    if log != [] {
      var rest, p := log[..|log| - 1], log[|log| - 1];
      ApplyIsAggregate(init, rest);
      var d := Fold(Apply, init, rest);
      var e := Fold(Aggregate, init, rest);
      ApplyOne(d, p);
      forall i ensures Aggregate(e.(indexed := i), p) == Aggregate(e, p).(indexed := i) {
        AggregateIgnoresIndexed(e, p, i);
      }
      AggregateIgnoresIndexed(e, p, d.indexed);
    }
  }

  lemma ApplyOne(db: DB, p: Payload)
    ensures Apply(db, p) == Aggregate(db, p).(indexed := Apply(db, p).indexed)
  {
    hide AggregationStmts;
    FoldConcat(Exec, db, PersistStmts(p), AggregationStmts(p.event));
    if p.id != "" {
      FoldOne(Exec, db, [Persist(p)]);
    }
    var d := Fold(Exec, db, PersistStmts(p));
    AggregateIgnoresIndexed(db, p, d.indexed);
    assert d == db.(indexed := d.indexed);
    AggregationNeverPersists(p.event);
    IndexedUntouched(d, AggregationStmts(p.event));
  }

  lemma AggregateIgnoresIndexed(db: DB, p: Payload, i: map<string, Payload>)
    ensures Aggregate(db.(indexed := i), p) == Aggregate(db, p).(indexed := i)
  {
    hide AggregationStmts;
    AggregationNeverPersists(p.event);
    StatementsIgnoreIndexed(db, AggregationStmts(p.event), i);
  }

  lemma {:induction false} StatementsIgnoreIndexed(db: DB, s: seq<Stmt>, i: map<string, Payload>)
    requires forall k :: 0 <= k < |s| ==> !s[k].Persist?
    ensures Fold(Exec, db.(indexed := i), s) == Fold(Exec, db, s).(indexed := i)
  {
    if s != [] {
      StatementsIgnoreIndexed(db, s[..|s| - 1], i);
    }
  }

  // ---- Logs with lock events --------------------------------------------------------------

  /** Aggregation as seen by every table but those of the locks. */
  ghost function AggregateButLocks(db: DB, p: Payload): DB {
    ButLocks(Aggregate(db, p))
  }

  lemma SeesNoLocks(a: DB, b: DB, p: Payload)
    requires ButLocks(a) == ButLocks(b)
    ensures AggregateButLocks(a, p) == AggregateButLocks(b, p)
  {
    hide AggregationStmts, Exec, ButLocks;
    LocksApart(a, b, AggregationStmts(p.event));
  }

  lemma LockEventUnseen(db: DB, p: Payload)
    requires !Replayable(p)
    ensures AggregateButLocks(db, p) == ButLocks(db)
  {
    hide Aggregate;
    AggregateByKind(db, p);
  }

  lemma AggregateTwiceButLocks(db: DB, a: Payload)
    ensures AggregateButLocks(AggregateButLocks(db, a), a) == AggregateButLocks(db, a)
  {
    hide Aggregate, Replayable;
    SeesNoLocks(AggregateButLocks(db, a), Aggregate(db, a), a);
    if Replayable(a) {
      AggregateTwice(db, a);
    } else {
      LockEventUnseen(Aggregate(db, a), a);
    }
  }

  lemma AggregateAroundButLocks(db: DB, a: Payload, b: Payload)
    requires Consistent([a, b])
    ensures AggregateButLocks(AggregateButLocks(AggregateButLocks(db, a), b), a)
        == AggregateButLocks(AggregateButLocks(db, b), a)
  {
    hide Aggregate, Replayable, Consistent;
    var da, db_ := Aggregate(db, a), Aggregate(db, b);
    SeesNoLocks(AggregateButLocks(db, a), da, b);
    SeesNoLocks(AggregateButLocks(AggregateButLocks(db, a), b), Aggregate(da, b), a);
    SeesNoLocks(AggregateButLocks(db, b), db_, a);
    if !Replayable(a) {
      LockEventUnseen(db, a);
      LockEventUnseen(db_, a);
      LockEventUnseen(Aggregate(da, b), a);
      SeesNoLocks(da, db, b);
    } else if !Replayable(b) {
      LockEventUnseen(db, b);
      LockEventUnseen(da, b);
      SeesNoLocks(Aggregate(da, b), da, a);
      SeesNoLocks(db_, db, a);
      AggregateTwice(db, a);
    } else {
      AggregateAround(db, a, b);
    }
  }

  lemma {:induction false} FoldButLocks(db: DB, log: seq<Payload>)
    ensures Fold(AggregateButLocks, ButLocks(db), log) == ButLocks(Fold(Aggregate, db, log))
  {
    hide Aggregate;
    if log != [] {
      var front := log[..|log| - 1];
      FoldButLocks(db, front);
      SeesNoLocks(ButLocks(Fold(Aggregate, db, front)), Fold(Aggregate, db, front), log[|log| - 1]);
    }
  }

  lemma {:induction false} LocksUnchanged(db: DB, log: seq<Payload>)
    requires forall i :: 0 <= i < |log| ==> Replayable(log[i])
    ensures Fold(Aggregate, db, log).locks == db.locks
  {
    hide Aggregate;
    if log != [] {
      var front := log[..|log| - 1];
      LocksUnchanged(db, front);
      AggregateByKind(Fold(Aggregate, db, front), log[|log| - 1]);
    }
  }

  /**
   * On tables that are the fold of a log, replaying any suffix of the log, the whole log
   * included, changes nothing but lock tables, and those only if there are lock events in it.
   */
  lemma ReplayOnFinishedTables(init: DB, log: seq<Payload>, from: nat)
    requires from <= |log| && Consistent(log)
    ensures var d := Fold(Apply, init, log);
      && ButLocks(Fold(Aggregate, d, log[from..])) == ButLocks(d)
      && ((forall i :: from <= i < |log| ==> Replayable(log[i])) ==> Fold(Aggregate, d, log[from..]) == d)
  {
    hide Apply, Aggregate, AggregateButLocks, Replayable;
    forall s, a | a in log ensures AggregateButLocks(AggregateButLocks(s, a), a) == AggregateButLocks(s, a) {
      AggregateTwiceButLocks(s, a);
    }
    forall s, a, b | a in log && b in log
      ensures AggregateButLocks(AggregateButLocks(AggregateButLocks(s, a), b), a)
          == AggregateButLocks(AggregateButLocks(s, b), a) {
      AggregateAroundButLocks(s, a, b);
    }
    ReplaySuffix(AggregateButLocks, ButLocks(init), log, from);
    var d, e := Fold(Apply, init, log), Fold(Aggregate, init, log);
    FoldButLocks(init, log);
    FoldButLocks(e, log[from..]);
    ApplyIsAggregate(init, log);
    ApplyIsAggregate(e, log[from..]);
    assert Fold(Aggregate, e.(indexed := d.indexed), log[from..])
        == Fold(Aggregate, e, log[from..]).(indexed := d.indexed);
    if forall i :: from <= i < |log| ==> Replayable(log[i]) {
      LocksUnchanged(d, log[from..]);
    }
  }
}
