/**
 * The handler of one indexer message, statement by statement, on the broker tables:
 * apps/broker/src/rabbitmq/rabbitmq.service.ts, the aggregators and the persistence service.
 */
module IndexerConsumer {
  import opened Results
  import opened EventLog
  import opened BrokerDb
  import opened Delivery
  import Votes
  import Stakes
  import Whitelist
  import Fees
  import Locks

  /** What the handler tells the channel. */
  datatype Verdict = Acked | NackRequeue | NackDrop

  /** An awaited call that returned, or threw; only some errors are worth a retry. */
  datatype Outcome = Done | Thrown(retryable: bool)

  /**
   * What becomes of a statement, which never asks for a retry: it commits, fails, or commits and its answer is an
   * error all the same.
   */
  datatype Fate = Commits | Fails | Lost

  /** The database; `fate(n)` is what becomes of the statement that it gets as number `n`. */
  class Database {
    const fate: nat -> Fate
    var calls: nat
    var indexedEvents: map<string, Payload>
    var votePositions: map<Votes.Key, Votes.Row>
    var voteEvents: map<string, Votes.EventRow>
    var stakeEvents: Stakes.Table
    var whitelistedTokens: map<string, bool>
    var pairs: map<string, Whitelist.Pair>
    var feeGlobal: Option<Fees.GlobalRow>
    var feePools: map<string, Fees.PoolRow>
    var feeDiscounts: map<string, string>
    var lockPositions: map<string, Locks.Row>
    var lockEvents: map<string, Locks.EventRow>

    ghost function Tables(): DB
      reads this
    {
      DB(indexedEvents, Votes.Tables(votePositions, voteEvents), stakeEvents,
         Whitelist.Tables(whitelistedTokens, pairs),
         Fees.Tables(feeGlobal, feePools, feeDiscounts), Locks.Tables(lockPositions, lockEvents))
    }

    constructor (fate: nat -> Fate)
      ensures this.fate == fate && calls == 0
    {
      this.fate := fate;
      calls := 0;
    }

    // ---- Single statements ----------------------------------------------------------------

    method QueryVotes(stmt: Votes.Stmt) returns (o: Outcome, ghost committed: bool)
      modifies this`calls, this`votePositions, this`voteEvents
      ensures Tables() == if committed then Exec(old(Tables()), VoteStmt(stmt)) else old(Tables())
      ensures calls == old(calls) + 1 && o == (if fate(old(calls)).Commits? then Done else Thrown(false))
      ensures committed <==> !fate(old(calls)).Fails?
    {
      o, committed := if fate(calls).Commits? then Done else Thrown(false), !fate(calls).Fails?;
      calls := calls + 1;
      if fate(calls - 1).Fails? {
        return;
      }
      match stmt
      case UpsertPosition(key, row) =>
        votePositions := votePositions[key := row];
        return;
      case ClearPosition(key) =>
        if key in votePositions {
          votePositions := votePositions[key := votePositions[key].(weight := "0", isActive := false)];
        }
        return;
      case InsertEvent(id, event) =>
        if id !in voteEvents {
          voteEvents := voteEvents[id := event];
        }
        return;
    }

    method QueryWhitelist(stmt: Whitelist.Stmt) returns (o: Outcome, ghost committed: bool)
      modifies this`calls, this`whitelistedTokens, this`pairs
      ensures Tables() == if committed then Exec(old(Tables()), WhitelistStmt(stmt)) else old(Tables())
      ensures calls == old(calls) + 1 && o == (if fate(old(calls)).Commits? then Done else Thrown(false))
      ensures committed <==> !fate(old(calls)).Fails?
    {
      o, committed := if fate(calls).Commits? then Done else Thrown(false), !fate(calls).Fails?;
      calls := calls + 1;
      if fate(calls - 1).Fails? {
        return;
      }
      match stmt
      case UpsertToken(token, whitelisted) =>
        whitelistedTokens := whitelistedTokens[token := whitelisted];
        return;
      case RecomputePairs(token) =>
        pairs := map p | p in pairs ::
          if pairs[p].token0 == token || pairs[p].token1 == token
          then Whitelist.Recomputed(whitelistedTokens, pairs[p]) else pairs[p];
        return;
    }

    method QueryLocks(stmt: Locks.Stmt) returns (o: Outcome, ghost committed: bool)
      modifies this`calls, this`lockPositions, this`lockEvents
      ensures Tables() == if committed then Exec(old(Tables()), LockStmt(stmt)) else old(Tables())
      ensures calls == old(calls) + 1 && o == (if fate(old(calls)).Commits? then Done else Thrown(false))
      ensures committed <==> !fate(old(calls)).Fails?
    {
      o, committed := if fate(calls).Commits? then Done else Thrown(false), !fate(calls).Fails?;
      calls := calls + 1;
      if fate(calls - 1).Fails? {
        return;
      }
      hide Exec, Locks.Exec;
      ghost var was := Tables();
      if stmt.InsertEvent? {
        if stmt.id !in lockEvents {
          lockEvents := lockEvents[stmt.id := stmt.event];
        }
        InsertedLockEvent(was, Tables(), stmt);
        return;
      }
      var k := stmt.tokenId;
      if k in lockPositions {
        var row := lockPositions[k];
        var changed :=
          match stmt
          case AddAmount(_, value) => row.(amount := row.amount + value)
          case SetLockEnd(_, lockEnd) => row.(lockEnd := Some(lockEnd))
          case Deactivate(_) => row.(isActive := false, amount := 0)
          case SetPermanent(_) => row.(isPermanent := true, lockEnd := None)
          case ClearPermanent(_) => row.(isPermanent := false)
          case SetAmount(_, value, lockEnd) => row.(amount := value, lockEnd := Some(lockEnd))
          case UpsertPosition(_, new_) => row.(amount := new_.amount, lockEnd := new_.lockEnd, isActive := true)
          case _ => row;
        assert Locks.PositionStep(stmt, Some(row)) == Some(changed);
        lockPositions := lockPositions[k := changed];
      } else if stmt.InsertPosition? || stmt.UpsertPosition? {
        lockPositions := lockPositions[k := stmt.row];
      }
      StoredLock(was, Tables(), stmt);
      return;
    }

    method QueryStakes(e: Stakes.Event) returns (o: Outcome, ghost committed: bool)
      modifies this`calls, this`stakeEvents
      ensures Tables() == if committed then Exec(old(Tables()), StakeStmt(e)) else old(Tables())
      ensures calls == old(calls) + 1 && o == (if fate(old(calls)).Commits? then Done else Thrown(false))
      ensures committed <==> !fate(old(calls)).Fails?
    {
      o, committed := if fate(calls).Commits? then Done else Thrown(false), !fate(calls).Fails?;
      calls := calls + 1;
      if fate(calls - 1).Fails? {
        return;
      }
      if e.key !in stakeEvents {
        stakeEvents := stakeEvents[e.key := Stakes.RowOf(e)];
      }
      return;
    }

    /**
     * The fee handlers. Custom-fee and reset events run beside an update of the swap graph, whose
     * failure can come after the fee row was already written.
     */
    method QueryFees(e: Fees.Event) returns (o: Outcome, ghost committed: bool)
      modifies this`calls, this`feeGlobal, this`feePools, this`feeDiscounts
      ensures Tables() == if committed then Exec(old(Tables()), FeeStmt(e)) else old(Tables())
      ensures calls == old(calls) + 1 && o == (if fate(old(calls)).Commits? then Done else Thrown(false))
      ensures committed <==> !fate(old(calls)).Fails?
    {
      hide Fees.Apply;
      o, committed := if fate(calls).Commits? then Done else Thrown(false), !fate(calls).Fails?;
      calls := calls + 1;
      if fate(calls - 1).Fails? {
        return;
      }
      var t := Fees.Apply(Fees.Tables(feeGlobal, feePools, feeDiscounts), e);
      feeGlobal, feePools, feeDiscounts := t.global, t.pools, t.discounts;
    }

    /** `persistIfNew`: an id that is already stored is not an error. */
    method PersistIfNew(p: Payload) returns (o: Outcome, ghost done: nat)
      modifies this`indexedEvents, this`calls
      ensures Attempted(old(Tables()), Tables(), PersistStmts(p), o, done, fate, old(calls), calls)
    {
      AttemptNone(Tables(), PersistStmts(p));
      done := 0;
      if p.id == "" {
        return Done, 0;
      }
      ghost var from, start := calls, Tables();
      o := if fate(calls).Commits? then Done else Thrown(false);
      calls := calls + 1;
      if !fate(calls - 1).Fails? {
        if p.id !in indexedEvents {
          indexedEvents := indexedEvents[p.id := p];
        }
        done := 1;
      }
      AttemptStep(start, start, Tables(), PersistStmts(p), 0, o, done == 1, fate, from);
    }

    // ---- Aggregators ----------------------------------------------------------------------

    method AggregateVoterVoted(e: Votes.Event) returns (o: Outcome, ghost done: nat)
      requires e.row.kind == Votes.Voted
      modifies this
      ensures Attempted(old(Tables()), Tables(), AggregationStmts(VoteEvent(e)), o, done, fate, old(calls), calls)
    {
      hide AggregationStmts, Exec, Tables, Ended;
      ghost var s := AggregationStmts(VoteEvent(e));
      ghost var committed: bool;
      VoteStatements(e);
      AttemptNone(Tables(), s);
      done := 0;
      var r := e.row;
      label L0:
      o, committed := QueryVotes(Votes.UpsertPosition(r.key,
        Votes.Row(r.owner, r.weight, r.totalWeight, r.epochTimestamp, true)));
      AttemptStep(old(Tables()), old@L0(Tables()), Tables(), s, 0, o, committed, fate, old(calls));
      done := if committed then 1 else 0;
      if o.Thrown? { return; }
      label L1:
      o, committed := QueryVotes(Votes.InsertEvent(e.id, r));
      AttemptStep(old(Tables()), old@L1(Tables()), Tables(), s, 1, o, committed, fate, old(calls));
      done := if committed then 2 else 1;
    }

    method AggregateVoterAbstained(e: Votes.Event) returns (o: Outcome, ghost done: nat)
      requires e.row.kind == Votes.Abstained
      modifies this
      ensures Attempted(old(Tables()), Tables(), AggregationStmts(VoteEvent(e)), o, done, fate, old(calls), calls)
    {
      hide AggregationStmts, Exec, Tables, Ended;
      ghost var s := AggregationStmts(VoteEvent(e));
      ghost var committed: bool;
      VoteStatements(e);
      AttemptNone(Tables(), s);
      done := 0;
      label L0:
      o, committed := QueryVotes(Votes.ClearPosition(e.row.key));
      AttemptStep(old(Tables()), old@L0(Tables()), Tables(), s, 0, o, committed, fate, old(calls));
      done := if committed then 1 else 0;
      if o.Thrown? { return; }
      label L1:
      o, committed := QueryVotes(Votes.InsertEvent(e.id, e.row));
      AttemptStep(old(Tables()), old@L1(Tables()), Tables(), s, 1, o, committed, fate, old(calls));
      done := if committed then 2 else 1;
    }

    method AggregateVoterWhitelistToken(e: Whitelist.Event) returns (o: Outcome, ghost done: nat)
      modifies this
      ensures Attempted(old(Tables()), Tables(), AggregationStmts(WhitelistEvent(e)), o, done, fate, old(calls), calls)
    {
      hide AggregationStmts, Exec, Tables, Ended;
      ghost var s := AggregationStmts(WhitelistEvent(e));
      ghost var committed: bool;
      WhitelistStatements(e);
      AttemptNone(Tables(), s);
      done := 0;
      if e.token == "" {
        NothingToRun(fate, calls);
        return Done, 0;
      }
      label L0:
      o, committed := QueryWhitelist(Whitelist.UpsertToken(e.token, e.whitelisted));
      AttemptStep(old(Tables()), old@L0(Tables()), Tables(), s, 0, o, committed, fate, old(calls));
      done := if committed then 1 else 0;
      if o.Thrown? { return; }
      label L1:
      o, committed := QueryWhitelist(Whitelist.RecomputePairs(e.token));
      AttemptStep(old(Tables()), old@L1(Tables()), Tables(), s, 1, o, committed, fate, old(calls));
      done := if committed then 2 else 1;
    }

    method AggregateVeDeposit(e: Locks.Event) returns (o: Outcome, ghost done: nat)
      requires e.Deposit?
      modifies this
      ensures Attempted(old(Tables()), Tables(), AggregationStmts(LockEvent(e)), o, done, fate, old(calls), calls)
    {
      hide AggregationStmts, Exec, Tables, Ended;
      ghost var s := AggregationStmts(LockEvent(e));
      ghost var committed: bool;
      LockStatements(e);
      AttemptNone(Tables(), s);
      done := 0;
      var lockEnd := if e.depositType == Locks.INCREASE_UNLOCK_TIME then Some(e.locktime) else None;
      label L0:
      o, committed := QueryLocks(Locks.InsertEvent(e.id,
        Locks.EventRow(e.tokenId, e.owner, "Deposit", Some(e.depositType), e.value, lockEnd, None, None)));
      AttemptStep(old(Tables()), old@L0(Tables()), Tables(), s, 0, o, committed, fate, old(calls));
      done := if committed then 1 else 0;
      if o.Thrown? { return; }
      label L1:
      if e.depositType == Locks.CREATE_LOCK_TYPE {
        o, committed := QueryLocks(Locks.InsertPosition(e.tokenId,
          Locks.Row(e.owner, e.value, Some(e.locktime), false, true)));
      } else if e.depositType == Locks.INCREASE_LOCK_AMOUNT || e.depositType == "0" {
        o, committed := QueryLocks(Locks.AddAmount(e.tokenId, e.value));
      } else if e.depositType == Locks.INCREASE_UNLOCK_TIME {
        o, committed := QueryLocks(Locks.SetLockEnd(e.tokenId, e.locktime));
      } else {
        return;
      }
      AttemptStep(old(Tables()), old@L1(Tables()), Tables(), s, 1, o, committed, fate, old(calls));
      done := if committed then 2 else 1;
    }

    method AggregateVeWithdraw(e: Locks.Event) returns (o: Outcome, ghost done: nat)
      requires e.Withdraw?
      modifies this
      ensures Attempted(old(Tables()), Tables(), AggregationStmts(LockEvent(e)), o, done, fate, old(calls), calls)
    {
      hide AggregationStmts, Exec, Tables, Ended;
      ghost var s := AggregationStmts(LockEvent(e));
      ghost var committed: bool;
      LockStatements(e);
      AttemptNone(Tables(), s);
      done := 0;
      label L0:
      o, committed := QueryLocks(Locks.InsertEvent(e.id,
        Locks.EventRow(e.tokenId, e.owner, "Withdraw", None, e.value, None, None, None)));
      AttemptStep(old(Tables()), old@L0(Tables()), Tables(), s, 0, o, committed, fate, old(calls));
      done := if committed then 1 else 0;
      if o.Thrown? { return; }
      label L1:
      o, committed := QueryLocks(Locks.Deactivate(e.tokenId));
      AttemptStep(old(Tables()), old@L1(Tables()), Tables(), s, 1, o, committed, fate, old(calls));
      done := if committed then 2 else 1;
    }

    method AggregateVeLockPermanent(e: Locks.Event) returns (o: Outcome, ghost done: nat)
      requires e.LockPermanent?
      modifies this
      ensures Attempted(old(Tables()), Tables(), AggregationStmts(LockEvent(e)), o, done, fate, old(calls), calls)
    {
      hide AggregationStmts, Exec, Tables, Ended;
      ghost var s := AggregationStmts(LockEvent(e));
      ghost var committed: bool;
      LockStatements(e);
      AttemptNone(Tables(), s);
      done := 0;
      label L0:
      o, committed := QueryLocks(Locks.InsertEvent(e.id,
        Locks.EventRow(e.tokenId, e.owner, "LockPermanent", None, e.amount, None, None, None)));
      AttemptStep(old(Tables()), old@L0(Tables()), Tables(), s, 0, o, committed, fate, old(calls));
      done := if committed then 1 else 0;
      if o.Thrown? { return; }
      label L1:
      o, committed := QueryLocks(Locks.SetPermanent(e.tokenId));
      AttemptStep(old(Tables()), old@L1(Tables()), Tables(), s, 1, o, committed, fate, old(calls));
      done := if committed then 2 else 1;
    }

    method AggregateVeUnlockPermanent(e: Locks.Event) returns (o: Outcome, ghost done: nat)
      requires e.UnlockPermanent?
      modifies this
      ensures Attempted(old(Tables()), Tables(), AggregationStmts(LockEvent(e)), o, done, fate, old(calls), calls)
    {
      hide AggregationStmts, Exec, Tables, Ended;
      ghost var s := AggregationStmts(LockEvent(e));
      ghost var committed: bool;
      LockStatements(e);
      AttemptNone(Tables(), s);
      done := 0;
      label L0:
      o, committed := QueryLocks(Locks.InsertEvent(e.id,
        Locks.EventRow(e.tokenId, e.owner, "UnlockPermanent", None, e.amount, None, None, None)));
      AttemptStep(old(Tables()), old@L0(Tables()), Tables(), s, 0, o, committed, fate, old(calls));
      done := if committed then 1 else 0;
      if o.Thrown? { return; }
      label L1:
      o, committed := QueryLocks(Locks.ClearPermanent(e.tokenId));
      AttemptStep(old(Tables()), old@L1(Tables()), Tables(), s, 1, o, committed, fate, old(calls));
      done := if committed then 2 else 1;
    }

    method AggregateVeMerge(e: Locks.Event) returns (o: Outcome, ghost done: nat)
      requires e.Merge?
      modifies this
      ensures Attempted(old(Tables()), Tables(), AggregationStmts(LockEvent(e)), o, done, fate, old(calls), calls)
    {
      hide AggregationStmts, Exec, Tables, Ended;
      ghost var s := AggregationStmts(LockEvent(e));
      ghost var committed: bool;
      LockStatements(e);
      AttemptNone(Tables(), s);
      done := 0;
      label L0:
      o, committed := QueryLocks(Locks.InsertEvent(e.id,
        Locks.EventRow(e.from, e.owner, "Merge", None, e.amountFinal, Some(e.locktime), Some(e.from), Some(e.to))));
      AttemptStep(old(Tables()), old@L0(Tables()), Tables(), s, 0, o, committed, fate, old(calls));
      done := if committed then 1 else 0;
      if o.Thrown? { return; }
      label L1:
      o, committed := QueryLocks(Locks.Deactivate(e.from));
      AttemptStep(old(Tables()), old@L1(Tables()), Tables(), s, 1, o, committed, fate, old(calls));
      done := if committed then 2 else 1;
      if o.Thrown? { return; }
      label L2:
      o, committed := QueryLocks(Locks.SetAmount(e.to, e.amountFinal, e.locktime));
      AttemptStep(old(Tables()), old@L2(Tables()), Tables(), s, 2, o, committed, fate, old(calls));
      done := if committed then 3 else 2;
    }

    method AggregateVeSplit(e: Locks.Event) returns (o: Outcome, ghost done: nat)
      requires e.Split?
      modifies this
      ensures Attempted(old(Tables()), Tables(), AggregationStmts(LockEvent(e)), o, done, fate, old(calls), calls)
    {
      hide AggregationStmts, Exec, Tables, Ended;
      ghost var s := AggregationStmts(LockEvent(e));
      ghost var committed: bool;
      LockStatements(e);
      AttemptNone(Tables(), s);
      done := 0;
      label L0:
      o, committed := QueryLocks(Locks.InsertEvent(e.id,
        Locks.EventRow(e.from, e.owner, "Split", None, e.splitAmount1, Some(e.locktime),
                       Some(e.tokenId1), Some(e.tokenId2))));
      AttemptStep(old(Tables()), old@L0(Tables()), Tables(), s, 0, o, committed, fate, old(calls));
      done := if committed then 1 else 0;
      if o.Thrown? { return; }
      label L1:
      o, committed := QueryLocks(Locks.Deactivate(e.from));
      AttemptStep(old(Tables()), old@L1(Tables()), Tables(), s, 1, o, committed, fate, old(calls));
      done := if committed then 2 else 1;
      if o.Thrown? { return; }
      label L2:
      o, committed := QueryLocks(Locks.UpsertPosition(e.tokenId1,
        Locks.Row(e.owner, e.splitAmount1, Some(e.locktime), false, true)));
      AttemptStep(old(Tables()), old@L2(Tables()), Tables(), s, 2, o, committed, fate, old(calls));
      done := if committed then 3 else 2;
      if o.Thrown? { return; }
      label L3:
      o, committed := QueryLocks(Locks.UpsertPosition(e.tokenId2,
        Locks.Row(e.owner, e.splitAmount2, Some(e.locktime), false, true)));
      AttemptStep(old(Tables()), old@L3(Tables()), Tables(), s, 3, o, committed, fate, old(calls));
      done := if committed then 4 else 3;
    }

    /** The switch over the event type; unmapped types run nothing. */
    method AggregateIndexedEvent(e: Event) returns (o: Outcome, ghost done: nat)
      modifies this
      ensures Attempted(old(Tables()), Tables(), AggregationStmts(e), o, done, fate, old(calls), calls)
    {
      hide AggregationStmts;
      match e
      case VoteEvent(v) =>
        if v.row.kind == Votes.Voted {
          o, done := AggregateVoterVoted(v);
        } else {
          o, done := AggregateVoterAbstained(v);
        }
      case StakeEvent(stake) =>
        ghost var committed: bool;
        SingleStatement(e);
        AttemptNone(Tables(), AggregationStmts(e));
        o, committed := QueryStakes(stake);
        done := if committed then 1 else 0;
        AttemptStep(old(Tables()), old(Tables()), Tables(), AggregationStmts(e), 0, o, committed, fate, old(calls));
      case WhitelistEvent(w) =>
        o, done := AggregateVoterWhitelistToken(w);
      case FeeEvent(f) =>
        ghost var committed: bool;
        SingleStatement(e);
        AttemptNone(Tables(), AggregationStmts(e));
        o, committed := QueryFees(f);
        done := if committed then 1 else 0;
        AttemptStep(old(Tables()), old(Tables()), Tables(), AggregationStmts(e), 0, o, committed, fate, old(calls));
      case LockEvent(l) =>
        match l {
          case Deposit(_, _, _, _, _, _) => o, done := AggregateVeDeposit(l);
          case Withdraw(_, _, _, _) => o, done := AggregateVeWithdraw(l);
          case LockPermanent(_, _, _, _) => o, done := AggregateVeLockPermanent(l);
          case UnlockPermanent(_, _, _, _) => o, done := AggregateVeUnlockPermanent(l);
          case Merge(_, _, _, _, _, _) => o, done := AggregateVeMerge(l);
          case Split(_, _, _, _, _, _, _, _) => o, done := AggregateVeSplit(l);
        }
      case Unmapped(_) =>
        o, done := Done, 0;
        AttemptNothing(Tables(), e, fate, calls);
    }

    // ---- The handler ----------------------------------------------------------------------

    /**
     * Persist, aggregate, fan out, publish; then ack, or nack. `beside` is how the rest of it ends,
     * which runs none of these statements: the aggregation of an unmapped type, fan-out and cache
     * publication. `sent` is what the gateway exchange answers. The statements of the message run
     * in order up to the first that is not simply committed; with that one the message is refused.
     */
    method HandleIndexerMessage(msg: Msg, beside: Outcome, sent: bool)
      returns (verdict: Verdict, refused: bool, ghost done: nat)
      modifies this
      ensures Attempted(old(Tables()), Tables(), Stmts(msg.payload), if refused then Thrown(false) else Done, done,
                        fate, old(calls), calls)
      ensures verdict == Acked <==> !refused && beside.Done? && sent
      ensures verdict == NackDrop <==> refused || (beside.Thrown? && (!beside.retryable || msg.redelivered))
      ensures verdict == NackRequeue <==>
        !refused && if beside.Done? then !sent else beside.retryable && !msg.redelivered
    {
      hide Exec, AggregationStmts, PersistStmts, Attempted;
      var p := msg.payload;
      var o: Outcome;
      o, done := PersistIfNew(p);
      if o.Done? {
        ghost var more: nat;
        label L:
        o, more := AggregateIndexedEvent(p.event);
        ThenAggregated(old(Tables()), old@L(Tables()), Tables(), p, o, done, more, fate, old(calls), old@L(calls),
                       calls);
        done := done + more;
      } else {
        NotStored(old(Tables()), Tables(), p, o, done, fate, old(calls), calls);
      }
      refused := o.Thrown?;
      if o.Done? {
        o := beside;
      }
      if o.Done? {
        verdict := if sent then Acked else NackRequeue;
      } else {
        var shouldRequeue := o.retryable && !msg.redelivered;
        verdict := if shouldRequeue then NackRequeue else NackDrop;
      }
    }
  }

  /**
   * The statements got the numbers `from` to `to - 1`, and all but the last committed. Either that
   * was all of them, and the last committed too, or it is the last that was answered by `o`.
   */
  ghost predicate Ended(stmts: seq<Stmt>, o: Outcome, done: nat, fate: nat -> Fate, from: nat, to: nat) {
    if o.Done? then
      done == |stmts| && to == from + |stmts| && forall k :: from <= k < to ==> fate(k).Commits?
    else
      && from < to <= from + |stmts| && (forall k :: from <= k < to - 1 ==> fate(k).Commits?)
      && !fate(to - 1).Commits? && o == Thrown(false)
      && done == to - from - if fate(to - 1).Fails? then 1 else 0
  }

  /** So they ended, and `done` of them have committed. */
  ghost predicate Attempted(before: DB, after: DB, stmts: seq<Stmt>, o: Outcome, done: nat,
                            fate: nat -> Fate, from: nat, to: nat) {
    Ended(stmts, o, done, fate, from, to) && done <= |stmts| && after == Fold(Exec, before, stmts[..done])
  }

  lemma InsertedLockEvent(was: DB, now: DB, stmt: Locks.Stmt)
    requires stmt.InsertEvent?
    requires now == was.(locks := was.locks.(events :=
      if stmt.id in was.locks.events then was.locks.events else was.locks.events[stmt.id := stmt.event]))
    ensures now == Exec(was, LockStmt(stmt))
  {
  }

  lemma StoredLock(was: DB, now: DB, stmt: Locks.Stmt)
    requires !stmt.InsertEvent?
    requires var p := was.locks.positions;
      now == was.(locks := was.locks.(positions :=
        match Locks.PositionStep(stmt, Locks.PositionOf(was.locks, stmt.tokenId))
        case None => p
        case Some(row) => p[stmt.tokenId := row]))
    ensures now == Exec(was, LockStmt(stmt))
  {
  }

  lemma VoteStatements(e: Votes.Event)
    ensures AggregationStmts(VoteEvent(e)) == [VoteStmt(Votes.Stmts(e)[0]), VoteStmt(Votes.Stmts(e)[1])]
  {
    assert |Votes.Stmts(e)| == 2;
  }

  lemma WhitelistStatements(e: Whitelist.Event)
    ensures AggregationStmts(WhitelistEvent(e)) ==
      if e.token == "" then []
      else [WhitelistStmt(Whitelist.UpsertToken(e.token, e.whitelisted)),
            WhitelistStmt(Whitelist.RecomputePairs(e.token))]
  {
    assert e.token != "" ==> |Whitelist.Stmts(e)| == 2;
  }

  lemma NothingToRun(fate: nat -> Fate, from: nat)
    ensures Ended([], Done, 0, fate, from, from)
  {
  }

  lemma LockStatements(e: Locks.Event)
    ensures var s, l := AggregationStmts(LockEvent(e)), Locks.Stmts(e);
      |s| == |l| && forall i :: 0 <= i < |s| ==> s[i] == LockStmt(l[i])
  {
  }

  lemma AttemptNone(db: DB, stmts: seq<Stmt>)
    ensures db == Fold(Exec, db, stmts[..0])
  {
    assert stmts[..0] == [];
  }

  /** Statement `n` after the ones before it have committed. */
  lemma AttemptStep(start: DB, before: DB, after: DB, stmts: seq<Stmt>, n: nat, o: Outcome, committed: bool,
                    fate: nat -> Fate, from: nat)
    requires n < |stmts| && before == Fold(Exec, start, stmts[..n])
    requires forall k :: from <= k < from + n ==> fate(k).Commits?
    requires committed == !fate(from + n).Fails? && after == if committed then Exec(before, stmts[n]) else before
    requires o == if fate(from + n).Commits? then Done else Thrown(false)
    ensures after == Fold(Exec, start, stmts[..if committed then n + 1 else n])
    ensures o.Thrown? ==> Ended(stmts, o, if committed then n + 1 else n, fate, from, from + n + 1)
    ensures o.Done? ==> committed && forall k :: from <= k < from + n + 1 ==> fate(k).Commits?
    ensures o.Done? && n + 1 == |stmts| ==> Ended(stmts, o, n + 1, fate, from, from + n + 1)
  {
    hide Exec;
    assert stmts[..n + 1] == stmts[..n] + [stmts[n]];
    FoldSnoc(start, stmts[..n], stmts[n]);
  }

  lemma SingleStatement(e: Event)
    ensures e.StakeEvent? ==> AggregationStmts(e) == [StakeStmt(e.stake)]
    ensures e.FeeEvent? ==> AggregationStmts(e) == [FeeStmt(e.fee)]
  {
  }

  lemma AttemptNothing(db: DB, e: Event, fate: nat -> Fate, from: nat)
    requires e.Unmapped?
    ensures Attempted(db, db, AggregationStmts(e), Done, 0, fate, from, from)
  {
  }

  lemma NotStored(start: DB, after: DB, p: Payload, o: Outcome, done: nat, fate: nat -> Fate, from: nat, to: nat)
    requires o.Thrown? && Attempted(start, after, PersistStmts(p), o, done, fate, from, to)
    ensures Attempted(start, after, Stmts(p), o, done, fate, from, to) && o == Thrown(false)
  {
    hide Exec, AggregationStmts, PersistStmts;
    assert Stmts(p)[..done] == PersistStmts(p)[..done];
  }

  lemma ThenAggregated(start: DB, stored: DB, after: DB, p: Payload, o: Outcome, done: nat, more: nat,
                       fate: nat -> Fate, from: nat, between: nat, to: nat)
    requires Attempted(start, stored, PersistStmts(p), Done, done, fate, from, between)
    requires Attempted(stored, after, AggregationStmts(p.event), o, more, fate, between, to)
    ensures Attempted(start, after, Stmts(p), o, done + more, fate, from, to)
    ensures o.Thrown? ==> o == Thrown(false)
  {
    hide Exec, AggregationStmts, PersistStmts;
    var a, b := PersistStmts(p), AggregationStmts(p.event);
    assert a[..|a|] == a && (a + b)[..|a| + more] == a + b[..more];
    FoldConcat(Exec, start, a, b[..more]);
  }

  // ---- The handler as steps of the delivery protocol --------------------------------------

  ghost function Executes(n: nat): seq<Step> {
    if n == 0 then [] else Executes(n - 1) + [Execute]
  }

  lemma {:induction false} ExecutesReach(s: State, n: nat)
    requires s.inflight.Some? && s.inflight.value.done == 0 && s.inflight.value.start == s.db
    requires n <= |Stmts(s.inflight.value.msg.payload)|
    ensures Run(s, Executes(n)) == Some(Reached(s, n))
  {
    hide Exec, Stmts, Reached, Next;
    if n == 0 {
      ReachedNothing(s);
    } else {
      ExecutesReach(s, n - 1);
      assert (Executes(n - 1) + [Execute])[..|Executes(n - 1)|] == Executes(n - 1);
      OneMoreReached(s, n);
    }
  }

  /** `s` once the first `n` statements of the message in flight have committed. */
  ghost function Reached(s: State, n: nat): State
    requires s.inflight.Some? && n <= |Stmts(s.inflight.value.msg.payload)|
  {
    var m := s.inflight.value.msg;
    s.(db := Fold(Exec, s.db, Stmts(m.payload)[..n]), inflight := Some(Inflight(m, n, s.db)))
  }

  lemma ReachedNothing(s: State)
    requires s.inflight.Some? && s.inflight.value.done == 0 && s.inflight.value.start == s.db
    ensures Reached(s, 0) == s
  {
    hide Exec, Stmts;
    assert Stmts(s.inflight.value.msg.payload)[..0] == [];
  }

  lemma OneMoreReached(s: State, n: nat)
    requires s.inflight.Some? && 0 < n <= |Stmts(s.inflight.value.msg.payload)|
    ensures Next(Reached(s, n - 1), Execute) == Some(Reached(s, n))
  {
    hide Exec, Stmts;
    var stmts := Stmts(s.inflight.value.msg.payload);
    assert stmts[..n] == stmts[..n - 1] + [stmts[n - 1]];
    FoldSnoc(s.db, stmts[..n - 1], stmts[n - 1]);
  }

  /**
   * `t` is `s` once the attempt on the message in flight ended after `done` statements. Without an
   * error the message is acked if it was sent on, and else back at the head; after one it is back
   * at the head if the error asks for a retry and it came for the first time, and else dropped.
   */
  ghost predicate EndsWith(s: State, t: State, o: Outcome, sent: bool, done: nat)
    requires s.inflight.Some? && done <= |Stmts(s.inflight.value.msg.payload)|
  {
    var m := s.inflight.value.msg;
    var after := s.(db := Fold(Exec, s.db, Stmts(m.payload)[..done]), inflight := None);
    var completed := m.completed + if done == |Stmts(m.payload)| then 1 else 0;
    if o.Done? && sent then
      t == after.(acked := s.acked + [m], handled := s.handled + [Sent(m)], base := after.db)
    else if o.Done? then
      t == after.(queue := [Msg(m.payload, true, m.errorRequeues, completed, m.cuts + [done])] + s.queue)
    else if o.retryable && !m.redelivered then
      t == after.(queue := [Msg(m.payload, true, m.errorRequeues + 1, completed, m.cuts + [done])] + s.queue)
    else
      t == after.(dropped := s.dropped + [m.payload], handled := s.handled + [Dropped(m, done)], base := after.db)
  }

  /** Whatever the handler's contract allows is a run of the protocol that ends with its verdict. */
  lemma HandlerIsARun(s: State, refused: bool, beside: Outcome, sent: bool, done: nat)
    returns (steps: seq<Step>)
    requires s.inflight.Some? && s.inflight.value.done == 0 && s.inflight.value.start == s.db
    requires var stmts := Stmts(s.inflight.value.msg.payload);
      done <= |stmts| && (!refused ==> done == |stmts|)
    ensures Run(s, steps).Some?
    ensures EndsWith(s, Run(s, steps).value, if refused then Thrown(false) else beside, sent, done)
  {
    hide Exec, Stmts, Next, EndsWith, Reached;
    var o := if refused then Thrown(false) else beside;
    ExecutesReach(s, done);
    steps := Executes(done) + [FinalStep(o, sent)];
    assert steps[..|steps| - 1] == Executes(done);
    FinalStepEnds(s, o, sent, done);
  }

  /** An error ends the attempt on the error path, whichever statement or call it came from. */
  function FinalStep(o: Outcome, sent: bool): Step {
    match o
    case Done => if sent then Ack else PublishRefused
    case Thrown(retryable) => Fail(retryable)
  }

  lemma FinalStepEnds(s: State, o: Outcome, sent: bool, done: nat)
    requires s.inflight.Some?
    requires var stmts := Stmts(s.inflight.value.msg.payload);
      done <= |stmts| && (o.Done? ==> done == |stmts|)
    ensures var t := Next(Reached(s, done), FinalStep(o, sent)); t.Some? && EndsWith(s, t.value, o, sent, done)
  {
    hide Exec, Stmts;
  }
}
