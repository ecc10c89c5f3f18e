/** The projected lock positions against a plain escrow ledger. */
module LockLedger {
  import opened Results
  import opened EventLog
  import opened Locks
  import opened Totals

  // ---- The escrow ledger ------------------------------------------------------------------

  /** Amounts of live locks, the tokens ever minted, and the flows in and out. */
  datatype Ledger = Ledger(locks: map<string, int>, minted: set<string>, created: int, increased: int, withdrawn: int)

  const EMPTY := Ledger(map[], {}, 0, 0, 0)

  /** The events the escrow contract can emit next. */
  ghost predicate CanEmit(l: Ledger, e: Event) {
    match e
    case Deposit(_, _, tokenId, depositType, value, _) =>
      value >= 0
      && (if depositType == CREATE_LOCK_TYPE then tokenId !in l.minted
          else depositType in {INCREASE_LOCK_AMOUNT, "0", INCREASE_UNLOCK_TIME} && tokenId in l.locks)
    case Withdraw(_, _, tokenId, value) => tokenId in l.locks && value == l.locks[tokenId]
    case LockPermanent(_, _, tokenId, _) => tokenId in l.locks
    case UnlockPermanent(_, _, tokenId, _) => tokenId in l.locks
    case Merge(_, _, from, to, amountFinal, _) =>
      from != to && from in l.locks && to in l.locks && amountFinal == l.locks[from] + l.locks[to]
    case Split(_, _, from, tokenId1, tokenId2, amount1, amount2, _) =>
      from in l.locks && tokenId1 !in l.minted && tokenId2 !in l.minted && tokenId1 != tokenId2
      && amount1 >= 0 && amount2 >= 0 && amount1 + amount2 == l.locks[from]
  }

  ghost function Post(l: Ledger, e: Event): Ledger
    requires CanEmit(l, e)
  {
    match e
    case Deposit(_, _, tokenId, depositType, value, _) =>
      if depositType == CREATE_LOCK_TYPE
      then l.(locks := l.locks[tokenId := value], minted := l.minted + {tokenId}, created := l.created + value)
      else if depositType == INCREASE_UNLOCK_TIME then l
      else l.(locks := l.locks[tokenId := l.locks[tokenId] + value], increased := l.increased + value)
    case Withdraw(_, _, tokenId, value) => l.(locks := l.locks - {tokenId}, withdrawn := l.withdrawn + value)
    case LockPermanent(_, _, _, _) => l
    case UnlockPermanent(_, _, _, _) => l
    case Merge(_, _, from, to, amountFinal, _) => l.(locks := (l.locks - {from})[to := amountFinal])
    case Split(_, _, from, tokenId1, tokenId2, amount1, amount2, _) =>
      l.(locks := (l.locks - {from})[tokenId1 := amount1][tokenId2 := amount2],
         minted := l.minted + {tokenId1, tokenId2})
  }

  /** The ledger after a run of events the contract can emit in this order. */
  ghost function Posted(log: seq<Event>): Option<Ledger> {
    if log == [] then Some(EMPTY)
    else
      match Posted(log[..|log| - 1])
      case None => None
      case Some(l) => if CanEmit(l, log[|log| - 1]) then Some(Post(l, log[|log| - 1])) else None
  }

  // ---- Refinement -------------------------------------------------------------------------

  /** Rows are the minted tokens; active rows carry the ledger's amounts, inactive ones zero. */
  ghost predicate Represents(t: Tables, l: Ledger) {
    && t.positions.Keys == l.minted && l.locks.Keys <= l.minted
    && forall k :: k in t.positions ==>
      && (t.positions[k].isActive <==> k in l.locks)
      && t.positions[k].amount == if k in l.locks then l.locks[k] else 0
  }

  /** What a statement does to the row of token `k`. */
  ghost function RowStep(stmt: Stmt, k: string, p: Option<Row>): Option<Row> {
    if stmt.InsertEvent? || stmt.tokenId != k then p else PositionStep(stmt, p)
  }

  ghost function RowAfter(stmts: seq<Stmt>, k: string, p: Option<Row>): Option<Row> {
    if stmts == [] then p else RowStep(stmts[|stmts| - 1], k, RowAfter(stmts[..|stmts| - 1], k, p))
  }

  lemma {:induction false} FoldPosition(t: Tables, stmts: seq<Stmt>, k: string)
    ensures PositionOf(Fold(Exec, t, stmts), k) == RowAfter(stmts, k, PositionOf(t, k))
  {
    hide Exec, PositionOf, PositionStep;
    if stmts != [] {
      FoldPosition(t, stmts[..|stmts| - 1], k);
      ExecPosition(Fold(Exec, t, stmts[..|stmts| - 1]), stmts[|stmts| - 1], k);
    }
  }

  lemma RowAfterUpToFour(s: seq<Stmt>, k: string, p: Option<Row>)
    ensures |s| == 2 ==> RowAfter(s, k, p) == RowStep(s[1], k, RowStep(s[0], k, p))
    ensures |s| == 3 ==> RowAfter(s, k, p) == RowStep(s[2], k, RowStep(s[1], k, RowStep(s[0], k, p)))
    ensures |s| == 4 ==> RowAfter(s, k, p) == RowStep(s[3], k, RowStep(s[2], k, RowStep(s[1], k, RowStep(s[0], k, p))))
  {
    hide RowStep;
    if 2 <= |s| <= 4 {
      assert s[..1][..0] == [];
      assert s[..2][..1] == s[..1];
      assert |s| >= 3 ==> s[..3][..2] == s[..2];
      assert |s| == 2 ==> s[..2] == s;
      assert |s| == 3 ==> s[..3] == s;
      assert RowAfter(s[..1], k, p) == RowStep(s[0], k, p);
      assert RowAfter(s[..2], k, p) == RowStep(s[1], k, RowAfter(s[..1], k, p));
      assert |s| >= 3 ==> RowAfter(s[..3], k, p) == RowStep(s[2], k, RowAfter(s[..2], k, p));
    }
  }

  /** `Represents`, token by token, but for an `excess` in the amount of a live lock. */
  ghost predicate AgreesOn(p: Option<Row>, l: Ledger, k: string, excess: int) {
    && (p.Some? <==> k in l.minted) && (k in l.locks ==> k in l.minted) && (k !in l.locks ==> excess == 0)
    && (p.Some? ==>
          (p.value.isActive <==> k in l.locks) && p.value.amount == (if k in l.locks then l.locks[k] else 0) + excess)
  }

  /** The event writes the amount of token `k` anew. */
  ghost predicate SetsAmount(e: Event, k: string) {
    match e
    case Deposit(_, _, tokenId, depositType, _, _) => depositType == CREATE_LOCK_TYPE && tokenId == k
    case Withdraw(_, _, tokenId, _) => tokenId == k
    case LockPermanent(_, _, _, _) => false
    case UnlockPermanent(_, _, _, _) => false
    case Merge(_, _, from, to, _, _) => from == k || to == k
    case Split(_, _, from, tokenId1, tokenId2, _, _, _) => from == k || tokenId1 == k || tokenId2 == k
  }

  lemma RepresentsByToken(t: Tables, l: Ledger)
    ensures Represents(t, l) <==> forall k :: AgreesOn(PositionOf(t, k), l, k, 0)
  {
    if forall k :: AgreesOn(PositionOf(t, k), l, k, 0) {
      forall k ensures k in t.positions.Keys <==> k in l.minted {
        assert AgreesOn(PositionOf(t, k), l, k, 0);
      }
      forall k | k in l.locks.Keys ensures k in l.minted {
        assert AgreesOn(PositionOf(t, k), l, k, 0);
      }
      forall k | k in t.positions
        ensures (t.positions[k].isActive <==> k in l.locks)
            && t.positions[k].amount == if k in l.locks then l.locks[k] else 0 {
        assert AgreesOn(PositionOf(t, k), l, k, 0);
      }
    }
  }

  /** The statements of an event take the row of every token where the ledger goes. */
  lemma RowFollowsLedger(l: Ledger, e: Event, k: string, p: Option<Row>, excess: int)
    requires CanEmit(l, e) && AgreesOn(p, l, k, excess) && l.locks.Keys <= l.minted
    ensures AgreesOn(RowAfter(Stmts(e), k, p), Post(l, e), k, if SetsAmount(e, k) then 0 else excess)
  {
    hide RowAfter, Stmts, CanEmit, Post, AgreesOn, SetsAmount;
    if e.Split? {
      SplitRow(l, e, k, p, excess);
    } else if e.Merge? {
      MergeRow(l, e, k, p, excess);
    } else {
      SimpleRow(l, e, k, p, excess);
    }
  }

  lemma SplitRow(l: Ledger, e: Event, k: string, p: Option<Row>, excess: int)
    requires e.Split? && CanEmit(l, e) && AgreesOn(p, l, k, excess) && l.locks.Keys <= l.minted
    ensures AgreesOn(RowAfter(Stmts(e), k, p), Post(l, e), k, if SetsAmount(e, k) then 0 else excess)
  {
    hide RowAfter;
    RowAfterUpToFour(Stmts(e), k, p);
  }

  lemma MergeRow(l: Ledger, e: Event, k: string, p: Option<Row>, excess: int)
    requires e.Merge? && CanEmit(l, e) && AgreesOn(p, l, k, excess) && l.locks.Keys <= l.minted
    ensures AgreesOn(RowAfter(Stmts(e), k, p), Post(l, e), k, if SetsAmount(e, k) then 0 else excess)
  {
    hide RowAfter;
    RowAfterUpToFour(Stmts(e), k, p);
  }

  lemma SimpleRow(l: Ledger, e: Event, k: string, p: Option<Row>, excess: int)
    requires !e.Split? && !e.Merge? && CanEmit(l, e) && AgreesOn(p, l, k, excess) && l.locks.Keys <= l.minted
    ensures AgreesOn(RowAfter(Stmts(e), k, p), Post(l, e), k, if SetsAmount(e, k) then 0 else excess)
  {
    hide RowAfter;
    RowAfterUpToFour(Stmts(e), k, p);
  }

  lemma ApplyRepresents(t: Tables, l: Ledger, e: Event)
    requires CanEmit(l, e) && Represents(t, l)
    ensures Represents(Apply(t, e), Post(l, e))
  {
    hide AgreesOn, PositionOf, RowAfter, Exec;
    RepresentsByToken(t, l);
    forall k ensures AgreesOn(PositionOf(Apply(t, e), k), Post(l, e), k, 0) {
      FoldPosition(t, Stmts(e), k);
      RowFollowsLedger(l, e, k, PositionOf(t, k), 0);
    }
    RepresentsByToken(Apply(t, e), Post(l, e));
  }

  ghost function AsReal(amount: int): real {
    amount as real
  }

  /** Live amounts are what was created and increased, less what was withdrawn. */
  lemma {:induction false} LedgerBalances(log: seq<Event>)
    requires Posted(log).Some?
    ensures var l := Posted(log).value;
      Total(l.locks, AsReal) == (l.created + l.increased - l.withdrawn) as real && l.locks.Keys <= l.minted
  {
    if log != [] {
      var l, e := Posted(log[..|log| - 1]).value, log[|log| - 1];
      LedgerBalances(log[..|log| - 1]);
      PostBalances(l, e);
    }
  }

  lemma PostBalances(l: Ledger, e: Event)
    requires CanEmit(l, e) && l.locks.Keys <= l.minted
    ensures var m := Post(l, e);
      && Total(m.locks, AsReal) - Total(l.locks, AsReal)
         == ((m.created - l.created) + (m.increased - l.increased) - (m.withdrawn - l.withdrawn)) as real
      && m.locks.Keys <= m.minted
  {
    match e
    case Deposit(_, _, tokenId, depositType, value, _) =>
      if depositType != INCREASE_UNLOCK_TIME {
        TotalSet(l.locks, AsReal, tokenId, if depositType == CREATE_LOCK_TYPE then value else l.locks[tokenId] + value);
      }
    case Withdraw(_, _, tokenId, _) =>
      TotalRemove(l.locks, AsReal, tokenId);
    case LockPermanent(_, _, _, _) =>
    case UnlockPermanent(_, _, _, _) =>
    case Merge(_, _, from, to, amountFinal, _) =>
      TotalRemove(l.locks, AsReal, from);
      TotalSet(l.locks - {from}, AsReal, to, amountFinal);
    case Split(_, _, from, tokenId1, tokenId2, amount1, amount2, _) =>
      TotalRemove(l.locks, AsReal, from);
      TotalSet(l.locks - {from}, AsReal, tokenId1, amount1);
      TotalSet((l.locks - {from})[tokenId1 := amount1], AsReal, tokenId2, amount2);
  }

  // ---- Main results -----------------------------------------------------------------------

  const NO_ROWS := Tables(map[], map[])

  /** Each event delivered once, the projection is the ledger: amounts and active flags of every token. */
  lemma {:induction false} ProjectionIsLedger(log: seq<Event>)
    requires Posted(log).Some?
    ensures Represents(Fold(Apply, NO_ROWS, log), Posted(log).value)
  {
    hide Apply;
    if log != [] {
      ProjectionIsLedger(log[..|log| - 1]);
      ApplyRepresents(Fold(Apply, NO_ROWS, log[..|log| - 1]), Posted(log[..|log| - 1]).value, log[|log| - 1]);
    }
  }

  /** The amounts of the active rows. */
  ghost function ActiveAmounts(t: Tables): map<string, int> {
    map k | k in t.positions && t.positions[k].isActive :: t.positions[k].amount
  }

  /**
   * The total active amount is created + increased - withdrawn; merges and splits leave it
   * alone, and an inactive row holds nothing.
   */
  lemma ActiveTotalIsConserved(log: seq<Event>)
    requires Posted(log).Some?
    ensures var t, l := Fold(Apply, NO_ROWS, log), Posted(log).value;
      && Total(ActiveAmounts(t), AsReal) == (l.created + l.increased - l.withdrawn) as real
      && forall k :: k in t.positions && !t.positions[k].isActive ==> t.positions[k].amount == 0
  {
    hide Apply;
    ProjectionIsLedger(log);
    LedgerBalances(log);
    assert ActiveAmounts(Fold(Apply, NO_ROWS, log)) == Posted(log).value.locks;
  }
}
