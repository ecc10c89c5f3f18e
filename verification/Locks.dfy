/** Lock positions and lock events, apps/broker/src/aggregator/ve-lock-events.ts. */
module Locks {
  import opened Results
  import opened EventLog

  datatype Row = Row(owner: string, amount: int, lockEnd: Option<string>, isPermanent: bool, isActive: bool)

  datatype EventRow = EventRow(tokenId: string, owner: string, eventType: string, depositType: Option<string>,
                               value: int,
                               lockEnd: Option<string>, fromTokenId: Option<string>, toTokenId: Option<string>)

  /** `ve_lock_positions` by token and `ve_lock_events` by indexer event id. */
  datatype Tables = Tables(positions: map<string, Row>, events: map<string, EventRow>)

  datatype Event =
    | Deposit(id: string, owner: string, tokenId: string, depositType: string, value: int, locktime: string)
    | Withdraw(id: string, owner: string, tokenId: string, value: int)
    | LockPermanent(id: string, owner: string, tokenId: string, amount: int)
    | UnlockPermanent(id: string, owner: string, tokenId: string, amount: int)
    | Merge(id: string, owner: string, from: string, to: string, amountFinal: int, locktime: string)
    | Split(id: string, owner: string, from: string, tokenId1: string, tokenId2: string,
            splitAmount1: int, splitAmount2: int, locktime: string)

  const CREATE_LOCK_TYPE := "1"
  const INCREASE_LOCK_AMOUNT := "2"
  const INCREASE_UNLOCK_TIME := "3"

  datatype Stmt =
    | InsertEvent(id: string, event: EventRow)
    | InsertPosition(tokenId: string, row: Row)
    | AddAmount(tokenId: string, value: int)
    | SetLockEnd(tokenId: string, lockEnd: string)
    | Deactivate(tokenId: string)
    | SetPermanent(tokenId: string)
    | ClearPermanent(tokenId: string)
    | SetAmount(tokenId: string, value: int, lockEnd: string)
    | UpsertPosition(tokenId: string, row: Row)

  /** What a statement makes of the position of its token. */
  function PositionStep(stmt: Stmt, p: Option<Row>): Option<Row>
    requires !stmt.InsertEvent?
  {
    match stmt
    case InsertPosition(_, row) => if p.Some? then p else Some(row)
    case UpsertPosition(_, row) =>
      Some(if p.Some? then p.value.(amount := row.amount, lockEnd := row.lockEnd, isActive := true) else row)
    case _ =>
      if p.None? then None
      else
        var row := p.value;
        Some(match stmt
             case AddAmount(_, value) => row.(amount := row.amount + value)
             case SetLockEnd(_, lockEnd) => row.(lockEnd := Some(lockEnd))
             case Deactivate(_) => row.(isActive := false, amount := 0)
             case SetPermanent(_) => row.(isPermanent := true, lockEnd := None)
             case ClearPermanent(_) => row.(isPermanent := false)
             case SetAmount(_, value, lockEnd) => row.(amount := value, lockEnd := Some(lockEnd))
             case _ => row)
  }

  function PositionOf(t: Tables, tokenId: string): Option<Row> {
    if tokenId in t.positions then Some(t.positions[tokenId]) else None
  }

  function Exec(t: Tables, stmt: Stmt): Tables {
    match stmt
    case InsertEvent(id, event) => if id in t.events then t else t.(events := t.events[id := event])
    case _ =>
      match PositionStep(stmt, PositionOf(t, stmt.tokenId))
      case None => t
      case Some(row) => t.(positions := t.positions[stmt.tokenId := row])
  }

  function Stmts(e: Event): seq<Stmt> {
    match e
    case Deposit(id, owner, tokenId, depositType, value, locktime) =>
      [InsertEvent(id, EventRow(tokenId, owner, "Deposit", Some(depositType), value,
                                if depositType == INCREASE_UNLOCK_TIME then Some(locktime) else None, None, None))]
      + (if depositType == CREATE_LOCK_TYPE
         then [InsertPosition(tokenId, Row(owner, value, Some(locktime), false, true))]
         else if depositType == INCREASE_LOCK_AMOUNT || depositType == "0" then [AddAmount(tokenId, value)]
         else if depositType == INCREASE_UNLOCK_TIME then [SetLockEnd(tokenId, locktime)]
         else [])
    case Withdraw(id, owner, tokenId, value) =>
      [InsertEvent(id, EventRow(tokenId, owner, "Withdraw", None, value, None, None, None)), Deactivate(tokenId)]
    case LockPermanent(id, owner, tokenId, amount) =>
      [InsertEvent(id, EventRow(tokenId, owner, "LockPermanent", None, amount, None, None, None)),
       SetPermanent(tokenId)]
    case UnlockPermanent(id, owner, tokenId, amount) =>
      [InsertEvent(id, EventRow(tokenId, owner, "UnlockPermanent", None, amount, None, None, None)),
       ClearPermanent(tokenId)]
    case Merge(id, owner, from, to, amountFinal, locktime) =>
      [InsertEvent(id, EventRow(from, owner, "Merge", None, amountFinal, Some(locktime), Some(from), Some(to))),
       Deactivate(from), SetAmount(to, amountFinal, locktime)]
    case Split(id, owner, from, tokenId1, tokenId2, amount1, amount2, locktime) =>
      [InsertEvent(id, EventRow(from, owner, "Split", None, amount1, Some(locktime), Some(tokenId1), Some(tokenId2))),
       Deactivate(from),
       UpsertPosition(tokenId1, Row(owner, amount1, Some(locktime), false, true)),
       UpsertPosition(tokenId2, Row(owner, amount2, Some(locktime), false, true))]
  }

  ghost function Apply(t: Tables, e: Event): Tables {
    Fold(Exec, t, Stmts(e))
  }

  // ---- Redelivery -------------------------------------------------------------------------

  ghost predicate IsIncrease(e: Event) {
    e.Deposit? && (e.depositType == INCREASE_LOCK_AMOUNT || e.depositType == "0")
  }

  lemma ExecPosition(t: Tables, stmt: Stmt, tokenId: string)
    ensures stmt.InsertEvent? || stmt.tokenId != tokenId
        ==> PositionOf(Exec(t, stmt), tokenId) == PositionOf(t, tokenId)
    ensures !stmt.InsertEvent? && stmt.tokenId == tokenId ==>
      PositionOf(Exec(t, stmt), tokenId) == PositionStep(stmt, PositionOf(t, tokenId))
  {
  }

  lemma ExecEvents(t: Tables, stmt: Stmt)
    ensures Exec(t, stmt).events ==
      if stmt.InsertEvent? && stmt.id !in t.events then t.events[stmt.id := stmt.event] else t.events
  {
  }

  lemma SameTables(t: Tables, u: Tables)
    requires t.events == u.events && forall k :: PositionOf(t, k) == PositionOf(u, k)
    ensures t == u
  {
    assert forall k :: k in t.positions <==> PositionOf(t, k).Some?;
    assert forall k :: k in u.positions <==> PositionOf(u, k).Some?;
    assert forall k :: k in t.positions ==> Some(t.positions[k]) == PositionOf(t, k) == PositionOf(u, k);
    assert t.positions == u.positions;
  }

  /** Inserts make active rows; only an increase depends on the value it changes. */
  ghost predicate Repeatable(stmt: Stmt) {
    !stmt.AddAmount? && (stmt.UpsertPosition? ==> stmt.row.isActive)
  }

  /** Statements of one event: their repetition shows only in an amount being added. */
  lemma ExecTwice(t: Tables, a: Stmt)
    requires Repeatable(a)
    ensures Exec(Exec(t, a), a) == Exec(t, a)
  {
    hide Exec, PositionOf, PositionStep;
    var u := Exec(t, a);
    forall k ensures PositionOf(Exec(u, a), k) == PositionOf(u, k) {
      if !a.InsertEvent? { StepTwice(a, PositionOf(t, k)); }
      ExecPosition(t, a, k);
      ExecPosition(u, a, k);
    }
    ExecEvents(t, a);
    ExecEvents(u, a);
    SameTables(Exec(u, a), u);
  }

  lemma StepTwice(a: Stmt, p: Option<Row>)
    requires !a.InsertEvent? && Repeatable(a)
    ensures PositionStep(a, PositionStep(a, p)) == PositionStep(a, p)
  {
  }

  lemma ExecAround(t: Tables, e: Event, a: Stmt, b: Stmt)
    requires !IsIncrease(e) && a in Stmts(e) && b in Stmts(e)
    ensures Exec(Exec(Exec(t, a), b), a) == Exec(Exec(t, b), a)
  {
    hide Exec, PositionOf, PositionStep, Stmts, IsIncrease;
    var u, v := Exec(Exec(t, a), b), Exec(t, b);
    NoIncrease(e, a);
    forall k ensures PositionOf(Exec(u, a), k) == PositionOf(Exec(v, a), k) {
      ExecPosition(t, a, k);
      ExecPosition(Exec(t, a), b, k);
      ExecPosition(u, a, k);
      ExecPosition(t, b, k);
      ExecPosition(v, a, k);
      PositionAround(e, a, b, PositionOf(t, k));
      if !a.InsertEvent? { StepTwice(a, PositionOf(t, k)); }
    }
    OneInsert(e, a, b);
    ExecEvents(t, a);
    ExecEvents(Exec(t, a), b);
    ExecEvents(u, a);
    ExecEvents(t, b);
    ExecEvents(v, a);
    SameTables(Exec(u, a), Exec(v, a));
  }

  lemma OneInsert(e: Event, a: Stmt, b: Stmt)
    requires a in Stmts(e) && b in Stmts(e)
    ensures a.InsertEvent? && b.InsertEvent? ==> a == b
  {
  }

  lemma PositionAround(e: Event, a: Stmt, b: Stmt, p: Option<Row>)
    requires !IsIncrease(e) && a in Stmts(e) && b in Stmts(e)
    ensures !a.InsertEvent? && !b.InsertEvent? && a.tokenId == b.tokenId ==>
      PositionStep(a, PositionStep(b, PositionStep(a, p))) == PositionStep(a, PositionStep(b, p))
  {
    if !a.InsertEvent? && !b.InsertEvent? && a.tokenId == b.tokenId {
      PositionStmts(e, a, b);
      StepAround(a, b, p);
    }
  }

  /** Two row statements of one event on one token. */
  ghost predicate Compatible(a: Stmt, b: Stmt) {
    || a == b
    || (a.Deactivate? && (b.SetAmount? || (b.UpsertPosition? && b.row.isActive)))
    || (b.Deactivate? && (a.SetAmount? || (a.UpsertPosition? && a.row.isActive)))
    || (a.UpsertPosition? && b.UpsertPosition? && a.row == b.row.(amount := a.row.amount) && a.row.isActive)
  }

  lemma PositionStmts(e: Event, a: Stmt, b: Stmt)
    requires !IsIncrease(e) && a in Stmts(e) && b in Stmts(e) && !a.InsertEvent? && !b.InsertEvent?
    ensures Compatible(a, b) && !a.AddAmount? && !b.AddAmount?
  {
  }

  lemma StepAround(a: Stmt, b: Stmt, p: Option<Row>)
    requires !a.InsertEvent? && !b.InsertEvent? && Compatible(a, b) && !a.AddAmount? && !b.AddAmount?
    ensures PositionStep(a, PositionStep(b, PositionStep(a, p))) == PositionStep(a, PositionStep(b, p))
  {
  }

  /**
   * An attempt cut off after `j` statements and then repeated in full leaves what one full
   * attempt leaves, unless the cut fell after the amount of an existing lock was increased.
   */
  lemma AttemptAbsorbed(t: Tables, e: Event, j: nat)
    requires j <= |Stmts(e)|
    ensures Apply(Fold(Exec, t, Stmts(e)[..j]), e) == Apply(t, e)
       <==> !(IsIncrease(e) && j == 2 && e.tokenId in t.positions && e.value != 0)
  {
    hide Exec, Stmts, Repeatable;
    if IsIncrease(e) {
      IncreaseRepeated(t, e, j);
    } else {
      var s := Stmts(e);
      forall u, a | a in s ensures Exec(Exec(u, a), a) == Exec(u, a) {
        NoIncrease(e, a);
        ExecTwice(u, a);
      }
      forall u, a, b | a in s && b in s ensures Exec(Exec(Exec(u, a), b), a) == Exec(Exec(u, b), a) {
        ExecAround(u, e, a, b);
      }
      AbsorbMany(Exec, t, s[..j], s);
    }
  }

  lemma NoIncrease(e: Event, a: Stmt)
    requires !IsIncrease(e) && a in Stmts(e)
    ensures Repeatable(a)
  {
  }

  lemma IncreaseRepeated(t: Tables, e: Event, j: nat)
    requires IsIncrease(e) && j <= |Stmts(e)|
    ensures Apply(Fold(Exec, t, Stmts(e)[..j]), e) == Apply(t, e)
       <==> !(j == 2 && e.tokenId in t.positions && e.value != 0)
  {
    var s := Stmts(e);
    assert s == [s[0], s[1]] && s[0].InsertEvent? && s[1] == AddAmount(e.tokenId, e.value);
    hide Exec, Stmts, IsIncrease;
    FoldBoth(Exec, t, s);
    var u := Fold(Exec, t, s[..j]);
    FoldBoth(Exec, u, s);
    if j == 0 {
      assert s[..0] == [];
    } else if j == 1 {
      assert s[..1] == [s[0]];
      FoldOne(Exec, t, [s[0]]);
      ExecTwice(t, s[0]);
    } else {
      assert s[..2] == s;
      AddedTwice(t, s[0], e.tokenId, e.value);
    }
  }

  lemma AddedTwice(t: Tables, a: Stmt, tokenId: string, value: int)
    requires a.InsertEvent?
    ensures var b := AddAmount(tokenId, value);
      var u := Exec(Exec(t, a), b);
      Exec(Exec(u, a), b) == u <==> !(tokenId in t.positions && value != 0)
  {
    hide Exec;
    var b := AddAmount(tokenId, value);
    var u := Exec(Exec(t, a), b);
    if tokenId in t.positions && value != 0 {
      ExecPosition(t, a, tokenId);
      ExecPosition(Exec(t, a), b, tokenId);
      ExecPosition(u, a, tokenId);
      ExecPosition(Exec(u, a), b, tokenId);
      assert PositionOf(Exec(Exec(u, a), b), tokenId) != PositionOf(u, tokenId);
    } else {
      ExecPosition(t, a, tokenId);
      NoEffect(Exec(t, a), tokenId, value);
      ExecTwice(t, a);
    }
  }

  lemma IncreaseHasTwo(e: Event)
    requires IsIncrease(e)
    ensures |Stmts(e)| == 2
  {
  }

  lemma IncreaseAdds(t: Tables, e: Event)
    requires IsIncrease(e) && e.tokenId in t.positions
    ensures var row := t.positions[e.tokenId];
      Apply(t, e).positions == t.positions[e.tokenId := row.(amount := row.amount + e.value)]
  {
    var s := Stmts(e);
    assert s == [s[0], s[1]] && s[0].InsertEvent? && s[1] == AddAmount(e.tokenId, e.value);
    hide Exec, Stmts, IsIncrease;
    FoldBoth(Exec, t, s);
    InsertKeepsPositions(t, s[0]);
    AddSetsPosition(Exec(t, s[0]), e.tokenId, e.value);
  }

  lemma InsertKeepsPositions(t: Tables, stmt: Stmt)
    requires stmt.InsertEvent?
    ensures Exec(t, stmt).positions == t.positions
  {
  }

  lemma AddSetsPosition(t: Tables, tokenId: string, value: int)
    requires tokenId in t.positions
    ensures var row := t.positions[tokenId];
      Exec(t, AddAmount(tokenId, value)).positions == t.positions[tokenId := row.(amount := row.amount + value)]
  {
  }

  lemma NoEffect(t: Tables, tokenId: string, value: int)
    requires tokenId !in t.positions || value == 0
    ensures Exec(t, AddAmount(tokenId, value)) == t
  {
    if tokenId in t.positions {
      assert t.positions[tokenId := t.positions[tokenId]] == t.positions;
    }
  }

  // ---- What an event does to the row of a token, and to the event rows -----------------------

  lemma ApplyInOrder(t: Tables, e: Event)
    ensures var s := Stmts(e);
      && (|s| == 1 ==> Apply(t, e) == Exec(t, s[0]))
      && (|s| == 2 ==> Apply(t, e) == Exec(Exec(t, s[0]), s[1]))
      && (|s| == 3 ==> Apply(t, e) == Exec(Exec(Exec(t, s[0]), s[1]), s[2]))
      && (|s| == 4 ==> Apply(t, e) == Exec(Exec(Exec(Exec(t, s[0]), s[1]), s[2]), s[3]))
  {
    hide Exec, Stmts;
    var s := Stmts(e);
    if 1 <= |s| <= 4 {
      assert s[..1][..0] == [] && s[..1][0] == s[0];
      assert Fold(Exec, t, s[..1]) == Exec(t, s[0]);
      assert |s| >= 2 ==> s[..2][..1] == s[..1];
      assert |s| >= 2 ==> Fold(Exec, t, s[..2]) == Exec(Exec(t, s[0]), s[1]);
      assert |s| >= 3 ==> s[..3][..2] == s[..2];
      assert |s| >= 3 ==> Fold(Exec, t, s[..3]) == Exec(Exec(Exec(t, s[0]), s[1]), s[2]);
      assert |s| >= 4 ==> s[..4][..3] == s[..3];
      assert |s| >= 4 ==> Fold(Exec, t, s[..4]) == Exec(Exec(Exec(Exec(t, s[0]), s[1]), s[2]), s[3]);
      assert s[..|s|] == s;
    }
  }

  /** A deposit creates the row of a new lock, adds to its amount, or moves its end; no other type does anything. */
  lemma DepositRow(t: Tables, e: Event, k: string)
    requires e.Deposit?
    ensures var p, q := PositionOf(t, k), PositionOf(Apply(t, e), k);
      q == if k != e.tokenId then p
           else if p.None? then
             if e.depositType == "1" then Some(Row(e.owner, e.value, Some(e.locktime), false, true)) else None
           else if e.depositType == "2" || e.depositType == "0" then
             Some(p.value.(amount := p.value.amount + e.value))
           else if e.depositType == "3" then Some(p.value.(lockEnd := Some(e.locktime)))
           else p
  {
    hide Apply;
    ApplyInOrder(t, e);
  }

  /** A withdrawal empties the row, the permanence events set and clear the flag; none makes a row. */
  lemma StatusRow(t: Tables, e: Event, k: string)
    requires e.Withdraw? || e.LockPermanent? || e.UnlockPermanent?
    ensures var p, q := PositionOf(t, k), PositionOf(Apply(t, e), k);
      q == if k != e.tokenId || p.None? then p
           else if e.Withdraw? then Some(p.value.(isActive := false, amount := 0))
           else if e.LockPermanent? then Some(p.value.(isPermanent := true, lockEnd := None))
           else Some(p.value.(isPermanent := false))
  {
    hide Apply;
    ApplyInOrder(t, e);
  }

  /** A merge empties `from`, then sets `to`, which keeps the active flag it had. */
  lemma MergedRow(t: Tables, e: Event, k: string)
    requires e.Merge?
    ensures var p, q := PositionOf(t, k), PositionOf(Apply(t, e), k);
      q == if p.None? then None
           else if k == e.to then
             Some(p.value.(amount := e.amountFinal, lockEnd := Some(e.locktime),
                           isActive := p.value.isActive && e.from != e.to))
           else if k == e.from then Some(p.value.(isActive := false, amount := 0))
           else p
  {
    hide Apply;
    ApplyInOrder(t, e);
  }

  /**
   * A split empties `from` and makes the two parts active; a part that has a row keeps its owner
   * and its permanence.
   */
  lemma PartRow(t: Tables, e: Event, k: string)
    requires e.Split?
    ensures var p, q := PositionOf(t, k), PositionOf(Apply(t, e), k);
      if k == e.tokenId1 || k == e.tokenId2 then
        var amount := if k == e.tokenId2 then e.splitAmount2 else e.splitAmount1;
        var was := if p.Some? then p.value else Row(e.owner, amount, None, false, false);
        q == Some(Row(was.owner, amount, Some(e.locktime), was.isPermanent, true))
      else if k == e.from && p.Some? then q == Some(p.value.(isActive := false, amount := 0))
      else q == p
  {
    hide Apply;
    ApplyInOrder(t, e);
  }

  /** What the row of an event says. */
  ghost predicate Logs(row: EventRow, e: Event) {
    row == match e
      case Deposit(_, owner, tokenId, depositType, value, locktime) =>
        EventRow(tokenId, owner, "Deposit", Some(depositType), value,
                 if depositType == "3" then Some(locktime) else None, None, None)
      case Withdraw(_, owner, tokenId, value) => EventRow(tokenId, owner, "Withdraw", None, value, None, None, None)
      case LockPermanent(_, owner, tokenId, amount) =>
        EventRow(tokenId, owner, "LockPermanent", None, amount, None, None, None)
      case UnlockPermanent(_, owner, tokenId, amount) =>
        EventRow(tokenId, owner, "UnlockPermanent", None, amount, None, None, None)
      case Merge(_, owner, from, to, amountFinal, locktime) =>
        EventRow(from, owner, "Merge", None, amountFinal, Some(locktime), Some(from), Some(to))
      case Split(_, owner, from, tokenId1, tokenId2, splitAmount1, _, locktime) =>
        EventRow(from, owner, "Split", None, splitAmount1, Some(locktime), Some(tokenId1), Some(tokenId2))
  }

  lemma EventRows(t: Tables, e: Event)
    ensures var u := Apply(t, e).events;
      if e.id in t.events then u == t.events
      else e.id in u && Logs(u[e.id], e) && u == t.events[e.id := u[e.id]]
  {
    hide Apply, Exec, PositionStep;
    ApplyInOrder(t, e);
    FirstStatement(e);
    var s := Stmts(e);
    var t1 := Exec(t, s[0]);
    ExecEvents(t, s[0]);
    if |s| >= 2 { ExecEvents(t1, s[1]); }
    if |s| >= 3 { ExecEvents(Exec(t1, s[1]), s[2]); }
    if |s| >= 4 { ExecEvents(Exec(Exec(t1, s[1]), s[2]), s[3]); }
  }

  /** The event row is the first statement of every event, and there is no other one. */
  lemma FirstStatement(e: Event)
    ensures var s := Stmts(e);
      && 1 <= |s| <= 4 && s[0].InsertEvent? && s[0].id == e.id && Logs(s[0].event, e)
      && forall i :: 1 <= i < |s| ==> !s[i].InsertEvent?
  {
  }

  /** Event rows are the old ones and one for each id of the log; old ones are never overwritten. */
  lemma {:induction false} EventIdsAfter(t: Tables, log: seq<Event>, id: string)
    ensures var u := Fold(Apply, t, log);
      && (id in u.events <==> id in t.events || exists j :: 0 <= j < |log| && log[j].id == id)
      && (id in t.events ==> u.events[id] == t.events[id])
  {
    hide Apply, Logs;
    if log != [] {
      var rest, last := log[..|log| - 1], log[|log| - 1];
      EventIdsAfter(t, rest, id);
      EventRows(Fold(Apply, t, rest), last);
      if j :| 0 <= j < |rest| && rest[j].id == id {
        assert log[j].id == id;
      }
    }
  }

  /** The first event with an id supplies the row of that id. */
  lemma {:induction false} FirstEventRow(t: Tables, log: seq<Event>, k: nat)
    requires k < |log| && log[k].id !in t.events && forall j :: 0 <= j < k ==> log[j].id != log[k].id
    ensures var u := Fold(Apply, t, log); log[k].id in u.events && Logs(u.events[log[k].id], log[k])
  {
    hide Apply, Logs;
    var rest, last := log[..|log| - 1], log[|log| - 1];
    EventRows(Fold(Apply, t, rest), last);
    if k + 1 < |log| {
      FirstEventRow(t, rest, k);
    } else {
      EventIdsAfter(t, rest, log[k].id);
    }
  }

  /** Cut off after one statement, an attempt has logged the event and changed no position. */
  lemma CutAttempt(t: Tables, e: Event)
    ensures |Stmts(e)| >= 1
    ensures Fold(Exec, t, Stmts(e)[..1]) == Tables(t.positions, Apply(t, e).events)
  {
    hide Exec, PositionStep;
    FirstStatement(e);
    var s := Stmts(e);
    assert s[..1][..0] == [] && s[..1] == [s[0]];
    assert Fold(Exec, t, s[..1]) == Exec(t, s[0]);
    ExecEvents(t, s[0]);
    EventRows(t, e);
    InsertKeepsPositions(t, s[0]);
  }

  lemma FoldPrefixes(t: Tables, s: seq<Stmt>)
    requires |s| >= 2
    ensures Fold(Exec, t, s[..2]) == Exec(Exec(t, s[0]), s[1])
    ensures |s| >= 3 ==> Fold(Exec, t, s[..3]) == Exec(Exec(Exec(t, s[0]), s[1]), s[2])
  {
    hide Exec;
    assert s[..1][..0] == [] && s[..2][..1] == s[..1];
    assert Fold(Exec, t, s[..1]) == Exec(t, s[0]);
    assert |s| >= 3 ==> s[..3][..2] == s[..2];
  }

  /** Cut off after two statements, a merge or split has emptied `from` and done no more to any row. */
  lemma CutMove(t: Tables, e: Event, k: string)
    requires e.Merge? || e.Split?
    ensures |Stmts(e)| == if e.Merge? then 3 else 4
    ensures var p, q := PositionOf(t, k), PositionOf(Fold(Exec, t, Stmts(e)[..2]), k);
      q == if k == e.from && p.Some? then Some(p.value.(isActive := false, amount := 0)) else p
  {
    hide Exec, PositionOf;
    var s := Stmts(e);
    FoldPrefixes(t, s);
    ExecPosition(t, s[0], k);
    ExecPosition(Exec(t, s[0]), s[1], k);
  }

  /** Cut off after three, a split has made the first part, and left the row of the second. */
  lemma CutSplit(t: Tables, e: Event, k: string)
    requires e.Split?
    ensures |Stmts(e)| == 4
    ensures var p, q := PositionOf(Fold(Exec, t, Stmts(e)[..2]), k), PositionOf(Fold(Exec, t, Stmts(e)[..3]), k);
      if k != e.tokenId1 then q == p
      else if k != e.tokenId2 then q == PositionOf(Apply(t, e), k)
      else q.Some? && q.value.amount == e.splitAmount1
  {
    hide Exec, PositionOf;
    var s := Stmts(e);
    FoldPrefixes(t, s);
    ApplyInOrder(t, e);
    var u := Exec(Exec(t, s[0]), s[1]);
    ExecPosition(u, s[2], k);
    ExecPosition(Exec(u, s[2]), s[3], k);
  }

  // ---- Rows over a whole log ----------------------------------------------------------------

  /** A row that is there stays, with its owner. */
  lemma {:induction false} OwnerStays(t: Tables, log: seq<Event>, k: string)
    requires k in t.positions
    ensures var u := Fold(Apply, t, log); k in u.positions && u.positions[k].owner == t.positions[k].owner
  {
    hide Apply;
    if log != [] {
      var u, e := Fold(Apply, t, log[..|log| - 1]), log[|log| - 1];
      OwnerStays(t, log[..|log| - 1], k);
      OneEvent(u, e, k);
    }
  }

  /** One event: the row stays with its owner, and only the two permanence events change the flag. */
  lemma OneEvent(t: Tables, e: Event, k: string)
    ensures var p, q := PositionOf(t, k), PositionOf(Apply(t, e), k);
      && (p.Some? ==>
            && q.Some? && q.value.owner == p.value.owner
            && (q.value.isPermanent <==>
                  if e.LockPermanent? && e.tokenId == k then true
                  else if e.UnlockPermanent? && e.tokenId == k then false
                  else p.value.isPermanent))
      && (p.None? && q.Some? ==>
            && !q.value.isPermanent && q.value.isActive && q.value.owner == e.owner
            && (e.Deposit? || e.Split?))
  {
    hide Apply;
    match e
    case Deposit(_, _, _, _, _, _) => DepositRow(t, e, k);
    case Merge(_, _, _, _, _, _) => MergedRow(t, e, k);
    case Split(_, _, _, _, _, _, _, _) => PartRow(t, e, k);
    case Withdraw(_, _, _, _) => StatusRow(t, e, k);
    case LockPermanent(_, _, _, _) => StatusRow(t, e, k);
    case UnlockPermanent(_, _, _, _) => StatusRow(t, e, k);
  }

  /** Whether the last of the permanence events on a token, if any, made it permanent. */
  ghost predicate LastPermanence(log: seq<Event>, k: string, before: bool) {
    if log == [] then before
    else
      var e := log[|log| - 1];
      if e.LockPermanent? && e.tokenId == k then true
      else if e.UnlockPermanent? && e.tokenId == k then false
      else LastPermanence(log[..|log| - 1], k, before)
  }

  /** A row is permanent exactly when the last permanence event on its token since then locked it. */
  lemma {:induction false} PermanenceIsLast(t: Tables, log: seq<Event>, k: string)
    requires k in t.positions
    ensures var u := Fold(Apply, t, log);
      k in u.positions && (u.positions[k].isPermanent <==> LastPermanence(log, k, t.positions[k].isPermanent))
  {
    hide Apply;
    if log != [] {
      PermanenceIsLast(t, log[..|log| - 1], k);
      OneEvent(Fold(Apply, t, log[..|log| - 1]), log[|log| - 1], k);
    }
  }
}
