/**
 * At-least-once delivery of indexer messages, apps/broker/src/rabbitmq/rabbitmq.service.ts.
 *
 * One consumer with prefetch 1 on a FIFO queue. A requeued message goes back to the head,
 * marked as redelivered. Every statement commits on its own, so a crash may fall between any
 * two of them.
 */
module Delivery {
  import opened Results
  import opened EventLog
  import opened BrokerDb

  /**
   * `errorRequeues` counts the requeues by the error path, and `completed` those that came after
   * all statements of the message had committed; `cuts` are the statements committed by each
   * attempt so far. All three are for the proofs only.
   */
  datatype Msg = Msg(payload: Payload, redelivered: bool, errorRequeues: nat, completed: nat, cuts: seq<nat>)

  /** A message that left the broker: acked, or dropped after `done` statements of its last attempt. */
  datatype Handled = Sent(msg: Msg) | Dropped(msg: Msg, done: nat)

  /** The message being handled, how many of its statements have committed, and on which database it began. */
  datatype Inflight = Inflight(msg: Msg, done: nat, start: DB)

  /**
   * `handled` are the messages that left the broker, in order: acked ones and dropped ones.
   * `base` is the database when the message now at the head got there.
   */
  datatype State = State(queue: seq<Msg>, inflight: Option<Inflight>, db: DB,
                         produced: seq<Payload>, handled: seq<Handled>, acked: seq<Msg>, dropped: seq<Payload>,
                         base: DB)

  datatype Step =
    | Produce(payload: Payload)      // the indexer enqueues a message
    | Deliver                        // the consumer gets the head of the queue
    | Execute                        // the next statement of the handler commits
    | Fail(retryable: bool)          // the handler throws
    | PublishRefused                 // all statements done, publishToGateway returned false
    | Ack                            // all statements done, publish succeeded
    | Crash                          // the consumer goes away, the broker requeues

  function Initial(db: DB): State {
    State([], None, db, [], [], [], [], db)
  }

  /** The message back at the head of the queue after `done` of its statements. */
  function Requeued(m: Msg, done: nat, error: bool): Msg {
    Msg(m.payload, true, m.errorRequeues + (if error then 1 else 0),
        m.completed + (if done == |Stmts(m.payload)| then 1 else 0), m.cuts + [done])
  }

  /** The state after a step, if the step can be taken. */
  function Next(s: State, step: Step): Option<State> {
    if step.Produce? then
      Some(s.(queue := s.queue + [Msg(step.payload, false, 0, 0, [])], produced := s.produced + [step.payload]))
    else if step.Deliver? then
      if s.inflight.None? && s.queue != []
      then Some(s.(queue := s.queue[1..], inflight := Some(Inflight(s.queue[0], 0, s.db))))
      else None
    else if s.inflight.None? then None
    else Handle(s, s.inflight.value.msg, s.inflight.value.done, step)
  }

  /** A step of the handler on the message in flight. */
  function Handle(s: State, m: Msg, done: nat, step: Step): Option<State>
    requires s.inflight.Some?
  {
    var stmts := Stmts(m.payload);
    if step.Execute? && done < |stmts| then
      Some(s.(db := Exec(s.db, stmts[done]), inflight := Some(Inflight(m, done + 1, s.inflight.value.start))))
    else if step.Fail? && step.retryable && !m.redelivered then
      Some(s.(queue := [Requeued(m, done, true)] + s.queue, inflight := None))
    else if step.Fail? then
      Some(s.(inflight := None, handled := s.handled + [Dropped(m, done)],
              dropped := s.dropped + [m.payload], base := s.db))
    else if (step.PublishRefused? && done == |stmts|) || step.Crash? then
      Some(s.(queue := [Requeued(m, done, false)] + s.queue, inflight := None))
    else if step.Ack? && done == |stmts| then
      Some(s.(inflight := None, handled := s.handled + [Sent(m)], acked := s.acked + [m], base := s.db))
    else None
  }

  ghost function Run(s: State, steps: seq<Step>): Option<State> {
    if steps == [] then Some(s)
    else
      match Run(s, steps[..|steps| - 1])
      case None => None
      case Some(t) => Next(t, steps[|steps| - 1])
  }

  // ---- Invariants of every run ------------------------------------------------------------

  ghost function Payloads(queue: seq<Msg>): seq<Payload> {
    seq(|queue|, i requires 0 <= i < |queue| => queue[i].payload)
  }

  ghost function Msgs(handled: seq<Handled>): seq<Msg> {
    seq(|handled|, i requires 0 <= i < |handled| => handled[i].msg)
  }

  ghost function Outstanding(s: State): seq<Payload> {
    (if s.inflight.Some? then [s.inflight.value.msg.payload] else []) + Payloads(s.queue)
  }

  /** Nothing is lost, duplicated or reordered by requeues. */
  ghost predicate InOrder(s: State) {
    s.produced == Payloads(Msgs(s.handled)) + Outstanding(s)
  }

  /** A message is requeued by the error path at most once, and is marked from then on. */
  ghost predicate Marked(m: Msg) {
    m.errorRequeues <= 1 && (m.errorRequeues == 1 || m.completed > 0 || m.cuts != [] ==> m.redelivered)
  }

  /** Only the message at the head can have been delivered before. */
  ghost predicate OnlyHeadRedelivered(s: State) {
    && (forall i :: 0 <= i < |s.queue| ==> Marked(s.queue[i]))
    && (forall i :: (if s.inflight.Some? then 0 else 1) <= i < |s.queue| ==> !s.queue[i].redelivered)
    && (s.inflight.Some?
        ==> Marked(s.inflight.value.msg) && s.inflight.value.done <= |Stmts(s.inflight.value.msg.payload)|)
  }

  /**
   * However often the head was attempted, finishing it now applies it to `base` once, and once
   * more for each time it was requeued complete.
   */
  ghost predicate Absorbing(s: State) {
    match s.inflight
    case Some(Inflight(m, done, start)) =>
      && done <= |Stmts(m.payload)| && s.db == Fold(Exec, start, Stmts(m.payload)[..done])
      && Apply(start, m.payload) == Times(s.base, m.payload, m.completed + 1)
    case None =>
      if s.queue == [] || !s.queue[0].redelivered then s.db == s.base
      else Apply(s.db, s.queue[0].payload) == Times(s.base, s.queue[0].payload, s.queue[0].completed + 1)
  }

  ghost predicate Stored(db: DB, p: Payload) {
    p.id == "" || p.id in db.indexed
  }

  /** Acked messages are stored, and so is the one in flight once its first statement is done. */
  ghost predicate StoredBeforeAck(s: State) {
    && (forall i :: 0 <= i < |s.acked| ==> Stored(s.db, s.acked[i].payload))
    && (s.inflight.Some? && s.inflight.value.done > 0 ==> Stored(s.db, s.inflight.value.msg.payload))
  }

  /** Nothing is stored under an id that was not produced with it. */
  ghost predicate NothingInvented(init: DB, s: State) {
    init.indexed.Keys <= s.db.indexed.Keys && forall id :: id in s.db.indexed ==>
      if id in init.indexed then s.db.indexed[id] == init.indexed[id]
      else s.db.indexed[id].id == id && s.db.indexed[id] in s.produced
  }

  /** Each acked message applied once, and once more for each time it was requeued complete. */
  ghost function Applied(init: DB, acked: seq<Msg>): DB {
    if acked == [] then init
    else
      var m := acked[|acked| - 1];
      Times(Applied(init, acked[..|acked| - 1]), m.payload, m.completed + 1)
  }

  /** Without drops, `base` is what the acked messages made of the tables. */
  ghost predicate FoldOfAcked(init: DB, s: State) {
    s.dropped == [] ==> Payloads(Msgs(s.handled)) == Payloads(s.acked) && s.base == Applied(init, s.acked)
  }

  /** The statements that some attempts committed, attempt by attempt. */
  ghost function AfterCuts(db: DB, p: Payload, cuts: seq<nat>): DB {
    if cuts == [] then db
    else
      var before, done := AfterCuts(db, p, cuts[..|cuts| - 1]), cuts[|cuts| - 1];
      Fold(Exec, before, if done <= |Stmts(p)| then Stmts(p)[..done] else Stmts(p))
  }

  /** What the messages that left made of the tables: acked ones as above, dropped ones as far as their attempts got. */
  ghost function Settled(init: DB, handled: seq<Handled>): DB {
    if handled == [] then init
    else
      var before := Settled(init, handled[..|handled| - 1]);
      match handled[|handled| - 1]
      case Sent(m) => Times(before, m.payload, m.completed + 1)
      case Dropped(m, done) => AfterCuts(before, m.payload, m.cuts + [done])
  }

  /** Drops included, `base` is what the handled messages made of the tables. */
  ghost predicate Settles(init: DB, s: State) {
    && s.base == Settled(init, s.handled)
    && match s.inflight
       case Some(Inflight(m, _, start)) => start == AfterCuts(s.base, m.payload, m.cuts)
       case None =>
         s.queue != [] && s.queue[0].redelivered ==> s.db == AfterCuts(s.base, s.queue[0].payload, s.queue[0].cuts)
  }

  ghost predicate Inv(init: DB, s: State) {
    && InOrder(s) && OnlyHeadRedelivered(s) && Absorbing(s) && Settles(init, s)
    && StoredBeforeAck(s) && NothingInvented(init, s) && FoldOfAcked(init, s)
  }

  lemma StepInOrder(s: State, step: Step)
    requires InOrder(s) && Next(s, step).Some?
    ensures InOrder(Next(s, step).value)
  {
    hide Stmts, Exec, Payloads, Msgs;
    var t := Next(s, step).value;
    if step.Produce? {
      PayloadsOfConcat(s.queue, [Msg(step.payload, false, 0, 0, [])]);
    } else if step.Deliver? {
      assert s.queue == [s.queue[0]] + t.queue;
      PayloadsOfConcat([s.queue[0]], t.queue);
    } else if t.queue != s.queue {
      PayloadsOfConcat([t.queue[0]], s.queue);
    } else if t.handled != s.handled {
      var last := t.handled[|s.handled|];
      MsgsOfConcat(s.handled, last);
      PayloadsOfConcat(Msgs(s.handled), [last.msg]);
    }
  }

  /** A crash keeps what has committed, and puts the message back at the head, marked, before all others. */
  lemma CrashRequeues(s: State)
    requires s.inflight.Some?
    ensures Next(s, Crash).Some?
    ensures var t, m := Next(s, Crash).value, s.inflight.value.msg;
      && t.inflight.None? && t.db == s.db && t.handled == s.handled && t.base == s.base
      && t.queue != [] && t.queue[1..] == s.queue && t.queue[0].payload == m.payload && t.queue[0].redelivered
      && t.queue[0].errorRequeues == m.errorRequeues
  {
  }

  lemma MsgsOfConcat(handled: seq<Handled>, last: Handled)
    ensures Msgs(handled + [last]) == Msgs(handled) + [last.msg]
  {
  }

  lemma PayloadsOfConcat(a: seq<Msg>, b: seq<Msg>)
    ensures Payloads(a + b) == Payloads(a) + Payloads(b)
    ensures |a| == 1 ==> Payloads(a) == [a[0].payload]
    ensures |b| == 1 ==> Payloads(b) == [b[0].payload]
  {
  }

  lemma StepMarks(s: State, step: Step)
    requires OnlyHeadRedelivered(s) && Next(s, step).Some?
    ensures OnlyHeadRedelivered(Next(s, step).value)
  {
    hide Stmts, Exec;
    var t := Next(s, step).value;
    if step.Produce? {
      assert forall i :: 0 <= i < |s.queue| ==> t.queue[i] == s.queue[i];
    } else if step.Deliver? {
      assert forall i :: 0 <= i < |t.queue| ==> t.queue[i] == s.queue[i + 1];
    } else if t.queue != s.queue {
      assert forall i :: 1 <= i < |t.queue| ==> t.queue[i] == s.queue[i - 1];
    }
  }

  lemma StepAbsorbs(s: State, step: Step)
    requires OnlyHeadRedelivered(s) && Absorbing(s) && Next(s, step).Some?
    ensures Absorbing(Next(s, step).value)
  {
    hide Exec, Stmts, Apply;
    var t := Next(s, step).value;
    if step.Produce? {
    } else if step.Deliver? {
      assert Stmts(s.queue[0].payload)[..0] == [];
      FirstTime(s.base, s.queue[0].payload);
    } else {
      var m, done, start := s.inflight.value.msg, s.inflight.value.done, s.inflight.value.start;
      var stmts := Stmts(m.payload);
      if step.Execute? {
        assert stmts[..done + 1] == stmts[..done] + [stmts[done]];
        FoldSnoc(start, stmts[..done], stmts[done]);
      } else if t.queue != s.queue {
        CutOrComplete(start, m.payload, done);
      }
    }
  }

  lemma FirstTime(db: DB, p: Payload)
    ensures Times(db, p, 1) == Apply(db, p)
  {
    hide Apply;
    assert Times(db, p, 0) == db;
  }

  /** A cut attempt does not show in the next one; a complete one is one application more. */
  lemma CutOrComplete(start: DB, p: Payload, done: nat)
    requires done <= |Stmts(p)|
    ensures var cut := Fold(Exec, start, Stmts(p)[..done]);
      if done == |Stmts(p)| then cut == Apply(start, p) else Apply(cut, p) == Apply(start, p)
  {
    hide Exec, Stmts, AddsToRow;
    AttemptAbsorbed(start, p, done);
    if done == |Stmts(p)| {
      assert Stmts(p)[..done] == Stmts(p);
    }
  }

  /**
   * At an ack the tables are those the message found when it reached the head, with the message
   * applied once. Only an increase that was requeued complete shows, and in the lock tables alone.
   */
  lemma AckedIsAtomic(s: State)
    requires Absorbing(s) && Next(s, Ack).Some?
    ensures var m, t := s.inflight.value.msg, Next(s, Ack).value;
      && t.db == Times(s.base, m.payload, m.completed + 1)
      && ButLocks(t.db) == ButLocks(Apply(s.base, m.payload))
      && (t.db == Apply(s.base, m.payload) <==> m.completed == 0 || !AddsToRow(s.base, m.payload))
  {
    hide Exec, Stmts, Apply, AddsToRow, ButLocks;
    var m := s.inflight.value.msg;
    CutOrComplete(s.inflight.value.start, m.payload, s.inflight.value.done);
    TimesOnce(s.base, m.payload, m.completed + 1);
  }

  // ---- What is stored ---------------------------------------------------------------------

  /** Statements never remove or overwrite a stored event. */
  lemma ExecKeepsIndexed(db: DB, stmt: Stmt)
    ensures forall id :: id in db.indexed ==>
      id in Exec(db, stmt).indexed && Exec(db, stmt).indexed[id] == db.indexed[id]
    ensures forall id :: id in Exec(db, stmt).indexed && id !in db.indexed ==>
      stmt.Persist? && id == stmt.payload.id && Exec(db, stmt).indexed[id] == stmt.payload
  {
  }

  lemma FirstStatementStores(db: DB, p: Payload)
    requires |Stmts(p)| > 0
    ensures Stored(Exec(db, Stmts(p)[0]), p)
  {
    hide AggregationStmts;
    assert p.id != "" ==> Stmts(p)[0] == Persist(p);
  }

  lemma StepStores(s: State, step: Step)
    requires StoredBeforeAck(s) && OnlyHeadRedelivered(s) && Next(s, step).Some?
    ensures StoredBeforeAck(Next(s, step).value)
  {
    hide Exec, Stmts;
    var t := Next(s, step).value;
    if s.inflight.Some? && step.Execute? {
      var m, done := s.inflight.value.msg, s.inflight.value.done;
      ExecKeepsIndexed(s.db, Stmts(m.payload)[done]);
      if done == 0 {
        FirstStatementStores(s.db, m.payload);
      }
    } else if s.inflight.Some? && step.Ack? {
      NoStatementsNoId(s.inflight.value.msg.payload);
    }
  }

  lemma NoStatementsNoId(p: Payload)
    ensures |Stmts(p)| == 0 ==> p.id == ""
  {
    hide AggregationStmts;
  }

  lemma StatementPersistsOwn(p: Payload, i: nat)
    requires i < |Stmts(p)| && Stmts(p)[i].Persist?
    ensures Stmts(p)[i].payload == p
  {
    hide AggregationStmts;
    AggregationNeverPersists(p.event);
  }

  lemma StepInvents(init: DB, s: State, step: Step)
    requires NothingInvented(init, s) && InOrder(s) && OnlyHeadRedelivered(s) && Next(s, step).Some?
    ensures NothingInvented(init, Next(s, step).value)
  {
    hide Exec, Stmts;
    if s.inflight.Some? && step.Execute? {
      var m, done := s.inflight.value.msg, s.inflight.value.done;
      var stmt := Stmts(m.payload)[done];
      ExecKeepsIndexed(s.db, stmt);
      assert Outstanding(s)[0] == m.payload;
      assert s.produced[|Payloads(Msgs(s.handled))|] == m.payload;
      if stmt.Persist? {
        StatementPersistsOwn(m.payload, done);
      }
      var t := Next(s, step).value;
      forall id | id in t.db.indexed && id !in init.indexed
        ensures t.db.indexed[id].id == id && t.db.indexed[id] in s.produced {
        if id !in s.db.indexed {
          assert t.db.indexed[id] == m.payload;
        }
      }
      assert forall id :: id in init.indexed ==> id in s.db.indexed.Keys;
    }
  }

  // ---- The fold of the acked log ----------------------------------------------------------

  lemma StepFolds(init: DB, s: State, step: Step)
    requires FoldOfAcked(init, s) && Absorbing(s) && Next(s, step).Some?
    ensures FoldOfAcked(init, Next(s, step).value)
  {
    hide Exec, Stmts, Apply, AddsToRow, ButLocks, Payloads, Times;
    if s.inflight.Some? && step.Ack? {
      AckedIsAtomic(s);
      var m := s.inflight.value.msg;
      assert (s.acked + [m])[..|s.acked|] == s.acked;
      PayloadsOfConcat(s.acked, [m]);
      MsgsOfConcat(s.handled, Sent(m));
      PayloadsOfConcat(Msgs(s.handled), [m]);
    }
  }

  lemma StepSettles(init: DB, s: State, step: Step)
    requires Settles(init, s) && Absorbing(s) && OnlyHeadRedelivered(s) && Next(s, step).Some?
    ensures Settles(init, Next(s, step).value)
  {
    hide Exec, Stmts, Apply, Times, Settled, AfterCuts;
    if s.inflight.None? || step.Produce? || step.Deliver? {
      if s.queue != [] {
        NoAttempt(s.base, s.queue[0].payload);
      }
    } else {
      var m, done := s.inflight.value.msg, s.inflight.value.done;
      OneMoreAttempt(s.base, m.payload, m.cuts, done);
      SettledNext(init, s.handled, Dropped(m, done));
      SettledNext(init, s.handled, Sent(m));
      CutOrComplete(s.inflight.value.start, m.payload, done);
    }
  }

  lemma SettledNext(init: DB, handled: seq<Handled>, last: Handled)
    ensures var before, m := Settled(init, handled), last.msg;
      Settled(init, handled + [last]) ==
      if last.Sent? then Times(before, m.payload, m.completed + 1)
      else AfterCuts(before, m.payload, m.cuts + [last.done])
  {
    hide Times, AfterCuts;
    assert (handled + [last])[..|handled|] == handled;
  }

  lemma NoAttempt(db: DB, p: Payload)
    ensures AfterCuts(db, p, []) == db
  {
  }

  lemma OneMoreAttempt(db: DB, p: Payload, cuts: seq<nat>, done: nat)
    requires done <= |Stmts(p)|
    ensures AfterCuts(db, p, cuts + [done]) == Fold(Exec, AfterCuts(db, p, cuts), Stmts(p)[..done])
  {
    hide Exec, Stmts;
    assert (cuts + [done])[..|cuts|] == cuts;
  }

  /** The message acked as number `i` added to a lock, and had done so before. */
  ghost predicate AddedAgain(init: DB, acked: seq<Msg>, i: nat)
    requires i < |acked|
  {
    acked[i].completed > 0 && AddsToRow(Fold(Apply, init, Payloads(acked[..i])), acked[i].payload)
  }

  /** Outside the lock tables repetitions do not show at all. */
  lemma {:induction false} AppliedButLocks(init: DB, acked: seq<Msg>)
    ensures ButLocks(Applied(init, acked)) == ButLocks(Fold(Apply, init, Payloads(acked)))
  {
    hide Apply, ButLocks, Payloads, Times, AddsToRow;
    if acked == [] {
      NoPayloads();
    } else {
      var front, m := acked[..|acked| - 1], acked[|acked| - 1];
      AppliedButLocks(init, front);
      assert acked == front + [m];
      FoldAcked(init, front, m);
      TimesOnce(Applied(init, front), m.payload, m.completed + 1);
      ApplyButLocks(Applied(init, front), Fold(Apply, init, Payloads(front)), m.payload);
    }
  }

  lemma NoPayloads()
    ensures Payloads([]) == []
  {
  }

  lemma FoldAcked(init: DB, front: seq<Msg>, m: Msg)
    ensures Fold(Apply, init, Payloads(front + [m])) == Apply(Fold(Apply, init, Payloads(front)), m.payload)
    ensures |front + [m]| > 0 && (front + [m])[..|front|] == front
  {
    hide Apply, Payloads;
    PayloadsOfConcat(front, [m]);
    FoldConcat(Apply, init, Payloads(front), [m.payload]);
    FoldOne(Apply, Fold(Apply, init, Payloads(front)), [m.payload]);
  }

  /** After each ack the tables were the fold of the messages acked so far. */
  ghost predicate FoldThroughout(init: DB, acked: seq<Msg>) {
    forall k :: 0 <= k <= |acked| ==> Applied(init, acked[..k]) == Fold(Apply, init, Payloads(acked[..k]))
  }

  /** They were, exactly if no increase of an existing lock was requeued complete. */
  lemma {:induction false} AppliedIsFold(init: DB, acked: seq<Msg>)
    ensures FoldThroughout(init, acked) <==> forall i :: 0 <= i < |acked| ==> !AddedAgain(init, acked, i)
  {
    hide Apply, Payloads, Times, AddsToRow, ButLocks, Applied;
    if acked == [] {
      NoPayloads();
      assert Applied(init, []) == init by {
        NothingApplied(init);
      }
    } else {
      hide FoldThroughout, AddedAgain;
      var n := |acked| - 1;
      var front := acked[..n];
      AppliedIsFold(init, front);
      ThroughoutFront(init, acked);
      if FoldThroughout(init, front) {
        ThroughoutLast(init, front);
        LastAck(init, acked);
      } else {
        var i :| 0 <= i < n && AddedAgain(init, front, i);
        assert AddedAgain(init, acked, i);
      }
    }
  }

  lemma ThroughoutLast(init: DB, acked: seq<Msg>)
    requires FoldThroughout(init, acked)
    ensures Applied(init, acked) == Fold(Apply, init, Payloads(acked))
  {
    hide Apply, Payloads, Applied;
    assert acked[..|acked|] == acked;
  }

  lemma NothingApplied(init: DB)
    ensures Applied(init, []) == init
  {
  }

  lemma LastAck(init: DB, acked: seq<Msg>)
    requires acked != []
    requires var front := acked[..|acked| - 1]; Applied(init, front) == Fold(Apply, init, Payloads(front))
    ensures Applied(init, acked) == Fold(Apply, init, Payloads(acked)) <==> !AddedAgain(init, acked, |acked| - 1)
  {
    hide Apply, Payloads, Times, AddsToRow, ButLocks;
    var front, m := acked[..|acked| - 1], acked[|acked| - 1];
    assert acked == front + [m];
    FoldAcked(init, front, m);
    TimesOnce(Applied(init, front), m.payload, m.completed + 1);
  }

  lemma ThroughoutFront(init: DB, acked: seq<Msg>)
    requires acked != []
    ensures var n := |acked| - 1;
      && (FoldThroughout(init, acked)
          <==> FoldThroughout(init, acked[..n]) && Applied(init, acked) == Fold(Apply, init, Payloads(acked)))
      && forall i :: 0 <= i < n ==> AddedAgain(init, acked, i) == AddedAgain(init, acked[..n], i)
  {
    hide Apply, Payloads, Times, AddsToRow, Applied;
    var n := |acked| - 1;
    assert forall k :: 0 <= k <= n ==> acked[..n][..k] == acked[..k];
    assert acked[..n + 1] == acked;
  }

  // ---- Main results -----------------------------------------------------------------------

  /** Every run from an idle broker keeps the invariant. */
  lemma {:induction false} RunKeepsInvariant(init: DB, steps: seq<Step>)
    requires Run(Initial(init), steps).Some?
    ensures Inv(init, Run(Initial(init), steps).value)
  {
    hide Exec, Stmts, Apply, Next, InOrder, OnlyHeadRedelivered, Absorbing, StoredBeforeAck, NothingInvented,
      FoldOfAcked, Settles;
    if steps == [] {
      InitialInv(init);
    } else {
      var front, last := steps[..|steps| - 1], steps[|steps| - 1];
      RunKeepsInvariant(init, front);
      var s := Run(Initial(init), front).value;
      StepInOrder(s, last);
      StepMarks(s, last);
      StepAbsorbs(s, last);
      StepStores(s, last);
      StepInvents(init, s, last);
      StepFolds(init, s, last);
      StepSettles(init, s, last);
    }
  }

  lemma InitialInv(init: DB)
    ensures Inv(init, Initial(init))
  {
  }

  /**
   * A message with an id is acked only once it is in `indexed_events`; messages leave in the
   * order they were produced, none twice; the error path requeues each at most once.
   */
  lemma DeliveryGuarantees(init: DB, steps: seq<Step>)
    requires Run(Initial(init), steps).Some?
    ensures var s := Run(Initial(init), steps).value;
      && (forall m :: m in s.acked && m.payload.id != "" ==> m.payload.id in s.db.indexed)
      && s.produced == Payloads(Msgs(s.handled)) + Outstanding(s)
      && (forall i :: 0 <= i < |s.queue| ==> s.queue[i].errorRequeues <= 1)
      && (s.inflight.Some? ==> s.inflight.value.msg.errorRequeues <= 1)
  {
    hide Exec, Stmts, Next;
    RunKeepsInvariant(init, steps);
  }

  /** A run that delivered everything it produced and dropped nothing. */
  ghost predicate Drained(init: DB, steps: seq<Step>) {
    Run(Initial(init), steps).Some?
    && var s := Run(Initial(init), steps).value;
      s.queue == [] && s.inflight.None? && s.dropped == []
  }

  /**
   * Once drained without drops, all tables but those of the locks are the fold of everything
   * produced, each message once. So are the lock tables, unless an increase was requeued complete.
   */
  lemma DrainedTablesAreFold(init: DB, steps: seq<Step>)
    requires Drained(init, steps)
    ensures var s := Run(Initial(init), steps).value;
      && Payloads(s.acked) == s.produced && s.db == Applied(init, s.acked)
      && ButLocks(s.db) == ButLocks(Fold(Apply, init, s.produced))
      && ((forall i :: 0 <= i < |s.acked| ==> !AddedAgain(init, s.acked, i)) ==> s.db == Fold(Apply, init, s.produced))
  {
    hide Exec, Stmts, Next, Apply, ButLocks, AddedAgain, Applied;
    RunKeepsInvariant(init, steps);
    var s := Run(Initial(init), steps).value;
    assert Outstanding(s) == [];
    AppliedButLocks(init, s.acked);
    AppliedIsFold(init, s.acked);
    assert s.acked[..|s.acked|] == s.acked;
  }

  /**
   * With drops: whenever the queue is empty, the tables are what the produced messages made of
   * them in order, each acked one whole, each dropped one as far as its attempts got.
   */
  lemma QuietTablesAreSettled(init: DB, steps: seq<Step>)
    requires Run(Initial(init), steps).Some?
    requires var s := Run(Initial(init), steps).value; s.queue == [] && s.inflight.None?
    ensures var s := Run(Initial(init), steps).value;
      Payloads(Msgs(s.handled)) == s.produced && s.db == Settled(init, s.handled)
  {
    hide Exec, Stmts, Next, Apply, Settled;
    RunKeepsInvariant(init, steps);
    assert Outstanding(Run(Initial(init), steps).value) == [];
  }
}
