/** The broker tables together, and the statements each indexer message runs on them. */
module BrokerDb {
  import opened EventLog
  import Votes
  import Stakes
  import Whitelist
  import Fees
  import Locks

  datatype Event =
    | VoteEvent(vote: Votes.Event)
    | StakeEvent(stake: Stakes.Event)
    | WhitelistEvent(whitelist: Whitelist.Event)
    | FeeEvent(fee: Fees.Event)
    | LockEvent(lock: Locks.Event)
    | Unmapped(eventType: string)

  /** A parsed message; `id` is empty when the payload has no usable string id. */
  datatype Payload = Payload(id: string, event: Event)

  datatype DB = DB(indexed: map<string, Payload>, votes: Votes.Tables, stakes: Stakes.Table,
                   whitelist: Whitelist.Tables, fees: Fees.Tables, locks: Locks.Tables)

  datatype Stmt =
    | Persist(payload: Payload)
    | VoteStmt(vote: Votes.Stmt)
    | StakeStmt(stake: Stakes.Event)
    | WhitelistStmt(whitelist: Whitelist.Stmt)
    | FeeStmt(fee: Fees.Event)
    | LockStmt(lock: Locks.Stmt)

  function Exec(db: DB, stmt: Stmt): DB {
    match stmt
    case Persist(p) => if p.id in db.indexed then db else db.(indexed := db.indexed[p.id := p])
    case VoteStmt(s) => db.(votes := Votes.Exec(db.votes, s))
    case StakeStmt(e) => db.(stakes := Stakes.Apply(db.stakes, e))
    case WhitelistStmt(s) => db.(whitelist := Whitelist.Exec(db.whitelist, s))
    case FeeStmt(e) => db.(fees := Fees.Apply(db.fees, e))
    case LockStmt(s) => db.(locks := Locks.Exec(db.locks, s))
  }

  /** `persistIfNew`: nothing is stored without an id. */
  function PersistStmts(p: Payload): seq<Stmt> {
    if p.id == "" then [] else [Persist(p)]
  }

  function AggregationStmts(e: Event): seq<Stmt> {
    match e
    case VoteEvent(v) => Wrap(Votes.Stmts(v), s => VoteStmt(s))
    case StakeEvent(s) => [StakeStmt(s)]
    case WhitelistEvent(w) => Wrap(Whitelist.Stmts(w), s => WhitelistStmt(s))
    case FeeEvent(f) => [FeeStmt(f)]
    case LockEvent(l) => Wrap(Locks.Stmts(l), s => LockStmt(s))
    case Unmapped(_) => []
  }

  function Wrap<T>(stmts: seq<T>, f: T -> Stmt): (r: seq<Stmt>)
    ensures |r| == |stmts| && forall i :: 0 <= i < |r| ==> r[i] == f(stmts[i])
  {
    if stmts == [] then [] else Wrap(stmts[..|stmts| - 1], f) + [f(stmts[|stmts| - 1])]
  }

  /** All statements of one message, in order. */
  function Stmts(p: Payload): seq<Stmt> {
    PersistStmts(p) + AggregationStmts(p.event)
  }

  /** One message applied atomically. */
  ghost function Apply(db: DB, p: Payload): DB {
    Fold(Exec, db, Stmts(p))
  }

  /** Only an increase of a lock amount adds to what is there. */
  ghost predicate IsAdditive(p: Payload) {
    p.event.LockEvent? && Locks.IsIncrease(p.event.lock)
  }

  /** The message really adds: an increase by some value, of a lock that has a row. */
  ghost predicate AddsToRow(db: DB, p: Payload) {
    IsAdditive(p) && p.event.lock.tokenId in db.locks.positions && p.event.lock.value != 0
  }

  /** Every table but those of the locks. */
  ghost function ButLocks(db: DB): DB {
    db.(locks := Locks.Tables(map[], map[]))
  }

  // ---- Statements of one kind touch one table ---------------------------------------------

  lemma {:induction false} FoldVotes(db: DB, stmts: seq<Votes.Stmt>)
    ensures Fold(Exec, db, Wrap(stmts, s => VoteStmt(s))) == db.(votes := Fold(Votes.Exec, db.votes, stmts))
  {
    hide Votes.Exec;
    if stmts != [] {
      var rest := stmts[..|stmts| - 1];
      FoldVotes(db, rest);
      FoldSnoc(db, Wrap(rest, s => VoteStmt(s)), VoteStmt(stmts[|stmts| - 1]));
    }
  }

  lemma {:induction false} FoldWhitelist(db: DB, stmts: seq<Whitelist.Stmt>)
    ensures Fold(Exec, db, Wrap(stmts, s => WhitelistStmt(s)))
        == db.(whitelist := Fold(Whitelist.Exec, db.whitelist, stmts))
  {
    hide Whitelist.Exec;
    if stmts != [] {
      var rest := stmts[..|stmts| - 1];
      FoldWhitelist(db, rest);
      FoldSnoc(db, Wrap(rest, s => WhitelistStmt(s)), WhitelistStmt(stmts[|stmts| - 1]));
    }
  }

  lemma {:induction false} FoldLocks(db: DB, stmts: seq<Locks.Stmt>)
    ensures Fold(Exec, db, Wrap(stmts, s => LockStmt(s))) == db.(locks := Fold(Locks.Exec, db.locks, stmts))
  {
    hide Locks.Exec;
    if stmts != [] {
      var rest := stmts[..|stmts| - 1];
      FoldLocks(db, rest);
      FoldSnoc(db, Wrap(rest, s => LockStmt(s)), LockStmt(stmts[|stmts| - 1]));
    }
  }

  lemma FoldSnoc(db: DB, stmts: seq<Stmt>, last: Stmt)
    ensures Fold(Exec, db, stmts + [last]) == Exec(Fold(Exec, db, stmts), last)
  {
    assert (stmts + [last])[..|stmts|] == stmts;
  }

  lemma {:induction false} WrapPrefix<T>(stmts: seq<T>, f: T -> Stmt, j: nat)
    requires j <= |stmts|
    ensures Wrap(stmts, f)[..j] == Wrap(stmts[..j], f)
  {
  }

  // ---- Interrupted attempts ---------------------------------------------------------------

  lemma AggregationAbsorbed(db: DB, p: Payload, j: nat)
    requires !IsAdditive(p) && j <= |AggregationStmts(p.event)|
    ensures var s := AggregationStmts(p.event);
      Fold(Exec, Fold(Exec, db, s[..j]), s) == Fold(Exec, db, s)
  {
    var s := AggregationStmts(p.event);
    match p.event
    case VoteEvent(v) =>
      WrapPrefix(Votes.Stmts(v), x => VoteStmt(x), j);
      FoldVotes(db, Votes.Stmts(v)[..j]);
      FoldVotes(Fold(Exec, db, s[..j]), Votes.Stmts(v));
      FoldVotes(db, Votes.Stmts(v));
      Votes.AttemptAbsorbed(db.votes, v, j);
    case WhitelistEvent(w) =>
      WrapPrefix(Whitelist.Stmts(w), x => WhitelistStmt(x), j);
      FoldWhitelist(db, Whitelist.Stmts(w)[..j]);
      FoldWhitelist(Fold(Exec, db, s[..j]), Whitelist.Stmts(w));
      FoldWhitelist(db, Whitelist.Stmts(w));
      Whitelist.AttemptAbsorbed(db.whitelist, w, j);
    case LockEvent(l) =>
      WrapPrefix(Locks.Stmts(l), x => LockStmt(x), j);
      FoldLocks(db, Locks.Stmts(l)[..j]);
      FoldLocks(Fold(Exec, db, s[..j]), Locks.Stmts(l));
      FoldLocks(db, Locks.Stmts(l));
      Locks.AttemptAbsorbed(db.locks, l, j);
    case StakeEvent(e) =>
      SingleAbsorbed(db, s, j);
    case FeeEvent(f) =>
      Fees.ApplyTwice(db.fees, f);
      SingleAbsorbed(db, s, j);
    case Unmapped(_) =>
      assert s[..j] == [];
  }

  lemma SingleAbsorbed(db: DB, s: seq<Stmt>, j: nat)
    requires |s| == 1 && j <= 1 && Exec(Exec(db, s[0]), s[0]) == Exec(db, s[0])
    ensures Fold(Exec, Fold(Exec, db, s[..j]), s) == Fold(Exec, db, s)
  {
    hide Exec;
    if j == 0 {
      assert s[..0] == [];
    } else {
      assert s[..1] == s && s[..0] == [];
    }
  }

  lemma {:induction false} IndexedUntouched(db: DB, s: seq<Stmt>)
    requires forall i :: 0 <= i < |s| ==> !s[i].Persist?
    ensures Fold(Exec, db, s).indexed == db.indexed
  {
    if s != [] {
      IndexedUntouched(db, s[..|s| - 1]);
    }
  }

  lemma AggregationNeverPersists(e: Event)
    ensures forall i :: 0 <= i < |AggregationStmts(e)| ==> !AggregationStmts(e)[i].Persist?
  {
  }

  /**
   * An attempt cut off after any of its statements, and then repeated in full, leaves exactly
   * what one full attempt leaves, unless it had already added its value to a lock; and that
   * shows in the lock tables only.
   */
  lemma AttemptAbsorbed(db: DB, p: Payload, j: nat)
    requires j <= |Stmts(p)|
    ensures Apply(Fold(Exec, db, Stmts(p)[..j]), p) == Apply(db, p) <==> !(j == |Stmts(p)| && AddsToRow(db, p))
    ensures ButLocks(Apply(Fold(Exec, db, Stmts(p)[..j]), p)) == ButLocks(Apply(db, p))
  {
    if IsAdditive(p) {
      hide Exec, Apply, Stmts;
      AdditiveAttempt(db, p, j);
      if j == |Stmts(p)| && AddsToRow(db, p) {
        assert Stmts(p)[..j] == Stmts(p);
        assert Fold(Exec, db, Stmts(p)) == Apply(db, p) by {
          ApplyIsFold(db, p);
        }
        LockMessage(db, p);
        LockMessage(Apply(db, p), p);
      }
    } else {
      hide Exec, Apply, Stmts, IsAdditive;
      RepeatableAbsorbed(db, p, j);
    }
  }

  lemma ApplyIsFold(db: DB, p: Payload)
    ensures Apply(db, p) == Fold(Exec, db, Stmts(p))
  {
  }

  /** A lock message changes the lock tables, and is stored; once stored it stays so. */
  lemma LockMessage(db: DB, p: Payload)
    requires p.event.LockEvent?
    ensures var indexed := if p.id == "" || p.id in db.indexed then db.indexed else db.indexed[p.id := p];
      Apply(db, p) == db.(indexed := indexed, locks := Locks.Apply(db.locks, p.event.lock))
    ensures p.id != "" ==> p.id in Apply(db, p).indexed
  {
    hide AggregationStmts, Locks.Exec, Locks.Stmts;
    FoldConcat(Exec, db, PersistStmts(p), AggregationStmts(p.event));
    FoldOne(Exec, db, PersistStmts(p));
    AggregationIsLocks(p);
    FoldLocks(Fold(Exec, db, PersistStmts(p)), Locks.Stmts(p.event.lock));
  }

  /**
   * A message is stored under its id, unless something is stored there or it has none; an attempt
   * cut off after its first statement has done that and nothing else.
   */
  lemma StoredBeforeAggregated(db: DB, p: Payload)
    ensures Apply(db, p).indexed == if p.id == "" || p.id in db.indexed then db.indexed else db.indexed[p.id := p]
    ensures p.id != "" ==>
      |Stmts(p)| >= 1 && Fold(Exec, db, Stmts(p)[..1]) == db.(indexed := Apply(db, p).indexed)
  {
    hide AggregationStmts;
    var stored := Fold(Exec, db, PersistStmts(p));
    FoldConcat(Exec, db, PersistStmts(p), AggregationStmts(p.event));
    FoldOne(Exec, db, PersistStmts(p));
    AggregationNeverPersists(p.event);
    IndexedUntouched(stored, AggregationStmts(p.event));
    if p.id != "" {
      assert Stmts(p)[..1] == PersistStmts(p);
    }
  }

  lemma RepeatableAbsorbed(db: DB, p: Payload, j: nat)
    requires !IsAdditive(p) && j <= |Stmts(p)|
    ensures Apply(Fold(Exec, db, Stmts(p)[..j]), p) == Apply(db, p)
  {
    hide Exec, AggregationStmts, IsAdditive;
    var s, a := Stmts(p), AggregationStmts(p.event);
    if p.id == "" {
      assert s == a;
      AggregationAbsorbed(db, p, j);
    } else if j == 0 {
      assert s[..0] == [];
    } else {
      StoredThenRepeated(db, p, j);
      AggregationAbsorbed(Exec(db, Persist(p)), p, j - 1);
    }
  }

  /** Once the message is stored, only its aggregation is repeated. */
  lemma StoredThenRepeated(db: DB, p: Payload, j: nat)
    requires p.id != "" && 0 < j <= |Stmts(p)|
    ensures var d, a := Exec(db, Persist(p)), AggregationStmts(p.event);
      && Apply(db, p) == Fold(Exec, d, a)
      && Apply(Fold(Exec, db, Stmts(p)[..j]), p) == Fold(Exec, Fold(Exec, d, a[..j - 1]), a)
  {
    hide Exec, AggregationStmts;
    var s, a, first := Stmts(p), AggregationStmts(p.event), Persist(p);
    assert s == [first] + a && s[..j] == [first] + a[..j - 1];
    FoldFirst(db, first, a[..j - 1]);
    FoldFirst(db, first, a);
    var d := Exec(db, first);
    var cut := Fold(Exec, d, a[..j - 1]);
    FoldFirst(cut, first, a);
    AggregationNeverPersists(p.event);
    IndexedUntouched(d, a[..j - 1]);
    PersistOnce(db, p, cut);
  }

  lemma FoldFirst(db: DB, first: Stmt, rest: seq<Stmt>)
    ensures Fold(Exec, db, [first] + rest) == Fold(Exec, Exec(db, first), rest)
  {
    hide Exec;
    assert ([first] + rest)[1..] == rest;
    FoldCons(Exec, db, [first] + rest);
  }

  lemma PersistOnce(db: DB, p: Payload, later: DB)
    requires later.indexed == Exec(db, Persist(p)).indexed
    ensures Exec(later, Persist(p)) == later
  {
  }

  /** An additive message shows its interruption exactly as the lock projection does. */
  lemma AdditiveAttempt(db: DB, p: Payload, j: nat)
    requires IsAdditive(p) && j <= |Stmts(p)|
    ensures Apply(Fold(Exec, db, Stmts(p)[..j]), p) == Apply(db, p) <==> !(j == |Stmts(p)| && AddsToRow(db, p))
  {
    hide Exec, Locks.Exec, AggregationStmts, Locks.Stmts, Locks.Apply;
    AggregationIsLocks(p);
    var lock, a := p.event.lock, AggregationStmts(p.event);
    Locks.IncreaseHasTwo(lock);
    if p.id == "" {
      assert Stmts(p) == a;
      LockStmtsRepeated(db, lock, j);
    } else if j == 0 {
      assert Stmts(p)[..0] == [];
    } else {
      hide Stmts, Apply;
      assert |Stmts(p)| == 3 by {
        StoredFirst(p);
      }
      StoredThenRepeated(db, p, j);
      LocksUntouched(db, p);
      LockStmtsRepeated(Exec(db, Persist(p)), lock, j - 1);
    }
  }

  lemma StoredFirst(p: Payload)
    requires p.id != ""
    ensures |Stmts(p)| == 1 + |AggregationStmts(p.event)|
  {
    hide AggregationStmts;
  }

  lemma LocksUntouched(db: DB, p: Payload)
    ensures Exec(db, Persist(p)).locks == db.locks
  {
  }

  lemma AggregationIsLocks(p: Payload)
    requires p.event.LockEvent?
    ensures AggregationStmts(p.event) == Wrap(Locks.Stmts(p.event.lock), s => LockStmt(s))
  {
  }

  lemma LockStmtsRepeated(db: DB, lock: Locks.Event, j: nat)
    requires j <= |Locks.Stmts(lock)|
    ensures var a := Wrap(Locks.Stmts(lock), s => LockStmt(s));
      Fold(Exec, Fold(Exec, db, a[..j]), a) == Fold(Exec, db, a)
      <==> Locks.Apply(Fold(Locks.Exec, db.locks, Locks.Stmts(lock)[..j]), lock) == Locks.Apply(db.locks, lock)
    ensures Locks.Apply(Fold(Locks.Exec, db.locks, Locks.Stmts(lock)[..j]), lock) == Locks.Apply(db.locks, lock)
      <==> !(Locks.IsIncrease(lock) && j == 2 && lock.tokenId in db.locks.positions && lock.value != 0)
  {
    hide Locks.Exec, Locks.Stmts, Exec;
    var l, a := Locks.Stmts(lock), Wrap(Locks.Stmts(lock), s => LockStmt(s));
    WrapPrefix(l, x => LockStmt(x), j);
    FoldLocks(db, l[..j]);
    FoldLocks(db, l);
    FoldLocks(Fold(Exec, db, a[..j]), l);
    Locks.AttemptAbsorbed(db.locks, lock, j);
  }

  // ---- Repeated messages ------------------------------------------------------------------

  /** The message applied `n` times over. */
  ghost function Times(db: DB, p: Payload, n: nat): DB {
    if n == 0 then db else Apply(Times(db, p, n - 1), p)
  }

  /** Statements on other tables do not read the lock tables. */
  lemma {:induction false} LocksApart(a: DB, b: DB, stmts: seq<Stmt>)
    requires ButLocks(a) == ButLocks(b)
    ensures ButLocks(Fold(Exec, a, stmts)) == ButLocks(Fold(Exec, b, stmts))
  {
    hide Exec, ButLocks;
    if stmts != [] {
      var front := stmts[..|stmts| - 1];
      LocksApart(a, b, front);
      LocksApartOnce(Fold(Exec, a, front), Fold(Exec, b, front), stmts[|stmts| - 1]);
    }
  }

  lemma LocksApartOnce(a: DB, b: DB, stmt: Stmt)
    requires ButLocks(a) == ButLocks(b)
    ensures ButLocks(Exec(a, stmt)) == ButLocks(Exec(b, stmt))
  {
    hide Locks.Exec, Votes.Exec, Whitelist.Exec, Fees.Apply, Stakes.Apply;
  }

  /** Applying a message again changes nothing, unless it adds to a lock, and then only locks. */
  lemma {:induction false} TimesOnce(db: DB, p: Payload, n: nat)
    requires n > 0
    ensures ButLocks(Times(db, p, n)) == ButLocks(Apply(db, p))
    ensures Times(db, p, n) == Apply(db, p) <==> n == 1 || !AddsToRow(db, p)
  {
    hide Apply, AddsToRow, ButLocks, IsAdditive;
    if n > 1 {
      TimesOnce(db, p, n - 1);
      ApplyTwice(db, p);
      ApplyButLocks(Times(db, p, n - 1), Apply(db, p), p);
      AddedMore(db, p, n);
      assert Times(db, p, 1) == Apply(db, p) by {
        assert Times(db, p, 0) == db;
      }
    } else {
      assert Times(db, p, 0) == db;
    }
  }

  lemma ApplyTwice(db: DB, p: Payload)
    ensures Apply(Apply(db, p), p) == Apply(db, p) <==> !AddsToRow(db, p)
    ensures ButLocks(Apply(Apply(db, p), p)) == ButLocks(Apply(db, p))
  {
    hide Stmts, Exec, AddsToRow;
    assert Stmts(p)[..|Stmts(p)|] == Stmts(p);
    AttemptAbsorbed(db, p, |Stmts(p)|);
  }

  lemma ApplyButLocks(a: DB, b: DB, p: Payload)
    requires ButLocks(a) == ButLocks(b)
    ensures ButLocks(Apply(a, p)) == ButLocks(Apply(b, p))
  {
    hide Stmts, Exec, ButLocks;
    LocksApart(a, b, Stmts(p));
  }

  /** Every repetition of an increase adds its value once more, and touches no other row. */
  lemma {:induction false} AmountAfterTimes(db: DB, p: Payload, n: nat)
    requires IsAdditive(p) && p.event.lock.tokenId in db.locks.positions
    ensures var k, before := p.event.lock.tokenId, db.locks.positions;
      Times(db, p, n).locks.positions == before[k := before[k].(amount := before[k].amount + n * p.event.lock.value)]
  {
    hide Apply, IsAdditive;
    if n > 0 {
      AmountAfterTimes(db, p, n - 1);
      AmountAfterOne(Times(db, p, n - 1), p);
    }
  }

  lemma AmountAfterOne(db: DB, p: Payload)
    requires IsAdditive(p) && p.event.lock.tokenId in db.locks.positions
    ensures var k, before := p.event.lock.tokenId, db.locks.positions;
      Apply(db, p).locks.positions == before[k := before[k].(amount := before[k].amount + p.event.lock.value)]
  {
    hide Apply;
    LockMessage(db, p);
    Locks.IncreaseAdds(db.locks, p.event.lock);
  }

  lemma TwiceDiffers(n: nat, v: int)
    requires n > 1 && v != 0
    ensures n * v != v
  {
    assert n * v - v == (n - 1) * v;
  }

  lemma AddedMore(db: DB, p: Payload, n: nat)
    requires n > 1
    ensures AddsToRow(db, p) ==> Times(db, p, n) != Apply(db, p)
  {
    if AddsToRow(db, p) {
      hide Apply, Times, IsAdditive;
      AmountAfterTimes(db, p, n);
      AmountAfterOne(db, p);
      TwiceDiffers(n, p.event.lock.value);
      var k := p.event.lock.tokenId;
      assert Times(db, p, n).locks.positions[k].amount != Apply(db, p).locks.positions[k].amount;
    }
  }
}
