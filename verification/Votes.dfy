/** Vote positions and vote events, apps/broker/src/aggregator/voting-events.ts. */
module Votes {
  import opened Results
  import opened EventLog

  /** Block number, block timestamp and transaction hash of an event. */
  datatype Meta = Meta(blockNumber: string, blockTimestamp: string, transactionHash: string)

  datatype Key = Key(tokenId: string, pool: string)

  datatype Row = Row(owner: string, weight: string, totalWeight: string, epochTimestamp: string, isActive: bool)

  datatype Kind = Voted | Abstained

  datatype EventRow = EventRow(key: Key, owner: string, kind: Kind, weight: string, totalWeight: string,
                               epochTimestamp: string, meta: Meta)

  /** `voter_vote_positions` and `voter_vote_events`, by their unique keys. */
  datatype Tables = Tables(positions: map<Key, Row>, events: map<string, EventRow>)

  /** A VoterVoted or VoterAbstained event, addresses in lower case. */
  datatype Event = Event(id: string, row: EventRow)

  datatype Stmt =
    | UpsertPosition(key: Key, row: Row)
    | ClearPosition(key: Key)
    | InsertEvent(id: string, event: EventRow)

  function Exec(t: Tables, stmt: Stmt): Tables {
    match stmt
    case UpsertPosition(key, row) => t.(positions := t.positions[key := row])
    case ClearPosition(key) =>
      if key in t.positions
      then t.(positions := t.positions[key := t.positions[key].(weight := "0", isActive := false)])
      else t
    case InsertEvent(id, event) => if id in t.events then t else t.(events := t.events[id := event])
  }

  function Stmts(e: Event): seq<Stmt> {
    var r := e.row;
    [if r.kind == Voted
     then UpsertPosition(r.key, Row(r.owner, r.weight, r.totalWeight, r.epochTimestamp, true))
     else ClearPosition(r.key),
     InsertEvent(e.id, r)]
  }

  /** Both statements of one event. */
  function Apply(t: Tables, e: Event): Tables {
    Exec(Exec(t, Stmts(e)[0]), Stmts(e)[1])
  }

  /** Event ids identify events. */
  ghost predicate Consistent(log: seq<Event>) {
    forall a, b :: a in log && b in log && a.id == b.id ==> a == b
  }

  ghost function PositionOf(t: Tables, key: Key): Option<Row> {
    if key in t.positions then Some(t.positions[key]) else None
  }

  /** What an event makes of the position of `key`. */
  ghost function PositionStep(e: Event, key: Key, p: Option<Row>): Option<Row> {
    var r := e.row;
    if r.key != key then p
    else if r.kind == Voted then Some(Row(r.owner, r.weight, r.totalWeight, r.epochTimestamp, true))
    else if p.None? then None
    else Some(p.value.(weight := "0", isActive := false))
  }

  lemma ApplyPosition(t: Tables, e: Event, key: Key)
    ensures PositionOf(Apply(t, e), key) == PositionStep(e, key, PositionOf(t, key))
  {
  }

  lemma ApplyEvents(t: Tables, e: Event)
    ensures Apply(t, e).events == if e.id in t.events then t.events else t.events[e.id := e.row]
  {
  }

  lemma SameTables(t: Tables, u: Tables)
    requires t.events == u.events && forall key :: PositionOf(t, key) == PositionOf(u, key)
    ensures t == u
  {
    assert forall key :: key in t.positions <==> PositionOf(t, key).Some?;
    assert forall key :: key in u.positions <==> PositionOf(u, key).Some?;
    assert forall key :: key in t.positions ==> Some(t.positions[key]) == PositionOf(t, key) == PositionOf(u, key);
    assert t.positions == u.positions;
  }

  lemma ApplyTwice(t: Tables, a: Event)
    ensures Apply(Apply(t, a), a) == Apply(t, a)
  {
    hide Apply, PositionOf;
    forall key ensures PositionOf(Apply(Apply(t, a), a), key) == PositionOf(Apply(t, a), key) {
      ApplyPosition(t, a, key);
      ApplyPosition(Apply(t, a), a, key);
    }
    ApplyEvents(t, a);
    ApplyEvents(Apply(t, a), a);
    SameTables(Apply(Apply(t, a), a), Apply(t, a));
  }

  /** An attempt cut off after `j` statements and then repeated in full leaves what one full attempt leaves. */
  lemma AttemptAbsorbed(t: Tables, e: Event, j: nat)
    requires j <= 2
    ensures Fold(Exec, Fold(Exec, t, Stmts(e)[..j]), Stmts(e)) == Fold(Exec, t, Stmts(e)) == Apply(t, e)
  {
    hide Exec;
    var s := Stmts(e);
    FoldBoth(Exec, t, s);
    FoldBoth(Exec, Fold(Exec, t, s[..j]), s);
    if j == 0 {
      assert s[..0] == [];
    } else if j == 1 {
      assert s[..1] == [s[0]] && s[..1][..0] == [];
      PositionTwice(t, s[0]);
    } else {
      assert s[..2] == s;
      ApplyTwice(t, e);
    }
  }

  lemma PositionTwice(t: Tables, a: Stmt)
    requires !a.InsertEvent?
    ensures Exec(Exec(t, a), a) == Exec(t, a)
  {
    assert Exec(Exec(t, a), a).positions == Exec(t, a).positions;
  }

  lemma ApplyAround(t: Tables, a: Event, b: Event)
    requires a.id == b.id ==> a == b
    ensures Apply(Apply(Apply(t, a), b), a) == Apply(Apply(t, b), a)
  {
    hide Apply, PositionOf;
    var ab := Apply(Apply(t, a), b);
    forall key ensures PositionOf(Apply(ab, a), key) == PositionOf(Apply(Apply(t, b), a), key) {
      ApplyPosition(t, a, key);
      ApplyPosition(Apply(t, a), b, key);
      ApplyPosition(ab, a, key);
      ApplyPosition(t, b, key);
      ApplyPosition(Apply(t, b), a, key);
    }
    ApplyEvents(t, a);
    ApplyEvents(Apply(t, a), b);
    ApplyEvents(ab, a);
    ApplyEvents(t, b);
    ApplyEvents(Apply(t, b), a);
    SameTables(Apply(ab, a), Apply(Apply(t, b), a));
  }

  /** Replaying the vote log, or any suffix of it, on the finished tables changes nothing. */
  lemma ReplayVotes(t: Tables, log: seq<Event>, from: nat)
    requires Consistent(log) && from <= |log|
    ensures Fold(Apply, Fold(Apply, t, log), log[from..]) == Fold(Apply, t, log)
  {
    forall s, a | a in log ensures Apply(Apply(s, a), a) == Apply(s, a) {
      ApplyTwice(s, a);
    }
    forall s, a, b | a in log && b in log ensures Apply(Apply(Apply(s, a), b), a) == Apply(Apply(s, b), a) {
      ApplyAround(s, a, b);
    }
    ReplaySuffix(Apply, t, log, from);
  }

  /** The last event on a key decides: a vote makes the whole row, an abstention empties the one that is there. */
  lemma {:induction false} LastVoteDecides(t: Tables, log: seq<Event>, key: Key, k: nat)
    requires k < |log| && log[k].row.key == key && forall j :: k < j < |log| ==> log[j].row.key != key
    ensures var p, was, r :=
        PositionOf(Fold(Apply, t, log), key), PositionOf(Fold(Apply, t, log[..k]), key), log[k].row;
      if r.kind == Voted then p == Some(Row(r.owner, r.weight, r.totalWeight, r.epochTimestamp, true))
      else if was.None? then p == None
      else p == Some(Row(was.value.owner, "0", was.value.totalWeight, was.value.epochTimestamp, false))
  {
    hide PositionOf, Apply;
    var rest, last := log[..|log| - 1], log[|log| - 1];
    ApplyPosition(Fold(Apply, t, rest), last, key);
    if k + 1 < |log| {
      LastVoteDecides(t, rest, key, k);
      assert rest[..k] == log[..k];
    } else {
      assert rest == log[..k];
    }
  }

  /** A key no event speaks of keeps its position. */
  lemma {:induction false} OtherKeysUntouched(t: Tables, log: seq<Event>, key: Key)
    requires forall j :: 0 <= j < |log| ==> log[j].row.key != key
    ensures PositionOf(Fold(Apply, t, log), key) == PositionOf(t, key)
  {
    if log != [] {
      ApplyPosition(Fold(Apply, t, log[..|log| - 1]), log[|log| - 1], key);
      OtherKeysUntouched(t, log[..|log| - 1], key);
    }
  }

  /** Event rows are the old ones and one for each id of the log; old ones are never overwritten. */
  lemma {:induction false} EventIdsAfter(t: Tables, log: seq<Event>, id: string)
    ensures var u := Fold(Apply, t, log);
      && (id in u.events <==> id in t.events || exists j :: 0 <= j < |log| && log[j].id == id)
      && (id in t.events ==> u.events[id] == t.events[id])
  {
    hide Apply;
    if log != [] {
      var rest, last := log[..|log| - 1], log[|log| - 1];
      EventIdsAfter(t, rest, id);
      ApplyEvents(Fold(Apply, t, rest), last);
      if j :| 0 <= j < |rest| && rest[j].id == id {
        assert log[j].id == id;
      }
    }
  }

  /** The first event with an id supplies the row of that id. */
  lemma {:induction false} FirstEventRow(t: Tables, log: seq<Event>, k: nat)
    requires k < |log| && log[k].id !in t.events && forall j :: 0 <= j < k ==> log[j].id != log[k].id
    ensures var u := Fold(Apply, t, log); log[k].id in u.events && u.events[log[k].id] == log[k].row
  {
    hide Apply;
    var rest, last := log[..|log| - 1], log[|log| - 1];
    ApplyEvents(Fold(Apply, t, rest), last);
    if k + 1 < |log| {
      FirstEventRow(t, rest, k);
    } else {
      EventIdsAfter(t, rest, log[k].id);
    }
  }

  /** The position is written first: an attempt cut off in between has changed it, and logged nothing. */
  lemma CutAttempt(t: Tables, e: Event)
    ensures |Stmts(e)| == 2
    ensures Fold(Exec, t, Stmts(e)[..1]) == Tables(Apply(t, e).positions, t.events)
  {
    assert Stmts(e)[..1][..0] == [];
    assert Stmts(e)[..1] == [Stmts(e)[0]];
  }
}
