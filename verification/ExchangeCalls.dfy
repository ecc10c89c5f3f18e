/**
 * Rollup calls side by side, apps/broker/src/exchange/exchange-rollup.service.ts. The consumer's
 * calls and those of the minute cron share the buckets, and nothing makes one wait for the other.
 */
module ExchangeCalls {
  import opened Results
  import opened Totals
  import opened ExchangeRollup

  type BumpIndex = n: nat | n < 3

  /** A call under way: how many bumps it has saved, and the row found for the next one, if it has looked. */
  datatype Call = Call(event: Event, saved: BumpIndex, found: Option<Row>)

  datatype Bump = Bump(key: Key, delta: Row)

  /** `finished` are the events of the calls that are through; `saves` all bumps in the order of their saves. */
  datatype State = State(buckets: Buckets, calls: map<nat, Call>, finished: seq<Event>, saves: seq<Bump>)

  datatype Step =
    | Begin(caller: nat, event: Event)   // some caller starts a call
    | Find(caller: nat)                  // its findOne returns
    | Save(caller: nat)                  // its save commits

  function Idle(m: Buckets): State {
    State(m, map[], [], [])
  }

  function NextBump(align: Aligner, call: Call): Bump {
    var res := ROLLUP_RESOLUTIONS[call.saved];
    Bump(KeyFor(align, call.event, res), Delta(call.event, res))
  }

  /** The state after a step, if the step can be taken. */
  function Next(align: Aligner, s: State, step: Step): Option<State> {
    match step
    case Begin(c, e) =>
      if c in s.calls then None
      else if Recorded(e) then Some(s.(calls := s.calls[c := Call(e, 0, None)]))
      else Some(s.(finished := s.finished + [e]))
    case Find(c) =>
      if c in s.calls && s.calls[c].found.None?
      then
        var row := RowAt(s.buckets, NextBump(align, s.calls[c]).key);
        Some(s.(calls := s.calls[c := s.calls[c].(found := Some(row))]))
      else None
    case Save(c) =>
      if c in s.calls && s.calls[c].found.Some? then Some(Saved(align, s, c, s.calls[c])) else None
  }

  /** The found row goes back with the delta added; after the third save the call is through. */
  function Saved(align: Aligner, s: State, c: nat, call: Call): State
    requires call.found.Some?
  {
    var bump := NextBump(align, call);
    var t := s.(buckets := s.buckets[bump.key := Add(call.found.value, bump.delta)], saves := s.saves + [bump]);
    if call.saved == 2 then t.(calls := s.calls - {c}, finished := s.finished + [call.event])
    else t.(calls := s.calls[c := Call(call.event, call.saved + 1, None)])
  }

  ghost function RunFrom(align: Aligner, s: State, steps: seq<Step>): Option<State> {
    if steps == [] then Some(s)
    else
      match RunFrom(align, s, steps[..|steps| - 1])
      case None => None
      case Some(t) => Next(align, t, steps[|steps| - 1])
  }

  /** A bump of the service is a find and a save, with whatever steps of other callers in between. */
  lemma BumpIsFindAndSave(align: Aligner, s: State, t: State, c: nat, v: Visit)
    requires c in s.calls && s.calls[c].found.None? && s.buckets == v.found
    requires Bump(v.key, v.delta) == NextBump(align, s.calls[c])
    requires c in t.calls && t.buckets == v.met && t.calls[c] == Next(align, s, Find(c)).value.calls[c]
    ensures Next(align, t, Save(c)).Some? && Next(align, t, Save(c)).value.buckets == After(v)
  {
  }

  // ---- One save ---------------------------------------------------------------------------

  /** The row found for the next bump is the one that stands there now. */
  ghost predicate Current(align: Aligner, s: State, c: nat)
    requires c in s.calls
  {
    s.calls[c].found == Some(RowAt(s.buckets, NextBump(align, s.calls[c]).key))
  }

  lemma AddCancels(a: Row, b: Row, d: Row)
    ensures Add(a, d) == Add(b, d) <==> a == b
    ensures Add(a, EMPTY_ROW) == a
  {
  }

  /** A save moves its bucket by exactly its delta if and only if the row is still the found one. */
  lemma SaveMovesByDelta(align: Aligner, s: State, c: nat)
    requires c in s.calls && s.calls[c].found.Some?
    ensures var bump := NextBump(align, s.calls[c]);
      Next(align, s, Save(c)).value.buckets == Bumped(s.buckets, bump.key, bump.delta) <==> Current(align, s, c)
  {
    hide NextBump, RowAt, Add;
    var call := s.calls[c];
    var bump := NextBump(align, call);
    AddCancels(call.found.value, RowAt(s.buckets, bump.key), bump.delta);
    assert Saved(align, s, c, call).buckets[bump.key] == Add(call.found.value, bump.delta);
  }

  /** A tick that saves over the bump of another call puts the old row back. */
  lemma StaleTickRestores(align: Aligner, s: State, tick: nat, other: nat)
    requires tick in s.calls && s.calls[tick].event.WallClock? && Current(align, s, tick)
    requires other in s.calls && tick != other && Current(align, s, other)
    requires NextBump(align, s.calls[tick]).key == NextBump(align, s.calls[other]).key
    ensures var key, delta := NextBump(align, s.calls[tick]).key, NextBump(align, s.calls[other]).delta;
      var t := Next(align, s, Save(other)).value;
      && RowAt(t.buckets, key) == Add(RowAt(s.buckets, key), delta)
      && tick in t.calls && t.calls[tick] == s.calls[tick]
      && RowAt(Next(align, t, Save(tick)).value.buckets, key) == RowAt(s.buckets, key)
      && (RowAt(t.buckets, key) == RowAt(s.buckets, key) <==> delta == EMPTY_ROW)
  {
    hide Next, NextBump, Add, RowAt;
    var key, delta := NextBump(align, s.calls[tick]).key, NextBump(align, s.calls[other]).delta;
    var row := RowAt(s.buckets, key);
    SavedRow(align, s, other);
    SavedRow(align, Next(align, s, Save(other)).value, tick);
    TickDelta(align, s.calls[tick]);
    AddCancels(row, row, delta);
    AddChanges(row, delta);
  }

  lemma TickDelta(align: Aligner, call: Call)
    requires call.event.WallClock?
    ensures NextBump(align, call).delta == EMPTY_ROW
  {
  }

  /** A save sets one row, and leaves the other calls where they are. */
  lemma SavedRow(align: Aligner, s: State, c: nat)
    requires c in s.calls && s.calls[c].found.Some?
    ensures Next(align, s, Save(c)).Some?
    ensures var bump, t := NextBump(align, s.calls[c]), Next(align, s, Save(c)).value;
      && RowAt(t.buckets, bump.key) == Add(s.calls[c].found.value, bump.delta)
      && forall other :: other in s.calls && other != c ==> other in t.calls && t.calls[other] == s.calls[other]
  {
    hide NextBump, Add, RowAt;
    var bump, t := NextBump(align, s.calls[c]), Next(align, s, Save(c)).value;
    RowPut(s.buckets, bump.key, Add(s.calls[c].found.value, bump.delta));
    forall other | other in s.calls && other != c ensures other in t.calls && t.calls[other] == s.calls[other] {
    }
  }

  lemma RowPut(m: Buckets, key: Key, row: Row)
    ensures forall k :: RowAt(m[key := row], k) == if k == key then row else RowAt(m, k)
  {
    forall k ensures RowAt(m[key := row], k) == if k == key then row else RowAt(m, k) {
    }
  }

  lemma AddChanges(a: Row, d: Row)
    ensures Add(a, d) == a <==> d == EMPTY_ROW
  {
    AddCancels(d, EMPTY_ROW, a);
    assert Add(EMPTY_ROW, a) == a == Row(a.totalVolume, a.totalFeesUsd, a.tvl, a.totalGlobalTrades, a.totalGlobalPairs);
    assert Add(d, a) == Add(a, d);
  }

  // ---- Runs -------------------------------------------------------------------------------

  /** What the saves should come to. */
  ghost function Effect(m: Buckets, saves: seq<Bump>): Buckets {
    if saves == [] then m
    else
      var last := saves[|saves| - 1];
      Bumped(Effect(m, saves[..|saves| - 1]), last.key, last.delta)
  }

  /** Every save found the row it had loaded. */
  ghost predicate AllCurrent(align: Aligner, m: Buckets, steps: seq<Step>)
    requires RunFrom(align, Idle(m), steps).Some?
  {
    steps == [] ||
    (var front, last := steps[..|steps| - 1], steps[|steps| - 1];
     AllCurrent(align, m, front) && (last.Save? ==> Current(align, RunFrom(align, Idle(m), front).value, last.caller)))
  }

  /** After every step the buckets were what the saves so far should come to. */
  ghost predicate AlwaysExact(align: Aligner, m: Buckets, steps: seq<Step>)
    requires RunFrom(align, Idle(m), steps).Some?
  {
    var s := RunFrom(align, Idle(m), steps).value;
    s.buckets == Effect(m, s.saves) && (steps == [] || AlwaysExact(align, m, steps[..|steps| - 1]))
  }

  /** Nothing is ever lost, if and only if every save finds the row it had loaded. */
  lemma {:induction false} ExactWhileCurrent(align: Aligner, m: Buckets, steps: seq<Step>)
    requires RunFrom(align, Idle(m), steps).Some?
    ensures AlwaysExact(align, m, steps) <==> AllCurrent(align, m, steps)
  {
    hide Next, Current, Bumped;
    if steps != [] {
      var front, last := steps[..|steps| - 1], steps[|steps| - 1];
      ExactWhileCurrent(align, m, front);
      var s := RunFrom(align, Idle(m), front).value;
      StepEffect(align, m, s, last);
    }
  }

  lemma StepEffect(align: Aligner, m: Buckets, s: State, step: Step)
    requires Next(align, s, step).Some?
    ensures var t := Next(align, s, step).value;
      if step.Save? then
        step.caller in s.calls
        && (s.buckets == Effect(m, s.saves) ==> (t.buckets == Effect(m, t.saves) <==> Current(align, s, step.caller)))
      else t.buckets == s.buckets && t.saves == s.saves
  {
    hide NextBump, Current, Bumped;
    if step.Save? {
      var bump := NextBump(align, s.calls[step.caller]);
      assert (s.saves + [bump])[..|s.saves|] == s.saves;
      SaveMovesByDelta(align, s, step.caller);
    }
  }

  // ---- When every save is current ---------------------------------------------------------

  /** The save of `c` is not between a find and its save of another call on the same bucket, or leaves the row. */
  ghost predicate Overtakes(align: Aligner, s: State, c: nat)
    requires c in s.calls && s.calls[c].found.Some?
  {
    var bump := NextBump(align, s.calls[c]);
    && Add(s.calls[c].found.value, bump.delta) != RowAt(s.buckets, bump.key)
    && exists other ::
      other in s.calls && other != c && s.calls[other].found.Some? && NextBump(align, s.calls[other]).key == bump.key
  }

  /** No save changed a row that another call had found and not saved yet. */
  ghost predicate Unovertaken(align: Aligner, m: Buckets, steps: seq<Step>)
    requires RunFrom(align, Idle(m), steps).Some?
  {
    steps == [] ||
    (var front, last := steps[..|steps| - 1], steps[|steps| - 1];
     Unovertaken(align, m, front)
       && (last.Save? ==> !Overtakes(align, RunFrom(align, Idle(m), front).value, last.caller)))
  }

  ghost predicate FoundIsCurrent(align: Aligner, s: State) {
    forall c :: c in s.calls && s.calls[c].found.Some? ==> Current(align, s, c)
  }

  lemma StepKeepsCurrent(align: Aligner, s: State, step: Step)
    requires Next(align, s, step).Some? && FoundIsCurrent(align, s)
    requires step.Save? ==> !Overtakes(align, s, step.caller)
    ensures FoundIsCurrent(align, Next(align, s, step).value)
  {
    var t := Next(align, s, step).value;
    if step.Save? {
      hide NextBump, Add, RowAt;
      var bump := NextBump(align, s.calls[step.caller]);
      RowPut(s.buckets, bump.key, Add(s.calls[step.caller].found.value, bump.delta));
      forall c | c in t.calls && t.calls[c].found.Some? ensures Current(align, t, c) {
        assert c in s.calls && c != step.caller && t.calls[c] == s.calls[c] && Current(align, s, c);
      }
    } else {
      hide Add, RowAt;
      forall c | c in t.calls && t.calls[c].found.Some? ensures Current(align, t, c) {
        assert c in s.calls && (s.calls[c].found.Some? ==> Current(align, s, c));
      }
    }
  }

  lemma {:induction false} UnovertakenIsCurrent(align: Aligner, m: Buckets, steps: seq<Step>)
    requires RunFrom(align, Idle(m), steps).Some? && Unovertaken(align, m, steps)
    ensures AllCurrent(align, m, steps) && FoundIsCurrent(align, RunFrom(align, Idle(m), steps).value)
  {
    hide Overtakes, Current;
    if steps != [] {
      var front, last := steps[..|steps| - 1], steps[|steps| - 1];
      UnovertakenIsCurrent(align, m, front);
      StepKeepsCurrent(align, RunFrom(align, Idle(m), front).value, last);
    }
  }

  // ---- The calls as a log -----------------------------------------------------------------

  /** What the saved bumps of a call under way added to a column of a bucket. */
  ghost function SavedPart(align: Aligner, key: Key, c: Column): Call -> real {
    (call: Call) => Get(RowAt(ApplyTo(align, map[], call.event, call.saved), key), c)
  }

  /** The saves are the finished calls in full and those under way in part, column by column. */
  ghost predicate Accounted(align: Aligner, s: State, key: Key, c: Column) {
    Get(RowAt(Effect(map[], s.saves), key), c)
    == Get(RowAt(Run(align, s.finished), key), c) + Total(s.calls, SavedPart(align, key, c))
  }

  lemma {:induction false} PartsAdd(align: Aligner, m: Buckets, e: Event, n: nat, key: Key, c: Column)
    requires n <= 3
    ensures Get(RowAt(ApplyTo(align, m, e, n), key), c)
         == Get(RowAt(m, key), c) + Get(RowAt(ApplyTo(align, map[], e, n), key), c)
    ensures key in ApplyTo(align, m, e, n) <==> key in m || key in ApplyTo(align, map[], e, n)
  {
    hide KeyFor, Delta;
    if n > 0 {
      PartsAdd(align, m, e, n - 1, key, c);
      var res := ROLLUP_RESOLUTIONS[n - 1];
      BumpedBucket(ApplyTo(align, m, e, n - 1), KeyFor(align, e, res), Delta(e, res), key, c);
      BumpedBucket(ApplyTo(align, map[], e, n - 1), KeyFor(align, e, res), Delta(e, res), key, c);
    }
  }

  lemma RunNext(align: Aligner, log: seq<Event>, e: Event)
    ensures Run(align, log + [e]) == Apply(align, Run(align, log), e)
  {
    hide Apply;
    assert (log + [e])[..|log|] == log;
  }

  /** Calls under way have something to record. */
  ghost predicate OnlyRecorded(s: State) {
    forall c :: c in s.calls ==> Recorded(s.calls[c].event)
  }

  lemma StepAccounts(align: Aligner, s: State, step: Step, key: Key, c: Column)
    requires Next(align, s, step).Some? && Accounted(align, s, key, c) && OnlyRecorded(s)
    ensures Accounted(align, Next(align, s, step).value, key, c)
  {
    hide Apply, ApplyTo, RowAt, Get, NextBump, Effect, Run;
    var t, part := Next(align, s, step).value, SavedPart(align, key, c);
    match step
    case Begin(caller, e) =>
      if Recorded(e) {
        TotalSet(s.calls, part, caller, Call(e, 0, None));
        NoPart(align, e, key, c);
      } else {
        RunNext(align, s.finished, e);
        NothingRecorded(align, Run(align, s.finished), e, Day, c);
      }
    case Find(caller) =>
      TotalSet(s.calls, part, caller, t.calls[caller]);
    case Save(caller) =>
      SaveAccounts(align, s, caller, key, c);
  }

  lemma NoPart(align: Aligner, e: Event, key: Key, c: Column)
    ensures Get(RowAt(ApplyTo(align, map[], e, 0), key), c) == 0.0
  {
  }

  lemma SaveAccounts(align: Aligner, s: State, caller: nat, key: Key, c: Column)
    requires Next(align, s, Save(caller)).Some? && Accounted(align, s, key, c) && Recorded(s.calls[caller].event)
    ensures Accounted(align, Next(align, s, Save(caller)).value, key, c)
  {
    hide Apply, ApplyTo, RowAt, Get, NextBump, Effect, Run, Bumped;
    var call, t, part := s.calls[caller], Next(align, s, Save(caller)).value, SavedPart(align, key, c);
    var bump := NextBump(align, call);
    EffectNext(map[], s.saves, bump);
    BumpedBucket(Effect(map[], s.saves), bump.key, bump.delta, key, c);
    PartNext(align, call, key, c);
    if call.saved == 2 {
      TotalRemove(s.calls, part, caller);
      RunNext(align, s.finished, call.event);
      WholeCall(align, Run(align, s.finished), call.event, key, c);
    } else {
      TotalSet(s.calls, part, caller, t.calls[caller]);
    }
  }

  lemma EffectNext(m: Buckets, saves: seq<Bump>, bump: Bump)
    ensures Effect(m, saves + [bump]) == Bumped(Effect(m, saves), bump.key, bump.delta)
  {
    hide Bumped;
    assert (saves + [bump])[..|saves|] == saves;
  }

  lemma PartNext(align: Aligner, call: Call, key: Key, c: Column)
    ensures var bump := NextBump(align, call);
      Get(RowAt(ApplyTo(align, map[], call.event, call.saved + 1), key), c)
      == Get(RowAt(ApplyTo(align, map[], call.event, call.saved), key), c)
         + if bump.key == key then Get(bump.delta, c) else 0.0
  {
    hide Bumped, KeyFor, Delta;
    var bump := NextBump(align, call);
    BumpedBucket(ApplyTo(align, map[], call.event, call.saved), bump.key, bump.delta, key, c);
  }

  lemma WholeCall(align: Aligner, m: Buckets, e: Event, key: Key, c: Column)
    requires Recorded(e)
    ensures Get(RowAt(Apply(align, m, e), key), c)
        == Get(RowAt(m, key), c) + Get(RowAt(ApplyTo(align, map[], e, 3), key), c)
  {
    PartsAdd(align, m, e, 3, key, c);
  }

  /** Buckets exist as far as finished calls, and calls under way, have saved them. */
  ghost predicate SameBuckets(align: Aligner, s: State, key: Key) {
    key in Effect(map[], s.saves)
    <==> key in Run(align, s.finished)
         || exists c :: c in s.calls && key in ApplyTo(align, map[], s.calls[c].event, s.calls[c].saved)
  }

  lemma StepBuckets(align: Aligner, s: State, step: Step, key: Key)
    requires Next(align, s, step).Some? && SameBuckets(align, s, key) && OnlyRecorded(s)
    ensures SameBuckets(align, Next(align, s, step).value, key)
  {
    hide Apply, ApplyTo, NextBump, Effect, Run, Recorded;
    var t := Next(align, s, step).value;
    match step
    case Begin(caller, e) =>
      if Recorded(e) {
        NoBuckets(align, e);
        if c :| c in s.calls && key in ApplyTo(align, map[], s.calls[c].event, s.calls[c].saved) {
          assert t.calls[c] == s.calls[c];
        }
      } else {
        RunNext(align, s.finished, e);
        NothingRecorded(align, Run(align, s.finished), e, Day, Volume);
      }
    case Find(caller) =>
      if c :| c in s.calls && key in ApplyTo(align, map[], s.calls[c].event, s.calls[c].saved) {
        assert t.calls[c].event == s.calls[c].event && t.calls[c].saved == s.calls[c].saved;
      }
    case Save(caller) =>
      SaveBuckets(align, s, caller, key);
  }

  lemma NoBuckets(align: Aligner, e: Event)
    ensures ApplyTo(align, map[], e, 0) == map[]
  {
  }

  lemma SaveBuckets(align: Aligner, s: State, caller: nat, key: Key)
    requires Next(align, s, Save(caller)).Some? && SameBuckets(align, s, key) && OnlyRecorded(s)
    ensures SameBuckets(align, Next(align, s, Save(caller)).value, key)
  {
    hide Apply, ApplyTo, RowAt, NextBump, Effect, Run, Recorded;
    var call, t := s.calls[caller], Next(align, s, Save(caller)).value;
    var bump := NextBump(align, call);
    EffectNext(map[], s.saves, bump);
    BucketsNext(align, call);
    if call.saved == 2 {
      RunNext(align, s.finished, call.event);
      WholeCallBuckets(align, Run(align, s.finished), call.event, key);
    }
    if c :| c in s.calls && c != caller && key in ApplyTo(align, map[], s.calls[c].event, s.calls[c].saved) {
      assert t.calls[c] == s.calls[c];
    }
    if call.saved < 2 {
      assert t.calls[caller].event == call.event && t.calls[caller].saved == call.saved + 1;
    }
  }

  lemma BucketsNext(align: Aligner, call: Call)
    ensures ApplyTo(align, map[], call.event, call.saved + 1).Keys
         == ApplyTo(align, map[], call.event, call.saved).Keys + {NextBump(align, call).key}
  {
    hide KeyFor, Delta, Add, RowAt;
  }

  lemma WholeCallBuckets(align: Aligner, m: Buckets, e: Event, key: Key)
    requires Recorded(e)
    ensures key in Apply(align, m, e) <==> key in m || key in ApplyTo(align, map[], e, 3)
  {
    PartsAdd(align, m, e, 3, key, Volume);
  }

  lemma StepRecorded(align: Aligner, s: State, step: Step)
    requires Next(align, s, step).Some? && OnlyRecorded(s)
    ensures OnlyRecorded(Next(align, s, step).value)
  {
    hide Recorded, NextBump, Add, RowAt;
  }

  lemma {:induction false} RunAccounts(align: Aligner, steps: seq<Step>, key: Key)
    requires RunFrom(align, Idle(map[]), steps).Some?
    ensures var s := RunFrom(align, Idle(map[]), steps).value;
      OnlyRecorded(s) && SameBuckets(align, s, key) && forall c: Column :: Accounted(align, s, key, c)
  {
    hide Next, OnlyRecorded, SameBuckets, Accounted;
    if steps == [] {
      IdleAccounts(align, key);
    } else {
      var front, last := steps[..|steps| - 1], steps[|steps| - 1];
      RunAccounts(align, front, key);
      var s := RunFrom(align, Idle(map[]), front).value;
      StepRecorded(align, s, last);
      StepBuckets(align, s, last, key);
      forall c: Column ensures Accounted(align, Next(align, s, last).value, key, c) {
        StepAccounts(align, s, last, key, c);
      }
    }
  }

  lemma IdleAccounts(align: Aligner, key: Key)
    ensures var s := Idle(map[]);
      OnlyRecorded(s) && SameBuckets(align, s, key) && forall c: Column :: Accounted(align, s, key, c)
  {
  }

  /** Once no call is under way, the saves are the finished calls one after another, however they overlapped. */
  lemma SavesAreTheLog(align: Aligner, steps: seq<Step>)
    requires RunFrom(align, Idle(map[]), steps).Some? && RunFrom(align, Idle(map[]), steps).value.calls == map[]
    ensures var s := RunFrom(align, Idle(map[]), steps).value; Effect(map[], s.saves) == Run(align, s.finished)
  {
    hide RunFrom, Effect, Run, ApplyTo, OnlyRecorded;
    var s := RunFrom(align, Idle(map[]), steps).value;
    var a, b := Effect(map[], s.saves), Run(align, s.finished);
    forall key ensures (key in a <==> key in b) && RowAt(a, key) == RowAt(b, key) {
      RunAccounts(align, steps, key);
      forall c: Column ensures Get(RowAt(a, key), c) == Get(RowAt(b, key), c) {
        assert Accounted(align, s, key, c);
      }
      SameRow(RowAt(a, key), RowAt(b, key));
    }
  }

  lemma SameRow(a: Row, b: Row)
    requires forall c: Column :: Get(a, c) == Get(b, c)
    ensures a == b
  {
    assert Get(a, Volume) == Get(b, Volume) && Get(a, Fees) == Get(b, Fees) && Get(a, Tvl) == Get(b, Tvl);
    assert Get(a, Trades) == Get(b, Trades) && Get(a, Pairs) == Get(b, Pairs);
  }

  // ---- Main results -----------------------------------------------------------------------

  /**
   * If every save found the row it had loaded, the buckets are those of the finished calls taken
   * one after another, and the streams agree.
   */
  lemma CurrentRunIsSerial(align: Aligner, steps: seq<Step>, protocolId: string)
    requires RunFrom(align, Idle(map[]), steps).Some? && AllCurrent(align, map[], steps)
    requires RunFrom(align, Idle(map[]), steps).value.calls == map[]
    ensures var s := RunFrom(align, Idle(map[]), steps).value;
      && s.buckets == Run(align, s.finished)
      && StreamTotal(s.buckets, Day, protocolId, Volume) == SwapVolume(s.finished, protocolId)
      && StreamTotal(s.buckets, Week, protocolId, Volume) == SwapVolume(s.finished, protocolId)
      && StreamTotal(s.buckets, Month, protocolId, Volume) == SwapVolume(s.finished, protocolId)
      && StreamTotal(s.buckets, Day, protocolId, Trades) + StreamTotal(s.buckets, Week, protocolId, Trades)
         + StreamTotal(s.buckets, Month, protocolId, Trades) == SwapCount(s.finished, protocolId) as real
  {
    hide RunFrom, StreamTotal, SwapVolume, SwapCount, Run, Effect, AllCurrent;
    ExactWhileCurrent(align, map[], steps);
    SavesAreTheLog(align, steps);
    StreamsAgree(align, RunFrom(align, Idle(map[]), steps).value.finished, protocolId);
  }

  /** So it is when no save changes a row that another call has found and not saved yet. */
  lemma UnovertakenRunIsSerial(align: Aligner, steps: seq<Step>, protocolId: string)
    requires RunFrom(align, Idle(map[]), steps).Some? && Unovertaken(align, map[], steps)
    requires RunFrom(align, Idle(map[]), steps).value.calls == map[]
    ensures var s := RunFrom(align, Idle(map[]), steps).value;
      && AllCurrent(align, map[], steps) && s.buckets == Run(align, s.finished)
  {
    hide RunFrom, StreamTotal, SwapVolume, SwapCount, Run, Effect, AllCurrent, Unovertaken;
    UnovertakenIsCurrent(align, map[], steps);
    CurrentRunIsSerial(align, steps, protocolId);
  }

  // ---- The tick that loses a swap ---------------------------------------------------------

  lemma {:induction false} RunConcat(align: Aligner, s: State, a: seq<Step>, b: seq<Step>)
    requires RunFrom(align, s, a).Some?
    ensures RunFrom(align, s, a + b) == RunFrom(align, RunFrom(align, s, a).value, b)
  {
    hide Next;
    if b == [] {
      assert a + b == a;
    } else {
      assert (a + b)[..|a + b| - 1] == a + b[..|b| - 1];
      RunConcat(align, s, a, b[..|b| - 1]);
    }
  }

  lemma OneStep(align: Aligner, s: State, step: Step)
    ensures RunFrom(align, s, [step]) == Next(align, s, step)
  {
    hide Next;
    assert [step][..0] == [];
    assert RunFrom(align, s, [step][..0]) == Some(s);
  }

  lemma AndThen(align: Aligner, s: State, steps: seq<Step>, step: Step)
    requires RunFrom(align, s, steps).Some?
    ensures RunFrom(align, s, steps + [step]) == Next(align, RunFrom(align, s, steps).value, step)
  {
    hide Next;
    RunConcat(align, s, steps, [step]);
    OneStep(align, RunFrom(align, s, steps).value, step);
  }

  /** A find and a save with nothing in between. */
  lemma FindAndSave(align: Aligner, s: State, steps: seq<Step>, c: nat) returns (more: seq<Step>, t: State)
    requires var now := RunFrom(align, s, steps); now.Some? && c in now.value.calls && now.value.calls[c].found.None?
    ensures RunFrom(align, s, more) == Some(t)
    ensures var now := RunFrom(align, s, steps).value;
      var call := now.calls[c];
      var bump := NextBump(align, call);
      && t.buckets == Bumped(now.buckets, bump.key, bump.delta)
      && (if call.saved == 2 then t.calls == now.calls - {c} && t.finished == now.finished + [call.event]
          else t.calls == now.calls[c := Call(call.event, call.saved + 1, None)] && t.finished == now.finished)
  {
    hide RunFrom, RowAt, Add, KeyFor, Delta;
    AndThen(align, s, steps, Find(c));
    AndThen(align, s, steps + [Find(c)], Save(c));
    more := steps + [Find(c)] + [Save(c)];
    t := RunFrom(align, s, more).value;
  }

  /** A whole call with nothing in between, beside calls under way. */
  lemma WholeCallRun(align: Aligner, s: State, steps: seq<Step>, c: nat, e: Event) returns (more: seq<Step>, t: State)
    requires var now := RunFrom(align, s, steps); now.Some? && c !in now.value.calls && Recorded(e)
    ensures RunFrom(align, s, more) == Some(t)
    ensures var now := RunFrom(align, s, steps).value;
      t.buckets == Apply(align, now.buckets, e) && t.calls == now.calls && t.finished == now.finished + [e]
  {
    hide RunFrom, Bumped, KeyFor, Delta, Apply, Recorded;
    var now := RunFrom(align, s, steps).value;
    AndThen(align, s, steps, Begin(c, e));
    more, t := FindAndSave(align, s, steps + [Begin(c, e)], c);
    more, t := FindAndSave(align, s, more, c);
    more, t := FindAndSave(align, s, more, c);
    ThreeBumps(align, now.buckets, e);
  }

  /** Setting one row moves the total of its stream by the difference. */
  lemma PutStream(m: Buckets, at: Key, row: Row, res: Resolution, protocolId: string, c: Column)
    ensures StreamTotal(m[at := row], res, protocolId, c) == StreamTotal(m, res, protocolId, c)
      + if at.index == StreamIndex(res) && at.protocolId == protocolId then Get(row, c) - Get(RowAt(m, at), c) else 0.0
  {
    var before, after := Stream(m, res, protocolId), Stream(m[at := row], res, protocolId);
    if at.index == StreamIndex(res) && at.protocolId == protocolId {
      assert after == before[at := row];
      TotalSet(before, Selector(c), at, row);
    } else {
      assert after == before;
    }
  }

  /**
   * From any state without calls, and with both events in the same day: the tick finds its day
   * row, the swap is recorded, the tick saves. Nothing of the swap is left in the day stream,
   * while the week has its volume.
   */
  lemma StaleTickLosesSwap(align: Aligner, s: State, swap: Event, tick: Event) returns (steps: seq<Step>)
    requires s.calls == map[] && swap.Swap? && tick.WallClock? && KeyFor(align, swap, Day) == KeyFor(align, tick, Day)
    ensures RunFrom(align, s, steps).Some?
    ensures var t := RunFrom(align, s, steps).value;
      && t.calls == map[] && t.finished == s.finished + [swap, tick]
      && (forall c: Column ::
            StreamTotal(t.buckets, Day, swap.protocolId, c) == StreamTotal(s.buckets, Day, swap.protocolId, c))
      && StreamTotal(t.buckets, Week, swap.protocolId, Volume)
         == StreamTotal(s.buckets, Week, swap.protocolId, Volume) + Positive(swap.volumeUsd)
  {
    hide RunFrom, StreamTotal, Apply, Bumped, RowAt, Delta, Get, KeyFor, Next, Recorded;
    var begun := TickFinds(align, s, tick);
    var swapped, t3 := WholeCallRun(align, s, begun, 1, swap) by {
      SwapIsRecorded(swap);
    }
    var saved, t4 := TickSaves(align, s, swapped, tick, RowAt(s.buckets, KeyFor(align, tick, Day)));
    var steps5, t5 := FindAndSave(align, s, saved, 0);
    var t6: State;
    steps, t6 := FindAndSave(align, s, steps5, 0);
    TickBumps(align, tick);
    forall res, c: Column
      ensures StreamTotal(t6.buckets, res, swap.protocolId, c) == StreamTotal(s.buckets, res, swap.protocolId, c)
        + if res == Day then 0.0 else Adds(swap, res, c) {
      StaleStreams(align, s.buckets, swap, tick, t4.buckets, t5.buckets, t6.buckets, res, c);
    }
    SwapAdds(swap);
  }

  lemma SwapIsRecorded(swap: Event)
    requires swap.Swap?
    ensures Recorded(swap)
  {
  }

  lemma SwapAdds(swap: Event)
    requires swap.Swap?
    ensures Adds(swap, Week, Volume) == Positive(swap.volumeUsd)
  {
  }

  lemma TickBumps(align: Aligner, tick: Event)
    requires tick.WallClock?
    ensures forall i: BumpIndex, found ::
      NextBump(align, Call(tick, i, found)) == Bump(KeyFor(align, tick, ROLLUP_RESOLUTIONS[i]), EMPTY_ROW)
  {
    hide KeyFor;
  }

  lemma TickFinds(align: Aligner, s: State, tick: Event) returns (steps: seq<Step>)
    requires s.calls == map[] && tick.WallClock?
    ensures RunFrom(align, s, steps)
        == Some(s.(calls := map[0 := Call(tick, 0, Some(RowAt(s.buckets, KeyFor(align, tick, Day))))]))
  {
    hide RunFrom, RowAt, KeyFor;
    OneStep(align, s, Begin(0, tick));
    AndThen(align, s, [Begin(0, tick)], Find(0));
    steps := [Begin(0, tick)] + [Find(0)];
    var t := RunFrom(align, s, steps).value;
    assert t.calls == map[0 := Call(tick, 0, Some(RowAt(s.buckets, KeyFor(align, tick, Day))))];
    assert t == s.(calls := t.calls);
  }

  lemma TickSaves(align: Aligner, s: State, steps: seq<Step>, tick: Event, row: Row) returns (more: seq<Step>, t: State)
    requires tick.WallClock?
    requires var now := RunFrom(align, s, steps); now.Some? && now.value.calls == map[0 := Call(tick, 0, Some(row))]
    ensures RunFrom(align, s, more) == Some(t)
    ensures var now := RunFrom(align, s, steps).value;
      && t.buckets == now.buckets[KeyFor(align, tick, Day) := row]
      && t.calls == map[0 := Call(tick, 1, None)] && t.finished == now.finished
  {
    hide RunFrom, KeyFor, Add;
    AndThen(align, s, steps, Save(0));
    AddCancels(row, row, EMPTY_ROW);
    more := steps + [Save(0)];
    t := RunFrom(align, s, more).value;
  }

  lemma StaleStreams(align: Aligner, m: Buckets, swap: Event, tick: Event, m4: Buckets, m5: Buckets, m6: Buckets,
                     res: Resolution, c: Column)
    requires swap.Swap? && tick.WallClock? && KeyFor(align, swap, Day) == KeyFor(align, tick, Day)
    requires var key := KeyFor(align, tick, Day); m4 == Apply(align, m, swap)[key := RowAt(m, key)]
    requires m5 == Bumped(m4, KeyFor(align, tick, Week), EMPTY_ROW)
    requires m6 == Bumped(m5, KeyFor(align, tick, Month), EMPTY_ROW)
    ensures StreamTotal(m6, res, swap.protocolId, c) == StreamTotal(m, res, swap.protocolId, c)
      + if res == Day then 0.0 else Adds(swap, res, c)
  {
    hide StreamTotal, Apply, Bumped, RowAt, Delta;
    var key := KeyFor(align, tick, Day);
    ApplyStream(align, m, swap, res, swap.protocolId, c);
    ApplyBucket(align, m, swap, Day, key, c);
    PutStream(Apply(align, m, swap), key, RowAt(m, key), res, swap.protocolId, c);
    BumpedStream(m4, KeyFor(align, tick, Week), EMPTY_ROW, res, swap.protocolId, c);
    BumpedStream(m5, KeyFor(align, tick, Month), EMPTY_ROW, res, swap.protocolId, c);
  }
}
