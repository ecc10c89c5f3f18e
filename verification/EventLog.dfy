/** Tables as a fold of an event log, and replays on top of the finished tables. */
module EventLog {
  ghost function Fold<S, E>(apply: (S, E) -> S, s: S, log: seq<E>): S {
    if log == [] then s else apply(Fold(apply, s, log[..|log| - 1]), log[|log| - 1])
  }

  lemma {:induction false} FoldConcat<S, E>(apply: (S, E) -> S, s: S, a: seq<E>, b: seq<E>)
    ensures Fold(apply, s, a + b) == Fold(apply, Fold(apply, s, a), b)
  {
    if b == [] {
      assert a + b == a;
    } else {
      assert (a + b)[..|a + b| - 1] == a + b[..|b| - 1];
      FoldConcat(apply, s, a, b[..|b| - 1]);
    }
  }

  lemma FoldCons<S, E>(apply: (S, E) -> S, s: S, log: seq<E>)
    requires log != []
    ensures Fold(apply, s, log) == Fold(apply, apply(s, log[0]), log[1..])
  {
    assert log == [log[0]] + log[1..];
    FoldConcat(apply, s, [log[0]], log[1..]);
    assert Fold(apply, s, [log[0]]) == apply(s, log[0]) by {
      assert [log[0]][..0] == [];
    }
  }

  lemma FoldOne<S, E>(apply: (S, E) -> S, s: S, log: seq<E>)
    requires |log| <= 1
    ensures Fold(apply, s, log) == if log == [] then s else apply(s, log[0])
  {
    if log != [] {
      assert log[..0] == [];
    }
  }

  lemma FoldNext<S, E>(apply: (S, E) -> S, s: S, log: seq<E>, more: seq<E>)
    requires |more| <= 1
    ensures Fold(apply, s, log + more)
         == if more == [] then Fold(apply, s, log) else apply(Fold(apply, s, log), more[0])
  {
    FoldConcat(apply, s, log, more);
    FoldOne(apply, Fold(apply, s, log), more);
  }

  lemma FoldBoth<S, E>(apply: (S, E) -> S, s: S, log: seq<E>)
    requires |log| == 2
    ensures Fold(apply, s, log) == apply(apply(s, log[0]), log[1])
  {
    FoldOne(apply, s, log[..1]);
  }

  /** On the events of `log`, only the last of two applications of one event shows. */
  ghost predicate LastOneShows<S(!new), E(!new)>(apply: (S, E) -> S, log: seq<E>) {
    && (forall s, a :: a in log ==> apply(apply(s, a), a) == apply(s, a))
    && (forall s, a, b :: a in log && b in log ==> apply(apply(apply(s, a), b), a) == apply(apply(s, b), a))
  }

  /** An event that the log is going to apply anyway can be applied before it without effect. */
  lemma {:induction false} AbsorbOne<S(!new), E(!new)>(apply: (S, E) -> S, s: S, e: E, log: seq<E>)
    requires LastOneShows(apply, log) && e in log
    ensures Fold(apply, apply(s, e), log) == Fold(apply, s, log)
    decreases |log|
  {
    var x, rest := log[0], log[1..];
    FoldCons(apply, s, log);
    FoldCons(apply, apply(s, e), log);
    assert x in log;
    if e != x {
      assert e in rest;
      assert forall a :: a in rest ==> a in log;
      AbsorbOne(apply, apply(s, x), e, rest);
      AbsorbOne(apply, apply(apply(s, e), x), e, rest);
      assert apply(apply(apply(s, e), x), e) == apply(apply(s, x), e);
    }
  }

  /** So can any run of events drawn from the log, in any order. */
  lemma {:induction false} AbsorbMany<S(!new), E(!new)>(apply: (S, E) -> S, s: S, again: seq<E>, log: seq<E>)
    requires LastOneShows(apply, log) && forall e :: e in again ==> e in log
    ensures Fold(apply, Fold(apply, s, again), log) == Fold(apply, s, log)
    decreases |again|
  {
    if again != [] {
      var front, last := again[..|again| - 1], again[|again| - 1];
      assert last in again;
      AbsorbMany(apply, s, front, log);
      AbsorbOne(apply, Fold(apply, s, front), last, log);
    }
  }

  /** Replaying a suffix of the log, or all of it, on the finished tables changes nothing. */
  lemma ReplaySuffix<S(!new), E(!new)>(apply: (S, E) -> S, s: S, log: seq<E>, from: nat)
    requires from <= |log| && LastOneShows(apply, log)
    ensures Fold(apply, Fold(apply, s, log), log[from..]) == Fold(apply, s, log)
  {
    var before, suffix := log[..from], log[from..];
    assert log == before + suffix;
    FoldConcat(apply, s, before, suffix);
    assert forall e :: e in suffix ==> e in log;
    AbsorbMany(apply, Fold(apply, s, before), suffix, suffix);
  }
}
