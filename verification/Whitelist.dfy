/** Gauge whitelist of tokens and pairs, apps/broker/src/aggregator/voter-whitelist-token.ts. */
module Whitelist {
  import opened EventLog

  datatype Pair = Pair(token0: string, token1: string, gaugeWhitelisted: bool)

  /** `voter_whitelisted_tokens`, and the tokens and flag of each `spot_pairs` row. */
  datatype Tables = Tables(tokens: map<string, bool>, pairs: map<string, Pair>)

  datatype Event = WhitelistToken(token: string, whitelisted: bool)

  datatype Stmt = UpsertToken(token: string, whitelisted: bool) | RecomputePairs(token: string)

  predicate IsWhitelisted(tokens: map<string, bool>, token: string) {
    token in tokens && tokens[token]
  }

  function Recomputed(tokens: map<string, bool>, pair: Pair): Pair {
    pair.(gaugeWhitelisted := IsWhitelisted(tokens, pair.token0) && IsWhitelisted(tokens, pair.token1))
  }

  function Exec(t: Tables, stmt: Stmt): Tables {
    match stmt
    case UpsertToken(token, whitelisted) => t.(tokens := t.tokens[token := whitelisted])
    case RecomputePairs(token) =>
      t.(pairs := map p | p in t.pairs ::
        if t.pairs[p].token0 == token || t.pairs[p].token1 == token
        then Recomputed(t.tokens, t.pairs[p]) else t.pairs[p])
  }

  /** An event without a token is skipped. */
  function Stmts(e: Event): seq<Stmt> {
    if e.token == "" then [] else [UpsertToken(e.token, e.whitelisted), RecomputePairs(e.token)]
  }

  function Apply(t: Tables, e: Event): Tables {
    if e.token == "" then t else Exec(Exec(t, UpsertToken(e.token, e.whitelisted)), RecomputePairs(e.token))
  }

  /** Every flag is the conjunction of the latest statuses of the two tokens of the pair. */
  ghost predicate FlagsAgree(t: Tables) {
    forall p :: p in t.pairs ==> t.pairs[p] == Recomputed(t.tokens, t.pairs[p])
  }

  lemma ApplyKeepsFlags(t: Tables, e: Event)
    requires FlagsAgree(t)
    ensures FlagsAgree(Apply(t, e))
  {
  }

  /** The status of a token after a log: what its last event said, false before any. */
  ghost predicate LatestStatus(log: seq<Event>, token: string) {
    if log == [] then false
    else if log[|log| - 1].token == token then log[|log| - 1].whitelisted
    else LatestStatus(log[..|log| - 1], token)
  }

  /** There is a row for every token an event named, with what its last event said. */
  lemma {:induction false} TokensAfter(pairs: map<string, Pair>, log: seq<Event>, token: string)
    ensures var tokens := Fold(Apply, Tables(map[], pairs), log).tokens;
      && (token in tokens <==> token != "" && exists j :: 0 <= j < |log| && log[j].token == token)
      && (token in tokens ==> tokens[token] == LatestStatus(log, token))
      && (token != "" && LatestStatus(log, token) ==> token in tokens)
  {
    if log != [] {
      var rest := log[..|log| - 1];
      TokensAfter(pairs, rest, token);
      if j :| 0 <= j < |rest| && rest[j].token == token {
        assert log[j].token == token;
      }
    }
  }

  lemma {:induction false} FlagsAfter(t: Tables, log: seq<Event>)
    requires FlagsAgree(t)
    ensures var u := Fold(Apply, t, log);
      && FlagsAgree(u) && u.pairs.Keys == t.pairs.Keys
      && forall p :: p in t.pairs ==> u.pairs[p].token0 == t.pairs[p].token0 && u.pairs[p].token1 == t.pairs[p].token1
  {
    if log != [] {
      FlagsAfter(t, log[..|log| - 1]);
      ApplyKeepsFlags(Fold(Apply, t, log[..|log| - 1]), log[|log| - 1]);
    }
  }

  /**
   * From an empty whitelist and false flags, after any sequence of events each pair is
   * whitelisted exactly when the last event on each of its tokens said so.
   */
  lemma FlagsAreConjunctions(pairs: map<string, Pair>, log: seq<Event>, p: string)
    requires p in pairs && pairs[p].token0 != "" && pairs[p].token1 != ""
    requires forall q :: q in pairs ==> !pairs[q].gaugeWhitelisted
    ensures var u := Fold(Apply, Tables(map[], pairs), log);
      && u.pairs.Keys == pairs.Keys
      && u.pairs[p].token0 == pairs[p].token0 && u.pairs[p].token1 == pairs[p].token1
      && (u.pairs[p].gaugeWhitelisted <==> LatestStatus(log, pairs[p].token0) && LatestStatus(log, pairs[p].token1))
  {
    FlagsAfter(Tables(map[], pairs), log);
    TokensAfter(pairs, log, pairs[p].token0);
    TokensAfter(pairs, log, pairs[p].token1);
  }

  // ---- Replays ----------------------------------------------------------------------------

  ghost function TokensStep(e: Event, tokens: map<string, bool>): map<string, bool> {
    if e.token == "" then tokens else tokens[e.token := e.whitelisted]
  }

  /** What an event makes of one pair, given the statuses it leaves. */
  ghost function PairStep(e: Event, tokens: map<string, bool>, pair: Pair): Pair {
    if e.token != "" && (pair.token0 == e.token || pair.token1 == e.token) then Recomputed(tokens, pair) else pair
  }

  lemma ApplyPair(t: Tables, e: Event, p: string)
    ensures Apply(t, e).tokens == TokensStep(e, t.tokens)
    ensures p in Apply(t, e).pairs <==> p in t.pairs
    ensures p in t.pairs ==> Apply(t, e).pairs[p] == PairStep(e, TokensStep(e, t.tokens), t.pairs[p])
  {
  }

  lemma SameTables(t: Tables, u: Tables)
    requires t.tokens == u.tokens
    requires forall p :: (p in t.pairs <==> p in u.pairs) && (p in t.pairs ==> t.pairs[p] == u.pairs[p])
    ensures t == u
  {
    assert t.pairs == u.pairs;
  }

  lemma ApplyTwice(t: Tables, a: Event)
    ensures Apply(Apply(t, a), a) == Apply(t, a)
  {
    hide Apply;
    var u := Apply(t, a);
    ApplyPair(t, a, "");
    ApplyPair(u, a, "");
    forall p
      ensures (p in Apply(u, a).pairs <==> p in u.pairs) && (p in u.pairs ==> Apply(u, a).pairs[p] == u.pairs[p]) {
      ApplyPair(t, a, p);
      ApplyPair(u, a, p);
    }
    SameTables(Apply(u, a), u);
  }

  /** An attempt cut off after `j` statements and then repeated in full leaves what one full attempt leaves. */
  lemma AttemptAbsorbed(t: Tables, e: Event, j: nat)
    requires j <= |Stmts(e)|
    ensures Fold(Exec, Fold(Exec, t, Stmts(e)[..j]), Stmts(e)) == Fold(Exec, t, Stmts(e)) == Apply(t, e)
  {
    hide Exec;
    var s := Stmts(e);
    if e.token != "" {
      FoldBoth(Exec, t, s);
      FoldBoth(Exec, Fold(Exec, t, s[..j]), s);
      if j == 0 {
        assert s[..0] == [];
      } else if j == 1 {
        assert s[..1] == [s[0]] && s[..1][..0] == [];
        UpsertTwice(t, s[0]);
      } else {
        assert s[..2] == s;
        ApplyTwice(t, e);
      }
    }
  }

  /** The status is written first: an attempt cut off in between has changed no pair. */
  lemma CutAttempt(t: Tables, e: Event)
    requires e.token != ""
    ensures |Stmts(e)| == 2
    ensures Fold(Exec, t, Stmts(e)[..1]) == Tables(Apply(t, e).tokens, t.pairs)
  {
    assert Stmts(e)[..1][..0] == [];
    assert Stmts(e)[..1] == [Stmts(e)[0]];
  }

  lemma UpsertTwice(t: Tables, a: Stmt)
    requires a.UpsertToken?
    ensures Exec(Exec(t, a), a) == Exec(t, a)
  {
  }

  lemma TokensAround(tokens: map<string, bool>, a: Event, b: Event)
    ensures TokensStep(a, TokensStep(b, TokensStep(a, tokens))) == TokensStep(a, TokensStep(b, tokens))
  {
  }

  /** The flag is recomputed from final statuses by `a`, or by `b` when `a` does not touch the pair. */
  lemma PairAround(tokens: map<string, bool>, a: Event, b: Event, pair: Pair)
    ensures var t1 := TokensStep(a, tokens); var t2 := TokensStep(b, t1); var t3 := TokensStep(a, t2);
      var u1 := TokensStep(b, tokens); var u2 := TokensStep(a, u1);
      PairStep(a, t3, PairStep(b, t2, PairStep(a, t1, pair))) == PairStep(a, u2, PairStep(b, u1, pair))
  {
    TokensAround(tokens, a, b);
  }

  lemma AgreeAround(t: Tables, a: Event, b: Event, p: string)
    ensures var u, v := Apply(Apply(Apply(t, a), b), a), Apply(Apply(t, b), a);
      && u.tokens == v.tokens && (p in u.pairs <==> p in v.pairs) && (p in u.pairs ==> u.pairs[p] == v.pairs[p])
  {
    hide Apply, TokensStep, PairStep;
    ApplyPair(t, a, p);
    ApplyPair(Apply(t, a), b, p);
    ApplyPair(Apply(Apply(t, a), b), a, p);
    ApplyPair(t, b, p);
    ApplyPair(Apply(t, b), a, p);
    TokensAround(t.tokens, a, b);
    if p in t.pairs {
      PairAround(t.tokens, a, b, t.pairs[p]);
    }
  }

  lemma ApplyAround(t: Tables, a: Event, b: Event)
    ensures Apply(Apply(Apply(t, a), b), a) == Apply(Apply(t, b), a)
  {
    hide Apply;
    var u, v := Apply(Apply(Apply(t, a), b), a), Apply(Apply(t, b), a);
    AgreeAround(t, a, b, "");
    forall p ensures (p in u.pairs <==> p in v.pairs) && (p in u.pairs ==> u.pairs[p] == v.pairs[p]) {
      AgreeAround(t, a, b, p);
    }
    SameTables(u, v);
  }

  lemma ReplayWhitelist(t: Tables, log: seq<Event>, from: nat)
    requires from <= |log|
    ensures Fold(Apply, Fold(Apply, t, log), log[from..]) == Fold(Apply, t, log)
  {
    forall s, a | a in log ensures Apply(Apply(s, a), a) == Apply(s, a) {
      ApplyTwice(s, a);
    }
    forall s, a, b | a in log && b in log ensures Apply(Apply(Apply(s, a), b), a) == Apply(Apply(s, b), a) {
      ApplyAround(s, a, b);
    }
    ReplaySuffix(Apply, t, log, from);
  }
}
