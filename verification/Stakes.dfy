/** Gauge stake events, apps/broker/src/aggregator/gauge-stake-events.ts. */
module Stakes {
  import opened Results
  import opened EventLog

  /** The unique index of `spot_account_stake_events`. */
  datatype Key = Key(transactionHash: string, logIndex: int)

  datatype Row = Row(wallet: string, gauge: string, pool: string, isCL: bool, isDeposit: bool, amount: string,
                     tokenId: Option<string>, blockNumber: string, blockTimestampSec: int)

  /** A deposit to or a withdrawal from a basic or CL gauge; only CL rows carry a token id. */
  datatype Event =
    | GaugeDeposit(key: Key, from: string, gauge: string, pool: string, amount: string, blockNumber: string,
                   timestamp: int)
    | GaugeWithdraw(key: Key, from: string, gauge: string, pool: string, amount: string, blockNumber: string,
                    timestamp: int)
    | CLGaugeDeposit(key: Key, user: string, gauge: string, pool: string, liquidityToStake: string, tokenId: string,
                     blockNumber: string, timestamp: int)
    | CLGaugeWithdraw(key: Key, user: string, gauge: string, pool: string, liquidityToStake: string, tokenId: string,
                      blockNumber: string, timestamp: int)

  type Table = map<Key, Row>

  function RowOf(e: Event): Row {
    match e
    case GaugeDeposit(_, from, gauge, pool, amount, block, ts) =>
      Row(from, gauge, pool, false, true, amount, None, block, ts)
    case GaugeWithdraw(_, from, gauge, pool, amount, block, ts) =>
      Row(from, gauge, pool, false, false, amount, None, block, ts)
    case CLGaugeDeposit(_, user, gauge, pool, liq, id, block, ts) =>
      Row(user, gauge, pool, true, true, liq, Some(id), block, ts)
    case CLGaugeWithdraw(_, user, gauge, pool, liq, id, block, ts) =>
      Row(user, gauge, pool, true, false, liq, Some(id), block, ts)
  }

  /** The row says what the event does, column by column. */
  ghost predicate Says(row: Row, e: Event) {
    && row.gauge == e.gauge && row.pool == e.pool
    && row.blockNumber == e.blockNumber && row.blockTimestampSec == e.timestamp
    && (row.isDeposit <==> e.GaugeDeposit? || e.CLGaugeDeposit?)
    && (row.isCL <==> e.CLGaugeDeposit? || e.CLGaugeWithdraw?)
    && if row.isCL then row.wallet == e.user && row.amount == e.liquidityToStake && row.tokenId == Some(e.tokenId)
       else row.wallet == e.from && row.amount == e.amount && row.tokenId == None
  }

  /** `INSERT … ON CONFLICT DO NOTHING`. */
  function Apply(t: Table, e: Event): Table {
    if e.key in t then t else t[e.key := RowOf(e)]
  }

  /** Each (transaction, log index) keeps the row of the first event that carried it. */
  lemma {:induction false} FirstEventWins(t: Table, log: seq<Event>, k: nat)
    requires k < |log| && log[k].key !in t && forall j :: 0 <= j < k ==> log[j].key != log[k].key
    ensures var u := Fold(Apply, t, log); log[k].key in u && Says(u[log[k].key], log[k])
  {
    var rest := log[..|log| - 1];
    if k + 1 < |log| {
      FirstEventWins(t, rest, k);
    } else {
      KeysAfter(t, rest, log[k].key);
    }
  }

  /** Rows are exactly the old ones and those of the log's keys; old ones are never overwritten. */
  lemma {:induction false} KeysAfter(t: Table, log: seq<Event>, key: Key)
    ensures var u := Fold(Apply, t, log);
      && (key in u <==> key in t || exists j :: 0 <= j < |log| && log[j].key == key)
      && (key in t ==> u[key] == t[key])
  {
    if log != [] {
      var rest := log[..|log| - 1];
      KeysAfter(t, rest, key);
      assert log[|log| - 1].key == key ==> key in Fold(Apply, t, log);
      if j :| 0 <= j < |rest| && rest[j].key == key {
        assert log[j].key == key;
      }
    }
  }
}
