/**
 * The `payments` table: one row per user with the number of paid
 * generations, the time of the last payment and the Telegram username.
 * Each operation is one atomic step on the table (the SQLite transaction);
 * timestamps are ISO strings and "now" is a parameter.
 *
 * kling_bot.py keeps its own copy of these operations on a table without
 * the username column; it behaves as the operations below with username
 * `None`.
 */
module Ledger {
  import opened Wrappers

  datatype Row = Row(paidGenerations: int, lastPaymentAt: Option<string>, username: Option<string>)

  type Rows = map<int, Row>

  /** `SELECT paid_generations ...`, 0 when the user has no row. */
  function Balance(rows: Rows, userId: int): int {
    if userId in rows then rows[userId].paidGenerations else 0
  }

  /** SQL `COALESCE(new, old)`. */
  function Coalesce(given: Option<string>, stored: Option<string>): Option<string> {
    if given.Some? then given else stored
  }

  function Max(a: int, b: int): int {
    if a < b then b else a
  }

  /**
   * `increment_user_balance(user_id, delta, username)`: the new table and
   * the balance returned.
   */
  function Incremented(rows: Rows, userId: int, delta: int, username: Option<string>, now: string): (r: (Rows, int))
    // a zero delta only reads
    ensures delta == 0 ==> r.0 == rows && r.1 == Balance(rows, userId)
    // otherwise the stored and returned balance is the clamped sum
    ensures delta != 0 ==> r.1 == Max(0, Balance(rows, userId) + delta) && r.1 >= 0
    ensures Balance(r.0, userId) == r.1
    // only the caller's row changes
    ensures forall u :: u != userId ==> (u in r.0 <==> u in rows)
    ensures forall u :: u in rows && u != userId ==> r.0[u] == rows[u]
    // the payment time is refreshed only for a positive delta
    ensures delta != 0 ==> userId in r.0
    ensures delta > 0 ==> r.0[userId].lastPaymentAt == Some(now)
    ensures delta < 0 ==> r.0[userId].lastPaymentAt == (if userId in rows then rows[userId].lastPaymentAt else None)
    // a supplied username replaces the stored one; None keeps it
    ensures delta != 0 ==> r.0[userId].username == Coalesce(username, if userId in rows then rows[userId].username else None)
  {
    if delta == 0 then (rows, Balance(rows, userId))
    else
      var newVal := Max(0, Balance(rows, userId) + delta);
      if userId in rows then
        var row := rows[userId];
        var paidAt := if delta > 0 then Some(now) else row.lastPaymentAt;
        (rows[userId := Row(newVal, paidAt, Coalesce(username, row.username))], newVal)
      else
        (rows[userId := Row(newVal, if delta > 0 then Some(now) else None, username)], newVal)
  }

  /**
   * `set_user_balance(user_id, value, last_payment_at, username)`: an upsert
   * of the balance to exactly `value`, unclamped.
   */
  function WithBalance(rows: Rows, userId: int, value: int, lastPaymentAt: Option<string>, username: Option<string>, now: string): (r: Rows)
    ensures Balance(r, userId) == value
    ensures userId in r
    // `last_payment_at or now`: a missing or empty timestamp means now
    ensures r[userId].lastPaymentAt == Some(if lastPaymentAt.Some? && lastPaymentAt.value != "" then lastPaymentAt.value else now)
    ensures r[userId].username == Coalesce(username, if userId in rows then rows[userId].username else None)
    ensures forall u :: u != userId ==> (u in r <==> u in rows)
    ensures forall u :: u in rows && u != userId ==> r[u] == rows[u]
  {
    var iso := if lastPaymentAt.Some? && lastPaymentAt.value != "" then lastPaymentAt.value else now;
    var oldName := if userId in rows then rows[userId].username else None;
    rows[userId := Row(value, Some(iso), Coalesce(username, oldName))]
  }

  /** Non-negative balances stay non-negative under increments. */
  lemma IncrementKeepsNonNegative(rows: Rows, userId: int, delta: int, username: Option<string>, now: string)
    requires forall u :: u in rows ==> rows[u].paidGenerations >= 0
    ensures var r := Incremented(rows, userId, delta, username, now).0;
      forall u :: u in r ==> r[u].paidGenerations >= 0
  {
  }

  /** The table after crediting `deltas` to one user in order. */
  function Credited(rows: Rows, userId: int, deltas: seq<int>, now: string): Rows {
    if deltas == [] then rows
    else Incremented(Credited(rows, userId, deltas[..|deltas| - 1], now), userId, deltas[|deltas| - 1], None, now).0
  }

  function Sum(deltas: seq<int>): int {
    if deltas == [] then 0 else Sum(deltas[..|deltas| - 1]) + deltas[|deltas| - 1]
  }

  lemma {:induction false} SumNonNegative(deltas: seq<int>)
    requires forall i :: 0 <= i < |deltas| ==> deltas[i] >= 0
    ensures Sum(deltas) >= 0
  {
    if deltas != [] {
      SumNonNegative(deltas[..|deltas| - 1]);
    }
  }

  /**
   * Non-negative deltas are never lost: from a non-negative balance the
   * final balance is the starting one plus their sum.
   */
  lemma {:induction false} CreditsAddUp(rows: Rows, userId: int, deltas: seq<int>, now: string)
    requires Balance(rows, userId) >= 0
    requires forall i :: 0 <= i < |deltas| ==> deltas[i] >= 0
    ensures Balance(Credited(rows, userId, deltas, now), userId) == Balance(rows, userId) + Sum(deltas)
  {
    if deltas != [] {
      var prefix := deltas[..|deltas| - 1];
      var last := deltas[|deltas| - 1];
      CreditsAddUp(rows, userId, prefix, now);
      SumNonNegative(prefix);
      var before := Credited(rows, userId, prefix, now);
      assert Balance(before, userId) >= 0;
      assert Credited(rows, userId, deltas, now) == Incremented(before, userId, last, None, now).0;
      assert Balance(Incremented(before, userId, last, None, now).0, userId) == Balance(before, userId) + last;
    }
  }

  /** From a user without a row, the balance is the sum of the credits. */
  lemma CreditsFromNothing(rows: Rows, userId: int, deltas: seq<int>, now: string)
    requires userId !in rows
    requires forall i :: 0 <= i < |deltas| ==> deltas[i] >= 0
    ensures Balance(Credited(rows, userId, deltas, now), userId) == Sum(deltas)
  {
    CreditsAddUp(rows, userId, deltas, now);
  }

  /** The payments table, updated in place by each operation. */
  class PaymentsTable {
    var rows: Rows

    constructor ()
      ensures rows == map[]
    {
      rows := map[];
    }

    /** `get_user_balance`: reads only; 0 for a user without a row. */
    method GetUserBalance(userId: int) returns (balance: int)
      ensures userId !in rows ==> balance == 0
      ensures userId in rows ==> balance == rows[userId].paidGenerations
    {
      if userId in rows {
        balance := rows[userId].paidGenerations;
      } else {
        balance := 0;
      }
    }

    /** `set_user_balance`. */
    method SetUserBalance(userId: int, value: int, lastPaymentAt: Option<string>, username: Option<string>, now: string)
      modifies this
      ensures rows == WithBalance(old(rows), userId, value, lastPaymentAt, username, now)
    {
      var iso := if lastPaymentAt.Some? && lastPaymentAt.value != "" then lastPaymentAt.value else now;
      if userId in rows {
        rows := rows[userId := Row(value, Some(iso), Coalesce(username, rows[userId].username))];
      } else {
        rows := rows[userId := Row(value, Some(iso), username)];
      }
    }

    /** `increment_user_balance`: a read-modify-write of the caller's row. */
    method IncrementUserBalance(userId: int, delta: int, username: Option<string>, now: string) returns (newVal: int)
      modifies this
      ensures (rows, newVal) == Incremented(old(rows), userId, delta, username, now)
    {
      if delta == 0 {
        newVal := GetUserBalance(userId);
        return;
      }
      var current := 0;
      var row: Option<Row> := None;
      if userId in rows {
        row := Some(rows[userId]);
        current := rows[userId].paidGenerations;
      }
      newVal := Max(0, current + delta);
      match row {
        case Some(r) =>
          var paidAt := if delta > 0 then Some(now) else r.lastPaymentAt;
          rows := rows[userId := Row(newVal, paidAt, Coalesce(username, r.username))];
        case None =>
          rows := rows[userId := Row(newVal, if delta > 0 then Some(now) else None, username)];
      }
    }
  }
}
