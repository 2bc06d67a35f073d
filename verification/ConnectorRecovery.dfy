/**
 * Restart recovery of the protected connector: total, idempotent, and indifferent to a crash
 * in the middle of its loop.
 */
module ConnectorRecovery {
  import opened Prelude
  import Finite
  import opened ConnectorProtocol
  import opened ConnectorLedger
  import opened ConnectorInvariant

  /** Rows waiting in the tables, each listed once; recovery works through such a list. */
  ghost predicate Waiting(t: Tables, rows: seq<RequestRow>) {
    && (forall i ::
          0 <= i < |rows| ==>
            rows[i].key in t.requests && t.requests[rows[i].key] == rows[i] && rows[i].state == Claimed)
    && (forall i, j :: 0 <= i < j < |rows| ==> rows[i].key != rows[j].key)
  }

  /** Identifiers drawn for new receipts: all different, none on file. */
  ghost predicate FreshIds(t: Tables, ids: seq<string>) {
    && (forall i :: 0 <= i < |ids| ==> ids[i] !in t.receipts)
    && (forall i, j :: 0 <= i < j < |ids| ==> ids[i] != ids[j])
  }

  /** What recovery makes of one waiting row. */
  function Interrupted(row: RequestRow, id: string, now: nat): RequestRow {
    SettledRow(row, InterruptedResponse(row, id, now), id, now)
  }

  /** What a pass over `rows` makes of the row filed under `k`. */
  function After(rows: seq<RequestRow>, ids: seq<string>, now: nat, k: RequestKey, row: RequestRow): RequestRow
    requires |rows| == |ids|
  {
    if rows == [] then row
    else After(rows[1..], ids[1..], now, k, if rows[0].key == k then Interrupted(row, ids[0], now) else row)
  }

  ghost predicate Listed(rows: seq<RequestRow>, k: RequestKey) {
    exists i :: 0 <= i < |rows| && rows[i].key == k
  }

  /** Every row becomes what the pass makes of it, and one receipt per listed row is added; nothing else moves. */
  ghost predicate Recovers(t: Tables, t': Tables, rows: seq<RequestRow>, ids: seq<string>, now: nat)
    requires |rows| == |ids|
  {
    && t'.policies == t.policies && t'.bindings == t.bindings
    && t'.requests.Keys == t.requests.Keys
    && (forall k :: k in t.requests ==> t'.requests[k] == After(rows, ids, now, k, t.requests[k]))
    && (forall id :: id in t'.receipts <==> id in t.receipts || id in ids)
  }

  /** Listed rows are settled as ambiguous, under one of the drawn identifiers; the others are left alone. */
  lemma {:induction false} AfterIsExact(rows: seq<RequestRow>, ids: seq<string>, now: nat, k: RequestKey,
                                        row: RequestRow)
    requires |rows| == |ids|
    requires forall i, j :: 0 <= i < j < |rows| ==> rows[i].key != rows[j].key
    ensures if Listed(rows, k) then exists i ::
                                      0 <= i < |ids| && After(rows, ids, now, k, row) == Interrupted(row, ids[i], now)
            else After(rows, ids, now, k, row) == row
    decreases |rows|
  {
    hide Interrupted;
    if rows != [] {
      var next := if rows[0].key == k then Interrupted(row, ids[0], now) else row;
      AfterIsExact(rows[1..], ids[1..], now, k, next);
      if rows[0].key == k {
        assert !Listed(rows[1..], k);
        assert Listed(rows, k);
        assert After(rows, ids, now, k, row) == Interrupted(row, ids[0], now);
      } else {
        ListedInRest(rows, k);
        if Listed(rows[1..], k) {
          var i :| 0 <= i < |ids[1..]|
              && After(rows[1..], ids[1..], now, k, next) == Interrupted(row, ids[1..][i], now);
          assert ids[1..][i] == ids[i + 1];
        }
      }
    }
  }

  lemma ListedInRest(rows: seq<RequestRow>, k: RequestKey)
    requires rows != [] && rows[0].key != k
    ensures Listed(rows, k) <==> Listed(rows[1..], k)
  {
    if Listed(rows, k) {
      var i :| 0 <= i < |rows| && rows[i].key == k;
      assert rows[1..][i - 1].key == k;
    }
  }

  /** The rebuilt envelope passes every check, the binding is there, and the receipt is accepted. */
  lemma {:induction false} RowRecovers(t: Tables, row: RequestRow, id: string, now: nat)
    requires Inv(t) && row.key in t.requests && t.requests[row.key] == row && row.state == Claimed && id !in t.receipts
    ensures var result := ReconcileRow(t, row, id, now);
            && result.Ok?
            && var t' := result.value;
            && Inv(t') && Grows(t, t')
            && t'.requests == t.requests[row.key := Interrupted(row, id, now)]
            && t'.receipts.Keys == t.receipts.Keys + {id}
            && t'.policies == t.policies && t'.bindings == t.bindings
  {
    hide Inv, Grows;
    var response := InterruptedResponse(row, id, now);
    var digest := Some(t.bindings[BindingOf(row.key, row.authority)].targetDigest) by {
      WaitingRowFacts(t, row);
    }
    WaitingRowFacts(t, row);
    ReconcilerVersionIsValid();
    CompletionKeepsInv(t, RequestFromRow(row), response, digest, RECONCILER_VERSION, now);
  }

  lemma ReconcilerVersionIsValid()
    ensures IsVersion(RECONCILER_VERSION)
  {
  }

  lemma WaitingRowFacts(t: Tables, row: RequestRow)
    requires Inv(t) && row.key in t.requests && t.requests[row.key] == row && row.state == Claimed
    ensures row.response.None? && row.requestDigest == RequestDigest(RequestFromRow(row))
    ensures BindingOf(row.key, row.authority) in t.bindings
    ensures forall id :: id in t.receipts ==> t.receipts[id].key != row.key
  {
    hide UniqueRequests, BindingsWellFormed, ActiveIsProved;
    RowIsWellFormed(t, row.key);
    forall id | id in t.receipts ensures t.receipts[id].key != row.key {
      assert ReceiptWellFormed(t, id, t.receipts[id]);
    }
  }

  /** Recovery never fails: it settles the listed rows, all of them and only them. */
  lemma {:induction false} RecoveryIsTotal(t: Tables, rows: seq<RequestRow>, ids: seq<string>, now: nat)
    requires Inv(t) && Waiting(t, rows) && FreshIds(t, ids) && |rows| == |ids|
    ensures var result := ReconcileRows(t, rows, ids, now);
            result.Ok? && Inv(result.value) && Grows(t, result.value) && Recovers(t, result.value, rows, ids, now)
    decreases |rows|
  {
    hide Inv, Grows, ReconcileRow;
    GrowsReflexive(t);
    if rows != [] {
      RowRecovers(t, rows[0], ids[0], now);
      var t1 := ReconcileRow(t, rows[0], ids[0], now).value;
      StillWaiting(t, t1, rows, ids, now);
      RecoveryIsTotal(t1, rows[1..], ids[1..], now);
      var t2 := ReconcileRows(t1, rows[1..], ids[1..], now).value;
      GrowsTransitive(t, t1, t2);
      RecoversOneMore(t, t1, t2, rows, ids, now);
    }
  }

  lemma StillWaiting(t: Tables, t1: Tables, rows: seq<RequestRow>, ids: seq<string>, now: nat)
    requires Waiting(t, rows) && FreshIds(t, ids) && |rows| == |ids| > 0
    requires t1.requests == t.requests[rows[0].key := Interrupted(rows[0], ids[0], now)]
    requires t1.receipts.Keys == t.receipts.Keys + {ids[0]}
    ensures Waiting(t1, rows[1..]) && FreshIds(t1, ids[1..])
  {
  }

  lemma RecoversOneMore(t: Tables, t1: Tables, t2: Tables, rows: seq<RequestRow>, ids: seq<string>, now: nat)
    requires |rows| == |ids| > 0 && rows[0].key in t.requests && t.requests[rows[0].key] == rows[0]
    requires t1.requests == t.requests[rows[0].key := Interrupted(rows[0], ids[0], now)]
    requires t1.receipts.Keys == t.receipts.Keys + {ids[0]}
    requires t1.policies == t.policies && t1.bindings == t.bindings
    requires Recovers(t1, t2, rows[1..], ids[1..], now)
    ensures Recovers(t, t2, rows, ids, now)
  {
    hide Interrupted;
    assert ids == [ids[0]] + ids[1..];
  }

  /**
   * After recovery over everything that was waiting nothing waits, so a second pass selects nothing and changes
   * nothing.
   */
  lemma {:induction false} RecoveryLeavesNothingWaiting(t: Tables, rows: seq<RequestRow>, ids: seq<string>, now: nat)
    requires Inv(t) && SelectsClaimed(t, rows) && FreshIds(t, ids) && |rows| == |ids|
    ensures var result := ReconcileRows(t, rows, ids, now);
            && result.Ok?
            && (forall k :: k in result.value.requests ==> result.value.requests[k].state != Claimed)
            && (forall again: seq<RequestRow> :: SelectsClaimed(result.value, again) ==> again == [])
            && ReconcileRows(result.value, [], [], now) == Ok(result.value)
  {
    hide Inv, Grows, ReconcileRow, Recovers, FreshIds, SelectsClaimed;
    SelectionIsWaiting(t, rows);
    RecoveryIsTotal(t, rows, ids, now);
    var t' := ReconcileRows(t, rows, ids, now).value;
    forall k | k in t'.requests ensures t'.requests[k].state != Claimed {
      RecoveredRow(t, t', rows, ids, now, k);
      if t.requests[k].state == Claimed {
        SelectionIsComplete(t, rows, k);
      }
    }
    NothingToSelect(t');
  }

  lemma NothingToSelect(t: Tables)
    requires forall k :: k in t.requests ==> t.requests[k].state != Claimed
    ensures forall rows: seq<RequestRow> :: SelectsClaimed(t, rows) ==> rows == []
  {
    forall rows: seq<RequestRow> | SelectsClaimed(t, rows) ensures rows == [] {
      if rows != [] {
        FirstSelected(t, rows);
      }
    }
  }

  lemma FirstSelected(t: Tables, rows: seq<RequestRow>)
    requires SelectsClaimed(t, rows) && rows != []
    ensures exists k :: k in t.requests && t.requests[k].state == Claimed
  {
    assert rows[0].key in t.requests;
  }

  lemma SelectionIsWaiting(t: Tables, rows: seq<RequestRow>)
    requires SelectsClaimed(t, rows)
    ensures Waiting(t, rows)
  {
  }

  lemma SelectionIsComplete(t: Tables, rows: seq<RequestRow>, k: RequestKey)
    requires SelectsClaimed(t, rows) && Inv(t) && k in t.requests && t.requests[k].state == Claimed
    ensures Listed(rows, k)
  {
    hide ReceiptsWellFormed, UniqueRequests, BindingsWellFormed, ActiveIsProved;
    RowIsWellFormed(t, k);
    var i :| 0 <= i < |rows| && rows[i] == t.requests[k];
  }

  /** What a caller can learn from a row: how it was settled, not under which receipt or when. */
  function Outcome(row: RequestRow): (RowState, Option<Verdict>) {
    (row.state, if row.response.Some? then Some(row.response.value.verdict) else None)
  }

  const AMBIGUOUS_OUTCOME: (RowState, Option<Verdict>) := (Ambiguous, Some(Failed(ResultAmbiguous, false, None)))

  /** A listed row comes out ambiguous; any other row comes out as it went in. */
  lemma RecoveredRow(t: Tables, t': Tables, rows: seq<RequestRow>, ids: seq<string>, now: nat, k: RequestKey)
    requires |rows| == |ids| && Recovers(t, t', rows, ids, now) && Waiting(t, rows)
             && (k in t.requests || k in t'.requests)
    ensures k in t.requests && k in t'.requests
    ensures if Listed(rows, k) then t.requests[k].state == Claimed && Outcome(t'.requests[k]) == AMBIGUOUS_OUTCOME
            else t'.requests[k] == t.requests[k]
  {
    AfterIsExact(rows, ids, now, k, t.requests[k]);
  }

  /**
   * A crash after any number of iterations, followed by a second recovery, settles the same rows with the same
   * outcomes as an uninterrupted one, and what the first pass settled stands.
   */
  lemma {:induction false} CrashInRecoveryIsHarmless(t: Tables, rows: seq<RequestRow>, ids: seq<string>, now: nat,
                                                     whole: Tables, cut: nat, t1: Tables, rest: seq<RequestRow>,
                                                     ids': seq<string>, later: nat, t2: Tables)
    requires Inv(t) && SelectsClaimed(t, rows) && FreshIds(t, ids) && |rows| == |ids| && cut <= |rows|
    requires ReconcileRows(t, rows, ids, now) == Ok(whole)
    requires ReconcileRows(t, rows[..cut], ids[..cut], now) == Ok(t1)
    requires SelectsClaimed(t1, rest) && FreshIds(t1, ids') && |rest| == |ids'|
    requires ReconcileRows(t1, rest, ids', later) == Ok(t2)
    ensures t2.requests.Keys == whole.requests.Keys == t1.requests.Keys
    ensures forall k :: k in whole.requests ==> Outcome(t2.requests[k]) == Outcome(whole.requests[k])
    ensures forall k :: k in t1.requests && t1.requests[k].state != Claimed ==> t2.requests[k] == t1.requests[k]
  {
    hide *;
    SelectionIsWaiting(t, rows);
    RecoveryIsTotal(t, rows, ids, now);
    PrefixWaits(t, rows, ids, cut);
    RecoveryIsTotal(t, rows[..cut], ids[..cut], now);
    SelectionIsWaiting(t1, rest);
    RecoveryIsTotal(t1, rest, ids', later);
    RecoversKeys(t, whole, rows, ids, now);
    RecoversKeys(t, t1, rows[..cut], ids[..cut], now);
    RecoversKeys(t1, t2, rest, ids', later);
    forall k | k in whole.requests
      ensures Outcome(t2.requests[k]) == Outcome(whole.requests[k])
      ensures t1.requests[k].state != Claimed ==> t2.requests[k] == t1.requests[k]
    {
      RecoveredRow(t, whole, rows, ids, now, k);
      RecoveredRow(t, t1, rows[..cut], ids[..cut], now, k);
      RecoveredRow(t1, t2, rest, ids', later, k);
      if t.requests[k].state == Claimed {
        SelectionIsComplete(t, rows, k);
      }
      if t1.requests[k].state == Claimed {
        SelectionIsComplete(t1, rest, k);
      }
      OutcomeOfClaimed(t.requests[k]);
      OutcomeOfClaimed(t1.requests[k]);
    }
  }

  lemma RecoversKeys(t: Tables, t': Tables, rows: seq<RequestRow>, ids: seq<string>, now: nat)
    requires |rows| == |ids| && Recovers(t, t', rows, ids, now)
    ensures t'.requests.Keys == t.requests.Keys
  {
  }

  lemma OutcomeOfClaimed(row: RequestRow)
    ensures row.state == Claimed ==> Outcome(row) != AMBIGUOUS_OUTCOME
    ensures Outcome(row) == AMBIGUOUS_OUTCOME ==> row.state == Ambiguous
  {
  }

  lemma PrefixWaits(t: Tables, rows: seq<RequestRow>, ids: seq<string>, cut: nat)
    requires Waiting(t, rows) && FreshIds(t, ids) && |rows| == |ids| && cut <= |rows|
    ensures Waiting(t, rows[..cut]) && FreshIds(t, ids[..cut])
  {
  }

  // ----- there is always such a selection

  /** Whatever a crash leaves behind, a restart has rows to select, in the order they were started. */
  lemma SelectionExists(t: Tables) returns (rows: seq<RequestRow>)
    requires Inv(t)
    ensures SelectsClaimed(t, rows)
  {
    hide Inv;
    var keys := set k | k in t.requests && t.requests[k].state == Claimed;
    var order;
    order, rows := Finite.RowsInOrder(t.requests, keys, map k | k in t.requests :: t.requests[k].startedAt);
    forall i | 0 <= i < |rows| ensures rows[i].key == order[i] {
      FiledUnderKey(t, order[i]);
    }
  }

  lemma FiledUnderKey(t: Tables, k: RequestKey)
    requires Inv(t) && k in t.requests
    ensures t.requests[k].key == k
  {
    hide ReceiptsWellFormed, UniqueRequests, BindingsWellFormed, ActiveIsProved;
    RowIsWellFormed(t, k);
  }
}
