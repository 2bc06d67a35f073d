/**
 * What becomes of a request of the foundation broker, over whole runs: of one that is denied at once, and of one whose
 * answer comes back.
 */
module FoundationOutcomes {
  import opened Prelude
  import opened FoundationProtocol
  import opened FoundationInvariant
  import opened FoundationRuns
  import opened FoundationStanding
  import L = FoundationLedger
  import S = FoundationService
  import Registry

  // ----- answers

  /** Position `j` hands the adapter's answer for `call` back to the service. */
  ghost predicate AnswersAt(labels: seq<Label>, j: nat, call: S.Call) {
    && j < |labels| && labels[j].Finish?
    && FinishPossible(At(labels, j), labels[j].key, labels[j].answer)
    && At(labels, j).inflight[labels[j].key] == call
  }

  function Hmac(a: S.Answer): Option<string> { if a.ItemValid? then Some(a.versionHmac) else None }

  /** `response` and the receipt that goes with it are on file for the row as it was when it still waited. */
  ghost predicate OnRecord(t: L.Tables, row: L.RequestRow, response: Response, receiptId: string, hmac: Option<string>,
                           now: nat)
  {
    && row.key in t.requests && t.requests[row.key].response == Some(response)
    && receiptId in t.receipts && t.receipts[receiptId] == L.ReceiptFor(row, response, receiptId, hmac, now)
  }

  /**
   * Every answer that comes back, whatever changed meanwhile: a request rejected in between keeps that reply; otherwise
   * an answer the protocol has a response for is on record under the receipt drawn for it in every later state;
   * otherwise the caller is told that nothing was recorded, and nothing was.
   */
  lemma {:induction false} AnswerIsSettled(labels: seq<Label>, j: nat, n: nat, call: S.Call)
    requires AnswersAt(labels, j, call) && j < n <= |labels|
    ensures call.request.key == labels[j].key && labels[j].key in At(labels, j).tables.requests
    ensures S.Answers(call, labels[j].answer)
    ensures var t := At(labels, j).tables; var l := labels[j]; var row := t.requests[l.key];
            var response := Due(row, call, l.answer, l.receiptId);
            if row.response.Some?
            then ReplyAt(labels, j) == Some((l.key, row.response.value)) && At(labels, j + 1).tables == t
            else if Receiptable(l.answer) && l.receiptId !in t.receipts
            then ReplyAt(labels, j) == Some((l.key, response))
                 && OnRecord(At(labels, n).tables, row, response, l.receiptId,
                             Hmac(l.answer), call.now)
            else ReplyAt(labels, j) == Some((l.key, BareFailure(call.request, ReceiptPersistenceFailed, call.now)))
                 && At(labels, j + 1).tables == t
  {
    hide *;
    RunKeepsReachable(labels, j, j);
    RunKeepsReachable(labels, j + 1, n);
    AtNext(labels, j);
    AnswerUnfolds(labels, j, call);
    AnswerStep(At(labels, j), labels[j]);
    var t, l := At(labels, j).tables, labels[j];
    if t.requests[l.key].response.None? && Receiptable(l.answer) && l.receiptId !in t.receipts {
      var response := Due(t.requests[l.key], call, l.answer, l.receiptId);
      ReachableTables(At(labels, j + 1));
      RecordKept(At(labels, j + 1).tables, At(labels, n).tables, t.requests[l.key], response, l.receiptId,
                 Hmac(l.answer), call.now);
    }
  }

  lemma AnswerUnfolds(labels: seq<Label>, j: nat, call: S.Call)
    requires AnswersAt(labels, j, call)
    ensures j < |labels| && labels[j].Finish? && labels[j].key in At(labels, j).inflight
    ensures FinishPossible(At(labels, j), labels[j].key, labels[j].answer)
    ensures At(labels, j).inflight[labels[j].key] == call && S.Answers(call, labels[j].answer)
    ensures ReplyAt(labels, j)
            == Some((labels[j].key, S.Finish(At(labels, j).tables, call, labels[j].answer, labels[j].receiptId).0))
  {
    hide S.Finish, S.Answers, S.Lists, Run;
  }

  lemma {:induction false} AnswerStep(s: System, l: Label)
    requires Reachable(s) && l.Finish? && l.key in s.inflight && FinishPossible(s, l.key, l.answer)
    ensures var call := s.inflight[l.key];
            && call.request.key == l.key && l.key in s.tables.requests && S.Answers(call, l.answer)
            && var (reply, t') := S.Finish(s.tables, call, l.answer, l.receiptId);
            && t' == Step(s, l).tables
            && var row := s.tables.requests[l.key];
            && var response := Due(row, call, l.answer, l.receiptId);
            && row.key == l.key
            && if row.response.Some? then t' == s.tables && reply == row.response.value
               else if Receiptable(l.answer) && l.receiptId !in s.tables.receipts
               then reply == response
                    && OnRecord(t', row, response, l.receiptId, Hmac(l.answer), call.now)
               else t' == s.tables && reply == BareFailure(call.request, ReceiptPersistenceFailed, call.now)
  {
    hide Inv, S.Finish, Receiptable, S.Answers, S.Lists, S.CallFits, ValidResponse,
         L.ApplyBindingTransition, Registry.WellFormed, CompromiseMatches;
    assert CallAwaited(s.tables, l.key, s.inflight[l.key]);
    AnsweredIsSettled(s.tables, l.key);
    FinishMeetsEnd(s.tables, s.inflight[l.key], l.answer, l.receiptId);
  }

  lemma RecordKept(t: L.Tables, t': L.Tables, row: L.RequestRow, response: Response, receiptId: string,
                   hmac: Option<string>, now: nat)
    requires Inv(t) && Grows(t, t') && OnRecord(t, row, response, receiptId, hmac, now)
    ensures OnRecord(t', row, response, receiptId, hmac, now)
  {
    hide Inv, BindingsGrow;
    AnsweredIsSettled(t, row.key);
  }

  // ----- requests

  /** Position `i` begins a request while the service is serving. */
  ghost predicate BeginsAt(labels: seq<Label>, i: nat) {
    i < |labels| && labels[i].Begin? && At(labels, i).serving
  }

  ghost function FateAt(labels: seq<Label>, i: nat): Fate
    requires BeginsAt(labels, i)
  {
    FateOf(At(labels, i).registry, At(labels, i).tables, labels[i].certificate, labels[i].request, labels[i].now)
  }

  ghost function BegunAt(labels: seq<Label>, i: nat): S.Begun
    requires BeginsAt(labels, i)
  {
    S.Begin(At(labels, i).registry, At(labels, i).tables, labels[i].certificate, labels[i].request, labels[i].now,
            labels[i].receiptId).0
  }

  /** Every request that comes in meets the fate its cause calls for, in the reply or the call and in the tables. */
  lemma {:induction false} BegunByCause(labels: seq<Label>, i: nat)
    requires BeginsAt(labels, i)
    ensures Meets(At(labels, i).registry, At(labels, i).tables, At(labels, i + 1).tables, labels[i].certificate,
                  labels[i].request, labels[i].now, labels[i].receiptId, FateAt(labels, i), BegunAt(labels, i))
  {
    hide S.Begin, Meets, FateOf, Run, Inv, CallsAwaited, Registry.WellFormed, CompromiseMatches;
    RunKeepsReachable(labels, i, i);
    AtNext(labels, i);
    var s, l := At(labels, i), labels[i];
    BeginMeetsFate(s.registry, s.tables, l.certificate, l.request, l.now, l.receiptId);
  }

  /**
   * A request denied before the adapter is asked is on record in every later state with the verdict its cause calls
   * for, when the receipt drawn for it is new. Otherwise the caller is told that nothing was recorded, and the row
   * waits.
   */
  lemma {:induction false} DeniedByCause(labels: seq<Label>, i: nat, n: nat)
    requires BeginsAt(labels, i) && i < n <= |labels| && FateAt(labels, i).Recorded?
    ensures var l := labels[i]; var t := At(labels, i).tables;
            var row := Claim(l.request, l.certificate, l.now);
            if l.receiptId !in t.receipts then
              var reply := Failing(l.request, FateAt(labels, i).verdict, Some(l.receiptId), l.now);
              && ReplyAt(labels, i) == Some((l.request.key, reply))
              && OnRecord(At(labels, n).tables, row, reply, l.receiptId, None, l.now)
            else
              && ReplyAt(labels, i)
                 == Some((l.request.key, Failing(l.request, Plainly(ReceiptPersistenceFailed), None, l.now)))
              && At(labels, i + 1).tables == t.(requests := t.requests[l.request.key := row])
              && l.request.key !in At(labels, i + 1).inflight
  {
    BeginLabel(labels, i);
    hide *;
    BeginLabel(labels, i);
    RunKeepsReachable(labels, i, i);
    AtNext(labels, i);
    RunKeepsReachable(labels, i + 1, n);
    BegunByCause(labels, i);
    var s, l := At(labels, i), labels[i];
    RecordedStep(labels, i);
    if l.receiptId !in s.tables.receipts {
      ReachableTables(At(labels, i + 1));
      RecordKept(At(labels, i + 1).tables, At(labels, n).tables, Claim(l.request, l.certificate, l.now),
                 Failing(l.request, FateAt(labels, i).verdict, Some(l.receiptId), l.now), l.receiptId, None, l.now);
    }
  }

  lemma BeginLabel(labels: seq<Label>, i: nat)
    requires BeginsAt(labels, i)
    ensures i < |labels| && labels[i].Begin?
  {
    hide Run;
  }

  lemma {:induction false} RecordedStep(labels: seq<Label>, i: nat)
    requires BeginsAt(labels, i) && FateAt(labels, i).Recorded? && Reachable(At(labels, i))
    requires At(labels, i + 1) == Step(At(labels, i), labels[i])
    requires Meets(At(labels, i).registry, At(labels, i).tables, At(labels, i + 1).tables, labels[i].certificate,
                   labels[i].request, labels[i].now, labels[i].receiptId, FateAt(labels, i), BegunAt(labels, i))
    ensures var l := labels[i]; var t := At(labels, i).tables; var row := Claim(l.request, l.certificate, l.now);
            if l.receiptId !in t.receipts then
              var reply := Failing(l.request, FateAt(labels, i).verdict, Some(l.receiptId), l.now);
              && ReplyAt(labels, i) == Some((l.request.key, reply))
              && OnRecord(At(labels, i + 1).tables, row, reply, l.receiptId, None, l.now)
            else
              && ReplyAt(labels, i)
                 == Some((l.request.key, Failing(l.request, Plainly(ReceiptPersistenceFailed), None, l.now)))
              && At(labels, i + 1).tables == t.(requests := t.requests[l.request.key := row])
              && l.request.key !in At(labels, i + 1).inflight
  {
    hide S.Begin, Run, Inv, CompromiseMatches, Registry.WellFormed, FateOf;
    var s, l := At(labels, i), labels[i];
    RecordedKeyIsNew(s.registry, s.tables, l.certificate, l.request, l.now);
    if l.request.key in s.inflight {
      CallOnFile(s, l.request.key);
    }
  }

  lemma RecordedKeyIsNew(r: Registry.Registry, t: L.Tables, certificate: string, request: Request, now: nat)
    ensures FateOf(r, t, certificate, request, now).Recorded? ==> request.key !in t.requests
  {
    hide Registry.Holds, WellMade, PolicyStands;
  }

  lemma CallOnFile(s: System, key: RequestKey)
    requires Reachable(s)
    ensures key in s.inflight ==> key in s.tables.requests
  {
    hide Inv, CompromiseMatches, Registry.WellFormed;
  }

  // ----- completion

  /** Every call that comes back ends as what it comes back with requires, in the reply and in the tables. */
  lemma {:induction false} FinishedByCause(labels: seq<Label>, j: nat, call: S.Call)
    requires AnswersAt(labels, j, call)
    ensures ReplyAt(labels, j).Some? && S.Answers(call, labels[j].answer)
    ensures Ends(At(labels, j).tables, At(labels, j + 1).tables, call, labels[j].answer, labels[j].receiptId,
                 ReplyAt(labels, j).value.1)
  {
    hide S.Finish, Ends, Run, Inv, CompromiseMatches, Registry.WellFormed, S.Answers, S.Lists, S.CallFits;
    AnswerUnfolds(labels, j, call);
    RunKeepsReachable(labels, j, j);
    AtNext(labels, j);
    assert CallAwaited(At(labels, j).tables, labels[j].key, call);
    FinishMeetsEnd(At(labels, j).tables, call, labels[j].answer, labels[j].receiptId);
  }
}
