/** The polling of a historical back-fill job: at most 48 queries, one loading toast, at most one verdict. */
module BackfillMonitoring {
  import opened Options

  datatype Status = Queued | Running | Complete | SkippedUnsupported | OtherStatus

  /** What one query brings back: no job, a job, or a rejection. */
  datatype Answer = NoJob | Job(status: Status, errorMessage: Option<string>) | Rejected

  datatype Effect = Loading | Query | Dismiss | Refetch | Success | Failure(message: string)

  const MAX_ATTEMPTS: nat := 48

  predicate Terminal(a: Answer) {
    a.Job? && a.status != Queued && a.status != Running
  }

  /** The effects that follow the dismissal of the loading toast. */
  function Verdict(a: Answer): seq<Effect> {
    if !Terminal(a) then []
    else if a.status == Complete then [Refetch, Success]
    else if a.status == SkippedUnsupported then
      [Failure("Historical data unavailable from yfinance for this asset.")]
    else if a.errorMessage.Some? && a.errorMessage.value != "" then [Failure(a.errorMessage.value)]
    else [Failure("Historical data backfill failed.")]
  }

  function Queries(k: nat): (r: seq<Effect>)
    ensures |r| == k && forall i :: 0 <= i < k ==> r[i] == Query
  {
    seq(k, i => Query)
  }

  /** The trace of a monitor that stopped after k queries, on answer `last`. */
  function Trace(k: nat, last: Answer): seq<Effect> {
    [Loading] + Queries(k) + [Dismiss] + Verdict(last)
  }

  class BackfillMonitor {
    var attempts: nat
    var scheduled: bool
    var effects: seq<Effect>

    constructor ()
      ensures attempts == 0 && !scheduled && effects == []
    {
      attempts, scheduled, effects := 0, false, [];
    }

    /** One call of `poll`, with the answer its query gets. */
    method Poll(answer: Answer)
      requires scheduled && attempts < MAX_ATTEMPTS
      modifies this
      ensures attempts == old(attempts) + 1
      ensures scheduled <==> !Terminal(answer) && attempts < MAX_ATTEMPTS
      ensures effects == old(effects) + ([Query] + if scheduled then [] else [Dismiss] + Verdict(answer))
    {
      scheduled := false;
      attempts := attempts + 1;
      effects := effects + [Query];
      match answer {
        case NoJob =>
          if attempts < MAX_ATTEMPTS {
            scheduled := true;
            return;
          }
          effects := effects + [Dismiss];
        case Job(status, errorMessage) =>
          if status == Queued || status == Running {
            if attempts < MAX_ATTEMPTS {
              scheduled := true;
              return;
            }
            effects := effects + [Dismiss];
            return;
          }
          effects := effects + [Dismiss];
          if status == Complete {
            effects := effects + [Refetch];
            effects := effects + [Success];
            return;
          }
          if status == SkippedUnsupported {
            effects := effects + [Failure("Historical data unavailable from yfinance for this asset.")];
            return;
          }
          var message := if errorMessage.Some? then errorMessage.value else "";
          effects := effects + [Failure(if message != "" then message else "Historical data backfill failed.")];
        case Rejected =>
          if attempts < MAX_ATTEMPTS {
            scheduled := true;
            return;
          }
          effects := effects + [Dismiss];
      }
    }

    /** `monitorHistoricalBackfill`: whatever the answers, the monitor stops after at most 48 queries, at the first
        terminal answer if there is one among them, dismisses its toast once and shows that answer's verdict. */
    method Monitor(assetId: Option<string>, answers: nat -> Answer)
      requires attempts == 0 && !scheduled && effects == []
      modifies this
      ensures !scheduled
      ensures assetId.None? || assetId.value == "" ==> effects == []
      ensures assetId.Some? && assetId.value != "" ==>
                Stopped(answers, attempts) && effects == Trace(attempts, answers(attempts - 1))
      ensures assetId.Some? && assetId.value != "" ==> EndsRight(answers, effects) && attempts <= 48
    {
      if assetId.None? || assetId.value == "" {
        return;
      }
      effects := [Loading];
      scheduled := true;
      while scheduled
        invariant attempts <= MAX_ATTEMPTS && (scheduled ==> attempts < MAX_ATTEMPTS)
        invariant scheduled ==> forall j: nat :: j < attempts ==> !Terminal(answers(j))
        invariant scheduled ==> effects == [Loading] + Queries(attempts)
        invariant !scheduled ==> Stopped(answers, attempts) && effects == Trace(attempts, answers(attempts - 1))
        decreases MAX_ATTEMPTS - attempts
      {
        hide Verdict, Terminal, Queries;
        OneMoreQuery(attempts, Verdict(answers(attempts)));
        Poll(answers(attempts));
      }
      TraceEndsRight(answers, attempts);
    }
  }

  /** The j-th answer is the first one that is a job neither queued nor running. */
  ghost predicate FirstTerminal(answers: nat -> Answer, j: nat) {
    && answers(j).Job? && answers(j).status != Queued && answers(j).status != Running
    && forall i: nat :: i < j ==> answers(i).Job? ==> answers(i).status == Queued || answers(i).status == Running
  }

  /** The effects end in these, and show no toast but the loading one and refetch nothing before. */
  predicate EndsIn(effects: seq<Effect>, last: seq<Effect>) {
    && |last| <= |effects| && effects[|effects| - |last|..] == last
    && NoVerdictIn(effects[..|effects| - |last|])
  }

  /** How a monitor ends is decided by the first terminal answer among the first 48: a refetch and the success toast
      for a complete job, the yfinance toast for an unsupported asset, the job's own message or the default one for any
      other status; and nothing of the kind if there is no such answer. */
  ghost predicate EndsRight(answers: nat -> Answer, effects: seq<Effect>) {
    && (forall j: nat :: j < 48 && FirstTerminal(answers, j) ==>
          var status, message := answers(j).status, answers(j).errorMessage;
          && (status == Complete ==> EndsIn(effects, [Refetch, Success]))
          && (status == SkippedUnsupported ==>
                EndsIn(effects, [Failure("Historical data unavailable from yfinance for this asset.")]))
          && (status != Complete && status != SkippedUnsupported ==>
                && (message.Some? && message.value != "" ==> EndsIn(effects, [Failure(message.value)]))
                && (message.None? || message.value == "" ==>
                      EndsIn(effects, [Failure("Historical data backfill failed.")]))))
    && ((forall j: nat :: j < 48 ==> !FirstTerminal(answers, j)) ==> NoVerdictIn(effects))
  }

  predicate NoVerdictIn(effects: seq<Effect>) {
    forall e :: e in effects ==> e != Refetch && e != Success && !e.Failure?
  }

  lemma EndsInVerdict(k: nat, last: Answer)
    ensures if Terminal(last) then EndsIn(Trace(k, last), Verdict(last)) else NoVerdictIn(Trace(k, last))
  {
    var head, t := [Loading] + Queries(k) + [Dismiss], Trace(k, last);
    assert t == head + Verdict(last) && NoVerdictIn(head);
    if Terminal(last) {
      assert t[..|head|] == head && t[|head|..] == Verdict(last);
    } else {
      assert t == head;
    }
  }

  lemma TraceEndsRight(answers: nat -> Answer, k: nat)
    requires Stopped(answers, k)
    ensures EndsRight(answers, Trace(k, answers(k - 1))) && k <= 48
  {
    var i: nat := k - 1;
    var last := answers(i);
    EndsInVerdict(k, last);
    hide Trace, NoVerdictIn, EndsIn;
    forall j: nat | j < 48 && FirstTerminal(answers, j) ensures j == i {
      assert Terminal(answers(j));
      assert i < j ==> !Terminal(answers(i));
    }
    if Terminal(last) {
      assert FirstTerminal(answers, i);
    }
    hide Stopped;
  }

  /** The monitor has stopped after k queries. */
  ghost predicate Stopped(answers: nat -> Answer, k: nat) {
    && 1 <= k <= MAX_ATTEMPTS
    && (forall j: nat :: j < k - 1 ==> !Terminal(answers(j)))
    && (k == MAX_ATTEMPTS || Terminal(answers(k - 1)))
  }

  /** The number of queries is determined by the answers: the first terminal one, or the limit. */
  lemma StoppedUnique(answers: nat -> Answer, k: nat, k': nat)
    requires Stopped(answers, k) && Stopped(answers, k')
    ensures k == k'
  {
    var a: nat, b: nat := k - 1, k' - 1;
    assert a < b ==> !Terminal(answers(a));
    assert b < a ==> !Terminal(answers(b));
  }

  predicate FinalToast(e: Effect) {
    e == Success || e.Failure?
  }

  /** The verdict on each kind of answer. */
  lemma VerdictCases(message: Option<string>, text: string)
    ensures Verdict(NoJob) == [] && Verdict(Rejected) == []
    ensures Verdict(Job(Queued, message)) == [] && Verdict(Job(Running, message)) == []
    ensures Verdict(Job(Complete, message)) == [Refetch, Success]
    ensures Verdict(Job(SkippedUnsupported, message)) ==
            [Failure("Historical data unavailable from yfinance for this asset.")]
    ensures text != "" ==> Verdict(Job(OtherStatus, Some(text))) == [Failure(text)]
    ensures Verdict(Job(OtherStatus, None)) == Verdict(Job(OtherStatus, Some(""))) ==
            [Failure("Historical data backfill failed.")]
  {
  }

  lemma VerdictShape(a: Answer)
    ensures Terminal(a) <==> Verdict(a) != []
    ensures Verdict(a) != [] ==> FinalToast(Verdict(a)[|Verdict(a)| - 1])
    ensures forall i :: 0 <= i < |Verdict(a)| - 1 ==> !FinalToast(Verdict(a)[i])
    ensures forall e :: e in Verdict(a) ==> e != Dismiss && e != Query && e != Loading
  {
  }

  lemma TraceCounts(k: nat, last: Answer)
    ensures var t := Trace(k, last);
            multiset(t)[Dismiss] == 1 && multiset(t)[Query] == k && multiset(t)[Loading] == 1
  {
    QueriesCount(k);
    VerdictShape(last);
    hide Verdict;
    var t, v := Trace(k, last), Verdict(last);
    assert multiset(t) == multiset([Loading]) + multiset(Queries(k)) + multiset([Dismiss]) + multiset(v);
    assert Dismiss !in v && Query !in v && Loading !in v;
  }

  lemma TracePositions(k: nat, last: Answer)
    ensures var t := Trace(k, last);
            && |t| == k + 2 + |Verdict(last)| && t[k + 1] == Dismiss
            && (forall i :: 0 <= i < |t| && FinalToast(t[i]) ==> i == |t| - 1 && Terminal(last))
            && (Terminal(last) ==> FinalToast(t[|t| - 1]))
  {
    VerdictShape(last);
    hide Verdict;
    var t, head := Trace(k, last), [Loading] + Queries(k) + [Dismiss];
    assert t == head + Verdict(last);
    forall i | 0 <= i < |head| ensures !FinalToast(t[i]) {
      assert t[i] == head[i];
    }
    forall i | |head| <= i < |t| ensures t[i] == Verdict(last)[i - |head|] {
    }
  }

  /** In every trace the loading toast is dismissed once, after all queries and before any verdict; a final toast is
      shown exactly if one of the first 48 answers is terminal, and then once, at the very end. */
  lemma TraceShape(answers: nat -> Answer, k: nat)
    requires Stopped(answers, k)
    ensures var t := Trace(k, answers(k - 1));
            && multiset(t)[Dismiss] == 1 && multiset(t)[Query] == k <= MAX_ATTEMPTS && multiset(t)[Loading] == 1
            && t[k + 1] == Dismiss
            && (forall i :: 0 <= i < |t| && FinalToast(t[i]) ==> i == |t| - 1)
            && (FinalToast(t[|t| - 1]) <==> exists j: nat :: j < MAX_ATTEMPTS && Terminal(answers(j)))
  {
    var last := answers(k - 1);
    TraceCounts(k, last);
    TracePositions(k, last);
    hide Trace, Verdict;
    if j: nat :| j < MAX_ATTEMPTS && Terminal(answers(j)) {
      assert Terminal(last);
    }
  }

  lemma {:induction false} QueriesCount(k: nat)
    ensures multiset(Queries(k))[Query] == k
    ensures forall e :: e != Query ==> multiset(Queries(k))[e] == 0
  {
    if k > 0 {
      QueriesCount(k - 1);
      assert Queries(k) == Queries(k - 1) + [Query];
    }
  }

  lemma OneMoreQuery(k: nat, v: seq<Effect>)
    ensures [Loading] + Queries(k) + ([Query] + []) == [Loading] + Queries(k + 1)
    ensures [Loading] + Queries(k) + ([Query] + ([Dismiss] + v)) == [Loading] + Queries(k + 1) + [Dismiss] + v
  {
  }
}
