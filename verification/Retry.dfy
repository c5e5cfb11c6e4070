/** The retrying client: attempts whose results validators reject, and the history that tells the model so. */
module Retry {
  import opened Wrappers

  datatype ToolCall = ToolCall(id: string, name: string, arguments: string)

  /** An assistant turn. */
  datatype Turn = Turn(content: Option<string>, calls: seq<ToolCall>)
  datatype Message = Assistant(turn: Turn) | ToolStub(callId: string) | User(content: string)

  /** Messages and results so far; the delta that made it finished the turn or did not. */
  datatype Snapshot = Snapshot(messages: seq<Message>, results: seq<Turn>, finished: bool)

  /**
   What an attempt yields: the turn as accumulated after each delta. It may be over, be broken off by a provider's
   fault, or raise anything else.
   */
  datatype Current = Current(turn: Turn, finished: bool)
  datatype Ending = Over | Broken | Raised
  datatype Play = Play(currents: seq<Current>, ending: Ending)

  /** What the client streams for an attempt, of this number and with these messages added to the request. */
  type Client = (nat, seq<Message>) -> Play

  /** A validator sees a result and the messages added to the request; it passes, rejects with a message, or raises. */
  datatype Verdict = Pass | Reject(fix: string) | Raise
  type Validator = (Turn, seq<Message>) -> Verdict

  datatype Error = ProviderError | Unhandled | NoResult | RetryLimit(last: Option<string>)

  /** _tool_stubs */
  function ToolStubs(calls: seq<ToolCall>): (stubs: seq<Message>)
    ensures |stubs| == |calls| && forall i | 0 <= i < |calls| :: stubs[i] == ToolStub(calls[i].id)
  {
    seq(|calls|, i requires 0 <= i < |calls| => ToolStub(calls[i].id))
  }

  /** The first validator that does not pass decides. */
  ghost predicate Decides(validators: seq<Validator>, t: Turn, messages: seq<Message>, i: nat) {
    && i < |validators| && validators[i](t, messages) != Pass
    && forall j | 0 <= j < i :: validators[j](t, messages) == Pass
  }

  /** _first_retry_message: the verdict of the first validator that does not pass, if there is one. */
  method FirstRetryMessage(validators: seq<Validator>, t: Turn, messages: seq<Message>) returns (v: Verdict)
    ensures v == Pass <==> forall i | 0 <= i < |validators| :: validators[i](t, messages) == Pass
    ensures v != Pass ==> exists i: nat :: Decides(validators, t, messages, i) && v == validators[i](t, messages)
    ensures v == Judged(validators, t, messages)
  {
    for i := 0 to |validators|
      invariant forall j | 0 <= j < i :: validators[j](t, messages) == Pass
    {
      v := validators[i](t, messages);
      if v != Pass {
        assert Decides(validators, t, messages, i);
        OneDecides(validators, t, messages, i);
        return;
      }
    }
    v := Pass;
  }

  ghost function Judged(validators: seq<Validator>, t: Turn, messages: seq<Message>): Verdict {
    if exists i: nat :: Decides(validators, t, messages, i) then
      var i: nat :| Decides(validators, t, messages, i);
      validators[i](t, messages)
    else Pass
  }

  lemma OneDecides(validators: seq<Validator>, t: Turn, messages: seq<Message>, i: nat)
    requires Decides(validators, t, messages, i)
    ensures forall j: nat :: Decides(validators, t, messages, j) ==> j == i
  {
  }

  /** There is no message if and only if every validator passes. */
  lemma Passed(validators: seq<Validator>, t: Turn, messages: seq<Message>)
    ensures Judged(validators, t, messages) == Pass <==>
      forall i | 0 <= i < |validators| :: validators[i](t, messages) == Pass
  {
    var i := 0;
    while i < |validators| && validators[i](t, messages) == Pass
      invariant i <= |validators| && forall j | 0 <= j < i :: validators[j](t, messages) == Pass
    {
      i := i + 1;
    }
    if i < |validators| {
      assert Decides(validators, t, messages, i);
    }
  }

  /******* The history *******/

  /** A turn that was rejected, and the message that says why. */
  datatype Rejection = Rejection(turn: Turn, fix: string)

  /**
   The messages added to the request: each rejected turn, a stub for each of its calls, and one message of the user.
   */
  function Transcript(rejections: seq<Rejection>): seq<Message> {
    if rejections == [] then []
    else
      var r := rejections[|rejections| - 1];
      Transcript(rejections[..|rejections| - 1]) + [Assistant(r.turn)] + ToolStubs(r.turn.calls) + [User(r.fix)]
  }

  function Turns(rejections: seq<Rejection>): (turns: seq<Turn>)
    ensures |turns| == |rejections| && forall i | 0 <= i < |turns| :: turns[i] == rejections[i].turn
  {
    seq(|rejections|, i requires 0 <= i < |rejections| => rejections[i].turn)
  }

  /** The snapshot in which nothing but the rejections is left. */
  function History(rejections: seq<Rejection>): Snapshot {
    Snapshot(Transcript(rejections), Turns(rejections), false)
  }

  /** A snapshot during an attempt: the history, and the turn so far. */
  function During(rejections: seq<Rejection>, c: Current): Snapshot {
    Snapshot(Transcript(rejections) + [Assistant(c.turn)],
             Turns(rejections) + if c.finished then [c.turn] else [], c.finished)
  }

  /** All snapshots of an attempt. */
  function Yielded(rejections: seq<Rejection>, currents: seq<Current>): (shown: seq<Snapshot>)
    ensures |shown| == |currents| && forall i | 0 <= i < |shown| :: shown[i] == During(rejections, currents[i])
  {
    seq(|currents|, i requires 0 <= i < |currents| => During(rejections, currents[i]))
  }

  lemma TranscriptNext(rejections: seq<Rejection>, r: Rejection)
    ensures Transcript(rejections + [r]) ==
      Transcript(rejections) + [Assistant(r.turn)] + ToolStubs(r.turn.calls) + [User(r.fix)]
    ensures Turns(rejections + [r]) == Turns(rejections) + [r.turn]
  {
    assert (rejections + [r])[..|rejections|] == rejections;
  }

  /** The history after a rejection. */
  lemma HistoryNext(rejections: seq<Rejection>, last: Snapshot, c: Current, fix: string)
    requires last == During(rejections, c) && c.finished
    ensures last.messages[|Transcript(rejections)|..] == [Assistant(c.turn)]
    ensures last.results == Turns(rejections) + [c.turn]
    ensures History(rejections + [Rejection(c.turn, fix)]) ==
      Snapshot(Transcript(rejections) + [Assistant(c.turn)] + ToolStubs(c.turn.calls) + [User(fix)], last.results,
               false)
  {
    TranscriptNext(rejections, Rejection(c.turn, fix));
  }

  /******* Runs *******/

  /** The last delta of the attempt finished a turn. */
  predicate HasResult(p: Play) {
    p.currents != [] && p.currents[|p.currents| - 1].finished
  }

  function ResultOf(p: Play): Turn
    requires HasResult(p)
  {
    p.currents[|p.currents| - 1].turn
  }

  /** What an attempt comes to: the run is over, or goes on with these rejections. */
  datatype Step = Ends(outcome: Result<(), Error>) | GoesOn(rejections: seq<Rejection>)

  ghost function StepOf(validators: seq<Validator>, rejections: seq<Rejection>, p: Play): Step {
    if p.ending.Raised? then Ends(Err(Unhandled))
    else if p.ending.Broken? && p.currents == [] then Ends(Err(ProviderError))
    else if p.ending.Broken? && !HasResult(p) then GoesOn(rejections)
    else if !HasResult(p) then Ends(Err(NoResult))
    else
      match Judged(validators, ResultOf(p), Transcript(rejections))
      case Pass => Ends(Ok(()))
      case Raise => Ends(Err(Unhandled))
      case Reject(fix) => GoesOn(rejections + [Rejection(ResultOf(p), fix)])
  }

  /** The attempt of this number, with these rejections before it. */
  function PlayOf(client: Client, rejections: seq<Rejection>, n: nat): Play {
    client(n, Transcript(rejections))
  }

  /** The last delta of the attempt finished this turn. */
  ghost predicate Finishes(p: Play, t: Turn) {
    !p.ending.Raised? && p.currents != [] && p.currents[|p.currents| - 1] == Current(t, true)
  }

  /** No delta of the attempt finished a turn last. */
  ghost predicate Unfinished(p: Play) {
    p.currents == [] || !p.currents[|p.currents| - 1].finished
  }

  /** What ends a run at an attempt, and how. */
  ghost predicate Ended(validators: seq<Validator>, rejections: seq<Rejection>, p: Play, outcome: Result<(), Error>) {
    || (p.ending.Raised? && outcome == Err(Unhandled))
    || (p.ending.Broken? && p.currents == [] && outcome == Err(ProviderError))
    || (p.ending.Over? && Unfinished(p) && outcome == Err(NoResult))
    || (exists t :: Finishes(p, t) && outcome.Ok? &&
                    forall i | 0 <= i < |validators| :: validators[i](t, Transcript(rejections)) == Pass)
    || (exists t, i: nat :: Finishes(p, t) && outcome == Err(Unhandled) &&
                            Decides(validators, t, Transcript(rejections), i) &&
                            validators[i](t, Transcript(rejections)) == Raise)
  }

  /** What makes for another attempt, and the rejections before that one. */
  ghost predicate Retried(validators: seq<Validator>, rejections: seq<Rejection>, p: Play, next: seq<Rejection>) {
    || (p.ending.Broken? && p.currents != [] && Unfinished(p) && next == rejections)
    || (exists t, i: nat, fix :: Finishes(p, t) && next == rejections + [Rejection(t, fix)] &&
                                 Decides(validators, t, Transcript(rejections), i) &&
                                 validators[i](t, Transcript(rejections)) == Reject(fix))
  }

  /**
   An attempt either ends the run or leads to another one. A rejected result is what leads to one, as is a fault after
   some delta and before a result.
   */
  lemma EndedOrRetried(validators: seq<Validator>, rejections: seq<Rejection>, p: Play)
    ensures var step := StepOf(validators, rejections, p);
      && (step.Ends? ==> Ended(validators, rejections, p, step.outcome)
                         && forall next :: !Retried(validators, rejections, p, next))
      && (step.GoesOn? ==> Retried(validators, rejections, p, step.rejections)
                           && forall outcome :: !Ended(validators, rejections, p, outcome))
  {
    hide Transcript;
    if !p.ending.Raised? && HasResult(p) {
      var t := ResultOf(p);
      assert Finishes(p, t);
      Passed(validators, t, Transcript(rejections));
      if i: nat :| Decides(validators, t, Transcript(rejections), i) {
        OneDecides(validators, t, Transcript(rejections), i);
      }
    }
  }

  /** The rejections before each attempt of a run, as what the client streamed and the validators said made them. */
  ghost predicate Traced(client: Client, validators: seq<Validator>, histories: seq<seq<Rejection>>) {
    && histories != [] && histories[0] == []
    && forall n | 0 < n < |histories| ::
         StepOf(validators, histories[n - 1], PlayOf(client, histories[n - 1], n - 1)) == GoesOn(histories[n])
  }

  /** What a run yields up to the last of these histories: each attempt, and the history it leaves. */
  ghost function Shown(client: Client, histories: seq<seq<Rejection>>): seq<Snapshot> {
    if |histories| < 2 then []
    else
      var n := |histories| - 2;
      Shown(client, histories[..n + 1]) + Yielded(histories[n], PlayOf(client, histories[n], n).currents)
        + [History(histories[n + 1])]
  }

  lemma TracedNext(client: Client, validators: seq<Validator>, histories: seq<seq<Rejection>>, next: seq<Rejection>)
    requires Traced(client, validators, histories)
    requires var n := |histories| - 1; StepOf(validators, histories[n], PlayOf(client, histories[n], n)) == GoesOn(next)
    ensures Traced(client, validators, histories + [next])
  {
    hide StepOf, PlayOf;
    var more := histories + [next];
    assert forall n | 0 <= n < |histories| :: more[n] == histories[n];
  }

  lemma ShownNext(client: Client, histories: seq<seq<Rejection>>, next: seq<Rejection>)
    requires histories != []
    ensures var n := |histories| - 1;
      Shown(client, histories + [next]) ==
        Shown(client, histories) + Yielded(histories[n], PlayOf(client, histories[n], n).currents) + [History(next)]
  {
    hide PlayOf, Yielded, History;
    OneMore(histories, next);
    ShownOf(client, histories + [next], histories, next);
  }

  lemma OneMore<T>(list: seq<T>, next: T)
    ensures (list + [next])[..|list|] == list && (list + [next])[|list|] == next
  {
  }

  lemma ShownOf(client: Client, more: seq<seq<Rejection>>, histories: seq<seq<Rejection>>, next: seq<Rejection>)
    requires histories != [] && |more| == |histories| + 1 && more[..|histories|] == histories
      && more[|histories|] == next
    ensures var n := |histories| - 1;
      Shown(client, more) ==
        Shown(client, histories) + Yielded(histories[n], PlayOf(client, histories[n], n).currents) + [History(next)]
  {
    hide PlayOf, Yielded, History;
    assert more[|histories| - 1] == histories[|histories| - 1];
  }

  lemma NothingTraced(client: Client, validators: seq<Validator>)
    ensures Traced(client, validators, [[]]) && Shown(client, [[]]) == [] && History([]) == Snapshot([], [], false)
  {
  }

  /** The deltas of one attempt; `last` is what the last of them made. */
  method RunAttempt(currents: seq<Current>, history: Snapshot, before: seq<Snapshot>, ghost rejections: seq<Rejection>)
    returns (last: Option<Snapshot>, shown: seq<Snapshot>)
    requires history == History(rejections)
    ensures shown == before + Yielded(rejections, currents)
    ensures last == if currents == [] then None else Some(During(rejections, currents[|currents| - 1]))
  {
    last, shown := None, before;
    for i := 0 to |currents|
      invariant last == if i == 0 then None else Some(During(rejections, currents[i - 1]))
      invariant shown == before + Yielded(rejections, currents[..i])
    {
      var c := currents[i];
      var current := Snapshot(history.messages + [Assistant(c.turn)],
                              history.results + if c.finished then [c.turn] else [], c.finished);
      assert current == During(rejections, c);
      assert Yielded(rejections, currents[..i + 1]) == Yielded(rejections, currents[..i]) + [current];
      last, shown := Some(current), shown + [current];
    }
    assert currents[..|currents|] == currents;
  }

  /** One turn of the loop: what an attempt yields, and whether the run goes on after it. */
  method Attempt(client: Client, validators: seq<Validator>, n: nat, history: Snapshot, before: seq<Snapshot>,
                 rejections: seq<Rejection>)
    returns (shown: seq<Snapshot>, outcome: Option<Result<(), Error>>, next: Snapshot, fix: Option<string>,
             after: seq<Rejection>)
    requires history == History(rejections)
    ensures var p := PlayOf(client, rejections, n);
      && outcome.Some? ==>
        StepOf(validators, rejections, p) == Ends(outcome.value) && shown == before + Yielded(rejections, p.currents)
    ensures var p := PlayOf(client, rejections, n);
      outcome.None? ==>
        && StepOf(validators, rejections, p) == GoesOn(after) && next == History(after)
        && shown == before + Yielded(rejections, p.currents) + [next]
        && (fix.Some? <==> after != rejections)
        && (fix.Some? ==> after != [] && after[|after| - 1].fix == fix.value)
  {
    hide Yielded, Judged, Transcript, Turns;
    next, fix, after := history, None, rejections;
    var p := client(n, history.messages);
    var last;
    last, shown := RunAttempt(p.currents, history, before, rejections);
    if p.ending.Raised? {
      outcome := Some(Err(Unhandled));
      return;
    }
    if p.ending.Broken? {
      if last.None? {
        outcome := Some(Err(ProviderError));
        return;
      }
      if !last.value.finished {
        shown, outcome := shown + [history], None;
        return;
      }
    }
    if last.None? || !last.value.finished {
      outcome := Some(Err(NoResult));
      return;
    }
    ghost var c := p.currents[|p.currents| - 1];
    HistoryNext(rejections, last.value, c, "");
    var result := last.value.results[|last.value.results| - 1];
    var verdict := FirstRetryMessage(validators, result, history.messages);
    if verdict.Pass? {
      outcome := Some(Ok(()));
      return;
    }
    if verdict.Raise? {
      outcome := Some(Err(Unhandled));
      return;
    }
    HistoryNext(rejections, last.value, c, verdict.fix);
    next := Snapshot(history.messages + last.value.messages[|history.messages|..] + ToolStubs(result.calls)
                     + [User(verdict.fix)],
                     last.value.results, false);
    after, fix := rejections + [Rejection(result, verdict.fix)], Some(verdict.fix);
    shown, outcome := shown + [next], None;
  }

  lemma LastYielded(rejections: seq<Rejection>, p: Play)
    requires HasResult(p)
    ensures var shown := Yielded(rejections, p.currents);
      && shown != [] && shown[|shown| - 1] == During(rejections, Current(ResultOf(p), true))
      && shown[|shown| - 1].results == Turns(rejections) + [ResultOf(p)]
  {
  }

  function LastFix(rejections: seq<Rejection>): Option<string> {
    if rejections == [] then None else Some(rejections[|rejections| - 1].fix)
  }

  function Limit(maxAttempts: int): nat {
    if maxAttempts < 0 then 0 else maxAttempts
  }

  /**
   stream: `histories` has the rejections before each attempt. They and all that is yielded are as the client and
   the validators had it, attempt by attempt, until an attempt ends the run or the limit does.
   */
  method Stream(client: Client, validators: seq<Validator>, maxAttempts: int)
    returns (shown: seq<Snapshot>, outcome: Result<(), Error>, histories: seq<seq<Rejection>>)
    ensures Traced(client, validators, histories) && |histories| <= Limit(maxAttempts) + 1
    ensures var n := |histories| - 1;
      if n == Limit(maxAttempts) then
        shown == Shown(client, histories) && outcome == Err(RetryLimit(LastFix(histories[n])))
      else
        && StepOf(validators, histories[n], PlayOf(client, histories[n], n)) == Ends(outcome)
        && shown == Shown(client, histories) + Yielded(histories[n], PlayOf(client, histories[n], n).currents)
    ensures var n := |histories| - 1;
      && (n < Limit(maxAttempts) ==>
            && Ended(validators, histories[n], PlayOf(client, histories[n], n), outcome)
            && forall next :: !Retried(validators, histories[n], PlayOf(client, histories[n], n), next))
      && (forall m | 0 <= m < n :: Retried(validators, histories[m], PlayOf(client, histories[m], m), histories[m + 1]))
    ensures outcome.Ok? ==>
      var rejections := histories[|histories| - 1];
      && shown != [] && (var last := shown[|shown| - 1];
          && last.finished && last.results != []
          && last == During(rejections, Current(last.results[|last.results| - 1], true))
          && forall i | 0 <= i < |validators| ::
            validators[i](last.results[|last.results| - 1], Transcript(rejections)) == Pass)
  {
    hide Traced, Shown, StepOf, PlayOf, Yielded, History, Transcript, Turns, Ended, Retried;
    NothingTraced(client, validators);
    shown, histories := [], [[]];
    var history := Snapshot([], [], false);
    var lastFix: Option<string> := None;
    for n := 0 to Limit(maxAttempts)
      invariant |histories| == n + 1 && Traced(client, validators, histories)
      invariant history == History(histories[n]) && lastFix == LastFix(histories[n])
        && shown == Shown(client, histories)
      invariant forall m | 0 <= m < n ::
        Retried(validators, histories[m], PlayOf(client, histories[m], m), histories[m + 1])
    {
      EndedOrRetried(validators, histories[n], PlayOf(client, histories[n], n));
      var ended, next, fix, after;
      shown, ended, next, fix, after := Attempt(client, validators, n, history, shown, histories[n]);
      if ended.Some? {
        outcome := ended.value;
        NormalEnd(validators, histories[n], PlayOf(client, histories[n], n));
        if outcome.Ok? {
          LastYielded(histories[n], PlayOf(client, histories[n], n));
        }
        return;
      }
      TracedNext(client, validators, histories, after);
      ShownNext(client, histories, after);
      history, histories := next, histories + [after];
      if fix.Some? {
        lastFix := fix;
      }
    }
    outcome := Err(RetryLimit(lastFix));
  }

  /******* What a run keeps *******/

  /** An attempt leaves the rejections as they are or adds one. */
  lemma OneStep(client: Client, validators: seq<Validator>, histories: seq<seq<Rejection>>, n: nat)
    requires Traced(client, validators, histories) && n + 1 < |histories|
    ensures var p := PlayOf(client, histories[n], n);
      && StepOf(validators, histories[n], p) == GoesOn(histories[n + 1])
      && p.ending != Raised
      && (!HasResult(p) ==> histories[n + 1] == histories[n] && p.ending == Broken && p.currents != [])
      && (HasResult(p) ==>
            && histories[n + 1] != [] && |histories[n + 1]| == |histories[n]| + 1
            && histories[n + 1][..|histories[n]|] == histories[n]
            && histories[n + 1][|histories[n]|].turn == ResultOf(p)
            && Judged(validators, ResultOf(p), Transcript(histories[n])) ==
              Reject(histories[n + 1][|histories[n]|].fix))
  {
    hide PlayOf, Judged, Transcript;
    assert histories[n + 1 - 1] == histories[n];
  }

  /** The history only grows, by at most one rejection for each attempt. */
  lemma {:induction false} HistoryGrows(client: Client, validators: seq<Validator>, histories: seq<seq<Rejection>>,
                                        m: nat, n: nat)
    requires Traced(client, validators, histories) && m <= n < |histories|
    ensures |histories[m]| <= |histories[n]| <= |histories[m]| + (n - m)
      && histories[n][..|histories[m]|] == histories[m]
    decreases n
  {
    hide Traced, StepOf, PlayOf, Judged, Transcript, HasResult, ResultOf;
    if m < n {
      HistoryGrows(client, validators, histories, m, n - 1);
      OneStep(client, validators, histories, n - 1);
    }
  }

  /**
   Each rejected turn is the result of some attempt, which was made with exactly the rejections before it and
   whose validators rejected it with this message.
   */
  lemma {:induction false} RejectionDelivered(client: Client, validators: seq<Validator>,
                                              histories: seq<seq<Rejection>>, n: nat, i: nat)
    returns (k: nat)
    requires Traced(client, validators, histories) && n < |histories| && i < |histories[n]|
    ensures k < n && histories[k] == histories[n][..i]
    ensures var p := PlayOf(client, histories[k], k);
      && HasResult(p) && ResultOf(p) == histories[n][i].turn
      && Judged(validators, ResultOf(p), Transcript(histories[k])) == Reject(histories[n][i].fix)
    decreases n
  {
    hide StepOf, PlayOf, Judged, Transcript, HasResult, ResultOf;
    OneStep(client, validators, histories, n - 1);
    if i < |histories[n - 1]| {
      k := RejectionDelivered(client, validators, histories, n - 1, i);
      HistoryGrows(client, validators, histories, n - 1, n);
      assert histories[n][..i] == histories[n - 1][..i];
    } else {
      k := n - 1;
    }
  }

  /**
   A provider's fault before a result restores the history exactly: the attempt's deltas are followed by the history
   that was there before it, and the next attempt sends the same messages. A fault before any delta ends the run
   with nothing more yielded.
   */
  lemma FaultRestores(client: Client, validators: seq<Validator>, histories: seq<seq<Rejection>>, n: nat)
    requires Traced(client, validators, histories) && n < |histories|
    requires var p := PlayOf(client, histories[n], n); p.ending == Broken && !HasResult(p)
    ensures var p := PlayOf(client, histories[n], n);
      if p.currents == [] then
        && StepOf(validators, histories[n], p) == Ends(Err(ProviderError)) && Yielded(histories[n], p.currents) == []
        && n + 1 == |histories|
      else
        && StepOf(validators, histories[n], p) == GoesOn(histories[n])
        && (n + 1 < |histories| ==>
              && histories[n + 1] == histories[n]
              && Shown(client, histories[..n + 2]) ==
                   Shown(client, histories[..n + 1]) + Yielded(histories[n], p.currents) + [History(histories[n])])
  {
    if n + 1 < |histories| {
      OneStep(client, validators, histories, n);
      assert histories[..n + 2][..n + 1] == histories[..n + 1];
    }
  }

  /** What is yielded: the history before some attempt, or that history and a turn the attempt streamed. */
  ghost predicate Extends(client: Client, histories: seq<seq<Rejection>>, s: Snapshot, n: nat) {
    && n < |histories|
    && (|| s == History(histories[n])
        || exists c :: c in PlayOf(client, histories[n], n).currents && s == During(histories[n], c))
  }

  /** Every snapshot of a run extends the history of its time, and no later one a shorter history. */
  lemma {:induction false} ShownExtends(client: Client, histories: seq<seq<Rejection>>, i: nat, j: nat)
    returns (m: nat, n: nat)
    requires i <= j < |Shown(client, histories)|
    ensures Extends(client, histories, Shown(client, histories)[i], m)
    ensures Extends(client, histories, Shown(client, histories)[j], n) && m <= n
    decreases |histories|
  {
    hide Extends;
    var k := |histories| - 2;
    var front := histories[..k + 1];
    if j < |Shown(client, front)| {
      m, n := ShownExtends(client, front, i, j);
      ExtendsMore(client, front, histories, Shown(client, front)[i], m);
      ExtendsMore(client, front, histories, Shown(client, front)[j], n);
    } else {
      n := ShownLast(client, histories, j);
      if i < |Shown(client, front)| {
        var same;
        m, same := ShownExtends(client, front, i, i);
        ExtendsMore(client, front, histories, Shown(client, front)[i], m);
      } else {
        m := ShownLast(client, histories, i);
      }
    }
  }

  lemma ExtendsMore(client: Client, front: seq<seq<Rejection>>, histories: seq<seq<Rejection>>, s: Snapshot, n: nat)
    requires front <= histories && Extends(client, front, s, n)
    ensures Extends(client, histories, s, n) && n < |front|
  {
  }

  /** What the last attempt before the end of these histories yields. */
  lemma ShownLast(client: Client, histories: seq<seq<Rejection>>, i: nat) returns (n: nat)
    requires |histories| >= 2 && |Shown(client, histories[..|histories| - 1])| <= i < |Shown(client, histories)|
    ensures Extends(client, histories, Shown(client, histories)[i], n)
    ensures |histories| - 2 <= n == |histories| - (if i + 1 == |Shown(client, histories)| then 1 else 2)
  {
    hide Transcript, Turns;
    var k := |histories| - 2;
    var front, currents := Shown(client, histories[..k + 1]), PlayOf(client, histories[k], k).currents;
    if i + 1 < |Shown(client, histories)| {
      assert Shown(client, histories)[i] == During(histories[k], currents[i - |front|]);
      n := k;
    } else {
      n := k + 1;
    }
  }

  /** A run ends normally just where an attempt has a result that every validator passes. */
  lemma NormalEnd(validators: seq<Validator>, rejections: seq<Rejection>, p: Play)
    ensures StepOf(validators, rejections, p).Ends? && StepOf(validators, rejections, p).outcome.Ok? <==>
      && !p.ending.Raised? && HasResult(p)
      && forall i | 0 <= i < |validators| :: validators[i](ResultOf(p), Transcript(rejections)) == Pass
    ensures HasResult(p) ==>
      Yielded(rejections, p.currents)[|p.currents| - 1].results == Turns(rejections) + [ResultOf(p)]
  {
    if HasResult(p) {
      Passed(validators, ResultOf(p), Transcript(rejections));
    }
  }
}
