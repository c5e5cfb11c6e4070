/**
 Streamed completions: the state machine that holds the last delta of a provider's stream back until its
 finish reason is settled, and the accumulator that folds deltas into a message.
 */
module ChatStream {
  import opened Wrappers

  datatype FinishReason = StopReason | LengthReason | ToolCallsReason | FunctionCallReason | ContentFilterReason
  datatype CallDelta = CallDelta(index: nat, id: Option<string>, name: Option<string>, arguments: Option<string>)
  datatype Meta = Meta(id: Option<string>, model: Option<string>, created: Option<int>, usage: Option<int>,
                       fingerprint: Option<string>, tier: Option<string>)
  datatype Delta = Delta(meta: Meta, choice: int, content: Option<string>, refusal: Option<string>,
                         reasoning: Option<string>, call: Option<CallDelta>, finish: Option<FinishReason>)

  const NO_META := Meta(None, None, None, None, None, None)

  function Or<T>(a: Option<T>, b: Option<T>): Option<T> {
    if a.Some? then a else b
  }

  /** The later of two values of each kind of metadata. */
  function Later(old_: Meta, new_: Meta): Meta {
    Meta(Or(new_.id, old_.id), Or(new_.model, old_.model), Or(new_.created, old_.created), Or(new_.usage, old_.usage),
         Or(new_.fingerprint, old_.fingerprint), Or(new_.tier, old_.tier))
  }

  predicate HasOutput(d: Delta) {
    d.content.Some? || d.refusal.Some? || d.reasoning.Some? || d.call.Some?
  }

  function TerminalReason(finish: Option<FinishReason>, sawCalls: bool, sawOutput: bool): Option<FinishReason> {
    if sawCalls then Some(ToolCallsReason)
    else if finish == Some(ToolCallsReason) || finish == Some(FunctionCallReason) then Some(StopReason)
    else if sawOutput && finish.None? then Some(StopReason)
    else finish
  }

  /******* What deltas add up to *******/

  datatype Call = Call(id: Option<string>, name: Option<string>, arguments: string)
  datatype Total = Total(meta: Meta, content: Option<string>, refusal: Option<string>, reasoning: string,
                         calls: map<nat, Call>, finish: Option<FinishReason>)

  const NOTHING := Total(NO_META, None, None, "", map[], None)
  const NO_CALL := Call(None, None, "")

  function Append(text: Option<string>, delta: Option<string>): Option<string> {
    if delta.None? then text else Some((if text.Some? then text.value else "") + delta.value)
  }

  function AddCall(c: Call, d: CallDelta): Call {
    Call(Or(d.id, c.id), Or(d.name, c.name), c.arguments + if d.arguments.Some? then d.arguments.value else "")
  }

  function CallAt(calls: map<nat, Call>, i: nat): Call {
    if i in calls then calls[i] else NO_CALL
  }

  function Add(t: Total, d: Delta): Total {
    Total(Later(t.meta, d.meta), Append(t.content, d.content), Append(t.refusal, d.refusal),
          t.reasoning + (if d.reasoning.Some? then d.reasoning.value else ""),
          if d.call.None? then t.calls
          else t.calls[d.call.value.index := AddCall(CallAt(t.calls, d.call.value.index), d.call.value)],
          Or(d.finish, t.finish))
  }

  function Sum(ds: seq<Delta>): Total {
    if ds == [] then NOTHING else Add(Sum(ds[..|ds| - 1]), ds[|ds| - 1])
  }

  lemma SumNext(ds: seq<Delta>, d: Delta)
    ensures Sum(ds + [d]) == Add(Sum(ds), d)
  {
    assert (ds + [d])[..|ds|] == ds;
  }

  /** The deltas of one call. */
  function CallDeltas(ds: seq<Delta>, i: nat): seq<CallDelta> {
    if ds == [] then []
    else
      var c := ds[|ds| - 1].call;
      CallDeltas(ds[..|ds| - 1], i) + if c.Some? && c.value.index == i then [c.value] else []
  }

  function SumCalls(cs: seq<CallDelta>): Call {
    if cs == [] then NO_CALL else AddCall(SumCalls(cs[..|cs| - 1]), cs[|cs| - 1])
  }

  /** However the deltas of several calls interleave, each call is made of its own alone, in their order. */
  lemma {:induction false} CallsApart(ds: seq<Delta>, i: nat)
    ensures i in Sum(ds).calls <==> CallDeltas(ds, i) != []
    ensures CallAt(Sum(ds).calls, i) == SumCalls(CallDeltas(ds, i))
    decreases |ds|
  {
    if ds != [] {
      var front, c := ds[..|ds| - 1], ds[|ds| - 1].call;
      CallsApart(front, i);
      if c.Some? && c.value.index == i {
        assert (CallDeltas(front, i) + [c.value])[..|CallDeltas(front, i)|] == CallDeltas(front, i);
      } else {
        assert CallDeltas(front, i) + [] == CallDeltas(front, i);
      }
    }
  }

  function TextIn(text: Option<string>): string {
    if text.Some? then text.value else ""
  }

  lemma SumNothing(ds: seq<Delta>)
    ensures Sum([]) == NOTHING && SumCalls([]) == NO_CALL && ds + [] == ds
  {
  }

  /** One delta more, behind two streams in a row. */
  lemma OneMore(first: seq<Delta>, second: seq<Delta>)
    requires second != []
    ensures var (front, last) := (second[..|second| - 1], second[|second| - 1]);
      Sum(second) == Add(Sum(front), last) && Sum(first + second) == Add(Sum(first + front), last)
  {
    var front, last := second[..|second| - 1], second[|second| - 1];
    assert first + second == (first + front) + [last];
    SumNext(first + front, last);
  }

  lemma Appended(a: Option<string>, b: Option<string>, c: Option<string>, delta: Option<string>)
    requires TextIn(c) == TextIn(a) + TextIn(b)
    ensures TextIn(Append(c, delta)) == TextIn(a) + TextIn(Append(b, delta))
  {
    if delta.Some? {
      assert (TextIn(a) + TextIn(b)) + delta.value == TextIn(a) + (TextIn(b) + delta.value);
    }
  }

  /** The text of two streams in a row is that of the first and then that of the second, of each kind. */
  lemma {:induction false} SumTogether(first: seq<Delta>, second: seq<Delta>)
    ensures TextIn(Sum(first + second).content) == TextIn(Sum(first).content) + TextIn(Sum(second).content)
    ensures TextIn(Sum(first + second).refusal) == TextIn(Sum(first).refusal) + TextIn(Sum(second).refusal)
    ensures Sum(first + second).reasoning == Sum(first).reasoning + Sum(second).reasoning
    decreases |second|
  {
    hide Sum, Append, TextIn, Later, AddCall;
    if second == [] {
      SumNothing(first);
      NoText();
    } else {
      var front, last := second[..|second| - 1], second[|second| - 1];
      SumTogether(first, front);
      OneMore(first, second);
      Appended(Sum(first).content, Sum(front).content, Sum(first + front).content, last.content);
      Appended(Sum(first).refusal, Sum(front).refusal, Sum(first + front).refusal, last.refusal);
      var r := if last.reasoning.Some? then last.reasoning.value else "";
      assert (Sum(first).reasoning + Sum(front).reasoning) + r == Sum(first).reasoning + (Sum(front).reasoning + r);
    }
  }

  lemma NoText()
    ensures TextIn(None) == ""
  {
  }

  /** One delta alone is what it says. */
  lemma SumOfOne(d: Delta)
    ensures var t := Sum([d]);
      && t.meta == d.meta && t.content == d.content && t.refusal == d.refusal && t.finish == d.finish
      && t.reasoning == TextIn(d.reasoning)
      && (d.call.None? ==> t.calls == map[])
      && (d.call.Some? ==>
            var c := d.call.value; t.calls == map[c.index := Call(c.id, c.name, TextIn(c.arguments))])
  {
    SumNothing([]);
    SumNext([], d);
    assert [] + [d] == [d];
    assert Sum([d]) == Add(NOTHING, d);
    assert forall s: string :: "" + s == s;
  }

  /** The arguments of a call are put together in order, and of its ids and names the last counts. */
  lemma {:induction false} CallTogether(first: seq<CallDelta>, second: seq<CallDelta>)
    ensures var (a, b, c) := (SumCalls(first), SumCalls(second), SumCalls(first + second));
      && c.arguments == a.arguments + b.arguments
      && c.id == (if b.id.Some? then b.id else a.id) && c.name == (if b.name.Some? then b.name else a.name)
    decreases |second|
  {
    if second == [] {
      assert first + second == first;
    } else {
      var front, last := second[..|second| - 1], second[|second| - 1];
      CallTogether(first, front);
      assert (first + second)[..|first + second| - 1] == first + front;
    }
  }

  /** Of each kind of metadata the last that is given counts. */
  lemma {:induction false} MetaTogether(first: seq<Delta>, second: seq<Delta>)
    ensures Sum(first + second).meta == LastGiven(Sum(first).meta, Sum(second).meta)
    decreases |second|
  {
    hide Sum, Append, AddCall;
    if second == [] {
      SumNothing(first);
    } else {
      MetaTogether(first, second[..|second| - 1]);
      OneMore(first, second);
    }
  }

  /** The metadata of the second, where it is given, and else that of the first. */
  ghost function LastGiven(a: Meta, b: Meta): Meta {
    Meta(if b.id.Some? then b.id else a.id, if b.model.Some? then b.model else a.model,
         if b.created.Some? then b.created else a.created, if b.usage.Some? then b.usage else a.usage,
         if b.fingerprint.Some? then b.fingerprint else a.fingerprint, if b.tier.Some? then b.tier else a.tier)
  }

  /** What a delta says of a call. */
  function CallOf(d: Delta): seq<CallDelta> {
    if d.call.Some? then [d.call.value] else []
  }

  /** Everything that is said of calls, in order. */
  function CallSeq(ds: seq<Delta>): seq<CallDelta> {
    if ds == [] then [] else CallSeq(ds[..|ds| - 1]) + CallOf(ds[|ds| - 1])
  }

  lemma CallSeqNext(ds: seq<Delta>, d: Delta)
    ensures CallSeq(ds + [d]) == CallSeq(ds) + CallOf(d)
    ensures d.call.None? ==> CallSeq(ds + [d]) == CallSeq(ds)
  {
    assert (ds + [d])[..|ds|] == ds;
    assert d.call.None? ==> CallSeq(ds) + [] == CallSeq(ds);
  }

  /******* The stream state *******/

  predicate Output(ds: seq<Delta>) {
    exists i :: 0 <= i < |ds| && HasOutput(ds[i])
  }

  predicate Calls(ds: seq<Delta>) {
    exists i :: 0 <= i < |ds| && ds[i].call.Some?
  }

  predicate Finishes(ds: seq<Delta>) {
    exists i :: 0 <= i < |ds| && ds[i].finish.Some?
  }

  /** Nothing but metadata follows a finish reason. */
  predicate Accepted(ds: seq<Delta>) {
    forall i, j :: 0 <= i < j < |ds| && ds[i].finish.Some? ==> ds[j].finish.None? && !HasOutput(ds[j])
  }

  /**
   The reason a stream ends with: tool calls if there were any; or else the one it gives, unless that speaks of calls;
   or else that it stopped.
   */
  predicate Settles(ds: seq<Delta>, reason: FinishReason) {
    && (Calls(ds) ==> reason == ToolCallsReason)
    && (!Calls(ds) && !Finishes(ds) ==> reason == StopReason)
    && forall i | 0 <= i < |ds| && ds[i].finish.Some? && !Calls(ds) ::
         reason == if ds[i].finish.value in {ToolCallsReason, FunctionCallReason} then StopReason
                   else ds[i].finish.value
  }

  /** Of an acceptable stream the one finish reason it gives is that of its sum. */
  lemma {:induction false} OneFinish(ds: seq<Delta>, i: nat)
    requires Accepted(ds) && i < |ds| && ds[i].finish.Some?
    ensures Sum(ds).finish == ds[i].finish
    decreases |ds|
  {
    var n := |ds| - 1;
    if i < n {
      assert ds[..n][i] == ds[i];
      OneFinish(ds[..n], i);
    }
  }

  lemma ReasonSettles(ds: seq<Delta>)
    requires Accepted(ds) && (Output(ds) || Finishes(ds))
    ensures var reason := TerminalReason(Sum(ds).finish, Calls(ds), Output(ds));
      reason.Some? && Settles(ds, reason.value)
  {
    hide Sum, Calls, Output, Accepted;
    forall i: nat | i < |ds| && ds[i].finish.Some? ensures Sum(ds).finish == ds[i].finish {
      OneFinish(ds, i);
    }
    if !Finishes(ds) {
      FinishSum(ds);
    }
  }

  datatype Error = SecondFinish | OutputAfterFinish | IncompleteStream

  class StreamState {
    var meta: Meta
    var choice: int
    var sawOutput: bool
    var sawCalls: bool
    var sawFinish: bool
    var terminal: Option<Delta>

    /** The deltas taken in, and those handed on. */
    ghost var taken: seq<Delta>
    ghost var handed: seq<Delta>

    ghost predicate Valid()
      reads this
    {
      && Accepted(taken)
      && sawOutput == Output(taken) && sawCalls == Calls(taken) && sawFinish == Finishes(taken) == terminal.Some?
      && meta == Sum(taken).meta.(usage := None)
      && !Finishes(handed)
      && CallSeq(if terminal.Some? then handed + [terminal.value] else handed) == CallSeq(taken)
      && (terminal.None? ==> Sum(handed) == Sum(taken))
      && (terminal.Some? ==>
            && terminal.value.finish == TerminalReason(Sum(taken).finish, sawCalls, sawOutput)
            && Sum(taken).finish.Some?
            && Sum(handed + [terminal.value]) == Sum(taken).(finish := terminal.value.finish))
    }

    constructor ()
      ensures Valid() && taken == [] && handed == []
    {
      meta, choice, sawOutput, sawCalls, sawFinish, terminal := NO_META, 0, false, false, false, None;
      taken, handed := [], [];
    }

    method Track(d: Delta)
      modifies this`meta, this`choice, this`sawOutput, this`sawCalls, this`sawFinish
      ensures meta == Later(old(meta), d.meta.(usage := None))
      ensures sawOutput == (old(sawOutput) || HasOutput(d)) && sawCalls == (old(sawCalls) || d.call.Some?)
      ensures sawFinish == (old(sawFinish) || d.finish.Some?)
    {
      meta := Later(meta, d.meta.(usage := None));
      choice := d.choice;
      sawOutput := sawOutput || HasOutput(d);
      sawCalls := sawCalls || d.call.Some?;
      sawFinish := sawFinish || d.finish.Some?;
    }

    /** Hands a delta on, holds it back, or refuses it. */
    method Apply(d: Delta) returns (r: Result<Option<Delta>, Error>)
      requires Valid()
      modifies this
      ensures r.Ok? <==> Accepted(old(taken) + [d])
      ensures r.Ok? ==>
        Valid() && taken == old(taken) + [d] && handed == old(handed) + if r.value.Some? then [r.value.value] else []
      ensures r.Err? ==> r.error == if d.finish.Some? then SecondFinish else OutputAfterFinish
    {
      TakenNext(taken, d);
      SumNext(taken, d);
      hide Sum, Add, Accepted, Output, Calls, Finishes, CallSeq;
      AddMetas(Sum(taken), d);
      CallSeqNext(taken, d);
      Track(d);
      var normalized := if d.finish.None? then d else d.(finish := TerminalReason(d.finish, sawCalls, sawOutput));
      if terminal.None? {
        CallSeqNext(handed, normalized);
        taken := taken + [d];
        if normalized.finish.Some? {
          SumNext(handed, normalized);
          AddFinish(Sum(handed), d, normalized.finish);
          terminal := Some(normalized);
          return Ok(None);
        }
        SumNext(handed, normalized);
        HandedNext(handed, normalized);
        handed := handed + [normalized];
        return Ok(Some(normalized));
      }
      if d.finish.None? && !HasOutput(d) {
        AddMeta(handed, terminal.value, d, Sum(taken));
        CallSeqNext(handed, terminal.value);
        CallSeqNext(handed, terminal.value.(meta := Later(terminal.value.meta, d.meta)));
        terminal := Some(terminal.value.(meta := Later(terminal.value.meta, d.meta)));
        taken := taken + [d];
        return Ok(None);
      }
      if d.finish.Some? {
        return Err(SecondFinish);
      }
      return Err(OutputAfterFinish);
    }

    /** The delta held back, or else the finish reason that can be inferred. */
    method Finish() returns (last: Option<Delta>)
      requires Valid()
      modifies this`terminal
      ensures last.Some? <==> Output(taken) || Finishes(taken)
      ensures last.Some? ==>
        && last.value.finish.Some? && (last.value.finish == Some(ToolCallsReason) <==> Calls(taken))
        && Settles(taken, last.value.finish.value)
        && Sum(handed + [last.value]) == Sum(taken).(finish := last.value.finish)
        && CallSeq(handed + [last.value]) == CallSeq(taken)
    {
      hide Sum, CallSeq, Accepted, Settles;
      if Output(taken) || Finishes(taken) {
        ReasonSettles(taken);
        FinishSum(taken);
      }
      if terminal.Some? {
        last := terminal;
        terminal := None;
        return;
      }
      var reason := TerminalReason(None, sawCalls, sawOutput);
      CallsAreOutput(taken);
      if sawFinish || reason.None? {
        return None;
      }
      last := Some(Delta(meta, choice, None, None, None, None, reason));
      SumNext(handed, last.value);
      CallSeqNext(handed, last.value);
    }
  }

  lemma TakenNext(ds: seq<Delta>, d: Delta)
    ensures Output(ds + [d]) <==> Output(ds) || HasOutput(d)
    ensures Calls(ds + [d]) <==> Calls(ds) || d.call.Some?
    ensures Finishes(ds + [d]) <==> Finishes(ds) || d.finish.Some?
    ensures Accepted(ds) ==> (Accepted(ds + [d]) <==> !Finishes(ds) || (d.finish.None? && !HasOutput(d)))
    ensures Sum(ds).finish.Some? <==> Finishes(ds)
  {
    var more := ds + [d];
    assert more[|ds|] == d && forall i | 0 <= i < |ds| :: more[i] == ds[i];
    FinishSum(ds);
  }

  lemma {:induction false} FinishSum(ds: seq<Delta>)
    ensures Sum(ds).finish.Some? <==> Finishes(ds)
    decreases |ds|
  {
    if ds != [] {
      var front := ds[..|ds| - 1];
      FinishSum(front);
      assert forall i | 0 <= i < |front| :: front[i] == ds[i];
    }
  }

  lemma AddFinish(t: Total, d: Delta, f: Option<FinishReason>)
    requires d.finish.Some? && f.Some?
    ensures Add(t, d.(finish := f)) == Add(t, d).(finish := f) && Add(t, d).finish == d.finish
  {
  }

  lemma AddMetas(t: Total, d: Delta)
    ensures Add(t, d).meta.(usage := None) == Later(t.meta.(usage := None), d.meta.(usage := None))
    ensures d.finish.None? ==> Add(t, d).finish == t.finish
  {
  }

  /** Metadata that comes late is merged into the delta held back. */
  lemma AddMeta(handed: seq<Delta>, held: Delta, d: Delta, t: Total)
    requires d.finish.None? && !HasOutput(d) && Sum(handed + [held]) == t.(finish := held.finish) && held.finish.Some?
    ensures var merged := held.(meta := Later(held.meta, d.meta));
      Sum(handed + [merged]) == Add(t, d).(finish := held.finish) && Add(t, d).finish == t.finish
  {
    SumNext(handed, held);
    SumNext(handed, held.(meta := Later(held.meta, d.meta)));
  }

  lemma HandedNext(ds: seq<Delta>, d: Delta)
    requires !Finishes(ds) && d.finish.None?
    ensures !Finishes(ds + [d])
  {
  }

  lemma CallsAreOutput(ds: seq<Delta>)
    ensures Calls(ds) ==> Output(ds)
  {
    if Calls(ds) {
      var i :| 0 <= i < |ds| && ds[i].call.Some?;
      assert HasOutput(ds[i]);
    }
  }

  /** One finish reason, at the end, saying tool calls just when there were any. */
  predicate Finished(ds: seq<Delta>, calls: bool) {
    && ds != [] && !Finishes(ds[..|ds| - 1]) && ds[|ds| - 1].finish.Some?
    && (ds[|ds| - 1].finish == Some(ToolCallsReason) <==> calls)
  }

  /**
   A whole stream: accepted exactly when nothing but metadata follows a finish reason and there is a finish
   reason or output to infer one from; what is handed on then adds up to what came in.
   */
  method Transduce(ds: seq<Delta>) returns (r: Result<seq<Delta>, Error>)
    ensures r.Ok? <==> Accepted(ds) && (Output(ds) || Finishes(ds))
    ensures Accepted(ds) && r.Err? ==> r.error == IncompleteStream
    ensures r.Ok? ==> Finished(r.value, Calls(ds)) && Sum(r.value) == Sum(ds).(finish := Sum(r.value).finish)
    ensures r.Ok? ==> CallSeq(r.value) == CallSeq(ds)
    ensures r.Ok? ==> Settles(ds, r.value[|r.value| - 1].finish.value)
  {
    hide Sum, CallSeq, Accepted, Output, Settles;
    var state := new StreamState();
    var out := [];
    for i := 0 to |ds|
      invariant fresh(state) && state.Valid() && state.taken == ds[..i] && state.handed == out
    {
      assert ds[..i] + [ds[i]] == ds[..i + 1];
      var one := state.Apply(ds[i]);
      if one.Err? {
        NotAccepted(ds, i + 1);
        return Err(one.error);
      }
      if one.value.Some? {
        out := out + [one.value.value];
      }
    }
    assert ds[..|ds|] == ds;
    var last := state.Finish();
    if last.None? {
      return Err(IncompleteStream);
    }
    assert (out + [last.value])[..|out|] == out;
    SumNext(out, last.value);
    r := Ok(out + [last.value]);
  }

  lemma NotAccepted(ds: seq<Delta>, n: nat)
    requires n <= |ds| && !Accepted(ds[..n])
    ensures !Accepted(ds)
  {
  }

  /******* The accumulator *******/

  function Join(parts: seq<string>): string {
    if parts == [] then "" else Join(parts[..|parts| - 1]) + parts[|parts| - 1]
  }

  lemma JoinNext(parts: seq<string>, part: string)
    ensures Join(parts + [part]) == Join(parts) + part
  {
    assert (parts + [part])[..|parts|] == parts;
  }

  datatype ToolCall = ToolCall(id: Option<string>, name: Option<string>, parts: seq<string>)

  function Joined(c: ToolCall): Call {
    Call(c.id, c.name, Join(c.parts))
  }

  /** _ToolCall.apply */
  function Applied(c: ToolCall, d: CallDelta): ToolCall {
    ToolCall(Or(d.id, c.id), Or(d.name, c.name), c.parts + if d.arguments.Some? then [d.arguments.value] else [])
  }

  lemma JoinedNext(c: ToolCall, d: CallDelta)
    ensures Joined(Applied(c, d)) == AddCall(Joined(c), d)
  {
    if d.arguments.Some? {
      JoinNext(c.parts, d.arguments.value);
    } else {
      assert c.parts + [] == c.parts;
      JoinNothing(c.parts);
    }
  }

  lemma JoinNothing(parts: seq<string>)
    ensures Join(parts) + "" == Join(parts) && Join([]) == ""
  {
  }

  function TextOf(parts: seq<string>, has: bool): Option<string> {
    if has then Some(Join(parts)) else None
  }

  lemma TextNext(parts: seq<string>, has: bool, part: string)
    requires parts != [] ==> has
    ensures TextOf(parts + [part], true) == Append(TextOf(parts, has), Some(part))
  {
    JoinNext(parts, part);
    if !has {
      assert Join(parts) == "" && "" + part == part;
    }
  }

  class Accumulator {
    var meta: Meta
    var content: seq<string>
    var hasContent: bool
    var refusal: seq<string>
    var hasRefusal: bool
    var reasoning: seq<string>
    var calls: map<nat, ToolCall>
    var finish: Option<FinishReason>

    ghost predicate HoldsText(t: Total)
      reads this`content, this`hasContent, this`refusal, this`hasRefusal, this`reasoning
    {
      && t.content == TextOf(content, hasContent) && (content != [] ==> hasContent)
      && t.refusal == TextOf(refusal, hasRefusal) && (refusal != [] ==> hasRefusal)
      && t.reasoning == Join(reasoning)
    }

    ghost predicate HoldsCalls(t: Total)
      reads this`calls
    {
      && (forall i | i in calls :: i in t.calls && Joined(calls[i]) == t.calls[i])
      && (forall i | i in t.calls :: i in calls)
    }

    /** The parts kept are those of this total. */
    ghost predicate Holds(t: Total)
      reads this
    {
      meta == t.meta && finish == t.finish && HoldsText(t) && HoldsCalls(t)
    }

    constructor ()
      ensures Holds(NOTHING)
    {
      meta, content, hasContent, refusal, hasRefusal := NO_META, [], false, [], false;
      reasoning, calls, finish := [], map[], None;
    }

    method ApplyText(d: Delta, ghost t: Total)
      requires HoldsText(t)
      modifies this`content, this`hasContent, this`refusal, this`hasRefusal, this`reasoning
      ensures HoldsText(Add(t, d))
    {
      hide Join, TextOf, Later, AddCall, CallAt;
      JoinNothing(reasoning);
      if d.content.Some? {
        TextNext(content, hasContent, d.content.value);
        hasContent, content := true, content + [d.content.value];
      }
      if d.refusal.Some? {
        TextNext(refusal, hasRefusal, d.refusal.value);
        hasRefusal, refusal := true, refusal + [d.refusal.value];
      }
      if d.reasoning.Some? {
        JoinNext(reasoning, d.reasoning.value);
        reasoning := reasoning + [d.reasoning.value];
      }
    }

    method ApplyCall(d: CallDelta, ghost t: Total)
      requires HoldsCalls(t)
      modifies this`calls
      ensures HoldsCalls(t.(calls := t.calls[d.index := AddCall(CallAt(t.calls, d.index), d)]))
    {
      var call := if d.index in calls then calls[d.index] else ToolCall(None, None, []);
      JoinedNext(call, d);
      JoinNothing([]);
      calls := calls[d.index := Applied(call, d)];
    }

    /**
     Adds a delta, and makes the message so far; a delta that finishes makes the result too, which names the model.
     */
    method Apply(d: Delta, ghost t: Total) returns (r: Result<Snapshot, Failure>)
      requires Holds(t)
      modifies this
      ensures Holds(Add(t, d)) && r == SnapshotOf(Add(t, d), d.finish.Some?)
    {
      meta := Later(meta, d.meta);
      ApplyText(d, t);
      if d.call.Some? {
        ApplyCall(d.call.value, t);
      }
      finish := Or(d.finish, finish);
      if d.finish.Some? && meta.model.None? {
        return Err(NoModel);
      }
      var message := Build(Add(t, d));
      if message.Err? {
        return Err(message.error);
      }
      r := Ok(Snapshot(message.value,
                       if d.finish.Some? then Some(Completion(meta, finish.value, message.value)) else None));
    }

    /** The message so far, before its arguments are repaired; calls in order of index, each with id and name. */
    method Build(ghost t: Total) returns (r: Result<Message, Failure>)
      requires Holds(t)
      ensures r == MessageOf(t)
    {
      hide Join;
      ghost var top := TopOf(t.calls.Keys);
      Bounded(calls.Keys);
      var bound: nat :| Bounds(calls.Keys, bound);
      var list := [];
      for i := 0 to bound
        invariant Blame(t.calls, i).None? && list == InOrder(t.calls, i)
      {
        if i in calls {
          var c := calls[i];
          if c.id.None? || c.name.None? {
            r := Err(if c.id.None? then NoId else NoName);
            BlameStays(t.calls, i + 1, top);
            return;
          }
          list := list + [Call(c.id, c.name, Join(c.parts))];
        }
      }
      SameOrder(t.calls, bound, top);
      r := Ok(Message(TextOf(content, hasContent), TextOf(refusal, hasRefusal),
                      if Join(reasoning) == "" then None else Some(Join(reasoning)), list));
    }
  }

  datatype Message = Message(content: Option<string>, refusal: Option<string>, reasoning: Option<string>,
                             calls: seq<Call>)
  datatype Completion = Completion(meta: Meta, finish: FinishReason, message: Message)
  datatype Snapshot = Snapshot(message: Message, result: Option<Completion>)
  datatype Failure = NoId | NoName | NoModel

  /** The calls with an index below `n`, in order of index. */
  function InOrder(calls: map<nat, Call>, n: nat): seq<Call> {
    if n == 0 then [] else InOrder(calls, n - 1) + if n - 1 in calls then [calls[n - 1]] else []
  }

  /** What the first call, by index, lacks that lacks something. */
  function Blame(calls: map<nat, Call>, n: nat): Option<Failure> {
    if n == 0 then None
    else if Blame(calls, n - 1).Some? || n - 1 !in calls then Blame(calls, n - 1)
    else if calls[n - 1].id.None? then Some(NoId)
    else if calls[n - 1].name.None? then Some(NoName)
    else None
  }

  predicate Complete(calls: map<nat, Call>) {
    forall i | i in calls :: calls[i].id.Some? && calls[i].name.Some?
  }

  predicate Bounds(s: set<nat>, n: nat) {
    forall i | i in s :: i < n
  }

  lemma Bounded(s: set<nat>)
    ensures exists n: nat :: Bounds(s, n)
  {
    if s == {} {
      assert Bounds(s, 0);
    } else {
      var x :| x in s;
      Bounded(s - {x});
      var n: nat :| Bounds(s - {x}, n);
      forall i | i in s ensures i < n + x + 1 {
        assert i == x || i in s - {x};
      }
      assert Bounds(s, n + x + 1);
    }
  }

  ghost function TopOf(s: set<nat>): (n: nat)
    ensures Bounds(s, n)
  {
    Bounded(s);
    var n: nat :| Bounds(s, n);
    n
  }

  lemma SameOrder(calls: map<nat, Call>, m: nat, n: nat)
    requires Bounds(calls.Keys, m) && Bounds(calls.Keys, n)
    ensures InOrder(calls, m) == InOrder(calls, n)
    ensures Blame(calls, m) == Blame(calls, n)
    decreases m + n
  {
    if m > n {
      assert m - 1 !in calls;
      SameOrder(calls, m - 1, n);
    } else if n > m {
      assert n - 1 !in calls;
      SameOrder(calls, m, n - 1);
    }
  }

  lemma {:induction false} BlameStays(calls: map<nat, Call>, m: nat, n: nat)
    requires m <= n && Blame(calls, m).Some?
    ensures Blame(calls, n) == Blame(calls, m)
    decreases n
  {
    if m < n {
      BlameStays(calls, m, n - 1);
    }
  }

  lemma {:induction false} BlameAll(calls: map<nat, Call>, n: nat)
    ensures Blame(calls, n).None? <==> forall i | i in calls && i < n :: calls[i].id.Some? && calls[i].name.Some?
    decreases n
  {
    if n > 0 {
      BlameAll(calls, n - 1);
    }
  }

  /** The message of a total, if no call lacks anything. */
  ghost function MessageOf(t: Total): Result<Message, Failure> {
    var top := TopOf(t.calls.Keys);
    if Blame(t.calls, top).Some? then Err(Blame(t.calls, top).value)
    else Ok(Message(t.content, t.refusal, if t.reasoning == "" then None else Some(t.reasoning), InOrder(t.calls, top)))
  }

  /** What is made of a total; at a finish reason also the result, which names the model. */
  ghost function SnapshotOf(t: Total, finishing: bool): Result<Snapshot, Failure>
    requires finishing ==> t.finish.Some?
  {
    if finishing && t.meta.model.None? then Err(NoModel)
    else if MessageOf(t).Err? then Err(MessageOf(t).error)
    else
      var message := MessageOf(t).value;
      Ok(Snapshot(message, if finishing then Some(Completion(t.meta, t.finish.value, message)) else None))
  }

  lemma MessageComplete(t: Total)
    ensures MessageOf(t).Ok? <==> Complete(t.calls)
  {
    BlameAll(t.calls, TopOf(t.calls.Keys));
  }

  /******* Which streams can be folded *******/

  /** No delta before this one speaks of its call. */
  predicate Opens(cs: seq<CallDelta>, k: nat)
    requires k < |cs|
  {
    forall j | 0 <= j < k :: cs[j].index != cs[k].index
  }

  /** The first delta of every call has both its id and its name. */
  predicate Opened(cs: seq<CallDelta>) {
    forall k | 0 <= k < |cs| && Opens(cs, k) :: cs[k].id.Some? && cs[k].name.Some?
  }

  function TotalCalls(cs: seq<CallDelta>): map<nat, Call> {
    if cs == [] then map[]
    else
      var front, d := TotalCalls(cs[..|cs| - 1]), cs[|cs| - 1];
      front[d.index := AddCall(CallAt(front, d.index), d)]
  }

  lemma TotalCallsNext(cs: seq<CallDelta>, d: CallDelta)
    ensures TotalCalls(cs + [d]) == TotalCalls(cs)[d.index := AddCall(CallAt(TotalCalls(cs), d.index), d)]
  {
    assert (cs + [d])[..|cs|] == cs;
  }

  lemma {:induction false} CallsOfSum(ds: seq<Delta>)
    ensures Sum(ds).calls == TotalCalls(CallSeq(ds))
    decreases |ds|
  {
    if ds != [] {
      var front, last := ds[..|ds| - 1], ds[|ds| - 1];
      CallsOfSum(front);
      if last.call.Some? {
        TotalCallsNext(CallSeq(front), last.call.value);
      } else {
        assert CallSeq(front) + [] == CallSeq(front);
      }
    }
  }

  lemma {:induction false} CallsSpoken(cs: seq<CallDelta>, i: nat)
    ensures i in TotalCalls(cs) <==> exists j :: 0 <= j < |cs| && cs[j].index == i
    decreases |cs|
  {
    if cs != [] {
      var front := cs[..|cs| - 1];
      CallsSpoken(front, i);
      assert forall j | 0 <= j < |front| :: front[j] == cs[j];
    }
  }

  /** While every call is opened with id and name, none lacks any; the first that is not does. */
  lemma {:induction false} OpenedComplete(cs: seq<CallDelta>)
    ensures Opened(cs) ==> Complete(TotalCalls(cs))
    ensures cs != [] && Opened(cs[..|cs| - 1]) ==> (Opened(cs) <==> Complete(TotalCalls(cs)))
    decreases |cs|
  {
    hide Opened, Opens, Complete;
    if cs != [] {
      var front, n := cs[..|cs| - 1], |cs| - 1;
      OpenedComplete(front);
      OpenedFront(cs);
      OpensNew(cs);
      if Opened(front) {
        CompleteNext(TotalCalls(front), cs[n]);
      }
    } else {
      assert Complete(map[]) by { NothingMissing(); }
    }
  }

  lemma NothingMissing()
    ensures Complete(map[])
  {
  }

  lemma OpensNew(cs: seq<CallDelta>)
    requires cs != []
    ensures Opens(cs, |cs| - 1) <==> cs[|cs| - 1].index !in TotalCalls(cs[..|cs| - 1])
  {
    var front, n := cs[..|cs| - 1], |cs| - 1;
    CallsSpoken(front, cs[n].index);
    assert forall j | 0 <= j < n :: front[j] == cs[j];
  }

  lemma CompleteNext(calls: map<nat, Call>, d: CallDelta)
    requires Complete(calls)
    ensures Complete(calls[d.index := AddCall(CallAt(calls, d.index), d)]) <==>
      d.index in calls || (d.id.Some? && d.name.Some?)
  {
    var more := calls[d.index := AddCall(CallAt(calls, d.index), d)];
    assert d.index in more && forall i | i in calls && i != d.index :: i in more && more[i] == calls[i];
  }

  lemma OpenedFront(cs: seq<CallDelta>)
    requires cs != []
    ensures var front, n := cs[..|cs| - 1], |cs| - 1;
      Opened(cs) <==> Opened(front) && (Opens(cs, n) ==> cs[n].id.Some? && cs[n].name.Some?)
  {
    hide Opens;
    var front, n := cs[..|cs| - 1], |cs| - 1;
    forall k | 0 <= k < n ensures front[k] == cs[k] && (Opens(front, k) <==> Opens(cs, k)) {
      OpensFront(cs, front, k);
    }
  }

  lemma OpensFront(cs: seq<CallDelta>, front: seq<CallDelta>, k: nat)
    requires front <= cs && k < |front|
    ensures Opens(front, k) <==> Opens(cs, k)
  {
  }

  predicate HasModel(ds: seq<Delta>) {
    exists k :: 0 <= k < |ds| && ds[k].meta.model.Some?
  }

  /** By the time of a finish reason, some delta has named the model. */
  predicate Modelled(ds: seq<Delta>) {
    forall k | 0 <= k < |ds| && ds[k].finish.Some? :: HasModel(ds[..k + 1])
  }

  lemma {:induction false} ModelSum(ds: seq<Delta>)
    ensures Sum(ds).meta.model.Some? <==> HasModel(ds)
    decreases |ds|
  {
    if ds != [] {
      var front := ds[..|ds| - 1];
      ModelSum(front);
      assert forall k | 0 <= k < |front| :: front[k] == ds[k];
    }
  }

  lemma ModelledNext(ds: seq<Delta>, d: Delta)
    ensures Modelled(ds + [d]) <==> Modelled(ds) && (d.finish.Some? ==> HasModel(ds + [d]))
  {
    var more := ds + [d];
    forall k | 0 <= k < |ds| ensures more[..k + 1] == ds[..k + 1] && more[k] == ds[k] {
    }
    assert more[..|ds| + 1] == more && more[|ds|] == d;
  }

  /** The deltas can be folded one by one. */
  predicate Foldable(ds: seq<Delta>) {
    Opened(CallSeq(ds)) && Modelled(ds)
  }

  /** One delta more can be folded exactly when there is a snapshot. */
  lemma FoldableNext(ds: seq<Delta>, d: Delta)
    requires Foldable(ds)
    ensures Foldable(ds + [d]) <==> Complete(Sum(ds + [d]).calls) && (d.finish.Some? ==> Sum(ds + [d]).meta.model.Some?)
  {
    hide Opened, Modelled, HasModel, Complete, Sum, CallSeq, TotalCalls;
    ModelledNext(ds, d);
    ModelSum(ds + [d]);
    CallsOfSum(ds + [d]);
    OpenedNext(ds, d);
  }

  lemma OpenedNext(ds: seq<Delta>, d: Delta)
    requires Opened(CallSeq(ds))
    ensures Opened(CallSeq(ds + [d])) <==> Complete(TotalCalls(CallSeq(ds + [d])))
  {
    hide Opened, Complete, CallSeq, TotalCalls;
    CallSeqNext(ds, d);
    OpenedComplete(CallSeq(ds + [d]));
    if d.call.Some? {
      assert (CallSeq(ds) + [d.call.value])[..|CallSeq(ds)|] == CallSeq(ds);
    }
  }

  /** What can be folded could be at every delta. */
  lemma {:induction false} FoldableBefore(ds: seq<Delta>, n: nat)
    requires n <= |ds| && Foldable(ds)
    ensures Foldable(ds[..n])
    decreases |ds|
  {
    hide Opened, Modelled, CallSeq;
    if n < |ds| {
      var front, d := ds[..|ds| - 1], ds[|ds| - 1];
      assert ds == front + [d];
      ModelledNext(front, d);
      CallSeqNext(front, d);
      if d.call.Some? {
        var cs := CallSeq(ds);
        assert cs[..|cs| - 1] == CallSeq(front);
        OpenedFront(cs);
      }
      FoldableBefore(front, n);
      assert front[..n] == ds[..n];
    } else {
      assert ds[..n] == ds;
    }
  }

  /** The snapshot after the `k`th delta. */
  ghost function SnapshotAt(ds: seq<Delta>, k: nat): Result<Snapshot, Failure>
    requires k < |ds|
  {
    FinishAt(ds, k);
    SnapshotOf(Sum(ds[..k + 1]), ds[k].finish.Some?)
  }

  lemma FinishAt(ds: seq<Delta>, k: nat)
    requires k < |ds|
    ensures ds[k].finish.Some? ==> Sum(ds[..k + 1]).finish.Some?
  {
    assert ds[..k + 1] == ds[..k] + [ds[k]];
    SumNext(ds[..k], ds[k]);
  }

  /**
   Folding the deltas of a stream: it succeeds if and only if the first delta of every call has id and name and the
   model is named by the time of a finish reason; each snapshot then is that of the total so far.
   */
  method Accumulate(ds: seq<Delta>) returns (r: Result<seq<Snapshot>, Failure>)
    ensures r.Ok? <==> Foldable(ds)
    ensures r.Ok? ==> |r.value| == |ds| && forall k | 0 <= k < |ds| :: SnapshotAt(ds, k) == Ok(r.value[k])
    ensures r.Err? ==> exists k :: 0 <= k < |ds| && Foldable(ds[..k]) && SnapshotAt(ds, k) == Err(r.error)
  {
    hide Foldable, SnapshotAt;
    var a := new Accumulator();
    var shown := [];
    NothingFolded(ds);
    for i := 0 to |ds|
      invariant fresh(a) && a.Holds(Sum(ds[..i])) && Foldable(ds[..i])
      invariant |shown| == i && forall k | 0 <= k < i :: SnapshotAt(ds, k) == Ok(shown[k])
    {
      FoldableAt(ds, i);
      SumNext(ds[..i], ds[i]);
      var one := a.Apply(ds[i], Sum(ds[..i]));
      if one.Err? {
        return Err(one.error);
      }
      shown := shown + [one.value];
    }
    assert ds[..|ds|] == ds;
    r := Ok(shown);
  }

  lemma NothingFolded(ds: seq<Delta>)
    ensures Foldable(ds[..0])
  {
  }

  lemma FoldableAt(ds: seq<Delta>, k: nat)
    requires k < |ds| && Foldable(ds[..k])
    ensures ds[..k + 1] == ds[..k] + [ds[k]]
    ensures SnapshotAt(ds, k) == SnapshotOf(Sum(ds[..k] + [ds[k]]), ds[k].finish.Some?)
    ensures SnapshotAt(ds, k).Ok? <==> Foldable(ds[..k + 1])
    ensures SnapshotAt(ds, k).Err? ==> !Foldable(ds)
  {
    hide Foldable, MessageOf, Complete, Sum;
    assert ds[..k + 1] == ds[..k] + [ds[k]];
    FinishAt(ds, k);
    FoldableNext(ds[..k], ds[k]);
    MessageComplete(Sum(ds[..k + 1]));
    if Foldable(ds) {
      FoldableBefore(ds, k + 1);
    }
  }

  /**
   Settling a stream and folding what is handed on: it succeeds if and only if the first delta of every call has id
   and name and some delta names the model; the last snapshot then has the message that the raw deltas add up to, and
   a result that says tool calls exactly when there were any.
   */
  method SettledMessage(ds: seq<Delta>) returns (r: Result<Result<seq<Snapshot>, Failure>, Error>)
    ensures r.Ok? <==> Accepted(ds) && (Output(ds) || Finishes(ds))
    ensures r.Ok? ==> (r.value.Ok? <==> Opened(CallSeq(ds)) && HasModel(ds))
    ensures r.Ok? && r.value.Ok? ==>
      var shown := r.value.value;
      && shown != [] && (var last := shown[|shown| - 1];
          && Ok(last.message) == MessageOf(Sum(ds)) && last.result.Some?
          && last.result.value.meta == Sum(ds).meta && last.result.value.message == last.message
          && (last.result.value.finish == ToolCallsReason <==> Calls(ds)))
  {
    hide Sum, CallSeq, Accepted, Output, Finishes, Calls, Foldable, MessageOf, SnapshotAt;
    var out := Transduce(ds);
    if out.Err? {
      return Err(out.error);
    }
    SettledFoldable(ds, out.value);
    var shown := Accumulate(out.value);
    if shown.Ok? {
      SettledLast(ds, out.value);
    }
    r := Ok(shown);
  }

  /** Raw deltas and those handed on can be folded alike, up to a model that is named only after the finish reason. */
  lemma SettledFoldable(ds: seq<Delta>, out: seq<Delta>)
    requires Finished(out, Calls(ds)) && Sum(out) == Sum(ds).(finish := Sum(out).finish) && CallSeq(out) == CallSeq(ds)
    ensures Foldable(out) <==> Opened(CallSeq(ds)) && HasModel(ds)
    ensures Modelled(ds) && Finishes(ds) ==> HasModel(ds)
    ensures (forall k | 0 <= k < |ds| :: ds[k].meta.model.Some?) && ds != [] ==> (Foldable(out) <==> Foldable(ds))
  {
    hide Sum, CallSeq, Opened, Calls;
    ModelSum(ds);
    ModelSum(out);
    assert out[..|out| - 1 + 1] == out;
    assert Modelled(out) <==> HasModel(out) by {
      LastFinish(out);
    }
  }

  lemma LastFinish(out: seq<Delta>)
    requires out != [] && !Finishes(out[..|out| - 1]) && out[|out| - 1].finish.Some?
    ensures Modelled(out) <==> HasModel(out)
  {
    var front, last := out[..|out| - 1], out[|out| - 1];
    assert out == front + [last];
    ModelledNext(front, last);
    assert Modelled(front);
  }

  lemma SettledLast(ds: seq<Delta>, out: seq<Delta>)
    requires Finished(out, Calls(ds)) && Sum(out) == Sum(ds).(finish := Sum(out).finish)
    requires SnapshotAt(out, |out| - 1).Ok?
    ensures var last := SnapshotAt(out, |out| - 1).value;
      && Ok(last.message) == MessageOf(Sum(ds)) && last.result.Some?
      && last.result.value.meta == Sum(ds).meta && last.result.value.message == last.message
      && (last.result.value.finish == ToolCallsReason <==> Calls(ds))
  {
    hide Calls, Sum, Finishes, MessageOf, SnapshotAt;
    WholeAt(out);
    SameMessage(Sum(ds), Sum(out));
  }

  lemma WholeAt(out: seq<Delta>)
    requires out != [] && out[|out| - 1].finish.Some?
    ensures Sum(out).finish == out[|out| - 1].finish
    ensures SnapshotAt(out, |out| - 1) == SnapshotOf(Sum(out), true)
  {
    hide Sum, SnapshotOf;
    var n := |out| - 1;
    assert out[..n + 1] == out == out[..n] + [out[n]];
    SumNext(out[..n], out[n]);
  }

  /** The finish reason is no part of the message. */
  lemma SameMessage(t: Total, u: Total)
    requires u == t.(finish := u.finish)
    ensures MessageOf(u) == MessageOf(t)
  {
  }

  /** A call whose id comes after its first delta is lost, though all its deltas would add up to a message. */
  lemma LateId()
    ensures var first := Delta(NO_META.(model := Some("m")), 0, None, None, None,
                               Some(CallDelta(0, None, Some("f"), None)), None);
      var second := Delta(NO_META, 0, None, None, None, Some(CallDelta(0, Some("x"), None, None)), Some(StopReason));
      var ds := [first, second];
      Accepted(ds) && Output(ds) && HasModel(ds) && MessageOf(Sum(ds)).Ok? && !Opened(CallSeq(ds)) && !Foldable(ds)
  {
    var first := Delta(NO_META.(model := Some("m")), 0, None, None, None, Some(CallDelta(0, None, Some("f"), None)),
                       None);
    var second := Delta(NO_META, 0, None, None, None, Some(CallDelta(0, Some("x"), None, None)), Some(StopReason));
    var ds := [first, second];
    assert HasOutput(ds[0]) && ds[0].meta.model.Some?;
    LateCall(first, second);
    MessageComplete(Sum(ds));
    assert CallSeq(ds)[0] == first.call.value && Opens(CallSeq(ds), 0);
  }

  lemma LateCall(first: Delta, second: Delta)
    requires first.call.Some? && second.call.Some?
    ensures Sum([first, second]) == Add(Add(NOTHING, first), second)
    ensures CallSeq([first, second]) == [first.call.value, second.call.value]
  {
    hide Add;
    SumNothing([]);
    SumNext([], first);
    SumNext([first], second);
    CallSeqNext([], first);
    CallSeqNext([first], second);
    assert [] + [first] == [first] && [first] + [second] == [first, second];
  }

  /**
   A model that is named only after the finish reason comes too late for the raw deltas, but not once they are
   settled.
   */
  lemma LateModel()
    ensures var first := Delta(NO_META, 0, Some("c"), None, None, None, Some(StopReason));
      var second := Delta(NO_META.(model := Some("m")), 0, None, None, None, None, None);
      var ds := [first, second];
      Accepted(ds) && Finishes(ds) && Opened(CallSeq(ds)) && HasModel(ds) && !Foldable(ds)
  {
    var first := Delta(NO_META, 0, Some("c"), None, None, None, Some(StopReason));
    var second := Delta(NO_META.(model := Some("m")), 0, None, None, None, None, None);
    NoCalls(first, second);
    TwoDeltas(first, second);
  }

  lemma NoCalls(first: Delta, second: Delta)
    requires first.call.None? && second.call.None?
    ensures CallSeq([first, second]) == []
  {
    CallSeqNext([], first);
    CallSeqNext([first], second);
    assert [] + [first] == [first] && [first] + [second] == [first, second];
  }

  lemma TwoDeltas(first: Delta, second: Delta)
    requires first.finish.Some? && first.meta.model.None? && second.meta.model.Some?
    requires second.finish.None? && !HasOutput(second)
    ensures var ds := [first, second];
      Accepted(ds) && Finishes(ds) && HasModel(ds) && !Modelled(ds)
  {
    hide HasOutput;
    var ds := [first, second];
    assert ds[0].finish.Some? && ds[1].meta.model.Some?;
    assert ds[..0 + 1] == [first] && !HasModel([first]);
  }
}
