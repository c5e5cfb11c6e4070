/** The routing client: which provider a model goes to, and how a chain of fallback models is worked through. */
module Router {
  import opened Wrappers
  import opened ChatStream
  import opened JsonStrict

  /** Errors of a provider that are worth a retry, those that are not, and all others, which nothing here handles. */
  datatype Fault = Transient | Permanent | Unhandled

  /******* The chain and the route *******/

  function Split(model: string): (parts: seq<string>)
    ensures |parts| > 0
  {
    if model == "" then [""]
    else
      var rest := Split(model[1..]);
      if model[0] == ',' then [""] + rest else [[model[0]] + rest[0]] + rest[1..]
  }

  function Commas(parts: seq<string>): string
    requires |parts| > 0
  {
    if |parts| == 1 then parts[0] else parts[0] + "," + Commas(parts[1..])
  }

  /** str.split undoes joining, and leaves no comma. */
  lemma {:induction false} SplitJoins(model: string)
    ensures Commas(Split(model)) == model
    ensures forall i | 0 <= i < |Split(model)| :: ',' !in Split(model)[i]
    decreases |model|
  {
    if model != "" {
      var rest := Split(model[1..]);
      SplitJoins(model[1..]);
      var parts := Split(model);
      if model[0] == ',' {
        assert parts[1..] == rest;
      } else {
        assert parts[1..] == rest[1..];
        assert forall i | 1 <= i < |parts| :: parts[i] == rest[i];
      }
    }
  }

  /** _model_attempts */
  function ModelAttempts(model: string): Result<seq<string>, Fault> {
    var parts := Split(model);
    var stripped := seq(|parts|, i requires 0 <= i < |parts| => Strip(parts[i]));
    if "" in stripped then Err(Permanent) else Ok(stripped)
  }

  /** The index of the route for a model: of those whose prefix it has the longest, of equals the first. */
  ghost predicate IsRoute(prefixes: seq<string>, model: string, r: nat) {
    && r < |prefixes| && prefixes[r] <= model
    && forall i | 0 <= i < |prefixes| && prefixes[i] <= model ::
         |prefixes[i]| < |prefixes[r]| || (|prefixes[i]| == |prefixes[r]| && r <= i)
  }

  /** _route_for; a model that is nothing but its prefix has no provider model. */
  method RouteFor(prefixes: seq<string>, model: string) returns (r: Result<nat, Fault>)
    ensures r.Ok? <==> exists i: nat :: IsRoute(prefixes, model, i) && prefixes[i] != model
    ensures r.Ok? ==> IsRoute(prefixes, model, r.value)
    ensures r.Err? ==> r.error == Permanent
  {
    var best: Option<nat> := None;
    for i := 0 to |prefixes|
      invariant best.Some? ==> IsRoute(prefixes[..i], model, best.value)
      invariant best.None? ==> forall j | 0 <= j < i :: !(prefixes[j] <= model)
    {
      assert forall j | 0 <= j < i :: prefixes[..i + 1][j] == prefixes[..i][j] == prefixes[j];
      if prefixes[i] <= model && (best.None? || |prefixes[i]| > |prefixes[best.value]|) {
        best := Some(i);
      }
    }
    assert prefixes[..|prefixes|] == prefixes;
    if best.None? {
      assert forall i: nat :: !IsRoute(prefixes, model, i);
      return Err(Permanent);
    }
    RouteUnique(prefixes, model, best.value);
    if prefixes[best.value] == model {
      return Err(Permanent);
    }
    r := Ok(best.value);
  }

  /** The route of a model, if there is one and a provider model is left. */
  ghost function RouteOf(prefixes: seq<string>, model: string): (r: Option<nat>)
    ensures r.Some? <==> exists i: nat :: IsRoute(prefixes, model, i) && prefixes[i] != model
    ensures r.Some? ==> IsRoute(prefixes, model, r.value) && prefixes[r.value] != model
  {
    if exists i: nat :: IsRoute(prefixes, model, i) && prefixes[i] != model then
      var i: nat :| IsRoute(prefixes, model, i) && prefixes[i] != model;
      Some(i)
    else None
  }

  lemma RouteUnique(prefixes: seq<string>, model: string, r: nat)
    requires IsRoute(prefixes, model, r)
    ensures forall s: nat :: IsRoute(prefixes, model, s) ==> s == r
  {
  }

  /******* Runs *******/

  const TRIES := 3

  /** What one call of a provider delivers, and how it ends: normally, or with a fault. */
  datatype Play = Play(deltas: seq<Delta>, fault: Option<Fault>)

  /** One call in a run: of which entry of the chain, the how manieth for it, whether it had output, and its fault. */
  datatype Try = Try(entry: nat, number: nat, output: bool, fault: Option<Fault>)

  function FirstOutput(ds: seq<Delta>): (n: nat)
    ensures n <= |ds| && (n < |ds| ==> HasOutput(ds[n])) && forall i | 0 <= i < n :: !HasOutput(ds[i])
  {
    if ds == [] || HasOutput(ds[0]) then 0 else 1 + FirstOutput(ds[1..])
  }

  function Named(ds: seq<Delta>, model: string): (named: seq<Delta>)
    ensures |named| == |ds| && forall i | 0 <= i < |ds| :: named[i] == ds[i].(meta := ds[i].meta.(model := Some(model)))
  {
    seq(|ds|, i requires 0 <= i < |ds| => ds[i].(meta := ds[i].meta.(model := Some(model))))
  }

  /** Of a call, what is handed on: everything from the first output on, under the chain's name for the model. */
  function HandedOn(p: Play, model: string): seq<Delta> {
    Named(p.deltas[FirstOutput(p.deltas)..], model)
  }

  /** How a call went: one that ends before any output is a provider error. */
  function FaultOf(p: Play): Option<Fault> {
    if FirstOutput(p.deltas) == |p.deltas| && p.fault.None? then Some(Transient) else p.fault
  }

  /** After this call the run goes on to another: nothing was handed on, and the fault is one that is handled. */
  predicate GoesOn(t: Try) {
    !t.output && t.fault.Some? && t.fault != Some(Unhandled)
  }

  /** The call that follows in a run: another try of the same entry after a transient fault, or else the next entry. */
  predicate Next(t: Try, u: Try) {
    && GoesOn(t)
    && if t.number < TRIES && t.fault == Some(Transient) then u.entry == t.entry && u.number == t.number + 1
       else u.entry == t.entry + 1 && u.number == 1
  }

  predicate Run(tries: seq<Try>) {
    && (tries != [] ==> tries[0].entry == 0 && tries[0].number == 1)
    && forall k | 0 <= k < |tries| - 1 :: Next(tries[k], tries[k + 1])
  }

  /** After this call the chain is exhausted. */
  predicate Last(t: Try, count: nat) {
    GoesOn(t) && t.entry == count - 1 && (t.number == TRIES || t.fault != Some(Transient))
  }

  /** What a provider delivers when it is asked for a model of its own, after so many calls of the run. */
  type Providers = (nat, string, nat) -> Play

  /** What a call for this entry of the chain comes to: without a route there is nothing but an error. */
  ghost function Delivered(providers: Providers, prefixes: seq<string>, model: string, calls: nat): Play {
    var route := RouteOf(prefixes, model);
    if route.None? then Play([], Some(Permanent)) else providers(route.value, model[|prefixes[route.value]|..], calls)
  }

  method TryStream(providers: Providers, prefixes: seq<string>, model: string, calls: nat)
    returns (handed: seq<Delta>, fault: Option<Fault>)
    ensures var p := Delivered(providers, prefixes, model, calls);
      handed == HandedOn(p, model) && fault == FaultOf(p)
  {
    var route := RouteFor(prefixes, model);
    if route.Err? {
      handed, fault := [], Some(route.error);
      return;
    }
    RouteUnique(prefixes, model, route.value);
    var p := providers(route.value, model[|prefixes[route.value]|..], calls);
    var first := 0;
    while first < |p.deltas| && !HasOutput(p.deltas[first])
      invariant first <= |p.deltas| && forall i | 0 <= i < first :: !HasOutput(p.deltas[i])
    {
      first := first + 1;
    }
    assert first == FirstOutput(p.deltas);
    fault := if first == |p.deltas| && p.fault.None? then Some(Transient) else p.fault;
    handed := Named(p.deltas[first..], model);
  }

  /** A run over a chain of so many entries, at its end: the last call ended it, or there is nothing left to call. */
  predicate Ended(tries: seq<Try>, count: nat) {
    && Run(tries) && tries != []
    && (forall k | 0 <= k < |tries| :: tries[k].entry < count && 1 <= tries[k].number <= TRIES)
    && (GoesOn(tries[|tries| - 1]) ==> Last(tries[|tries| - 1], count))
  }

  /** Before the `n`th call for entry `i`. */
  ghost predicate Underway(tries: seq<Try>, i: nat, n: nat) {
    && Run(tries) && (forall k | 0 <= k < |tries| :: tries[k].entry <= i && 1 <= tries[k].number <= TRIES)
    && (if n == 1 && i == 0 then tries == []
        else tries != [] && (var t := tries[|tries| - 1];
            if n == 1 then Last(t, i)
              else GoesOn(t) && t.entry == i && t.number == n - 1 && t.fault == Some(Transient)))
  }

  lemma CallsNext(tries: seq<Try>, i: nat, n: nat, t: Try)
    requires Underway(tries, i, n) && 1 <= n <= TRIES && t.entry == i && t.number == n
    ensures Run(tries + [t])
    ensures !GoesOn(t) ==> Ended(tries + [t], i + 1)
    ensures GoesOn(t) ==>
      if n < TRIES && t.fault == Some(Transient)
        then Underway(tries + [t], i, n + 1) else Underway(tries + [t], i + 1, 1)
  {
    RunNext(tries, t);
  }

  /** What the `k`th call of a run hands on. */
  ghost function HandedBy(providers: Providers, prefixes: seq<string>, attempts: seq<string>, t: Try,
                          k: nat): seq<Delta> {
    if t.entry < |attempts|
    then HandedOn(Delivered(providers, prefixes, attempts[t.entry], k), attempts[t.entry])
    else []
  }

  /** All that a run hands on, call after call. */
  ghost function AllHanded(providers: Providers, prefixes: seq<string>, attempts: seq<string>,
                           tries: seq<Try>): seq<Delta> {
    if tries == [] then []
    else
      var n := |tries| - 1;
      AllHanded(providers, prefixes, attempts, tries[..n]) + HandedBy(providers, prefixes, attempts, tries[n], n)
  }

  /** The `k`th call of a run had output and a fault as its provider delivered them. */
  ghost predicate AsDelivered(providers: Providers, prefixes: seq<string>, attempts: seq<string>, t: Try, k: nat) {
    && t.entry < |attempts|
    && t.fault == FaultOf(Delivered(providers, prefixes, attempts[t.entry], k))
    && (t.output <==> HandedBy(providers, prefixes, attempts, t, k) != [])
  }

  /** Every call of a run went as its provider had it. */
  ghost predicate Streamed(providers: Providers, prefixes: seq<string>, attempts: seq<string>, tries: seq<Try>) {
    forall k | 0 <= k < |tries| :: AsDelivered(providers, prefixes, attempts, tries[k], k)
  }

  lemma StreamedNext(providers: Providers, prefixes: seq<string>, attempts: seq<string>, tries: seq<Try>, t: Try)
    requires Streamed(providers, prefixes, attempts, tries) && AsDelivered(providers, prefixes, attempts, t, |tries|)
    ensures Streamed(providers, prefixes, attempts, tries + [t])
    ensures AllHanded(providers, prefixes, attempts, tries + [t]) ==
      AllHanded(providers, prefixes, attempts, tries) + HandedBy(providers, prefixes, attempts, t, |tries|)
  {
    hide AsDelivered, HandedBy;
    assert (tries + [t])[..|tries|] == tries;
  }

  /** Calls after which a run went on handed nothing on. */
  lemma {:induction false} NothingHanded(providers: Providers, prefixes: seq<string>, attempts: seq<string>,
                                         tries: seq<Try>)
    requires Streamed(providers, prefixes, attempts, tries) && forall k | 0 <= k < |tries| :: GoesOn(tries[k])
    ensures AllHanded(providers, prefixes, attempts, tries) == []
    decreases |tries|
  {
    hide HandedBy;
    if tries != [] {
      var n := |tries| - 1;
      var front := tries[..n];
      assert AsDelivered(providers, prefixes, attempts, tries[n], n);
      assert forall k | 0 <= k < n :: front[k] == tries[k];
      NothingHanded(providers, prefixes, attempts, front);
    }
  }

  /** All that a run hands on comes from its last call. */
  lemma HandedByOne(providers: Providers, prefixes: seq<string>, attempts: seq<string>, tries: seq<Try>)
    requires Streamed(providers, prefixes, attempts, tries) && Run(tries) && tries != []
    ensures var n := |tries| - 1;
      AllHanded(providers, prefixes, attempts, tries) == HandedBy(providers, prefixes, attempts, tries[n], n)
  {
    hide AsDelivered, HandedBy;
    var n := |tries| - 1;
    var front := tries[..n];
    forall k | 0 <= k < n ensures GoesOn(front[k]) && front[k] == tries[k] {
      assert Next(tries[k], tries[k + 1]);
    }
    NothingHanded(providers, prefixes, attempts, front);
  }

  /**
   stream: each call went as its provider had it. What is handed on is what all calls handed on, one after the
   other; it comes from the last alone, since every call before it had no output and a fault that is handled.
   */
  method Stream(providers: Providers, prefixes: seq<string>, model: string)
    returns (handed: seq<Delta>, outcome: Result<(), Fault>, tries: seq<Try>)
    ensures ModelAttempts(model).Err? ==> outcome == Err(Permanent) && tries == [] && handed == []
    ensures ModelAttempts(model).Ok? ==>
      var attempts := ModelAttempts(model).value;
      && Ended(tries, |attempts|) && Streamed(providers, prefixes, attempts, tries)
      && handed == AllHanded(providers, prefixes, attempts, tries)
      && (var n := |tries| - 1;
          && handed == HandedBy(providers, prefixes, attempts, tries[n], n)
          && (forall k | 0 <= k < n :: HandedBy(providers, prefixes, attempts, tries[k], k) == [])
          && outcome == (if tries[n].fault.None? then Ok(()) else Err(tries[n].fault.value)))
  {
    hide Run, HandedOn, FaultOf, Underway, Ended, ModelAttempts, Last, Delivered, Streamed, AllHanded;
    tries, handed := [], [];
    var chain := ModelAttempts(model);
    if chain.Err? {
      AttemptsFail(model);
      outcome := Err(chain.error);
      return;
    }
    var attempts := chain.value;
    AttemptsNonempty(model);
    NothingUnderway();
    NothingStreamed(providers, prefixes, attempts);
    for i := 0 to |attempts|
      invariant Underway(tries, i, 1) && (i > 0 ==> tries != [])
      invariant Streamed(providers, prefixes, attempts, tries)
        && handed == AllHanded(providers, prefixes, attempts, tries)
    {
      var n := 1;
      while n <= TRIES
        invariant 1 <= n <= TRIES && Underway(tries, i, n) && (i > 0 || n > 1 ==> tries != [])
        invariant Streamed(providers, prefixes, attempts, tries)
          && handed == AllHanded(providers, prefixes, attempts, tries)
      {
        var out, fault := TryStream(providers, prefixes, attempts[i], |tries|);
        var t := Try(i, n, out != [], fault);
        StreamedNext(providers, prefixes, attempts, tries, t);
        CallsNext(tries, i, n, t);
        tries, handed := tries + [t], handed + out;
        if !GoesOn(t) {
          StillEnded(tries, i + 1, |attempts|);
          StreamEnded(providers, prefixes, attempts, tries);
          outcome := if fault.None? then Ok(()) else Err(fault.value);
          return;
        }
        if n < TRIES && fault == Some(Transient) {
          n := n + 1;
          continue;
        }
        break;
      }
    }
    AllTried(tries, |attempts|);
    StreamEnded(providers, prefixes, attempts, tries);
    outcome := Err(tries[|tries| - 1].fault.value);
  }

  lemma NothingStreamed(providers: Providers, prefixes: seq<string>, attempts: seq<string>)
    ensures Streamed(providers, prefixes, attempts, []) && AllHanded(providers, prefixes, attempts, []) == []
  {
  }

  /** At the end of a run: all that was handed on is the last call's, and a call without output has a fault. */
  lemma StreamEnded(providers: Providers, prefixes: seq<string>, attempts: seq<string>, tries: seq<Try>)
    requires Streamed(providers, prefixes, attempts, tries) && Ended(tries, |attempts|)
    ensures var n := |tries| - 1;
      && AllHanded(providers, prefixes, attempts, tries) == HandedBy(providers, prefixes, attempts, tries[n], n)
      && (forall k | 0 <= k < n :: HandedBy(providers, prefixes, attempts, tries[k], k) == [])
      && (tries[n].output || tries[n].fault.Some?)
  {
    hide HandedBy, Delivered;
    HandedByOne(providers, prefixes, attempts, tries);
    var n := |tries| - 1;
    assert AsDelivered(providers, prefixes, attempts, tries[n], n);
    forall k | 0 <= k < n ensures HandedBy(providers, prefixes, attempts, tries[k], k) == [] {
      assert Next(tries[k], tries[k + 1]);
      assert AsDelivered(providers, prefixes, attempts, tries[k], k);
    }
    LastOutput(providers, prefixes, attempts, tries[n], n);
  }

  /** No delta of the call has output. */
  ghost predicate Silent(p: Play) {
    forall i | 0 <= i < |p.deltas| :: !HasOutput(p.deltas[i])
  }

  /**
   What comes after a call of a finished run. Output ends the run, and so does a fault that is not handled. A call that
   is silent, or fails transiently, is tried up to three times; then, or after a permanent fault, the next entry is
   called, while there is one.
   */
  lemma WhatFollows(providers: Providers, prefixes: seq<string>, attempts: seq<string>, tries: seq<Try>, k: nat)
    requires Streamed(providers, prefixes, attempts, tries) && Ended(tries, |attempts|) && k < |tries|
    ensures tries[k].entry < |attempts| && 1 <= tries[k].number <= 3
    ensures var t := tries[k];
      var p := Delivered(providers, prefixes, attempts[t.entry], k);
      if !Silent(p) || p.fault == Some(Unhandled) then k + 1 == |tries|
      else if p.fault != Some(Permanent) && t.number < 3 then
        k + 1 < |tries| && tries[k + 1].entry == t.entry && tries[k + 1].number == t.number + 1
      else if t.entry + 1 < |attempts| then
        k + 1 < |tries| && tries[k + 1].entry == t.entry + 1 && tries[k + 1].number == 1
      else k + 1 == |tries|
  {
    hide Delivered, FaultOf, HandedOn, Silent;
    assert AsDelivered(providers, prefixes, attempts, tries[k], k);
    var p := Delivered(providers, prefixes, attempts[tries[k].entry], k);
    SilentCall(p, attempts[tries[k].entry]);
    assert GoesOn(tries[k]) <==> Silent(p) && p.fault != Some(Unhandled);
    if k + 1 < |tries| {
      assert Next(tries[k], tries[k + 1]);
    } else {
      assert tries[k] == tries[|tries| - 1];
    }
  }

  lemma SilentCall(p: Play, model: string)
    ensures Silent(p) <==> HandedOn(p, model) == []
    ensures FaultOf(p) == if Silent(p) && p.fault.None? then Some(Transient) else p.fault
    ensures Silent(p) && p.fault != Some(Permanent) && p.fault != Some(Unhandled) ==> FaultOf(p) == Some(Transient)
  {
    if p.fault.Some? {
      match p.fault.value
      case Transient =>
      case Permanent =>
      case Unhandled =>
    }
  }

  lemma LastOutput(providers: Providers, prefixes: seq<string>, attempts: seq<string>, t: Try, k: nat)
    requires AsDelivered(providers, prefixes, attempts, t, k)
    ensures t.output || t.fault.Some?
  {
    NoOutputFault(Delivered(providers, prefixes, attempts[t.entry], k), attempts[t.entry]);
  }

  /** What the providers do settles the whole run. */
  lemma StreamSettled(providers: Providers, prefixes: seq<string>, attempts: seq<string>, tries: seq<Try>,
                      others: seq<Try>)
    requires Streamed(providers, prefixes, attempts, tries) && Ended(tries, |attempts|)
    requires Streamed(providers, prefixes, attempts, others) && Ended(others, |attempts|)
    ensures tries == others
  {
    hide Ended;
    forall k | 0 <= k < |tries| && k < |others| && tries[k].entry == others[k].entry
      && tries[k].number == others[k].number
      ensures tries[k] == others[k]
    {
      assert AsDelivered(providers, prefixes, attempts, tries[k], k)
        && AsDelivered(providers, prefixes, attempts, others[k], k);
    }
    SameRun(tries, others, |attempts|);
  }

  /** Two runs in which the same call of the same entry goes the same way. */
  ghost predicate Alike(tries: seq<Try>, others: seq<Try>) {
    forall k | 0 <= k < |tries| && k < |others| && tries[k].entry == others[k].entry
      && tries[k].number == others[k].number ::
      tries[k] == others[k]
  }

  lemma {:induction false} SamePrefix(tries: seq<Try>, others: seq<Try>, k: nat)
    requires Run(tries) && Run(others) && Alike(tries, others) && k < |tries| && k < |others|
    ensures tries[k] == others[k]
    decreases k
  {
    if k > 0 {
      SamePrefix(tries, others, k - 1);
      assert Next(tries[k - 1], tries[k - 1 + 1]) && Next(others[k - 1], others[k - 1 + 1]);
    }
  }

  lemma SameRun(tries: seq<Try>, others: seq<Try>, count: nat)
    requires Ended(tries, count) && Ended(others, count) && Alike(tries, others)
    ensures tries == others
  {
    forall k | 0 <= k < |tries| && k < |others| ensures tries[k] == others[k] {
      SamePrefix(tries, others, k);
    }
    NotLonger(tries, others, count);
    NotLonger(others, tries, count);
  }

  /** Where one run ends no other goes on. */
  lemma NotLonger(tries: seq<Try>, others: seq<Try>, count: nat)
    requires Ended(tries, count) && Ended(others, count)
    requires forall k | 0 <= k < |tries| && k < |others| :: tries[k] == others[k]
    ensures |others| <= |tries|
  {
    StepWithin(others, |tries|, count);
  }

  lemma StepWithin(tries: seq<Try>, k: nat, count: nat)
    requires Ended(tries, count)
    ensures 0 < k < |tries| ==> Next(tries[k - 1], tries[k]) && tries[k].entry < count
  {
    if 0 < k < |tries| {
      assert Next(tries[k - 1], tries[k - 1 + 1]);
    }
  }

  lemma AttemptsFail(model: string)
    ensures ModelAttempts(model).Err? ==> ModelAttempts(model).error == Permanent
  {
  }

  lemma NothingUnderway()
    ensures Underway([], 0, 1)
  {
  }

  /** A call without output has a fault. */
  lemma NoOutputFault(p: Play, model: string)
    ensures HandedOn(p, model) == [] ==> FaultOf(p).Some?
  {
  }

  lemma StillEnded(tries: seq<Try>, m: nat, n: nat)
    requires Ended(tries, m) && m <= n && !GoesOn(tries[|tries| - 1])
    ensures Ended(tries, n)
  {
  }

  lemma AllTried(tries: seq<Try>, count: nat)
    requires Underway(tries, count, 1) && count > 0
    ensures Ended(tries, count) && GoesOn(tries[|tries| - 1])
  {
    RunBelow(tries, count);
  }

  /** In a run that is through with so many entries, every call was for one of them. */
  lemma RunBelow(tries: seq<Try>, count: nat)
    requires Run(tries) && tries != [] && Last(tries[|tries| - 1], count)
    ensures forall k | 0 <= k < |tries| :: tries[k].entry < count
  {
    forall k | 0 <= k < |tries| ensures tries[k].entry < count {
      if k < |tries| - 1 {
        RunInOrder(tries, k, |tries| - 1);
      }
    }
  }

  /** What a provider answers: the name it gives the model, and the text. */
  datatype Completion = Completion(model: string, text: string)

  /** What a provider answers when it is asked for a model of its own, after so many calls of the run. */
  type Answers = (nat, string, nat) -> Result<Completion, Fault>

  ghost function Answered(answers: Answers, prefixes: seq<string>, model: string, calls: nat)
    : Result<Completion, Fault>
  {
    var route := RouteOf(prefixes, model);
    if route.None? then Err(Permanent) else answers(route.value, model[|prefixes[route.value]|..], calls)
  }

  method TryCompletion(answers: Answers, prefixes: seq<string>, model: string, calls: nat)
    returns (r: Result<Completion, Fault>)
    ensures r == Answered(answers, prefixes, model, calls)
  {
    var route := RouteFor(prefixes, model);
    if route.Err? {
      return Err(route.error);
    }
    RouteUnique(prefixes, model, route.value);
    r := answers(route.value, model[|prefixes[route.value]|..], calls);
  }

  /** The `k`th call of a run went as its provider answered. */
  ghost predicate AsAnswered(answers: Answers, prefixes: seq<string>, attempts: seq<string>, t: Try, k: nat) {
    && t.entry < |attempts|
    && var r := Answered(answers, prefixes, attempts[t.entry], k);
       (t.output <==> r.Ok?) && t.fault == (if r.Ok? then None else Some(r.error))
  }

  ghost predicate Completed(answers: Answers, prefixes: seq<string>, attempts: seq<string>, tries: seq<Try>) {
    forall k | 0 <= k < |tries| :: AsAnswered(answers, prefixes, attempts, tries[k], k)
  }

  lemma CompletedNext(answers: Answers, prefixes: seq<string>, attempts: seq<string>, tries: seq<Try>, t: Try)
    requires Completed(answers, prefixes, attempts, tries) && AsAnswered(answers, prefixes, attempts, t, |tries|)
    ensures Completed(answers, prefixes, attempts, tries + [t])
  {
    hide AsAnswered;
  }

  lemma NothingCompleted(answers: Answers, prefixes: seq<string>, attempts: seq<string>)
    ensures Completed(answers, prefixes, attempts, [])
  {
  }

  lemma CompletionSettled(answers: Answers, prefixes: seq<string>, attempts: seq<string>, tries: seq<Try>,
                          others: seq<Try>)
    requires Completed(answers, prefixes, attempts, tries) && Ended(tries, |attempts|)
    requires Completed(answers, prefixes, attempts, others) && Ended(others, |attempts|)
    ensures tries == others
  {
    hide Ended;
    forall k | 0 <= k < |tries| && k < |others| && tries[k].entry == others[k].entry
      && tries[k].number == others[k].number
      ensures tries[k] == others[k]
    {
      assert AsAnswered(answers, prefixes, attempts, tries[k], k)
        && AsAnswered(answers, prefixes, attempts, others[k], k);
    }
    SameRun(tries, others, |attempts|);
  }

  /** What comes after a call of a finished run: as for streams, where an answer takes the place of output. */
  lemma WhatFollowsAnswer(answers: Answers, prefixes: seq<string>, attempts: seq<string>, tries: seq<Try>, k: nat)
    requires Completed(answers, prefixes, attempts, tries) && Ended(tries, |attempts|) && k < |tries|
    ensures tries[k].entry < |attempts| && 1 <= tries[k].number <= 3
    ensures var t := tries[k];
      var r := Answered(answers, prefixes, attempts[t.entry], k);
      if r.Ok? || r.error == Unhandled then k + 1 == |tries|
      else if r.error == Transient && t.number < 3 then
        k + 1 < |tries| && tries[k + 1].entry == t.entry && tries[k + 1].number == t.number + 1
      else if t.entry + 1 < |attempts| then
        k + 1 < |tries| && tries[k + 1].entry == t.entry + 1 && tries[k + 1].number == 1
      else k + 1 == |tries|
  {
    hide Answered;
    assert AsAnswered(answers, prefixes, attempts, tries[k], k);
    if k + 1 < |tries| {
      assert Next(tries[k], tries[k + 1]);
    } else {
      assert tries[k] == tries[|tries| - 1];
    }
  }

  /** The result of a run: what the last call was answered, under the name of its entry. */
  ghost function LastAnswer(answers: Answers, prefixes: seq<string>, attempts: seq<string>,
                            tries: seq<Try>): Result<Completion, Fault>
    requires tries != [] && tries[|tries| - 1].entry < |attempts|
  {
    var model := attempts[tries[|tries| - 1].entry];
    var r := Answered(answers, prefixes, model, |tries| - 1);
    if r.Ok? then Ok(r.value.(model := model)) else r
  }

  /** complete: the same run, ended by the first call that succeeds; the result bears the name of its entry. */
  method Complete(answers: Answers, prefixes: seq<string>, model: string)
    returns (outcome: Result<Completion, Fault>, tries: seq<Try>)
    ensures ModelAttempts(model).Err? ==> outcome == Err(Permanent) && tries == []
    ensures ModelAttempts(model).Ok? ==>
      var attempts := ModelAttempts(model).value;
      && Ended(tries, |attempts|) && Completed(answers, prefixes, attempts, tries)
      && outcome == LastAnswer(answers, prefixes, attempts, tries)
  {
    hide Run, Underway, Ended, ModelAttempts, Last, Answered, Completed;
    tries := [];
    var chain := ModelAttempts(model);
    if chain.Err? {
      AttemptsFail(model);
      outcome := Err(chain.error);
      return;
    }
    var attempts := chain.value;
    AttemptsNonempty(model);
    NothingUnderway();
    NothingCompleted(answers, prefixes, attempts);
    outcome := Err(Permanent);
    for i := 0 to |attempts|
      invariant Underway(tries, i, 1) && (i > 0 ==> tries != [])
      invariant Completed(answers, prefixes, attempts, tries)
      invariant tries != [] ==>
        tries[|tries| - 1].entry < |attempts| && outcome == LastAnswer(answers, prefixes, attempts, tries)
          && outcome.Err?
    {
      var n := 1;
      while n <= TRIES
        invariant 1 <= n <= TRIES && Underway(tries, i, n) && (i > 0 || n > 1 ==> tries != [])
        invariant Completed(answers, prefixes, attempts, tries)
        invariant tries != [] ==>
          tries[|tries| - 1].entry < |attempts| && outcome == LastAnswer(answers, prefixes, attempts, tries)
            && outcome.Err?
      {
        var r := TryCompletion(answers, prefixes, attempts[i], |tries|);
        var t := Try(i, n, r.Ok?, if r.Ok? then None else Some(r.error));
        CompletedNext(answers, prefixes, attempts, tries, t);
        CallsNext(tries, i, n, t);
        tries, outcome := tries + [t], if r.Ok? then Ok(r.value.(model := attempts[i])) else r;
        if !GoesOn(t) {
          StillEnded(tries, i + 1, |attempts|);
          return;
        }
        if n < TRIES && t.fault == Some(Transient) {
          n := n + 1;
          continue;
        }
        break;
      }
    }
    AllTried(tries, |attempts|);
  }

  lemma AttemptsNonempty(model: string)
    ensures ModelAttempts(model).Ok? ==> |ModelAttempts(model).value| > 0
  {
  }

  lemma RunNext(tries: seq<Try>, t: Try)
    requires Run(tries) && (tries == [] ==> t.entry == 0 && t.number == 1)
    requires tries != [] ==> Next(tries[|tries| - 1], t)
    ensures Run(tries + [t])
  {
  }

  /** In a run the entries come in order, none left out, each with its tries in a row. */
  lemma {:induction false} RunInOrder(tries: seq<Try>, i: nat, j: nat)
    requires Run(tries) && i < j < |tries|
    ensures tries[i].entry < tries[j].entry || (tries[i].entry == tries[j].entry && tries[i].number < tries[j].number)
    ensures GoesOn(tries[i])
    decreases j - i
  {
    assert Next(tries[i], tries[i + 1]);
    if i + 1 < j {
      RunInOrder(tries, i + 1, j);
    }
  }
}
