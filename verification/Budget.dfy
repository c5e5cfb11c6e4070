/** The token budget that the completions of one response share, over exact reals. */
module Budget {
  import opened Wrappers

  /** What tokens cost in output tokens of the budget. */
  datatype Equivalence = Equivalence(uncachedInput: real, cachedInput: real, output: real)

  /** Usage as reported; `handle` is the identity of the object. */
  datatype Usage = Usage(handle: nat, input: int, cached: Option<int>, output: int, reasoning: Option<int>)
  datatype Charge = Charge(equivalence: Equivalence, usage: Usage)
  datatype Report = Report(input: int, cached: int, output: int, reasoning: int, total: int)

  function Ceil(x: real): int {
    -((-x).Floor)
  }

  lemma CeilAtMost(x: real, n: int)
    requires x <= n as real
    ensures Ceil(x) <= n
  {
    assert -(n as real) <= -x;
  }

  function Min(a: int, b: int): int {
    if a < b then a else b
  }

  function Max(a: int, b: int): int {
    if a < b then b else a
  }

  function Or0(n: Option<int>): int {
    if n.Some? then n.value else 0
  }

  function CachedInput(u: Usage): int {
    Min(Or0(u.cached), u.input)
  }

  function VisibleOutput(u: Usage): int {
    Max(0, u.output - Or0(u.reasoning))
  }

  function OutputEquivalent(u: Usage, rate: real): int {
    VisibleOutput(u) + Ceil(Or0(u.reasoning) as real * rate)
  }

  function OutputCost(e: Equivalence, u: Usage, rate: real): int {
    Ceil(e.output * OutputEquivalent(u, rate) as real)
  }

  function InternalCost(e: Equivalence, u: Usage, rate: real): int {
    var cached := CachedInput(u);
    Ceil((u.input - cached) as real * e.uncachedInput + cached as real * e.cachedInput
         + e.output * OutputEquivalent(u, rate) as real)
  }

  lemma CeilIs(x: real, n: int)
    ensures Ceil(x) == n <==> n as real - 1.0 < x <= n as real
  {
  }

  /**
   What the tokens of a usage count as: no more input was cached than there was; what is visible of the output counts
   in full, and reasoning at a rate of its own, rounded up.
   */
  lemma TokensCounted(u: Usage, rate: real) returns (thought: int)
    ensures CachedInput(u) ==
      if u.cached.None? then if u.input < 0 then u.input else 0
      else if u.cached.value < u.input then u.cached.value else u.input
    ensures var reasoning := if u.reasoning.Some? then u.reasoning.value else 0;
      && thought as real - 1.0 < reasoning as real * rate <= thought as real
      && OutputEquivalent(u, rate) == thought + if u.output > reasoning then u.output - reasoning else 0
  {
    var reasoning := Or0(u.reasoning) as real * rate;
    thought := Ceil(reasoning);
    CeilIs(reasoning, thought);
  }

  /**
   What they cost, rounded up: cached input at the rate for it, other input at its own, and output. The cost of output
   alone is that without the input.
   */
  lemma CostRoundsUp(e: Equivalence, u: Usage, rate: real)
    ensures var (cached, output) := (CachedInput(u), e.output * OutputEquivalent(u, rate) as real);
      var all := (u.input - cached) as real * e.uncachedInput + cached as real * e.cachedInput + output;
      && InternalCost(e, u, rate) as real - 1.0 < all <= InternalCost(e, u, rate) as real
      && OutputCost(e, u, rate) as real - 1.0 < output <= OutputCost(e, u, rate) as real
  {
    hide CachedInput, OutputEquivalent;
  }

  /** The cost of all charges; the one at `output` costs its output alone. */
  function Normalized(cs: seq<Charge>, output: Option<nat>, rate: real): int {
    if cs == [] then 0
    else
      var c := cs[|cs| - 1];
      Normalized(cs[..|cs| - 1], output, rate)
        + if output == Some(|cs| - 1)
          then OutputCost(c.equivalence, c.usage, rate) else InternalCost(c.equivalence, c.usage, rate)
  }

  lemma NormalizedNext(cs: seq<Charge>, c: Charge, rate: real)
    ensures Normalized(cs + [c], None, rate) == Normalized(cs, None, rate) + InternalCost(c.equivalence, c.usage, rate)
  {
    assert (cs + [c])[..|cs|] == cs;
  }

  /** Taking one charge as output changes the sum by that charge alone. */
  lemma {:induction false} NormalizedOutput(cs: seq<Charge>, k: nat, rate: real)
    ensures Normalized(cs, Some(k), rate) == Normalized(cs, None, rate)
      + if k < |cs|
        then OutputCost(cs[k].equivalence, cs[k].usage, rate) - InternalCost(cs[k].equivalence, cs[k].usage, rate)
        else 0
    decreases |cs|
  {
    if cs != [] {
      NormalizedOutput(cs[..|cs| - 1], k, rate);
    }
  }

  datatype Error = NotRecorded | AlreadyFinished

  class CompletionBudget {
    const granted: Option<int>
    const rate: real
    var remaining: Option<int>
    var charges: seq<Charge>
    var input: Option<nat>
    var finished: bool

    /** Until it is finished, what is spent is the cost of all charges. */
    ghost predicate Valid()
      reads this
    {
      && (granted.Some? <==> remaining.Some?)
      && (input.Some? ==> input.value < |charges|)
      && (!finished && granted.Some? ==> granted.value - remaining.value == Normalized(charges, None, rate))
    }

    /** At least the visible tokens, at least all costs, and the difference as reasoning. */
    ghost function ReportOf(output: Option<nat>): Report
      requires charges != [] && (input.Some? ==> input.value < |charges|) && (output.Some? ==> output.value < |charges|)
      reads this`charges, this`input
    {
      var anchor := charges[if input.Some? then input.value else if output.Some? then output.value else 0].usage;
      var visible := if output.Some? then VisibleOutput(charges[output.value].usage) else 0;
      var tokens := Max(visible, Normalized(charges, output, rate));
      Report(anchor.input, CachedInput(anchor), tokens, tokens - visible, anchor.input + tokens)
    }

    constructor (granted: Option<int>, rate: real)
      ensures Valid() && !finished && charges == [] && input == None && remaining == granted
      ensures this.granted == granted && this.rate == rate
    {
      this.granted, this.rate := granted, rate;
      remaining, charges, input, finished := granted, [], None, false;
    }

    method Record(e: Equivalence, usage: Option<Usage>)
      requires Valid()
      modifies this`charges, this`remaining
      ensures Valid() && charges == old(charges) + if usage.Some? then [Charge(e, usage.value)] else []
    {
      hide InternalCost, OutputCost, Normalized, CachedInput, OutputEquivalent, Ceil;
      if usage.None? {
        return;
      }
      NormalizedNext(charges, Charge(e, usage.value), rate);
      charges := charges + [Charge(e, usage.value)];
      if remaining.Some? {
        remaining := Some(remaining.value - InternalCost(e, usage.value, rate));
      }
    }

    /** The first charge for this usage stands for the input, unless one does already. */
    method Anchor(handle: Option<nat>) returns (r: Result<(), Error>)
      requires Valid()
      modifies this`input
      ensures Valid()
      ensures handle.None? || old(input).Some? ==> r == Ok(()) && input == old(input)
      ensures handle.Some? && old(input).None? ==>
        && (r.Ok? <==> exists i :: 0 <= i < |charges| && charges[i].usage.handle == handle.value)
        && (r.Ok? ==>
              && input.Some? && charges[input.value].usage.handle == handle.value
              && forall i | 0 <= i < input.value :: charges[i].usage.handle != handle.value)
    {
      if handle.None? || input.Some? {
        return Ok(());
      }
      for i := 0 to |charges|
        invariant forall j | 0 <= j < i :: charges[j].usage.handle != handle.value
      {
        if charges[i].usage.handle == handle.value {
          input := Some(i);
          return Ok(());
        }
      }
      r := Err(NotRecorded);
    }

    /** What is reported; nothing when nothing was charged. */
    method BuildUsage(output: Option<nat>) returns (report: Option<Report>)
      requires Valid() && (output.Some? ==> output.value < |charges|)
      ensures report.None? <==> charges == []
      ensures report.Some? ==> report.value == ReportOf(output)
    {
      if charges == [] {
        return None;
      }
      var anchor := charges[if input.Some? then input.value else if output.Some? then output.value else 0].usage;
      var visible := if output.Some? then VisibleOutput(charges[output.value].usage) else 0;
      var normalized := 0;
      for i := 0 to |charges|
        invariant normalized == Normalized(charges[..i], output, rate)
      {
        assert charges[..i + 1][..i] == charges[..i];
        var c := charges[i];
        normalized := normalized + if output == Some(i)
          then OutputCost(c.equivalence, c.usage, rate) else InternalCost(c.equivalence, c.usage, rate);
      }
      assert charges[..|charges|] == charges;
      var tokens := Max(visible, normalized);
      report := Some(Report(anchor.input, CachedInput(anchor), tokens, tokens - visible, anchor.input + tokens));
    }

    /** Closes the budget: what it is debited in all is the normalized cost, and the report says no less. */
    method Finish(handle: Option<nat>) returns (r: Result<Option<Report>, Error>, ghost output: Option<nat>)
      requires Valid()
      modifies this`remaining, this`finished
      ensures Valid()
      ensures old(finished) ==> r == Err(AlreadyFinished)
      ensures r.Err? ==> remaining == old(remaining) && finished == old(finished)
      ensures !old(finished) ==>
        (r.Ok? <==> handle.None? || exists i :: 0 <= i < |charges| && charges[i].usage.handle == handle.value)
      ensures r.Ok? ==>
        && finished && (output.Some? <==> handle.Some?)
        && (output.Some? ==>
              && output.value < |charges| && charges[output.value].usage.handle == handle.value
              && forall i | output.value < i < |charges| :: charges[i].usage.handle != handle.value)
        && (granted.Some? ==> granted.value - remaining.value == Normalized(charges, output, rate))
        && (r.value.None? <==> charges == [])
        && (r.value.Some? ==> r.value.value == ReportOf(output))
        && (r.value.Some? ==>
              r.value.value.output ==
                Max(if output.Some? then VisibleOutput(charges[output.value].usage) else 0,
                    Normalized(charges, output, rate)))
    {
      output := None;
      if finished {
        return Err(AlreadyFinished), None;
      }
      var found: Option<nat> := None;
      if handle.Some? {
        var i := |charges|;
        while i > 0 && charges[i - 1].usage.handle != handle.value
          invariant 0 <= i <= |charges| && forall j | i <= j < |charges| :: charges[j].usage.handle != handle.value
        {
          i := i - 1;
        }
        if i == 0 {
          return Err(NotRecorded), None;
        }
        found := Some(i - 1);
        var c := charges[i - 1];
        NormalizedOutput(charges, i - 1, rate);
        if remaining.Some? {
          remaining := Some(remaining.value
                            + (InternalCost(c.equivalence, c.usage, rate) - OutputCost(c.equivalence, c.usage, rate)));
        }
      }
      output := found;
      finished := true;
      var report := BuildUsage(found);
      r := Ok(report);
    }
  }

  /** _completion_limit */
  function CompletionLimit(remaining: Option<int>, e: Equivalence, configured: Option<int>): Option<int>
    requires e.output > 0.0
  {
    var cap :=
      if remaining.None? then None
      else if remaining.value <= 0 then Some(0)
      else Some((remaining.value as real / e.output).Floor);
    if configured.None? then cap else if cap.None? then configured else Some(Min(cap.value, configured.value))
  }

  /** A completion within its limit costs no more output than remains. */
  lemma CompletionFits(remaining: int, e: Equivalence, configured: Option<int>, u: Usage, rate: real)
    requires e.output > 0.0 && remaining >= 0 && 0.0 <= rate <= 1.0
    requires 0 <= Or0(u.reasoning) <= u.output <= CompletionLimit(Some(remaining), e, configured).value
    ensures OutputCost(e, u, rate) <= remaining
  {
    hide OutputEquivalent, CompletionLimit;
    EquivalentFits(u, rate);
    LimitFits(remaining, e, configured, u.output);
    CostFits(e.output, OutputEquivalent(u, rate), u.output, remaining);
  }

  lemma EquivalentFits(u: Usage, rate: real)
    requires 0.0 <= rate <= 1.0 && 0 <= Or0(u.reasoning) <= u.output
    ensures OutputEquivalent(u, rate) <= u.output
  {
    ReasoningFits(Or0(u.reasoning), rate);
  }

  lemma LimitFits(remaining: int, e: Equivalence, configured: Option<int>, n: int)
    requires e.output > 0.0 && remaining >= 0 && n <= CompletionLimit(Some(remaining), e, configured).value
    ensures e.output * n as real <= remaining as real
  {
    Share(remaining, e.output, n);
  }

  lemma CostFits(x: real, m: int, n: int, remaining: int)
    requires x > 0.0 && m <= n && x * n as real <= remaining as real
    ensures Ceil(x * m as real) <= remaining
  {
    hide Ceil;
    Times(x, m, n);
    CeilAtMost(x * m as real, remaining);
  }

  lemma ReasoningFits(r: int, rate: real)
    requires 0 <= r && 0.0 <= rate <= 1.0
    ensures Ceil(r as real * rate) <= r
  {
    Times2(r as real, rate);
    CeilAtMost(r as real * rate, r);
  }

  lemma Times2(x: real, y: real)
    requires 0.0 <= x && y <= 1.0
    ensures x * y <= x
  {
  }

  lemma Times(x: real, m: int, n: int)
    requires x > 0.0 && m <= n
    ensures x * m as real <= x * n as real
  {
  }

  /** So many tokens, at their rate, fit into what remains. */
  lemma Share(remaining: int, x: real, n: int)
    requires x > 0.0 && remaining >= 0 && n <= (if remaining == 0 then 0 else (remaining as real / x).Floor)
    ensures x * n as real <= remaining as real
  {
    if remaining > 0 {
      var q := remaining as real / x;
      assert n as real <= q;
      assert q * x == remaining as real;
      TimesReal(x, n as real, q);
    } else {
      TimesReal(x, n as real, 0.0);
    }
  }

  lemma TimesReal(x: real, a: real, b: real)
    requires x > 0.0 && a <= b
    ensures x * a <= x * b
  {
  }
}
