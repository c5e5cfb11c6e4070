/**
 The parser of completion texts with DSML tool calls, and what it recovers of a turn that was written
 out: everything, exactly when no parameter name contains the mark that ends a name.
 */
module Dsml {
  import opened Wrappers
  import opened JsonSyntax
  import opened JsonScan
  import opened JsonPrint
  import opened TextSearch
  import opened DsmlText

  datatype Error = CallFormat | MissingToken | NameFormat | ParameterFormat | DuplicateParameter
    | MissingThinkEnd | MissingEos | AfterCalls | AtEnd | SpecialToken
  datatype ToolCall = ToolCall(name: string, arguments: string)
  datatype Message = Message(reasoning: string, content: string, calls: seq<ToolCall>)

  /******* The two patterns *******/

  /**
   The pattern for the name of a call: what a quote, a bracket and a line end close, at most one more line end behind
   them.
   */
  function MatchName(c: string): Option<string> {
    var start := SpaceEnd(c, 0);
    if !At(c, start, "name=\"") then None
    else
      var from := start + 6;
      if |c| >= from + 4 && c[|c| - 4..] == "\">\n\n" then Some(c[from..|c| - 4])
      else if |c| >= from + 3 && c[|c| - 3..] == "\">\n" then Some(c[from..|c| - 3])
      else None
  }

  function SpaceEnd(c: string, i: nat): (end: nat)
    requires i <= |c|
    ensures i <= end <= |c|
    decreases |c| - i
  {
    if i < |c| && IsSpace(c[i]) then SpaceEnd(c, i + 1) else i
  }

  /** The first mark from `i` on that ends a parameter name. */
  function FirstMark(c: string, i: nat): (r: Option<(nat, bool)>)
    requires i <= |c|
    ensures r.Some? ==>
      && i <= r.value.0 && At(c, r.value.0, Mark(r.value.1))
      && forall j, b | i <= j < r.value.0 :: !At(c, j, Mark(b))
    ensures r.None? ==> forall j, b | i <= j :: !At(c, j, Mark(b))
    decreases |c| - i
  {
    if At(c, i, Mark(true)) then Some((i, true))
    else if At(c, i, Mark(false)) then Some((i, false))
    else
      assert NoMark(c, i) by { hide At, Mark; }
      if i == |c| then None else FirstMark(c, i + 1)
  }

  predicate NoMark(c: string, i: nat) {
    forall b :: !At(c, i, Mark(b))
  }

  /** The pattern for a parameter: the name ends at the first mark, the value at the last bracket. */
  function MatchParameter(c: string): Option<Parameter> {
    if !At(c, 0, " name=\"") then None else Pick(c, FirstMark(c, 7), LastBracket(c))
  }

  function Pick(c: string, mark: Option<(nat, bool)>, end: Option<nat>): Option<Parameter>
    requires mark.Some? ==> 7 <= mark.value.0 <= |c|
    requires end.Some? ==> end.value <= |c|
  {
    if mark.None? || end.None? then None
    else
      var (k, isString) := mark.value;
      var from := k + |Mark(isString)|;
      if from <= end.value then Some(Parameter(c[7..k], isString, c[from..end.value])) else None
  }

  /** The bracket at the end, at most one line end behind it. */
  function LastBracket(c: string): (at: Option<nat>)
    ensures at.Some? ==> at.value < |c|
  {
    if |c| >= 2 && c[|c| - 2] == '<' && c[|c| - 1] == '\n' then Some(|c| - 2)
    else if |c| >= 1 && c[|c| - 1] == '<' then Some(|c| - 1)
    else None
  }

  /******* What the arguments become *******/

  function ToJson(s: string): string {
    QuotedText(PrintChars(s))
  }

  function ArgumentText(p: Parameter): string {
    ToJson(p.key) + ": " + if p.isString then ToJson(p.value) else p.value
  }

  function ArgumentsList(ps: seq<Parameter>): string {
    if ps == [] then ""
    else if |ps| == 1 then ArgumentText(ps[0])
    else ArgumentText(ps[0]) + ", " + ArgumentsList(ps[1..])
  }

  /** decode_dsml_to_arguments */
  function DecodeArguments(name: string, ps: seq<Parameter>): ToolCall {
    ToolCall(name, "{" + ArgumentsList(ps) + "}")
  }

  predicate HasKey(ps: seq<Parameter>, key: string) {
    exists i :: 0 <= i < |ps| && ps[i].key == key
  }

  /** The parameters as they are read, unless two get the same name. */
  function ReadAll(done: seq<Parameter>, bodies: seq<Parameter>): Result<seq<Parameter>, Error>
    decreases |bodies|
  {
    if bodies == [] then Ok(done)
    else match MatchParameter(Body(bodies[0]))
      case None => Err(ParameterFormat)
      case Some(p) => if HasKey(done, p.key) then Err(DuplicateParameter) else ReadAll(done + [p], bodies[1..])
  }

  function ReadCalls(done: seq<ToolCall>, cs: seq<Invoke>): Result<seq<ToolCall>, Error>
    decreases |cs|
  {
    if cs == [] then Ok(done)
    else match ReadAll([], cs[0].parameters)
      case Err(e) => Err(e)
      case Ok(ps) => ReadCalls(done + [DecodeArguments(cs[0].name, ps)], cs[1..])
  }

  /******* The stops of the parser in what was written *******/

  lemma EndParameter(f: string)
    requires PARAMETER_END <= f
    ensures NoStraddle(PARAMETER_END, f)
  {
    var tail := TOKEN + "parameter";
    assert PARAMETER_END == ['/'] + tail && f[0] == '/' && '/' !in tail;
    NoStraddleByFirst('/', tail, f);
  }

  lemma NoneStraddles(tail: string, f: string)
    requires f != "" && f[0] == '<' && '<' !in tail
    ensures NoStraddle("<" + tail, f)
  {
    NoStraddleByFirst('<', tail, f);
    assert "<" + tail == ['<'] + tail;
  }

  /**
   A token that starts with a bracket stops a text that is free of it, and `other`, starting differently, does not.
   */
  lemma BracketStops(text: string, index: nat, a: string, f: string, tail: string, other: string, stops: seq<string>)
    requires index <= |text| && text[index..] == a + f && "<" + tail <= f && !("<" + other <= f)
    requires '<' !in tail && '<' !in other && Free(a, "<" + tail) && Free(a, "<" + other)
    requires stops == ["<" + tail, "<" + other] || stops == ["<" + other, "<" + tail]
    ensures StopAt(text, index, stops) == Stop(index + |a| + 1 + |tail|, a, Some("<" + tail))
    ensures text[index + |a| + 1 + |tail|..] == f[1 + |tail|..]
  {
    assert f[0] == ("<" + tail)[0];
    NoneStraddles(tail, f);
    NoneStraddles(other, f);
    StopsBehind(text, index, a, f, "<" + tail, "<" + other, stops);
  }

  const TAIL_PARAMETER := TOKEN + "parameter"
  const TAIL_INVOKE := TOKEN + "invoke"
  const TAIL_INVOKED := "/" + TOKEN + "invoke"
  const TAIL_CALLED := "/" + TOKEN + "tool_calls>"

  lemma Tails()
    ensures PARAMETER_START == "<" + TAIL_PARAMETER && INVOKE_START == "<" + TAIL_INVOKE
    ensures INVOKE_END == "<" + TAIL_INVOKED && CALLS_END == "<" + TAIL_CALLED
    ensures '<' !in TAIL_PARAMETER && '<' !in TAIL_INVOKE && '<' !in TAIL_INVOKED && '<' !in TAIL_CALLED
  {
  }

  /** Text free of the token is free of every string it is in. */
  lemma FreeOfStops(a: string)
    requires Free(a, TOKEN)
    ensures Free(a, PARAMETER_START) && Free(a, PARAMETER_END) && Free(a, INVOKE_START) && Free(a, INVOKE_END)
    ensures Free(a, CALLS_START) && Free(a, CALLS_END)
  {
    FreeOfLonger(a, "<", TOKEN, "parameter");
    FreeOfLonger(a, "/", TOKEN, "parameter");
    FreeOfLonger(a, "<", TOKEN, "invoke");
    FreeOfLonger(a, "</", TOKEN, "invoke");
    FreeOfLonger(a, "\n\n<", TOKEN, "tool_calls");
    FreeOfLonger(a, "</", TOKEN, "tool_calls>");
  }

  lemma Differ(more: string)
    ensures !(INVOKE_END <= PARAMETER_START + more) && !(PARAMETER_START <= INVOKE_END + more)
    ensures !(CALLS_END <= INVOKE_START + more) && !(INVOKE_START <= CALLS_END + more)
  {
    assert INVOKE_END[1] == '/' && CALLS_END[1] == '/';
    assert (PARAMETER_START + more)[1] == '\U{FF5C}' && (INVOKE_START + more)[1] == '\U{FF5C}';
    assert PARAMETER_START[1] == '\U{FF5C}' && INVOKE_START[1] == '\U{FF5C}';
    assert (INVOKE_END + more)[1] == '/' && (CALLS_END + more)[1] == '/';
  }

  /** Behind `<parameter`: its body up to its end, and a line end up to the next parameter or the end of the call. */
  lemma ParameterStops(index: nat, text: string, ps: seq<Parameter>, more: string)
    requires index <= |text| && ps != [] && FreeParameter(ps[0]) && text[index..] == ParametersAhead(ps, more)
    ensures var first := StopAt(text, index, [PARAMETER_END]);
      && first.content == Body(ps[0]) && first.stop == Some(PARAMETER_END)
      && (var second := StopAt(text, first.next, [PARAMETER_START, INVOKE_END]);
          && second.content == ">\n"
          && second.stop == Some(if |ps| == 1 then INVOKE_END else PARAMETER_START)
          && text[second.next..] == if |ps| == 1 then more else ParametersAhead(ps[1..], more))
  {
    assert ParametersAhead(ps, more) == Body(ps[0]) + (PARAMETER_END + (">\n" + BehindParameter(ps, more)));
    BodyStops(index, text, ps[0], ">\n" + BehindParameter(ps, more));
    var at := StopAt(text, index, [PARAMETER_END]).next;
    if |ps| == 1 {
      LineStops(at, text, true, more);
    } else {
      LineStops(at, text, false, ParametersAhead(ps[1..], more));
    }
  }

  /** A line end before the end of the call or another parameter. */
  lemma LineStops(index: nat, text: string, ends: bool, more: string)
    requires index <= |text| && text[index..] == ">\n" + ((if ends then INVOKE_END else PARAMETER_START) + more)
    ensures var r := StopAt(text, index, [PARAMETER_START, INVOKE_END]);
      && r.content == ">\n" && r.stop == Some(if ends then INVOKE_END else PARAMETER_START) && text[r.next..] == more
  {
    Tails();
    LineFree();
    if ends {
      FreeStops(index, text, ">\n", TAIL_INVOKED, TAIL_PARAMETER, more, [PARAMETER_START, INVOKE_END]);
    } else {
      FreeStops(index, text, ">\n", TAIL_PARAMETER, TAIL_INVOKED, more, [PARAMETER_START, INVOKE_END]);
    }
  }

  function BehindParameter(ps: seq<Parameter>, more: string): string
    requires ps != []
  {
    if |ps| == 1 then INVOKE_END + more else PARAMETER_START + ParametersAhead(ps[1..], more)
  }

  lemma BodyStops(index: nat, text: string, p: Parameter, behind: string)
    requires index <= |text| && FreeParameter(p) && text[index..] == Body(p) + (PARAMETER_END + behind)
    ensures var r := StopAt(text, index, [PARAMETER_END]);
      r.content == Body(p) && r.stop == Some(PARAMETER_END) && text[r.next..] == behind
  {
    BodyFree(p);
    FreeOfStops(Body(p));
    EndParameter(PARAMETER_END + behind);
    StopsAlone(text, index, Body(p), PARAMETER_END + behind, PARAMETER_END);
  }

  /** A text that is free of the token, before one of two tokens. */
  lemma FreeStops(index: nat, text: string, a: string, tail: string, other: string, more: string, stops: seq<string>)
    requires index <= |text| && Free(a, TOKEN) && text[index..] == a + ("<" + tail + more)
    requires (tail == TAIL_PARAMETER && other == TAIL_INVOKED) || (tail == TAIL_INVOKED && other == TAIL_PARAMETER)
      || (tail == TAIL_INVOKE && other == TAIL_CALLED) || (tail == TAIL_CALLED && other == TAIL_INVOKE)
    requires stops == ["<" + tail, "<" + other] || stops == ["<" + other, "<" + tail]
    ensures StopAt(text, index, stops) == Stop(index + |a| + 1 + |tail|, a, Some("<" + tail))
    ensures text[index + |a| + 1 + |tail|..] == more
  {
    Tails();
    Differ(more);
    FreeOfStops(a);
    BracketStops(text, index, a, "<" + tail + more, tail, other, stops);
  }

  lemma LineFree()
    ensures Free(">\n", TOKEN)
  {
    PlainFree(">\n");
  }

  lemma NameMatched(c: Invoke)
    ensures MatchName(NamePart(c)) == Some(c.name)
  {
    var end := if c.parameters == [] then "\">\n\n" else "\">\n";
    var s := " name=\"" + (c.name + end);
    assert s[0] == ' ' && s[1] == 'n' && SpaceEnd(s, 1) == 1 && SpaceEnd(s, 0) == 1;
    assert s[1..7] == "name=\"";
    assert s[|s| - |end|..] == end && s[7..|s| - |end|] == c.name;
    if c.parameters != [] {
      assert s[|s| - 4..][2] == '>' && "\">\n\n"[2] == '\n';
    }
  }

  /** Behind `<invoke`: the name up to the first parameter or the end of the call. */
  lemma InvokeStops(index: nat, text: string, c: Invoke, more: string)
    requires index <= |text| && FreeInvoke(c) && text[index..] == InvokeAhead(c, more)
    ensures var r := StopAt(text, index, [PARAMETER_START, INVOKE_END]);
      && r.content == NamePart(c)
      && r.stop == Some(if c.parameters == [] then INVOKE_END else PARAMETER_START)
      && text[r.next..] == if c.parameters == [] then more else ParametersAhead(c.parameters, more)
  {
    var name := NamePart(c);
    NameFree(c);
    Tails();
    assert InvokeAhead(c, more) == name + if c.parameters == []
      then INVOKE_END + more else PARAMETER_START + ParametersAhead(c.parameters, more);
    if c.parameters == [] {
      FreeStops(index, text, name, TAIL_INVOKED, TAIL_PARAMETER, more, [PARAMETER_START, INVOKE_END]);
    } else {
      FreeStops(index, text, name, TAIL_PARAMETER, TAIL_INVOKED, ParametersAhead(c.parameters, more),
                [PARAMETER_START, INVOKE_END]);
    }
  }

  /** Before a call: a line end up to it, or up to the end of the block. */
  lemma CallStops(index: nat, text: string, cs: seq<Invoke>, rest: string)
    requires index <= |text| && text[index..] == InvokesAhead(cs, rest)
    ensures var r := StopAt(text, index, [INVOKE_START, CALLS_END]);
      && index < |text| && r.content == ">\n"
      && r.stop == Some(if cs == [] then CALLS_END else INVOKE_START)
      && text[r.next..] == if cs == [] then rest else InvokeAhead(cs[0], InvokesAhead(cs[1..], rest))
  {
    Tails();
    LineFree();
    if cs == [] {
      FreeStops(index, text, ">\n", TAIL_CALLED, TAIL_INVOKE, rest, [INVOKE_START, CALLS_END]);
    } else {
      FreeStops(index, text, ">\n", TAIL_INVOKE, TAIL_CALLED, InvokeAhead(cs[0], InvokesAhead(cs[1..], rest)),
                [INVOKE_START, CALLS_END]);
    }
  }

  /******* The parser *******/

  /** The parameters of a call, behind the name. */
  method ParseParameters(start: nat, text: string, first: Option<string>, ghost ps: Option<seq<Parameter>>,
                         ghost more: string)
    returns (index: nat, stop: Option<string>, arguments: Result<seq<Parameter>, Error>)
    requires start <= |text|
    requires ps.Some? ==> (forall i | 0 <= i < |ps.value| :: FreeParameter(ps.value[i]))
    requires ps.Some? && ps.value == [] ==> first == Some(INVOKE_END) && text[start..] == more
    requires ps.Some? && ps.value != [] ==>
      first == Some(PARAMETER_START) && text[start..] == ParametersAhead(ps.value, more)
    ensures start <= index <= |text|
    ensures ps.Some? ==> arguments == ReadAll([], ps.value)
    ensures ps.Some? && arguments.Ok? ==> stop == Some(INVOKE_END) && text[index..] == more
  {
    hide Body, StopAt, MatchParameter, HasKey, FreeParameter, ParametersAhead;
    index, stop := start, first;
    var found: seq<Parameter> := [];
    ghost var todo := if ps.Some? then ps.value else [];
    while stop == Some(PARAMETER_START)
      invariant start <= index <= |text|
      invariant ps.Some? ==>
        && (forall i | 0 <= i < |todo| :: FreeParameter(todo[i]))
        && ReadAll([], ps.value) == ReadAll(found, todo)
        && (if todo == [] then stop == Some(INVOKE_END) && text[index..] == more
            else stop == Some(PARAMETER_START) && text[index..] == ParametersAhead(todo, more))
      decreases |text| - index, if stop == Some(PARAMETER_START) then 1 else 0
    {
      if ps.Some? {
        ParameterStops(index, text, todo, more);
      }
      var at, content, end := ReadUntilStop(index, text, [PARAMETER_END]);
      var matched := MatchParameter(content);
      if matched.None? {
        return at, end, Err(ParameterFormat);
      }
      var p := matched.value;
      if HasKey(found, p.key) {
        return at, end, Err(DuplicateParameter);
      }
      found := found + [p];
      var next, between, behind := ReadUntilStop(at, text, [PARAMETER_START, INVOKE_END]);
      if between != ">\n" {
        return next, behind, Err(ParameterFormat);
      }
      index, stop := next, behind;
      if ps.Some? {
        todo := todo[1..];
      }
    }
    arguments := Ok(found);
  }

  /** parse_tool_calls */
  method ParseToolCalls(start: nat, text: string, ghost cs: Option<seq<Invoke>>, ghost rest: string)
    returns (index: nat, stop: Option<string>, calls: Result<seq<ToolCall>, Error>)
    requires start <= |text|
    requires cs.Some? ==>
      text[start..] == InvokesAhead(cs.value, rest) && forall i | 0 <= i < |cs.value| :: FreeInvoke(cs.value[i])
    ensures start <= index <= |text|
    ensures cs.Some? ==> calls == ReadCalls([], cs.value)
    ensures cs.Some? && calls.Ok? ==> text[index..] == rest
  {
    hide StopAt, MatchName, FreeInvoke, InvokesAhead, InvokeAhead, ReadAll, DecodeArguments, NamePart, ParametersAhead;
    index, stop := start, None;
    var found: seq<ToolCall> := [];
    ghost var todo := if cs.Some? then cs.value else [];
    while index < |text|
      invariant start <= index <= |text|
      invariant cs.Some? ==>
        && text[index..] == InvokesAhead(todo, rest) && (forall i | 0 <= i < |todo| :: FreeInvoke(todo[i]))
        && ReadCalls([], cs.value) == ReadCalls(found, todo)
      decreases |text| - index
    {
      if cs.Some? {
        CallStops(index, text, todo, rest);
      }
      var at, content, token := ReadUntilStop(index, text, [INVOKE_START, CALLS_END]);
      if content != ">\n" {
        return at, token, Err(CallFormat);
      }
      if token == Some(CALLS_END) {
        return at, token, Ok(found);
      }
      if token.None? {
        return at, token, Err(MissingToken);
      }
      if cs.Some? {
        InvokeStops(at, text, todo[0], InvokesAhead(todo[1..], rest));
        NameMatched(todo[0]);
      }
      var named, nameContent, first := ReadUntilStop(at, text, [PARAMETER_START, INVOKE_END]);
      var name := MatchName(nameContent);
      if name.None? {
        return named, first, Err(NameFormat);
      }
      ghost var ps := None;
      ghost var more := "";
      if cs.Some? {
        ps, more := Some(todo[0].parameters), InvokesAhead(todo[1..], rest);
        ParametersFree(todo[0]);
      }
      var next, last, arguments := ParseParameters(named, text, first, ps, more);
      if arguments.Err? {
        return next, last, Err(arguments.error);
      }
      index, stop := next, last;
      found := found + [DecodeArguments(name.value, arguments.value)];
      if cs.Some? {
        todo := todo[1..];
      }
    }
    if cs.Some? {
      CallStops(index, text, todo, rest);
    }
    calls := Ok(found);
  }

  lemma ParametersFree(c: Invoke)
    requires FreeInvoke(c)
    ensures forall i | 0 <= i < |c.parameters| :: FreeParameter(c.parameters[i])
  {
  }

  /******* Whole messages *******/

  /** What was written out: a turn with its calls as parameters, and whether the end of sentence follows. */
  datatype Written = Written(reasoning: string, content: string, invokes: seq<Invoke>, eos: bool)

  const SPECIAL := [BOS, EOS, THINK_START, THINK_END, TOKEN]

  ghost predicate FreeText(s: string) {
    Free(s, BOS) && Free(s, EOS) && Free(s, THINK_START) && Free(s, THINK_END) && Free(s, TOKEN)
  }

  /** No field that is written contains a special token; within calls only the DSML token matters. */
  ghost predicate Tame(w: Written, thinking: bool) {
    && (thinking ==> FreeText(w.reasoning)) && FreeText(w.content)
    && forall i | 0 <= i < |w.invokes| :: FreeInvoke(w.invokes[i])
  }

  function Ending(w: Written): string {
    if w.eos then EOS else ""
  }

  function ReadMessage(w: Written, thinking: bool): Result<Message, Error> {
    if w.invokes == [] && !w.eos then Err(MissingEos)
    else match ReadCalls([], w.invokes)
      case Err(e) => Err(e)
      case Ok(calls) => Ok(Message(if thinking then w.reasoning else "", w.content, calls))
  }

  /** The start of the calls crosses into nothing that follows a text. */
  lemma CallsStraddle(f: string)
    requires THINK_END <= f || EOS <= f || CALLS_START <= f
    ensures NoStraddle(CALLS_START, f)
  {
    var s := CALLS_START;
    assert s[0] == '\n' && s[1] == '\n' && s[2] == '<' && s[3] == '\U{FF5C}' && s[4] == 'D';
    assert s[3..] == TOKEN + "tool_calls" && '<' !in s[3..] && '\n' !in s[3..];
    assert THINK_END[0] == '<' && THINK_END[1] == '/' && EOS[0] == '<' && EOS[1] == '\U{FF5C}' && EOS[2] == 'e';
    forall k | 1 <= k < |s| ensures !(s[k..] <= f) {
      SuffixFirst(s, k, f);
      if k >= 3 {
        assert s[k] == s[3..][k - 3];
      } else {
        assert s[k..][1] == s[k + 1] && s[k..][2] == s[k + 2];
      }
    }
  }

  lemma ThinkStops(text: string, reasoning: string, behind: string)
    requires FreeText(reasoning) && text == reasoning + (THINK_END + behind)
    ensures var r := StopAt(text, 0, [THINK_END, CALLS_START]);
      r.content == reasoning && r.stop == Some(THINK_END) && text[r.next..] == behind
  {
    FreeOfStops(reasoning);
    var f := THINK_END + behind;
    assert f[0] == '<' && CALLS_START[0] == '\n' && text[0..] == text;
    NoneStraddles("/think>", f);
    assert THINK_END == "<" + "/think>";
    CallsStraddle(f);
    StopsBehind(text, 0, reasoning, f, THINK_END, CALLS_START, [THINK_END, CALLS_START]);
  }

  lemma EndStraddle(f: string)
    requires EOS <= f || CALLS_START <= f
    ensures NoStraddle(EOS, f)
  {
    var tail := "\U{FF5C}end\U{2581}of\U{2581}sentence\U{FF5C}>";
    assert EOS == ['<'] + tail && '<' !in tail && '\n' !in tail;
    assert EOS[0] == '<' && CALLS_START[0] == '\n';
    NoStraddleByFirst('<', tail, f);
  }

  lemma ContentStops(text: string, index: nat, w: Written)
    requires index <= |text| && FreeText(w.content) && text[index..] == w.content + CallsText(w.invokes) + Ending(w)
    ensures var r := StopAt(text, index, [EOS, CALLS_START]);
      && r.content == w.content
      && (if w.invokes != [] then r.stop == Some(CALLS_START) && text[r.next..] == InvokesAhead(w.invokes, Ending(w))
          else if w.eos then r.stop == Some(EOS) && r.stop != Some(CALLS_START) && text[r.next..] == ""
          else r.stop == None)
  {
    FreeOfStops(w.content);
    assert EOS[0] == '<' && CALLS_START[0] == '\n';
    if w.invokes != [] {
      CallsGrouped(w.invokes, Ending(w));
      Regrouped(w.content, CallsText(w.invokes), Ending(w));
      StopsAtCalls(text, index, w.content, InvokesAhead(w.invokes, Ending(w)));
    } else {
      NoCalls(w.content);
      if w.eos {
        StopsAtEnd(text, index, w.content);
      } else {
        StopsNowhere(text, index, [EOS, CALLS_START]);
      }
    }
  }

  lemma NoCalls(content: string)
    requires FreeText(content)
    ensures content + CallsText([]) + EOS == content + EOS && content + CallsText([]) + "" == content
      && Free(content, EOS)
  {
  }

  lemma StopsAtCalls(text: string, index: nat, content: string, more: string)
    requires index <= |text| && FreeText(content) && Free(content, CALLS_START)
      && text[index..] == content + (CALLS_START + more)
    ensures var r := StopAt(text, index, [EOS, CALLS_START]);
      r.content == content && r.stop == Some(CALLS_START) && text[r.next..] == more
  {
    assert EOS[0] == '<' && (CALLS_START + more)[0] == '\n';
    CallsStraddle(CALLS_START + more);
    EndStraddle(CALLS_START + more);
    StopsBehind(text, index, content, CALLS_START + more, CALLS_START, EOS, [EOS, CALLS_START]);
  }

  lemma StopsAtEnd(text: string, index: nat, content: string)
    requires index <= |text| && FreeText(content) && Free(content, CALLS_START) && text[index..] == content + EOS
    ensures var r := StopAt(text, index, [EOS, CALLS_START]);
      r.content == content && r.stop == Some(EOS) && text[r.next..] == ""
  {
    assert EOS[0] == '<' && CALLS_START[0] == '\n';
    CallsStraddle(EOS);
    EndStraddle(EOS);
    StopsBehind(text, index, content, EOS, EOS, CALLS_START, [EOS, CALLS_START]);
  }

  lemma Regrouped(a: string, b: string, c: string)
    ensures a + b + c == a + (b + c)
  {
  }

  /** Behind the calls: the end of sentence, or nothing. */
  lemma EndStops(text: string, index: nat, w: Written)
    requires index <= |text| && text[index..] == Ending(w)
    ensures StopAt(text, index, [EOS]) == Stop(|text|, "", if w.eos then Some(EOS) else None)
  {
    PlainFree("");
    FreeByFirst("", EOS);
    if w.eos {
      EndStraddle(EOS);
      assert text[index..] == "" + EOS;
      StopsAlone(text, index, "", EOS, EOS);
      assert |text| == index + |EOS|;
    } else {
      StopsNowhere(text, index, [EOS]);
    }
  }

  method HasSpecial(s: string) returns (has: bool)
    ensures has <==> !FreeText(s)
  {
    has := false;
    for i := 0 to |SPECIAL|
      invariant has <==> exists j :: 0 <= j < i && Find(s, SPECIAL[j], 0).Some?
    {
      has := has || Find(s, SPECIAL[i], 0).Some?;
    }
    assert SPECIAL[0] == BOS && SPECIAL[1] == EOS && SPECIAL[2] == THINK_START && SPECIAL[3] == THINK_END
      && SPECIAL[4] == TOKEN;
    forall i | 0 <= i < |SPECIAL| ensures Find(s, SPECIAL[i], 0).None? <==> Free(s, SPECIAL[i]) {
      if Find(s, SPECIAL[i], 0).Some? {
        assert At(s, Find(s, SPECIAL[i], 0).value, SPECIAL[i]);
      }
    }
  }

  lemma TameInvokes(w: Written, thinking: bool)
    requires Tame(w, thinking)
    ensures forall i | 0 <= i < |w.invokes| :: FreeInvoke(w.invokes[i])
  {
  }

  lemma NothingFree()
    ensures FreeText("")
  {
    FreeByFirst("", BOS);
    FreeByFirst("", EOS);
    FreeByFirst("", THINK_START);
    FreeByFirst("", THINK_END);
    FreeByFirst("", TOKEN);
  }

  /** parse_message_from_completion_text */
  method ParseMessage(text: string, thinking: bool, ghost w: Option<Written>) returns (r: Result<Message, Error>)
    requires w.Some? ==> Tame(w.value, thinking)
    requires w.Some? ==> text == TurnText(w.value.reasoning, w.value.content, w.value.invokes, thinking, w.value.eos)
    ensures w.Some? ==> r == ReadMessage(w.value, thinking)
  {
    NothingFree();
    hide StopAt, FreeText, FreeInvoke, CallsText, InvokesAhead;
    var reasoning := "";
    var index := 0;
    if thinking {
      if w.Some? {
        ghost var behind := w.value.content + CallsText(w.value.invokes) + Ending(w.value);
        Ahead(w.value.reasoning, w.value.content, CallsText(w.value.invokes), Ending(w.value));
        ThinkStops(text, w.value.reasoning, behind);
      }
      var next, content, token := ReadUntilStop(0, text, [THINK_END, CALLS_START]);
      index, reasoning := next, content;
      if token != Some(THINK_END) {
        return Err(MissingThinkEnd);
      }
    } else if w.Some? {
      assert text[0..] == w.value.content + CallsText(w.value.invokes) + Ending(w.value);
    }
    if w.Some? {
      ContentStops(text, index, w.value);
    }
    var next, content, token := ReadUntilStop(index, text, [EOS, CALLS_START]);
    index := next;
    var calls: seq<ToolCall> := [];
    if token == Some(CALLS_START) {
      if w.Some? {
        TameInvokes(w.value, thinking);
      }
      var behind, last, found := ParseToolCalls(index, text, if w.Some? then Some(w.value.invokes) else None,
                                                if w.Some? then Ending(w.value) else "");
      if found.Err? {
        return Err(found.error);
      }
      calls := found.value;
      if w.Some? {
        EndStops(text, behind, w.value);
      }
      var end, between, final := ReadUntilStop(behind, text, [EOS]);
      if between != "" {
        return Err(AfterCalls);
      }
      index, token := end, final;
    } else if token != Some(EOS) {
      return Err(MissingEos);
    }
    if index != |text| {
      return Err(AtEnd);
    }
    var inContent := HasSpecial(content);
    var inReasoning := HasSpecial(reasoning);
    if inContent || inReasoning {
      return Err(SpecialToken);
    }
    r := Ok(Message(reasoning, content, calls));
  }

  lemma Ahead(reasoning: string, content: string, calls: string, end: string)
    ensures reasoning + THINK_END + content + calls + end == reasoning + (THINK_END + (content + calls + end))
  {
  }
}
