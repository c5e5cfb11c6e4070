/** How an assistant turn with tool calls is written out in DSML, and where the parser's stops stand in it. */
module DsmlText {
  import opened JsonSyntax
  import opened JsonPrint
  import opened TextSearch

  /******* Tokens *******/

  const TOKEN := "\U{FF5C}DSML\U{FF5C}"
  const BOS := "<\U{FF5C}begin\U{2581}of\U{2581}sentence\U{FF5C}>"
  const EOS := "<\U{FF5C}end\U{2581}of\U{2581}sentence\U{FF5C}>"
  const THINK_START := "<think>"
  const THINK_END := "</think>"

  const INVOKE_START := "<" + TOKEN + "invoke"
  const INVOKE_END := "</" + TOKEN + "invoke"
  const PARAMETER_START := "<" + TOKEN + "parameter"
  const PARAMETER_END := "/" + TOKEN + "parameter"
  const CALLS_START := "\n\n<" + TOKEN + "tool_calls"
  const CALLS_END := "</" + TOKEN + "tool_calls>"

  function Mark(isString: bool): string {
    if isString then "\" string=\"true\">" else "\" string=\"false\">"
  }

  /******* What is written *******/

  /** The arguments of a call: the dictionary its JSON text decodes to, or the text when it does not decode. */
  datatype Arguments = Dict(members: seq<Member>) | Undecoded(raw: string)
  datatype Call = Call(name: string, arguments: Arguments)
  datatype Turn = Turn(reasoning: string, content: string, calls: seq<Call>)
  datatype Parameter = Parameter(key: string, isString: bool, value: string)

  function Loaded(a: Arguments): seq<Member> {
    match a
    case Dict(members) => members
    case Undecoded(raw) => [Member("arguments", Str(raw))]
  }

  /** json.dumps with its default separators. */
  ghost function Dumps(v: Json): string
    requires Printable(v)
  {
    Text(Print(v, " "))
  }

  ghost function ParameterOf(m: Member): Parameter
    requires Printable(m.value)
  {
    Parameter(m.key, m.value.Str?, if m.value.Str? then m.value.text else Dumps(m.value))
  }

  ghost function ParametersOf(members: seq<Member>): (ps: seq<Parameter>)
    requires forall i | 0 <= i < |members| :: Printable(members[i].value)
    ensures |ps| == |members| && forall i | 0 <= i < |ps| :: ps[i] == ParameterOf(members[i])
  {
    seq(|members|, i requires 0 <= i < |members| => ParameterOf(members[i]))
  }

  /** Between `<parameter` and `/parameter`. */
  function Body(p: Parameter): string {
    " name=\"" + (p.key + (Mark(p.isString) + (p.value + "<")))
  }

  function ParameterText(p: Parameter): string {
    PARAMETER_START + Body(p) + PARAMETER_END + ">"
  }

  function ParametersText(ps: seq<Parameter>): string {
    if ps == [] then ""
    else if |ps| == 1 then ParameterText(ps[0])
    else ParameterText(ps[0]) + "\n" + ParametersText(ps[1..])
  }

  /** A call with its parameters. */
  datatype Invoke = Invoke(name: string, parameters: seq<Parameter>)

  function InvokeText(c: Invoke): string {
    INVOKE_START + " name=\"" + c.name + "\">\n" + ParametersText(c.parameters) + "\n" + INVOKE_END + ">"
  }

  function InvokesText(cs: seq<Invoke>): string {
    if cs == [] then "" else if |cs| == 1 then InvokeText(cs[0]) else InvokeText(cs[0]) + "\n" + InvokesText(cs[1..])
  }

  function CallsText(cs: seq<Invoke>): string {
    if cs == [] then "" else CALLS_START + ">\n" + InvokesText(cs) + "\n" + CALLS_END
  }

  /** The assistant branch of render_message; without thinking the reasoning is dropped. */
  function TurnText(reasoning: string, content: string, cs: seq<Invoke>, thinking: bool, eos: bool): string {
    (if thinking then reasoning + THINK_END else "") + content + CallsText(cs) + (if eos then EOS else "")
  }

  /** encode_arguments_to_dsml, `dumped` being what to_json gives of the values. */
  method EncodeArguments(arguments: Arguments, dumped: seq<string>) returns (text: string)
    requires |dumped| == |Loaded(arguments)|
    requires forall i | 0 <= i < |dumped| ::
      Printable(Loaded(arguments)[i].value) && dumped[i] == Dumps(Loaded(arguments)[i].value)
    ensures text == ParametersText(ParametersOf(Loaded(arguments)))
  {
    var parts := [];
    var members := Loaded(arguments);
    for i := 0 to |members|
      invariant |parts| == i && forall j | 0 <= j < i :: parts[j] == ParameterOf(members[j])
    {
      var m := members[i];
      parts := parts + [Parameter(m.key, m.value.Str?, if m.value.Str? then m.value.text else dumped[i])];
    }
    assert parts == ParametersOf(members);
    text := ParametersText(parts);
  }

  /** A string is written as it is and said to be one; anything else is written as JSON and said to be none. */
  lemma WrittenParameter(m: Member)
    requires Printable(m.value)
    ensures ParameterText(ParameterOf(m)) ==
      (PARAMETER_START + " name=\"") + m.key
      + (if m.value.Str? then "\" string=\"true\">" + m.value.text
         else "\" string=\"false\">" + Text(Print(m.value, " ")))
      + ("<" + PARAMETER_END + ">")
  {
    Spelled(PARAMETER_START, " name=\"", m.key, Mark(m.value.Str?), ParameterOf(m).value, PARAMETER_END);
  }

  lemma Spelled(start: string, name: string, key: string, mark: string, value: string, end: string)
    ensures start + (name + (key + (mark + (value + "<")))) + end + ">" ==
      (start + name) + key + (mark + value) + ("<" + end + ">")
  {
  }

  /******* The text ahead of the parser *******/

  /** Behind `<parameter`. */
  function ParametersAhead(ps: seq<Parameter>, more: string): string
    requires ps != []
  {
    Body(ps[0]) + (PARAMETER_END + (">\n" +
      if |ps| == 1 then INVOKE_END + more else PARAMETER_START + ParametersAhead(ps[1..], more)))
  }

  /** The name of a call with what surrounds it; without parameters another line end follows. */
  function NamePart(c: Invoke): string {
    " name=\"" + (c.name + (if c.parameters == [] then "\">\n\n" else "\">\n"))
  }

  /** Behind `<invoke`. */
  function InvokeAhead(c: Invoke, more: string): string {
    NamePart(c) + if c.parameters == []
      then INVOKE_END + more else PARAMETER_START + ParametersAhead(c.parameters, more)
  }

  /** Behind `<tool_calls` or `</invoke`. */
  function InvokesAhead(cs: seq<Invoke>, rest: string): string {
    ">\n" + if cs == [] then CALLS_END + rest else INVOKE_START + InvokeAhead(cs[0], InvokesAhead(cs[1..], rest))
  }

  lemma {:induction false} ParametersGrouped(ps: seq<Parameter>, more: string)
    requires ps != []
    ensures ParametersText(ps) + "\n" + INVOKE_END + more == PARAMETER_START + ParametersAhead(ps, more)
    decreases |ps|
  {
    var tail := if |ps| == 1
      then "\n" + INVOKE_END + more else "\n" + ParametersText(ps[1..]) + "\n" + INVOKE_END + more;
    Group(PARAMETER_START, Body(ps[0]), PARAMETER_END, tail);
    if |ps| > 1 {
      ParametersGrouped(ps[1..], more);
      GroupLine(ParameterText(ps[0]), ParametersText(ps[1..]), INVOKE_END, more);
      Lined(ParametersText(ps[1..]) + "\n" + INVOKE_END + more, ParametersText(ps[1..]), INVOKE_END, more);
    } else {
      Single(ParameterText(ps[0]), INVOKE_END, more);
    }
    assert ParameterText(ps[0]) + tail == PARAMETER_START + (Body(ps[0]) + (PARAMETER_END + (">" + tail)));
  }

  lemma Group(a: string, b: string, c: string, tail: string)
    ensures a + b + c + ">" + tail == a + (b + (c + (">" + tail)))
  {
  }

  lemma GroupLine(a: string, b: string, end: string, more: string)
    ensures a + "\n" + b + "\n" + end + more == a + ("\n" + b + "\n" + end + more)
  {
  }

  lemma Lined(x: string, b: string, end: string, more: string)
    requires x == b + "\n" + end + more
    ensures ">" + ("\n" + b + "\n" + end + more) == ">\n" + x
  {
  }

  lemma Single(a: string, end: string, more: string)
    ensures a + "\n" + end + more == a + ("\n" + end + more) && ">" + ("\n" + end + more) == ">\n" + (end + more)
  {
  }

  lemma InvokeGrouped(c: Invoke, tail: string, more: string)
    requires ">" + tail == more
    ensures InvokeText(c) + tail == INVOKE_START + InvokeAhead(c, more)
  {
    var ps := ParametersText(c.parameters);
    NameGrouped(INVOKE_START, c.name, ps, INVOKE_END, tail);
    if c.parameters == [] {
      NoParameters(INVOKE_START, c.name, INVOKE_END, more);
    } else {
      ParametersGrouped(c.parameters, more);
      SomeParameters(c.name, PARAMETER_START, ParametersAhead(c.parameters, more));
    }
  }

  lemma NameGrouped(start: string, name: string, ps: string, end: string, tail: string)
    ensures start + " name=\"" + name + "\">\n" + ps + "\n" + end + ">" + tail ==
      start + (" name=\"" + (name + ("\">\n" + (ps + "\n" + end + (">" + tail)))))
  {
  }

  lemma NoParameters(start: string, name: string, end: string, more: string)
    ensures " name=\"" + (name + ("\">\n" + ("" + "\n" + end + more))) == " name=\"" + (name + "\">\n\n") + (end + more)
  {
  }

  lemma SomeParameters(name: string, start: string, ps: string)
    ensures " name=\"" + (name + ("\">\n" + (start + ps))) == " name=\"" + (name + "\">\n") + (start + ps)
  {
  }

  lemma {:induction false} InvokesGrouped(cs: seq<Invoke>, rest: string)
    requires cs != []
    ensures InvokesText(cs) + "\n" + CALLS_END + rest == INVOKE_START + InvokeAhead(cs[0], InvokesAhead(cs[1..], rest))
    decreases |cs|
  {
    hide InvokeText, InvokeAhead;
    var tail := if |cs| == 1 then "\n" + CALLS_END + rest else "\n" + InvokesText(cs[1..]) + "\n" + CALLS_END + rest;
    if |cs| > 1 {
      InvokesGrouped(cs[1..], rest);
      GroupLine(InvokeText(cs[0]), InvokesText(cs[1..]), CALLS_END, rest);
      Lined(InvokesText(cs[1..]) + "\n" + CALLS_END + rest, InvokesText(cs[1..]), CALLS_END, rest);
    } else {
      Single(InvokeText(cs[0]), CALLS_END, rest);
    }
    InvokeGrouped(cs[0], tail, InvokesAhead(cs[1..], rest));
  }

  /** The block of calls, as the parser meets it. */
  lemma CallsGrouped(cs: seq<Invoke>, rest: string)
    requires cs != []
    ensures CallsText(cs) + rest == CALLS_START + InvokesAhead(cs, rest)
  {
    InvokesGrouped(cs, rest);
    Block(CALLS_START, InvokesText(cs), CALLS_END, rest);
  }

  lemma Block(start: string, b: string, end: string, rest: string)
    ensures start + ">\n" + b + "\n" + end + rest == start + (">\n" + (b + "\n" + end + rest))
  {
  }

  /******* Fields free of the token *******/

  lemma TokenStarts()
    ensures TOKEN[0] == '\U{FF5C}' && TOKEN[1] == 'D' && |TOKEN| == 6
    ensures forall c: char :: c in TOKEN[1..] ==> c == '\U{FF5C}' || 'A' <= c <= 'Z'
  {
    assert TOKEN == "\U{FF5C}" + "DSML\U{FF5C}";
    assert TOKEN[1..] == "DSML\U{FF5C}";
  }

  predicate Plain(s: string) {
    forall i | 0 <= i < |s| :: s[i] < '\U{0080}'
  }

  /** Behind a text free of the token, something that starts in lower case or with a sign. */
  lemma FreeThen(a: string, f: string)
    requires Free(a, TOKEN) && Free(f, TOKEN) && f != "" && f[0] < 'A'
    ensures Free(a + f, TOKEN)
  {
    TokenStarts();
    assert TOKEN == [TOKEN[0]] + TOKEN[1..];
    NoStraddleByFirst(TOKEN[0], TOKEN[1..], f);
    FreeConcat(a, f, TOKEN);
  }

  lemma PlainThen(a: string, f: string)
    requires Plain(a) && Free(f, TOKEN)
    ensures Free(a + f, TOKEN)
  {
    TokenStarts();
    FreeAfter(a, f, TOKEN);
  }

  lemma PlainFree(a: string)
    requires Plain(a)
    ensures Free(a, TOKEN)
  {
    TokenStarts();
    FreeByFirst(a, TOKEN);
  }

  ghost predicate FreeParameter(p: Parameter) {
    Free(p.key, TOKEN) && Free(p.value, TOKEN)
  }

  ghost predicate FreeInvoke(c: Invoke) {
    Free(c.name, TOKEN) && forall i | 0 <= i < |c.parameters| :: FreeParameter(c.parameters[i])
  }

  lemma BodyFree(p: Parameter)
    requires FreeParameter(p)
    ensures Free(Body(p), TOKEN)
  {
    PlainFree("<");
    FreeThen(p.value, "<");
    PlainThen(Mark(p.isString), p.value + "<");
    FreeThen(p.key, Mark(p.isString) + (p.value + "<"));
    PlainThen(" name=\"", p.key + (Mark(p.isString) + (p.value + "<")));
  }

  lemma NameFree(c: Invoke)
    requires FreeInvoke(c)
    ensures Free(NamePart(c), TOKEN)
  {
    var end := if c.parameters == [] then "\">\n\n" else "\">\n";
    PlainFree(end);
    FreeThen(c.name, end);
    PlainThen(" name=\"", c.name + end);
  }
}
