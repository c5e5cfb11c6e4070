/** Writing out a turn and parsing it again: what is recovered, and when it is everything. */
module DsmlRoundTrip {
  import opened Wrappers
  import opened JsonSyntax
  import opened JsonPrint
  import opened TextSearch
  import opened DsmlText
  import opened Dsml

  /** The name does not contain what ends a name. */
  ghost predicate Unmarked(key: string) {
    Free(key, Mark(true)) && Free(key, Mark(false))
  }

  /** Read back, a parameter is itself, or its name is cut off before a quote in it. */
  ghost predicate ReadsAs(p: Parameter, q: Parameter) {
    if Unmarked(p.key) then q == p
    else |q.key| < |p.key| && q.key == p.key[..|q.key|] && p.key[|q.key|] == '"'
  }

  /******* One parameter *******/

  lemma MarksStraddle(b: bool, flag: bool, rest: string)
    ensures NoStraddle(Mark(b), Mark(flag) + rest)
  {
    var s, f := Mark(b), Mark(flag) + rest;
    assert f[0] == '"' && f[1] == ' ';
    forall k | 1 <= k < |s| ensures !(s[k..] <= f) {
      SuffixFirst(s, k, f);
      if k + 1 < |s| {
        assert s[k..][1] == s[k + 1];
      }
    }
  }

  lemma MarkInBody(key: string, tail: string, k: nat, b: bool, flag: bool)
    requires At(" name=\"" + (key + (Mark(flag) + tail)), k, Mark(b)) && 7 <= k
    ensures k >= 7 + |key| || At(key, k - 7, Mark(b))
    ensures k == 7 + |key| ==> b == flag
  {
    hide At, Mark, Free, NoStraddle;
    var c, rest := " name=\"" + (key + (Mark(flag) + tail)), Mark(flag) + tail;
    assert c[7..] == key + rest;
    AtBehind(c, 7, k - 7, Mark(b));
    MarksStraddle(b, flag, tail);
    Crossing(key, rest, k - 7, Mark(b));
    if k == 7 + |key| {
      SameMark(b, flag, tail);
    }
  }

  lemma SameMark(b: bool, flag: bool, tail: string)
    requires Mark(b) <= Mark(flag) + tail
    ensures b == flag
  {
    var rest := Mark(flag) + tail;
    assert rest[10] == Mark(flag)[10] && Mark(b)[10] == rest[10];
  }

  lemma MarkOfKey(key: string, tail: string, i: nat, b: bool, flag: bool)
    requires At(key, i, Mark(b))
    ensures At(" name=\"" + (key + (Mark(flag) + tail)), 7 + i, Mark(b))
  {
    var c := " name=\"" + (key + (Mark(flag) + tail));
    assert c[7 + i..7 + i + |Mark(b)|] == key[i..i + |Mark(b)|];
  }

  lemma MarkBehindKey(key: string, tail: string, flag: bool)
    ensures At(" name=\"" + (key + (Mark(flag) + tail)), 7 + |key|, Mark(flag))
  {
    var c := " name=\"" + (key + (Mark(flag) + tail));
    assert c[7 + |key|..7 + |key| + |Mark(flag)|] == Mark(flag);
  }

  lemma FirstMarkOf(p: Parameter)
    ensures var r := FirstMark(Body(p), 7);
      && r.Some? && r.value.0 <= 7 + |p.key|
      && (if Unmarked(p.key) then r.value == (7 + |p.key|, p.isString)
          else r.value.0 < 7 + |p.key| && At(p.key, r.value.0 - 7, Mark(r.value.1)))
  {
    var tail := p.value + "<";
    MarkBehindKey(p.key, tail, p.isString);
    var r := FirstMark(Body(p), 7);
    var (k, b) := r.value;
    MarkInBody(p.key, tail, k, b, p.isString);
    if !Unmarked(p.key) {
      var flag := !Free(p.key, Mark(true));
      var i: nat :| At(p.key, i, Mark(flag));
      MarkOfKey(p.key, tail, i, flag, p.isString);
    }
  }

  lemma BodyParts(p: Parameter, n: nat)
    requires n <= |p.key|
    ensures var c := Body(p);
      && At(c, 0, " name=\"") && c[|c| - 1] == '<' && |c| >= 8 + |p.key|
      && c[7..7 + n] == p.key[..n]
      && c[7 + |p.key| + |Mark(p.isString)|..|c| - 1] == p.value
  {
    var c := Body(p);
    assert c[0..7] == " name=\"";
  }

  lemma LastOfMark(c: string, k: nat, b: bool)
    requires At(c, k, Mark(b)) && c[|c| - 1] == '<'
    ensures k + |Mark(b)| < |c|
  {
    assert c[k + |Mark(b)| - 1] == c[k..k + |Mark(b)|][|Mark(b)| - 1] == '>';
  }

  lemma Matched(c: string, k: nat, b: bool)
    requires |c| >= 7 && At(c, 0, " name=\"") && c[|c| - 1] == '<' && FirstMark(c, 7) == Some((k, b))
    ensures k + |Mark(b)| < |c| && MatchParameter(c) == Pick(c, Some((k, b)), Some(|c| - 1))
  {
    LastOfMark(c, k, b);
  }

  lemma PickIs(p: Parameter, k: nat, b: bool)
    requires 7 <= k && k + |Mark(b)| < |Body(p)|
    requires if Unmarked(p.key)
      then k == 7 + |p.key| && b == p.isString else k < 7 + |p.key| && At(p.key, k - 7, Mark(b))
    ensures var r := Pick(Body(p), Some((k, b)), Some(|Body(p)| - 1)); r.Some? && ReadsAs(p, r.value)
  {
    hide Body, Unmarked, Mark, At;
    BodyParts(p, k - 7);
    if !Unmarked(p.key) {
      QuoteAt(p.key, k - 7, b);
    } else {
      assert p.key[..|p.key|] == p.key;
    }
  }

  lemma ParameterRead(p: Parameter)
    ensures MatchParameter(Body(p)).Some? && ReadsAs(p, MatchParameter(Body(p)).value)
  {
    FirstMarkOf(p);
    var (k, b) := FirstMark(Body(p), 7).value;
    BodyParts(p, k - 7);
    Matched(Body(p), k, b);
    PickIs(p, k, b);
  }

  lemma QuoteAt(key: string, i: nat, b: bool)
    requires At(key, i, Mark(b))
    ensures i < |key| && key[i] == '"'
  {
    AtFirst(key, i, Mark(b));
  }

  /******* The parameters of a call *******/

  predicate DistinctKeys(ps: seq<Parameter>) {
    forall i, j :: 0 <= i < j < |ps| ==> ps[i].key != ps[j].key
  }

  ghost predicate AllUnmarked(ps: seq<Parameter>) {
    forall i | 0 <= i < |ps| :: Unmarked(ps[i].key)
  }

  ghost predicate AllReadAs(ps: seq<Parameter>, qs: seq<Parameter>) {
    |qs| == |ps| && forall i | 0 <= i < |ps| :: ReadsAs(ps[i], qs[i])
  }

  ghost function Seen(ps: seq<Parameter>): (qs: seq<Parameter>)
    ensures AllReadAs(ps, qs)
    decreases |ps|
  {
    if ps == [] then []
    else
      ParameterRead(ps[0]);
      SeenNext(ps, MatchParameter(Body(ps[0])).value, Seen(ps[1..]));
      [MatchParameter(Body(ps[0])).value] + Seen(ps[1..])
  }

  lemma SeenNext(ps: seq<Parameter>, q: Parameter, qs: seq<Parameter>)
    requires ps != [] && ReadsAs(ps[0], q) && AllReadAs(ps[1..], qs)
    ensures AllReadAs(ps, [q] + qs)
  {
    hide ReadsAs;
    forall i | 0 <= i < |ps| ensures ReadsAs(ps[i], ([q] + qs)[i]) {
      if i > 0 {
        assert ReadsAs(ps[1..][i - 1], qs[i - 1]);
      }
    }
  }

  predicate NoneTwice(done: seq<Parameter>, qs: seq<Parameter>)
    decreases |qs|
  {
    qs == [] || (!HasKey(done, qs[0].key) && NoneTwice(done + [qs[0]], qs[1..]))
  }

  /** The parameters are read one by one; a call only fails when names are cut to the same. */
  lemma {:induction false} ParametersRead(done: seq<Parameter>, ps: seq<Parameter>)
    ensures ReadAll(done, ps) == if NoneTwice(done, Seen(ps)) then Ok(done + Seen(ps)) else Err(DuplicateParameter)
    decreases |ps|
  {
    if ps == [] {
      assert done + [] == done;
    } else {
      ParameterRead(ps[0]);
      var q := MatchParameter(Body(ps[0])).value;
      ParametersRead(done + [q], ps[1..]);
      assert Seen(ps) == [q] + Seen(ps[1..]);
      assert ([q] + Seen(ps[1..]))[1..] == Seen(ps[1..]);
      assert done + ([q] + Seen(ps[1..])) == done + [q] + Seen(ps[1..]);
    }
  }

  lemma {:induction false} DistinctOnce(done: seq<Parameter>, ps: seq<Parameter>)
    requires DistinctKeys(done + ps)
    ensures NoneTwice(done, ps)
    decreases |ps|
  {
    if ps != [] {
      assert (done + ps)[|done|] == ps[0] && forall i | 0 <= i < |done| :: (done + ps)[i] == done[i];
      assert done + [ps[0]] + ps[1..] == done + ps;
      DistinctOnce(done + [ps[0]], ps[1..]);
    }
  }

  lemma SeenUnmarked(ps: seq<Parameter>)
    requires AllUnmarked(ps)
    ensures Seen(ps) == ps
  {
    var qs := Seen(ps);
    assert forall i | 0 <= i < |ps| :: ReadsAs(ps[i], qs[i]) && Unmarked(ps[i].key);
  }

  /******* Their text *******/

  lemma Associate(a: string, b: string, c: string)
    ensures a + b + c == a + (b + c)
  {
  }

  lemma {:induction false} CharsTextConcat(a: seq<CharSyntax>, b: seq<CharSyntax>)
    ensures CharsText(a + b) == CharsText(a) + CharsText(b)
    decreases |a|
  {
    hide CharText;
    if a != [] {
      CharsTextConcat(a[1..], b);
      assert (a + b)[1..] == a[1..] + b && (a + b)[0] == a[0];
      Associate(CharText(a[0]), CharsText(a[1..]), CharsText(b));
    } else {
      assert a + b == b;
    }
  }

  lemma PrintCharsConcat(a: string, b: string)
    ensures PrintChars(a + b) == PrintChars(a) + PrintChars(b)
  {
    hide PrintChar, CharFormed, CharMeaning, CharsMeaning, CharsFormed;
    if a != "" {
      PrintCharsConcat(a[1..], b);
      assert (a + b)[1..] == a[1..] + b;
    } else {
      assert a + b == b;
    }
  }

  /** Where a name is cut off at a quote, its text closes; the text of the whole name has an escape there. */
  lemma CutDiffers(key: string, n: nat, x: string, y: string)
    requires n < |key| && key[n] == '"'
    ensures ToJson(key[..n]) + x != ToJson(key) + y
  {
    var front, back := PrintChars(key[..n]), PrintChars(key[n..]);
    assert key == key[..n] + key[n..];
    PrintCharsConcat(key[..n], key[n..]);
    CharsTextConcat(front, back);
    assert back[0] == Short('"') && CharsText(back)[0] == '\\';
    var at := 1 + |CharsText(front)|;
    assert (ToJson(key[..n]) + x)[at] == '"';
    assert (ToJson(key) + y)[at] == '\\';
  }

  lemma Cancel(a: string, x: string, y: string)
    ensures a + x == a + y <==> x == y
  {
    assert (a + x)[|a|..] == x && (a + y)[|a|..] == y;
  }

  lemma {:induction false} ListsEqual(ps: seq<Parameter>, qs: seq<Parameter>)
    requires AllReadAs(ps, qs)
    ensures ArgumentsList(qs) + "}" == ArgumentsList(ps) + "}" <==> AllUnmarked(ps)
    decreases |ps|
  {
    hide ArgumentText;
    if ps != [] {
      var p, q := ps[0], qs[0];
      assert ReadsAs(p, q);
      assert forall i | 0 <= i < |ps| - 1 :: ps[1..][i] == ps[i + 1] && qs[1..][i] == qs[i + 1];
      ListsEqual(ps[1..], qs[1..]);
      ListHead(ps);
      ListHead(qs);
      var x, y := Behind(qs), Behind(ps);
      if Unmarked(p.key) {
        Cancel(ArgumentText(p), x, y);
        if |ps| > 1 {
          Cancel(", ", ArgumentsList(qs[1..]) + "}", ArgumentsList(ps[1..]) + "}");
        }
        assert AllUnmarked(ps) <==> AllUnmarked(ps[1..]);
      } else {
        TextHead(p, y);
        TextHead(q, x);
        CutDiffers(p.key, |q.key|, TextBehind(q) + x, TextBehind(p) + y);
      }
    }
  }

  /** What follows the first argument. */
  function Behind(ps: seq<Parameter>): string
    requires ps != []
  {
    if |ps| == 1 then "}" else ", " + (ArgumentsList(ps[1..]) + "}")
  }

  lemma ListHead(ps: seq<Parameter>)
    requires ps != []
    ensures ArgumentsList(ps) + "}" == ArgumentText(ps[0]) + Behind(ps)
  {
    hide ArgumentText;
    if |ps| > 1 {
      Listed(ArgumentText(ps[0]), ArgumentsList(ps[1..]));
    }
  }

  lemma Listed(a: string, b: string)
    ensures a + ", " + b + "}" == a + (", " + (b + "}"))
  {
  }

  function TextBehind(p: Parameter): string {
    ": " + if p.isString then ToJson(p.value) else p.value
  }

  lemma TextHead(p: Parameter, x: string)
    ensures ArgumentText(p) + x == ToJson(p.key) + (TextBehind(p) + x)
  {
    hide ToJson;
  }

  /******* Calls *******/

  /** A call comes back as it was exactly when none of its names has a mark in it. */
  lemma CallRead(c: Invoke)
    requires DistinctKeys(c.parameters)
    ensures var r := ReadAll([], c.parameters);
      r.Ok? && DecodeArguments(c.name, r.value) == DecodeArguments(c.name, c.parameters) <==> AllUnmarked(c.parameters)
  {
    var ps := c.parameters;
    ParametersRead([], ps);
    assert [] + Seen(ps) == Seen(ps) && [] + ps == ps;
    DistinctOnce([], ps);
    ListsEqual(ps, Seen(ps));
    Enclosed(ArgumentsList(ps), ArgumentsList(Seen(ps)));
    if AllUnmarked(ps) {
      SeenUnmarked(ps);
    }
  }

  lemma Enclosed(a: string, b: string)
    ensures "{" + a + "}" == "{" + b + "}" <==> a + "}" == b + "}"
  {
    assert "{" + a + "}" == "{" + (a + "}") && "{" + b + "}" == "{" + (b + "}");
    Cancel("{", a + "}", b + "}");
  }

  function Decoded(cs: seq<Invoke>): seq<ToolCall> {
    if cs == [] then [] else [DecodeArguments(cs[0].name, cs[0].parameters)] + Decoded(cs[1..])
  }

  ghost predicate CallsUnmarked(cs: seq<Invoke>) {
    forall i | 0 <= i < |cs| :: AllUnmarked(cs[i].parameters)
  }

  predicate CallsDistinct(cs: seq<Invoke>) {
    forall i | 0 <= i < |cs| :: DistinctKeys(cs[i].parameters)
  }

  lemma {:induction false} CallsRead(done: seq<ToolCall>, cs: seq<Invoke>)
    requires CallsDistinct(cs)
    ensures ReadCalls(done, cs) == Ok(done + Decoded(cs)) <==> CallsUnmarked(cs)
    ensures ReadCalls(done, cs).Ok? ==>
      |done| <= |ReadCalls(done, cs).value| && ReadCalls(done, cs).value[..|done|] == done
    decreases |cs|
  {
    hide AllUnmarked, DistinctKeys, DecodeArguments, ReadAll;
    if cs == [] {
      assert done + [] == done;
    } else {
      CallRead(cs[0]);
      var r := ReadAll([], cs[0].parameters);
      if r.Ok? {
        var first, meant := DecodeArguments(cs[0].name, r.value), DecodeArguments(cs[0].name, cs[0].parameters);
        CallsRead(done + [first], cs[1..]);
        CallsSplit(cs);
        OneRead(done, first, meant, Decoded(cs[1..]), ReadCalls(done, cs));
      } else {
        assert !AllUnmarked(cs[0].parameters);
      }
    }
  }

  lemma CallsSplit(cs: seq<Invoke>)
    requires cs != []
    ensures CallsUnmarked(cs) <==> AllUnmarked(cs[0].parameters) && CallsUnmarked(cs[1..])
  {
    hide AllUnmarked;
    assert forall i | 0 <= i < |cs| - 1 :: cs[1..][i] == cs[i + 1];
    if CallsUnmarked(cs[1..]) && AllUnmarked(cs[0].parameters) {
      forall i | 0 <= i < |cs| ensures AllUnmarked(cs[i].parameters) {
        if i > 0 {
          assert AllUnmarked(cs[1..][i - 1].parameters);
        }
      }
    }
  }

  lemma OneRead<E>(done: seq<ToolCall>, first: ToolCall, meant: ToolCall, others: seq<ToolCall>,
                   r: Result<seq<ToolCall>, E>)
    requires r.Ok? ==> |done| + 1 <= |r.value| && r.value[..|done| + 1] == done + [first]
    ensures r.Ok? ==> r.value[..|done|] == done
    ensures r == Ok(done + ([meant] + others)) <==> first == meant && r == Ok(done + [first] + others)
  {
    assert done + [first] + others == done + ([first] + others);
    if r.Ok? {
      assert r.value[|done|] == r.value[..|done| + 1][|done|] == first;
      assert (done + ([meant] + others))[|done|] == meant;
    }
  }

  /******* Turns *******/

  ghost predicate PrintableCall(c: Call) {
    Printable(Obj(Loaded(c.arguments)))
  }

  ghost function InvokeOf(c: Call): Invoke
    requires PrintableCall(c)
  {
    Invoke(c.name, ParametersOf(Loaded(c.arguments)))
  }

  ghost predicate PrintableTurn(t: Turn) {
    forall i | 0 <= i < |t.calls| :: PrintableCall(t.calls[i])
  }

  ghost function InvokesOf(calls: seq<Call>): (cs: seq<Invoke>)
    requires forall i | 0 <= i < |calls| :: PrintableCall(calls[i])
    ensures |cs| == |calls| && forall i | 0 <= i < |cs| :: cs[i] == InvokeOf(calls[i])
  {
    seq(|calls|, i requires 0 <= i < |calls| => InvokeOf(calls[i]))
  }

  ghost function WrittenOf(t: Turn, eos: bool): Written
    requires PrintableTurn(t)
  {
    Written(t.reasoning, t.content, InvokesOf(t.calls), eos)
  }

  /** The text for a turn. */
  ghost function Render(t: Turn, thinking: bool, eos: bool): string
    requires PrintableTurn(t)
  {
    TurnText(t.reasoning, t.content, InvokesOf(t.calls), thinking, eos)
  }

  /** All of the turn: each call's name, and its arguments in their order, as json.dumps writes them. */
  ghost function Recovered(t: Turn, thinking: bool): Message
    requires PrintableTurn(t)
  {
    Message(if thinking then t.reasoning else "", t.content,
            seq(|t.calls|, i requires 0 <= i < |t.calls| =>
              ToolCall(t.calls[i].name, Dumps(Obj(Loaded(t.calls[i].arguments))))))
  }

  /** No parameter name contains the end of a name. */
  ghost predicate UnmarkedTurn(t: Turn) {
    forall i | 0 <= i < |t.calls| :: forall j | 0 <= j < |Loaded(t.calls[i].arguments)| ::
      Unmarked(Loaded(t.calls[i].arguments)[j].key)
  }

  /** The list of arguments is what json.dumps writes between the braces. */
  lemma {:induction false} MembersText(members: seq<Member>, before: string)
    requires Blank(before) && forall i | 0 <= i < |members| :: Printable(members[i].value)
    ensures FieldsText(PrintMembers(members, before, " ")) ==
      if members == [] then "" else before + ArgumentsList(ParametersOf(members))
    decreases |members|
  {
    if members != [] {
      var ps := ParametersOf(members);
      MemberText(members[0], before);
      assert ps[1..] == ParametersOf(members[1..]);
      if |members| > 1 {
        MembersText(members[1..], " ");
        Comma(before, ArgumentText(ps[0]), ArgumentsList(ps[1..]));
      }
    }
  }

  lemma Comma(before: string, a: string, b: string)
    ensures before + a + "," + (" " + b) == before + (a + ", " + b)
  {
  }

  lemma MemberText(m: Member, before: string)
    requires Blank(before) && Printable(m.value)
    ensures FieldText(PrintMember(m, before, " ")) == before + ArgumentText(ParameterOf(m))
  {
    var p := ParameterOf(m);
    var value := if p.isString then ToJson(p.value) else p.value;
    assert Text(Print(m.value, " ")) == value;
    Colon(before, ToJson(m.key), value);
  }

  lemma Colon(before: string, key: string, value: string)
    ensures before + key + "" + ":" + (" " + value + "") == before + (key + ": " + value)
  {
  }

  lemma ArgumentsDumped(members: seq<Member>)
    requires Printable(Obj(members))
    ensures "{" + ArgumentsList(ParametersOf(members)) + "}" == Dumps(Obj(members))
  {
    hide Printable, ParametersOf, ArgumentsList, Dumps;
    ObjectDumps(members);
    MembersText(members, "");
    assert "" + ArgumentsList(ParametersOf(members)) == ArgumentsList(ParametersOf(members));
    NoArguments();
  }

  lemma ObjectDumps(members: seq<Member>)
    requires Printable(Obj(members))
    ensures forall i | 0 <= i < |members| :: Printable(members[i].value)
    ensures Dumps(Obj(members)) == "{" + FieldsText(PrintMembers(members, "", " ")) + "}"
  {
    hide Printable, PrintMembers, Print, Text, FieldsText;
    ObjectPrint(members);
    BracesText(PrintMembers(members, "", " "));
  }

  lemma ObjectPrint(members: seq<Member>)
    requires Printable(Obj(members))
    ensures forall i | 0 <= i < |members| :: Printable(members[i].value)
    ensures Print(Obj(members), " ") == Braces(PrintMembers(members, "", " "))
  {
    hide PrintMembers;
  }

  lemma BracesText(fs: Fields)
    ensures Text(Braces(fs)) == "{" + FieldsText(fs) + "}"
  {
    hide FieldsText;
  }

  lemma NoArguments()
    ensures ArgumentsList(ParametersOf([])) == ""
  {
  }

  lemma {:induction false} DecodedIs(calls: seq<Call>)
    requires forall i | 0 <= i < |calls| :: PrintableCall(calls[i])
    ensures var ds := Decoded(InvokesOf(calls));
      |ds| == |calls| && forall i | 0 <= i < |ds| ::
        ds[i] == ToolCall(calls[i].name, Dumps(Obj(Loaded(calls[i].arguments))))
    decreases |calls|
  {
    hide Printable, Dumps, ArgumentsList, Loaded, ParametersOf;
    if calls != [] {
      ArgumentsDumped(Loaded(calls[0].arguments));
      DecodedIs(calls[1..]);
      assert InvokesOf(calls)[1..] == InvokesOf(calls[1..]);
    }
  }

  /** Parsing what was written gives the whole turn back exactly when no parameter name contains a mark. */
  lemma ReadIsWhole(t: Turn, thinking: bool, eos: bool)
    requires PrintableTurn(t) && (eos || t.calls != [])
    ensures ReadMessage(WrittenOf(t, eos), thinking) == Ok(Recovered(t, thinking)) <==> UnmarkedTurn(t)
  {
    hide Decoded, ReadCalls, UnmarkedTurn, CallsUnmarked, InvokesOf;
    var cs := InvokesOf(t.calls);
    DecodedIs(t.calls);
    assert Decoded(cs) == Recovered(t, thinking).calls;
    KeysDiffer(t);
    CallsRead([], cs);
    assert [] + Decoded(cs) == Decoded(cs);
    SameKeys(t);
  }

  lemma KeysDiffer(t: Turn)
    requires PrintableTurn(t)
    ensures CallsDistinct(InvokesOf(t.calls))
  {
    forall i | 0 <= i < |t.calls| ensures DistinctKeys(InvokesOf(t.calls)[i].parameters) {
      assert PrintableCall(t.calls[i]);
    }
  }

  lemma SameKeys(t: Turn)
    requires PrintableTurn(t)
    ensures CallsUnmarked(InvokesOf(t.calls)) <==> UnmarkedTurn(t)
  {
    hide Unmarked;
    var cs := InvokesOf(t.calls);
    forall i | 0 <= i < |cs|
      ensures AllUnmarked(cs[i].parameters) <==>
        forall j | 0 <= j < |Loaded(t.calls[i].arguments)| :: Unmarked(Loaded(t.calls[i].arguments)[j].key)
    {
      var ps, members := cs[i].parameters, Loaded(t.calls[i].arguments);
      assert forall j | 0 <= j < |ps| :: ps[j].key == members[j].key;
    }
  }

  /** A turn that is not recovered: its one parameter is named by the mark itself. */
  lemma MarkIsLost(thinking: bool)
    ensures var t := Turn("", "", [Call("f", Dict([Member(Mark(true), Null)]))]);
      PrintableTurn(t) && ReadMessage(WrittenOf(t, true), thinking) != Ok(Recovered(t, thinking))
  {
    var members := [Member(Mark(true), Null)];
    var t := Turn("", "", [Call("f", Dict(members))]);
    assert Printable(Null) && Printable(Obj(members));
    assert Loaded(t.calls[0].arguments)[0].key == Mark(true);
    assert At(Mark(true), 0, Mark(true));
    ReadIsWhole(t, thinking, true);
  }

  /** Writing a turn and parsing the text; a turn without calls needs the end of sentence. */
  method ParseRendered(text: string, thinking: bool, ghost t: Turn, ghost eos: bool) returns (r: Result<Message, Error>)
    requires PrintableTurn(t) && Tame(WrittenOf(t, eos), thinking) && text == Render(t, thinking, eos)
    ensures t.calls == [] && !eos ==> r == Err(MissingEos)
    ensures t.calls != [] || eos ==> (r == Ok(Recovered(t, thinking)) <==> UnmarkedTurn(t))
  {
    r := ParseMessage(text, thinking, Some(WrittenOf(t, eos)));
    if eos || t.calls != [] {
      ReadIsWhole(t, thinking, eos);
    }
  }
}
