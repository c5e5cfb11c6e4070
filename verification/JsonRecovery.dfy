/**
 The tolerant JSON parser. It accepts any text, asks the schema where a key may
 start, and goes back to try another reading in places. Ghost parameters carry
 the strict reading of the text ahead, when there is one, and the contracts say
 what the parser makes of it, also when the input ends early.
 */
module JsonRecovery {
  import opened Wrappers
  import opened JsonSyntax
  import opened JsonScan
  import opened JsonStrict
  import opened JsonTruncation

  datatype Segment = Name(key: string) | Index(n: nat)
  type Path = seq<Segment>

  /** What the members of an object do next: look for another, look behind the one read, or end. */
  datatype Outcome = Again | Behind | Stop

  ghost function Prefixes(path: Path): set<Path> {
    set i | 0 <= i < |path| :: path[..i]
  }

  /** Between calls the open containers are those above the path. */
  ghost predicate Enclosing(contexts: map<Path, Json>, path: Path) {
    contexts.Keys == Prefixes(path)
  }

  /** Opening a container at `path` makes the open containers those above its parts; closing it undoes that. */
  lemma Opened(contexts: map<Path, Json>, path: Path, v: Json, s: Segment)
    requires Enclosing(contexts, path)
    ensures Enclosing(contexts[path := v], path + [s])
  {
    forall p ensures p in Prefixes(path + [s]) <==> p in Prefixes(path) + {path} {
      if p in Prefixes(path) {
        var i :| 0 <= i < |path| && p == path[..i];
        assert p == (path + [s])[..i];
      }
      if p == path {
        assert p == (path + [s])[..|path|];
      }
      if p in Prefixes(path + [s]) {
        var i :| 0 <= i < |path + [s]| && p == (path + [s])[..i];
        assert p == path[..i];
      }
    }
  }

  lemma Closed(contexts: map<Path, Json>, path: Path, v: Json)
    requires Enclosing(contexts, path)
    ensures contexts[path := v] - {path} == contexts
  {
    assert path !in Prefixes(path);
  }

  function Parent(path: Path): Path {
    if path == [] then [] else path[..|path| - 1]
  }

  /** Inside a strict string: `parts` of its body are read, and the text goes on with the others. */
  ghost predicate InBody(text: string, i: nat, body: string, parts: string, rest: string) {
    && i <= |text| && parts <= body && Paired(body[|parts|..])
    && text[i..] <= body[|parts|..] + "\"" + rest
  }

  lemma BodyStarts(text: string, i: nat, body: string, rest: string)
    requires i <= |text| && text[i..] <= body + "\"" + rest && Paired(body)
    ensures InBody(text, i, body, "", rest)
  {
    assert body[0..] == body;
  }

  /** Behind the opening quote of a strict string. */
  lemma StringStarts(text: string, start: nat, cs: seq<CharSyntax>, rest: string)
    requires start < |text| && CharsFormed(cs) && text[start..] <= QuotedText(cs) + rest
    ensures text[start] == '"' && InBody(text, start + 1, CharsText(cs), "", rest)
    ensures |QuotedText(cs)| == |CharsText(cs)| + 2 && Decode(CharsText(cs)) == CharsMeaning(cs)
  {
    CharsPaired(cs);
    DecodeStrict(cs);
    QuoteOpens(text, start, CharsText(cs), rest);
    BodyStarts(text, start + 1, CharsText(cs), rest);
  }

  /** These parts were read between the two places. */
  ghost predicate ReadBetween(text: string, start: nat, i: nat, parts: string) {
    start <= i <= |text| && parts == text[start..i]
  }

  lemma ReadNone(text: string, start: nat)
    ensures start <= |text| ==> ReadBetween(text, start, start, "")
  {
  }

  /** One or two more characters read. */
  lemma ReadMore(text: string, start: nat, i: nat, parts: string)
    requires ReadBetween(text, start, i, parts) && i < |text|
    ensures ReadBetween(text, start, i + 1, parts + [text[i]])
    ensures i + 1 < |text| ==> ReadBetween(text, start, i + 2, parts + [text[i], text[i + 1]])
  {
  }

  lemma ReadAll(text: string, start: nat, parts: string)
    requires ReadBetween(text, start, |text|, parts)
    ensures start <= |text| && parts == text[start..]
  {
  }

  /** What there is of a strict string, behind its opening quote. */
  lemma QuotedRead(text: string, start: nat, cs: seq<CharSyntax>, rest: string, m: Reading)
    requires start < |text| && CharsFormed(cs) && text[start..] <= QuotedText(cs) + rest
    ensures CharsUpto(cs, |text| - start, m) ==
      if start + |QuotedText(cs)| <= |text| then CharsMeaning(cs)
      else if m.partial then text[start + 1..] else Decode(text[start + 1..])
  {
    hide CharsText, CharsMeaning, CharsFormed, Decode;
    var quoted := QuotedText(cs);
    if |text| < start + |quoted| {
      assert text[start..] == (quoted + rest)[..|text| - start] == quoted[..|text| - start];
      assert text[start + 1..] == text[start..][1..] == quoted[1..|text| - start];
    }
  }

  /** What the next character of a strict string can be, and where it leads. */
  lemma BodyNext(text: string, i: nat, body: string, parts: string, rest: string)
    requires InBody(text, i, body, parts, rest) && i < |text|
    ensures |parts| <= |body|
    ensures |parts| < |body| ==>
      && text[i] == body[|parts|] && text[i] != '"'
      && (if text[i] == '\\' then
            && |parts| + 2 <= |body|
            && (i + 1 < |text| ==> InBody(text, i + 2, body, parts + [text[i], text[i + 1]], rest))
          else InBody(text, i + 1, body, parts + [text[i]], rest))
    ensures |parts| == |body| ==> text[i] == '"' && parts == body && Ahead(text, i + 1, rest)
  {
    var todo := body[|parts|..];
    var want := todo + "\"" + rest;
    Advance(text, i, 0, want);
    Advance(text, i, 1, want);
    if todo == "" {
      assert want[1..] == rest;
    } else {
      assert want[0] == todo[0] && want[1..] == todo[1..] + "\"" + rest;
      assert body[|parts| + 1..] == todo[1..];
      if todo[0] == '\\' && i + 1 < |text| {
        Advance(text, i, 2, want);
        assert want[1] == todo[1] && want[2..] == todo[2..] + "\"" + rest;
        assert body[|parts| + 2..] == todo[2..];
      }
    }
  }

  /** The quotes of an expression that no backslash precedes. */
  function BareQuotes(s: string, quote: char): nat {
    if s == "" then 0
    else
      var i := |s| - 1;
      BareQuotes(s[..i], quote) + if s[i] == quote && !(i > 0 && s[i - 1] == '\\') then 1 else 0
  }

  function ParityNormalized(value: string): string {
    if |value| < 2 || value[0] !in "\"'" || value[0] != value[|value| - 1] then Decode(value)
    else
      var middle := value[1..|value| - 1];
      var count := BareQuotes(middle, value[0]);
      if count % 2 == 1 || count == 0 then Decode(middle) else Decode(value)
  }

  /** No backslash in front of a quote: it does not count. */
  lemma {:induction false} NoBareQuotes(s: string, quote: char)
    requires forall i | 0 <= i < |s| && s[i] == quote :: i > 0 && s[i - 1] == '\\'
    ensures BareQuotes(s, quote) == 0
    decreases |s|
  {
    if s != "" {
      NoBareQuotes(s[..|s| - 1], quote);
    }
  }

  /** In the inside of a strict string every quote has a backslash in front of it. */
  lemma {:induction false} PairedQuotes(body: string)
    requires Paired(body)
    ensures forall i | 0 <= i < |body| && body[i] == '"' :: i > 0 && body[i - 1] == '\\'
    decreases |body|
  {
    if body != "" {
      var n := if body[0] == '\\' then 2 else 1;
      var rest := body[n..];
      PairedQuotes(rest);
      forall i | 0 <= i < |body| && body[i] == '"' ensures i > 0 && body[i - 1] == '\\' {
        if i >= n {
          assert rest[i - n] == body[i] && (i > n ==> rest[i - n - 1] == body[i - 1]);
        }
      }
    }
  }

  /** An expression that is nothing but a strict string is that string. */
  lemma ParityOfStrict(cs: seq<CharSyntax>)
    requires CharsFormed(cs)
    ensures ParityNormalized(QuotedText(cs)) == CharsMeaning(cs)
  {
    var body := CharsText(cs);
    CharsPaired(cs);
    PairedQuotes(body);
    NoBareQuotes(body, '"');
    DecodeStrict(cs);
    assert QuotedText(cs)[1..|QuotedText(cs)| - 1] == body;
  }

  lemma {:induction false} PlainDecode(s: string)
    requires '\\' !in s
    ensures Decode(s) == s
    decreases |s|
  {
    if s != "" {
      PlainDecode(s[1..]);
    }
  }

  lemma {:induction false} PlainQuotes(s: string, quote: char)
    requires '\\' !in s
    ensures BareQuotes(s, quote) == multiset(s)[quote]
    decreases |s|
  {
    if s != "" {
      var front, n := s[..|s| - 1], |s| - 1;
      PlainQuotes(front, quote);
      assert s == front + [s[n]];
    }
  }

  /**
   Without backslashes: an expression between two equal quotes loses them, unless the quotes inside pair up, as they
   do when it is put together from several strings; then, and without such quotes, it stays as it is.
   */
  lemma ParityOfPlain(value: string)
    requires '\\' !in value
    ensures |value| < 2 || value[0] !in "\"'" || value[0] != value[|value| - 1] ==> ParityNormalized(value) == value
    ensures |value| >= 2 && value[0] in "\"'" && value[0] == value[|value| - 1] ==>
      var inside := multiset(value[1..|value| - 1])[value[0]];
      ParityNormalized(value) == if inside > 0 && inside % 2 == 0 then value else value[1..|value| - 1]
  {
    PlainDecode(value);
    if |value| >= 2 {
      var middle := value[1..|value| - 1];
      assert forall i | 0 <= i < |middle| :: middle[i] == value[i + 1];
      PlainDecode(middle);
      PlainQuotes(middle, value[0]);
    }
  }

  /** Up to the end of the blanks after a word, the capture meets letters and blanks, none of which stop it. */
  lemma WordOrBlank(text: string, start: nat, l: Literal, rest: string, i: nat)
    requires start <= i < |text| && text[start..] <= LiteralText(l) + rest && Delimited(rest)
    requires i <= start + |LiteralText(l)| + BlankLength(rest)
    ensures if i < start + |LiteralText(l)| + BlankLength(rest) then
        ('a' <= text[i] <= 'u' || IsBlank(text[i])) && !KeyColon(text, Skip(text, i))
      else text[i] in ",}]"
  {
    hide LiteralText, KeyColon, Skip, Delimited, BlankLength;
    var w := LiteralText(l);
    if i < start + |w| {
      WordInside(text, start, l, rest, i);
    } else {
      ReadOff(text, start, w, rest);
      BlankOrEnd(text, start + |w|, i - start - |w|, rest);
    }
  }

  lemma BlankOrEnd(text: string, i: nat, k: nat, rest: string)
    requires i + k < |text| && text[i..] <= rest && Delimited(rest) && k <= BlankLength(rest)
    ensures if k < BlankLength(rest) then IsBlank(text[i + k]) && !KeyColon(text, Skip(text, i + k))
      else text[i + k] in ",}]"
  {
    hide KeyColon, Skip, Delimited, BlankLength;
    BlankNoKey(text, i, k, rest);
    if k == BlankLength(rest) {
      BlanksEnd(text, i, rest);
    }
  }

  /** Where the blanks end in the text. */
  lemma BlanksEnd(text: string, i: nat, rest: string)
    requires i + BlankLength(rest) < |text| && text[i..] <= rest && Delimited(rest)
    ensures text[i + BlankLength(rest)] in ",}]"
  {
    Advance(text, i, BlankLength(rest), rest);
  }

  lemma WordCaptured(text: string, start: nat, l: Literal, rest: string, i: nat)
    requires start <= |text| && text[start..] <= LiteralText(l) + rest
    requires i == Min(start + |LiteralText(l)| + BlankLength(rest), |text|) && start <= i
    ensures start + |LiteralText(l)| <= |text| ==> Strip(text[start..i]) == LiteralText(l)
  {
    hide LiteralText, Strip, BlankLength, IsSpace, IsBlank;
    var w := LiteralText(l);
    if start + |w| <= |text| {
      LettersAhead(text, start, w, rest);
      ReadOff(text, start, w, rest);
      BlanksAre(text, start + |w|, i, rest);
      assert text[start..i] == text[start..start + |w|] + text[start + |w|..i];
      WordUnspaced(l);
      StripBlanks(w, text[start + |w|..i]);
    }
  }

  lemma BlanksAre(text: string, i: nat, end: nat, rest: string)
    requires i <= end <= |text| && text[i..] <= rest && end - i <= BlankLength(rest)
    ensures Blank(text[i..end])
  {
    var blank := text[i..end];
    forall k | 0 <= k < |blank| ensures IsBlank(blank[k]) {
      assert blank[k] == text[i..][k] == rest[..BlankLength(rest)][k];
    }
  }

  lemma WordUnspaced(l: Literal)
    ensures var w := LiteralText(l); w != "" && !IsSpace(w[0]) && !IsSpace(w[|w| - 1])
  {
  }

  /** What stripping changes contains white space. */
  lemma StrippedHasSpace(s: string)
    requires Strip(s) != s
    ensures exists i :: 0 <= i < |s| && !InIdentifier(s[i])
  {
    if s != "" && IsSpace(s[0]) {
      assert !InIdentifier(s[0]);
    } else if s != "" && IsSpace(s[|s| - 1]) {
      assert !InIdentifier(s[|s| - 1]);
    }
  }

  /** A value of this length read from `i`, and some of the blanks after it. */
  ghost predicate Consumed(text: string, i: nat, length: nat, end: nat, rest: string) {
    && i + length <= end <= |text| && end - i - length <= BlankLength(rest) <= |rest|
    && text[end..] <= rest[end - i - length..]
  }

  predicate StartsNumber(c: char) {
    c == '+' || c == '-' || c == '.' || IsDigit(c)
  }

  lemma ConsumedAll(text: string, i: nat, want: string, rest: string, end: nat)
    requires i <= |text| && text[i..] <= want + rest && end == Min(i + |want| + BlankLength(rest), |text|)
      && i + |want| <= |text|
    ensures Consumed(text, i, |want|, end, rest)
  {
    Advance(text, i, end - i, want + rest);
    assert (want + rest)[end - i..] == rest[end - i - |want|..];
  }

  lemma SyntaxUnfolds(s: Syntax, limit: nat)
    requires Formed(s)
    ensures s.Quoted? ==>
      CharsFormed(s.chars) && Text(s) == QuotedText(s.chars) && Meaning(s, limit) == Str(CharsMeaning(s.chars))
    ensures s.Brackets? ==>
      && ElementsFormed(s.elements) && Text(s) == "[" + ElementsText(s.elements) + "]"
      && |Text(s)| == |ElementsText(s.elements)| + 2 && Meaning(s, limit) == Arr(ElementsMeaning(s.elements, limit))
    ensures s.Braces? ==>
      && FieldsFormed(s.fields) && Text(s) == "{" + FieldsText(s.fields) + "}"
      && |Text(s)| == |FieldsText(s.fields)| + 2 && Meaning(s, limit) == Obj(FieldsMeaning(s.fields, limit, []))
  {
  }

  lemma UptoUnfolds(s: Syntax, n: nat, m: Reading)
    requires Formed(s) && n > 0
    ensures s.Quoted? ==> CharsFormed(s.chars) && Upto(s, n, m) == Str(CharsUpto(s.chars, n, m))
    ensures s.Brackets? ==>
      ElementsFormed(s.elements) && Upto(s, n, m) == Arr(ElementsUpto(s.elements, n - 1, m))
    ensures s.Braces? ==> FieldsFormed(s.fields) && Upto(s, n, m) == Obj(FieldsUpto(s.fields, n - 1, m, []))
  {
  }

  lemma ConsumedExactly(text: string, i: nat, want: string, rest: string)
    requires i + |want| <= |text| && text[i..] <= want + rest
    ensures Consumed(text, i, |want|, i + |want|, rest)
  {
    Advance(text, i, |want|, want + rest);
    assert (want + rest)[|want|..] == rest;
  }

  /** What the greedy capture makes of a strict word. */
  lemma WordEnds(u: Unicode, limit: nat, text: string, i: nat, l: Literal, rest: string)
    requires i < |text| && text[i..] <= LiteralText(l) + rest && Delimited(rest)
    ensures !StartsNumber(text[i]) && Scalar(u, limit, LiteralText(l), false) == Meaning(Word(l), limit)
    ensures i + |LiteralText(l)| <= |text| ==>
      Consumed(text, i, |LiteralText(l)|, Min(i + |LiteralText(l)| + BlankLength(rest), |text|), rest)
  {
    hide Scalar, LiteralText, Delimited, BlankLength;
    ScalarOfWord(u, limit, l);
    WordIsLetters(l);
    var w := LiteralText(l);
    Advance(text, i, 0, w + rest);
    assert (w + rest)[0] == w[0];
    if i + |w| <= |text| {
      ConsumedAll(text, i, w, rest, Min(i + |w| + BlankLength(rest), |text|));
    }
  }

  /** What there is of a word or numeral that is cut off: nothing of it is white space. */
  lemma TokenCut(text: string, i: nat, g: Syntax, rest: string)
    requires i < |text| && (g.Word? || g.Figure?) && text[i..] <= Text(g) + rest
    ensures |text| < i + |Text(g)| ==> text[i..|text|] == Text(g)[..|text| - i]
    ensures |text| < i + |Text(g)| && g.Word? ==> Strip(text[i..|text|]) == text[i..|text|]
  {
    hide Strip, LiteralText, NumeralText;
    var want := Text(g) + rest;
    if |text| < i + |Text(g)| {
      assert text[i..|text|] == text[i..] == want[..|text| - i] == Text(g)[..|text| - i];
      if g.Word? {
        WordPart(g.literal, |text| - i);
      }
    }
  }

  lemma WordPart(l: Literal, n: nat)
    requires 0 < n <= |LiteralText(l)|
    ensures Strip(LiteralText(l)[..n]) == LiteralText(l)[..n]
  {
    var w := LiteralText(l)[..n];
    assert !IsSpace(w[0]) && !IsSpace(w[|w| - 1]);
  }

  /** What the token scanner makes of a strict numeral. */
  lemma FigureEnds(u: Unicode, limit: nat, text: string, i: nat, n: Numeral, rest: string)
    requires i < |text| && text[i..] <= NumeralText(n) + rest && NumeralFormed(n) && Delimited(rest)
    ensures StartsNumber(text[i])
    ensures var end := i + |NumeralText(n)|;
      && TokenEnd(text, i) == Min(end, |text|) && TokenEnd(text, i) > i
      && (end <= |text| ==>
            && Consumed(text, i, |NumeralText(n)|, end, rest)
            && Scalar(u, limit, text[i..end], true) == Meaning(Figure(n), limit))
  {
    hide NumeralText, Scalar, Meaning, EndsToken, TokenEnd, Consumed, Delimited, NumeralFormed;
    ScalarOfNumeral(u, limit, n);
    TokenAhead(text, i, NumeralText(n), rest);
  }

  lemma TokenAhead(text: string, i: nat, t: string, rest: string)
    requires i < |text| && text[i..] <= t + rest && Delimited(rest) && t != "" && forall k | 0 <= k < |t| ::
      !EndsToken(t[k])
    ensures text[i] == t[0] && TokenEnd(text, i) == Min(i + |t|, |text|)
    ensures i + |t| <= |text| ==> text[i..i + |t|] == t && Consumed(text, i, |t|, i + |t|, rest)
  {
    hide EndsToken, Consumed, Delimited, TokenEnd;
    LettersAhead(text, i, t, rest);
    if i + |t| <= |text| {
      ConsumedExactly(text, i, t, rest);
      if rest != "" {
        DelimitedEndsToken(rest);
      }
    }
    TokenStops(text, i, Min(i + |t|, |text|));
  }

  lemma LettersAhead(text: string, i: nat, t: string, rest: string)
    requires i <= |text| && text[i..] <= t + rest
    ensures forall k | i <= k < Min(i + |t|, |text|) :: text[k] == t[k - i]
    ensures i + |t| <= |text| ==> text[i..i + |t|] == t
    ensures i + |t| < |text| ==> rest != "" && text[i + |t|] == rest[0]
  {
    var want := t + rest;
    forall k | i <= k < Min(i + |t|, |text|) ensures text[k] == t[k - i] {
      assert text[k] == text[i..][k - i] == want[k - i];
    }
    if i + |t| < |text| {
      assert text[i + |t|] == text[i..][|t|] == want[|t|];
    }
  }

  lemma DelimitedEndsToken(rest: string)
    requires Delimited(rest) && rest != ""
    ensures EndsToken(rest[0])
  {
    assert IsBlank(rest[0]) || BlankLength(rest) == 0;
  }

  /** The text from here on is a prefix of this. */
  ghost predicate Ahead(text: string, i: nat, want: string) {
    i <= |text| && text[i..] <= want
  }

  /** Part of what was expected has been read. */
  lemma ReadOff(text: string, i: nat, first: string, rest: string)
    requires i + |first| <= |text| && text[i..] <= first + rest
    ensures text[i + |first|..] <= rest
  {
    Advance(text, i, |first|, first + rest);
    assert (first + rest)[|first|..] == rest;
  }

  /** What may come behind a value. */
  predicate Closes(more: string) {
    more != "" && (more[0] == ',' || more[0] == ']' || more[0] == '}')
  }

  lemma DelimitedTail(after: string, more: string)
    requires Blank(after) && Closes(more)
    ensures Delimited(after + more) && BlankLength(after + more) == |after|
  {
    BlankLengthIs(after, more);
    assert (after + more)[|after|] == more[0];
  }

  /** Behind a value, within the blanks that follow it. */
  lemma AfterValue(text: string, i: nat, length: nat, end: nat, after: string, more: string)
    requires Consumed(text, i, length, end, after + more) && Blank(after) && Closes(more)
    ensures i + length <= end <= |text| && end - i - length <= |after|
    ensures text[end..] <= after[end - i - length..] + more && Blank(after[end - i - length..])
    ensures more != "" && !IsSpace(more[0]) && more[0] != '/'
  {
    DelimitedTail(after, more);
    assert (after + more)[end - i - length..] == after[end - i - length..] + more;
  }

  /** A value, its blanks and what comes behind them, still to be read. */
  ghost function ElementAhead(e: Element, more: string): string {
    Text(e.value) + (e.after + more)
  }

  lemma ElementStarts(e: Element, more: string)
    requires ElementFormed(e) && Closes(more)
    ensures Formed(e.value) && Text(e.value) != "" && Blank(e.before) && Blank(e.after) && Delimited(e.after + more)
    ensures var c := ElementAhead(e, more)[0]; !IsSpace(c) && c != '/' && c != ',' && c != ']' && c != '}'
  {
    TextStarts(e.value);
    DelimitedTail(e.after, more);
  }

  lemma Regroup(a: string, b: string, c: string, d: string)
    ensures a + b + c + d == a + (b + (c + d))
  {
  }

  lemma RegroupComma(a: string, b: string, close: string, rest: string)
    ensures a + "," + b + close + rest == a + ("," + (b + close + rest))
  {
  }

  lemma Within(open: string, x: string, close: string, rest: string)
    ensures open + x + close + rest == open + (x + close + rest)
  {
  }

  lemma AddFront(items: seq<Json>, item: Json, others: seq<Json>)
    ensures items + ([item] + others) == items + [item] + others
  {
  }

  /******* The text ahead in an array *******/

  ghost function ArrayAhead(es: Elements, rest: string): string {
    ElementsText(es) + "]" + rest
  }

  /** What follows the first element: a comma and the others, or the closing bracket. */
  ghost function ArrayMore(es: Elements, rest: string): string
    requires !es.NoElements?
  {
    if es.LastElement? then "]" + rest else "," + ArrayAhead(es.others, rest)
  }

  ghost function ArrayBlank(es: Elements): string {
    if es.NoElements? then es.blank else es.element.before
  }

  ghost function ArrayToken(es: Elements, rest: string): string {
    if es.NoElements? then "]" + rest else ElementAhead(es.element, ArrayMore(es, rest))
  }

  /**
   These elements are still to be read behind the items, as far as the text goes, and then the array meant ends at
   `end`.
   */
  ghost predicate InArray(text: string, i: nat, end: nat, todo: Elements, rest: string, items: seq<Json>,
                          meant: seq<Json>, m: Reading) {
    && ElementsFormed(todo) && Ahead(text, i, ArrayAhead(todo, rest)) && i + |ArrayAhead(todo, rest)| == end + |rest|
    && items + ElementsUpto(todo, |text| - i, m) == meant
  }

  lemma BracketOpens(text: string, i: nat, es: Elements, rest: string, m: Reading)
    requires i < |text| && ElementsFormed(es) && text[i..] <= "[" + ElementsText(es) + "]" + rest
    ensures InArray(text, i + 1, i + |ElementsText(es)| + 2, es, rest, [], ElementsUpto(es, |text| - i - 1, m), m)
  {
    hide ElementsText, ElementsFormed, ElementsUpto;
    Within("[", ElementsText(es), "]", rest);
    ReadOff(text, i, "[", ArrayAhead(es, rest));
  }

  lemma ArrayText(es: Elements, rest: string)
    requires ElementsFormed(es)
    ensures ArrayAhead(es, rest) == ArrayBlank(es) + ArrayToken(es, rest) && Blank(ArrayBlank(es))
    ensures var token := ArrayToken(es, rest);
      && token != "" && !IsSpace(token[0]) && token[0] != '/' && token[0] != ',' && token[0] != '}'
      && (token[0] == ']' <==> es.NoElements?)
  {
    if !es.NoElements? {
      var e, more := es.element, ArrayMore(es, rest);
      ElementStarts(e, more);
      ElementsGrouped(es, rest);
      Regroup(e.before, Text(e.value), e.after, more);
    }
  }

  lemma ElementsGrouped(es: Elements, rest: string)
    requires !es.NoElements?
    ensures ArrayAhead(es, rest) == ElementText(es.element) + ArrayMore(es, rest)
  {
    hide ElementText;
    if es.MoreElements? {
      RegroupComma(ElementText(es.element), ElementsText(es.others), "]", rest);
    } else {
      assert ElementText(es.element) + "]" + rest == ElementText(es.element) + ArrayMore(es, rest);
    }
  }

  /** In an array come blanks and then an element, or the bracket that closes it. */
  lemma ArrayNext(text: string, i: nat, end: nat, todo: Elements, rest: string, items: seq<Json>, meant: seq<Json>,
                  m: Reading)
    requires InArray(text, i, end, todo, rest, items, meant, m)
    ensures |text| <= i + |ArrayBlank(todo)| ==> items == meant
    ensures !todo.NoElements? ==> ArrayBlank(todo) == todo.element.before
    ensures Ahead(text, i, ArrayBlank(todo) + ArrayToken(todo, rest)) && Blank(ArrayBlank(todo))
    ensures i + |ArrayBlank(todo)| + |ArrayToken(todo, rest)| == end + |rest| && |ArrayToken(todo, rest)| > |rest|
    ensures var token := ArrayToken(todo, rest);
      && token != "" && !IsSpace(token[0]) && token[0] != '/' && token[0] != ',' && token[0] != '}'
      && (token[0] == ']' <==> todo.NoElements?)
    ensures if todo.NoElements? then items == meant && |ArrayToken(todo, rest)| == |rest| + 1 else
      && ElementFormed(todo.element) && Closes(ArrayMore(todo, rest)) && |ArrayMore(todo, rest)| > |rest|
      && ArrayToken(todo, rest) == ElementAhead(todo.element, ArrayMore(todo, rest))
  {
    ArrayText(todo, rest);
  }

  /** Behind an element that was read, as far as there was text for it. */
  lemma ArrayStep(text: string, i: nat, at: nat, end: nat, todo: Elements, rest: string, items: seq<Json>,
                  meant: seq<Json>, m: Reading)
    requires InArray(text, i, end, todo, rest, items, meant, m) && !todo.NoElements?
    requires i + |todo.element.before| < |text|
    requires at <= |text| && at + |ArrayMore(todo, rest)| <= end + |rest|
    requires at < |text| ==> Ahead(text, at, ArrayMore(todo, rest)) && at + |ArrayMore(todo, rest)| == end + |rest|
    ensures ElementFormed(todo.element)
    ensures var read := items + [ElementUpto(todo.element, |text| - i, m)];
      if at == |text| then read == meant
      else if text[at] == ',' then todo.MoreElements? && InArray(text, at + 1, end, todo.others, rest, read, meant, m)
      else text[at] == ']' && at + 1 == end && read == meant
  {
    hide Ahead, ArrayMore, ElementUpto, ElementsUpto, ElementFormed, ElementsFormed, ArrayAhead, ElementText,
      ElementsText;
    ElementsGrouped(todo, rest);
    ElementsUnfold(todo, |text| - i, m);
    if at < |text| {
      BehindElement(text, at, todo, rest);
      if todo.MoreElements? {
        AddFront(items, ElementUpto(todo.element, |text| - i, m), ElementsUpto(todo.others, |text| - at - 1, m));
      }
    }
  }

  /** A comma and more elements, or the closing bracket. */
  lemma BehindElement(text: string, at: nat, todo: Elements, rest: string)
    requires at < |text| && !todo.NoElements? && Ahead(text, at, ArrayMore(todo, rest))
    ensures if todo.MoreElements? then
        && text[at] == ',' && Ahead(text, at + 1, ArrayAhead(todo.others, rest))
        && |ArrayMore(todo, rest)| == 1 + |ArrayAhead(todo.others, rest)|
      else text[at] == ']' && |ArrayMore(todo, rest)| == 1 + |rest|
  {
    hide ArrayAhead;
    Advance(text, at, 0, ArrayMore(todo, rest));
    if todo.MoreElements? {
      ReadOff(text, at, ",", ArrayAhead(todo.others, rest));
    }
  }

  lemma ElementUptoIs(e: Element, n: nat, m: Reading)
    requires ElementFormed(e) && n > |e.before|
    ensures Formed(e.value) && ElementUpto(e, n, m) == Upto(e.value, n - |e.before|, m)
  {
  }

  /******* The text ahead in an object *******/

  ghost function FieldsAhead(fs: Fields, rest: string): string {
    FieldsText(fs) + "}" + rest
  }

  ghost function ObjectMore(fs: Fields, rest: string): string
    requires !fs.NoFields?
  {
    if fs.LastField? then "}" + rest else "," + FieldsAhead(fs.others, rest)
  }

  ghost function ColonAhead(f: Field, more: string): string {
    ":" + (f.value.before + ElementAhead(f.value, more))
  }

  ghost function FieldAhead(f: Field, more: string): string {
    QuotedText(f.key) + (f.middle + ColonAhead(f, more))
  }

  ghost function ObjectBlank(fs: Fields): string {
    if fs.NoFields? then fs.blank else fs.field.before
  }

  ghost function ObjectToken(fs: Fields, rest: string): string {
    if fs.NoFields? then "}" + rest else FieldAhead(fs.field, ObjectMore(fs, rest))
  }

  /**
   These members are still to be read behind the others, as far as the text goes, and then the object meant ends at
   `end`.
   */
  ghost predicate InObject(text: string, i: nat, end: nat, todo: Fields, rest: string, members: seq<Member>,
                           meant: seq<Member>, m: Reading) {
    && FieldsFormed(todo) && Ahead(text, i, FieldsAhead(todo, rest)) && i + |FieldsAhead(todo, rest)| == end + |rest|
    && FieldsUpto(todo, |text| - i, m, members) == meant
  }

  lemma BraceOpens(text: string, i: nat, fs: Fields, rest: string, m: Reading)
    requires i < |text| && FieldsFormed(fs) && text[i..] <= "{" + FieldsText(fs) + "}" + rest
    ensures InObject(text, i + 1, i + |FieldsText(fs)| + 2, fs, rest, [], FieldsUpto(fs, |text| - i - 1, m, []), m)
  {
    hide FieldsText, FieldsFormed, FieldsUpto;
    Within("{", FieldsText(fs), "}", rest);
    ReadOff(text, i, "{", FieldsAhead(fs, rest));
  }

  lemma FieldGrouped(f: Field, more: string)
    ensures FieldText(f) + more == f.before + FieldAhead(f, more)
  {
    hide QuotedText, Text;
    var e := f.value;
    Regroup(e.before, Text(e.value), e.after, more);
    Regroup(f.before, QuotedText(f.key), f.middle, ":" + (ElementText(e) + more));
    assert FieldText(f) + more == f.before + QuotedText(f.key) + f.middle + (":" + (ElementText(e) + more));
  }

  lemma ObjectText(fs: Fields, rest: string)
    requires FieldsFormed(fs)
    ensures FieldsAhead(fs, rest) == ObjectBlank(fs) + ObjectToken(fs, rest) && Blank(ObjectBlank(fs))
    ensures ObjectToken(fs, rest) != "" && ObjectToken(fs, rest)[0] == if fs.NoFields? then '}' else '"'
  {
    if !fs.NoFields? {
      FieldsGrouped(fs, rest);
      FieldGrouped(fs.field, ObjectMore(fs, rest));
    }
  }

  lemma FieldsGrouped(fs: Fields, rest: string)
    requires !fs.NoFields?
    ensures FieldsAhead(fs, rest) == FieldText(fs.field) + ObjectMore(fs, rest)
  {
    hide FieldText;
    if fs.MoreFields? {
      RegroupComma(FieldText(fs.field), FieldsText(fs.others), "}", rest);
    } else {
      assert FieldText(fs.field) + "}" + rest == FieldText(fs.field) + ObjectMore(fs, rest);
    }
  }

  /** In an object come blanks and then a member, or the brace that closes it. */
  lemma ObjectNext(text: string, i: nat, end: nat, todo: Fields, rest: string, members: seq<Member>,
                   meant: seq<Member>, m: Reading)
    requires InObject(text, i, end, todo, rest, members, meant, m)
    ensures |text| <= i + |ObjectBlank(todo)| ==> members == meant
    ensures !todo.NoFields? ==> ObjectBlank(todo) == todo.field.before
    ensures Ahead(text, i, ObjectBlank(todo) + ObjectToken(todo, rest)) && Blank(ObjectBlank(todo))
    ensures i + |ObjectBlank(todo)| + |ObjectToken(todo, rest)| == end + |rest| && |ObjectToken(todo, rest)| > |rest|
    ensures ObjectToken(todo, rest) != "" && ObjectToken(todo, rest)[0] == if todo.NoFields? then '}' else '"'
    ensures if todo.NoFields? then members == meant && |ObjectToken(todo, rest)| == |rest| + 1 else
      && FieldFormed(todo.field) && Closes(ObjectMore(todo, rest)) && |ObjectMore(todo, rest)| > |rest|
      && ObjectToken(todo, rest) == FieldAhead(todo.field, ObjectMore(todo, rest))
  {
    ObjectText(todo, rest);
  }

  lemma ColonStep(text: string, i: nat, f: Field, more: string)
    requires FieldFormed(f) && Closes(more) && i < |text| && Ahead(text, i, ColonAhead(f, more))
    ensures ElementFormed(f.value) && Blank(f.value.before)
    ensures Ahead(text, i + 1, f.value.before + ElementAhead(f.value, more))
    ensures |ColonAhead(f, more)| == 1 + |f.value.before| + |ElementAhead(f.value, more)|
    ensures |ElementAhead(f.value, more)| > |more|
    ensures var c := ElementAhead(f.value, more)[0]; !IsSpace(c) && c != '/' && c != ',' && c != '}'
  {
    ElementStarts(f.value, more);
    ReadOff(text, i, ":", f.value.before + ElementAhead(f.value, more));
  }

  /** Behind a member that was read, as far as there was text for it. */
  lemma ObjectStep(text: string, i: nat, at: nat, end: nat, todo: Fields, rest: string, members: seq<Member>,
                   meant: seq<Member>, m: Reading)
    requires InObject(text, i, end, todo, rest, members, meant, m) && !todo.NoFields?
    requires i + |todo.field.before| < |text|
    requires at <= |text| && at + |ObjectMore(todo, rest)| <= end + |rest|
    requires at < |text| ==> Ahead(text, at, ObjectMore(todo, rest)) && at + |ObjectMore(todo, rest)| == end + |rest|
    ensures FieldFormed(todo.field)
    ensures var read := FieldUpto(todo.field, |text| - i - |todo.field.before|, m, members);
      if at == |text| then read == meant
      else if text[at] == ',' then todo.MoreFields? && InObject(text, at + 1, end, todo.others, rest, read, meant, m)
      else text[at] == '}' && at + 1 == end && read == meant
  {
    hide Ahead, ObjectMore, FieldUpto, FieldsUpto, FieldFormed, FieldsFormed, FieldsAhead, FieldText, FieldsText;
    FieldsGrouped(todo, rest);
    FieldsUnfold(todo, |text| - i, m, members);
    if at < |text| {
      BehindMember(text, at, todo, rest);
    }
  }

  /** A comma and more members, or the closing brace. */
  lemma BehindMember(text: string, at: nat, todo: Fields, rest: string)
    requires at < |text| && !todo.NoFields? && Ahead(text, at, ObjectMore(todo, rest))
    ensures if todo.MoreFields? then
        && text[at] == ',' && Ahead(text, at + 1, FieldsAhead(todo.others, rest))
        && |ObjectMore(todo, rest)| == 1 + |FieldsAhead(todo.others, rest)|
      else text[at] == '}' && |ObjectMore(todo, rest)| == 1 + |rest|
  {
    hide FieldsAhead;
    Advance(text, at, 0, ObjectMore(todo, rest));
    if todo.MoreFields? {
      ReadOff(text, at, ",", FieldsAhead(todo.others, rest));
    }
  }

  /** Where the value of a member starts, from its key on. */
  function ValueStart(f: Field): nat {
    |QuotedText(f.key)| + |f.middle| + 1 + |f.value.before|
  }

  lemma FieldWithout(f: Field, n: nat, m: Reading, members: seq<Member>)
    requires FieldFormed(f)
    ensures CharsFormed(f.key)
    ensures n <= ValueStart(f) ==> FieldUpto(f, n, m, members) == Set(members, CharsUpto(f.key, n, m), Null)
  {
    hide CharsUpto, Set, QuotedText;
  }

  lemma FieldWith(f: Field, n: nat, m: Reading, members: seq<Member>)
    requires FieldFormed(f) && n > ValueStart(f)
    ensures CharsFormed(f.key) && Formed(f.value.value)
    ensures FieldUpto(f, n, m, members) ==
      Set(members, CharsUpto(f.key, n, m), Upto(f.value.value, n - ValueStart(f), m))
  {
    hide CharsUpto, Upto, Set, QuotedText;
  }

  /**
   What a schema answers, given the containers open so far: whether it admits a key at a path, and whether it wants an
   object there.
   */
  datatype Schema = Schema(acceptsKey: (map<Path, Json>, Path, string) -> bool,
                           expectsObject: (map<Path, Json>, Path) -> bool)

  class Parser {
    const text: string
    const partial: bool
    const schema: Schema
    const unicode: Unicode
    /** The interpreter's limit on the digits of an integer, 0 for none. */
    const limit: nat

    var index: nat
    var contexts: map<Path, Json>
    var incomplete: bool
    var rejected: bool

    constructor (text: string, partial: bool, schema: Schema, unicode: Unicode, limit: nat)
      ensures this.text == text && this.partial == partial && this.schema == schema
      ensures this.unicode == unicode && this.limit == limit
      ensures index == 0 && contexts == map[] && !incomplete && !rejected
    {
      this.text, this.partial, this.schema, this.unicode, this.limit := text, partial, schema, unicode, limit;
      index, contexts, incomplete, rejected := 0, map[], false, false;
    }

    ghost function Mode(): Reading {
      Reading(partial, unicode, limit)
    }

    function Peek(): Option<char>
      reads this
    {
      if index < |text| then Some(text[index]) else None
    }

    method SkipWhitespace()
      requires index <= |text|
      modifies this`index, this`incomplete
      ensures index == Skip(text, old(index))
      ensures incomplete == (old(incomplete)
                             || (index == |text| && old(index) < |text| && Opens(text, old(index), '*')))
    {
      var original := index;
      index := SkipIgnorable(text, index);
      if index == |text| && original < |text| && Opens(text, original, '*') {
        incomplete := true;
      }
    }

    /** Skipping to a token over blanks sets no flag. */
    method SkipBlanks(ghost blank: Option<string>, ghost rest: string)
      requires index <= |text|
      requires blank.Some? ==> Ahead(text, index, blank.value + rest) && Blank(blank.value)
      requires blank.Some? ==> rest != "" && !IsSpace(rest[0]) && rest[0] != '/'
      modifies this`index, this`incomplete
      ensures old(index) <= index <= |text| && (old(incomplete) ==> incomplete)
      ensures blank.Some? ==>
        && incomplete == old(incomplete)
        && index == Min(old(index) + |blank.value|, |text|)
        && (old(index) + |blank.value| <= |text| ==> Ahead(text, index, rest))
        && (old(index) + |blank.value| < |text| ==> text[index] == rest[0])
    {
      SkipWhitespace();
      if blank.Some? {
        BlanksThen(text, old(index), blank.value, rest);
        if old(index) < |text| {
          Advance(text, old(index), 0, blank.value + rest);
        }
      }
    }

    /** A key with a colon comes next, which is not empty and which the schema accepts. */
    method LooksLikeNextKey(path: Path, start: nat) returns (looks: bool)
      requires start <= |text|
      ensures looks <==>
        && KeyColon(text, Skip(text, start)) && KeyAt(text, Skip(text, start)) != ""
        && schema.acceptsKey(contexts, path, KeyAt(text, Skip(text, start)))
    {
      hide Skip, IdentifierEnd;
      var at := SkipIgnorable(text, start);
      if at >= |text| {
        return false;
      }
      var c := text[at];
      if c == '"' || c == '\'' {
        var close := FindNextUnescapedQuote(text, c, at + 1);
        if close.None? {
          return false;
        }
        var key := text[at + 1..close.value];
        var next := SkipIgnorable(text, close.value + 1);
        return next < |text| && text[next] == ':' && key != "" && schema.acceptsKey(contexts, path, key);
      }
      var end := IdentifierEnd(text, at);
      if end.None? || !schema.acceptsKey(contexts, path, text[at..end.value]) {
        return false;
      }
      var next := SkipIgnorable(text, end.value);
      looks := next < |text| && text[next] == ':';
    }

    method QuoteClosesValue(path: Path, next: nat, objectValue: bool) returns (closes: bool)
      requires next <= |text|
      ensures Skip(text, next) == |text| || text[Skip(text, next)] in ",}]" ==> closes
    {
      var at := SkipIgnorable(text, next);
      if at >= |text| || text[at] in ",}]" {
        return true;
      }
      closes := false;
      if objectValue {
        closes := LooksLikeNextKey(Parent(path), at);
      }
    }

    /** Whether what stands before the next quote is an expression rather than a word. */
    method ShouldCaptureStringExpression(quote: char) returns (capture: bool)
      requires index <= |text|
      ensures capture ==>
        NextUnescaped(text, quote, index).Some? && Strip(text[index..NextUnescaped(text, quote, index).value]) != ""
      ensures NextUnescaped(text, quote, index).Some? && capture ==>
        exists i :: index <= i < NextUnescaped(text, quote, index).value && !InIdentifier(text[i])
    {
      var next := FindNextUnescapedQuote(text, quote, index);
      if next.None? {
        return false;
      }
      var between := text[index..next.value];
      if Strip(between) == "" {
        return false;
      }
      if between != Strip(between) {
        StrippedHasSpace(between);
        var i :| 0 <= i < |between| && !InIdentifier(between[i]);
        assert text[index + i] == between[i];
        return true;
      }
      capture := exists i :: 0 <= i < |between| && !InIdentifier(between[i]);
      if capture {
        var i :| 0 <= i < |between| && !InIdentifier(between[i]);
        assert text[index + i] == between[i];
      }
    }

    /**
     One round of a string: a character, or an escape with the one behind it, joins the parts; a quote is left to be
     judged, and the end of the input ends the string with what there is.
     */
    method ReadStringPart(quote: char, start: nat, parts: string, ghost strict: bool, ghost body: string,
                          ghost rest: string) returns (read: string, ended: bool, closing: bool)
      requires start < index <= |text| && ReadBetween(text, start + 1, index, parts)
      requires strict ==> InBody(text, index, body, parts, rest) && quote == '"'
      modifies this`index, this`incomplete
      ensures ended ==> !closing && index == |text| && incomplete && read == text[start + 1..]
      ensures ended && strict ==> |text| < start + |body| + 2
      ensures !ended ==> old(index) < index <= |text| && incomplete == old(incomplete)
      ensures !ended ==> ReadBetween(text, start + 1, index, if closing then read + [quote] else read)
      ensures closing ==> read == parts && (strict ==> parts == body && Ahead(text, index, rest))
      ensures closing && strict ==> index == start + |body| + 2
      ensures !ended && !closing && strict ==> InBody(text, index, body, read, rest)
    {
      if strict && index < |text| {
        BodyNext(text, index, body, parts, rest);
      }
      read, ended, closing := parts, false, false;
      if Peek().None? {
        incomplete, ended := true, true;
        ReadAll(text, start + 1, parts);
        return;
      }
      ReadMore(text, start + 1, index, parts);
      var c := text[index];
      index := index + 1;
      if c == '\\' {
        if Peek().None? {
          incomplete, ended := true, true;
          read := parts + "\\";
          ReadAll(text, start + 1, read);
          return;
        }
        read := parts + [c, text[index]];
        index := index + 1;
      } else if c == quote {
        closing := true;
      } else {
        read := parts + [c];
      }
    }

    /** A key in quotes, decoded; cut off, it is what there was. */
    method ParseKeyString(ghost cs: Option<seq<CharSyntax>>, ghost rest: string) returns (key: string)
      requires index <= |text|
      requires cs.Some? ==> index < |text| && CharsFormed(cs.value) && text[index..] <= QuotedText(cs.value) + rest
      modifies this`index, this`incomplete
      ensures old(index) <= index <= |text| && (old(index) < |text| ==> old(index) < index)
        && (old(incomplete) ==> incomplete)
      ensures cs.Some? ==>
        var end := old(index) + |QuotedText(cs.value)|;
        if end <= |text| then index == end && key == CharsMeaning(cs.value) && incomplete == old(incomplete)
        else
          && index == |text| && incomplete
          && key == if partial then text[old(index) + 1..] else Decode(text[old(index) + 1..])
    {
      hide ReadBetween, Ahead, InBody, Decode, CharsText, CharsMeaning, QuotedText, CharsFormed;
      var start := index;
      if Peek().None? {
        incomplete := true;
        return "";
      }
      var quote := text[index];
      index := index + 1;
      var parts := "";
      ghost var body := if cs.Some? then CharsText(cs.value) else "";
      ReadNone(text, index);
      if cs.Some? {
        StringStarts(text, start, cs.value, rest);
      }
      while true
        invariant start < index <= |text| && (old(incomplete) ==> incomplete)
        invariant ReadBetween(text, start + 1, index, parts)
        invariant cs.Some? ==> InBody(text, index, body, parts, rest) && quote == '"' && incomplete == old(incomplete)
        decreases |text| - index
      {
        var ended, closing;
        parts, ended, closing := ReadStringPart(quote, start, parts, cs.Some?, body, rest);
        if ended {
          return if partial then parts else Decode(parts);
        }
        if closing {
          key := DecodeRelaxedString(parts);
          return;
        }
      }
    }

    /** A string value; a quote that does not close it may turn the whole into an expression read greedily. */
    method ParseStringValue(path: Path, objectValue: bool, ghost cs: Option<seq<CharSyntax>>, ghost rest: string)
      returns (value: string)
      requires index <= |text|
      requires cs.Some? ==> index < |text| && CharsFormed(cs.value) && text[index..] <= QuotedText(cs.value) + rest
      requires cs.Some? ==> Delimited(rest)
      modifies this`index, this`incomplete
      ensures old(index) <= index <= |text| && (old(incomplete) ==> incomplete)
      ensures cs.Some? ==>
        var end := old(index) + |QuotedText(cs.value)|;
        if end <= |text| then index == end && value == CharsMeaning(cs.value) && incomplete == old(incomplete)
        else
          && index == |text| && incomplete
          && value == if partial then text[old(index) + 1..] else Decode(text[old(index) + 1..])
    {
      hide ReadBetween, Ahead, InBody, Decode, CharsText, CharsMeaning, QuotedText, CharsFormed, Delimited;
      var start := index;
      if Peek().None? {
        incomplete := true;
        return "";
      }
      var quote := text[index];
      index := index + 1;
      var parts := "";
      var sawNonclosingQuote := false;
      ghost var body := if cs.Some? then CharsText(cs.value) else "";
      ReadNone(text, index);
      if cs.Some? {
        StringStarts(text, start, cs.value, rest);
      }
      while true
        invariant start < index <= |text| && (old(incomplete) ==> incomplete)
        invariant ReadBetween(text, start + 1, index, parts)
        invariant cs.Some? ==> InBody(text, index, body, parts, rest) && quote == '"' && incomplete == old(incomplete)
        decreases |text| - index
      {
        var ended, closing;
        parts, ended, closing := ReadStringPart(quote, start, parts, cs.Some?, body, rest);
        if ended {
          return if partial then parts else Decode(parts);
        }
        if closing {
          var closed := CloseStrict(path, objectValue, quote, start, parts, sawNonclosingQuote, cs, rest);
          if closed.Some? {
            return closed.value;
          }
          sawNonclosingQuote := true;
          parts := parts + [quote];
        }
      }
    }

    /** The quote that ends a strict string closes it. */
    method CloseStrict(path: Path, objectValue: bool, quote: char, start: nat, parts: string, sawNonclosingQuote: bool,
                       ghost cs: Option<seq<CharSyntax>>, ghost rest: string)
      returns (value: Option<string>)
      requires start < index <= |text|
      requires cs.Some? ==>
        CharsFormed(cs.value) && parts == CharsText(cs.value) && Ahead(text, index, rest) && Delimited(rest)
      modifies this`index
      ensures value.None? ==> index == old(index)
      ensures start <= index <= |text|
      ensures cs.Some? ==> value == Some(CharsMeaning(cs.value)) && index == old(index)
    {
      hide Skip, Decode, CharsText, CharsMeaning, CharsFormed, Delimited, ColonAfter;
      if cs.Some? {
        NoColonAfter(text, index, 0, rest);
        DecodeStrict(cs.value);
      }
      value := CloseString(path, objectValue, quote, start, parts, sawNonclosingQuote);
    }

    /** Behind a quote: the end of the string, or of an expression that it turns out to be part of, or neither. */
    method CloseString(path: Path, objectValue: bool, quote: char, start: nat, parts: string,
                       sawNonclosingQuote: bool) returns (value: Option<string>)
      requires start < index <= |text|
      modifies this`index
      ensures value.None? ==> index == old(index)
      ensures start <= index <= |text|
      ensures Skip(text, old(index)) == |text| || text[Skip(text, old(index))] in ",}]" ==>
        value == Some(Decode(parts)) && index == old(index)
    {
      hide Skip, Decode, ParityNormalized;
      var closes := QuoteClosesValue(path, index, objectValue);
      if closes {
        var decoded := DecodeRelaxedString(parts);
        return Some(decoded);
      }
      if !sawNonclosingQuote {
        var capture := ShouldCaptureStringExpression(quote);
        if capture {
          index := start;
          var captured := CaptureGreedyValue(path, objectValue, None, "");
          var normalized := ParityNormalizeQuotedExpression(captured);
          return Some(normalized);
        }
      }
      value := None;
    }

    /** _parity_normalize_quoted_expression */
    method ParityNormalizeQuotedExpression(value: string) returns (normalized: string)
      ensures normalized == ParityNormalized(value)
    {
      if |value| < 2 || value[0] !in "\"'" || value[0] != value[|value| - 1] {
        normalized := DecodeRelaxedString(value);
        return;
      }
      var first, middle := value[0], value[1..|value| - 1];
      var count := 0;
      for i := 0 to |middle|
        invariant count == BareQuotes(middle[..i], first)
      {
        assert middle[..i + 1][..i] == middle[..i];
        if middle[i] == first && !(i > 0 && middle[i - 1] == '\\') {
          count := count + 1;
        }
      }
      assert middle[..|middle|] == middle;
      if count % 2 == 1 || count == 0 {
        normalized := DecodeRelaxedString(middle);
      } else {
        normalized := DecodeRelaxedString(value);
      }
    }

    method ParseBareKey() returns (key: Option<string>)
      requires index <= |text|
      modifies this`index
      ensures old(index) <= index <= |text| && (key.Some? ==> old(index) < index) && (key.None? ==> index == old(index))
      ensures key == if IdentifierEnd(text, old(index)).None? then None else Some(text[old(index)..index])
    {
      var end := IdentifierEnd(text, index);
      if end.None? {
        return None;
      }
      key := Some(text[index..end.value]);
      index := end.value;
    }

    predicate InNumericKey(c: char) {
      IsDigitLike(unicode, c) || c in ".eE+-"
    }

    /** A run of digits, points, exponents and signs with a digit in it, as far as it goes. */
    method ParseNumericKey() returns (key: Option<string>)
      requires index <= |text|
      modifies this`index
      ensures old(index) <= index <= |text| && (key.Some? ==> old(index) < index) && (key.None? ==> index == old(index))
      ensures key.Some? ==>
        && key.value == text[old(index)..index] && (index < |text| ==> !InNumericKey(text[index]))
        && (forall i | 0 <= i < |key.value| :: InNumericKey(key.value[i]))
        && exists i :: 0 <= i < |key.value| && IsDigitLike(unicode, key.value[i])
    {
      var start := index;
      if Peek() == Some('-') {
        index := index + 1;
      }
      var sawDigit := false;
      ghost var digit := start;
      while index < |text| && InNumericKey(text[index])
        invariant start <= index <= |text| && forall i | start <= i < index :: InNumericKey(text[i])
        invariant sawDigit ==> start <= digit < index && IsDigitLike(unicode, text[digit])
      {
        if IsDigitLike(unicode, text[index]) {
          sawDigit, digit := true, index;
        }
        index := index + 1;
      }
      if !sawDigit {
        index := start;
        return None;
      }
      key := Some(text[start..index]);
      assert key.value[digit - start] == text[digit];
    }

    /** Everything up to what can only follow a value, nested brackets and quotes included. */
    method CaptureGreedyValue(path: Path, objectValue: bool, ghost word: Option<Literal>, ghost rest: string)
      returns (captured: string)
      requires index <= |text|
      requires word.Some? ==> index < |text| && text[index..] <= LiteralText(word.value) + rest && Delimited(rest)
      modifies this`index
      ensures old(index) <= index <= |text| && captured == Strip(text[old(index)..index])
      ensures word.Some? ==>
        var end := old(index) + |LiteralText(word.value)|;
        && index == Min(end + BlankLength(rest), |text|)
        && (end <= |text| ==> captured == LiteralText(word.value))
    {
      hide LiteralText, KeyColon, Skip, Delimited, Strip;
      var start := index;
      ghost var end := if word.Some?
        then Min(start + |LiteralText(word.value)| + BlankLength(rest), |text|) else |text|;
      var stack := "";
      var quote := None;
      while index < |text|
        invariant start <= index <= |text|
        invariant word.Some? ==> stack == "" && quote == None && index <= end
      {
        if word.Some? {
          WordOrBlank(text, start, word.value, rest, index);
        }
        var c := text[index];
        if quote.Some? {
          if c == '\\' {
            index := Min(index + 2, |text|);
            continue;
          }
          if c == quote.value {
            quote := None;
          }
          index := index + 1;
          continue;
        }
        if stack == "" {
          if c in ",}]" {
            break;
          }
          if objectValue {
            var looks := LooksLikeNextKey(Parent(path), index);
            if looks {
              break;
            }
          }
        }
        if c == '"' || c == '\'' {
          quote := Some(c);
          index := index + 1;
          continue;
        }
        if c in "([{" {
          stack := stack + [c];
          index := index + 1;
          continue;
        }
        if c in ")]}" {
          if stack != "" {
            var top := stack[|stack| - 1];
            if (top == '(' && c == ')') || (top == '[' && c == ']') || (top == '{' && c == '}') {
              stack := stack[..|stack| - 1];
              index := index + 1;
              continue;
            }
          }
          if c in "]}" {
            break;
          }
        }
        index := index + 1;
      }
      if word.Some? {
        WordCaptured(text, start, word.value, rest, index);
      }
      captured := Strip(text[start..index]);
    }

    method CaptureNumberToken() returns (token: string)
      requires index <= |text|
      modifies this`index
      ensures index == TokenEnd(text, old(index)) && token == text[old(index)..index]
    {
      var start := index;
      while index < |text|
        invariant start <= index <= |text| && TokenEnd(text, index) == TokenEnd(text, start)
      {
        if EndsToken(text[index]) {
          break;
        }
        index := index + 1;
      }
      token := text[start..index];
    }

    method ParseNumberOrToken(path: Path, objectValue: bool, ghost g: Option<Syntax>, ghost rest: string)
      returns (value: Json)
      requires index <= |text|
      requires g.Some? ==> (g.value.Word? || g.value.Figure?) && Formed(g.value) && Delimited(rest)
      requires g.Some? ==> index < |text| && text[index..] <= Text(g.value) + rest
      modifies this`index
      ensures old(index) <= index <= |text|
      ensures g.Some? ==>
        if old(index) + |Text(g.value)| <= |text|
        then Consumed(text, old(index), |Text(g.value)|, index, rest) && value == Meaning(g.value, limit)
        else index == |text|
      ensures g.Some? ==> value == Upto(g.value, |text| - old(index), Mode())
    {
      hide Scalar, NumeralText, LiteralText, Meaning, Delimited, BlankLength, TokenEnd, Consumed, EndsToken, Strip;
      if g.Some? {
        TokenCut(text, index, g.value, rest);
        if g.value.Word? {
          WordEnds(unicode, limit, text, index, g.value.literal, rest);
        } else {
          FigureEnds(unicode, limit, text, index, g.value.numeral, rest);
        }
      }
      var start := index;
      if index < |text| && StartsNumber(text[index]) {
        var token := CaptureNumberToken();
        if token != "" {
          return Scalar(unicode, limit, token, true);
        }
      }
      ghost var word := if g.Some? && g.value.Word? && index == start then Some(g.value.literal) else None;
      var token := CaptureGreedyValue(path, objectValue, word, rest);
      value := Scalar(unicode, limit, token, false);
    }

    method ParseKey(ghost cs: Option<seq<CharSyntax>>, ghost rest: string) returns (key: Option<string>)
      requires index <= |text|
      requires cs.Some? ==> index < |text| && CharsFormed(cs.value) && text[index..] <= QuotedText(cs.value) + rest
      modifies this`index, this`incomplete
      ensures old(index) <= index <= |text| && (key.Some? ==> old(index) < index) && (old(incomplete) ==> incomplete)
      ensures cs.Some? ==>
        var end := old(index) + |QuotedText(cs.value)|;
        && key.Some?
        && (if end <= |text| then index == end && key.value == CharsMeaning(cs.value) && incomplete == old(incomplete)
            else index == |text| && incomplete)
        && key.value == CharsUpto(cs.value, |text| - old(index), Mode())
    {
      if cs.Some? {
        QuotedRead(text, index, cs.value, rest, Mode());
        Advance(text, index, 0, QuotedText(cs.value) + rest);
      }
      SkipBlanks(if cs.Some? then Some("") else None, if cs.Some? then QuotedText(cs.value) + rest else "");
      if Peek().None? {
        incomplete := true;
        return None;
      }
      var c := text[index];
      if c == '"' || c == '\'' {
        var quoted := ParseKeyString(cs, rest);
        return Some(quoted);
      }
      if IsDigitLike(unicode, c) || c == '-' {
        key := ParseNumericKey();
        return;
      }
      key := ParseBareKey();
    }

    /**
     An element of an array or the value of a member, with the blanks behind it; a value that takes no text is stuck.
     */
    method ParseElement(path: Path, objectValue: bool, ghost e: Option<Element>, ghost more: string)
      returns (value: Json, stuck: bool)
      requires index < |text| && Enclosing(contexts, path)
      requires e.Some? ==> ElementFormed(e.value) && Closes(more) && Ahead(text, index, ElementAhead(e.value, more))
      modifies this
      ensures old(index) <= index <= |text| && contexts == old(contexts)
      ensures (old(incomplete) ==> incomplete) && (old(rejected) ==> rejected) && (stuck <==> index == old(index))
      ensures e.Some? ==>
        && !stuck && rejected == old(rejected)
        && index + |more| <= old(index) + |ElementAhead(e.value, more)|
        && (index < |text| ==>
              && Ahead(text, index, more) && index + |more| == old(index) + |ElementAhead(e.value, more)|
              && value == ElementMeaning(e.value, limit) && incomplete == old(incomplete))
      ensures e.Some? ==>
        Formed(e.value.value) && value == Upto(e.value.value, |text| - old(index), Mode())
      decreases |text| - index, 3, 0
    {
      hide Formed, Text, ElementFormed, Meaning, Upto, Consumed, Blank, IsSpace, Skip, Closes, Delimited, BlankLength,
        Enclosing;
      var valueStart := index;
      ghost var strict, after, length := None, "", 0;
      if e.Some? {
        strict, after, length := Some(e.value.value), e.value.after, |Text(e.value.value)|;
        ElementStarts(e.value, more);
      }
      value := ParseValue(path, objectValue, strict, after + more);
      ghost var whole := e.Some? && valueStart + length <= |text|;
      if whole {
        AfterValue(text, valueStart, length, index, after, more);
      }
      stuck := index == valueStart;
      if stuck {
        return;
      }
      SkipBlanks(if whole then Some(after[index - valueStart - length..]) else None, more);
    }

    /**
     One round of an array: blanks, then an element up to what follows it, or else what ends the array or is passed
     over.
     */
    method ParseItem(path: Path, items: seq<Json>, ghost above: map<Path, Json>, ghost strict: bool,
                     ghost todo: Elements, ghost rest: string,
                     ghost end: nat, ghost meant: seq<Json>)
      returns (read: seq<Json>, stop: bool, ghost others: Elements)
      requires index <= |text| && Enclosing(above, path) && contexts == above[path := Arr(items)]
      requires strict ==> InArray(text, index, end, todo, rest, items, meant, Mode())
      modifies this
      ensures old(index) <= index <= |text| && (!stop ==> old(index) < index) && contexts == above[path := Arr(read)]
      ensures (old(incomplete) ==> incomplete) && (old(rejected) ==> rejected)
      ensures strict ==>
        && rejected == old(rejected)
        && (if !stop then InArray(text, index, end, others, rest, read, meant, Mode()) && incomplete == old(incomplete)
            else if end <= |text| then index == end && read == meant && incomplete == old(incomplete)
            else index == |text| && incomplete && read == meant)
      decreases |text| - index, 4, 0
    {
      hide ElementFormed, ElementMeaning, ElementAhead, ElementsFormed, ElementsText, ElementsMeaning, InArray,
        ElementUpto, Upto, ElementsUpto, Formed;
      hide Ahead, ArrayAhead, ArrayToken, ArrayBlank, ArrayMore, Enclosing, Closes, Blank, Skip, IsSpace;
      read, stop, others := items, true, todo;
      ghost var at, blank, token, element, more := index, None, "", None, "";
      if strict {
        ArrayNext(text, index, end, todo, rest, items, meant, Mode());
        blank, token := Some(ArrayBlank(todo)), ArrayToken(todo, rest);
        if !todo.NoElements? {
          element, more, others := Some(todo.element), ArrayMore(todo, rest),
            if todo.MoreElements? then todo.others else todo;
        }
      }
      SkipBlanks(blank, token);
      if Peek().None? {
        incomplete := true;
        return;
      }
      if text[index] == ']' {
        index := index + 1;
        return;
      }
      if text[index] == ',' {
        index := index + 1;
        stop := false;
        return;
      }
      if text[index] == '}' {
        incomplete := true;
        return;
      }
      Opened(above, path, Arr(items), Index(|items|));
      var item, stuck := ParseElement(path + [Index(|items|)], false, element, more);
      if strict {
        ArrayStep(text, at, index, end, todo, rest, items, meant, Mode());
        ElementUptoIs(todo.element, |text| - at, Mode());
      }
      read := Append(path, items, item, above);
      if stuck {
        rejected := true;
        return;
      }
      if Peek() == Some(',') {
        index := index + 1;
        stop := false;
        return;
      }
      if Peek() == Some(']') {
        index := index + 1;
        return;
      }
      if Peek().None? || Peek() == Some('}') {
        incomplete := true;
        return;
      }
      stop := false;
    }

    method ParseArray(path: Path, ghost g: Option<Elements>, ghost rest: string) returns (value: Json)
      requires index < |text| && Enclosing(contexts, path)
      requires g.Some? ==> ElementsFormed(g.value) && text[index..] <= "[" + ElementsText(g.value) + "]" + rest
      modifies this
      ensures old(index) < index <= |text| && contexts == old(contexts)
      ensures (old(incomplete) ==> incomplete) && (old(rejected) ==> rejected)
      ensures g.Some? ==>
        var end := old(index) + |ElementsText(g.value)| + 2;
        && rejected == old(rejected)
        && (if end <= |text|
            then index == end && value == Arr(ElementsMeaning(g.value, limit)) && incomplete == old(incomplete)
            else index == |text| && incomplete)
        && value == Arr(ElementsUpto(g.value, |text| - old(index) - 1, Mode()))
      decreases |text| - index, 1, 0
    {
      hide ElementsFormed, ElementsText, ElementsMeaning, ElementsUpto, InArray, Enclosing;
      ghost var above, todo, meant, end := contexts, NoElements(""), [], 0;
      if g.Some? {
        todo, meant, end := g.value, ElementsUpto(g.value, |text| - index - 1, Mode()),
          index + |ElementsText(g.value)| + 2;
        if end <= |text| {
          ElementsWhole(g.value, |text| - index - 1, Mode());
        }
        BracketOpens(text, index, g.value, rest, Mode());
      }
      var items, stop := [], false;
      index := index + 1;
      contexts := contexts[path := Arr(items)];
      while !stop
        invariant old(index) < index <= |text| && contexts == above[path := Arr(items)]
        invariant (old(incomplete) ==> incomplete) && (old(rejected) ==> rejected)
        invariant g.Some? ==>
          && rejected == old(rejected)
          && (if !stop then InArray(text, index, end, todo, rest, items, meant, Mode()) && incomplete == old(incomplete)
              else if end <= |text| then index == end && items == meant && incomplete == old(incomplete)
              else index == |text| && incomplete && items == meant)
        decreases !stop, |text| - index
      {
        items, stop, todo := ParseItem(path, items, above, g.Some?, todo, rest, end, meant);
      }
      Closed(above, path, Arr(items));
      contexts := contexts - {path};
      value := Arr(items);
    }

    /** A key with the blanks behind it. */
    method ParseKeyThenSkip(ghost f: Option<Field>, ghost more: string) returns (key: Option<string>)
      requires index < |text|
      requires f.Some? ==> FieldFormed(f.value) && Ahead(text, index, FieldAhead(f.value, more))
      modifies this`index, this`incomplete
      ensures old(index) <= index <= |text| && (key.Some? ==> old(index) < index) && (old(incomplete) ==> incomplete)
      ensures f.Some? ==>
        && key.Some? && |ColonAhead(f.value, more)| > |more|
        && index + |ColonAhead(f.value, more)| <= old(index) + |FieldAhead(f.value, more)|
        && (index < |text| ==>
              && text[index] == ':' && Ahead(text, index, ColonAhead(f.value, more))
              && index + |ColonAhead(f.value, more)| == old(index) + |FieldAhead(f.value, more)|
              && key.value == CharsMeaning(f.value.key) && incomplete == old(incomplete))
        && CharsFormed(f.value.key) && key.value == CharsUpto(f.value.key, |text| - old(index), Mode())
        && |FieldAhead(f.value, more)| == |QuotedText(f.value.key)| + |f.value.middle| + |ColonAhead(f.value, more)|
    {
      ghost var cs, middle, rest, length := None, "", "", 0;
      if f.Some? {
        cs, middle, rest := Some(f.value.key), f.value.middle, ColonAhead(f.value, more);
        length := |QuotedText(f.value.key)|;
      }
      ghost var start := index;
      key := ParseKey(cs, middle + rest);
      if key.Some? {
        ghost var whole := f.Some? && start + length <= |text|;
        if whole {
          ReadOff(text, start, QuotedText(f.value.key), middle + rest);
        }
        SkipBlanks(if whole then Some(middle) else None, rest);
      }
    }

    /** A key and what it is assigned, up to where it is decided what comes next. */
    method ParseMember(path: Path, implicit: bool, members: seq<Member>, ghost above: map<Path, Json>,
                       ghost f: Option<Field>, ghost more: string)
      returns (read: seq<Member>, outcome: Outcome)
      requires index < |text| && Enclosing(above, path) && contexts == above[path := Obj(members)]
        && (implicit ==> f.None?)
      requires f.Some? ==> FieldFormed(f.value) && Closes(more) && Ahead(text, index, FieldAhead(f.value, more))
      modifies this
      ensures old(index) <= index <= |text| && (outcome.Again? ==> old(index) < index)
        && contexts == above[path := Obj(read)]
      ensures outcome.Behind? ==> old(index) < index
      ensures (old(incomplete) ==> incomplete) && (old(rejected) ==> rejected)
      ensures f.Some? ==>
        && rejected == old(rejected)
        && index + |more| <= old(index) + |FieldAhead(f.value, more)|
        && (if index < |text| then
              && outcome.Behind? && incomplete == old(incomplete)
              && Ahead(text, index, more) && index + |more| == old(index) + |FieldAhead(f.value, more)|
              && read == Set(members, CharsMeaning(f.value.key), ElementMeaning(f.value.value, limit))
            else outcome.Behind? || (outcome.Stop? && incomplete))
        && read == FieldUpto(f.value, |text| - old(index), Mode(), members)
      decreases |text| - index, 0, 0
    {
      hide FieldFormed, FieldAhead, ColonAhead, CharsMeaning, ElementMeaning, Ahead, Enclosing, Closes, Blank, Skip,
        Set, Has, IsSpace, Parent, KeyColon, FieldUpto, Upto, CharsUpto, Formed, CharsFormed, QuotedText, ElementAhead;
      var keyStart := index;
      var parsed := ParseKeyThenSkip(f, more);
      if parsed.None? {
        if Peek().None? {
          incomplete := true;
          return members, Stop;
        }
        index := index + 1;
        return members, Again;
      }
      var key := parsed.value;
      if f.Some? {
        FieldWithout(f.value, |text| - keyStart, Mode(), members);
      }
      if Peek() != Some(':') {
        read := Assign(path, members, key, Null, above);
        if Peek().None? {
          incomplete := true;
          return read, Stop;
        }
        return read, Again;
      }
      if implicit && Has(members, key) {
        index := keyStart;
        return members, Stop;
      }
      ghost var e, before := None, None;
      if f.Some? {
        ColonStep(text, index, f.value, more);
        e, before := Some(f.value.value), Some(f.value.value.before);
      }
      index := index + 1;
      SkipBlanks(before, if f.Some? then ElementAhead(e.value, more) else "");
      if Peek().None? {
        incomplete := true;
        read := Assign(path, members, key, Null, above);
        return read, Stop;
      }
      if text[index] == ',' || text[index] == '}' {
        read := Assign(path, members, key, Null, above);
        return read, Again;
      }
      if f.Some? {
        FieldWith(f.value, |text| - keyStart, Mode(), members);
      }
      read, outcome := ParseAssigned(path, members, key, above, e, more);
    }

    /** The value of a member, assigned to its key. */
    method ParseAssigned(path: Path, members: seq<Member>, key: string, ghost above: map<Path, Json>,
                         ghost e: Option<Element>, ghost more: string)
      returns (read: seq<Member>, outcome: Outcome)
      requires index < |text| && Enclosing(above, path) && contexts == above[path := Obj(members)]
      requires e.Some? ==> ElementFormed(e.value) && Closes(more) && Ahead(text, index, ElementAhead(e.value, more))
      modifies this
      ensures old(index) <= index <= |text| && contexts == above[path := Obj(read)] && !outcome.Again?
      ensures outcome.Behind? ==> old(index) < index
      ensures (old(incomplete) ==> incomplete) && (old(rejected) ==> rejected)
      ensures e.Some? ==>
        && rejected == old(rejected) && outcome.Behind?
        && index + |more| <= old(index) + |ElementAhead(e.value, more)|
        && (index < |text| ==>
              && incomplete == old(incomplete)
              && Ahead(text, index, more) && index + |more| == old(index) + |ElementAhead(e.value, more)|
              && read == Set(members, key, ElementMeaning(e.value, limit)))
        && Formed(e.value.value) && read == Set(members, key, Upto(e.value.value, |text| - old(index), Mode()))
      decreases |text| - index, 3, 1
    {
      hide ElementFormed, ElementMeaning, ElementAhead, Ahead, Closes, Enclosing, Set, Upto, Formed;
      Opened(above, path, Obj(members), Name(key));
      var item, stuck := ParseElement(path + [Name(key)], true, e, more);
      read := Assign(path, members, key, item, above);
      if stuck {
        rejected := true;
        return read, Stop;
      }
      outcome := Behind;
    }

    /** Appends to the list that is open at the path. */
    method Append(path: Path, items: seq<Json>, item: Json, ghost above: map<Path, Json>) returns (read: seq<Json>)
      requires contexts == above[path := Arr(items)]
      modifies this`contexts
      ensures read == items + [item] && contexts == above[path := Arr(read)]
    {
      read := items + [item];
      contexts := contexts[path := Arr(read)];
    }

    /** Assigns to the dictionary that is open at the path. */
    method Assign(path: Path, members: seq<Member>, key: string, item: Json, ghost above: map<Path, Json>)
      returns (read: seq<Member>)
      requires contexts == above[path := Obj(members)]
      modifies this`contexts
      ensures read == Set(members, key, item) && contexts == above[path := Obj(read)]
    {
      read := Set(members, key, item);
      contexts := contexts[path := Obj(read)];
    }

    /**
     One round of an object: blanks, then a member up to what follows it, or else what ends the object or is passed
     over.
     */
    method ParseField(path: Path, implicit: bool, members: seq<Member>, ghost above: map<Path, Json>,
                      ghost strict: bool, ghost todo: Fields,
                      ghost rest: string, ghost end: nat, ghost meant: seq<Member>)
      returns (read: seq<Member>, stop: bool, ghost others: Fields)
      requires index <= |text| && Enclosing(above, path) && contexts == above[path := Obj(members)]
        && (implicit ==> !strict)
      requires strict ==> InObject(text, index, end, todo, rest, members, meant, Mode())
      modifies this
      ensures old(index) <= index <= |text| && (!stop ==> old(index) < index) && contexts == above[path := Obj(read)]
      ensures (old(incomplete) ==> incomplete) && (old(rejected) ==> rejected)
      ensures strict ==>
        && rejected == old(rejected)
        && (if !stop then InObject(text, index, end, others, rest, read, meant, Mode()) && incomplete == old(incomplete)
            else if end <= |text| then index == end && read == meant && incomplete == old(incomplete)
            else index == |text| && incomplete && read == meant)
      decreases |text| - index, 0, 1
    {
      hide FieldFormed, FieldMeaning, FieldAhead, FieldsFormed, FieldsText, FieldsMeaning, InObject, CharsMeaning,
        ElementMeaning, FieldUpto, FieldsUpto;
      hide Ahead, FieldsAhead, ObjectToken, ObjectBlank, ObjectMore, Enclosing, Closes, Blank, Skip, Set, Has;
      read, stop, others := members, true, todo;
      ghost var at, blank, token, field, more := index, None, "", None, "";
      if strict {
        ObjectNext(text, index, end, todo, rest, members, meant, Mode());
        blank, token := Some(ObjectBlank(todo)), ObjectToken(todo, rest);
        if !todo.NoFields? {
          field, more, others := Some(todo.field), ObjectMore(todo, rest),
            if todo.MoreFields? then todo.others else todo;
        }
      }
      SkipBlanks(blank, token);
      if Peek().None? {
        incomplete := true;
        return;
      }
      if text[index] == '}' {
        index := index + 1;
        return;
      }
      if implicit && text[index] == ']' {
        return;
      }
      if text[index] == ',' {
        index := index + 1;
        stop := false;
        return;
      }
      var outcome;
      read, outcome := ParseMember(path, implicit, members, above, field, more);
      if strict {
        ObjectStep(text, at, index, end, todo, rest, members, meant, Mode());
      }
      if outcome.Stop? {
        return;
      }
      if outcome.Again? {
        stop := false;
        return;
      }
      if Peek() == Some(',') {
        index := index + 1;
        stop := false;
        return;
      }
      if Peek() == Some('}') {
        index := index + 1;
        return;
      }
      if implicit {
        var looks := LooksLikeNextKey(path, index);
        if looks {
          stop := false;
          return;
        }
      }
      if implicit && Peek() == Some(']') {
        return;
      }
      if Peek().None? {
        incomplete := true;
        return;
      }
      stop := implicit;
    }

    /** Members up to a brace; an implicit object has no braces and ends where its members do. */
    method ParseObject(path: Path, implicit: bool, ghost g: Option<Fields>, ghost rest: string) returns (value: Json)
      requires index < |text| && Enclosing(contexts, path) && (implicit ==> g.None?)
      requires g.Some? ==> FieldsFormed(g.value) && text[index..] <= "{" + FieldsText(g.value) + "}" + rest
      modifies this
      ensures old(index) <= index <= |text| && (!implicit ==> old(index) < index) && contexts == old(contexts)
      ensures (old(incomplete) ==> incomplete) && (old(rejected) ==> rejected)
      ensures g.Some? ==>
        var end := old(index) + |FieldsText(g.value)| + 2;
        && rejected == old(rejected)
        && (if end <= |text|
            then index == end && value == Obj(FieldsMeaning(g.value, limit, [])) && incomplete == old(incomplete)
            else index == |text| && incomplete)
        && value == Obj(FieldsUpto(g.value, |text| - old(index) - 1, Mode(), []))
      decreases |text| - index, 1, 0
    {
      hide FieldsFormed, FieldsText, FieldsMeaning, FieldsUpto, InObject, Enclosing;
      ghost var above, todo, meant, end := contexts, NoFields(""), [], 0;
      if g.Some? {
        todo, meant, end := g.value, FieldsUpto(g.value, |text| - index - 1, Mode(), []),
          index + |FieldsText(g.value)| + 2;
        if end <= |text| {
          FieldsWhole(g.value, |text| - index - 1, Mode(), []);
        }
        BraceOpens(text, index, g.value, rest, Mode());
      }
      var members, stop := [], false;
      if !implicit {
        index := index + 1;
      }
      contexts := contexts[path := Obj(members)];
      while !stop
        invariant old(index) <= index <= |text| && (!implicit ==> old(index) < index)
          && contexts == above[path := Obj(members)]
        invariant (old(incomplete) ==> incomplete) && (old(rejected) ==> rejected)
        invariant g.Some? ==>
          && rejected == old(rejected)
          && (if !stop then InObject(text, index, end, todo, rest, members, meant, Mode())
              && incomplete == old(incomplete)
              else if end <= |text| then index == end && members == meant && incomplete == old(incomplete)
              else index == |text| && incomplete && members == meant)
        decreases !stop, |text| - index
      {
        members, stop, todo := ParseField(path, implicit, members, above, g.Some?, todo, rest, end, meant);
      }
      Closed(above, path, Obj(members));
      contexts := contexts - {path};
      value := Obj(members);
    }

    /** What is neither an object nor an array. */
    method ParseSimpleValue(path: Path, objectValue: bool, ghost g: Option<Syntax>, ghost rest: string)
      returns (value: Json)
      requires index < |text|
      requires g.Some? ==> !g.value.Brackets? && !g.value.Braces? && Formed(g.value) && Delimited(rest)
      requires g.Some? ==> text[index] == Text(g.value)[0] && text[index..] <= Text(g.value) + rest
      modifies this`index, this`incomplete
      ensures old(index) <= index <= |text| && (old(incomplete) ==> incomplete)
      ensures g.Some? ==>
        if old(index) + |Text(g.value)| <= |text| then
          && Consumed(text, old(index), |Text(g.value)|, index, rest)
          && value == Meaning(g.value, limit) && incomplete == old(incomplete)
        else index == |text| && incomplete == (old(incomplete) || g.value.Quoted?)
      ensures g.Some? ==> value == Upto(g.value, |text| - old(index), Mode())
    {
      hide Delimited, BlankLength, LiteralText, Consumed, Decode, Text, Upto, Meaning, Formed, QuotedText, CharsUpto;
      ghost var start := index;
      var c := text[index];
      if g.Some? {
        TextStarts(g.value);
        SyntaxUnfolds(g.value, limit);
        UptoUnfolds(g.value, |text| - index, Mode());
      }
      if c == '"' || c == '\'' {
        if g.Some? {
          QuotedRead(text, index, g.value.chars, rest, Mode());
        }
        var content := ParseStringValue(path, objectValue, if g.Some? then Some(g.value.chars) else None, rest);
        value := Str(content);
        if g.Some? && start + |Text(g.value)| <= |text| {
          ConsumedExactly(text, start, Text(g.value), rest);
        }
      } else if IsAlpha(unicode, c) || StartsNumber(c) || c == '_' || c == '@' || c == '$' {
        value := ParseNumberOrToken(path, objectValue, g, rest);
      } else {
        var captured := CaptureGreedyValue(path, objectValue, None, "");
        value := Str(captured);
      }
    }

    /** A value of any kind; of a strict one that is cut off, everything there is gets read. */
    method ParseValue(path: Path, objectValue: bool, ghost g: Option<Syntax>, ghost rest: string) returns (value: Json)
      requires index <= |text| && Enclosing(contexts, path)
      requires g.Some? ==> index < |text| && Formed(g.value) && Delimited(rest) && text[index..] <= Text(g.value) + rest
      modifies this
      ensures old(index) <= index <= |text| && contexts == old(contexts)
      ensures (old(incomplete) ==> incomplete) && (old(rejected) ==> rejected)
      ensures g.Some? ==>
        && rejected == old(rejected)
        && (if old(index) + |Text(g.value)| <= |text| then
              && Consumed(text, old(index), |Text(g.value)|, index, rest)
              && value == Meaning(g.value, limit) && incomplete == old(incomplete)
            else
              && index == |text|
              && incomplete == (old(incomplete) || g.value.Quoted? || g.value.Brackets? || g.value.Braces?))
        && value == Upto(g.value, |text| - old(index), Mode())
      decreases |text| - index, 2, 0
    {
      hide Text, Formed, Meaning, Upto, ElementsUpto, FieldsUpto, QuotedText, CharsFormed, CharsMeaning,
        ElementsMeaning, FieldsMeaning, KeyColon, Skip;
      hide Delimited, BlankLength, Consumed, Enclosing, ElementsFormed, FieldsFormed, ElementsText, FieldsText;
      ghost var start := index;
      if g.Some? {
        ValueNoKey(text, index, g.value, rest);
        TextStarts(g.value);
        SyntaxUnfolds(g.value, limit);
        UptoUnfolds(g.value, |text| - index, Mode());
      }
      SkipWhitespace();
      if Peek().None? {
        incomplete := true;
        return Null;
      }
      var c := text[index];
      if c == '{' {
        value := ParseObject(path, false, if g.Some? then Some(g.value.fields) else None, rest);
      } else {
        var expects := schema.expectsObject(contexts, path);
        var implicit := false;
        if expects {
          implicit := LooksLikeNextKey(path, index);
        }
        if implicit {
          value := ParseObject(path, true, None, "");
        } else if c == '[' {
          value := ParseArray(path, if g.Some? then Some(g.value.elements) else None, rest);
        } else {
          value := ParseSimpleValue(path, objectValue, g, rest);
        }
      }
      if g.Some? && (g.value.Brackets? || g.value.Braces?) && start + |Text(g.value)| <= |text| {
        ConsumedExactly(text, start, Text(g.value), rest);
      }
    }

    predicate StartsValue(c: char) {
      c in "{[\"'" || StartsNumber(c) || IsAlpha(unicode, c) || c == '_'
    }

    /** Past anything that cannot start a value. */
    method SkipToValueStart(ghost blank: Option<string>, ghost rest: string)
      requires index <= |text|
      requires blank.Some? ==> Ahead(text, index, blank.value + rest) && Blank(blank.value)
      requires blank.Some? ==> rest != "" && !IsSpace(rest[0]) && rest[0] != '/' && StartsValue(rest[0])
      modifies this`index, this`incomplete
      ensures old(index) <= index <= |text| && (old(incomplete) ==> incomplete)
      ensures index < |text| ==> StartsValue(text[index])
      ensures blank.Some? ==>
        && incomplete == old(incomplete)
        && index == Min(old(index) + |blank.value|, |text|)
        && (old(index) + |blank.value| <= |text| ==> Ahead(text, index, rest))
    {
      hide Skip, IsSpace, Ahead, Blank, StartsValue;
      SkipBlanks(blank, rest);
      while index < |text| && !StartsValue(text[index])
        invariant old(index) <= index <= |text| && (old(incomplete) ==> incomplete)
        invariant blank.Some? ==>
          && incomplete == old(incomplete)
          && index == Min(old(index) + |blank.value|, |text|)
          && (old(index) + |blank.value| <= |text| ==> Ahead(text, index, rest))
          && (index < |text| ==> text[index] == rest[0])
        decreases |text| - index
      {
        index := index + 1;
        SkipWhitespace();
      }
    }

    /**
     The value at the front of the text. Of strict text with a value in it, the parser gives its meaning
     when all of the value is there; cut off earlier, it reads to the end, and an unclosed container
     shows as incomplete.
     */
    method Parse(ghost g: Option<Element>) returns (value: Json)
      requires index == 0 && contexts == map[] && !incomplete && !rejected
      requires g.Some? ==> ElementFormed(g.value) && text <= ElementText(g.value)
      modifies this
      ensures index <= |text| && contexts == map[]
      ensures g.Some? ==>
        var start := |g.value.before|;
        var end := start + |Text(g.value.value)|;
        if |text| <= start then rejected else
        && !rejected
        && (if end <= |text| then end <= index && value == Meaning(g.value.value, limit) && !incomplete
            else
              && index == |text|
              && (incomplete <==> g.value.value.Quoted? || g.value.value.Brackets? || g.value.value.Braces?))
        && value == Upto(g.value.value, |text| - start, Mode())
    {
      ghost var blank, strict, after := None, None, "";
      if g.Some? {
        blank, strict, after := Some(g.value.before), Some(g.value.value), g.value.after;
        ValueAlone(g.value);
        assert text[0..] == text;
      }
      SkipToValueStart(blank, if g.Some? then Text(strict.value) + after else "");
      if Peek().None? {
        rejected := true;
        return Null;
      }
      value := ParseValue([], false, strict, after);
    }
  }

  lemma ValueAlone(e: Element)
    requires ElementFormed(e)
    ensures Blank(e.before) && Formed(e.value) && Delimited(e.after) && Text(e.value) != ""
    ensures ElementText(e) == e.before + (Text(e.value) + e.after)
    ensures var c := (Text(e.value) + e.after)[0];
      !IsSpace(c) && c != '/' && (c in "{[\"'" || StartsNumber(c) || 'a' <= c <= 'z')
  {
    TextStarts(e.value);
    BlankLengthIs(e.after, "");
    assert e.after + "" == e.after;
  }

  datatype Recovery = Complete(value: Json) | Incomplete(value: Json) | Rejected

  /**
   recover: what the strict decoder takes is complete; anything else goes to the parser, a text that is
   not partial only after a preparation that may cut it down to `prepared`, or reject it.
   */
  method Recover(text: string, partial: bool, decoded: Option<Json>, prepared: Option<string>, schema: Schema,
                 unicode: Unicode, limit: nat, ghost g: Option<Element>)
    returns (recovery: Recovery)
    requires g.Some? ==> ElementFormed(g.value) && text <= ElementText(g.value)
    ensures decoded.Some? ==> recovery == Complete(decoded.value)
    ensures !partial ==> !recovery.Incomplete?
    ensures decoded.None? && partial && g.Some? ==>
      var start := |g.value.before|;
      var end := start + |Text(g.value.value)|;
      if |text| <= start then recovery == Rejected
      else if end <= |text| then recovery == Complete(Meaning(g.value.value, limit))
      else
        var value := Upto(g.value.value, |text| - start, Reading(true, unicode, limit));
        recovery == if g.value.value.Word? || g.value.value.Figure? then Complete(value) else Incomplete(value)
  {
    if decoded.Some? {
      return Complete(decoded.value);
    }
    if !partial && prepared.None? {
      return Rejected;
    }
    var parser := new Parser(if partial then text else prepared.value, partial, schema, unicode, limit);
    var value := parser.Parse(if partial then g else None);
    if parser.rejected {
      return Rejected;
    }
    if partial && parser.incomplete {
      return Incomplete(value);
    }
    return Complete(value);
  }
}
