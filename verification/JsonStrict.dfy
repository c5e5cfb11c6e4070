/** How strict JSON text looks to a scanner standing in the middle of it, possibly with the input cut off. */
module JsonStrict {
  import opened Wrappers
  import opened JsonSyntax
  import opened JsonScan

  function BlankLength(s: string): (n: nat)
    ensures n <= |s| && Blank(s[..n]) && (n < |s| ==> !IsBlank(s[n]))
  {
    if s != "" && IsBlank(s[0]) then
      assert s[..1 + BlankLength(s[1..])] == [s[0]] + s[1..][..BlankLength(s[1..])];
      1 + BlankLength(s[1..])
    else 0
  }

  /** What may follow a value: blanks, then a comma, a closing bracket or the end. */
  predicate Delimited(s: string) {
    var n := BlankLength(s);
    n == |s| || s[n] in ",}]"
  }

  function Min(a: nat, b: nat): nat {
    if a < b then a else b
  }

  lemma BlankLengthIs(blank: string, rest: string)
    requires Blank(blank) && (rest != "" ==> !IsBlank(rest[0]))
    ensures BlankLength(blank + rest) == |blank|
  {
    var s := blank + rest;
    var n := BlankLength(s);
    assert forall k | 0 <= k < |blank| :: s[k] == blank[k];
    assert rest != "" ==> s[|blank|] == rest[0];
    assert forall k | 0 <= k < n :: s[k] == s[..n][k];
  }

  /** Reading `n` characters of the text off what was expected. */
  lemma Advance(text: string, i: nat, n: nat, want: string)
    requires i + n <= |text| && text[i..] <= want
    ensures n <= |want| && text[i + n..] <= want[n..]
    ensures i + n < |text| ==> n < |want| && text[i + n] == want[n]
  {
    assert text[i + n..] == text[i..][n..];
    if i + n < |text| {
      assert text[i + n] == text[i..][n];
    }
  }

  /** Skipping from within the blanks after a value goes to their end. */
  lemma SkipToToken(text: string, i: nat, k: nat, rest: string)
    requires i + k <= |text| && text[i..] <= rest && k <= BlankLength(rest)
    requires BlankLength(rest) < |rest| ==> !IsSpace(rest[BlankLength(rest)]) && rest[BlankLength(rest)] != '/'
    ensures Skip(text, i + k) == Min(i + BlankLength(rest), |text|)
  {
    var n := BlankLength(rest);
    Advance(text, i, k, rest);
    assert rest[k..] == rest[k..n] + rest[n..];
    assert forall j | k <= j < n :: rest[j] == rest[..n][j];
    SkipBlank(text, i + k, rest[k..n], rest[n..]);
  }

  /** How values start. */
  lemma {:induction false} TextStarts(s: Syntax)
    requires Formed(s)
    ensures Text(s) != ""
    ensures match s
      case Word(l) => Text(s)[0] in "tfn"
      case Figure(_) => IsDigit(Text(s)[0]) || Text(s)[0] == '-'
      case Quoted(_) => Text(s)[0] == '"'
      case Brackets(_) => Text(s)[0] == '['
      case Braces(_) => Text(s)[0] == '{'
  {
    if s.Figure? {
      var u := Unicode({}, map[], {});
      ScalarOfNumeral(u, 0, s.numeral);
    }
  }

  /******* Keys *******/

  /** A quoted or bare key with a colon after it, at `i`. */
  predicate KeyColon(text: string, i: nat) {
    && i < |text|
    && (if text[i] == '"' || text[i] == '\'' then
          var close := NextUnescaped(text, text[i], i + 1);
          close.Some? && ColonAfter(text, close.value + 1)
        else
          IdentifierEnd(text, i).Some? && ColonAfter(text, IdentifierEnd(text, i).value))
  }

  /** That key. */
  function KeyAt(text: string, i: nat): string
    requires KeyColon(text, i)
  {
    if text[i] == '"' || text[i] == '\'' then text[i + 1..NextUnescaped(text, text[i], i + 1).value]
    else text[i..IdentifierEnd(text, i).value]
  }

  predicate ColonAfter(text: string, i: nat)
    requires i <= |text|
  {
    Skip(text, i) < |text| && text[Skip(text, i)] == ':'
  }

  lemma NoColonAfter(text: string, i: nat, k: nat, rest: string)
    requires i + k <= |text| && text[i..] <= rest && Delimited(rest) && k <= BlankLength(rest)
    ensures var next := Skip(text, i + k);
      next == Min(i + BlankLength(rest), |text|) && (next < |text| ==> text[next] in ",}]")
    ensures !ColonAfter(text, i + k)
  {
    SkipToToken(text, i, k, rest);
    var next := Skip(text, i + k);
    if next < |text| {
      Advance(text, i, next - i, rest);
    }
  }

  lemma WordIsLetters(l: Literal)
    ensures |LiteralText(l)| > 0 && forall k | 0 <= k < |LiteralText(l)| :: 'a' <= LiteralText(l)[k] <= 'u'
  {
  }

  lemma DelimitedStart(rest: string)
    requires Delimited(rest) && rest != ""
    ensures !InIdentifier(rest[0])
  {
    assert IsBlank(rest[0]) || BlankLength(rest) == 0;
  }

  /** The letters of a word, and what follows it, as the text shows them. */
  lemma WordLetters(text: string, start: nat, w: string, rest: string)
    requires start <= |text| && text[start..] <= w + rest && Delimited(rest)
    ensures var end := start + |w|;
      && (forall k | start <= k < Min(end, |text|) :: text[k] == w[k - start])
      && (end < |text| ==> !InIdentifier(text[end]))
      && (end <= |text| ==> !ColonAfter(text, end))
  {
    hide Delimited, InIdentifier, ColonAfter;
    var end := start + |w|;
    forall k | start <= k < Min(end, |text|) ensures text[k] == w[k - start] {
      assert text[k] == text[start..][k - start];
    }
    if end <= |text| {
      Advance(text, start, |w|, w + rest);
      assert (w + rest)[|w|..] == rest;
      NoColonAfter(text, end, 0, rest);
      if end < |text| {
        assert text[end] == rest[0];
        DelimitedStart(rest);
      }
    }
  }

  lemma NoColonAtEnd(text: string)
    ensures !ColonAfter(text, |text|)
  {
  }

  lemma BareNoKey(text: string, i: nat, stop: nat)
    requires i < stop <= |text| && StartsIdentifier(text[i]) && (forall k | i <= k < stop :: InIdentifier(text[k]))
    requires stop < |text| ==> !InIdentifier(text[stop])
    requires !ColonAfter(text, stop)
    ensures !KeyColon(text, i)
  {
    IdentifierStops(text, i + 1, stop);
  }

  lemma QuoteNoKey(text: string, i: nat)
    requires i < |text| && text[i] == '"'
    requires var close := NextUnescaped(text, '"', i + 1); close.Some? ==> !ColonAfter(text, close.value + 1)
    ensures !KeyColon(text, i)
  {
  }

  /** Inside a word nothing looks like a key. */
  lemma WordInside(text: string, start: nat, l: Literal, rest: string, i: nat)
    requires start <= i < |text| && text[start..] <= LiteralText(l) + rest && Delimited(rest)
    requires i < start + |LiteralText(l)|
    ensures text[i] == LiteralText(l)[i - start] && 'a' <= text[i] <= 'u'
    ensures Skip(text, i) == i && !KeyColon(text, i)
  {
    hide LiteralText, Delimited, BlankLength, ColonAfter, KeyColon;
    WordIsLetters(l);
    WordLetters(text, start, LiteralText(l), rest);
    var stop := Min(start + |LiteralText(l)|, |text|);
    assert forall k | start <= k < stop :: 'a' <= text[k] <= 'u' && InIdentifier(text[k]);
    if stop == |text| {
      NoColonAtEnd(text);
    }
    BareNoKey(text, i, stop);
  }

  /** In the blanks after a value nothing looks like a key either. */
  lemma BlankNoKey(text: string, i: nat, k: nat, rest: string)
    requires i + k <= |text| && text[i..] <= rest && Delimited(rest) && k <= BlankLength(rest)
    ensures !KeyColon(text, Skip(text, i + k))
    ensures k < BlankLength(rest) && i + k < |text| ==> IsBlank(text[i + k])
  {
    NoColonAfter(text, i, k, rest);
    if k < BlankLength(rest) && i + k < |text| {
      assert text[i + k] == text[i..][k] == rest[..BlankLength(rest)][k];
    }
  }

  /** What a quoted text looks like from its opening quote on. */
  lemma QuoteOpens(text: string, i: nat, body: string, rest: string)
    requires i < |text| && text[i..] <= "\"" + body + "\"" + rest
    ensures text[i] == '"' && text[i + 1..] <= body + "\"" + rest
    ensures i + 1 + |body| < |text| ==> text[i + 1 + |body|] == '"' && text[i + |body| + 2..] <= rest
  {
    var want := "\"" + body + "\"" + rest;
    Advance(text, i, 0, want);
    Advance(text, i, 1, want);
    assert want[1..] == body + "\"" + rest;
    if i + 1 + |body| < |text| {
      Advance(text, i, |body| + 1, want);
      Advance(text, i, |body| + 2, want);
      assert want[|body| + 2..] == rest;
    }
  }

  lemma QuotedNoKey(text: string, i: nat, body: string, rest: string)
    requires i < |text| && text[i..] <= "\"" + body + "\"" + rest && Paired(body) && Delimited(rest)
    ensures !KeyColon(text, i)
  {
    hide ColonAfter, KeyColon, Delimited, Paired;
    QuoteOpens(text, i, body, rest);
    PairedCloses(text, i + 1, body, rest);
    if i + 1 + |body| < |text| {
      NoColonAfter(text, i + |body| + 2, 0, rest);
    }
    QuoteNoKey(text, i);
  }

  /** At the start of a strict value, nothing looks like a key. */
  lemma ValueNoKey(text: string, i: nat, s: Syntax, rest: string)
    requires i < |text| && text[i..] <= Text(s) + rest && Formed(s) && Delimited(rest)
    ensures text[i] == Text(s)[0] && Skip(text, i) == i && !KeyColon(text, i)
  {
    TextStarts(s);
    Advance(text, i, 0, Text(s) + rest);
    if s.Word? {
      WordInside(text, i, s.literal, rest, i);
    } else if s.Quoted? {
      CharsPaired(s.chars);
      QuotedNoKey(text, i, CharsText(s.chars), rest);
    }
  }

  /** Standing before blanks and a token. */
  lemma BlanksThen(text: string, i: nat, blank: string, rest: string)
    requires i <= |text| && text[i..] <= blank + rest && Blank(blank)
    requires rest != "" && !IsSpace(rest[0]) && rest[0] != '/'
    ensures Skip(text, i) == Min(i + |blank|, |text|)
    ensures i + |blank| <= |text| ==> text[i + |blank|..] <= rest
    ensures i + |blank| < |text| ==> text[i + |blank|] == rest[0]
  {
    SkipBlank(text, i, blank, rest);
    if i + |blank| <= |text| {
      Advance(text, i, |blank|, blank + rest);
      assert (blank + rest)[|blank|..] == rest;
    }
  }

  function StripLeft(s: string): string {
    if s != "" && IsSpace(s[0]) then StripLeft(s[1..]) else s
  }

  function StripRight(s: string): string {
    if s != "" && IsSpace(s[|s| - 1]) then StripRight(s[..|s| - 1]) else s
  }

  /** str.strip */
  function Strip(s: string): string {
    StripRight(StripLeft(s))
  }

  lemma {:induction false} StripBlanks(w: string, blank: string)
    requires w != "" && !IsSpace(w[0]) && !IsSpace(w[|w| - 1]) && Blank(blank)
    ensures Strip(w + blank) == w
    decreases |blank|
  {
    var s := w + blank;
    assert StripLeft(s) == s;
    if blank == "" {
      assert s == w;
    } else {
      assert s[|s| - 1] == blank[|blank| - 1];
      assert s[..|s| - 1] == w + blank[..|blank| - 1];
      StripBlanks(w, blank[..|blank| - 1]);
    }
  }

  lemma ScalarOfWord(u: Unicode, limit: nat, l: Literal)
    ensures Scalar(u, limit, LiteralText(l), false) == LiteralMeaning(l)
  {
    var t := LiteralText(l);
    assert Lower(t) == t;
  }
}
