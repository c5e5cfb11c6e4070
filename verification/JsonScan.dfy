/** The scanners below the tolerant JSON parser, and what they make of strict text. */
module JsonScan {
  import opened Wrappers
  import opened JsonSyntax

  /**
   The Unicode character classes beyond ASCII, left open: letters, decimal
   digits with their values, and whatever else str.isdigit accepts.
   */
  datatype Unicode = Unicode(letters: set<char>, decimals: map<char, nat>, digits: set<char>)

  predicate IsAlpha(u: Unicode, c: char) {
    'a' <= c <= 'z' || 'A' <= c <= 'Z' || (c >= '\U{0080}' && c in u.letters)
  }

  predicate IsDecimal(u: Unicode, c: char) {
    IsDigit(c) || (c >= '\U{0080}' && c in u.decimals)
  }

  predicate IsDigitLike(u: Unicode, c: char) {
    IsDecimal(u, c) || (c >= '\U{0080}' && c in u.digits)
  }

  /** str.isspace */
  predicate IsSpace(c: char) {
    || '\t' <= c <= '\r' || '\U{001C}' <= c <= ' ' || c == '\U{0085}' || c == '\U{00A0}' || c == '\U{1680}'
    || '\U{2000}' <= c <= '\U{200A}' || c == '\U{2028}' || c == '\U{2029}' || c == '\U{202F}' || c == '\U{205F}'
      || c == '\U{3000}'
  }

  /******* White space and comments *******/

  function LineEnd(text: string, i: nat): (end: nat)
    requires i <= |text|
    ensures i <= end <= |text|
    decreases |text| - i
  {
    if i == |text| || text[i] == '\n' then i else LineEnd(text, i + 1)
  }

  /** Where the comment inside before `i` ends. */
  function CommentEnd(text: string, i: nat): (end: nat)
    requires i <= |text|
    ensures i <= end <= |text|
    decreases |text| - i
  {
    if i + 2 > |text| then |text| else if text[i] == '*' && text[i + 1] == '/' then i + 2 else CommentEnd(text, i + 1)
  }

  predicate Opens(text: string, i: nat, second: char) {
    i + 2 <= |text| && text[i] == '/' && text[i + 1] == second
  }

  /** Past white space and comments. */
  function Skip(text: string, i: nat): (end: nat)
    requires i <= |text|
    ensures i <= end <= |text|
    decreases |text| - i
  {
    if i == |text| then i
    else if IsSpace(text[i]) then Skip(text, i + 1)
    else if Opens(text, i, '/') then Skip(text, LineEnd(text, i + 2))
    else if Opens(text, i, '*') then Skip(text, CommentEnd(text, i + 2))
    else i
  }

  /** _skip_ignorable */
  method SkipIgnorable(text: string, start: nat) returns (index: nat)
    requires start <= |text|
    ensures index == Skip(text, start)
  {
    index := start;
    while true
      invariant index <= |text| && Skip(text, index) == Skip(text, start)
      decreases |text| - index
    {
      var before := index;
      while index < |text| && IsSpace(text[index])
        invariant before <= index <= |text| && Skip(text, index) == Skip(text, start)
      {
        index := index + 1;
      }
      if Opens(text, index, '/') {
        var inside := index + 2;
        index := inside;
        while index < |text| && text[index] != '\n'
          invariant inside <= index <= |text| && LineEnd(text, index) == LineEnd(text, inside)
        {
          index := index + 1;
        }
      } else if Opens(text, index, '*') {
        var inside := index + 2;
        index := inside;
        while index + 2 <= |text| && !(text[index] == '*' && text[index + 1] == '/')
          invariant inside <= index <= |text| && CommentEnd(text, index) == CommentEnd(text, inside)
        {
          index := index + 1;
        }
        if index + 2 > |text| {
          return |text|;
        }
        index := index + 2;
      } else {
        return;
      }
    }
  }

  /** Skipping stops at the end or at a character that is neither white space nor the start of a comment. */
  lemma {:induction false} SkipStops(text: string, i: nat)
    requires i <= |text|
    ensures var end := Skip(text, i);
      end < |text| ==> !IsSpace(text[end]) && !Opens(text, end, '/') && !Opens(text, end, '*')
    ensures Skip(text, Skip(text, i)) == Skip(text, i)
    decreases |text| - i
  {
    if i < |text| {
      if IsSpace(text[i]) {
        SkipStops(text, i + 1);
      } else if Opens(text, i, '/') {
        SkipStops(text, LineEnd(text, i + 2));
      } else if Opens(text, i, '*') {
        SkipStops(text, CommentEnd(text, i + 2));
      }
    }
  }

  /** Blanks are skipped exactly, up to whatever token follows or the end of the input. */
  lemma {:induction false} SkipBlank(text: string, i: nat, blank: string, rest: string)
    requires i <= |text| && text[i..] <= blank + rest && Blank(blank)
    requires rest != "" ==> !IsSpace(rest[0]) && rest[0] != '/'
    ensures Skip(text, i) == if i + |blank| <= |text| then i + |blank| else |text|
    decreases |blank|
  {
    var want := blank + rest;
    assert forall k | 0 <= k < |text| - i :: text[i + k] == text[i..][k] == want[k];
    if i < |text| {
      if blank != "" {
        assert text[i] == blank[0] && IsBlank(blank[0]);
        assert text[i + 1..] == text[i..][1..];
        assert want[1..] == blank[1..] + rest;
        SkipBlank(text, i + 1, blank[1..], rest);
      } else {
        assert text[i] == rest[0];
      }
    }
  }

  /******* Quoted text *******/

  /** The next quote that no backslash escapes. */
  function NextUnescaped(text: string, quote: char, i: nat): (at: Option<nat>)
    ensures at.Some? ==> i <= at.value < |text| && text[at.value] == quote
    decreases |text| - i
  {
    if i >= |text| then None
    else if text[i] == '\\' then NextUnescaped(text, quote, i + 2)
    else if text[i] == quote then Some(i)
    else NextUnescaped(text, quote, i + 1)
  }

  /** _find_next_unescaped_quote */
  method FindNextUnescapedQuote(text: string, quote: char, start: nat) returns (at: Option<nat>)
    ensures at == NextUnescaped(text, quote, start)
  {
    var index := start;
    while index < |text|
      invariant NextUnescaped(text, quote, index) == NextUnescaped(text, quote, start)
      decreases |text| - index
    {
      if text[index] == '\\' {
        index := index + 2;
      } else if text[index] == quote {
        return Some(index);
      } else {
        index := index + 1;
      }
    }
    at := None;
  }

  /** The body of a strict string: backslashes come with what they escape, and no bare double quote. */
  predicate Paired(body: string)
    decreases |body|
  {
    || body == ""
    || (body[0] == '\\' && |body| >= 2 && Paired(body[2..]))
    || (body[0] != '\\' && body[0] != '"' && Paired(body[1..]))
  }

  lemma {:induction false} CharsPaired(cs: seq<CharSyntax>)
    requires CharsFormed(cs)
    ensures Paired(CharsText(cs))
    decreases |cs|
  {
    if cs != [] {
      CharsPaired(cs[1..]);
      var rest := CharsText(cs[1..]);
      match cs[0]
      case Raw(c) => assert CharsText(cs)[1..] == rest;
      case Short(letter) => assert CharsText(cs)[2..] == rest;
      case Unit(hex) =>
        assert CharFormed(cs[0]);
        assert CharsText(cs)[2..] == hex + rest;
        RawsPaired(hex, rest);
    }
  }

  lemma {:induction false} RawsPaired(raws: string, rest: string)
    requires Paired(rest) && forall i | 0 <= i < |raws| :: raws[i] != '\\' && raws[i] != '"'
    ensures Paired(raws + rest)
    decreases |raws|
  {
    if raws == "" {
      assert raws + rest == rest;
    } else {
      RawsPaired(raws[1..], rest);
      assert (raws + rest)[1..] == raws[1..] + rest;
    }
  }

  /** Scanning a strict string body finds its closing quote, or nothing when the input ends before it. */
  lemma {:induction false} PairedCloses(text: string, i: nat, body: string, rest: string)
    requires i <= |text| && text[i..] <= body + "\"" + rest && Paired(body)
    ensures NextUnescaped(text, '"', i) == if i + |body| < |text| then Some(i + |body|) else None
    decreases |body|
  {
    var want := body + "\"" + rest;
    assert forall k | 0 <= k < |text| - i :: text[i + k] == text[i..][k] == want[k];
    if i < |text| && body != "" {
      var n := if body[0] == '\\' then 2 else 1;
      if i + n <= |text| {
        assert text[i + n..] == text[i..][n..];
        assert want[n..] == body[n..] + "\"" + rest;
        PairedCloses(text, i + n, body[n..], rest);
      }
    }
  }

  /******* Escapes *******/

  predicate HexAt(s: string, i: nat, n: nat) {
    i + n <= |s| && forall k | i <= k < i + n :: IsHex(s[k])
  }

  /** What a backslash and what follows it become, and how much of the text that takes. */
  function Unescape(s: string): (string, nat)
    requires s != "" && s[0] == '\\'
    ensures 1 <= Unescape(s).1 <= |s|
  {
    if |s| == 1 then ("\\", 1)
    else if s[1] == '\n' then ("", 2)
    else if s[1] == '\r' then ("", if |s| > 2 && s[2] == '\n' then 3 else 2)
    else if s[1] == 'u' then
      if HexAt(s, 2, 4) then ([Chr(HexValue(s[2..6]))], 6) else ("\\u", 2)
    else if s[1] == 'x' then
      if HexAt(s, 2, 2) then ([Chr(HexValue(s[2..4]))], 4) else ("\\x", 2)
    else match Escaped(s[1])
      case Some(c) => ([c], 2)
      case None => (['\\', s[1]], 2)
  }

  function Decode(s: string): string
    decreases |s|
  {
    if s == "" then ""
    else if s[0] != '\\' then [s[0]] + Decode(s[1..])
    else Unescape(s).0 + Decode(s[Unescape(s).1..])
  }

  /** _decode_relaxed_string */
  method DecodeRelaxedString(content: string) returns (result: string)
    ensures result == Decode(content)
  {
    result := "";
    var index := 0;
    while index < |content|
      invariant 0 <= index <= |content| && result + Decode(content[index..]) == Decode(content)
      decreases |content| - index
    {
      var rest := content[index..];
      var (decoded, n) := if content[index] != '\\' then ([content[index]], 1) else Unescape(rest);
      DecodeStep(result, rest, decoded, n);
      assert content[index + n..] == rest[n..];
      result, index := result + decoded, index + n;
    }
  }

  lemma DecodeStep(done: string, s: string, decoded: string, n: nat)
    requires s != "" && (decoded, n) == if s[0] != '\\' then ([s[0]], 1) else Unescape(s)
    ensures done + Decode(s) == done + decoded + Decode(s[n..])
  {
    hide Unescape;
    assert done + (decoded + Decode(s[n..])) == done + decoded + Decode(s[n..]);
  }

  /** On a strict string body the tolerant decoder gives the strict meaning. */
  lemma {:induction false} DecodeStrict(cs: seq<CharSyntax>)
    requires CharsFormed(cs)
    ensures Decode(CharsText(cs)) == CharsMeaning(cs)
    decreases |cs|
  {
    hide CharFormed, CharText, CharMeaning, Unescape, Decode;
    if cs != [] {
      DecodeStrict(cs[1..]);
      DecodeChar(cs[0], CharsText(cs[1..]));
    } else {
      DecodeNothing();
    }
  }

  lemma DecodeNothing()
    ensures Decode("") == ""
  {
  }

  lemma DecodeChar(c: CharSyntax, rest: string)
    requires CharFormed(c)
    ensures Decode(CharText(c) + rest) == [CharMeaning(c)] + Decode(rest)
  {
    var s := CharText(c) + rest;
    match c
    case Raw(c) => assert s[1..] == rest;
    case Short(letter) => assert s[2..] == rest;
    case Unit(hex) => DecodeUnit(hex, rest);
  }

  lemma DecodeUnit(hex: string, rest: string)
    requires |hex| == 4 && forall i | 0 <= i < 4 :: IsHex(hex[i])
    ensures Decode("\\u" + hex + rest) == [Chr(HexValue(hex))] + Decode(rest)
  {
    var s := "\\u" + hex + rest;
    assert s[0] == '\\' && s[1] == 'u' && s[2..6] == hex && s[6..] == rest;
    assert forall k | 2 <= k < 6 :: s[k] == hex[k - 2];
    assert Unescape(s) == ([Chr(HexValue(hex))], 6);
  }

  /******* Identifiers *******/

  predicate StartsIdentifier(c: char) {
    'a' <= c <= 'z' || 'A' <= c <= 'Z' || c == '_' || c == '$'
  }

  predicate InIdentifier(c: char) {
    StartsIdentifier(c) || IsDigit(c) || c == '.' || c == '-'
  }

  function IdentifierRest(text: string, i: nat): (end: nat)
    requires i <= |text|
    ensures i <= end <= |text|
    decreases |text| - i
  {
    if i < |text| && InIdentifier(text[i]) then IdentifierRest(text, i + 1) else i
  }

  /** _IDENTIFIER_RE.match */
  function IdentifierEnd(text: string, i: nat): (end: Option<nat>)
    requires i <= |text|
    ensures end.Some? ==> i < end.value <= |text|
  {
    if i < |text| && StartsIdentifier(text[i]) then Some(IdentifierRest(text, i + 1)) else None
  }

  lemma {:induction false} IdentifierStops(text: string, i: nat, end: nat)
    requires i <= end <= |text| && (forall k | i <= k < end :: InIdentifier(text[k]))
      && (end < |text| ==> !InIdentifier(text[end]))
    ensures IdentifierRest(text, i) == end
    decreases end - i
  {
    if i < end {
      IdentifierStops(text, i + 1, end);
    }
  }

  /******* Numbers and bare tokens *******/

  function DecimalsEnd(u: Unicode, t: string, i: nat): (end: nat)
    requires i <= |t|
    ensures i <= end <= |t|
    decreases |t| - i
  {
    if i < |t| && IsDecimal(u, t[i]) then DecimalsEnd(u, t, i + 1) else i
  }

  predicate CharAt(t: string, i: nat, cs: string) {
    i < |t| && t[i] in cs
  }

  /** The end of the mantissa of _NUMBER_RE, when there is one. */
  function MantissaEnd(u: Unicode, t: string): (end: Option<nat>)
    ensures end.Some? ==> 0 < end.value <= |t|
  {
    var sign := if CharAt(t, 0, "+-") then 1 else 0;
    var whole := DecimalsEnd(u, t, sign);
    if whole > sign then
      if CharAt(t, whole, ".") then Some(DecimalsEnd(u, t, whole + 1)) else Some(whole)
    else if CharAt(t, whole, ".") && DecimalsEnd(u, t, whole + 1) > whole + 1 then Some(DecimalsEnd(u, t, whole + 1))
    else None
  }

  function ExponentEnd(u: Unicode, t: string, i: nat): nat
    requires i <= |t|
  {
    if !CharAt(t, i, "eE") then i
    else if CharAt(t, i + 1, "+-") then DecimalsEnd(u, t, i + 2)
    else DecimalsEnd(u, t, i + 1)
  }

  /** _NUMBER_RE.fullmatch */
  predicate IsNumber(u: Unicode, t: string) {
    MantissaEnd(u, t).Some? && ExponentEnd(u, t, MantissaEnd(u, t).value) == |t|
  }

  predicate EndsExponent(t: string) {
    || (|t| >= 1 && t[|t| - 1] in "eE")
    || (|t| >= 2 && t[|t| - 2] in "eE" && t[|t| - 1] in "+-")
  }

  /** The rewriting of loose forms before int() or float(). */
  function Tidied(t: string): string {
    var led :=
      if |t| >= 2 && t[0] == '+' && t[1] == '.' then "0" + t[1..]
      else if |t| >= 2 && t[0] == '-' && t[1] == '.' then "-0" + t[1..]
      else if |t| >= 1 && t[0] == '.' then "0" + t
      else t;
    var pointed := if led != "" && led[|led| - 1] == '.' then led + "0" else led;
    if EndsExponent(pointed) then pointed + "0" else pointed
  }

  predicate HasFloatMark(t: string) {
    exists i :: 0 <= i < |t| && t[i] in ".eE"
  }

  function DecimalValue(u: Unicode, c: char): nat {
    if IsDigit(c) then (c - '0') as nat else if c in u.decimals then u.decimals[c] else 0
  }

  function DecimalsValue(u: Unicode, t: string): nat {
    if t == "" then 0 else 10 * DecimalsValue(u, t[..|t| - 1]) + DecimalValue(u, t[|t| - 1])
  }

  /** _normalize_number: int() above the digit limit fails, and the token stays a token. */
  function NormalizeNumber(u: Unicode, limit: nat, token: string): Option<Number> {
    if !IsNumber(u, token) then None
    else
      var t := Tidied(token);
      if HasFloatMark(t) then Some(Float(t))
      else
        var digits := if t != "" && t[0] in "+-" then t[1..] else t;
        if !Fits(|digits|, limit) then None
        else Some(Int(if t != "" && t[0] == '-' then -(DecimalsValue(u, digits) as int) else DecimalsValue(u, digits)))
  }

  function LowerChar(c: char): char {
    if 'A' <= c <= 'Z' then c - 'A' + 'a' else c
  }

  function Lower(t: string): (lowered: string)
    ensures |lowered| == |t| && forall i | 0 <= i < |t| :: lowered[i] == LowerChar(t[i])
  {
    if t == "" then "" else [LowerChar(t[0])] + Lower(t[1..])
  }

  /** _normalize_hex_number */
  function NormalizeHexNumber(token: string): Option<int> {
    var digits := if token != "" && token[0] in "+-" then token[1..] else token;
    if |digits| < 3 || Lower(digits[..2]) != "0x" || exists i :: 2 <= i < |digits| && !IsHex(digits[i]) then None
    else Some(if token[0] == '-' then -(HexValue(digits[2..]) as int) else HexValue(digits[2..]))
  }

  /** What a bare token means; only tokens that start like numbers may be hexadecimal. */
  function Scalar(u: Unicode, limit: nat, token: string, hex: bool): Json {
    if Lower(token) == "true" then Bool(true)
    else if Lower(token) == "false" then Bool(false)
    else if Lower(token) == "null" || Lower(token) == "none" then Null
    else if hex && NormalizeHexNumber(token).Some? then Num(Int(NormalizeHexNumber(token).value))
    else match NormalizeNumber(u, limit, token)
      case Some(n) => Num(n)
      case None => Str(token)
  }

  predicate EndsToken(c: char) {
    IsSpace(c) || c in ",]}\"'[{()"
  }

  function TokenEnd(text: string, i: nat): (end: nat)
    requires i <= |text|
    ensures i <= end <= |text|
    decreases |text| - i
  {
    if i < |text| && !EndsToken(text[i]) then TokenEnd(text, i + 1) else i
  }

  lemma {:induction false} TokenStops(text: string, i: nat, end: nat)
    requires i <= end <= |text| && (forall k | i <= k < end :: !EndsToken(text[k]))
      && (end < |text| ==> EndsToken(text[end]))
    ensures TokenEnd(text, i) == end
    decreases end - i
  {
    if i < end {
      TokenStops(text, i + 1, end);
    }
  }

  lemma {:induction false} DecimalsStop(u: Unicode, t: string, i: nat, end: nat)
    requires i <= end <= |t| && (forall k | i <= k < end :: IsDigit(t[k])) && (end < |t| ==> !IsDecimal(u, t[end]))
    ensures DecimalsEnd(u, t, i) == end
    decreases end - i
  {
    if i < end {
      DecimalsStop(u, t, i + 1, end);
    }
  }

  lemma {:induction false} DecimalsAreDigits(u: Unicode, t: string)
    requires Digits(t)
    ensures DecimalsValue(u, t) == DigitsValue(t)
    decreases |t|
  {
    if t != "" {
      DecimalsAreDigits(u, t[..|t| - 1]);
    }
  }

  /******* Strict numerals *******/

  ghost predicate FractionShaped(f: string) {
    f == "" || (|f| > 1 && f[0] == '.' && forall k | 0 < k < |f| :: IsDigit(f[k]))
  }

  /** An exponent whose digits start at `digits`, or nothing. */
  ghost predicate ExponentShaped(e: string, digits: nat) {
    if e == "" then digits == 0 else
      && digits < |e| && e[0] in "eE"
      && (digits == 1 || (digits == 2 && e[1] in "+-"))
      && forall k | digits <= k < |e| :: IsDigit(e[k])
  }

  /**
   Where the parts of a numeral lie in a text: digits in [sign, whole), a fraction up to `fraction`, then an exponent.
   */
  ghost predicate Laid(t: string, sign: nat, whole: nat, fraction: nat, digits: nat) {
    && sign < whole <= fraction <= digits <= |t|
    && (if sign == 0 then true else sign == 1 && t[0] == '-')
    && (forall k | sign <= k < whole :: IsDigit(t[k]))
    && (t[sign] == '0' ==> whole == sign + 1)
    && FractionShaped(t[whole..fraction])
    && ExponentShaped(t[fraction..], digits - fraction)
  }

  lemma PiecesLaid(m: string, w: string, f: string, e: string, digits: nat)
    requires m == "" || m == "-"
    requires Digits(w) && |w| > 0 && (w[0] == '0' ==> |w| == 1) && FractionShaped(f) && ExponentShaped(e, digits)
    ensures Laid(m + w + f + e, |m|, |m| + |w|, |m| + |w| + |f|, |m| + |w| + |f| + digits)
    ensures (m + w + f + e)[|m|..|m| + |w|] == w
  {
    var t := m + w + f + e;
    assert t[|m|..|m| + |w|] == w && t[|m| + |w|..|m| + |w| + |f|] == f && t[|m| + |w| + |f|..] == e;
    assert forall k | |m| <= k < |m| + |w| :: t[k] == w[k - |m|];
  }

  lemma NumeralLaid(n: Numeral) returns (sign: nat, whole: nat, fraction: nat, digits: nat)
    requires NumeralFormed(n)
    ensures Laid(NumeralText(n), sign, whole, fraction, digits)
    ensures (n.minus <==> sign == 1) && (n.fraction.Some? <==> whole < fraction)
      && (n.exponent.Some? <==> fraction < digits)
    ensures NumeralText(n)[sign..whole] == n.whole
  {
    hide Laid, FractionShaped, ExponentShaped;
    var m, f, e := if n.minus then "-" else "", FractionText(n.fraction), ExponentText(n.exponent);
    var within := PartsShaped(n);
    PiecesLaid(m, n.whole, f, e, within);
    sign, whole, fraction, digits := |m|, |m| + |n.whole|, |m| + |n.whole| + |f|, |m| + |n.whole| + |f| + within;
  }

  lemma PartsShaped(n: Numeral) returns (within: nat)
    requires NumeralFormed(n)
    ensures FractionShaped(FractionText(n.fraction)) && ExponentShaped(ExponentText(n.exponent), within)
    ensures (n.fraction.Some? <==> FractionText(n.fraction) != "") && (n.exponent.Some? <==> within > 0)
  {
    within := if n.exponent.None? then 0 else 1 + |n.exponent.value.sign|;
    if n.exponent.Some? {
      var e := ExponentText(n.exponent);
      assert forall k | within <= k < |e| :: e[k] == n.exponent.value.digits[k - within];
    }
  }

  lemma LaidMantissa(u: Unicode, t: string, sign: nat, whole: nat, fraction: nat, digits: nat)
    requires Laid(t, sign, whole, fraction, digits)
    ensures MantissaEnd(u, t) == Some(fraction)
  {
    var f, e := t[whole..fraction], t[fraction..];
    assert forall k | whole <= k < fraction :: t[k] == f[k - whole];
    assert fraction < |t| ==> t[fraction] == e[0];
    DecimalsStop(u, t, sign, whole);
    if whole < fraction {
      DecimalsStop(u, t, whole + 1, fraction);
    }
  }

  lemma LaidExponent(u: Unicode, t: string, sign: nat, whole: nat, fraction: nat, digits: nat)
    requires Laid(t, sign, whole, fraction, digits)
    ensures ExponentEnd(u, t, fraction) == |t|
  {
    var e := t[fraction..];
    assert forall k | fraction <= k < |t| :: t[k] == e[k - fraction];
    if fraction < digits {
      DecimalsStop(u, t, digits, |t|);
    }
  }

  lemma LaidIsNumber(u: Unicode, t: string, sign: nat, whole: nat, fraction: nat, digits: nat)
    requires Laid(t, sign, whole, fraction, digits)
    ensures IsNumber(u, t)
  {
    hide Laid, MantissaEnd, ExponentEnd;
    LaidMantissa(u, t, sign, whole, fraction, digits);
    LaidExponent(u, t, sign, whole, fraction, digits);
  }

  lemma LaidIsTidy(t: string, sign: nat, whole: nat, fraction: nat, digits: nat)
    requires Laid(t, sign, whole, fraction, digits)
    ensures Tidied(t) == t
    ensures HasFloatMark(t) <==> whole < fraction || fraction < digits
  {
    var f, e := t[whole..fraction], t[fraction..];
    assert forall k | whole <= k < fraction :: t[k] == f[k - whole];
    assert forall k | fraction <= k < |t| :: t[k] == e[k - fraction];
    assert IsDigit(t[|t| - 1]) && IsDigit(t[sign]);
    if whole < fraction {
      assert t[whole] in ".eE";
    } else if fraction < digits {
      assert t[fraction] in ".eE";
    }
  }

  lemma LaidIsToken(t: string, sign: nat, whole: nat, fraction: nat, digits: nat)
    requires Laid(t, sign, whole, fraction, digits)
    ensures forall k | 0 <= k < |t| :: !EndsToken(t[k])
    ensures t != "" && (IsDigit(t[0]) || t[0] == '-')
  {
    var f, e := t[whole..fraction], t[fraction..];
    assert forall k | whole <= k < fraction :: t[k] == f[k - whole];
    assert forall k | fraction <= k < |t| :: t[k] == e[k - fraction];
    assert IsDigit(t[sign]);
    forall k | 0 <= k < |t| ensures IsDigit(t[k]) || t[k] in "+-.eE" {
    }
  }

  lemma LaidIsNoWord(t: string)
    requires t != "" && (IsDigit(t[0]) || t[0] == '-')
    ensures Lower(t) != "true" && Lower(t) != "false" && Lower(t) != "null" && Lower(t) != "none"
  {
    assert Lower(t)[0] == LowerChar(t[0]);
  }

  lemma LaidIsNotHex(t: string, sign: nat, whole: nat, fraction: nat, digits: nat)
    requires Laid(t, sign, whole, fraction, digits)
    ensures NormalizeHexNumber(t) == None
  {
    assert IsDigit(t[sign]);
    var rest := if t[0] in "+-" then t[1..] else t;
    assert rest == t[sign..];
    var f, e := t[whole..fraction], t[fraction..];
    assert forall k | whole <= k < fraction :: t[k] == f[k - whole];
    assert forall k | fraction <= k < |t| :: t[k] == e[k - fraction];
    if |rest| >= 3 {
      assert IsDigit(t[sign + 1]) || t[sign + 1] in ".eE";
      var two := rest[..2];
      assert two[1..] == [t[sign + 1]];
      assert Lower(two)[1] == Lower(two[1..])[0] == LowerChar(t[sign + 1]);
    }
  }

  lemma NormalizedNumeral(u: Unicode, limit: nat, n: Numeral)
    requires NumeralFormed(n)
    ensures NormalizeNumber(u, limit, NumeralText(n)) ==
      if NumeralMeaning(n).Int? && !Fits(|n.whole|, limit) then None else Some(NumeralMeaning(n))
  {
    hide IsNumber, Tidied, HasFloatMark, NumeralText;
    var t := NumeralText(n);
    var sign, whole, fraction, digits := NumeralLaid(n);
    LaidIsNumber(u, t, sign, whole, fraction, digits);
    LaidIsTidy(t, sign, whole, fraction, digits);
    assert IsDigit(t[sign]);
    if n.fraction.None? && n.exponent.None? {
      assert n.whole == if t[0] in "+-" then t[1..] else t;
      DecimalsAreDigits(u, n.whole);
    }
  }

  /** A strict numeral means what section 6 says, as long as int() takes it. */
  lemma ScalarOfNumeral(u: Unicode, limit: nat, n: Numeral)
    requires NumeralFormed(n)
    ensures Scalar(u, limit, NumeralText(n), true) == Meaning(Figure(n), limit)
    ensures NumeralText(n) != "" && forall k | 0 <= k < |NumeralText(n)| :: !EndsToken(NumeralText(n)[k])
    ensures IsDigit(NumeralText(n)[0]) || NumeralText(n)[0] == '-'
  {
    hide NormalizeNumber, NormalizeHexNumber, Lower, NumeralText, Laid, EndsToken;
    var t := NumeralText(n);
    var sign, whole, fraction, digits := NumeralLaid(n);
    LaidIsToken(t, sign, whole, fraction, digits);
    LaidIsNoWord(t);
    LaidIsNotHex(t, sign, whole, fraction, digits);
    NormalizedNumeral(u, limit, n);
  }
}
