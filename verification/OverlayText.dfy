/** The expression a request selects, as text, and that nothing of the selection is lost in it. */
module OverlayText {
  import opened Wrappers
  import opened JsonSyntax
  import opened JsonPrint
  import opened Overlays

  /******* Strings as json.dumps writes them *******/

  function Hex4(n: nat): (hex: string)
    requires n < 0x1_0000
    ensures |hex| == 4 && HexNumber(hex) == n
  {
    var a := n / 16;
    var b := a / 16;
    var c := b / 16;
    [NibbleDigit(c), NibbleDigit(b % 16), NibbleDigit(a % 16), NibbleDigit(n % 16)]
  }

  function HexNumber(hex: string): nat
    requires |hex| == 4
  {
    16 * (16 * (16 * Nibble(hex[0]) + Nibble(hex[1])) + Nibble(hex[2])) + Nibble(hex[3])
  }

  function Nibble(c: char): nat {
    if IsHex(c) then HexDigit(c) else 0
  }

  function ShortEscape(c: char): Option<char> {
    if c == '"' || c == '\\' then Some(c)
    else if c == '\n' then Some('n')
    else if c == '\r' then Some('r')
    else if c == '\t' then Some('t')
    else if c == '\U{000C}' then Some('f')
    else if c == '\U{0008}' then Some('b')
    else None
  }

  /** A character, which only in ASCII stands for itself; beyond the basic plane it is a pair of surrogates. */
  function CharCode(c: char): string {
    if ShortEscape(c).Some? then ['\\', ShortEscape(c).value]
    else if ' ' <= c <= '~' then [c]
    else if c < '\U{10000}' then "\\u" + Hex4(c as nat)
    else
      var n := c as nat - 0x1_0000;
      "\\u" + Hex4(0xD800 + n / 0x400) + "\\u" + Hex4(0xDC00 + n % 0x400)
  }

  function ShortMeaning(k: char): char {
    if k == 'n' then '\n'
    else if k == 'r' then '\r'
    else if k == 't' then '\t'
    else if k == 'f' then '\U{000C}'
    else if k == 'b' then '\U{0008}'
    else k
  }

  /** The first character that a text starts with the code of, and what is behind it. */
  function Decoded(t: string): (char, string) {
    if t == "" || t[0] != '\\' || |t| < 2 then (if t == "" then ' ' else t[0], if t == "" then "" else t[1..])
    else if t[1] != 'u' || |t| < 6 then (ShortMeaning(t[1]), t[2..])
    else
      var n := HexNumber(t[2..6]);
      if n < 0xD800 then (n as char, t[6..])
      else if 0xE000 <= n < 0x1_0000 then (n as char, t[6..])
      else if |t| < 12 || n >= 0xDC00 then (' ', t[6..])
      else
        var m := HexNumber(t[8..12]);
        (if 0xDC00 <= m < 0xE000 then (0x1_0000 + (n - 0xD800) * 0x400 + (m - 0xDC00)) as char else ' ', t[12..])
  }

  lemma CharDecoded(c: char, rest: string)
    ensures Decoded(CharCode(c) + rest) == (c, rest)
    ensures CharCode(c) != "" && CharCode(c)[0] != '"'
  {
    hide Hex4, HexNumber;
    var t := CharCode(c) + rest;
    if ShortEscape(c).None? && !(' ' <= c <= '~') {
      if c < '\U{10000}' {
        UnitAhead(c as nat, rest);
      } else {
        var n := c as nat - 0x1_0000;
        var high, low := 0xD800 + n / 0x400, 0xDC00 + n % 0x400;
        UnitAhead(low, rest);
        UnitAhead(high, "\\u" + Hex4(low) + rest);
        assert t == "\\u" + Hex4(high) + ("\\u" + Hex4(low) + rest);
        assert t[6..] == "\\u" + Hex4(low) + rest;
        assert t[8..12] == t[6..][2..6] && t[12..] == t[6..][6..];
      }
    } else if ShortEscape(c).Some? {
      assert t[2..] == rest;
    } else {
      assert t[1..] == rest;
    }
  }

  lemma UnitAhead(n: nat, rest: string)
    requires n < 0x1_0000
    ensures var t := "\\u" + Hex4(n) + rest;
      |t| >= 6 && t[0] == '\\' && t[1] == 'u' && t[2..6] == Hex4(n) && t[6..] == rest
  {
  }

  function BodyCode(s: string): string {
    if s == "" then "" else CharCode(s[0]) + BodyCode(s[1..])
  }

  /** json.dumps of a string */
  function Dumped(s: string): string {
    "\"" + BodyCode(s) + "\""
  }

  /** The quote that closes a string is the first that stands for itself. */
  lemma {:induction false} BodyCut(a: string, b: string, x: string, y: string)
    requires BodyCode(a) + "\"" + x == BodyCode(b) + "\"" + y
    ensures a == b && x == y
    decreases |a|
  {
    hide CharCode, Decoded;
    BodyAhead(a, x);
    BodyAhead(b, y);
    if a != "" && b != "" {
      BodyCut(a[1..], b[1..], x, y);
    }
  }

  /** What a body and the quote behind it start with. */
  lemma BodyAhead(a: string, x: string)
    ensures var t := BodyCode(a) + "\"" + x;
      && t != "" && (t[0] == '"' <==> a == "")
      && (if a == "" then t[1..] == x else Decoded(t) == (a[0], BodyCode(a[1..]) + "\"" + x))
  {
    hide CharCode, Decoded;
    if a != "" {
      var rest := BodyCode(a[1..]) + "\"" + x;
      CharDecoded(a[0], rest);
      assert BodyCode(a) + "\"" + x == CharCode(a[0]) + rest;
    }
  }

  lemma DumpedCut(a: string, b: string, x: string, y: string)
    requires Dumped(a) + x == Dumped(b) + y
    ensures a == b && x == y
  {
    hide BodyCode;
    var s, t := BodyCode(a) + "\"" + x, BodyCode(b) + "\"" + y;
    assert Dumped(a) + x == "\"" + s && Dumped(b) + y == "\"" + t;
    Strip("\"", s, t);
    BodyCut(a, b, x, y);
  }

  lemma Strip(head: string, x: string, y: string)
    requires head + x == head + y
    ensures x == y
  {
    assert (head + x)[|head|..] == x && (head + y)[|head|..] == y;
  }

  /******* The expression *******/

  /** What a binding adds to the path of a branch. */
  function StepText(b: Binding): string {
    ".overlays[" + Dumped(b.axis) + "][" + Dumped(b.value) + "]"
  }

  function StepsText(p: Path): string {
    if p == [] then "" else StepText(p[0]) + StepsText(p[1..])
  }

  function PathTexts(expr: string, paths: seq<Path>): (texts: seq<string>)
    ensures |texts| == |paths| && forall i | 0 <= i < |paths| :: texts[i] == expr + StepsText(paths[i])
  {
    seq(|paths|, i requires 0 <= i < |paths| => expr + StepsText(paths[i]))
  }

  /** str.join */
  function Joined(separator: string, texts: seq<string>): string {
    if texts == [] then ""
    else if |texts| == 1 then texts[0]
    else texts[0] + separator + Joined(separator, texts[1..])
  }

  /** _build_selections */
  function Selection(r: Request, o: Overlay, expr: string): string {
    Joined(" & ", PathTexts(expr, Collect(r, o, [])))
  }

  /** The text of a binding ends where it says. */
  lemma StepCut(b: Binding, c: Binding, x: string, y: string)
    requires StepText(b) + x == StepText(c) + y
    ensures b == c && x == y
  {
    hide Dumped;
    var s, t := Dumped(b.value) + ("]" + x), Dumped(c.value) + ("]" + y);
    StepGrouped(b, x);
    StepGrouped(c, y);
    Strip(".overlays[", Dumped(b.axis) + ("][" + s), Dumped(c.axis) + ("][" + t));
    DumpedCut(b.axis, c.axis, "][" + s, "][" + t);
    Strip("][", s, t);
    DumpedCut(b.value, c.value, "]" + x, "]" + y);
    Strip("]", x, y);
  }

  lemma StepGrouped(b: Binding, x: string)
    ensures StepText(b) + x == ".overlays[" + (Dumped(b.axis) + ("][" + (Dumped(b.value) + ("]" + x))))
  {
    hide Dumped;
  }

  /** Behind a path there is nothing, or the next one. */
  predicate Behind(x: string) {
    x == "" || x[0] == ' '
  }

  lemma {:induction false} StepsCut(p: Path, q: Path, x: string, y: string)
    requires StepsText(p) + x == StepsText(q) + y && Behind(x) && Behind(y)
    ensures p == q && x == y
    decreases |p|
  {
    hide StepText;
    StepsAhead(p, x);
    StepsAhead(q, y);
    if p != [] && q != [] {
      StepCut(p[0], q[0], StepsText(p[1..]) + x, StepsText(q[1..]) + y);
      StepsCut(p[1..], q[1..], x, y);
    }
  }

  lemma StepsAhead(p: Path, x: string)
    requires Behind(x)
    ensures var t := StepsText(p) + x;
      if p == [] then t == x else t != "" && t[0] == '.' && t == StepText(p[0]) + (StepsText(p[1..]) + x)
  {
    hide Dumped;
    if p != [] {
      assert StepText(p[0])[0] == '.';
    }
  }

  /** The texts of these paths, each but the first behind a separator, and nothing else, say which they are. */
  lemma {:induction false} JoinedCut(expr: string, ps: seq<Path>, qs: seq<Path>)
    requires ps != [] && qs != [] && Joined(" & ", PathTexts(expr, ps)) == Joined(" & ", PathTexts(expr, qs))
    ensures ps == qs
    decreases |ps|
  {
    hide StepsText, Joined, PathTexts;
    var x, y := TailText(expr, ps), TailText(expr, qs);
    JoinedAhead(expr, ps);
    JoinedAhead(expr, qs);
    Strip(expr, StepsText(ps[0]) + x, StepsText(qs[0]) + y);
    StepsCut(ps[0], qs[0], x, y);
    if |ps| > 1 && |qs| > 1 {
      Strip(" & ", Joined(" & ", PathTexts(expr, ps[1..])), Joined(" & ", PathTexts(expr, qs[1..])));
      JoinedCut(expr, ps[1..], qs[1..]);
    }
    assert ps == [ps[0]] + ps[1..] && qs == [qs[0]] + qs[1..];
  }

  /** What follows the first path. */
  function TailText(expr: string, ps: seq<Path>): string
    requires ps != []
  {
    if |ps| == 1 then "" else " & " + Joined(" & ", PathTexts(expr, ps[1..]))
  }

  lemma JoinedAhead(expr: string, ps: seq<Path>)
    requires ps != []
    ensures Joined(" & ", PathTexts(expr, ps)) == expr + (StepsText(ps[0]) + TailText(expr, ps))
    ensures Behind(TailText(expr, ps))
  {
    hide StepsText;
    assert PathTexts(expr, ps)[1..] == PathTexts(expr, ps[1..]);
  }

  /** No selected path is empty. */
  lemma {:induction false} PathsLonger(r: Request, o: Overlay, prefix: Path)
    ensures forall p | p in Collect(r, o, prefix) :: |p| > |prefix|
    decreases Depth(o), 1, 0
  {
    BelowLonger(r, o, Picked(r, o.axes), prefix);
  }

  lemma {:induction false} BelowLonger(r: Request, o: Overlay, cs: seq<Choice>, prefix: Path)
    requires forall c | c in cs :: Offered(c, o.axes)
    ensures forall p | p in CollectBelow(r, o, cs, prefix) :: |p| > |prefix|
    decreases Depth(o), 0, |cs|
  {
    if cs != [] {
      OfferedShallower(cs[0], o.axes);
      PathsLonger(r, cs[0].branch.nested, prefix + [Bound(cs[0])]);
      BelowLonger(r, o, cs[1..], prefix);
    }
  }

  /** Something is selected if and only if there is text. */
  lemma SelectsSome(r: Request, o: Overlay, expr: string)
    ensures Selection(r, o, expr) == "" <==> Collect(r, o, []) == []
  {
    hide Collect, StepsText;
    var ps := Collect(r, o, []);
    PathsLonger(r, o, []);
    if ps != [] {
      assert ps[0] in ps;
      JoinedAhead(expr, ps);
      StepsSome(ps[0]);
    }
  }

  lemma StepsSome(p: Path)
    requires p != []
    ensures StepsText(p) != ""
  {
  }

  /** The text of a selection determines the selected paths, in order. */
  lemma SelectionCut(r: Request, s: Request, o: Overlay, expr: string)
    ensures Selection(r, o, expr) == Selection(s, o, expr) <==> Collect(r, o, []) == Collect(s, o, [])
  {
    hide Collect, Joined, PathTexts;
    SelectsSome(r, o, expr);
    SelectsSome(s, o, expr);
    if Selection(r, o, expr) == Selection(s, o, expr) && Collect(r, o, []) != [] {
      JoinedCut(expr, Collect(r, o, []), Collect(s, o, []));
    }
  }

  /** Two enumerated requests whose selections are the same text are the same, so no two are evaluated alike. */
  lemma SelectionsDiffer(o: Overlay, r: Request, s: Request, expr: string)
    requires WellFormed(o) && r in Reachable(o) && s in Reachable(o)
    ensures Selection(r, o, expr) == Selection(s, o, expr) <==> r == s
  {
    SelectionCut(r, s, o, expr);
    if Collect(r, o, []) == Collect(s, o, []) {
      ReachableDiffer(o, r, s);
    }
  }

  /** For every request some enumerated one is part of it and selects by the same text. */
  lemma SomeSelection(r: Request, o: Overlay, expr: string) returns (s: Request)
    requires WellFormed(o)
    ensures s in Reachable(o) && Sub(s, r) && Selection(s, o, expr) == Selection(r, o, expr)
  {
    s := SomeReachable(r, o);
    SelectionCut(s, r, o, expr);
  }
}
