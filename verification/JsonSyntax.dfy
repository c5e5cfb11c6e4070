/**
 JSON values, and the texts of RFC 8259 as syntax trees: `Text` writes a tree
 with its own white space and escapes, `Meaning` is the value it denotes. The
 trees of the grammar (sections 2 to 7) are the well-formed ones.
 */
module JsonSyntax {
  import opened Wrappers

  /** A number is an integer, or the text that is handed to the float constructor. */
  datatype Number = Int(value: int) | Float(text: string)

  datatype Json =
    | Null
    | Bool(truth: bool)
    | Num(number: Number)
    | Str(text: string)
    | Arr(items: seq<Json>)
    | Obj(members: seq<Member>)
  datatype Member = Member(key: string, value: Json)

  /** Assignment to a key of an insertion-ordered dictionary. */
  function Set(members: seq<Member>, key: string, value: Json): seq<Member> {
    if members == [] then [Member(key, value)]
    else if members[0].key == key then [Member(key, value)] + members[1..]
    else [members[0]] + Set(members[1..], key, value)
  }

  predicate Has(members: seq<Member>, key: string) {
    exists i :: 0 <= i < |members| && members[i].key == key
  }

  /******* Characters *******/

  predicate IsDigit(c: char) {
    '0' <= c <= '9'
  }

  predicate IsHex(c: char) {
    IsDigit(c) || 'a' <= c <= 'f' || 'A' <= c <= 'F'
  }

  function HexDigit(c: char): nat
    requires IsHex(c)
  {
    if IsDigit(c) then (c - '0') as nat else if 'a' <= c <= 'f' then (c - 'a') as nat + 10 else (c - 'A') as nat + 10
  }

  function HexValue(s: string): nat
    requires forall i | 0 <= i < |s| :: IsHex(s[i])
  {
    if s == "" then 0 else 16 * HexValue(s[..|s| - 1]) + HexDigit(s[|s| - 1])
  }

  /** chr(); a Dafny character is no surrogate, so those become U+FFFD. */
  function Chr(n: nat): char {
    if n < 0xD800 || 0xE000 <= n < 0x11_0000 then n as char else '\U{FFFD}'
  }

  /** White space of section 2. */
  predicate IsBlank(c: char) {
    c == ' ' || c == '\t' || c == '\n' || c == '\r'
  }

  predicate Blank(s: string) {
    forall i | 0 <= i < |s| :: IsBlank(s[i])
  }

  /******* Strings, section 7 *******/

  datatype CharSyntax = Raw(c: char) | Short(letter: char) | Unit(hex: string)

  /** What the two-character escapes stand for. */
  function Escaped(letter: char): Option<char> {
    match letter
    case '"' => Some('"')
    case '\'' => Some('\'')
    case '\\' => Some('\\')
    case '/' => Some('/')
    case 'b' => Some('\U{0008}')
    case 'f' => Some('\U{000C}')
    case 'n' => Some('\n')
    case 'r' => Some('\r')
    case 't' => Some('\t')
    case _ => None
  }

  predicate CharFormed(c: CharSyntax) {
    match c
    case Raw(c) => c >= ' ' && c != '"' && c != '\\'
    case Short(letter) => letter != '\'' && Escaped(letter).Some?
    case Unit(hex) => |hex| == 4 && forall i | 0 <= i < 4 :: IsHex(hex[i])
  }

  function CharText(c: CharSyntax): string {
    match c
    case Raw(c) => [c]
    case Short(letter) => ['\\', letter]
    case Unit(hex) => ['\\', 'u'] + hex
  }

  function CharMeaning(c: CharSyntax): char
    requires CharFormed(c)
  {
    match c
    case Raw(c) => c
    case Short(letter) => Escaped(letter).value
    case Unit(hex) => Chr(HexValue(hex))
  }

  predicate CharsFormed(cs: seq<CharSyntax>) {
    forall i | 0 <= i < |cs| :: CharFormed(cs[i])
  }

  function CharsText(cs: seq<CharSyntax>): string {
    if cs == [] then "" else CharText(cs[0]) + CharsText(cs[1..])
  }

  function CharsMeaning(cs: seq<CharSyntax>): string
    requires CharsFormed(cs)
  {
    if cs == [] then "" else [CharMeaning(cs[0])] + CharsMeaning(cs[1..])
  }

  function QuotedText(cs: seq<CharSyntax>): string {
    "\"" + CharsText(cs) + "\""
  }

  /******* Numbers, section 6 *******/

  predicate Digits(s: string) {
    forall i | 0 <= i < |s| :: IsDigit(s[i])
  }

  function DigitsValue(s: string): nat
    requires Digits(s)
  {
    if s == "" then 0 else 10 * DigitsValue(s[..|s| - 1]) + (s[|s| - 1] - '0') as nat
  }

  datatype Exponent = Exponent(e: char, sign: string, digits: string)
  datatype Numeral = Numeral(minus: bool, whole: string, fraction: Option<string>, exponent: Option<Exponent>)

  predicate NumeralFormed(n: Numeral) {
    && Digits(n.whole) && |n.whole| > 0 && (n.whole[0] == '0' ==> |n.whole| == 1)
    && (n.fraction.Some? ==> Digits(n.fraction.value) && |n.fraction.value| > 0)
    && (n.exponent.Some? ==>
          && (n.exponent.value.e == 'e' || n.exponent.value.e == 'E')
          && (n.exponent.value.sign == "" || n.exponent.value.sign == "+" || n.exponent.value.sign == "-")
          && Digits(n.exponent.value.digits) && |n.exponent.value.digits| > 0)
  }

  function ExponentText(e: Option<Exponent>): string {
    if e.None? then "" else [e.value.e] + e.value.sign + e.value.digits
  }

  function FractionText(f: Option<string>): string {
    if f.None? then "" else "." + f.value
  }

  function NumeralText(n: Numeral): string {
    (if n.minus then "-" else "") + n.whole + FractionText(n.fraction) + ExponentText(n.exponent)
  }

  function NumeralMeaning(n: Numeral): Number
    requires NumeralFormed(n)
  {
    if n.fraction.Some? || n.exponent.Some? then Float(NumeralText(n))
    else Int(if n.minus then -(DigitsValue(n.whole) as int) else DigitsValue(n.whole))
  }

  /** int() refuses more digits than the interpreter's limit, 0 meaning none. */
  predicate Fits(digits: nat, limit: nat) {
    limit == 0 || digits <= limit
  }

  /******* Values, sections 3 to 5 *******/

  datatype Literal = True | False | NullLiteral

  /** `before` and `after` are the blanks around an element or member. */
  datatype Syntax =
    | Word(literal: Literal)
    | Figure(numeral: Numeral)
    | Quoted(chars: seq<CharSyntax>)
    | Brackets(elements: Elements)
    | Braces(fields: Fields)
  datatype Elements =
    | NoElements(blank: string)
    | LastElement(element: Element)
    | MoreElements(element: Element, others: Elements)
  datatype Element = Element(before: string, value: Syntax, after: string)
  datatype Fields = NoFields(blank: string) | LastField(field: Field) | MoreFields(field: Field, others: Fields)
  datatype Field = Field(before: string, key: seq<CharSyntax>, middle: string, value: Element)

  predicate Formed(s: Syntax) {
    match s
    case Word(_) => true
    case Figure(n) => NumeralFormed(n)
    case Quoted(cs) => CharsFormed(cs)
    case Brackets(es) => ElementsFormed(es)
    case Braces(fs) => FieldsFormed(fs)
  }

  predicate ElementFormed(e: Element) {
    Blank(e.before) && Formed(e.value) && Blank(e.after)
  }

  predicate ElementsFormed(es: Elements) {
    match es
    case NoElements(blank) => Blank(blank)
    case LastElement(e) => ElementFormed(e)
    case MoreElements(e, others) => ElementFormed(e) && !others.NoElements? && ElementsFormed(others)
  }

  predicate FieldFormed(f: Field) {
    Blank(f.before) && CharsFormed(f.key) && Blank(f.middle) && ElementFormed(f.value)
  }

  predicate FieldsFormed(fs: Fields) {
    match fs
    case NoFields(blank) => Blank(blank)
    case LastField(f) => FieldFormed(f)
    case MoreFields(f, others) => FieldFormed(f) && !others.NoFields? && FieldsFormed(others)
  }

  function LiteralText(l: Literal): string {
    match l
    case True => "true"
    case False => "false"
    case NullLiteral => "null"
  }

  function Text(s: Syntax): string {
    match s
    case Word(l) => LiteralText(l)
    case Figure(n) => NumeralText(n)
    case Quoted(cs) => QuotedText(cs)
    case Brackets(es) => "[" + ElementsText(es) + "]"
    case Braces(fs) => "{" + FieldsText(fs) + "}"
  }

  function ElementText(e: Element): string {
    e.before + Text(e.value) + e.after
  }

  function ElementsText(es: Elements): string {
    match es
    case NoElements(blank) => blank
    case LastElement(e) => ElementText(e)
    case MoreElements(e, others) => ElementText(e) + "," + ElementsText(others)
  }

  function FieldText(f: Field): string {
    f.before + QuotedText(f.key) + f.middle + ":" + ElementText(f.value)
  }

  function FieldsText(fs: Fields): string {
    match fs
    case NoFields(blank) => blank
    case LastField(f) => FieldText(f)
    case MoreFields(f, others) => FieldText(f) + "," + FieldsText(others)
  }

  function LiteralMeaning(l: Literal): Json {
    match l
    case True => Bool(true)
    case False => Bool(false)
    case NullLiteral => Null
  }

  /** The value a tree denotes; integers of more digits than the limit are left as their text. */
  function Meaning(s: Syntax, limit: nat): Json
    requires Formed(s)
  {
    match s
    case Word(l) => LiteralMeaning(l)
    case Figure(n) =>
      if NumeralMeaning(n).Int? && !Fits(|n.whole|, limit) then Str(NumeralText(n)) else Num(NumeralMeaning(n))
    case Quoted(cs) => Str(CharsMeaning(cs))
    case Brackets(es) => Arr(ElementsMeaning(es, limit))
    case Braces(fs) => Obj(FieldsMeaning(fs, limit, []))
  }

  function ElementMeaning(e: Element, limit: nat): Json
    requires ElementFormed(e)
  {
    Meaning(e.value, limit)
  }

  function ElementsMeaning(es: Elements, limit: nat): seq<Json>
    requires ElementsFormed(es)
  {
    match es
    case NoElements(_) => []
    case LastElement(e) => [ElementMeaning(e, limit)]
    case MoreElements(e, others) => [ElementMeaning(e, limit)] + ElementsMeaning(others, limit)
  }

  function FieldMeaning(f: Field, limit: nat, members: seq<Member>): seq<Member>
    requires FieldFormed(f)
  {
    Set(members, CharsMeaning(f.key), ElementMeaning(f.value, limit))
  }

  /** Fields assigned in order, the last of equal keys winning. */
  function FieldsMeaning(fs: Fields, limit: nat, members: seq<Member>): seq<Member>
    requires FieldsFormed(fs)
  {
    match fs
    case NoFields(_) => members
    case LastField(f) => FieldMeaning(f, limit, members)
    case MoreFields(f, others) => FieldsMeaning(others, limit, FieldMeaning(f, limit, members))
  }
}
