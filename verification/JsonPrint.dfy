/**
 Prints of a value with a gap of blanks behind each comma and colon, none in the compact one,
 and only quotes, backslashes and control characters escaped. Reading a print back gives the
 value again, within the integer limit.
 */
module JsonPrint {
  import opened Wrappers
  import opened JsonSyntax
  import opened JsonScan
  import opened JsonStrict
  import opened JsonTruncation
  import opened JsonRecovery

  /******* Numbers *******/

  function Decimal(n: nat): (digits: string)
    ensures Digits(digits) && |digits| > 0 && DigitsValue(digits) == n
    ensures digits[0] == '0' ==> n == 0 && |digits| == 1
  {
    var last := '0' + (n % 10) as char;
    if n < 10 then
      assert [last][..0] == "";
      [last]
    else
      var front := Decimal(n / 10);
      assert (front + [last])[..|front|] == front;
      front + [last]
  }

  function IntNumeral(n: int): Numeral {
    Numeral(n < 0, Decimal(if n < 0 then -n else n), None, None)
  }

  /** A float is whatever numeral of section 6, with a fraction or an exponent, its text is. */
  ghost predicate IsFloatNumeral(n: Numeral, text: string) {
    NumeralFormed(n) && (n.fraction.Some? || n.exponent.Some?) && NumeralText(n) == text
  }

  ghost predicate IsFloatText(text: string) {
    exists n :: IsFloatNumeral(n, text)
  }

  ghost function NumberSyntax(n: Number): (numeral: Numeral)
    requires n.Float? ==> IsFloatText(n.text)
    ensures NumeralFormed(numeral) && NumeralMeaning(numeral) == n
  {
    match n
    case Int(value) => IntNumeral(value)
    case Float(text) => var numeral :| IsFloatNumeral(numeral, text); numeral
  }

  /******* Strings *******/

  function NibbleDigit(n: nat): (c: char)
    requires n < 16
    ensures IsHex(c) && HexDigit(c) == n
  {
    if n < 10 then '0' + n as char else 'a' + (n - 10) as char
  }

  function ControlHex(c: char): (hex: string)
    requires c < ' '
    ensures |hex| == 4 && (forall i | 0 <= i < 4 :: IsHex(hex[i])) && HexValue(hex) == c as nat
  {
    var hex := ['0', '0', NibbleDigit(c as nat / 16), NibbleDigit(c as nat % 16)];
    assert hex[..3][..2][..1][..0] == "" && hex[..3][..2][..1] == ['0'] && hex[..3][..2] == ['0', '0'];
    assert HexValue(['0']) == 0 && HexValue(['0', '0']) == 0 && HexValue(hex[..3]) == c as nat / 16;
    hex
  }

  function PrintChar(c: char): (printed: CharSyntax)
    ensures CharFormed(printed) && CharMeaning(printed) == c
  {
    if c == '"' || c == '\\' then Short(c)
    else if c == '\U{0008}' then Short('b')
    else if c == '\U{000C}' then Short('f')
    else if c == '\n' then Short('n')
    else if c == '\r' then Short('r')
    else if c == '\t' then Short('t')
    else if c < ' ' then Unit(ControlHex(c))
    else Raw(c)
  }

  function PrintChars(s: string): (cs: seq<CharSyntax>)
    ensures CharsFormed(cs) && CharsMeaning(cs) == s
  {
    if s == "" then [] else [PrintChar(s[0])] + PrintChars(s[1..])
  }

  /******* Values *******/

  /** The keys of an object differ, as those of a dictionary do. */
  predicate Distinct(members: seq<Member>) {
    forall i, j :: 0 <= i < j < |members| ==> members[i].key != members[j].key
  }

  /** Values as the printer gets them. */
  ghost predicate Printable(v: Json) {
    match v
    case Num(n) => n.Float? ==> IsFloatText(n.text)
    case Arr(items) => forall i | 0 <= i < |items| :: Printable(items[i])
    case Obj(members) => Distinct(members) && forall i | 0 <= i < |members| :: Printable(members[i].value)
    case _ => true
  }

  /** No integer in the value is longer than the interpreter takes. */
  predicate IntegersFit(v: Json, limit: nat) {
    match v
    case Num(n) => n.Int? ==> Fits(|Decimal(if n.value < 0 then -n.value else n.value)|, limit)
    case Arr(items) => forall i | 0 <= i < |items| :: IntegersFit(items[i], limit)
    case Obj(members) => forall i | 0 <= i < |members| :: IntegersFit(members[i].value, limit)
    case _ => true
  }

  ghost function Print(v: Json, gap: string): (s: Syntax)
    requires Printable(v) && Blank(gap)
    ensures Formed(s)
    decreases v, 0
  {
    match v
    case Null => Word(NullLiteral)
    case Bool(truth) => Word(if truth then True else False)
    case Num(n) => Figure(NumberSyntax(n))
    case Str(text) => Quoted(PrintChars(text))
    case Arr(items) => Brackets(PrintItems(items, "", gap))
    case Obj(members) => Braces(PrintMembers(members, "", gap))
  }

  ghost function PrintElement(v: Json, before: string, gap: string): (e: Element)
    requires Printable(v) && Blank(before) && Blank(gap)
    ensures ElementFormed(e)
    decreases v, 1
  {
    Element(before, Print(v, gap), "")
  }

  ghost function PrintItems(items: seq<Json>, before: string, gap: string): (es: Elements)
    requires Blank(before) && Blank(gap) && forall i | 0 <= i < |items| :: Printable(items[i])
    ensures ElementsFormed(es) && (es.NoElements? <==> items == [])
    decreases items, 0
  {
    if items == [] then NoElements("")
    else if |items| == 1 then LastElement(PrintElement(items[0], before, gap))
    else MoreElements(PrintElement(items[0], before, gap), PrintItems(items[1..], gap, gap))
  }

  ghost function PrintMember(m: Member, before: string, gap: string): (f: Field)
    requires Blank(before) && Blank(gap) && Printable(m.value)
    ensures FieldFormed(f)
    decreases m, 0
  {
    Field(before, PrintChars(m.key), "", PrintElement(m.value, gap, gap))
  }

  ghost function PrintMembers(members: seq<Member>, before: string, gap: string): (fs: Fields)
    requires Blank(before) && Blank(gap) && forall i | 0 <= i < |members| :: Printable(members[i].value)
    ensures FieldsFormed(fs) && (fs.NoFields? <==> members == [])
    decreases members, 0
  {
    if members == [] then NoFields("")
    else if |members| == 1 then LastField(PrintMember(members[0], before, gap))
    else MoreFields(PrintMember(members[0], before, gap), PrintMembers(members[1..], gap, gap))
  }

  /******* The print means the value *******/

  /** Exactly when all integers fit, what was printed reads back as it was; otherwise something else is read. */
  lemma {:induction false} PrintMeaning(v: Json, gap: string, limit: nat)
    requires Printable(v) && Blank(gap)
    ensures Meaning(Print(v, gap), limit) == v <==> IntegersFit(v, limit)
    decreases v, 0
  {
    hide Print, Meaning;
    match v
    case Arr(items) =>
      ArrayMeaning(items, gap, limit);
      ItemsMeaning(items, "", gap, limit);
    case Obj(members) =>
      ObjectMeaning(members, gap, limit);
      MembersMeaning(members, "", gap, limit, []);
      assert [] + members == members;
    case _ => ScalarMeaning(v, gap, limit);
  }

  lemma ScalarMeaning(v: Json, gap: string, limit: nat)
    requires Printable(v) && Blank(gap) && !v.Arr? && !v.Obj?
    ensures Meaning(Print(v, gap), limit) == v <==> IntegersFit(v, limit)
  {
  }

  lemma ArrayMeaning(items: seq<Json>, gap: string, limit: nat)
    requires Printable(Arr(items)) && Blank(gap)
    ensures Meaning(Print(Arr(items), gap), limit) == Arr(ElementsMeaning(PrintItems(items, "", gap), limit))
  {
  }

  lemma ObjectMeaning(members: seq<Member>, gap: string, limit: nat)
    requires Printable(Obj(members)) && Blank(gap)
    ensures Meaning(Print(Obj(members), gap), limit) == Obj(FieldsMeaning(PrintMembers(members, "", gap), limit, []))
  {
  }

  predicate ItemsFit(items: seq<Json>, limit: nat) {
    forall i | 0 <= i < |items| :: IntegersFit(items[i], limit)
  }

  predicate MembersFit(members: seq<Member>, limit: nat) {
    forall i | 0 <= i < |members| :: IntegersFit(members[i].value, limit)
  }

  lemma {:induction false} ItemsMeaning(items: seq<Json>, before: string, gap: string, limit: nat)
    requires Blank(before) && Blank(gap) && forall i | 0 <= i < |items| :: Printable(items[i])
    ensures |ElementsMeaning(PrintItems(items, before, gap), limit)| == |items|
    ensures ElementsMeaning(PrintItems(items, before, gap), limit) == items <==> ItemsFit(items, limit)
    decreases items, 0
  {
    hide Print, Printable, Meaning, PrintItems, ElementsMeaning;
    if items == [] {
      NoItems(before, gap, limit);
    } else {
      PrintMeaning(items[0], gap, limit);
      ItemsMeaning(items[1..], gap, gap, limit);
      ItemsRead(items, before, gap, limit);
      assert items == [items[0]] + items[1..];
    }
  }

  lemma NoItems(before: string, gap: string, limit: nat)
    requires Blank(before) && Blank(gap)
    ensures ElementsMeaning(PrintItems([], before, gap), limit) == []
  {
  }

  lemma ItemsRead(items: seq<Json>, before: string, gap: string, limit: nat)
    requires Blank(before) && Blank(gap) && items != [] && forall i | 0 <= i < |items| :: Printable(items[i])
    ensures ElementsMeaning(PrintItems(items, before, gap), limit) ==
      [Meaning(Print(items[0], gap), limit)] + ElementsMeaning(PrintItems(items[1..], gap, gap), limit)
  {
    hide Print, Printable, Meaning;
  }

  /** A printed member, read back. */
  ghost function Reread(m: Member, gap: string, limit: nat): Member
    requires Printable(m.value) && Blank(gap)
  {
    Member(m.key, Meaning(Print(m.value, gap), limit))
  }

  lemma MemberRead(m: Member, space: string, gap: string, limit: nat, before: seq<Member>)
    requires Blank(space) && Blank(gap) && Printable(m.value) && forall i | 0 <= i < |before| :: before[i].key != m.key
    ensures FieldMeaning(PrintMember(m, space, gap), limit, before) == before + [Reread(m, gap, limit)]
  {
    SetNew(before, m.key, Reread(m, gap, limit).value);
  }

  lemma MembersRead(members: seq<Member>, space: string, gap: string, limit: nat, before: seq<Member>)
    requires Blank(space) && Blank(gap) && members != [] && forall i | 0 <= i < |members| :: Printable(members[i].value)
    requires forall i | 0 <= i < |before| :: before[i].key != members[0].key
    ensures FieldsMeaning(PrintMembers(members, space, gap), limit, before) ==
      FieldsMeaning(PrintMembers(members[1..], gap, gap), limit, before + [Reread(members[0], gap, limit)])
  {
    MemberRead(members[0], space, gap, limit, before);
  }

  lemma DistinctNext(before: seq<Member>, m: Member, n: Member, others: seq<Member>)
    requires Distinct(before + [m] + others) && n.key == m.key
    ensures Distinct(before + [n] + others)
    ensures forall i | 0 <= i < |before| :: before[i].key != m.key
  {
    var s, t := before + [m] + others, before + [n] + others;
    assert forall i | 0 <= i < |s| :: t[i].key == s[i].key;
    assert s[|before|] == m && forall i | 0 <= i < |before| :: s[i] == before[i];
  }

  lemma SameBehind<T>(before: seq<T>, first: T, read: seq<T>, m: T, others: seq<T>)
    requires |read| == |before| + 1 + |others| && read[..|before| + 1] == before + [first]
    ensures read[..|before|] == before
    ensures read == before + ([m] + others) <==> first == m && read == before + [first] + others
  {
    assert read[|before|] == read[..|before| + 1][|before|] == first;
    assert (before + ([m] + others))[|before|] == m;
    assert before + [first] + others == before + ([first] + others);
  }

  /** Members with new keys are read behind those before them. */
  lemma {:induction false} MembersMeaning(members: seq<Member>, space: string, gap: string, limit: nat,
                                          before: seq<Member>)
    requires Blank(space) && Blank(gap) && forall i | 0 <= i < |members| :: Printable(members[i].value)
    requires Distinct(before + members)
    ensures var read := FieldsMeaning(PrintMembers(members, space, gap), limit, before);
      |read| == |before| + |members| && read[..|before|] == before
        && (read == before + members <==> MembersFit(members, limit))
    decreases members, 0
  {
    hide Print, Printable, PrintMembers, FieldsMeaning, Distinct;
    if members == [] {
      assert before + members == before;
      NoneRead(space, gap, limit, before);
    } else {
      var m, n, others := members[0], Reread(members[0], gap, limit), members[1..];
      assert members == [m] + others && before + members == before + [m] + others;
      PrintMeaning(m.value, gap, limit);
      DistinctNext(before, m, n, others);
      MembersRead(members, space, gap, limit, before);
      MembersMeaning(others, gap, gap, limit, before + [n]);
      SameBehind(before, n, FieldsMeaning(PrintMembers(members, space, gap), limit, before), m, others);
    }
  }

  lemma NoneRead(space: string, gap: string, limit: nat, before: seq<Member>)
    requires Blank(space) && Blank(gap)
    ensures FieldsMeaning(PrintMembers([], space, gap), limit, before) == before
  {
  }

  /** What the parser makes of a printed value: the value again, all of it read, whatever the schema says. */
  method RoundTrip(v: Json, text: string, partial: bool, schema: Schema, unicode: Unicode, limit: nat,
                   ghost gap: string)
    returns (value: Json, parser: Parser)
    requires Printable(v) && Blank(gap) && text == Text(Print(v, gap))
    ensures fresh(parser) && !parser.incomplete && !parser.rejected && parser.index == |text|
    ensures value == v <==> IntegersFit(v, limit)
  {
    hide Print, Printable, Upto, Meaning, Text, IntegersFit;
    PrintMeaning(v, gap, limit);
    TextStarts(Print(v, gap));
    ghost var e := PrintElement(v, "", gap);
    assert text == ElementText(e);
    parser := new Parser(text, partial, schema, unicode, limit);
    value := parser.Parse(Some(e));
  }

  /** The smallest number with more than `n` digits. */
  function TenTo(n: nat): (r: nat)
    ensures r > 0
  {
    if n == 0 then 1 else 10 * TenTo(n - 1)
  }

  lemma {:induction false} TenToDigits(n: nat)
    ensures |Decimal(TenTo(n))| == n + 1
    decreases n
  {
    if n > 0 {
      TenToDigits(n - 1);
      assert TenTo(n) / 10 == TenTo(n - 1);
    }
  }

  /** Whatever the limit is, there is an integer too long for it, and it comes back as its text. */
  lemma LongIntegerIsLost(limit: nat)
    requires limit > 0
    ensures var v := Num(Int(TenTo(limit)));
      && Printable(v) && !IntegersFit(v, limit)
      && Meaning(Print(v, ""), limit) == Str(Decimal(TenTo(limit)))
  {
    hide TenTo, Decimal;
    TenToDigits(limit);
    var whole := Decimal(TenTo(limit));
    assert "" + whole + "" + "" == whole;
  }

  /** The print of a container is a container, and what there is of it is that of its elements or members. */
  lemma PrintUpto(v: Json, gap: string, n: nat, m: Reading)
    requires Printable(v) && Blank(gap) && n > 0
    ensures v.Arr? ==> Upto(Print(v, gap), n, m) == Arr(ElementsUpto(PrintItems(v.items, "", gap), n - 1, m))
    ensures v.Obj? ==> Upto(Print(v, gap), n, m) == Obj(FieldsUpto(PrintMembers(v.members, "", gap), n - 1, m, []))
  {
  }

  /** All items but the last one there are those of the list, whatever part of its print there is. */
  lemma ItemsStay(v: Json, gap: string, n: nat, m: Reading)
    requires Printable(v) && Blank(gap) && v.Arr? && IntegersFit(v, m.limit) && n > 0
    ensures var cut := Upto(Print(v, gap), n, m);
      && cut.Arr? && |cut.items| <= |v.items|
      && forall i | 0 <= i < |cut.items| - 1 :: cut.items[i] == v.items[i]
  {
    hide Print, Printable, Upto, ElementsUpto;
    assert forall i | 0 <= i < |v.items| :: Printable(v.items[i]) by {
      ArrPrintable(v);
    }
    PrintUpto(v, gap, n, m);
    ItemsMeaning(v.items, "", gap, m.limit);
    ItemsKept(PrintItems(v.items, "", gap), n - 1, m);
  }

  lemma PrintCount(members: seq<Member>, before: string, gap: string)
    requires Blank(before) && Blank(gap) && forall i | 0 <= i < |members| :: Printable(members[i].value)
    ensures FieldCount(PrintMembers(members, before, gap)) == |members|
    decreases |members|
  {
    if |members| > 1 {
      PrintCount(members[1..], gap, gap);
    }
  }

  /**
   The members that are all there are those of the dictionary, in order; at most one key more is assigned, which the
   cut may have made equal to one of theirs.
   */
  lemma MembersStay(v: Json, gap: string, n: nat, m: Reading) returns (count: nat, key: string, value: Json)
    requires Printable(v) && Blank(gap) && v.Obj? && IntegersFit(v, m.limit) && n > 0
    ensures var cut := Upto(Print(v, gap), n, m);
      && cut.Obj? && count <= |v.members|
      && (cut.members == v.members[..count] || cut.members == Set(v.members[..count], key, value))
  {
    hide Print, Printable, Upto, FieldsUpto, FieldsMeaning, Set, PrintMembers, Distinct;
    var members := v.members;
    ObjPrintable(v);
    assert [] + members == members;
    PrintUpto(v, gap, n, m);
    MembersMeaning(members, "", gap, m.limit, []);
    PrintCount(members, "", gap);
    count, key, value := FieldsStay(PrintMembers(members, "", gap), n - 1, m);
  }

  lemma ArrPrintable(v: Json)
    requires v.Arr? && Printable(v)
    ensures forall i | 0 <= i < |v.items| :: Printable(v.items[i])
  {
  }

  lemma ObjPrintable(v: Json)
    requires v.Obj? && Printable(v)
    ensures Distinct(v.members) && forall i | 0 <= i < |v.members| :: Printable(v.members[i].value)
  {
  }

  /**
   A proper prefix of a printed container, in partial mode: what there is of it, told to be incomplete, unless there is
   nothing at all.
   */
  method Truncated(v: Json, text: string, schema: Schema, unicode: Unicode, limit: nat, ghost gap: string)
    returns (recovery: Recovery)
    requires Printable(v) && Blank(gap) && (v.Arr? || v.Obj?) && text < Text(Print(v, gap))
    ensures if text == "" then recovery == Rejected
            else recovery == Incomplete(Upto(Print(v, gap), |text|, Reading(true, unicode, limit)))
    ensures text != "" && v.Arr? && IntegersFit(v, limit) ==>
      && recovery.Incomplete? && recovery.value.Arr? && |recovery.value.items| <= |v.items|
      && forall i | 0 <= i < |recovery.value.items| - 1 :: recovery.value.items[i] == v.items[i]
  {
    ghost var e := PrintElement(v, "", gap);
    assert Text(Print(v, gap)) == ElementText(e);
    recovery := Recover(text, true, None, None, schema, unicode, limit, Some(e));
    if text != "" && v.Arr? && IntegersFit(v, limit) {
      ItemsStay(v, gap, |text|, Reading(true, unicode, limit));
    }
  }
}
