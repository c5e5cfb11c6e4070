/**
 What the first characters of a strict JSON text mean: every part that is all there means what it means, and of
 the parts still open each is closed as it is.
 */
module JsonTruncation {
  import opened Wrappers
  import opened JsonSyntax
  import opened JsonScan
  import opened JsonStrict

  /** Whether a cut string is kept as it was written, and how tokens are read. */
  datatype Reading = Reading(partial: bool, unicode: Unicode, limit: nat)

  /** A string whose text ended before its closing quote. */
  function Cut(text: string, m: Reading): string {
    if m.partial then text else Decode(text)
  }

  /** The first `n` characters of a string. */
  function CharsUpto(cs: seq<CharSyntax>, n: nat, m: Reading): string
    requires CharsFormed(cs)
  {
    if n >= |QuotedText(cs)| then CharsMeaning(cs) else if n == 0 then "" else Cut(QuotedText(cs)[1..n], m)
  }

  /** The first `n` characters of a value. */
  function Upto(s: Syntax, n: nat, m: Reading): Json
    requires Formed(s)
    decreases s, 0
  {
    match s
    case Word(l) =>
      if n >= |LiteralText(l)| then Meaning(s, m.limit) else Scalar(m.unicode, m.limit, LiteralText(l)[..n], false)
    case Figure(f) =>
      if n >= |NumeralText(f)| then Meaning(s, m.limit) else Scalar(m.unicode, m.limit, NumeralText(f)[..n], true)
    case Quoted(cs) => Str(CharsUpto(cs, n, m))
    case Brackets(es) => Arr(if n == 0 then [] else ElementsUpto(es, n - 1, m))
    case Braces(fs) => Obj(if n == 0 then [] else FieldsUpto(fs, n - 1, m, []))
  }

  /** The first `n` characters of an element, of which some are of its value. */
  function ElementUpto(e: Element, n: nat, m: Reading): Json
    requires ElementFormed(e) && n > |e.before|
    decreases e, 1
  {
    Upto(e.value, n - |e.before|, m)
  }

  /** An element counts from the first character of its value on, and the one after it from behind the comma. */
  function ElementsUpto(es: Elements, n: nat, m: Reading): seq<Json>
    requires ElementsFormed(es)
    decreases es, 1
  {
    if es.NoElements? || n <= |es.element.before| then []
    else
      [ElementUpto(es.element, n, m)] +
      if es.LastElement? || n <= |ElementText(es.element)| then []
      else ElementsUpto(es.others, n - |ElementText(es.element)| - 1, m)
  }

  /** The first `n` characters of a member from its key on; a key without a value is assigned null. */
  function FieldUpto(f: Field, n: nat, m: Reading, members: seq<Member>): seq<Member>
    requires FieldFormed(f)
    decreases f, 1
  {
    var colon := |QuotedText(f.key)| + |f.middle| + 1;
    Set(members, CharsUpto(f.key, n, m),
        if n <= colon + |f.value.before| then Null else ElementUpto(f.value, n - colon, m))
  }

  function FieldsUpto(fs: Fields, n: nat, m: Reading, members: seq<Member>): seq<Member>
    requires FieldsFormed(fs)
    decreases fs, 1
  {
    if fs.NoFields? || n <= |fs.field.before| then members
    else
      var read := FieldUpto(fs.field, n - |fs.field.before|, m, members);
      if fs.LastField? || n <= |FieldText(fs.field)| then read
      else FieldsUpto(fs.others, n - |FieldText(fs.field)| - 1, m, read)
  }

  /******* What is all there *******/

  /** All of a text means what it means. */
  lemma {:induction false} UptoWhole(s: Syntax, n: nat, m: Reading)
    requires Formed(s) && n >= |Text(s)|
    ensures Upto(s, n, m) == Meaning(s, m.limit)
    decreases s, 0
  {
    match s
    case Brackets(es) => ElementsWhole(es, n - 1, m);
    case Braces(fs) => FieldsWhole(fs, n - 1, m, []);
    case _ =>
  }

  lemma ElementLength(e: Element)
    ensures |ElementText(e)| == |e.before| + |Text(e.value)| + |e.after|
  {
    hide Text;
  }

  lemma FieldLength(f: Field)
    ensures |FieldText(f)| == |f.before| + |QuotedText(f.key)| + |f.middle| + 1 + |ElementText(f.value)|
  {
    hide QuotedText, ElementText;
  }

  /** One element and the others. */
  lemma ElementsUnfold(es: Elements, n: nat, m: Reading)
    requires ElementsFormed(es) && !es.NoElements?
    ensures ElementFormed(es.element) && (es.MoreElements? ==> ElementsFormed(es.others))
    ensures |ElementsText(es)| == |ElementText(es.element)| + if es.LastElement?
      then 0 else 1 + |ElementsText(es.others)|
    ensures ElementsMeaning(es, m.limit) == [ElementMeaning(es.element, m.limit)] +
      if es.LastElement? then [] else ElementsMeaning(es.others, m.limit)
    ensures n > |es.element.before| ==>
      ElementsUpto(es, n, m) == [ElementUpto(es.element, n, m)] +
        if es.LastElement? || n <= |ElementText(es.element)| then []
        else ElementsUpto(es.others, n - |ElementText(es.element)| - 1, m)
  {
    hide ElementText, ElementFormed, ElementMeaning, ElementUpto;
  }

  /** One member and the others. */
  lemma FieldsUnfold(fs: Fields, n: nat, m: Reading, members: seq<Member>)
    requires FieldsFormed(fs) && !fs.NoFields?
    ensures FieldFormed(fs.field) && (fs.MoreFields? ==> FieldsFormed(fs.others))
    ensures |FieldsText(fs)| == |FieldText(fs.field)| + if fs.LastField? then 0 else 1 + |FieldsText(fs.others)|
    ensures FieldsMeaning(fs, m.limit, members) ==
      var read := FieldMeaning(fs.field, m.limit, members);
      if fs.LastField? then read else FieldsMeaning(fs.others, m.limit, read)
    ensures n > |fs.field.before| ==>
      FieldsUpto(fs, n, m, members) ==
        var read := FieldUpto(fs.field, n - |fs.field.before|, m, members);
        if fs.LastField? || n <= |FieldText(fs.field)| then read
        else FieldsUpto(fs.others, n - |FieldText(fs.field)| - 1, m, read)
  {
    hide FieldText, FieldFormed, FieldMeaning, FieldUpto;
  }

  lemma NothingThere(es: Elements, fs: Fields, n: nat, m: Reading, members: seq<Member>)
    ensures es.NoElements? && ElementsFormed(es) ==> ElementsUpto(es, n, m) == ElementsMeaning(es, m.limit)
    ensures fs.NoFields? && FieldsFormed(fs) ==> FieldsUpto(fs, n, m, members) == FieldsMeaning(fs, m.limit, members)
  {
  }

  lemma {:induction false} ElementsWhole(es: Elements, n: nat, m: Reading)
    requires ElementsFormed(es) && n >= |ElementsText(es)|
    ensures ElementsUpto(es, n, m) == ElementsMeaning(es, m.limit)
    decreases es, 1
  {
    hide ElementsText, ElementsUpto, ElementsMeaning, ElementsFormed, Text, ElementText, ElementFormed, ElementMeaning,
      ElementUpto;
    if es.NoElements? {
      NothingThere(es, NoFields(""), n, m, []);
    } else {
      ElementsUnfold(es, n, m);
      ElementLength(es.element);
      ElementThere(es.element, n, m);
      if es.MoreElements? {
        ElementsWhole(es.others, n - |ElementText(es.element)| - 1, m);
      }
    }
  }

  /** The value of an element that is all there. */
  lemma {:induction false} ElementThere(e: Element, n: nat, m: Reading)
    requires ElementFormed(e) && n >= |e.before| + |Text(e.value)|
    ensures n > |e.before| && ElementUpto(e, n, m) == ElementMeaning(e, m.limit)
    decreases e, 0
  {
    TextStarts(e.value);
    UptoWhole(e.value, n - |e.before|, m);
  }

  lemma {:induction false} FieldThere(f: Field, n: nat, m: Reading, members: seq<Member>)
    requires FieldFormed(f)
      && n >= |QuotedText(f.key)| + |f.middle| + 1 + |f.value.before| + |Text(f.value.value)|
    ensures FieldUpto(f, n, m, members) == FieldMeaning(f, m.limit, members)
    decreases f, 0
  {
    ElementThere(f.value, n - |QuotedText(f.key)| - |f.middle| - 1, m);
  }

  lemma {:induction false} FieldsWhole(fs: Fields, n: nat, m: Reading, members: seq<Member>)
    requires FieldsFormed(fs) && n >= |FieldsText(fs)|
    ensures FieldsUpto(fs, n, m, members) == FieldsMeaning(fs, m.limit, members)
    decreases fs, 1
  {
    hide FieldsText, FieldsUpto, FieldsMeaning, FieldsFormed, Text, ElementText, FieldText, FieldFormed, FieldMeaning,
      FieldUpto, QuotedText;
    if fs.NoFields? {
      NothingThere(NoElements(""), fs, n, m, members);
    } else {
      FieldsUnfold(fs, n, m, members);
      FieldLength(fs.field);
      ElementLength(fs.field.value);
      FieldThere(fs.field, n - |fs.field.before|, m, members);
      if fs.MoreFields? {
        FieldsWhole(fs.others, n - |FieldText(fs.field)| - 1, m, FieldMeaning(fs.field, m.limit, members));
      }
    }
  }

  /******* What is kept *******/

  /** A cut string is what there is of it behind the opening quote, decoded unless it may go on. */
  lemma StringKept(cs: seq<CharSyntax>, n: nat, m: Reading)
    requires CharsFormed(cs) && 0 < n < |CharsText(cs)| + 2
    ensures Upto(Quoted(cs), n, m) == Str(if m.partial then CharsText(cs)[..n - 1] else Decode(CharsText(cs)[..n - 1]))
  {
    hide CharsText, CharsMeaning, CharsFormed, Decode;
    assert QuotedText(cs)[1..n] == CharsText(cs)[..n - 1];
  }

  /**
   A member that is cut: in its key, which then is what there is of it, without a value; before its value, which then
   is null; or in its value.
   */
  lemma MemberCut(f: Field, n: nat, m: Reading, members: seq<Member>)
    requires FieldFormed(f) && n > 0
    ensures CharsFormed(f.key) && Formed(f.value.value)
    ensures var key, value := |CharsText(f.key)| + 2, |CharsText(f.key)| + |f.middle| + 3 + |f.value.before|;
      FieldUpto(f, n, m, members) ==
        if n < key then
          Set(members, if m.partial then CharsText(f.key)[..n - 1] else Decode(CharsText(f.key)[..n - 1]), Null)
        else
          Set(members, CharsMeaning(f.key), if n <= value then Null else Upto(f.value.value, n - value, m))
  {
    hide Set, Decode, Upto, CharsText, CharsMeaning, CharsFormed;
    if n < |CharsText(f.key)| + 2 {
      assert QuotedText(f.key)[1..n] == CharsText(f.key)[..n - 1];
    }
  }

  /** Where the value of this element starts. */
  function ElementStart(es: Elements, i: nat): nat {
    if es.NoElements? then 0
    else if i == 0 then |es.element.before|
    else |ElementText(es.element)| + 1 + if es.LastElement? then 0 else ElementStart(es.others, i - 1)
  }

  /** How far the value of this element reaches. */
  function ElementEnd(es: Elements, i: nat): nat {
    if es.NoElements? then 0
    else if i == 0 then |es.element.before| + |Text(es.element.value)|
    else |ElementText(es.element)| + 1 + if es.LastElement? then 0 else ElementEnd(es.others, i - 1)
  }

  /**
   The elements kept are those whose value has begun. All that are there are kept as they are, and behind them comes
   one that is cut, or none.
   */
  lemma {:induction false} ItemsKept(es: Elements, n: nat, m: Reading)
    requires ElementsFormed(es)
    ensures var (kept, all) := (ElementsUpto(es, n, m), ElementsMeaning(es, m.limit));
      && |kept| <= |all| && (forall i | 0 <= i < |all| :: i < |kept| <==> ElementStart(es, i) < n)
      && (forall i | 0 <= i < |kept| - 1 :: kept[i] == all[i])
      && (forall i | 0 <= i < |all| && ElementEnd(es, i) <= n :: i < |kept| && kept[i] == all[i])
    decreases es, 1
  {
    hide Text, ElementText, ElementFormed, ElementMeaning, ElementUpto;
    if !es.NoElements? {
      ElementLength(es.element);
      FirstElementEnds(es);
      if ElementEnd(es, 0) <= n {
        ElementThere(es.element, n, m);
        if es.MoreElements? && n > |ElementText(es.element)| {
          ItemsKept(es.others, n - |ElementText(es.element)| - 1, m);
        }
      }
    }
  }

  lemma FirstElementEnds(es: Elements)
    requires ElementsFormed(es) && !es.NoElements?
    ensures |es.element.before| < ElementEnd(es, 0) <= |ElementText(es.element)|
    ensures forall i: nat | i > 0 :: ElementEnd(es, i) > |ElementText(es.element)|
    ensures forall i: nat | i > 0 :: ElementStart(es, i) > |ElementText(es.element)|
  {
    hide Text;
    ElementLength(es.element);
    TextStarts(es.element.value);
  }

  function FieldCount(fs: Fields): nat {
    if fs.NoFields? then 0 else if fs.LastField? then 1 else 1 + FieldCount(fs.others)
  }

  /** Where the key of this member starts. */
  function FieldStart(fs: Fields, i: nat): nat {
    if fs.NoFields? then 0
    else if i == 0 then |fs.field.before|
    else |FieldText(fs.field)| + 1 + if fs.LastField? then 0 else FieldStart(fs.others, i - 1)
  }

  /** How far the value of this member reaches. */
  function FieldEnd(fs: Fields, i: nat): nat {
    if fs.NoFields? then 0
    else if i == 0 then
      |fs.field.before| + |QuotedText(fs.field.key)| + |fs.field.middle| + 1
      + |fs.field.value.before| + |Text(fs.field.value.value)|
    else |FieldText(fs.field)| + 1 + if fs.LastField? then 0 else FieldEnd(fs.others, i - 1)
  }

  /** The first members, assigned in order. */
  function FirstFields(fs: Fields, count: nat, limit: nat, members: seq<Member>): seq<Member>
    requires FieldsFormed(fs)
  {
    if count == 0 || fs.NoFields? then members
    else
      var read := FieldMeaning(fs.field, limit, members);
      if fs.LastField? then read else FirstFields(fs.others, count - 1, limit, read)
  }

  lemma FirstFieldEnds(fs: Fields)
    requires FieldsFormed(fs) && !fs.NoFields?
    ensures |fs.field.before| < FieldEnd(fs, 0) <= |FieldText(fs.field)|
    ensures forall i: nat | i > 0 :: FieldEnd(fs, i) > |FieldText(fs.field)|
    ensures forall i: nat | i > 0 :: FieldStart(fs, i) > |FieldText(fs.field)|
  {
    hide Text, QuotedText;
    FieldLength(fs.field);
    ElementLength(fs.field.value);
  }

  /** These members with one key assigned. */
  ghost predicate Assigned(before: seq<Member>, after: seq<Member>) {
    exists key, value :: after == Set(before, key, value)
  }

  lemma FieldCut(f: Field, n: nat, m: Reading, members: seq<Member>)
    requires FieldFormed(f)
    ensures Assigned(members, FieldUpto(f, n, m, members))
  {
    var colon := |QuotedText(f.key)| + |f.middle| + 1;
    var key := CharsUpto(f.key, n, m);
    var value := if n <= colon + |f.value.before| then Null else ElementUpto(f.value, n - colon, m);
    assert FieldUpto(f, n, m, members) == Set(members, key, value);
  }

  /**
   Exactly the members that are all there are assigned as they are, and behind them the one whose key has begun, if
   there is one.
   */
  lemma {:induction false} MembersKept(fs: Fields, n: nat, m: Reading, members: seq<Member>) returns (count: nat)
    requires FieldsFormed(fs)
    ensures count <= FieldCount(fs)
    ensures forall i: nat | i < FieldCount(fs) :: i < count <==> FieldEnd(fs, i) <= n
    ensures var first := FirstFields(fs, count, m.limit, members);
      if count == FieldCount(fs) || n <= FieldStart(fs, count) then FieldsUpto(fs, n, m, members) == first
      else Assigned(first, FieldsUpto(fs, n, m, members))
    decreases fs, 1
  {
    hide Text, ElementText, FieldText, FieldFormed, FieldMeaning, QuotedText, CharsUpto, ElementUpto, Set, Assigned,
      FieldUpto;
    count := 0;
    if !fs.NoFields? {
      FirstFieldEnds(fs);
      if FieldEnd(fs, 0) <= n {
        FieldThere(fs.field, n - |fs.field.before|, m, members);
        count := 1;
        if fs.MoreFields? && n > |FieldText(fs.field)| {
          var more := MembersKept(fs.others, n - |FieldText(fs.field)| - 1, m,
                                  FieldMeaning(fs.field, m.limit, members));
          count := 1 + more;
        }
      } else if n > |fs.field.before| {
        FieldCut(fs.field, n - |fs.field.before|, m, members);
      }
    }
  }

  lemma SetNew(members: seq<Member>, key: string, value: Json)
    requires forall i | 0 <= i < |members| :: members[i].key != key
    ensures Set(members, key, value) == members + [Member(key, value)]
  {
    if members != [] {
      SetNew(members[1..], key, value);
    }
  }

  /** A key that is there is assigned in its place. */
  lemma SetOld(members: seq<Member>, key: string, value: Json) returns (i: nat)
    requires Has(members, key)
    ensures i < |members| && members[i].key == key && Set(members, key, value) == members[i := Member(key, value)]
  {
    if members[0].key == key {
      i := 0;
    } else {
      var k :| 0 <= k < |members| && members[k].key == key;
      assert members[1..][k - 1] == members[k];
      var j := SetOld(members[1..], key, value);
      i := j + 1;
    }
  }

  /** Assigning to a key either adds a member behind the others or leaves their number. */
  lemma SetGrows(members: seq<Member>, key: string, value: Json)
    ensures |Set(members, key, value)| == |members| + if Has(members, key) then 0 else 1
    ensures !Has(members, key) ==> Set(members, key, value) == members + [Member(key, value)]
  {
    if Has(members, key) {
      var i := SetOld(members, key, value);
    } else {
      SetNew(members, key, value);
    }
  }

  lemma {:induction false} FieldsGrow(fs: Fields, limit: nat, before: seq<Member>)
    requires FieldsFormed(fs)
    ensures |FieldsMeaning(fs, limit, before)| <= |before| + FieldCount(fs)
    decreases fs
  {
    hide Set;
    if !fs.NoFields? {
      SetGrows(before, CharsMeaning(fs.field.key), ElementMeaning(fs.field.value, limit));
      if fs.MoreFields? {
        FieldsGrow(fs.others, limit, FieldMeaning(fs.field, limit, before));
      }
    }
  }

  /** When no key comes twice, the first members are the first of all members. */
  lemma {:induction false} FirstFieldsKept(fs: Fields, count: nat, limit: nat, before: seq<Member>)
    requires FieldsFormed(fs) && count <= FieldCount(fs)
    requires |FieldsMeaning(fs, limit, before)| == |before| + FieldCount(fs)
    ensures var all := FieldsMeaning(fs, limit, before);
      all[..|before|] == before && FirstFields(fs, count, limit, before) == all[..|before| + count]
    decreases fs
  {
    hide Set, CharsMeaning, ElementMeaning;
    if !fs.NoFields? {
      var read := FieldMeaning(fs.field, limit, before);
      SetGrows(before, CharsMeaning(fs.field.key), ElementMeaning(fs.field.value, limit));
      if fs.MoreFields? {
        FieldsGrow(fs.others, limit, read);
        FirstFieldsKept(fs.others, if count == 0 then 0 else count - 1, limit, read);
        var all := FieldsMeaning(fs, limit, before);
        assert all[..|read|][..|before|] == all[..|before|];
      }
    }
  }

  /** When no key comes twice: the first members as they are, and at most one key more assigned. */
  lemma FieldsStay(fs: Fields, n: nat, m: Reading) returns (count: nat, key: string, value: Json)
    requires FieldsFormed(fs) && |FieldsMeaning(fs, m.limit, [])| == FieldCount(fs)
    ensures var (cut, all) := (FieldsUpto(fs, n, m, []), FieldsMeaning(fs, m.limit, []));
      count <= |all| && (cut == all[..count] || cut == Set(all[..count], key, value))
  {
    hide FieldsUpto, FieldsMeaning, FirstFields, FieldEnd, FieldStart, Set;
    count := MembersKept(fs, n, m, []);
    FirstFieldsKept(fs, count, m.limit, []);
    key, value := "", Null;
    var cut, first := FieldsUpto(fs, n, m, []), FirstFields(fs, count, m.limit, []);
    if cut != first {
      assert Assigned(first, cut);
      key, value :| cut == Set(first, key, value);
    }
  }

  lemma ShortTexts()
    ensures CharsText([Raw('a')]) == "a" && CharsText([Raw('a'), Raw('b')]) == "ab"
    ensures CharsMeaning([Raw('a')]) == "a" && Decode("a") == "a"
    ensures QuotedText([Raw('a')]) == "\"a\"" && QuotedText([Raw('a'), Raw('b')]) == "\"ab\""
  {
    assert [Raw('a'), Raw('b')][1..] == [Raw('b')];
    assert CharsText([Raw('b')]) == "b";
  }

  /** A member whose key is this and whose value is true, without blanks. */
  function Flag(key: seq<CharSyntax>): Field {
    Field("", key, "", Element("", Word(True), ""))
  }

  lemma FlagRead(m: Reading, members: seq<Member>)
    ensures |FieldText(Flag([Raw('a')]))| == 8 && FieldText(Flag([Raw('a')])) == "\"a\":true"
    ensures FieldFormed(Flag([Raw('a')])) && FieldUpto(Flag([Raw('a')]), 8, m, members) == Set(members, "a", Bool(true))
    ensures FieldUpto(Flag([Raw('a')]), 9, m, members) == Set(members, "a", Bool(true))
    ensures FieldUpto(Flag([Raw('a')]), 11, m, members) == Set(members, "a", Bool(true))
    ensures FieldFormed(Flag([Raw('a'), Raw('b')]))
    ensures FieldUpto(Flag([Raw('a'), Raw('b')]), 2, m, members) == Set(members, "a", Null)
  {
    hide Set, Scalar;
    ShortTexts();
    assert QuotedText([Raw('a'), Raw('b')])[1..2] == "a";
  }

  lemma FlagsText()
    ensures Text(Braces(MoreFields(Flag([Raw('a')]), LastField(Flag([Raw('a'), Raw('b')]))))) ==
      "{\"a\":true,\"ab\":true}"
  {
    ShortTexts();
    assert FieldText(Flag([Raw('a')])) == "\"a\":true" && FieldText(Flag([Raw('a'), Raw('b')])) == "\"ab\":true";
  }

  /** A key that is cut can be another key of its object, whose value then is gone for as long. */
  lemma CutKeyOverwrites(m: Reading)
    ensures var two := Braces(MoreFields(Flag([Raw('a')]), LastField(Flag([Raw('a'), Raw('b')]))));
      && Formed(two) && Text(two)[..12] == "{\"a\":true,\"a"
      && Upto(two, 10, m) == Obj([Member("a", Bool(true))])
      && Upto(two, 12, m) == Obj([Member("a", Null)])
  {
    hide CharsText, CharsMeaning, FieldUpto, FieldText, FieldFormed, Decode, Text;
    FlagsText();
    var a, ab := Flag([Raw('a')]), Flag([Raw('a'), Raw('b')]);
    var fs := MoreFields(a, LastField(ab));
    FlagRead(m, []);
    FlagRead(m, [Member("a", Bool(true))]);
    FieldsUnfold(fs, 9, m, []);
    FieldsUnfold(fs, 11, m, []);
    FieldsUnfold(LastField(ab), 2, m, [Member("a", Bool(true))]);
  }
}
