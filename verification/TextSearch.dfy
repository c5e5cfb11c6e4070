/** Finding tokens in text, and how stop strings cut out what stands before them. */
module TextSearch {
  import opened Wrappers

  predicate At(text: string, i: nat, s: string) {
    i + |s| <= |text| && text[i..i + |s|] == s
  }

  /** str.find */
  function Find(text: string, s: string, from: nat): (at: Option<nat>)
    requires from <= |text|
    ensures at.Some? ==> from <= at.value && At(text, at.value, s) && forall i | from <= i < at.value :: !At(text, i, s)
    ensures at.None? ==> forall i | from <= i :: !At(text, i, s)
    decreases |text| - from
  {
    if At(text, from, s) then Some(from)
    else if from == |text| then None
    else Find(text, s, from + 1)
  }

  ghost predicate Free(text: string, s: string) {
    forall i: nat :: !At(text, i, s)
  }

  /** No occurrence of `s` can start earlier and reach into `f`. */
  ghost predicate NoStraddle(s: string, f: string) {
    forall k | 1 <= k < |s| :: !(s[k..] <= f)
  }

  /** An occurrence in two texts put together lies in one of them, or crosses from one into the other. */
  lemma Crossing(a: string, f: string, i: nat, s: string)
    requires At(a + f, i, s)
    ensures i >= |a| || At(a, i, s) || (i < |a| < i + |s| && s[|a| - i..] <= f)
    ensures i == |a| ==> s <= f
  {
    var t := a + f;
    assert t[i..i + |s|] == s;
    if i + |s| <= |a| {
      assert a[i..i + |s|] == s;
    } else if i < |a| {
      assert f[..i + |s| - |a|] == t[|a|..i + |s|] == s[|a| - i..];
    } else if i == |a| {
      assert f[..|s|] == s;
    }
  }

  lemma AtLater(a: string, f: string, i: nat, s: string)
    requires At(a + f, i, s) && i >= |a|
    ensures At(f, i - |a|, s)
  {
    assert f[i - |a|..i - |a| + |s|] == (a + f)[i..i + |s|];
  }

  lemma AtInner(text: string, i: nat, before: string, token: string, after: string)
    requires At(text, i, before + token + after)
    ensures At(text, i + |before|, token)
  {
    var s := before + token + after;
    forall k | 0 <= k < |token| ensures text[i + |before| + k] == token[k] {
      assert text[i..i + |s|][|before| + k] == s[|before| + k];
    }
  }

  lemma FreeConcat(a: string, f: string, s: string)
    requires Free(a, s) && Free(f, s) && NoStraddle(s, f)
    ensures Free(a + f, s)
  {
    forall i: nat ensures !At(a + f, i, s) {
      if At(a + f, i, s) {
        Crossing(a, f, i, s);
        if i >= |a| {
          AtLater(a, f, i, s);
        }
      }
    }
  }

  /** A text without a token has no string that contains the token. */
  lemma FreeOfLonger(text: string, before: string, token: string, after: string)
    requires Free(text, token)
    ensures Free(text, before + token + after)
  {
    var s := before + token + after;
    forall i: nat ensures !At(text, i, s) {
      if At(text, i, s) {
        AtInner(text, i, before, token, after);
      }
    }
  }

  lemma AtFirst(text: string, i: nat, token: string)
    requires At(text, i, token) && token != ""
    ensures text[i] == token[0]
  {
    assert text[i] == text[i..i + |token|][0];
  }

  /** Text of which the first character of the token occurs nowhere is free of it. */
  lemma FreeByFirst(text: string, token: string)
    requires token != "" && token[0] !in text
    ensures Free(text, token)
  {
    forall i: nat ensures !At(text, i, token) {
      if At(text, i, token) {
        AtFirst(text, i, token);
      }
    }
  }

  lemma NoStraddleByFirst(head: char, tail: string, f: string)
    requires f != "" && f[0] !in tail
    ensures NoStraddle([head] + tail, f)
  {
    var s := [head] + tail;
    forall k | 1 <= k < |s| ensures !(s[k..] <= f) {
      assert s[k] == tail[k - 1];
      SuffixFirst(s, k, f);
    }
  }

  lemma SuffixFirst(s: string, k: nat, f: string)
    requires k < |s|
    ensures s[k..] <= f ==> f != "" && f[0] == s[k]
  {
    assert s[k..][0] == s[k];
  }

  /** Nothing starts in a text that lacks the token's first character. */
  lemma FreeAfter(a: string, f: string, token: string)
    requires Free(f, token) && token != "" && token[0] !in a
    ensures Free(a + f, token)
  {
    forall i: nat ensures !At(a + f, i, token) {
      if At(a + f, i, token) {
        AtFirst(a + f, i, token);
        if i >= |a| {
          AtLater(a, f, i, token);
        }
      }
    }
  }

  /** Where a stop string is found behind a text that is free of it. */
  lemma Found(text: string, index: nat, a: string, f: string, s: string)
    requires index <= |text| && text[index..] == a + f && Free(a, s) && NoStraddle(s, f) && s != ""
    ensures s <= f ==> Find(text, s, index) == Some(index + |a|)
    ensures !(s <= f) && Find(text, s, index).Some? ==> Find(text, s, index).value > index + |a|
  {
    var at := Find(text, s, index);
    if at.Some? {
      AtBehind(text, index, at.value - index, s);
      Crossing(a, f, at.value - index, s);
    }
    if s <= f {
      AtNext(text, index, a, f, s);
    }
  }

  lemma AtNext(text: string, index: nat, a: string, f: string, s: string)
    requires index <= |text| && text[index..] == a + f && s <= f
    ensures At(text, index + |a|, s)
  {
    assert text[index + |a|..] == text[index..][|a|..] == f;
    assert text[index + |a|..index + |a| + |s|] == text[index + |a|..][..|s|] == f[..|s|];
  }

  lemma AtBehind(text: string, index: nat, i: nat, s: string)
    requires index <= |text| && At(text, index + i, s)
    ensures At(text[index..], i, s)
  {
    assert text[index..][i..i + |s|] == text[index + i..index + i + |s|];
  }

  /******* Stops *******/

  datatype Stop = Stop(next: nat, content: string, stop: Option<string>)

  /** The earliest of the stops from `index` on; of two at one place, the first listed. */
  function Earliest(text: string, index: nat, stops: seq<string>): (best: Option<(nat, string)>)
    requires index <= |text|
    ensures best.Some? ==> index <= best.value.0 && At(text, best.value.0, best.value.1) && best.value.1 in stops
  {
    if stops == [] then None
    else
      var best, s := Earliest(text, index, stops[..|stops| - 1]), stops[|stops| - 1];
      var at := Find(text, s, index);
      if at.Some? && at.value < (if best.Some? then best.value.0 else |text|) then Some((at.value, s)) else best
  }

  /** The stop listed at `i` is found at `at`, no other before that, and none listed before it in the same place. */
  ghost predicate FirstStop(text: string, index: nat, stops: seq<string>, at: nat, i: nat)
    requires index <= |text|
  {
    && i < |stops| && Find(text, stops[i], index) == Some(at) && at < |text|
    && forall j | 0 <= j < |stops| && Find(text, stops[j], index).Some? ::
         var other := Find(text, stops[j], index).value; at < other || (at == other && i <= j)
  }

  /** No stop is found before the end of the text. */
  ghost predicate NoStop(text: string, index: nat, stops: seq<string>)
    requires index <= |text|
  {
    forall j | 0 <= j < |stops| :: Find(text, stops[j], index).Some? ==> Find(text, stops[j], index).value >= |text|
  }

  /**
   What is chosen is the earliest of all stops, of several in one place the first listed; nothing if there is none.
   */
  lemma {:induction false} EarliestIsFirst(text: string, index: nat, stops: seq<string>) returns (i: nat)
    requires index <= |text|
    ensures var best := Earliest(text, index, stops);
      && (best.None? <==> NoStop(text, index, stops))
      && (best.Some? ==> FirstStop(text, index, stops, best.value.0, i) && stops[i] == best.value.1)
    decreases |stops|
  {
    hide At, Find;
    i := 0;
    if stops != [] {
      var front, n := stops[..|stops| - 1], |stops| - 1;
      i := EarliestIsFirst(text, index, front);
      assert forall j | 0 <= j < n :: front[j] == stops[j];
      var at := Find(text, stops[n], index);
      if at.Some? && at.value < (if Earliest(text, index, front).Some?
                                 then Earliest(text, index, front).value.0 else |text|) {
        i := n;
      }
    }
  }

  function StopAt(text: string, index: nat, stops: seq<string>): (r: Stop)
    requires index <= |text|
    ensures index <= r.next <= |text|
    ensures r.stop.Some? ==> r.stop.value in stops && index + |r.stop.value| <= r.next
  {
    match Earliest(text, index, stops)
    case Some((at, s)) => Stop(at + |s|, text[index..at], Some(s))
    case None => Stop(|text|, text[index..], None)
  }

  /** The text is cut at the first stop there is, and the rest is read where there is none. */
  lemma StopIsFirst(text: string, index: nat, stops: seq<string>) returns (i: nat)
    requires index <= |text|
    ensures var r := StopAt(text, index, stops);
      if NoStop(text, index, stops) then r == Stop(|text|, text[index..], None)
      else
        && FirstStop(text, index, stops, index + |r.content|, i) && r.stop == Some(stops[i])
        && r.next == index + |r.content| + |stops[i]| && r.content == text[index..index + |r.content|]
  {
    i := EarliestIsFirst(text, index, stops);
  }

  /** _read_until_stop; the stops are not empty. */
  method ReadUntilStop(index: nat, text: string, stops: seq<string>)
    returns (next: nat, content: string, stop: Option<string>)
    requires index <= |text|
    ensures Stop(next, content, stop) == StopAt(text, index, stops)
  {
    var minPos, matched := |text|, None;
    for i := 0 to |stops|
      invariant minPos <= |text|
      invariant Earliest(text, index, stops[..i]) == if matched.None? then None else Some((minPos, matched.value))
      invariant matched.None? ==> minPos == |text|
    {
      assert stops[..i + 1][..i] == stops[..i];
      var at := Find(text, stops[i], index);
      if at.Some? && at.value < minPos {
        minPos, matched := at.value, Some(stops[i]);
      }
    }
    assert stops[..|stops|] == stops;
    if matched.Some? {
      next, content, stop := minPos + |matched.value|, text[index..minPos], matched;
    } else {
      next, content, stop := |text|, text[index..], None;
    }
  }

  /** Of two stops, the one that stands right behind the text stops it. */
  lemma StopsBehind(text: string, index: nat, a: string, f: string, s: string, other: string, stops: seq<string>)
    requires index <= |text| && text[index..] == a + f && s <= f && !(other <= f) && s != "" && other != ""
    requires Free(a, s) && Free(a, other) && NoStraddle(s, f) && NoStraddle(other, f)
    requires stops == [s, other] || stops == [other, s]
    ensures StopAt(text, index, stops) == Stop(index + |a| + |s|, a, Some(s))
    ensures text[index + |a| + |s|..] == f[|s|..]
  {
    hide Find, At, Free;
    Found(text, index, a, f, s);
    Found(text, index, a, f, other);
    assert stops[..1] == [stops[0]] && stops[..1][..0] == [];
    assert Earliest(text, index, []) == None;
    assert Earliest(text, index, stops) == Some((index + |a|, s));
    CutOut(text, index, a, f, |s|);
  }

  lemma StopsAlone(text: string, index: nat, a: string, f: string, s: string)
    requires index <= |text| && text[index..] == a + f && s <= f && s != "" && Free(a, s) && NoStraddle(s, f)
    ensures StopAt(text, index, [s]) == Stop(index + |a| + |s|, a, Some(s))
    ensures text[index + |a| + |s|..] == f[|s|..]
  {
    Found(text, index, a, f, s);
    assert [s][..0] == [] && Earliest(text, index, []) == None;
    CutOut(text, index, a, f, |s|);
  }

  lemma CutOut(text: string, index: nat, a: string, f: string, n: nat)
    requires index <= |text| && text[index..] == a + f && n <= |f|
    ensures text[index..index + |a|] == a && text[index + |a| + n..] == f[n..]
  {
    assert text[index..index + |a|] == text[index..][..|a|];
    assert text[index + |a| + n..] == text[index..][|a| + n..];
  }

  /** With no stop in it, all of the text is read. */
  lemma StopsNowhere(text: string, index: nat, stops: seq<string>)
    requires index <= |text| && forall s | s in stops :: Free(text[index..], s)
    ensures StopAt(text, index, stops) == Stop(|text|, text[index..], None)
  {
    EarliestNone(text, index, stops);
  }

  lemma EarliestNone(text: string, index: nat, stops: seq<string>)
    requires index <= |text| && forall s | s in stops :: Free(text[index..], s)
    ensures Earliest(text, index, stops) == None
  {
    if stops != [] {
      var s := stops[|stops| - 1];
      EarliestNone(text, index, stops[..|stops| - 1]);
      if Find(text, s, index).Some? {
        AtBehind(text, index, Find(text, s, index).value - index, s);
      }
    }
  }
}
