/** Responses, their output items, and the events a client folds to follow them. */
module ResponseEvents {
  import opened Wrappers

  datatype Status = InProgress | Completed | Incomplete | Failed | Cancelled
  datatype ItemStatus = Started | Finished | CutShort

  /** The state a reasoning item carries: a checkpoint, or a patch on the item before it. */
  datatype ReasoningState = Checkpoint(content: int) | Patch(content: int)
  datatype Lineage = Lineage(itemId: string, previousReasoning: Option<string>, previousCompaction: Option<string>)

  datatype Content = TextContent(text: string, annotations: seq<string>) | RefusalContent(refusal: string)
  datatype Item =
    | Reasoning(lineage: Lineage, state: ReasoningState, main: int, summary: seq<string>, status: ItemStatus)
    | MessageItem(id: string, content: seq<Content>)
    | FunctionCall(id: string, name: string, arguments: string)

  datatype Response = Response(status: Status, output: seq<Item>)

  datatype Part = PartAdded | PartAnnotated | PartDelta | PartDone | PartClosed

  datatype Event =
    | Created(response: Response)
    | Running(response: Response)
    | ItemAdded(index: nat, item: Item)
    | ItemPart(index: nat, part: Part, position: nat, text: string)
    | ItemDone(index: nat, item: Item)
    | Ended(response: Response)

  datatype Published = Published(number: nat, event: Event)

  /** What a client makes of the events: the items, and whether the response has ended. */
  datatype View = View(items: seq<Item>, ended: bool)

  function See(v: View, e: Event): View {
    if v.ended then v
    else match e
      case ItemAdded(i, item) => if i == |v.items| then v.(items := v.items + [item]) else v
      case ItemDone(i, item) => if i < |v.items| then v.(items := v.items[i := item]) else v
      case Ended(_) => v.(ended := true)
      case _ => v
  }

  function Fold(ps: seq<Published>): View {
    if ps == [] then View([], false) else See(Fold(ps[..|ps| - 1]), ps[|ps| - 1].event)
  }

  lemma FoldNext(ps: seq<Published>, p: Published)
    ensures Fold(ps + [p]) == See(Fold(ps), p.event)
  {
    assert (ps + [p])[..|ps|] == ps;
  }

  /** The terminal events among these. */
  function Endings(ps: seq<Published>): nat {
    if ps == [] then 0 else Endings(ps[..|ps| - 1]) + if ps[|ps| - 1].event.Ended? then 1 else 0
  }

  lemma EndingsNext(ps: seq<Published>, p: Published)
    ensures Endings(ps + [p]) == Endings(ps) + if p.event.Ended? then 1 else 0
  {
    assert (ps + [p])[..|ps|] == ps;
  }

  lemma EndedHasEnding(ps: seq<Published>)
    ensures Fold(ps).ended <==> Endings(ps) > 0
  {
  }

  /** Two lists of items agree, except perhaps at the item still open. */
  predicate Agree(a: seq<Item>, b: seq<Item>, open: Option<nat>) {
    |a| == |b| && forall i | 0 <= i < |a| :: open != Some(i) ==> a[i] == b[i]
  }

  /** The stored rows are these items, except perhaps at the item still open. */
  predicate Stored(rows: map<nat, Item>, items: seq<Item>, open: Option<nat>) {
    && (forall i | i in rows :: i < |items|)
    && forall i: nat | i < |items| :: i in rows && (open != Some(i) ==> rows[i] == items[i])
  }

  /**
   The view follows the response. With nothing lost or dropped it has the items until the end; a response that ends
   no more than once leaves its output in the view.
   */
  predicate Follows(v: View, items: seq<Item>, open: Option<nat>, response: Response, once: bool, clean: bool) {
    && (v.ended ==> response.status != InProgress)
    && (clean && !v.ended ==> Agree(v.items, items, open))
    && (clean && v.ended && once ==> v.items == response.output)
  }

  lemma FollowsAdded(v: View, items: seq<Item>, open: Option<nat>, response: Response, once: bool, clean: bool,
                     item: Item)
    requires Follows(v, items, open, response, once, clean)
    ensures Follows(See(v, ItemAdded(|items|, item)), items + [item], open, response, once, clean)
    ensures See(v, ItemAdded(|items|, item)).ended == v.ended
  {
  }

  /** When an item is done, the view has it, and it need no longer be open. */
  lemma FollowsDone(v: View, items: seq<Item>, open: Option<nat>, response: Response, once: bool, clean: bool,
                    i: nat)
    requires i < |items| && Follows(v, items, open, response, once, clean)
    ensures Follows(See(v, ItemDone(i, items[i])), items,
                    if open == Some(i) then None else open, response, once, clean)
    ensures See(v, ItemDone(i, items[i])).ended == v.ended
  {
  }

  /** The open item can change without anyone being told. */
  lemma FollowsChange(v: View, items: seq<Item>, i: nat, item: Item, response: Response, once: bool, clean: bool)
    requires i < |items| && Follows(v, items, Some(i), response, once, clean)
    ensures Follows(v, items[i := item], Some(i), response, once, clean)
  {
  }

  lemma FollowsEnd(v: View, items: seq<Item>, before: Response, after: Response, once: bool, clean: bool)
    requires exists any :: Follows(v, items, None, before, any, clean)
    requires (once ==> !v.ended) && after.status != InProgress && after.output == items
    ensures Follows(See(v, Ended(after)), items, None, after, once, clean) && See(v, Ended(after)).ended
  {
  }

  lemma StoredAppend(rows: map<nat, Item>, items: seq<Item>, open: Option<nat>, item: Item)
    requires Stored(rows, items, open)
    ensures Stored(rows[|items| := item], items + [item], open)
  {
  }

  lemma StoredReplace(rows: map<nat, Item>, items: seq<Item>, open: Option<nat>, i: nat, item: Item)
    requires Stored(rows, items, open) && i < |items|
    ensures Stored(rows[i := item], items[i := item], open)
    ensures open == Some(i) ==> Stored(rows[i := item], items[i := item], None)
  {
  }

  /** What agrees in everything agrees except at an open item. */
  lemma Opening(v: View, rows: map<nat, Item>, items: seq<Item>, i: nat, response: Response, once: bool, clean: bool)
    ensures Follows(v, items, None, response, once, clean) ==> Follows(v, items, Some(i), response, once, clean)
    ensures Stored(rows, items, None) ==> Stored(rows, items, Some(i))
  {
  }

  /******* The events of one item *******/

  function Bare(ps: seq<Published>): seq<Event> {
    if ps == [] then [] else Bare(ps[..|ps| - 1]) + [ps[|ps| - 1].event]
  }

  lemma BareNext(ps: seq<Published>, p: Published)
    ensures Bare(ps + [p]) == Bare(ps) + [p.event]
  {
    assert (ps + [p])[..|ps|] == ps;
  }

  function PlainEvents(index: nat, i: nat, t: string): seq<Event> {
    [ItemPart(index, PartAdded, i, t), ItemPart(index, PartDelta, i, t), ItemPart(index, PartDone, i, t),
     ItemPart(index, PartClosed, i, t)]
  }

  function SummaryEvents(index: nat, summary: seq<string>): seq<Event> {
    if summary == [] then []
    else SummaryEvents(index, summary[..|summary| - 1]) + PlainEvents(index, |summary| - 1, summary[|summary| - 1])
  }

  function ContentText(c: Content): string {
    if c.TextContent? then c.text else c.refusal
  }

  function AnnotationEvents(index: nat, annotations: seq<string>): seq<Event> {
    if annotations == [] then []
    else
      var n := |annotations| - 1;
      AnnotationEvents(index, annotations[..n]) + [ItemPart(index, PartAnnotated, n, annotations[n])]
  }

  function ContentEvents(index: nat, i: nat, c: Content): seq<Event> {
    [ItemPart(index, PartAdded, i, ContentText(c))]
      + (if c.TextContent? then AnnotationEvents(index, c.annotations) else [])
      + [ItemPart(index, PartDelta, i, ContentText(c)), ItemPart(index, PartDone, i, ContentText(c)),
         ItemPart(index, PartClosed, i, ContentText(c))]
  }

  function MessageEvents(index: nat, content: seq<Content>): seq<Event> {
    if content == [] then []
    else MessageEvents(index, content[..|content| - 1]) + ContentEvents(index, |content| - 1, content[|content| - 1])
  }

  /** What is published about an item between its being added and done. */
  function PartEvents(index: nat, item: Item): seq<Event> {
    match item
    case Reasoning(_, _, _, summary, _) => SummaryEvents(index, summary)
    case FunctionCall(_, _, arguments) => [ItemPart(index, PartDelta, 0, arguments),
                                           ItemPart(index, PartDone, 0, arguments)]
    case MessageItem(_, content) => MessageEvents(index, content)
  }

  function ItemEvents(index: nat, item: Item): seq<Event> {
    [ItemAdded(index, item)] + PartEvents(index, item) + [ItemDone(index, item)]
  }

  /** The text that the deltas for one part of an item make. */
  function Spelled(es: seq<Event>, index: nat, position: nat): string {
    if es == [] then ""
    else
      var e := es[|es| - 1];
      Spelled(es[..|es| - 1], index, position)
        + if e.ItemPart? && e.part == PartDelta && e.index == index && e.position == position then e.text else ""
  }

  lemma {:induction false} SpelledConcat(a: seq<Event>, b: seq<Event>, index: nat, position: nat)
    ensures Spelled(a + b, index, position) == Spelled(a, index, position) + Spelled(b, index, position)
    decreases |b|
  {
    if b == [] {
      assert a + b == a;
      NothingSpelled(index, position);
    } else {
      SpelledConcat(a, b[..|b| - 1], index, position);
      assert (a + b)[..|a + b| - 1] == a + b[..|b| - 1] && (a + b)[|a + b| - 1] == b[|b| - 1];
    }
  }

  lemma {:induction false} AnnotationsSilent(index: nat, annotations: seq<string>, position: nat)
    ensures Spelled(AnnotationEvents(index, annotations), index, position) == ""
    decreases |annotations|
  {
    if annotations != [] {
      AnnotationsSilent(index, annotations[..|annotations| - 1], position);
      var last := ItemPart(index, PartAnnotated, |annotations| - 1, annotations[|annotations| - 1]);
      SpelledConcat(AnnotationEvents(index, annotations[..|annotations| - 1]), [last], index, position);
      assert [last][..0] == [];
    }
  }

  lemma SpelledOne(e: Event, index: nat, position: nat)
    ensures Spelled([e], index, position) ==
      if e.ItemPart? && e.part == PartDelta && e.index == index && e.position == position then e.text else ""
  {
    assert [e][..0] == [];
    assert Spelled([], index, position) == "";
  }

  /** The last three events of a part spell its text. */
  lemma ClosingSpelled(index: nat, i: nat, t: string, position: nat)
    ensures Spelled([ItemPart(index, PartDelta, i, t), ItemPart(index, PartDone, i, t),
                     ItemPart(index, PartClosed, i, t)], index, position)
      == if i == position then t else ""
  {
    var a, b, c := ItemPart(index, PartDelta, i, t), ItemPart(index, PartDone, i, t), ItemPart(index, PartClosed, i, t);
    SpelledOne(a, index, position);
    SpelledOne(b, index, position);
    SpelledOne(c, index, position);
    SpelledConcat([a], [b], index, position);
    SpelledConcat([a] + [b], [c], index, position);
    assert [a, b, c] == [a] + [b] + [c];
  }

  lemma ContentSpelled(index: nat, i: nat, c: Content, position: nat)
    ensures Spelled(ContentEvents(index, i, c), index, position) == if i == position then ContentText(c) else ""
  {
    hide Spelled;
    var t := ContentText(c);
    var first := ItemPart(index, PartAdded, i, t);
    var middle := if c.TextContent? then AnnotationEvents(index, c.annotations) else [];
    var closing := [ItemPart(index, PartDelta, i, t), ItemPart(index, PartDone, i, t),
                    ItemPart(index, PartClosed, i, t)];
    if c.TextContent? {
      AnnotationsSilent(index, c.annotations, position);
    } else {
      NothingSpelled(index, position);
    }
    SpelledOne(first, index, position);
    ClosingSpelled(index, i, t, position);
    SpelledConcat([first], middle, index, position);
    SpelledConcat([first] + middle, closing, index, position);
  }

  lemma NothingSpelled(index: nat, position: nat)
    ensures Spelled([], index, position) == ""
  {
  }

  /** A client that joins the deltas of a part has the text of that part. */
  lemma {:induction false} MessageSpelled(index: nat, content: seq<Content>, position: nat)
    ensures Spelled(MessageEvents(index, content), index, position) ==
      if position < |content| then ContentText(content[position]) else ""
    decreases |content|
  {
    if content != [] {
      var front, i := content[..|content| - 1], |content| - 1;
      MessageSpelled(index, front, position);
      ContentSpelled(index, i, content[i], position);
      SpelledConcat(MessageEvents(index, front), ContentEvents(index, i, content[i]), index, position);
    }
  }

  lemma {:induction false} SummarySpelled(index: nat, summary: seq<string>, position: nat)
    ensures Spelled(SummaryEvents(index, summary), index, position) ==
      if position < |summary| then summary[position] else ""
    decreases |summary|
  {
    if summary != [] {
      var front, i := summary[..|summary| - 1], |summary| - 1;
      SummarySpelled(index, front, position);
      PlainSpelled(index, i, summary[i], position);
      SpelledConcat(SummaryEvents(index, front), PlainEvents(index, i, summary[i]), index, position);
    }
  }

  lemma PlainSpelled(index: nat, i: nat, t: string, position: nat)
    ensures Spelled(PlainEvents(index, i, t), index, position) == if i == position then t else ""
  {
    hide Spelled;
    var first := ItemPart(index, PartAdded, i, t);
    var closing := [ItemPart(index, PartDelta, i, t), ItemPart(index, PartDone, i, t),
                    ItemPart(index, PartClosed, i, t)];
    SpelledOne(first, index, position);
    ClosingSpelled(index, i, t, position);
    SpelledConcat([first], closing, index, position);
    assert PlainEvents(index, i, t) == [first] + closing;
  }

  /******* The order of events *******/

  /**
   Where the events of an item's parts stand: before a part, in it, behind its text, behind its end; or out of order.
   */
  datatype Stage = Before(next: nat) | Inside(position: nat) | Told(position: nat) | Ending(position: nat) | Disorder

  function Proceed(s: Stage, e: Event, index: nat): Stage {
    if !e.ItemPart? || e.index != index then Disorder
    else if s.Before? && e.part == PartAdded && e.position == s.next then Inside(s.next)
    else if s.Inside? && e.part == PartAnnotated then s
    else if s.Inside? && e.part == PartDelta && e.position == s.position then Told(s.position)
    else if s.Told? && e.part == PartDone && e.position == s.position then Ending(s.position)
    else if s.Ending? && e.part == PartClosed && e.position == s.position then Before(s.position + 1)
    else Disorder
  }

  function ProceedAll(s: Stage, es: seq<Event>, index: nat): Stage {
    if es == [] then s else Proceed(ProceedAll(s, es[..|es| - 1], index), es[|es| - 1], index)
  }

  lemma {:induction false} ProceedConcat(s: Stage, a: seq<Event>, b: seq<Event>, index: nat)
    ensures ProceedAll(s, a + b, index) == ProceedAll(ProceedAll(s, a, index), b, index)
    decreases |b|
  {
    if b == [] {
      assert a + b == a;
    } else {
      ProceedConcat(s, a, b[..|b| - 1], index);
      assert (a + b)[..|a + b| - 1] == a + b[..|b| - 1] && (a + b)[|a + b| - 1] == b[|b| - 1];
    }
  }

  lemma ProceedOne(s: Stage, e: Event, index: nat)
    ensures ProceedAll(s, [e], index) == Proceed(s, e, index) && ProceedAll(s, [], index) == s
  {
    assert [e][..0] == [];
  }

  lemma ClosingInOrder(index: nat, i: nat, t: string)
    ensures ProceedAll(Inside(i), [ItemPart(index, PartDelta, i, t), ItemPart(index, PartDone, i, t),
                                   ItemPart(index, PartClosed, i, t)], index) == Before(i + 1)
  {
    var a, b, c := ItemPart(index, PartDelta, i, t), ItemPart(index, PartDone, i, t), ItemPart(index, PartClosed, i, t);
    ProceedOne(Inside(i), a, index);
    ProceedOne(Told(i), b, index);
    ProceedOne(Ending(i), c, index);
    ProceedConcat(Inside(i), [a], [b], index);
    ProceedConcat(Inside(i), [a] + [b], [c], index);
    assert [a, b, c] == [a] + [b] + [c];
  }

  lemma {:induction false} AnnotationsInOrder(index: nat, annotations: seq<string>, i: nat)
    ensures ProceedAll(Inside(i), AnnotationEvents(index, annotations), index) == Inside(i)
    decreases |annotations|
  {
    if annotations != [] {
      var n := |annotations| - 1;
      var last := ItemPart(index, PartAnnotated, n, annotations[n]);
      AnnotationsInOrder(index, annotations[..n], i);
      ProceedConcat(Inside(i), AnnotationEvents(index, annotations[..n]), [last], index);
      ProceedOne(Inside(i), last, index);
    }
  }

  lemma ContentInOrder(index: nat, i: nat, c: Content)
    ensures ProceedAll(Before(i), ContentEvents(index, i, c), index) == Before(i + 1)
  {
    hide ProceedAll;
    var t := ContentText(c);
    var first := ItemPart(index, PartAdded, i, t);
    var middle := if c.TextContent? then AnnotationEvents(index, c.annotations) else [];
    var closing := [ItemPart(index, PartDelta, i, t), ItemPart(index, PartDone, i, t),
                    ItemPart(index, PartClosed, i, t)];
    ProceedOne(Before(i), first, index);
    ProceedOne(Inside(i), first, index);
    if c.TextContent? {
      AnnotationsInOrder(index, c.annotations, i);
    }
    ClosingInOrder(index, i, t);
    ProceedConcat(Before(i), [first], middle, index);
    ProceedConcat(Before(i), [first] + middle, closing, index);
  }

  /** The parts of a message come one after the other, each added, annotated, spelled, done and closed. */
  lemma {:induction false} MessageInOrder(index: nat, content: seq<Content>)
    ensures ProceedAll(Before(0), MessageEvents(index, content), index) == Before(|content|)
    decreases |content|
  {
    hide ContentEvents;
    if content != [] {
      var n := |content| - 1;
      MessageInOrder(index, content[..n]);
      ContentInOrder(index, n, content[n]);
      ProceedConcat(Before(0), MessageEvents(index, content[..n]), ContentEvents(index, n, content[n]), index);
    }
  }

  lemma PlainInOrder(index: nat, i: nat, t: string)
    ensures ProceedAll(Before(i), PlainEvents(index, i, t), index) == Before(i + 1)
  {
    hide ProceedAll;
    var first := ItemPart(index, PartAdded, i, t);
    var closing := [ItemPart(index, PartDelta, i, t), ItemPart(index, PartDone, i, t),
                    ItemPart(index, PartClosed, i, t)];
    ProceedOne(Before(i), first, index);
    ClosingInOrder(index, i, t);
    ProceedConcat(Before(i), [first], closing, index);
    assert PlainEvents(index, i, t) == [first] + closing;
  }

  /** The parts of a summary come one after the other, each added, spelled, done and closed. */
  lemma {:induction false} SummaryInOrder(index: nat, summary: seq<string>)
    ensures ProceedAll(Before(0), SummaryEvents(index, summary), index) == Before(|summary|)
    decreases |summary|
  {
    hide PlainEvents;
    if summary != [] {
      var n := |summary| - 1;
      SummaryInOrder(index, summary[..n]);
      PlainInOrder(index, n, summary[n]);
      ProceedConcat(Before(0), SummaryEvents(index, summary[..n]), PlainEvents(index, n, summary[n]), index);
    }
  }
}
