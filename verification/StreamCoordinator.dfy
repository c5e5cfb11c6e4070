/**
 The coordinator of one response: items in memory, their rows in the store, and the events published
 about them. Every awaited call may raise, and what it raises may be a cancellation.
 */
module StreamCoordinator {
  import opened Wrappers
  import opened ResponseEvents

  datatype Error = CancelledError | OtherError | FinalizationError(what: string)

  const ACCEPTANCE_FAILED := "response acceptance failed"
  const COMPENSATION_FAILED := "response acceptance compensation failed"
  const FAILURE_FAILED := "response failure finalization failed"
  type Outcome = Result<(), Error>

  /** The rows of one response; a call that raises has been rolled back. */
  class ResponseStore {
    var status: Option<Status>
    var rows: map<nat, Item>
    /** How many calls did not come through. */
    ghost var faults: nat

    constructor ()
      ensures status == None && rows == map[] && faults == 0
    {
      status, rows, faults := None, map[], 0;
    }

    /** A call that may or may not come through. */
    static method Call() returns (r: Outcome)
      ensures r.Err? ==> r.error in {CancelledError, OtherError}
    {
      if * {
        r := Ok(());
      } else if * {
        r := Err(CancelledError);
      } else {
        r := Err(OtherError);
      }
    }

    method Reached() returns (r: Outcome)
      modifies this`faults
      ensures faults == old(faults) + if r.Ok? then 0 else 1
      ensures r.Err? ==> r.error in {CancelledError, OtherError}
    {
      r := Call();
      if r.Err? {
        faults := faults + 1;
      }
    }

    /** What is able to succeed fails by a fault alone, and what succeeds has met with none. */
    ghost predicate Charged(before: nat, r: Outcome, able: bool)
      reads this`faults
    {
      && before <= faults && (r.Ok? ==> faults == before && able) && (r.Err? && able ==> before < faults)
      && (r.Err? ==> r.error in {CancelledError, OtherError})
    }

    method Begin(response: Response) returns (r: Outcome)
      modifies this
      ensures r.Ok? ==> old(status) == None && status == Some(response.status) && rows == map[]
      ensures r.Err? ==> status == old(status) && rows == old(rows)
      ensures Charged(old(faults), r, old(status) == None && old(rows) == map[])
    {
      r := Reached();
      if r.Ok? {
        if status.Some? || rows != map[] {
          return Err(OtherError);
        }
        status := Some(response.status);
      }
    }

    method AppendOutputItem(index: nat, item: Item) returns (r: Outcome)
      modifies this
      ensures status == old(status)
      ensures r.Ok? ==> status.Some? && index !in old(rows) && rows == old(rows)[index := item]
      ensures r.Err? ==> rows == old(rows)
      ensures Charged(old(faults), r, status.Some? && index !in old(rows))
    {
      r := Reached();
      if r.Ok? {
        if status.None? || index in rows {
          return Err(OtherError);
        }
        rows := rows[index := item];
      }
    }

    method ReplaceOutputItem(index: nat, item: Item) returns (r: Outcome)
      modifies this
      ensures status == old(status)
      ensures r.Ok? ==> index in old(rows) && rows == old(rows)[index := item]
      ensures r.Err? ==> rows == old(rows)
      ensures Charged(old(faults), r, index in old(rows))
    {
      r := Reached();
      if r.Ok? {
        if index !in rows {
          return Err(OtherError);
        }
        rows := rows[index := item];
      }
    }

    /** finish_response, fail_response and cancel_response: only out of a running status. */
    method Terminate(end: Status) returns (r: Outcome)
      modifies this
      ensures rows == old(rows)
      ensures r.Ok? ==> old(status) == Some(InProgress) && status == Some(end)
      ensures r.Err? ==> status == old(status)
      ensures Charged(old(faults), r, old(status) == Some(InProgress))
    {
      r := Reached();
      if r.Ok? {
        if status != Some(InProgress) {
          return Err(OtherError);
        }
        status := Some(end);
      }
    }
  }

  datatype Chain = Chain(lastReasoning: Option<string>, lastCompaction: Option<string>)
  datatype Draft = Draft(index: nat, lineage: Lineage, state: ReasoningState, main: int, summary: seq<string>,
                         pending: string)

  /** An open item with the summary that was pending. */
  function Closing(d: Draft): Draft {
    if d.pending == "" then d else d.(pending := "", summary := d.summary + [d.pending])
  }

  /** What is published when an open item is closed for good. */
  function ClosingEvents(draft: Option<Draft>): seq<Event> {
    if draft.None? then []
    else
      var d := draft.value;
      (if d.pending == "" then []
       else [ItemPart(d.index, PartDone, |d.summary|, d.pending),
             ItemPart(d.index, PartClosed, |d.summary|, d.pending)])
      + [ItemDone(d.index, ReasoningItem(Closing(d), CutShort))]
  }

  function ReasoningItem(d: Draft, status: ItemStatus): Item {
    Reasoning(d.lineage, d.state, d.main, d.summary, status)
  }

  /** What the handlers of a response can ask of the coordinator. */
  datatype Command =
    | DoEmit(item: Item)
    | DoBegin(id: string, state: ReasoningState, main: int)
    | DoReplace(state: ReasoningState, main: int)
    | DoDelta(text: string)
    | DoSummaryDone
    | DoFinish(state: ReasoningState, main: int)
    | DoEnd(completed: bool)

  /** Whether the response is stored, and whether reasoning can be sealed. */
  datatype Setup = Setup(storing: bool, sealing: bool)

  /**
   What a response has come to in memory; whether the store has it; and how many calls did not come through so far.
   */
  datatype Work = Work(items: seq<Item>, draft: Option<Draft>, chain: Chain, response: Response, accepted: bool,
                       faults: nat)

  /** An open item of the same kind of state. */
  predicate Kin(draft: Option<Draft>, state: ReasoningState) {
    draft.Some? && draft.value.state.Checkpoint? == state.Checkpoint?
  }

  /** What the coordinator refuses, whatever comes through. */
  predicate Able(p: Setup, w: Work, command: Command) {
    match command
    case DoEmit(_) => w.accepted
    case DoBegin(_, _, _) => w.draft.None? && p.sealing && w.accepted
    case DoReplace(state, _) => Kin(w.draft, state) && p.sealing
    case DoDelta(_) => w.draft.Some?
    case DoSummaryDone => w.draft.Some? && p.sealing
    case DoFinish(state, _) => Kin(w.draft, state) && w.draft.value.pending == "" && p.sealing
    case DoEnd(_) => w.draft.None? && (p.storing ==> w.accepted && w.response.status == InProgress)
  }

  /** The open item as the command has it. */
  function Renewed(d: Draft, command: Command): Draft {
    match command
    case DoReplace(state, main) => d.(state := state, main := main)
    case DoDelta(text) => d.(pending := d.pending + text)
    case DoSummaryDone => d.(pending := "", summary := d.summary + [d.pending])
    case DoFinish(state, main) => d.(state := state, main := main)
    case _ => d
  }

  /** The open item is put in its place among the items. */
  function Placed(w: Work, d: Draft, status: ItemStatus): Work {
    w.(draft := Some(d), items := if d.index < |w.items| then w.items[d.index := ReasoningItem(d, status)] else w.items)
  }

  function Begun(w: Work, id: string, state: ReasoningState, main: int): Draft {
    Draft(|w.items|, Lineage(id, if state.Checkpoint? then None else w.chain.lastReasoning, w.chain.lastCompaction),
          state, main, [], "")
  }

  /** What a command makes of it. */
  function Done(w: Work, command: Command): Work {
    match command
    case DoEmit(item) => w.(items := w.items + [item])
    case DoBegin(id, state, main) =>
      var d := Begun(w, id, state, main);
      w.(items := w.items + [ReasoningItem(d, Started)], draft := Some(d))
    case DoEnd(completed) => w.(response := Response(if completed then Completed else Incomplete, w.items))
    case _ =>
      if w.draft.None? then w
      else
        var d := Renewed(w.draft.value, command);
        if command.DoDelta? then w.(draft := Some(d))
        else if command.DoFinish? then
          Placed(w, d, Finished).(draft := None, chain := w.chain.(lastReasoning := Some(d.lineage.itemId)))
        else Placed(w, d, Started)
  }

  /**
   What a command that failed can leave: nothing done; all done but not all of it announced; or the open item renewed
   and perhaps put in its place, but neither stored nor closed.
   */
  predicate Left(p: Setup, w: Work, command: Command, v: Work) {
    || v == w
    || (Able(p, w, command) && !command.DoReplace? && !command.DoFinish? && v == Done(w, command))
    || (w.draft.Some? && (command.DoReplace? || command.DoFinish? || command.DoSummaryDone?)
        && (Able(p, w, command) || !p.sealing) && v == w.(draft := Some(Renewed(w.draft.value, command))))
    || (w.draft.Some? && command.DoFinish? && Able(p, w, command)
        && v == Placed(w, Renewed(w.draft.value, command), Finished))
  }

  /** What a refusal raises, or a call that does not come through. */
  predicate Raised(e: Error) {
    e in {CancelledError, OtherError}
  }

  /** A response can be cancelled, and can fail, while it runs. */
  predicate Endable(p: Setup, w: Work) {
    (w.draft.Some? ==> p.sealing) && (p.storing ==> w.accepted && w.response.status == InProgress)
  }

  /** Cancelled, with an open item as it is. */
  function AsCancelled(w: Work): Work {
    var closed := if w.draft.None? then w else Placed(w, w.draft.value, Started).(draft := None);
    closed.(response := Response(Cancelled, closed.items))
  }

  /** Failed, with an open item cut short. */
  function AsFailed(w: Work): Work {
    var closed := if w.draft.None? then w
                  else Placed(w, Closing(w.draft.value), CutShort).(
                      draft := None, chain := w.chain.(lastReasoning := Some(w.draft.value.lineage.itemId)));
    closed.(response := Response(Failed, closed.items))
  }

  /** A command has its effect, or fails: where it was able to succeed, by a fault. */
  predicate Took(p: Setup, w: Work, command: Command, ok: bool, v: Work) {
    if ok then Able(p, w, command) && v == Done(w, command)
    else
      && w.faults <= v.faults && (Able(p, w, command) ==> w.faults < v.faults)
      && Left(p, w, command, v.(faults := w.faults))
  }

  class Coordinator {
    const store: ResponseStore
    /** Whether the request is stored, and whether there is a keyring to seal reasoning with. */
    const storing: bool
    const sealing: bool

    var response: Response
    var items: seq<Item>
    var chain: Chain
    var draft: Option<Draft>
    var sequenceNumber: nat
    /** What reached the channel. */
    var published: seq<Published>
    /** Some event did not; some open item was dropped without one. */
    ghost var lost: bool
    ghost var dropped: bool
    /** How many did not. */
    ghost var unsent: nat

    ghost function Open(): Option<nat>
      reads this`draft
    {
      if draft.None? then None else Some(draft.value.index)
    }

    ghost predicate DraftValid()
      reads this`draft, this`items
    {
      draft.Some? ==>
        draft.value.index < |items| && items[draft.value.index].Reasoning?
          && items[draft.value.index].lineage == draft.value.lineage
    }

    /** Storage agrees with memory: same rows, except perhaps at the open item, and same status. */
    ghost predicate StoreAgrees()
      reads this`items, this`draft, this`response, store`status, store`rows
    {
      && (store.status == None ==> items == [] && response.status == InProgress)
      && (store.status != None ==> store.status == Some(response.status))
      && Stored(store.rows, items, Open())
    }

    /** No more than one terminal event has been published; of a stored response there never is. */
    ghost predicate Once()
      reads this`published
    {
      Endings(published) <= 1
    }

    /** The events agree with memory, and an ended response has said so. */
    ghost predicate EventsAgree()
      reads this
    {
      && Follows(Fold(published), items, Open(), response, Once(), !lost && !dropped)
      && (!lost && response.status != InProgress ==> Fold(published).ended)
      && (storing ==> Endings(published) <= 1)
    }

    ghost predicate Numbered()
      reads this`published, this`sequenceNumber, this`lost
    {
      && |published| <= sequenceNumber
      && (forall k | 0 <= k < |published| :: k < published[k].number <= sequenceNumber)
      && (!lost ==> |published| == sequenceNumber && forall k | 0 <= k < |published| :: published[k].number == k + 1)
    }

    /** The calls that did not come through, to the store or to the channel. */
    ghost function Faults(): nat
      reads this`unsent, store`faults
    {
      store.faults + unsent
    }

    /** What is able to succeed fails by a fault alone, and what succeeds has met with none. */
    ghost predicate Charged(before: nat, r: Outcome, able: bool)
      reads this`unsent, store`faults
    {
      && before <= Faults() && (r.Ok? ==> Faults() == before && able) && (r.Err? && able ==> before < Faults())
      && (r.Err? ==> r.error in {CancelledError, OtherError})
    }

    /** The store, if there is one, has the response. */
    ghost predicate Accepted()
      reads store`status
    {
      storing ==> store.status.Some?
    }

    ghost function Now(): Work
      reads this`items, this`draft, this`chain, this`response, this`unsent, store`status, store`faults
    {
      Work(items, draft, chain, response, Accepted(), Faults())
    }

    ghost function Config(): Setup {
      Setup(storing, sealing)
    }


    ghost predicate Valid()
      reads this, store
    {
      DraftValid() && (storing ==> StoreAgrees()) && EventsAgree() && Numbered()
    }

    constructor (storing: bool, sealing: bool, chain: Chain)
      ensures Valid() && fresh(store) && response == Response(InProgress, []) && items == [] && published == []
        && draft == None
      ensures this.storing == storing && this.sealing == sealing && !lost && !dropped
      ensures this.chain == chain && Faults() == 0 && store.status == None
    {
      this.storing, this.sealing, this.chain := storing, sealing, chain;
      store := new ResponseStore();
      response, items, draft := Response(InProgress, []), [], None;
      sequenceNumber, published, lost, dropped, unsent := 0, [], false, false, 0;
    }

    method Publish(e: Event) returns (r: Outcome)
      requires Numbered()
      modifies this`sequenceNumber, this`published, this`lost, this`unsent
      ensures Numbered() && (old(lost) ==> lost) && Charged(old(Faults()), r, true)
      ensures r.Ok? ==>
        && published == old(published) + [Published(sequenceNumber, e)] && lost == old(lost)
        && Fold(published) == See(old(Fold(published)), e) && Bare(published) == old(Bare(published)) + [e]
        && Endings(published) == old(Endings(published)) + if e.Ended? then 1 else 0
      ensures r.Err? ==> published == old(published) && lost
    {
      sequenceNumber := sequenceNumber + 1;
      r := ResponseStore.Call();
      if r.Ok? {
        FoldNext(published, Published(sequenceNumber, e));
        EndingsNext(published, Published(sequenceNumber, e));
        BareNext(published, Published(sequenceNumber, e));
        published := published + [Published(sequenceNumber, e)];
      } else {
        lost, unsent := true, unsent + 1;
      }
    }

    method AppendItem(item: Item) returns (r: Outcome)
      requires storing ==> StoreAgrees()
      modifies this`items, store
      ensures storing ==> StoreAgrees() && store.status == old(store.status)
      ensures items == if r.Ok? then old(items) + [item] else old(items)
      ensures Charged(old(Faults()), r, Accepted())
    {
      if storing {
        r := store.AppendOutputItem(|items|, item);
        if r.Err? {
          return;
        }
        StoredAppend(old(store.rows), items, Open(), item);
      }
      items := items + [item];
      r := Ok(());
    }

    /** Replaces the open item, which then is stored as it is. */
    method ReplaceItem(index: nat, item: Item) returns (r: Outcome)
      requires index < |items| && Open() == Some(index) && (storing ==> StoreAgrees())
      modifies this`items, store
      ensures storing ==> StoreAgrees() && (r.Ok? ==> Stored(store.rows, items, None))
      ensures storing ==> store.status == old(store.status)
      ensures items == if r.Ok? then old(items)[index := item] else old(items)
      ensures Charged(old(Faults()), r, true)
    {
      if storing {
        r := store.ReplaceOutputItem(index, item);
        if r.Err? {
          return;
        }
        StoredReplace(old(store.rows), items, Open(), index, item);
      }
      items := items[index := item];
      r := Ok(());
    }

    method PublishPart(index: nat, part: Part, position: nat, text: string) returns (r: Outcome)
      requires Numbered()
      modifies this`sequenceNumber, this`published, this`lost, this`unsent
      ensures Numbered() && (old(lost) ==> lost) && (r.Ok? ==> lost == old(lost)) && (r.Err? ==> lost)
      ensures Charged(old(Faults()), r, true)
      ensures Fold(published) == old(Fold(published)) && Endings(published) == old(Endings(published))
      ensures r.Ok? ==> Bare(published) == old(Bare(published)) + [ItemPart(index, part, position, text)]
    {
      r := Publish(ItemPart(index, part, position, text));
    }

    /** A part is done and closed. */
    method PublishPartEnd(index: nat, position: nat, text: string) returns (r: Outcome)
      requires Numbered()
      modifies this`sequenceNumber, this`published, this`lost, this`unsent
      ensures Numbered() && (old(lost) ==> lost) && (r.Ok? ==> lost == old(lost)) && (r.Err? ==> lost)
      ensures Charged(old(Faults()), r, true)
      ensures Fold(published) == old(Fold(published)) && Endings(published) == old(Endings(published))
      ensures r.Ok? ==>
        Bare(published) == old(Bare(published))
          + [ItemPart(index, PartDone, position, text), ItemPart(index, PartClosed, position, text)]
    {
      hide Fold, Endings, Bare, Numbered;
      r := PublishPart(index, PartDone, position, text);
      if r.Err? { return; }
      r := PublishPart(index, PartClosed, position, text);
    }

    method EmitReasoningEvents(index: nat, summary: seq<string>) returns (r: Outcome)
      requires Numbered()
      modifies this`sequenceNumber, this`published, this`lost, this`unsent
      ensures Numbered() && (old(lost) ==> lost) && (r.Ok? ==> lost == old(lost)) && (r.Err? ==> lost)
      ensures Charged(old(Faults()), r, true)
      ensures Fold(published) == old(Fold(published)) && Endings(published) == old(Endings(published))
      ensures r.Ok? ==> Bare(published) == old(Bare(published)) + SummaryEvents(index, summary)
    {
      hide Fold, Endings, Bare, Numbered;
      r := Ok(());
      for i := 0 to |summary|
        invariant r.Ok? && Numbered() && lost == old(lost) && Faults() == old(Faults())
        invariant Fold(published) == old(Fold(published)) && Endings(published) == old(Endings(published))
        invariant Bare(published) == old(Bare(published)) + SummaryEvents(index, summary[..i])
      {
        assert summary[..i + 1][..i] == summary[..i];
        r := PublishPart(index, PartAdded, i, summary[i]);
        if r.Err? { return; }
        r := PublishPart(index, PartDelta, i, summary[i]);
        if r.Err? { return; }
        r := PublishPart(index, PartDone, i, summary[i]);
        if r.Err? { return; }
        r := PublishPart(index, PartClosed, i, summary[i]);
        if r.Err? { return; }
      }
      assert summary[..|summary|] == summary;
    }

    method EmitAnnotations(index: nat, annotations: seq<string>) returns (r: Outcome)
      requires Numbered()
      modifies this`sequenceNumber, this`published, this`lost, this`unsent
      ensures Numbered() && (old(lost) ==> lost) && (r.Ok? ==> lost == old(lost)) && (r.Err? ==> lost)
      ensures Charged(old(Faults()), r, true)
      ensures Fold(published) == old(Fold(published)) && Endings(published) == old(Endings(published))
      ensures r.Ok? ==> Bare(published) == old(Bare(published)) + AnnotationEvents(index, annotations)
    {
      hide Fold, Endings, Bare, Numbered;
      r := Ok(());
      for j := 0 to |annotations|
        invariant r.Ok? && Numbered() && lost == old(lost) && Faults() == old(Faults())
        invariant Fold(published) == old(Fold(published)) && Endings(published) == old(Endings(published))
        invariant Bare(published) == old(Bare(published)) + AnnotationEvents(index, annotations[..j])
      {
        assert annotations[..j + 1][..j] == annotations[..j];
        r := PublishPart(index, PartAnnotated, j, annotations[j]);
        if r.Err? { return; }
      }
      assert annotations[..|annotations|] == annotations;
    }

    method EmitContentEvents(index: nat, i: nat, part: Content) returns (r: Outcome)
      requires Numbered()
      modifies this`sequenceNumber, this`published, this`lost, this`unsent
      ensures Numbered() && (old(lost) ==> lost) && (r.Ok? ==> lost == old(lost)) && (r.Err? ==> lost)
      ensures Charged(old(Faults()), r, true)
      ensures Fold(published) == old(Fold(published)) && Endings(published) == old(Endings(published))
      ensures r.Ok? ==> Bare(published) == old(Bare(published)) + ContentEvents(index, i, part)
    {
      hide Fold, Endings, Bare, Numbered;
      var text := ContentText(part);
      r := PublishPart(index, PartAdded, i, text);
      if r.Err? { return; }
      if part.TextContent? {
        r := EmitAnnotations(index, part.annotations);
        if r.Err? { return; }
      }
      r := PublishPart(index, PartDelta, i, text);
      if r.Err? { return; }
      r := PublishPart(index, PartDone, i, text);
      if r.Err? { return; }
      r := PublishPart(index, PartClosed, i, text);
    }

    method EmitMessageEvents(index: nat, content: seq<Content>) returns (r: Outcome)
      requires Numbered()
      modifies this`sequenceNumber, this`published, this`lost, this`unsent
      ensures Numbered() && (old(lost) ==> lost) && (r.Ok? ==> lost == old(lost)) && (r.Err? ==> lost)
      ensures Charged(old(Faults()), r, true)
      ensures Fold(published) == old(Fold(published)) && Endings(published) == old(Endings(published))
      ensures r.Ok? ==> Bare(published) == old(Bare(published)) + MessageEvents(index, content)
    {
      hide Fold, Endings, Bare, Numbered, ContentEvents;
      r := Ok(());
      for i := 0 to |content|
        invariant r.Ok? && Numbered() && lost == old(lost) && Faults() == old(Faults())
        invariant Fold(published) == old(Fold(published)) && Endings(published) == old(Endings(published))
        invariant Bare(published) == old(Bare(published)) + MessageEvents(index, content[..i])
      {
        assert content[..i + 1][..i] == content[..i];
        r := EmitContentEvents(index, i, content[i]);
        if r.Err? { return; }
      }
      assert content[..|content|] == content;
    }

    method EmitPartEvents(item: Item, index: nat) returns (r: Outcome)
      requires Numbered()
      modifies this`sequenceNumber, this`published, this`lost, this`unsent
      ensures Numbered() && (old(lost) ==> lost) && (r.Ok? ==> lost == old(lost)) && (r.Err? ==> lost)
      ensures Charged(old(Faults()), r, true)
      ensures Fold(published) == old(Fold(published)) && Endings(published) == old(Endings(published))
      ensures r.Ok? ==> Bare(published) == old(Bare(published)) + PartEvents(index, item)
    {
      hide Fold, Endings, Bare, Numbered, SummaryEvents, MessageEvents;
      match item {
        case Reasoning(_, _, _, summary, _) =>
          r := EmitReasoningEvents(index, summary);
        case FunctionCall(_, _, arguments) =>
          r := PublishPart(index, PartDelta, 0, arguments);
          if r.Err? { return; }
          r := PublishPart(index, PartDone, 0, arguments);
        case MessageItem(_, content) =>
          r := EmitMessageEvents(index, content);
      }
    }

    /** Publishes an item that has just been appended, from added to done. */
    method EmitItemEvents(item: Item, index: nat) returns (r: Outcome)
      requires |items| == index + 1 && items[index] == item && Open() != Some(index) && Numbered()
      requires Follows(Fold(published), items[..index], Open(), response, Once(), !lost && !dropped)
      requires !lost && response.status != InProgress ==> Fold(published).ended
      requires storing ==> Endings(published) <= 1
      modifies this`sequenceNumber, this`published, this`lost, this`unsent
      ensures EventsAgree() && Numbered() && Charged(old(Faults()), r, true)
      ensures r.Ok? ==> Bare(published) == old(Bare(published)) + ItemEvents(index, item)
    {
      hide Fold, Endings, See, Bare, PartEvents, Numbered, Agree;
      assert items[..index] + [item] == items;
      FollowsAdded(Fold(published), items[..index], Open(), response, Once(), !lost && !dropped, item);
      r := Publish(ItemAdded(index, item));
      if r.Err? { return; }
      r := EmitPartEvents(item, index);
      if r.Err? { return; }
      FollowsDone(Fold(published), items, Open(), response, Once(), !lost && !dropped, index);
      r := Publish(ItemDone(index, item));
    }

    /** Terminal in the store and in memory, with the status of the end and the items as output, and nothing open. */
    ghost predicate Settled(end: Status)
      reads this, store
    {
      && response == Response(end, items) && draft == None
      && (storing ==> store.status == Some(end) && Stored(store.rows, items, None))
    }

    /** Persists the failure; only a running response can fail. */
    method PersistFailed() returns (r: Outcome)
      requires storing ==> StoreAgrees()
      modifies this`response, store
      ensures storing ==> StoreAgrees()
      ensures r.Ok? ==> response == Response(Failed, items) && (storing ==> old(store.status) == Some(InProgress))
      ensures r.Err? ==> response == old(response)
      ensures storing ==> store.rows == old(store.rows) && (r.Err? ==> store.status == old(store.status))
      ensures Faults() >= old(Faults())
    {
      if storing {
        r := store.Terminate(Failed);
        if r.Err? { return; }
      }
      response := Response(Failed, items);
      r := Ok(());
    }

    /** Has the response stored, and announces it. */
    method Accept() returns (r: Outcome, persisted: bool)
      requires Valid() && response.status == InProgress && items == [] && draft == None
      modifies this`sequenceNumber, this`published, this`lost, this`unsent, store
      ensures Valid() && Charged(old(Faults()), r, storing ==> old(store.status) == None)
      ensures r.Ok? ==> Accepted() && Bare(published) == old(Bare(published)) + [Created(Response(InProgress, []))]
      ensures r.Err? ==> published == old(published)
      ensures persisted ==> storing && store.status == Some(InProgress)
      ensures storing ==> store.status == if persisted then Some(InProgress) else old(store.status)
      ensures if r.Ok? then persisted == storing else persisted ==> lost
    {
      hide Fold, Endings, Bare, Agree;
      persisted := false;
      if storing {
        assert old(store.status) == None ==> store.rows == map[];
        r := store.Begin(Response(response.status, items));
        if r.Err? { return; }
        persisted := true;
      }
      r := Publish(Created(Response(response.status, items)));
    }

    /** Accepts the response; when that cannot be told, what was stored is failed again. */
    method CreatedResponse() returns (r: Outcome)
      requires Valid() && response.status == InProgress && items == [] && draft == None
      modifies this, store
      ensures Valid() && items == [] && draft == None && (dropped <==> old(dropped))
      ensures r.Ok? ==> response.status == InProgress && (storing ==> store.status == Some(InProgress))
      ensures r.Ok? ==> Bare(published) == old(Bare(published)) + [Created(Response(InProgress, []))]
      ensures r.Ok? ==> Accepted() && response == old(response)
      ensures chain == old(chain) && Faults() >= old(Faults()) && (r.Ok? ==> Faults() == old(Faults()))
      ensures r.Err? && (storing ==> old(store.status) == None) ==> Faults() > old(Faults())
      ensures r.Err? ==>
        && published == old(published)
        && r.error in {CancelledError, FinalizationError(ACCEPTANCE_FAILED), FinalizationError(COMPENSATION_FAILED)}
      ensures r == Err(FinalizationError(ACCEPTANCE_FAILED)) ==>
        if storing && store.status != old(store.status) then Settled(Failed) else response == old(response)
      ensures r == Err(FinalizationError(COMPENSATION_FAILED)) ==>
        storing && response == old(response) && store.status == Some(InProgress)
    {
      var persisted;
      r, persisted := Accept();
      if r.Err? && r.error != CancelledError {
        r := Err(FinalizationError(ACCEPTANCE_FAILED));
        if persisted {
          var failed := PersistFailed();
          if failed.Err? {
            r := if failed.error == CancelledError then failed else Err(FinalizationError(COMPENSATION_FAILED));
          }
        }
      }
    }

    method InProgressResponse() returns (r: Outcome)
      requires Valid()
      modifies this`sequenceNumber, this`published, this`lost, this`unsent
      ensures Valid() && Charged(old(Faults()), r, true)
      ensures r.Ok? ==> Bare(published) == old(Bare(published)) + [Running(Response(response.status, items))]
    {
      hide Fold, Endings, Stored, Bare, Agree;
      r := Publish(Running(Response(response.status, items)));
    }

    method Emit(item: Item) returns (r: Outcome)
      requires Valid()
      modifies this, store
      ensures Valid() && response == old(response) && draft == old(draft) && (dropped <==> old(dropped))
      ensures old(items) <= items && (r.Ok? ==> items == old(items) + [item])
      ensures Took(Config(), old(Now()), DoEmit(item), r.Ok?, Now())
      ensures Charged(old(Faults()), r, old(Accepted()))
      ensures r.Ok? ==> Bare(published) == old(Bare(published)) + ItemEvents(|items| - 1, item)
    {
      hide Fold, See, Endings, Stored, Bare, Agree, Follows, Numbered, ItemEvents;
      r := AppendItem(item);
      if r.Err? { return; }
      assert items[..|items| - 1] == old(items);
      assert items[|items| - 1] == item;
      r := EmitItemEvents(item, |items| - 1);
    }

    /** Appends the item of a draft, which then is open, and announces it. */
    method OpenDraft(d: Draft) returns (r: Outcome)
      requires Valid() && draft == None && d.index == |items|
      modifies this, store
      ensures Valid() && response == old(response) && chain == old(chain) && (dropped <==> old(dropped))
      ensures Charged(old(Faults()), r, old(Accepted())) && Accepted() == old(Accepted())
      ensures
        || (draft == Some(d) && items == old(items) + [ReasoningItem(d, Started)] && old(Accepted()))
        || (r.Err? && draft == None && items == old(items))
      ensures r.Ok? ==> draft == Some(d) &&
                        Bare(published) == old(Bare(published)) + [ItemAdded(d.index, ReasoningItem(d, Started))]
    {
      hide Fold, See, Endings, Stored, Bare, Agree, Numbered;
      var item := ReasoningItem(d, Started);
      FollowsAdded(Fold(published), items, Open(), response, Once(), !lost && !dropped, item);
      r := AppendItem(item);
      if r.Err? { return; }
      Opening(See(Fold(published), ItemAdded(d.index, item)), store.rows, items, d.index, response, Once(),
              !lost && !dropped);
      draft := Some(d);
      r := Publish(ItemAdded(d.index, item));
    }

    /** Starts a reasoning item behind the last one, unless it is a checkpoint. */
    method BeginReasoning(id: string, state: ReasoningState, main: int) returns (r: Outcome)
      requires Valid()
      modifies this, store
      ensures Valid() && response == old(response) && chain == old(chain) && (dropped <==> old(dropped))
      ensures old(draft).Some? || !sealing ==>
        r == Err(OtherError) && items == old(items) && published == old(published)
      ensures r.Ok? ==>
        && draft.Some? && items == old(items) + [ReasoningItem(draft.value, Started)]
        && draft.value.lineage == Lineage(id,
                                          if state.Checkpoint?
                                            then None else old(chain).lastReasoning, old(chain).lastCompaction)
        && draft.value == Draft(|old(items)|, draft.value.lineage, state, main, [], "")
        && Bare(published) == old(Bare(published)) + [ItemAdded(draft.value.index, ReasoningItem(draft.value, Started))]
      ensures Took(Config(), old(Now()), DoBegin(id, state, main), r.Ok?, Now())
      ensures Charged(old(Faults()), r, old(draft).None? && sealing && old(Accepted()))
    {
      hide Fold, See, Endings, Stored, Bare, Agree, Numbered, Renewed, Coordinator.Valid;
      if draft.Some? || !sealing {
        return Err(OtherError);
      }
      var lineage := Lineage(id, if state.Checkpoint? then None else chain.lastReasoning, chain.lastCompaction);
      var d := Draft(|items|, lineage, state, main, [], "");
      r := OpenDraft(d);
    }

    method ReplaceReasoning(state: ReasoningState, main: int) returns (r: Outcome)
      requires Valid()
      modifies this, store
      ensures Valid() && response == old(response) && published == old(published) && (dropped <==> old(dropped))
      ensures old(draft).None? || old(draft).value.state.Checkpoint? != state.Checkpoint? ==>
        r == Err(OtherError) && items == old(items)
      ensures r.Ok? ==>
        && draft.Some? && old(draft).Some? && draft.value == old(draft).value.(state := state, main := main)
        && items == old(items)[old(draft).value.index := ReasoningItem(draft.value, Started)]
      ensures Took(Config(), old(Now()), DoReplace(state, main), r.Ok?, Now())
      ensures Charged(old(Faults()), r,
                      old(draft).Some? && old(draft).value.state.Checkpoint? == state.Checkpoint? && sealing)
    {
      hide Numbered, See;
      if draft.None? || draft.value.state.Checkpoint? != state.Checkpoint? {
        return Err(OtherError);
      }
      draft := Some(draft.value.(state := state, main := main));
      if !sealing {
        return Err(OtherError);
      }
      var d := draft.value;
      FollowsChange(Fold(published), items, d.index, ReasoningItem(d, Started), response, Once(), !lost && !dropped);
      r := ReplaceItem(d.index, ReasoningItem(d, Started));
    }

    method SummaryDelta(text: string) returns (r: Outcome)
      requires Valid()
      modifies this
      ensures Valid() && response == old(response) && items == old(items) && (dropped <==> old(dropped))
      ensures r.Ok? ==>
        && old(draft).Some? && draft == Some(old(draft).value.(pending := old(draft).value.pending + text))
        && (var (i, k) := (draft.value.index, |draft.value.summary|);
            Bare(published) == old(Bare(published))
              + (if old(draft).value.pending == "" then [ItemPart(i, PartAdded, k, "")] else [])
                + [ItemPart(i, PartDelta, k, text)])
      ensures Took(Config(), old(Now()), DoDelta(text), r.Ok?, Now())
      ensures Charged(old(Faults()), r, old(draft).Some?)
    {
      hide Fold, See, Endings, Stored, Bare, Agree;
      if draft.None? {
        return Err(OtherError);
      }
      var d := draft.value;
      if d.pending == "" {
        r := PublishPart(d.index, PartAdded, |d.summary|, "");
        if r.Err? { return; }
      }
      draft := Some(d.(pending := d.pending + text));
      r := PublishPart(d.index, PartDelta, |d.summary|, text);
    }

    /** The pending text becomes a part of the open item, in memory alone. */
    method SummaryDone() returns (r: Outcome)
      requires Valid()
      modifies this
      ensures Valid() && response == old(response) && (dropped <==> old(dropped))
        && Endings(published) == old(Endings(published))
      ensures r.Ok? ==>
        && old(draft).Some?
        && draft == Some(old(draft).value.(pending := "",
                                           summary := old(draft).value.summary + [old(draft).value.pending]))
        && items == old(items)[old(draft).value.index := ReasoningItem(draft.value, Started)]
        && (var (i, k, text) := (draft.value.index, |old(draft).value.summary|, old(draft).value.pending);
            Bare(published) == old(Bare(published))
              + [ItemPart(i, PartDone, k, text), ItemPart(i, PartClosed, k, text)])
      ensures Took(Config(), old(Now()), DoSummaryDone, r.Ok?, Now())
      ensures Charged(old(Faults()), r, old(draft).Some? && sealing)
    {
      hide Fold, See, Endings, Bare, Agree;
      if draft.None? {
        return Err(OtherError);
      }
      var text := draft.value.pending;
      draft := Some(draft.value.(pending := "", summary := draft.value.summary + [text]));
      if !sealing {
        return Err(OtherError);
      }
      var d := draft.value;
      FollowsChange(Fold(published), items, d.index, ReasoningItem(d, Started), response, Once(), !lost && !dropped);
      items := items[d.index := ReasoningItem(d, Started)];
      r := PublishPartEnd(d.index, |d.summary| - 1, text);
    }

    /** Closes the open item: stored as it is, announced as done, and next in the chain. */
    method FinishDraft(status: ItemStatus) returns (r: Outcome)
      requires Valid() && draft.Some?
      modifies this, store
      ensures Valid() && response == old(response) && (dropped <==> old(dropped))
        && Endings(published) == old(Endings(published))
      ensures r.Ok? ==>
        && draft == None && items == old(items)[old(draft).value.index := ReasoningItem(old(draft).value, status)]
        && chain == old(chain).(lastReasoning := Some(old(draft).value.lineage.itemId))
        && Bare(published) == old(Bare(published))
          + [ItemDone(old(draft).value.index, ReasoningItem(old(draft).value, status))]
      ensures r.Ok? && storing ==> Stored(store.rows, items, None)
      ensures Charged(old(Faults()), r, sealing) && Accepted() == old(Accepted())
      ensures r.Err? ==> draft == old(draft) && chain == old(chain)
      ensures r.Err? ==> items == old(items) ||
                         (sealing && items == old(items)[old(draft).value.index := ReasoningItem(old(draft).value,
                             status)])
    {
      hide Fold, See, Endings, Stored, Bare, Agree, Numbered;
      if !sealing {
        return Err(OtherError);
      }
      var d := draft.value;
      var item := ReasoningItem(d, status);
      FollowsChange(Fold(published), items, d.index, item, response, Once(), !lost && !dropped);
      r := ReplaceItem(d.index, item);
      if r.Err? { return; }
      FollowsDone(Fold(published), items, Some(d.index), response, Once(), !lost && !dropped, d.index);
      r := Publish(ItemDone(d.index, item));
      if r.Err? { return; }
      chain := chain.(lastReasoning := Some(d.lineage.itemId));
      draft := None;
    }

    method FinishReasoning(state: ReasoningState, main: int) returns (r: Outcome)
      requires Valid()
      modifies this, store
      ensures Valid() && response == old(response) && (dropped <==> old(dropped))
      ensures
        (old(draft).None? || old(draft).value.pending != ""
         || old(draft).value.state.Checkpoint? != state.Checkpoint?) ==>
        r == Err(OtherError) && items == old(items)
      ensures r.Ok? ==>
        && old(draft).Some? && draft == None
        && items == old(items)[old(draft).value.index := ReasoningItem(old(draft).value.(state := state,
            main := main), Finished)]
      ensures Took(Config(), old(Now()), DoFinish(state, main), r.Ok?, Now())
      ensures Charged(old(Faults()), r,
                      old(draft).Some? && old(draft).value.pending == "" &&
                      old(draft).value.state.Checkpoint? == state.Checkpoint? && sealing)
    {
      if draft.None? || draft.value.pending != "" || draft.value.state.Checkpoint? != state.Checkpoint? {
        return Err(OtherError);
      }
      draft := Some(draft.value.(state := state, main := main));
      r := FinishDraft(Finished);
    }

    /** What ends a response: its status in the store, where it has to be running, then in memory, then an event. */
    method Conclude(end: Status) returns (r: Outcome)
      requires Valid() && draft == None && end != InProgress
      modifies this`response, this`sequenceNumber, this`published, this`lost, this`unsent, store
      ensures Valid()
      ensures storing && old(response.status) != InProgress ==>
        r.Err? && response == old(response) && published == old(published)
      ensures r.Ok? ==> Settled(end) && published == old(published) + [Published(sequenceNumber, Ended(response))]
      ensures r.Err? ==> response == old(response) || (lost && Settled(end))
      ensures Charged(old(Faults()), r, storing ==> old(Accepted()) && old(response.status) == InProgress)
      ensures Accepted() == old(Accepted())
      ensures storing && old(response.status) != InProgress ==> Faults() >= old(Faults()) && response == old(response)
    {
      hide Fold, See, Endings, Stored, Bare;
      if storing {
        r := store.Terminate(end);
        if r.Err? { return; }
      }
      EndedHasEnding(published);
      ghost var v, clean := Fold(published), !lost && !dropped;
      assert Follows(v, items, None, response, Once(), clean);
      FollowsEnd(v, items, response, Response(end, items), Endings(published) == 0, clean);
      response := Response(end, items);
      r := Publish(Ended(response));
    }

    /** completed and incomplete: not while an item is open, and for a stored response only once. */
    method Finish(end: Status) returns (r: Outcome)
      requires Valid() && (end == Completed || end == Incomplete)
      modifies this, store
      ensures Valid() && items == old(items) && draft == old(draft) && (dropped <==> old(dropped))
      ensures old(draft).Some? || (storing && old(response.status) != InProgress) ==>
        r.Err? && response == old(response) && published == old(published)
      ensures r.Ok? ==> Settled(end) && published == old(published) + [Published(sequenceNumber, Ended(response))]
      ensures r.Err? ==> response == old(response) || (lost && Settled(end))
      ensures Took(Config(), old(Now()), DoEnd(end == Completed), r.Ok?, Now())
      ensures Charged(old(Faults()), r,
                      old(draft).None? && (storing ==> old(Accepted()) && old(response.status) == InProgress))
    {
      if draft.Some? {
        return Err(OtherError);
      }
      r := Conclude(end);
    }

    /** An open item is stored as it is, with no event. */
    method CancelledResponse() returns (r: Outcome)
      requires Valid()
      modifies this, store
      ensures Valid() && (dropped ==> old(dropped) || old(draft).Some?)
      ensures storing && old(response.status) != InProgress ==>
        r.Err? && response == old(response) && published == old(published)
      ensures r.Ok? ==> Settled(Cancelled) && published == old(published) + [Published(sequenceNumber, Ended(response))]
      ensures r.Err? ==> response == old(response) || (lost && Settled(Cancelled))
      ensures Charged(old(Faults()), r, Endable(Config(), old(Now())))
      ensures var closed := if old(draft).None? then old(items)
          else old(items)[old(draft).value.index := ReasoningItem(old(draft).value, Started)];
        items == closed || (r.Err? && items == old(items))
      ensures r.Ok? ==> Now() == AsCancelled(old(Now()))
    {
      hide Fold, Stored, Numbered, Endings, Agree, ReasoningItem;
      if draft.Some? {
        if !sealing {
          return Err(OtherError);
        }
        var d := draft.value;
        FollowsChange(Fold(published), items, d.index, ReasoningItem(d, Started), response, Once(), !lost && !dropped);
        r := ReplaceItem(d.index, ReasoningItem(d, Started));
        if r.Err? { return; }
        draft, dropped := None, true;
      }
      r := Conclude(Cancelled);
    }

    /** An open item is closed first, with whatever summary is pending. */
    method FailedResponse() returns (r: Outcome)
      requires Valid()
      modifies this, store
      ensures Valid() && (dropped <==> old(dropped))
      ensures storing && old(response.status) != InProgress ==>
        r.Err? && response == old(response) && Endings(published) == old(Endings(published))
      ensures r.Ok? ==>
        Settled(Failed) && |published| > 0 && published[|published| - 1] == Published(sequenceNumber, Ended(response))
      ensures r.Err? ==> response == old(response) || (lost && Settled(Failed))
      ensures Charged(old(Faults()), r, Endable(Config(), old(Now())))
      ensures r.Ok? ==>
        && items == (if old(draft).None? then old(items)
                     else old(items)[old(draft).value.index := ReasoningItem(Closing(old(draft).value), CutShort)])
        && Bare(published) == old(Bare(published)) + ClosingEvents(old(draft)) + [Ended(response)]
      ensures r.Ok? ==> Now() == AsFailed(old(Now()))
    {
      hide Fold, See, Endings, Stored, Bare, Agree;
      if draft.Some? {
        if draft.value.pending != "" {
          r := SummaryDone();
          if r.Err? { return; }
        }
        r := FinishDraft(CutShort);
        if r.Err? { return; }
      }
      ghost var before := published;
      r := Conclude(Failed);
      if r.Ok? {
        BareNext(before, Published(sequenceNumber, Ended(response)));
      }
    }
  }

  /******* The driver *******/

  /** Calls in order, each with whether what it raises goes unhandled, and what is raised in the end. */
  datatype Script = Script(calls: seq<(Command, bool)>, raised: Outcome)

  /** How a script went: whether each call it made succeeded, and what the response had come to before and after it. */
  datatype Trace = Trace(oks: seq<bool>, works: seq<Work>)

  /** The calls were made in order, up to one that failed and went unhandled; each had its effect or failed. */
  ghost predicate Drove(p: Setup, script: Script, t: Trace, r: Outcome) {
    var n := |t.oks|;
    && |t.works| == n + 1 && n <= |script.calls|
    && (forall k | 0 <= k < n :: Took(p, t.works[k], script.calls[k].0, t.oks[k], t.works[k + 1]))
    && (forall k | 0 <= k < n - 1 :: t.oks[k] || !script.calls[k].1)
    && if n > 0 && !t.oks[n - 1] && script.calls[n - 1].1 then r.Err? && Raised(r.error)
       else n == |script.calls| && r == script.raised
  }

  ghost function Final(t: Trace): Work
    requires t.works != []
  {
    t.works[|t.works| - 1]
  }

  /******* What a script makes of a response *******/

  /** Faults are only ever added. */
  lemma {:induction false} FaultsGrow(p: Setup, script: Script, t: Trace, r: Outcome, i: nat, j: nat)
    requires Drove(p, script, t, r) && i <= j <= |t.oks|
    ensures t.works[i].faults <= t.works[j].faults
    decreases j
  {
    if i < j {
      FaultsGrow(p, script, t, r, i, j - 1);
      assert Took(p, t.works[j - 1], script.calls[j - 1].0, t.oks[j - 1], t.works[j]);
    }
  }

  /** Only an end changes the response, and of a stored one only while it runs. */
  lemma ResponseChanges(p: Setup, w: Work, command: Command, ok: bool, v: Work)
    requires Took(p, w, command, ok, v)
    ensures v.response != w.response || (ok && command.DoEnd?) ==>
      && command.DoEnd? && (p.storing ==> w.response.status == InProgress)
      && v.response == Response(if command.completed then Completed else Incomplete, w.items)
  {
  }

  /** Once a stored response has ended, it stays as it is. */
  lemma {:induction false} EndedStays(p: Setup, script: Script, t: Trace, r: Outcome, i: nat, j: nat)
    requires Drove(p, script, t, r) && i <= j <= |t.oks| && p.storing && t.works[i].response.status != InProgress
    ensures t.works[j].response == t.works[i].response
    decreases j
  {
    hide Took;
    if i < j {
      EndedStays(p, script, t, r, i, j - 1);
      ResponseChanges(p, t.works[j - 1], script.calls[j - 1].0, t.oks[j - 1], t.works[j]);
    }
  }

  /**
   Of a stored response the one end that succeeds decides: the status is the one it says, the output is what had been
   made by then, and no other end succeeds.
   */
  lemma FirstEndDecides(p: Setup, script: Script, t: Trace, r: Outcome, k: nat)
    requires Drove(p, script, t, r) && p.storing && k < |t.oks| && t.oks[k] && script.calls[k].0.DoEnd?
    ensures t.works[k].response.status == InProgress
    ensures Final(t).response ==
      Response(if script.calls[k].0.completed then Completed else Incomplete, t.works[k].items)
    ensures forall j | 0 <= j < |t.oks| && t.oks[j] && script.calls[j].0.DoEnd? :: j == k
  {
    hide Took;
    ResponseChanges(p, t.works[k], script.calls[k].0, true, t.works[k + 1]);
    EndedStays(p, script, t, r, k + 1, |t.oks|);
    forall j | 0 <= j < |t.oks| && t.oks[j] && script.calls[j].0.DoEnd? ensures j == k {
      ResponseChanges(p, t.works[j], script.calls[j].0, true, t.works[j + 1]);
      if j < k {
        EndedStays(p, script, t, r, j + 1, k);
      } else if k < j {
        EndedStays(p, script, t, r, k + 1, j);
      }
    }
  }

  /** Whatever response there is in the end was there before or is one that an end made, if not announced. */
  lemma {:induction false} ResponseFromEnd(p: Setup, script: Script, t: Trace, r: Outcome, j: nat)
    requires Drove(p, script, t, r) && j <= |t.oks|
    ensures t.works[j].response == t.works[0].response || exists k ::
      0 <= k < j && Ends(script, t, k, t.works[j].response)
    decreases j
  {
    hide Took;
    if j > 0 {
      ResponseFromEnd(p, script, t, r, j - 1);
      ResponseChanges(p, t.works[j - 1], script.calls[j - 1].0, t.oks[j - 1], t.works[j]);
      if t.works[j].response != t.works[j - 1].response {
        assert Ends(script, t, j - 1, t.works[j].response);
      }
    }
  }

  /** Call `k` asks for this end with these items. */
  ghost predicate Ends(script: Script, t: Trace, k: int, response: Response) {
    && 0 <= k < |script.calls| && k < |t.works| && script.calls[k].0.DoEnd?
    && response == Response(if script.calls[k].0.completed then Completed else Incomplete, t.works[k].items)
  }

  /** What a script makes of a response when every call comes through: what is refused is left out, or ends it. */
  function Played(p: Setup, w: Work, calls: seq<(Command, bool)>): Work
    decreases |calls|
  {
    if calls == [] then w
    else if Able(p, w, calls[0].0) then Played(p, Done(w, calls[0].0), calls[1..])
    else if calls[0].1 then w
    else Played(p, w, calls[1..])
  }

  /** Without a fault a command succeeds exactly when it is not refused, and what is refused changes nothing. */
  lemma TookWithoutFault(p: Setup, w: Work, command: Command, ok: bool, v: Work)
    requires Took(p, w, command, ok, v) && v.faults == w.faults && (p.sealing || w.draft.None?)
    ensures ok == Able(p, w, command) && v == (if ok then Done(w, command) else w) && (p.sealing || v.draft.None?)
  {
  }

  /** Without a fault the script decides what the response comes to. */
  lemma {:induction false} DroveWithoutFault(p: Setup, script: Script, t: Trace, r: Outcome, i: nat)
    requires Drove(p, script, t, r) && i <= |t.oks| && Final(t).faults == t.works[0].faults
    requires (p.sealing || t.works[i].draft.None?) && (i < |t.oks| || i == |script.calls|)
    ensures Final(t) == Played(p, t.works[i], script.calls[i..])
    decreases |t.oks| - i
  {
    hide Took, Able, Done;
    if i < |t.oks| {
      FaultsGrow(p, script, t, r, 0, i);
      FaultsGrow(p, script, t, r, i, i + 1);
      FaultsGrow(p, script, t, r, i + 1, |t.oks|);
      TookWithoutFault(p, t.works[i], script.calls[i].0, t.oks[i], t.works[i + 1]);
      assert script.calls[i..][1..] == script.calls[i + 1..];
      if t.oks[i] || !script.calls[i].1 {
        DroveWithoutFault(p, script, t, r, i + 1);
      }
    }
  }

  lemma ClosedGrows(p: Setup, saving: Script, x: Execution, w: Work, v: Work, r: Outcome)
    requires Closed(p, saving, x, w, v, r)
    ensures w.faults <= v.faults
  {
    if Drove(p, saving, x.kept, x.saved) && x.kept.works[0] == w {
      KeptGrows(p, saving, x.kept, x.saved);
    }
  }

  lemma KeptGrows(p: Setup, script: Script, t: Trace, r: Outcome)
    requires Drove(p, script, t, r)
    ensures t.works[0].faults <= Final(t).faults
  {
    FaultsGrow(p, script, t, r, 0, |t.oks|);
  }

  /** Without a fault a response that its handlers end is what they make it. */
  lemma ExecutedWithoutFault(p: Setup, handlers: Script, saving: Script, w: Work, x: Execution, v: Work, r: Outcome)
    requires Executed(p, handlers, saving, w, x, v, r) && (p.sealing || w.draft.None?)
    ensures v.faults == w.faults ==>
      && x.announced && Final(x.handled) == Played(p, w, handlers.calls)
      && (Final(x.handled).response.status != InProgress ==> v == Final(x.handled))
  {
    hide Played, Took;
    ClosedGrows(p, saving, x, Final(x.handled), v, r);
    if x.announced && v.faults == w.faults {
      KeptGrows(p, handlers, x.handled, x.run);
      assert handlers.calls[0..] == handlers.calls;
      DroveWithoutFault(p, handlers, x.handled, x.run, 0);
    }
  }

  /** Whatever end succeeded, the response is as it said, with what had been made by then. */
  ghost predicate EndsAsSaid(script: Script, t: Trace, response: Response) {
    forall k | 0 <= k < |t.oks| && k < |script.calls| && k < |t.works| && t.oks[k] && script.calls[k].0.DoEnd? ::
      response == Response(if script.calls[k].0.completed then Completed else Incomplete, t.works[k].items)
  }

  /**
   A stored response whose run returns normally has failed exactly when no end of its handlers took effect; otherwise
   it is as such an end said, with the items made up to then.
   */
  lemma ReturnedNormally(p: Setup, handlers: Script, saving: Script, w: Work, x: Execution, v: Work, r: Outcome)
    requires Executed(p, handlers, saving, w, x, v, r) && r.Ok? && p.storing && w.response.status == InProgress
    ensures v.response.status == Failed <==> Final(x.handled).response.status == InProgress
    ensures v.response.status == Failed ==> v == AsFailed(Final(x.kept))
    ensures v.response.status != Failed ==>
      x.announced && v == Final(x.handled) && exists k :: Ends(handlers, x.handled, k, v.response)
    ensures x.announced ==> EndsAsSaid(handlers, x.handled, v.response)
  {
    hide Took, AsFailed, AsCancelled;
    EndedAs();
    if x.announced {
      ResponseFromEnd(p, handlers, x.handled, x.run, |x.handled.oks|);
      forall k | 0 <= k < |x.handled.oks| && x.handled.oks[k] && handlers.calls[k].0.DoEnd?
        ensures Final(x.handled).response ==
          Response(if handlers.calls[k].0.completed then Completed else Incomplete, x.handled.works[k].items)
      {
        FirstEndDecides(p, handlers, x.handled, x.run, k);
      }
    }
  }

  lemma HandledSomehow(p: Setup, handlers: Script, saving: Script, w: Work, x: Execution, v: Work, r: Outcome)
    requires Executed(p, handlers, saving, w, x, v, r)
    ensures x.handled.works != []
  {
  }

  lemma EndedAs()
    ensures forall w :: AsFailed(w).response.status == Failed
    ensures forall w :: AsCancelled(w).response.status == Cancelled
  {
  }

  /**
   Handlers that are cancelled while the response runs leave it cancelled, if saving it and cancelling come through.
   */
  lemma CancelledWhileRunning(p: Setup, handlers: Script, saving: Script, w: Work, x: Execution, v: Work, r: Outcome)
    requires Executed(p, handlers, saving, w, x, v, r)
    requires x.run == Err(CancelledError) && Final(x.handled).response.status == InProgress
    ensures r.Err? && |x.kept.works| > 0
    ensures x.saved.Ok? && Endable(p, Final(x.kept)) && v.faults == Final(x.kept).faults ==>
      r == Err(CancelledError) && v.response.status == Cancelled && v == AsCancelled(Final(x.kept))
  {
    hide Took, AsFailed, AsCancelled, Endable;
    EndedAs();
  }

  method Perform(c: Coordinator, command: Command) returns (r: Outcome)
    requires c.Valid()
    modifies c, c.store
    ensures c.Valid()
    ensures command.DoEnd? ==> !(c.dropped && !old(c.dropped))
    ensures !command.DoEnd? ==> c.response == old(c.response) && (c.dropped <==> old(c.dropped))
    ensures Took(c.Config(), old(c.Now()), command, r.Ok?, c.Now()) && (r.Err? ==> Raised(r.error))
  {
    hide Took, Coordinator.Valid, Coordinator.Now;
    match command
    case DoEmit(item) => r := c.Emit(item);
    case DoBegin(id, state, main) => r := c.BeginReasoning(id, state, main);
    case DoReplace(state, main) => r := c.ReplaceReasoning(state, main);
    case DoDelta(text) => r := c.SummaryDelta(text);
    case DoSummaryDone => r := c.SummaryDone();
    case DoFinish(state, main) => r := c.FinishReasoning(state, main);
    case DoEnd(completed) => r := c.Finish(if completed then Completed else Incomplete);
  }

  method Drive(c: Coordinator, script: Script) returns (r: Outcome, ghost t: Trace)
    requires c.Valid()
    modifies c, c.store
    ensures c.Valid() && (c.dropped ==> old(c.dropped))
    ensures Drove(c.Config(), script, t, r) && t.works[0] == old(c.Now()) && Final(t) == c.Now()
  {
    hide Coordinator.Valid, Coordinator.Now, Took;
    t := Trace([], [c.Now()]);
    for i := 0 to |script.calls|
      invariant c.Valid() && (c.dropped ==> old(c.dropped))
      invariant |t.oks| == i && |t.works| == i + 1 && t.works[0] == old(c.Now()) && t.works[i] == c.Now()
      invariant forall k | 0 <= k < i :: Took(c.Config(), t.works[k], script.calls[k].0, t.oks[k], t.works[k + 1])
      invariant forall k | 0 <= k < i :: t.oks[k] || !script.calls[k].1
    {
      var (command, unhandled) := script.calls[i];
      r := Perform(c, command);
      t := Trace(t.oks + [r.Ok?], t.works + [c.Now()]);
      if r.Err? && unhandled {
        return;
      }
    }
    r := script.raised;
  }

  /** How a response was driven: whether its start was announced, the handlers, and the saving that came after them. */
  datatype Execution = Execution(announced: bool, handled: Trace, run: Outcome, kept: Trace, saved: Outcome)

  /** After the handlers: what is over stays as it is, and what is not is saved and then cancelled or failed. */
  ghost predicate Closed(p: Setup, saving: Script, x: Execution, w: Work, v: Work, r: Outcome) {
    if w.response.status != InProgress || (x.run.Err? && x.run.error.FinalizationError?) then
      v == w && r == if x.run.Err? && (x.run.error.FinalizationError? || x.run.error.CancelledError?)
        then x.run else Ok(())
    else
      && Drove(p, saving, x.kept, x.saved) && x.kept.works[0] == w
      && var u := Final(x.kept);
         if x.saved.Err? then v == u && r == x.saved
         else if x.run == Err(CancelledError) then
           || (Endable(p, u) && v == AsCancelled(u) && r == x.run)
           || (r.Err? && Raised(r.error) && u.faults <= v.faults && (Endable(p, u) ==> u.faults < v.faults))
         else if r.Ok? then Endable(p, u) && v == AsFailed(u)
         else
           && r.error in {CancelledError, FinalizationError(FAILURE_FAILED)}
           && u.faults <= v.faults && (Endable(p, u) ==> u.faults < v.faults)
  }

  /**
   From what the response was to what it is in the end: the start is announced, then the handlers run, then it is
   closed.
   */
  ghost predicate Executed(p: Setup, handlers: Script, saving: Script, w: Work, x: Execution, v: Work, r: Outcome) {
    && (if x.announced then Drove(p, handlers, x.handled, x.run) && x.handled.works[0] == w
        else
          && x.run.Err? && Raised(x.run.error) && |x.handled.works| == 1 && w.faults < x.handled.works[0].faults
          && x.handled.works[0] == w.(faults := x.handled.works[0].faults))
    && Closed(p, saving, x, Final(x.handled), v, r)
  }

  /** The end of _execute_response: what it does when the handlers are through, or have raised `run`. */
  method CloseResponse(c: Coordinator, run: Outcome, saving: Script, ghost before: Execution)
    returns (r: Outcome, ghost x: Execution)
    requires c.Valid() && !c.dropped && before.run == run
    modifies c, c.store
    ensures c.Valid() && x == before.(kept := x.kept, saved := x.saved)
    ensures Closed(c.Config(), saving, x, old(c.Now()), c.Now(), r)
    ensures r.Ok? ==> c.response.status != InProgress && !c.dropped
    ensures r.Ok? ==> Fold(c.published).ended || c.lost
  {
    hide Drove, AsCancelled, AsFailed, Fold, Endings, Bare, Stored;
    x := before;
    if run == Err(CancelledError) {
      if c.response.status == InProgress {
        var saved;
        ghost var kept;
        saved, kept := Drive(c, saving);
        x := x.(kept := kept, saved := saved);
        if saved.Err? { return saved, x; }
        var told := c.CancelledResponse();
        if told.Err? { return told, x; }
      }
      return run, x;
    }
    if run.Err? && run.error.FinalizationError? {
      return run, x;
    }
    if c.response.status != InProgress {
      return Ok(()), x;
    }
    var saved;
    ghost var kept;
    saved, kept := Drive(c, saving);
    x := x.(kept := kept, saved := saved);
    if saved.Err? { return saved, x; }
    var failed := c.FailedResponse();
    if failed.Err? {
      return if failed.error == CancelledError then failed else Err(FinalizationError(FAILURE_FAILED)), x;
    }
    r := Ok(());
  }

  /**
   _execute_response: the handlers are run and the response is closed as they left it. However they end, it returns
   normally only with the response terminal, in the store as well; and when no event was lost, the events then fold to
   the output.
   */
  method ExecuteResponse(c: Coordinator, handlers: Script, saving: Script) returns (r: Outcome, ghost x: Execution)
    requires c.Valid() && !c.dropped
    modifies c, c.store
    ensures c.Valid()
    ensures Executed(c.Config(), handlers, saving, old(c.Now()), x, c.Now(), r)
    ensures r.Ok? && c.storing && old(c.response).status == InProgress ==>
      && (c.response.status == Failed <==> Final(x.handled).response.status == InProgress)
      && (x.announced ==> EndsAsSaid(handlers, x.handled, c.response))
    ensures x.run == Err(CancelledError) && Final(x.handled).response.status == InProgress && x.saved.Ok? &&
            Endable(c.Config(), Final(x.kept)) && c.Faults() == Final(x.kept).faults ==>
      c.response.status == Cancelled
    ensures r.Ok? ==> c.response.status != InProgress && !c.dropped
    ensures r.Ok? && c.storing ==> c.store.status == Some(c.response.status)
    ensures r.Ok? && c.storing && !c.lost ==>
      Fold(c.published) == View(c.response.output, true) && Endings(c.published) == 1
    ensures r.Ok? && !c.lost ==>
      && Endings(c.published) >= 1
      && (Endings(c.published) == 1 ==> Fold(c.published) == View(c.response.output, true))
  {
    hide Drove, AsCancelled, AsFailed, Fold, Endings, Bare, Stored, EndsAsSaid, Endable;
    ghost var was := c.Now();
    var run := c.InProgressResponse();
    x := Execution(run.Ok?, Trace([], [c.Now()]), run, Trace([], []), run);
    if run.Ok? {
      ghost var t;
      run, t := Drive(c, handlers);
      x := x.(handled := t, run := run);
    }
    r, x := CloseResponse(c, run, saving, x);
    EndedHasEnding(c.published);
    HandledSomehow(c.Config(), handlers, saving, was, x, c.Now(), r);
    if r.Ok? && c.storing && was.response.status == InProgress {
      ReturnedNormally(c.Config(), handlers, saving, was, x, c.Now(), r);
    }
    if x.run == Err(CancelledError) && Final(x.handled).response.status == InProgress {
      CancelledWhileRunning(c.Config(), handlers, saving, was, x, c.Now(), r);
    }
  }

  /** A response from acceptance to its end. */
  method RunResponse(storing: bool, sealing: bool, chain: Chain, handlers: Script, saving: Script)
    returns (c: Coordinator, r: Outcome, ghost accepted: bool, ghost x: Execution)
    ensures fresh(c) && fresh(c.store) && c.Valid() && c.storing == storing
    ensures accepted ==> Executed(Setup(storing, sealing), handlers, saving, Fresh(chain), x, c.Now(), r)
    ensures !accepted ==> r.Err? && c.Faults() > 0
    ensures accepted && r.Ok? && storing ==>
      && x.handled.works != []
      && (c.response.status == Failed <==> Final(x.handled).response.status == InProgress)
      && (x.announced ==> EndsAsSaid(handlers, x.handled, c.response))
    ensures c.Faults() == 0 ==>
      var made := Played(Setup(storing, sealing), Fresh(chain), handlers.calls);
      made.response.status != InProgress ==> c.response == made.response && c.items == made.items
    ensures r.Ok? ==> c.response.status != InProgress
    ensures r.Ok? && storing ==> c.store.status == Some(c.response.status) && Endings(c.published) <= 1
    ensures r.Ok? && storing && !c.lost ==>
      && Fold(c.published) == View(c.response.output, true)
      && forall k | 0 <= k < |c.published| :: c.published[k].number == k + 1
    ensures r.Ok? && !c.lost ==>
      && Endings(c.published) >= 1
      && (Endings(c.published) == 1 ==> Fold(c.published) == View(c.response.output, true))
      && forall k | 0 <= k < |c.published| :: c.published[k].number == k + 1
  {
    hide Executed, EndsAsSaid, Fold, Endings;
    c := new Coordinator(storing, sealing, chain);
    r := c.CreatedResponse();
    accepted, x := r.Ok?, Execution(false, Trace([], []), r, Trace([], []), r);
    if r.Ok? {
      r, x := ExecuteResponse(c, handlers, saving);
      ExecutedWithoutFault(Setup(storing, sealing), handlers, saving, Fresh(chain), x, c.Now(), r);
      HandledSomehow(Setup(storing, sealing), handlers, saving, Fresh(chain), x, c.Now(), r);
    }
  }

  /** A response that was just accepted. */
  function Fresh(chain: Chain): Work {
    Work([], None, chain, Response(InProgress, []), true, 0)
  }
}
