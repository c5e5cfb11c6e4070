/** What every transaction, and so every run, keeps. */
module ResponseLogInvariants {
  import opened Wrappers
  import opened ResponseLogSpec

  /**
   Whether a step leaves conversation leases to the conversation trigger. The
   lease functions accept the owner type "conversation" from anybody; such a
   call is harmless just when it changes nothing the trigger relies on.
   */
  ghost predicate SparesHeads(log: Log, step: Step) {
    match step
    case RefreshLease(owner, key, expires) =>
      owner.kind == "conversation" ==>
        && ConversationOf(owner) in log.conversations
        && log.conversations[ConversationOf(owner)].head == key
        && expires == None
    case ReleaseLease(owner) => owner.kind == "conversation" ==> ConversationOf(owner) !in log.conversations
    case MarkLease(l, mark) =>
      l in log.leases && log.leases[l].owner.kind == "conversation" ==> (mark == Live <==> log.leases[l].status == Live)
    case _ => true
  }

  /** The steps on leases and conversations. */
  predicate Holding(step: Step) {
    step.RefreshLease? || step.ReleaseLease? || step.MarkLease? || step.MoveHead? || step.Delete? || step.ExpireLease?
      || step.PruneConversation?
  }

  lemma HoldingConsistent(log: Log, step: Step)
    requires Consistent(log) && Next(log, step).Some? && Holding(step)
    ensures Consistent(Next(log, step).value)
  {
    match step
    case RefreshLease(owner, key, expires) => HoldConsistent(log, owner, key, expires);
    case ReleaseLease(owner) => DropLiveConsistent(log, {owner});
    case MarkLease(l, mark) => LeaseMarkedConsistent(log, l, mark);
    case MoveHead(c, key, retention) => HeadMovedConsistent(log, c, key, retention);
    case Delete(key) => DeletedConsistent(log, key);
    case ExpireLease(l, now) => LeaseDeletedConsistent(log, l);
    case PruneConversation(c, now) => ConversationsDroppedConsistent(log, {c});
  }

  /** All foreign keys and unique indexes survive every transaction. */
  lemma NextConsistent(log: Log, step: Step)
    requires Consistent(log) && Next(log, step).Some?
    requires step.Remove? ==> HeadsLeased(log)
    ensures Consistent(Next(log, step).value)
  {
    match step
    case Create(key, prev, inputs, outputs, expires, status) =>
      CreatedConsistent(log, key, prev, inputs, outputs, expires, status);
    case Append(key, index, item) => AddItemConsistent(log, ItemKey(key, Output, index), item);
    case Replace(key, index, item) =>
      var k := ItemKey(key, Output, index);
      ItemDeletedConsistent(log, k);
      AddItemConsistent(log.(items := log.items - {k}), k, item);
    case Terminate(key, status, conversation) => TerminatedConsistent(log, key, status, conversation);
    case Remove(key) => RemovedConsistent(log, key);
    case PrunePayload(p) => PayloadPrunedConsistent(log, p);
    case _ => HoldingConsistent(log, step);
  }

  lemma LeaseDeletedConsistent(log: Log, l: LeaseKey)
    requires Consistent(log)
    ensures Consistent(log.(leases := log.leases - {l}))
  {
    assert LeasesLinked(log.leases - {l}, log.records.Keys);
    assert OneLivePerOwner(log.leases - {l});
  }

  lemma PayloadPrunedConsistent(log: Log, p: PayloadKey)
    requires Consistent(log) && Uses(log.items, p) == {}
    ensures Consistent(log.(payloads := log.payloads - {p}))
  {
    assert forall k | k in log.items :: k in Uses(log.items, log.items[k]);
    assert ItemsLinked(log.items, log.records.Keys, (log.payloads - {p}).Keys);
    assert Deduplicated(log.payloads - {p});
  }

  lemma ItemDeletedConsistent(log: Log, k: ItemKey)
    requires Consistent(log)
    ensures Consistent(log.(items := log.items - {k}))
  {
    assert ItemsLinked(log.items - {k}, log.records.Keys, log.payloads.Keys);
  }

  lemma DropLiveConsistent(log: Log, owners: set<Owner>)
    requires Consistent(log)
    ensures Consistent(log.(leases := DropLive(log.leases, owners)))
  {
    var leases := DropLive(log.leases, owners);
    assert LeasesLinked(leases, log.records.Keys);
    assert OneLivePerOwner(leases);
  }

  lemma LeaseMarkedConsistent(log: Log, l: LeaseKey, mark: LeaseStatus)
    requires Consistent(log) && LeaseMarked(log, l, mark).Some?
    ensures Consistent(LeaseMarked(log, l, mark).value)
  {
    hide Lineal, BasesShared, ItemsLinked, HeadsLinked, Deduplicated;
    var leases := LeaseMarked(log, l, mark).value.leases;
    assert forall m | m in log.leases && log.leases[m].status == Live && log.leases[m].owner == log.leases[l].owner
      && m != l ::
        m in OwnedLive(log.leases, log.leases[l].owner) - {l};
    assert LeasesLinked(leases, log.records.Keys);
  }

  lemma ConversationsDroppedConsistent(log: Log, doomed: set<ConversationKey>)
    requires Consistent(log)
    ensures Consistent(ConversationsDropped(log, doomed))
  {
    DropLiveConsistent(log, set c | c in doomed :: ConversationOwner(c));
    assert HeadsLinked(log.conversations - doomed, log.records.Keys);
  }

  lemma DeletedConsistent(log: Log, r: ResponseKey)
    requires Consistent(log) && Deleted(log, r).Some?
    ensures Consistent(Deleted(log, r).value)
  {
    var hidden := log.(tombstones := log.tombstones + {r});
    ConversationsDroppedConsistent(hidden, HeadedBy(log, r));
    DropLiveConsistent(ConversationsDropped(hidden, HeadedBy(log, r)), {ResponseOwner(r)});
  }

  /******* Conversations and their leases *******/

  /** Dropping a set of conversations together with their live leases keeps the match. */
  lemma DroppedHeads(log: Log, doomed: set<ConversationKey>)
    requires HeadsLeased(log)
    ensures HeadsLeased(ConversationsDropped(log, doomed))
  {
    var next := ConversationsDropped(log, doomed);
    forall c | c in next.conversations ensures exists l :: LeasesHead(next.leases, next.conversations, c, l) {
      var l :| LeasesHead(log.leases, log.conversations, c, l);
      assert LeasesHead(next.leases, next.conversations, c, l);
    }
    forall l | l in next.leases && next.leases[l].status == Live && next.leases[l].owner.kind == "conversation"
      ensures LeasesHead(next.leases, next.conversations, ConversationOf(next.leases[l].owner), l)
    {
      var c := ConversationOf(next.leases[l].owner);
      assert LeasesHead(log.leases, log.conversations, c, l) && ConversationOwner(c) == next.leases[l].owner;
    }
  }

  /** Moving a head moves, or creates, exactly its own lease. */
  lemma HeadMovedLeased(log: Log, c: ConversationKey, head: ResponseKey, retention: Option<int>)
    requires HeadsLeased(log) && StampsBelow(log) && HeadMoved(log, c, head, retention).Some?
    ensures HeadsLeased(HeadMoved(log, c, head, retention).value)
  {
    var moved := log.(conversations := log.conversations[c := Conversation(head, retention)]);
    var leases := Hold(moved, ConversationOwner(c), head, None).leases;
    var held := HoldLeases(moved, ConversationOwner(c), head, None);
    OthersHeld(moved, ConversationOwner(c), head);
    MatchedWith(log.leases, log.conversations, leases, c, Conversation(head, retention), held);
  }

  /** Holding for one owner leaves the leases of all others, and gives the owner this one alone. */
  lemma OthersHeld(log: Log, o: Owner, r: ResponseKey)
    requires StampsBelow(log)
    ensures var leases := Hold(log, o, r, None).leases;
      && (forall l | l in log.leases && log.leases[l].owner != o :: l in leases && leases[l] == log.leases[l])
      && (forall l | l in leases && leases[l].owner != o :: l in log.leases && leases[l] == log.leases[l])
      && (forall l | l in leases && leases[l].owner == o && leases[l].status == Live ::
          leases[l] == Lease(r, o, Live, None))
  {
    assert forall l | l in log.leases && log.leases[l].owner == o && log.leases[l].status == Live ::
      l in OwnedLive(log.leases, o);
  }

  /** A conversation that gets a lease for its head keeps the match, when nothing changes for the others. */
  lemma MatchedWith(before: map<LeaseKey, Lease>, conversations: map<ConversationKey, Conversation>,
                    after: map<LeaseKey, Lease>,
                    c: ConversationKey, conversation: Conversation, held: LeaseKey)
    requires Matched(before, conversations)
    requires forall l | l in before && before[l].owner != ConversationOwner(c) :: l in after && after[l] == before[l]
    requires forall l | l in after && after[l].owner != ConversationOwner(c) :: l in before && after[l] == before[l]
    requires forall l | l in after && after[l].owner == ConversationOwner(c) && after[l].status == Live ::
      after[l] == Lease(conversation.head, ConversationOwner(c), Live, None)
    requires held in after && after[held] == Lease(conversation.head, ConversationOwner(c), Live, None)
    ensures Matched(after, conversations[c := conversation])
  {
    var moved := conversations[c := conversation];
    assert LeasesHead(after, moved, c, held);
    forall d | d in moved && d != c ensures exists l :: LeasesHead(after, moved, d, l) {
      var l :| LeasesHead(before, conversations, d, l);
      assert LeasesHead(after, moved, d, l);
    }
    forall l | l in after && after[l].status == Live && after[l].owner.kind == "conversation"
      ensures LeasesHead(after, moved, ConversationOf(after[l].owner), l)
    {
      if after[l].owner != ConversationOwner(c) {
        assert LeasesHead(before, conversations, ConversationOf(before[l].owner), l);
      }
    }
  }

  /** Leases of owners that are no conversation may come, go and change. */
  lemma MatchedFrame(log: Log, leases: map<LeaseKey, Lease>)
    requires HeadsLeased(log)
    requires forall l | l in log.leases && log.leases[l].owner.kind == "conversation" && log.leases[l].status == Live ::
      l in leases && leases[l] == log.leases[l]
    requires forall l | l in leases && leases[l].owner.kind == "conversation" && leases[l].status == Live ::
      l in log.leases && log.leases[l] == leases[l]
    ensures Matched(leases, log.conversations)
  {
    forall c | c in log.conversations ensures exists l :: LeasesHead(leases, log.conversations, c, l) {
      var l :| LeasesHead(log.leases, log.conversations, c, l);
      assert LeasesHead(leases, log.conversations, c, l);
    }
    forall l | l in leases && leases[l].status == Live && leases[l].owner.kind == "conversation"
      ensures LeasesHead(leases, log.conversations, ConversationOf(leases[l].owner), l)
    {
      assert LeasesHead(log.leases, log.conversations, ConversationOf(log.leases[l].owner), l);
    }
  }

  lemma RefreshedHeads(log: Log, o: Owner, r: ResponseKey, expires: Option<int>)
    requires StampsBelow(log) && OneLivePerOwner(log.leases) && HeadsLeased(log)
    ensures Matched(Hold(log, o, r, expires).leases, log.conversations) <==>
      SparesHeads(log, RefreshLease(o, r, expires))
  {
    var leases := Hold(log, o, r, expires).leases;
    var held := HoldLeases(log, o, r, expires);
    if o.kind != "conversation" {
      MatchedFrame(log, leases);
    } else if SparesHeads(log, RefreshLease(o, r, expires)) {
      var m :| LeasesHead(log.leases, log.conversations, ConversationOf(o), m);
      assert m in OwnedLive(log.leases, o);
      assert leases == log.leases;
    } else {
      assert Matched(leases, log.conversations) ==> LeasesHead(leases, log.conversations, ConversationOf(o), held);
    }
  }

  lemma ReleasedHeads(log: Log, o: Owner)
    requires HeadsLeased(log)
    ensures Matched(DropLive(log.leases, {o}), log.conversations) <==> SparesHeads(log, ReleaseLease(o))
  {
    var leases := DropLive(log.leases, {o});
    if o.kind != "conversation" {
      MatchedFrame(log, leases);
    } else if SparesHeads(log, ReleaseLease(o)) {
      forall l | l in log.leases && log.leases[l].status == Live && log.leases[l].owner.kind == "conversation"
        ensures log.leases[l].owner != o
      {
        assert LeasesHead(log.leases, log.conversations, ConversationOf(log.leases[l].owner), l);
      }
      MatchedFrame(log, leases);
    } else {
      assert forall l :: !LeasesHead(leases, log.conversations, ConversationOf(o), l);
    }
  }

  lemma MarkedHeads(log: Log, l: LeaseKey, mark: LeaseStatus)
    requires HeadsLeased(log) && OneLivePerOwner(log.leases) && LeaseMarked(log, l, mark).Some?
    ensures Matched(LeaseMarked(log, l, mark).value.leases, log.conversations) <==> SparesHeads(log, MarkLease(l, mark))
  {
    var leases := LeaseMarked(log, l, mark).value.leases;
    var o := log.leases[l].owner;
    var c := ConversationOf(o);
    if o.kind != "conversation" || SparesHeads(log, MarkLease(l, mark)) {
      MatchedFrame(log, leases);
    } else if mark == Live {
      forall m ensures !LeasesHead(log.leases, log.conversations, c, m) {
        assert m !in OwnedLive(log.leases, o) - {l};
      }
      assert l in leases && leases[l].status == Live && leases[l].owner == o;
      assert Matched(leases, log.conversations) ==> LeasesHead(leases, log.conversations, c, l);
    } else {
      assert LeasesHead(log.leases, log.conversations, c, l);
      assert forall m :: !LeasesHead(leases, log.conversations, c, m);
    }
  }

  lemma CreatedHeads(log: Log, key: ResponseKey, prev: Option<ResponseKey>,
                     inputs: seq<Payload>, outputs: seq<Payload>, expires: Option<int>, status: Status)
    requires Consistent(log) && HeadsLeased(log) && (prev.Some? ==> prev.value.scope == key.scope)
    requires Created(log, key, prev, inputs, outputs, expires, status).Some?
    ensures HeadsLeased(Created(log, key, prev, inputs, outputs, expires, status).value)
  {
    hide AddItems, Deduplicated, OneLivePerOwner, ItemsLinked, BasesShared, Lineal, HeadsLinked, LeasesLinked;
    CreatedConsistent(log, key, prev, inputs, outputs, expires, status);
    MatchedFrame(log, Created(log, key, prev, inputs, outputs, expires, status).value.leases);
  }

  lemma ExpiredHeads(log: Log, l: LeaseKey)
    requires HeadsLeased(log) && l in log.leases && log.leases[l].expires.Some?
    ensures Matched(log.leases - {l}, log.conversations)
  {
    assert log.leases[l].owner.kind == "conversation" && log.leases[l].status == Live ==>
      LeasesHead(log.leases, log.conversations, ConversationOf(log.leases[l].owner), l);
    MatchedFrame(log, log.leases - {l});
  }

  lemma DeletedHeads(log: Log, r: ResponseKey)
    requires HeadsLeased(log) && Deleted(log, r).Some?
    ensures HeadsLeased(Deleted(log, r).value)
  {
    var hidden := log.(tombstones := log.tombstones + {r});
    DroppedHeads(hidden, HeadedBy(log, r));
    ReleasedHeads(ConversationsDropped(hidden, HeadedBy(log, r)), ResponseOwner(r));
  }

  lemma RemovedHeads(log: Log, r: ResponseKey)
    requires HeadsLeased(log)
    ensures HeadsLeased(Removed(log, r))
  {
    MatchedFrame(log, Removed(log, r).leases);
  }

  /** The steps that leave leases to their triggers. */
  lemma TriggeredHeads(log: Log, step: Step)
    requires Consistent(log) && HeadsLeased(log) && Next(log, step).Some?
    requires !step.RefreshLease? && !step.ReleaseLease? && !step.MarkLease?
    ensures HeadsLeased(Next(log, step).value)
  {
    hide HeadMoved, Lineal;
    hide Matched;
    match step
    case Create(key, prev, inputs, outputs, expires, status) =>
      CreatedHeads(log, key, prev, inputs, outputs, expires, status);
    case Terminate(key, status, conversation) =>
      if conversation.Some? {
        HeadMovedLeased(WithStatus(log, key, status), ConversationKey(key.scope, conversation.value), key, None);
      }
    case MoveHead(c, key, retention) => HeadMovedLeased(log, c, key, retention);
    case Delete(key) => DeletedHeads(log, key);
    case ExpireLease(l, now) => ExpiredHeads(log, l);
    case PruneConversation(c, now) => DroppedHeads(log, {c});
    case Remove(key) => RemovedHeads(log, key);
    case _ =>
  }

  /** The match between conversations and their leases survives a transaction exactly when it spares the heads. */
  lemma NextHeadsLeased(log: Log, step: Step)
    requires Consistent(log) && HeadsLeased(log) && Next(log, step).Some?
    ensures HeadsLeased(Next(log, step).value) <==> SparesHeads(log, step)
  {
    match step
    case RefreshLease(owner, key, expires) => RefreshedHeads(log, owner, key, expires);
    case ReleaseLease(owner) => ReleasedHeads(log, owner);
    case MarkLease(l, mark) => MarkedHeads(log, l, mark);
    case _ => TriggeredHeads(log, step);
  }

  /** Releasing the lease of a conversation that is still there breaks the match. */
  lemma ReleaseBreaksHeads(log: Log, c: ConversationKey)
    requires Consistent(log) && HeadsLeased(log) && c in log.conversations
    ensures Next(log, ReleaseLease(ConversationOwner(c))).Some?
    ensures !HeadsLeased(Next(log, ReleaseLease(ConversationOwner(c))).value)
  {
    assert ConversationOf(ConversationOwner(c)) == c;
    NextHeadsLeased(log, ReleaseLease(ConversationOwner(c)));
  }

  /******* Runs *******/

  /** Every step of the run spares the heads in the state it meets. */
  ghost predicate Careful(log: Log, steps: seq<Step>)
    decreases |steps|
  {
    steps == [] || (SparesHeads(log, steps[0]) && Careful(After(log, steps[0]), steps[1..]))
  }

  ghost function After(log: Log, step: Step): Log {
    match Next(log, step) case Some(next) => next case None => log
  }

  /** The transaction had this outcome, or, when the step is impossible, no effect. */
  ghost predicate Did(log: Log, outcome: Option<Log>, ok: bool, next: Log) {
    match outcome
    case Some(stepped) => ok && next == stepped
    case None => !ok && next == log
  }

  /** Safety over whole runs: constraints, unique live owners and the head match hold throughout. */
  lemma {:induction false} RunKeepsInvariants(log: Log, steps: seq<Step>)
    requires Consistent(log) && HeadsLeased(log) && Careful(log, steps)
    ensures Consistent(Run(log, steps)) && HeadsLeased(Run(log, steps))
    decreases |steps|
  {
    if steps != [] {
      if Next(log, steps[0]).Some? {
        NextConsistent(log, steps[0]);
        NextHeadsLeased(log, steps[0]);
      }
      RunKeepsInvariants(After(log, steps[0]), steps[1..]);
    }
  }

  /** Live owners and conversations determine their leases one to one. */
  lemma HeadLeaseUnique(log: Log, c: ConversationKey, l: LeaseKey, d: ConversationKey, m: LeaseKey)
    requires Consistent(log) && LeasesHead(log.leases, log.conversations, c, l)
      && LeasesHead(log.leases, log.conversations, d, m)
    ensures c == d <==> l == m
  {
  }
}
