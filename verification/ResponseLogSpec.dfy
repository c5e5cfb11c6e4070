/**
 The response delta log without its reference counts.

 A `Log` is the content of the seven tables of the schema. `Next` says what one
 transaction does to it, in terms of which rows exist and never of a counter.
 The counters, the triggers that maintain them and the procedures that read
 them are in module ResponseLog, which is proved to follow `Next`.
 */
module ResponseLogSpec {
  import opened Wrappers

  /******* Rows *******/

  /** Primary keys; every table is partitioned by scope. */
  datatype ResponseKey = ResponseKey(scope: int, id: string)
  datatype PayloadKey = PayloadKey(scope: int, uuid: nat)
  datatype LeaseKey = LeaseKey(scope: int, uuid: nat)
  datatype ConversationKey = ConversationKey(scope: int, id: string)

  /** The two item tables, told apart by the direction in the key. */
  datatype Direction = Input | Output
  datatype ItemKey = ItemKey(response: ResponseKey, direction: Direction, index: int)

  /**
   An item as JSON; `kind` is its "type" member, "" when absent. `hash` is the
   digest of the JSON text: a function of the payload, and nothing says that
   different payloads have different ones.
   */
  datatype Payload = Scalar(text: string, hash: int) | Object(kind: string, body: string, hash: int)

  datatype Status = Queued | InProgress | Completed | Failed | Cancelled | Incomplete

  /** `created` is the position of the row in insertion order. */
  datatype Record = Record(prev: Option<ResponseKey>, base: ResponseKey, created: nat, status: Status)

  datatype Owner = Owner(scope: int, kind: string, id: string)
  datatype LeaseStatus = Live | Expiring | Expired
  datatype Lease = Lease(response: ResponseKey, owner: Owner, status: LeaseStatus, expires: Option<int>)
  datatype Conversation = Conversation(head: ResponseKey, retention: Option<int>)

  /** `serial` stands for gen_random_uuid() and the insertion clock: it is above every stamp handed out so far. */
  datatype Log = Log(
    payloads: map<PayloadKey, Payload>,
    records: map<ResponseKey, Record>,
    items: map<ItemKey, PayloadKey>,
    leases: map<LeaseKey, Lease>,
    conversations: map<ConversationKey, Conversation>,
    tombstones: set<ResponseKey>,
    serial: nat)

  const EMPTY := Log(map[], map[], map[], map[], map[], {}, 0)

  function ConversationOwner(c: ConversationKey): Owner {
    Owner(c.scope, "conversation", c.id)
  }

  function ResponseOwner(r: ResponseKey): Owner {
    Owner(r.scope, "response", r.id)
  }

  /******* Who refers to what *******/

  function Children(records: map<ResponseKey, Record>, r: ResponseKey): set<ResponseKey> {
    set c | c in records && records[c].prev == Some(r)
  }

  function LiveLeases(leases: map<LeaseKey, Lease>, r: ResponseKey): set<LeaseKey> {
    set l | l in leases && leases[l].status == Live && leases[l].response == r
  }

  function Uses(items: map<ItemKey, PayloadKey>, p: PayloadKey): set<ItemKey> {
    set k | k in items && items[k] == p
  }

  function OwnedLive(leases: map<LeaseKey, Lease>, o: Owner): set<LeaseKey> {
    set l | l in leases && leases[l].status == Live && leases[l].owner == o
  }

  predicate Referenced(log: Log, r: ResponseKey) {
    Children(log.records, r) != {} || LiveLeases(log.leases, r) != {}
  }

  /******* Invariants *******/

  /** Every parent exists, in the same scope, and was inserted earlier. */
  ghost predicate Lineal(records: map<ResponseKey, Record>) {
    forall r {:trigger records[r].prev} | r in records && records[r].prev.Some? ::
      && records[r].prev.value in records
      && records[r].prev.value.scope == r.scope
      && records[records[r].prev.value].created < records[r].created
  }

  /** A replay starts at the response itself or where its parent's starts. */
  ghost predicate BasesShared(records: map<ResponseKey, Record>)
    requires Lineal(records)
  {
    forall r {:trigger records[r].prev} | r in records && records[r].base != r ::
      records[r].prev.Some? && records[r].base == records[records[r].prev.value].base
  }

  ghost predicate ItemsLinked(items: map<ItemKey, PayloadKey>, responses: set<ResponseKey>, payloads: set<PayloadKey>) {
    forall k | k in items :: k.response in responses && items[k] in payloads && items[k].scope == k.response.scope
  }

  ghost predicate LeasesLinked(leases: map<LeaseKey, Lease>, responses: set<ResponseKey>) {
    forall l | l in leases :: leases[l].response in responses && leases[l].owner.scope == l.scope
  }

  ghost predicate HeadsLinked(conversations: map<ConversationKey, Conversation>, responses: set<ResponseKey>) {
    forall c | c in conversations :: conversations[c].head in responses
  }

  /** The partial unique index on live leases. */
  ghost predicate OneLivePerOwner(leases: map<LeaseKey, Lease>) {
    forall l, m | l in leases && m in leases && leases[l].status == Live && leases[m].status == Live ::
      leases[l].owner == leases[m].owner ==> l == m
  }

  ghost predicate StampsBelow(log: Log) {
    && (forall r | r in log.records :: log.records[r].created < log.serial)
    && (forall p | p in log.payloads :: p.uuid < log.serial)
    && (forall l | l in log.leases :: l.uuid < log.serial)
  }

  /** The unique index on payload hashes. */
  ghost predicate Deduplicated(payloads: map<PayloadKey, Payload>) {
    forall p, q | p in payloads && q in payloads && p.scope == q.scope ::
      payloads[p].hash == payloads[q].hash ==> p == q
  }

  /** All foreign keys and unique indexes of the schema, and what the lineage columns mean. */
  ghost predicate Consistent(log: Log) {
    && Lineal(log.records)
    && BasesShared(log.records)
    && ItemsLinked(log.items, log.records.Keys, log.payloads.Keys)
    && LeasesLinked(log.leases, log.records.Keys)
    && OneLivePerOwner(log.leases)
    && HeadsLinked(log.conversations, log.records.Keys)
    && log.tombstones <= log.records.Keys
    && StampsBelow(log)
    && Deduplicated(log.payloads)
  }

  ghost predicate LeasesHead(leases: map<LeaseKey, Lease>, conversations: map<ConversationKey, Conversation>,
                             c: ConversationKey, l: LeaseKey) {
    && l in leases && c in conversations
    && leases[l] == Lease(conversations[c].head, ConversationOwner(c), Live, None)
  }

  ghost function ConversationOf(o: Owner): ConversationKey {
    ConversationKey(o.scope, o.id)
  }

  /** Conversations and live conversation leases match: each head is held by its own unexpiring lease. */
  ghost predicate Matched(leases: map<LeaseKey, Lease>, conversations: map<ConversationKey, Conversation>) {
    && (forall c | c in conversations :: exists l :: LeasesHead(leases, conversations, c, l))
    && (forall l | l in leases && leases[l].status == Live && leases[l].owner.kind == "conversation" ::
          LeasesHead(leases, conversations, ConversationOf(leases[l].owner), l))
  }

  ghost predicate HeadsLeased(log: Log) {
    Matched(log.leases, log.conversations)
  }

  /******* Transactions *******/

  /** get_or_create_payload: reuse the row with this hash, unless its content differs. */
  ghost function Intern(log: Log, scope: int, item: Payload): Option<(Log, PayloadKey)> {
    if item.Scalar? then None
    else if p :| p in log.payloads && p.scope == scope && log.payloads[p].hash == item.hash then
      if log.payloads[p] == item then Some((log, p)) else None
    else
      var p := PayloadKey(scope, log.serial);
      Some((log.(payloads := log.payloads[p := item], serial := log.serial + 1), p))
  }

  /** Insert one item row. */
  ghost function AddItem(log: Log, k: ItemKey, item: Payload): Option<Log> {
    match Intern(log, k.response.scope, item)
    case None => None
    case Some((interned, p)) =>
      if k.response !in log.records || k.index < 0 || k in log.items then None
      else Some(interned.(items := log.items[k := p]))
  }

  /** Insert item rows at consecutive indexes from `index` on. */
  ghost function AddItems(log: Log, r: ResponseKey, d: Direction, index: int, items: seq<Payload>):
    Option<Log>
    decreases |items|
  {
    if items == [] then Some(log)
    else match AddItem(log, ItemKey(r, d, index), items[0])
      case None => None
      case Some(next) => AddItems(next, r, d, index + 1, items[1..])
  }

  /** validate_response_items */
  predicate ValidItems(items: seq<Payload>) {
    forall i | 0 <= i < |items| :: items[i].Object? && items[i].kind != ""
  }

  /** response_items_contain_compaction */
  predicate ContainsCompaction(items: seq<Payload>) {
    exists i :: 0 <= i < |items| && items[i].Object? && items[i].kind == "compaction"
  }

  /** Remove the live leases of these owners. */
  function DropLive(leases: map<LeaseKey, Lease>, owners: set<Owner>): map<LeaseKey, Lease> {
    map l | l in leases && !(leases[l].status == Live && leases[l].owner in owners) :: leases[l]
  }

  function InsertLease(log: Log, o: Owner, r: ResponseKey, expires: Option<int>): Log {
    log.(leases := log.leases[LeaseKey(o.scope, log.serial) := Lease(r, o, Live, expires)], serial := log.serial + 1)
  }

  /** Point the owner's live lease at `r`, or insert one. */
  function Hold(log: Log, o: Owner, r: ResponseKey, expires: Option<int>): Log {
    if OwnedLive(log.leases, o) != {} then
      log.(leases := map l | l in log.leases ::
        if l in OwnedLive(log.leases, o) then Lease(r, o, Live, expires) else log.leases[l])
    else InsertLease(log, o, r, expires)
  }

  /** The new row of create_response_record. */
  function NewRecord(log: Log, key: ResponseKey, prev: Option<ResponseKey>, outputs: seq<Payload>,
                     status: Status): Record
    requires prev.Some? ==> prev.value in log.records
  {
    Record(prev,
      if prev.None? || ContainsCompaction(outputs) then key else log.records[prev.value].base,
      log.serial, status)
  }

  function Recorded(log: Log, key: ResponseKey, prev: Option<ResponseKey>, outputs: seq<Payload>, status: Status): Log
    requires prev.Some? ==> prev.value in log.records
  {
    log.(records := log.records[key := NewRecord(log, key, prev, outputs, status)], serial := log.serial + 1)
  }

  /** The row and, with a retention, the response's own lease. */
  function LeasedRecord(log: Log, key: ResponseKey, prev: Option<ResponseKey>, outputs: seq<Payload>,
                        expires: Option<int>, status: Status): Log
    requires prev.Some? ==> prev.value in log.records
  {
    var recorded := Recorded(log, key, prev, outputs, status);
    if expires.Some? then InsertLease(recorded, ResponseOwner(key), key, expires) else recorded
  }

  ghost function Filled(log: Log, key: ResponseKey, inputs: seq<Payload>, outputs: seq<Payload>): Option<Log> {
    match AddItems(log, key, Input, 0, inputs)
    case None => None
    case Some(filled) => AddItems(filled, key, Output, 0, outputs)
  }

  ghost function Created(log: Log, key: ResponseKey, prev: Option<ResponseKey>,
                         inputs: seq<Payload>, outputs: seq<Payload>, expires: Option<int>,
                           status: Status): Option<Log> {
    if !ValidItems(inputs) || !ValidItems(outputs) || prev == Some(key)
      || (prev.Some? && prev.value !in log.records) || key.id == "" || key in log.records
      || (expires.Some? && OwnedLive(log.leases, ResponseOwner(key)) != {}) then None
    else
      Filled(LeasedRecord(log, key, prev, outputs, expires, status), key, inputs, outputs)
  }

  ghost function Replaced(log: Log, k: ItemKey, item: Payload): Option<Log> {
    if k !in log.items then None else AddItem(log.(items := log.items - {k}), k, item)
  }

  /** move_conversation_head with its trigger. */
  function HeadMoved(log: Log, c: ConversationKey, head: ResponseKey, retention: Option<int>): Option<Log> {
    if c.id == "" || head !in log.records
      || (c !in log.conversations && OwnedLive(log.leases, ConversationOwner(c)) != {}) then None
    else Some(Hold(log.(conversations := log.conversations[c := Conversation(head, retention)]), ConversationOwner(c),
                   head, None))
  }

  function WithStatus(log: Log, key: ResponseKey, status: Status): Log
    requires key in log.records
  {
    log.(records := log.records[key := log.records[key].(status := status)])
  }

  /**
   finish_response, fail_response and cancel_response; finishing also moves the conversation's head, if there is one.
   */
  function Terminated(log: Log, key: ResponseKey, status: Status, conversation: Option<string>): Option<Log> {
    if key !in log.records || log.records[key].status !in {Queued, InProgress} then None
    else if conversation.None? then Some(WithStatus(log, key, status))
    else HeadMoved(WithStatus(log, key, status), ConversationKey(key.scope, conversation.value), key, None)
  }

  function LeaseRefreshed(log: Log, o: Owner, r: ResponseKey, expires: Option<int>): Option<Log> {
    if r !in log.records || (OwnedLive(log.leases, o) == {} && (o.kind == "" || o.id == "")) then None
    else Some(Hold(log, o, r, expires))
  }

  function LeaseMarked(log: Log, l: LeaseKey, status: LeaseStatus): Option<Log> {
    if l !in log.leases || (status == Live && OwnedLive(log.leases, log.leases[l].owner) - {l} != {}) then None
    else Some(log.(leases := log.leases[l := log.leases[l].(status := status)]))
  }

  /** Conversations deleted with the trigger that deletes their live leases. */
  function ConversationsDropped(log: Log, doomed: set<ConversationKey>): Log {
    log.(conversations := log.conversations - doomed,
         leases := DropLive(log.leases, set c | c in doomed :: ConversationOwner(c)))
  }

  /** release_response_lease */
  function Released(log: Log, o: Owner): Log {
    log.(leases := DropLive(log.leases, {o}))
  }

  /** The conversations whose head is `r`. */
  function HeadedBy(log: Log, r: ResponseKey): set<ConversationKey> {
    set c | c in log.conversations && log.conversations[c].head == r
  }

  /**
   delete_response: the response is hidden and lets go of its own lease; it stays as long as something else holds it.
   */
  function Deleted(log: Log, r: ResponseKey): Option<Log> {
    if r !in log.records || r in log.tombstones then None
    else Some(Released(ConversationsDropped(log.(tombstones := log.tombstones + {r}), HeadedBy(log, r)),
                       ResponseOwner(r)))
  }

  function ItemsWithout(items: map<ItemKey, PayloadKey>, r: ResponseKey): map<ItemKey, PayloadKey> {
    map k | k in items && k.response != r :: items[k]
  }

  /** The payloads that only `r` uses. */
  function Orphans(log: Log, r: ResponseKey): set<PayloadKey> {
    set p | p in log.payloads && Uses(log.items, p) != {} && Uses(ItemsWithout(log.items, r), p) == {}
  }

  /** The leases on `r` that are no longer live go first. */
  function WithoutDeadLeases(log: Log, r: ResponseKey): Log {
    log.(leases := map l | l in log.leases && (log.leases[l].response != r || log.leases[l].status == Live) ::
         log.leases[l])
  }

  /**
   One turn of the collector: an unreferenced response goes with its items, dead leases, tombstone and unshared
   payloads.
   */
  function Removed(log: Log, r: ResponseKey): Log {
    WithoutDeadLeases(log, r).(
      records := log.records - {r},
      items := ItemsWithout(log.items, r),
      tombstones := log.tombstones - {r},
      payloads := log.payloads - Orphans(log, r))
  }

  datatype Step =
    | Create(key: ResponseKey, prev: Option<ResponseKey>, inputs: seq<Payload>, outputs: seq<Payload>,
             retention: Option<int>, status: Status)
    | Append(key: ResponseKey, index: int, item: Payload)
    | Replace(key: ResponseKey, index: int, item: Payload)
    | Terminate(key: ResponseKey, status: Status, conversation: Option<string>)
    | RefreshLease(owner: Owner, key: ResponseKey, retention: Option<int>)
    | ReleaseLease(owner: Owner)
    | MarkLease(lease: LeaseKey, mark: LeaseStatus)
    | MoveHead(conversation': ConversationKey, key: ResponseKey, retention: Option<int>)
    | Delete(key: ResponseKey)
    | ExpireLease(lease: LeaseKey, now: int)
    | PruneConversation(conversation': ConversationKey, now: int)
    | Remove(key: ResponseKey)
    | PrunePayload(payload: PayloadKey)

  /** What one transaction makes of the log; None when it aborts or finds nothing to do. */
  ghost function Next(log: Log, step: Step): Option<Log> {
    match step
    case Create(key, prev, inputs, outputs, expires, status) =>
      if prev.Some? && prev.value.scope != key.scope then None
      else Created(log, key, prev, inputs, outputs, expires, status)
    case Append(key, index, item) => AddItem(log, ItemKey(key, Output, index), item)
    case Replace(key, index, item) => Replaced(log, ItemKey(key, Output, index), item)
    case Terminate(key, status, conversation) => Terminated(log, key, status, conversation)
    case RefreshLease(owner, key, expires) =>
      if key.scope != owner.scope then None else LeaseRefreshed(log, owner, key, expires)
    case ReleaseLease(owner) => Some(Released(log, owner))
    case MarkLease(lease, mark) => LeaseMarked(log, lease, mark)
    case MoveHead(c, key, retention) => if key.scope != c.scope then None else HeadMoved(log, c, key, retention)
    case Delete(key) => Deleted(log, key)
    case ExpireLease(l, now) =>
      if l in log.leases && log.leases[l].status == Live && log.leases[l].expires.Some?
        && log.leases[l].expires.value <= now
      then Some(log.(leases := log.leases - {l})) else None
    case PruneConversation(c, now) =>
      if c in log.conversations && log.conversations[c].retention.Some? && log.conversations[c].retention.value <= now
      then Some(ConversationsDropped(log, {c})) else None
    case Remove(key) => if key in log.records && !Referenced(log, key) then Some(Removed(log, key)) else None
    case PrunePayload(p) =>
      if p in log.payloads && Uses(log.items, p) == {} then Some(log.(payloads := log.payloads - {p})) else None
  }

  /** A whole run; a step that aborts leaves the log as it was. */
  ghost function Run(log: Log, steps: seq<Step>): Log
    decreases |steps|
  {
    if steps == [] then log
    else Run(match Next(log, steps[0]) case Some(next) => next case None => log, steps[1..])
  }

  /******* Every step keeps the schema's constraints *******/

  /** Interning hands back the only row that holds the item, adding one row at most. */
  lemma InternConsistent(log: Log, scope: int, item: Payload)
    requires Consistent(log) && Intern(log, scope, item).Some?
    ensures var (next, p) := Intern(log, scope, item).value;
      && Consistent(next)
      && next == log.(payloads := next.payloads, serial := next.serial)
      && next.payloads in {log.payloads, log.payloads[p := item]}
      && p in next.payloads && p.scope == scope && next.payloads[p] == item
      && (p in log.payloads ==> next == log)
  {
    var (next, p) := Intern(log, scope, item).value;
    if p !in log.payloads {
      assert ItemsLinked(next.items, next.records.Keys, next.payloads.Keys);
      assert StampsBelow(next);
      assert Deduplicated(next.payloads);
    }
  }

  lemma AddItemConsistent(log: Log, k: ItemKey, item: Payload)
    requires Consistent(log) && AddItem(log, k, item).Some?
    ensures Consistent(AddItem(log, k, item).value)
  {
    InternConsistent(log, k.response.scope, item);
    var (interned, p) := Intern(log, k.response.scope, item).value;
    assert ItemsLinked(interned.items[k := p], interned.records.Keys, interned.payloads.Keys);
  }

  lemma {:induction false} AddItemsConsistent(log: Log, r: ResponseKey, d: Direction, index: int,
                                              items: seq<Payload>)
    requires Consistent(log) && AddItems(log, r, d, index, items).Some?
    ensures Consistent(AddItems(log, r, d, index, items).value)
    ensures AddItems(log, r, d, index, items).value
      == log.(payloads := AddItems(log, r, d, index, items).value.payloads,
              items := AddItems(log, r, d, index, items).value.items,
              serial := AddItems(log, r, d, index, items).value.serial)
    decreases |items|
  {
    if items != [] {
      AddItemConsistent(log, ItemKey(r, d, index), items[0]);
      AddItemsConsistent(AddItem(log, ItemKey(r, d, index), items[0]).value, r, d, index + 1, items[1..]);
    }
  }

  lemma RecordedConsistent(log: Log, key: ResponseKey, prev: Option<ResponseKey>, outputs: seq<Payload>, status: Status)
    requires Consistent(log) && key !in log.records
    requires prev.Some? ==> prev.value in log.records && prev.value.scope == key.scope
    ensures Consistent(Recorded(log, key, prev, outputs, status))
  {
    var records := log.records[key := NewRecord(log, key, prev, outputs, status)];
    assert Lineal(records);
    assert BasesShared(records);
    assert log.records.Keys <= records.Keys;
    assert ItemsLinked(log.items, records.Keys, log.payloads.Keys);
    assert LeasesLinked(log.leases, records.Keys);
    assert HeadsLinked(log.conversations, records.Keys);
  }

  lemma InsertLeaseConsistent(log: Log, o: Owner, r: ResponseKey, expires: Option<int>)
    requires Consistent(log) && r in log.records && OwnedLive(log.leases, o) == {}
    ensures Consistent(InsertLease(log, o, r, expires))
  {
    var leases := InsertLease(log, o, r, expires).leases;
    assert forall l | l in log.leases :: l !in OwnedLive(log.leases, o);
    assert LeasesLinked(leases, log.records.Keys);
    assert OneLivePerOwner(leases);
  }

  lemma LeasedRecordConsistent(log: Log, key: ResponseKey, prev: Option<ResponseKey>,
                               outputs: seq<Payload>, expires: Option<int>, status: Status)
    requires Consistent(log) && key !in log.records
      && (expires.Some? ==> OwnedLive(log.leases, ResponseOwner(key)) == {})
    requires prev.Some? ==> prev.value in log.records && prev.value.scope == key.scope
    ensures Consistent(LeasedRecord(log, key, prev, outputs, expires, status))
  {
    RecordedConsistent(log, key, prev, outputs, status);
    if expires.Some? {
      InsertLeaseConsistent(Recorded(log, key, prev, outputs, status), ResponseOwner(key), key, expires);
    }
  }

  lemma CreatedConsistent(log: Log, key: ResponseKey, prev: Option<ResponseKey>,
                          inputs: seq<Payload>, outputs: seq<Payload>, expires: Option<int>, status: Status)
    requires Consistent(log) && (prev.Some? ==> prev.value.scope == key.scope)
    requires Created(log, key, prev, inputs, outputs, expires, status).Some?
    ensures Consistent(LeasedRecord(log, key, prev, outputs, expires, status))
    ensures var next := Created(log, key, prev, inputs, outputs, expires, status).value;
      && Consistent(next)
      && next == LeasedRecord(log, key, prev, outputs, expires, status).(
          payloads := next.payloads, items := next.items, serial := next.serial)
  {
    var leased := LeasedRecord(log, key, prev, outputs, expires, status);
    LeasedRecordConsistent(log, key, prev, outputs, expires, status);
    AddItemsConsistent(leased, key, Input, 0, inputs);
    AddItemsConsistent(AddItems(leased, key, Input, 0, inputs).value, key, Output, 0, outputs);
  }

  /** Hold leaves the owner with one live lease, on `r`, and touches no other lease. */
  lemma HoldLeases(log: Log, o: Owner, r: ResponseKey, expires: Option<int>) returns (held: LeaseKey)
    requires StampsBelow(log)
    ensures var leases := Hold(log, o, r, expires).leases;
      && held in leases && leases[held] == Lease(r, o, Live, expires) && held.uuid < Hold(log, o, r, expires).serial
      && (held.scope == o.scope || held in log.leases)
      && (forall l | l in log.leases && l !in OwnedLive(log.leases, o) :: l in leases && leases[l] == log.leases[l])
      && (forall l | l in leases ::
          leases[l] == Lease(r, o, Live, expires) || (l in log.leases && leases[l] == log.leases[l]))
      && (forall l | l in leases && l !in log.leases :: l == held && OwnedLive(log.leases, o) == {})
      && (forall l | l in leases && leases[l].status == Live && leases[l].owner == o ::
          leases[l] == Lease(r, o, Live, expires))
      && (forall l | l in OwnedLive(leases, o) :: l == held || l in OwnedLive(log.leases, o))
  {
    held := if l :| l in OwnedLive(log.leases, o) then l else LeaseKey(o.scope, log.serial);
    assert forall l | l in log.leases && log.leases[l].status == Live && log.leases[l].owner == o ::
        l in OwnedLive(log.leases, o);
  }

  lemma HoldConsistent(log: Log, o: Owner, r: ResponseKey, expires: Option<int>)
    requires Consistent(log) && r in log.records && r.scope == o.scope
    ensures Consistent(Hold(log, o, r, expires))
  {
    if OwnedLive(log.leases, o) == {} {
      InsertLeaseConsistent(log, o, r, expires);
    } else {
      var leases := Hold(log, o, r, expires).leases;
      assert LeasesLinked(leases, log.records.Keys);
      assert OneLivePerOwner(leases);
    }
  }

  lemma StatusConsistent(log: Log, key: ResponseKey, status: Status)
    requires Consistent(log) && key in log.records
    ensures Consistent(WithStatus(log, key, status))
  {
    var records := WithStatus(log, key, status).records;
    assert records.Keys == log.records.Keys;
    assert Lineal(records);
    assert BasesShared(records);
  }

  lemma TerminatedConsistent(log: Log, key: ResponseKey, status: Status, conversation: Option<string>)
    requires Consistent(log) && Terminated(log, key, status, conversation).Some?
    ensures Consistent(Terminated(log, key, status, conversation).value)
  {
    StatusConsistent(log, key, status);
    if conversation.Some? {
      HeadMovedConsistent(WithStatus(log, key, status), ConversationKey(key.scope, conversation.value), key, None);
    }
  }

  lemma HeadSetConsistent(log: Log, c: ConversationKey, head: ResponseKey, retention: Option<int>)
    requires Consistent(log) && head in log.records
    ensures Consistent(log.(conversations := log.conversations[c := Conversation(head, retention)]))
  {
    assert HeadsLinked(log.conversations[c := Conversation(head, retention)], log.records.Keys);
  }

  lemma HeadMovedConsistent(log: Log, c: ConversationKey, head: ResponseKey, retention: Option<int>)
    requires Consistent(log) && head.scope == c.scope && HeadMoved(log, c, head, retention).Some?
    ensures Consistent(HeadMoved(log, c, head, retention).value)
  {
    HeadSetConsistent(log, c, head, retention);
    HoldConsistent(log.(conversations := log.conversations[c := Conversation(head, retention)]), ConversationOwner(c),
                   head, None);
  }

  /** The rows that would make DELETE FROM response_records fail on a foreign key. */
  ghost predicate Blocked(log: Log, r: ResponseKey) {
    || (exists c :: c in log.records && log.records[c].prev == Some(r))
    || (exists x :: x in log.records && x != r && log.records[x].base == r)
    || (exists l :: l in log.leases && log.leases[l].response == r)
    || (exists c :: c in log.conversations && log.conversations[c].head == r)
  }

  /** A response with neither children nor live leases is no conversation's head. */
  lemma UnreferencedHeadsNothing(log: Log, r: ResponseKey)
    requires HeadsLeased(log) && !Referenced(log, r)
    ensures forall c | c in log.conversations :: log.conversations[c].head != r
  {
    forall c | c in log.conversations ensures log.conversations[c].head != r {
      var l :| LeasesHead(log.leases, log.conversations, c, l);
      assert l !in LiveLeases(log.leases, r);
    }
  }

  lemma RemovedRecords(log: Log, r: ResponseKey)
    requires Lineal(log.records) && BasesShared(log.records) && Children(log.records, r) == {}
    ensures Lineal(log.records - {r}) && BasesShared(log.records - {r})
  {
    assert forall c | c in log.records :: c !in Children(log.records, r);
  }

  lemma RemovedItems(log: Log, r: ResponseKey)
    requires ItemsLinked(log.items, log.records.Keys, log.payloads.Keys)
    ensures ItemsLinked(Removed(log, r).items, Removed(log, r).records.Keys, Removed(log, r).payloads.Keys)
  {
    var items := ItemsWithout(log.items, r);
    assert forall k | k in items :: k in Uses(items, items[k]);
  }

  /** None of the constraints breaks when an unreferenced response is removed. */
  lemma RemovedConsistent(log: Log, r: ResponseKey)
    requires Consistent(log) && HeadsLeased(log) && r in log.records && !Referenced(log, r)
    ensures Consistent(Removed(log, r))
  {
    hide Matched;
    RemovedRecords(log, r);
    RemovedItems(log, r);
    UnreferencedHeadsNothing(log, r);
    assert LeasesLinked(Removed(log, r).leases, Removed(log, r).records.Keys) by {
      assert forall l | l in log.leases :: l !in LiveLeases(log.leases, r);
    }
  }
}
