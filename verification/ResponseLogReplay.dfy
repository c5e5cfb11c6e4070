/** Lineage, replay and liveness: what the log promises to readers and to the collector. */
module ResponseLogReplay {
  import opened Wrappers
  import opened ResponseLogSpec
  import opened ResponseLogInvariants

  /******* Lineage *******/

  /** A response followed by its ancestors, nearest first. */
  ghost function Chain(records: map<ResponseKey, Record>, r: ResponseKey): seq<ResponseKey>
    requires Lineal(records) && r in records
    decreases records[r].created
  {
    [r] + if records[r].prev.None? then [] else Chain(records, records[r].prev.value)
  }

  /** Stamps fall along a chain, so no response is its own ancestor: prev_response_id is acyclic. */
  lemma {:induction false} ChainDescends(records: map<ResponseKey, Record>, r: ResponseKey)
    requires Lineal(records) && r in records
    ensures forall i | 0 <= i < |Chain(records, r)| ::
      Chain(records, r)[i] in records && Chain(records, r)[i].scope == r.scope
    ensures forall i, j | 0 <= i < j < |Chain(records, r)| ::
      records[Chain(records, r)[j]].created < records[Chain(records, r)[i]].created
    decreases records[r].created
  {
    if records[r].prev.Some? {
      ChainDescends(records, records[r].prev.value);
      assert Chain(records, records[r].prev.value)[0] == records[r].prev.value;
    }
  }

  /** Every base is the response itself or one of its ancestors, so the foreign key on it cannot dangle. */
  lemma {:induction false} BaseInChain(records: map<ResponseKey, Record>, r: ResponseKey)
    requires Lineal(records) && BasesShared(records) && r in records
    ensures records[r].base in Chain(records, r) && records[r].base in records
    decreases records[r].created
  {
    if records[r].base != r {
      BaseInChain(records, records[r].prev.value);
    }
  }

  /** The ancestors of an ancestor are ancestors. */
  lemma {:induction false} ChainClosed(records: map<ResponseKey, Record>, r: ResponseKey, c: ResponseKey)
    requires Lineal(records) && r in records && c in Chain(records, r)
    ensures c in records
    ensures records[c].prev.Some? ==> records[c].prev.value in Chain(records, r)
    ensures c != r ==> exists d :: d in Chain(records, r) && d in records && records[d].prev == Some(c)
    decreases records[r].created
  {
    if c != r {
      var p := records[r].prev.value;
      assert c in Chain(records, p);
      ChainClosed(records, p, c);
      assert r in Chain(records, r);
      assert p == Chain(records, p)[0];
      if c != p {
        var d :| d in Chain(records, p) && d in records && records[d].prev == Some(c);
        assert d in Chain(records, r);
      }
    } else if records[r].prev.Some? {
      assert records[r].prev.value == Chain(records, records[r].prev.value)[0];
    }
  }

  /** Two record tables that agree wherever the smaller one has a row give its rows the same ancestors. */
  lemma {:induction false} ChainSame(small: map<ResponseKey, Record>, big: map<ResponseKey, Record>, r: ResponseKey)
    requires Lineal(small) && Lineal(big) && r in small
    requires forall x | x in small :: x in big && small[x].prev == big[x].prev
    ensures Chain(small, r) == Chain(big, r)
    decreases small[r].created
  {
    if small[r].prev.Some? {
      ChainSame(small, big, small[r].prev.value);
    }
  }

  /** Once its dead leases are gone, an unreferenced response blocks no foreign key. */
  lemma UnreferencedUnblocked(log: Log, r: ResponseKey)
    requires Consistent(log) && HeadsLeased(log) && r in log.records && !Referenced(log, r)
    ensures !Blocked(WithoutDeadLeases(log, r), r)
  {
    assert forall c | c in log.records :: c !in Children(log.records, r);
    assert forall l | l in log.leases :: l !in LiveLeases(log.leases, r);
    UnreferencedHeadsNothing(log, r);
    forall x | x in log.records && x != r ensures log.records[x].base != r {
      BaseInChain(log.records, x);
      if r in Chain(log.records, x) {
        ChainClosed(log.records, x, r);
      }
    }
  }

  lemma {:induction false} ChainSteps(records: map<ResponseKey, Record>, r: ResponseKey, i: nat)
    requires Lineal(records) && r in records && i < |Chain(records, r)|
    ensures Chain(records, r)[i] in records
    ensures records[Chain(records, r)[i]].prev ==
      if i + 1 < |Chain(records, r)| then Some(Chain(records, r)[i + 1]) else None
    decreases i
  {
    if i > 0 {
      ChainSteps(records, records[r].prev.value, i - 1);
    } else if records[r].prev.Some? {
      assert Chain(records, records[r].prev.value)[0] == records[r].prev.value;
    }
  }

  /******* Replay *******/

  datatype ReplayRow = ReplayRow(item: ItemKey, payload: Payload)

  ghost function KeysOf(items: map<ItemKey, PayloadKey>, r: ResponseKey, d: Direction): set<ItemKey> {
    set k | k in items && k.response == r && k.direction == d
  }

  ghost function Last(keys: set<ItemKey>): (last: ItemKey)
    requires keys != {}
    ensures last in keys && forall k | k in keys :: k.index <= last.index
  {
    var x :| x in keys;
    if keys == {x} then x
    else
      var y := Last(keys - {x});
      assert forall k | k in keys :: k == x || k in keys - {x};
      if x.index < y.index then y else x
  }

  /** These keys in the order of their indexes. */
  ghost function ByIndex(keys: set<ItemKey>): seq<ItemKey> {
    if keys == {} then [] else ByIndex(keys - {Last(keys)}) + [Last(keys)]
  }

  lemma {:induction false} ByIndexOrdered(keys: set<ItemKey>)
    ensures forall i | 0 <= i < |ByIndex(keys)| :: ByIndex(keys)[i] in keys
    ensures forall k | k in keys :: k in ByIndex(keys)
    ensures forall i, j | 0 <= i < j < |ByIndex(keys)| :: ByIndex(keys)[i].index <= ByIndex(keys)[j].index
  {
    if keys != {} {
      var last := Last(keys);
      var rest := ByIndex(keys - {last});
      ByIndexOrdered(keys - {last});
      var all := ByIndex(keys);
      assert all == rest + [last] && all[|rest|] == last;
      assert forall k | k in keys :: k == last || k in keys - {last};
      forall k | k in keys - {last} ensures k in all {
        assert k in rest;
      }
    }
  }

  lemma {:induction false} ByIndexOnce(keys: set<ItemKey>)
    ensures |ByIndex(keys)| == |keys|
    ensures forall i, j | 0 <= i < j < |ByIndex(keys)| :: ByIndex(keys)[i] != ByIndex(keys)[j]
  {
    hide Last;
    if keys != {} {
      var last := Last(keys);
      ByIndexOnce(keys - {last});
      ByIndexOrdered(keys - {last});
      assert ByIndex(keys) == ByIndex(keys - {last}) + [last];
      assert last !in ByIndex(keys - {last});
    }
  }

  /** Listing by index gives every key once, in ascending order. */
  lemma ByIndexSorts(keys: set<ItemKey>)
    ensures |ByIndex(keys)| == |keys|
    ensures forall i, j | 0 <= i < j < |ByIndex(keys)| :: ByIndex(keys)[i] != ByIndex(keys)[j]
    ensures forall i | 0 <= i < |ByIndex(keys)| :: ByIndex(keys)[i] in keys
    ensures forall k | k in keys :: k in ByIndex(keys)
    ensures forall i, j | 0 <= i < j < |ByIndex(keys)| :: ByIndex(keys)[i].index <= ByIndex(keys)[j].index
  {
    ByIndexOrdered(keys);
    ByIndexOnce(keys);
  }

  /** The payloads of these items, in this order. */
  ghost function WithPayloads(log: Log, keys: seq<ItemKey>): seq<ReplayRow> {
    if keys == [] then []
    else
      (if keys[0] in log.items && log.items[keys[0]] in log.payloads
       then [ReplayRow(keys[0], log.payloads[log.items[keys[0]]])] else [])
      + WithPayloads(log, keys[1..])
  }

  /** The item rows of one response in one direction, joined with their payloads, by index. */
  ghost function ItemRows(log: Log, r: ResponseKey, d: Direction): seq<ReplayRow> {
    WithPayloads(log, ByIndex(KeysOf(log.items, r, d)))
  }

  /** The inputs, then the outputs, of one response. */
  ghost function Rows(log: Log, r: ResponseKey): seq<ReplayRow> {
    ItemRows(log, r, Input) + ItemRows(log, r, Output)
  }

  ghost predicate Readable(log: Log) {
    && Lineal(log.records) && BasesShared(log.records)
    && ItemsLinked(log.items, log.records.Keys, log.payloads.Keys)
  }

  /**
   The recursive query of list_response_replay: rows by growing depth, joined on
   prev_response_id while the row is not the base the starting row named.
   */
  ghost function Lineage(records: map<ResponseKey, Record>, r: ResponseKey, base: ResponseKey): seq<ResponseKey>
    requires Lineal(records) && r in records
    decreases records[r].created
  {
    [r] + if r == base || records[r].prev.None? then [] else Lineage(records, records[r].prev.value, base)
  }

  /** The rows of these responses, last response first: order by depth descending, direction, index. */
  ghost function Joined(log: Log, lineage: seq<ResponseKey>): seq<ReplayRow> {
    if lineage == [] then [] else Joined(log, lineage[1..]) + Rows(log, lineage[0])
  }

  ghost function ListResponseReplay(log: Log, r: ResponseKey): seq<ReplayRow>
    requires Readable(log)
  {
    if r !in log.records then [] else Joined(log, Lineage(log.records, r, log.records[r].base))
  }

  /** What a conversation up to `r` is: nothing before a root or a compaction, else the parent's, then r's own items. */
  ghost function Replay(log: Log, r: ResponseKey): seq<ReplayRow>
    requires Readable(log) && r in log.records
    decreases log.records[r].created
  {
    (if log.records[r].base == r then [] else Replay(log, log.records[r].prev.value)) + Rows(log, r)
  }

  /** The recursive query computes the fold. */
  lemma {:induction false} ReplayRefinesFold(log: Log, r: ResponseKey)
    requires Readable(log) && r in log.records
    ensures ListResponseReplay(log, r) == Replay(log, r)
    decreases log.records[r].created
  {
    var lineage := Lineage(log.records, r, log.records[r].base);
    if log.records[r].base != r {
      ReplayRefinesFold(log, log.records[r].prev.value);
      assert lineage[1..] == Lineage(log.records, log.records[r].prev.value, log.records[r].base);
    } else {
      assert lineage == [r] && Joined(log, lineage[1..]) == [];
    }
  }

  /** The query visits a contiguous run of the chain, from the response to its base. */
  lemma {:induction false} LineageIsChainPrefix(records: map<ResponseKey, Record>, r: ResponseKey)
    requires Lineal(records) && BasesShared(records) && r in records
    ensures Lineage(records, r, records[r].base) <= Chain(records, r)
    ensures var lineage := Lineage(records, r, records[r].base); lineage[|lineage| - 1] == records[r].base
    decreases records[r].created
  {
    if records[r].base != r {
      LineageIsChainPrefix(records, records[r].prev.value);
    }
  }

  /** A new response starts over when it is a root or brings a compaction, and continues its parent otherwise. */
  lemma CreatedReplay(log: Log, key: ResponseKey, prev: Option<ResponseKey>,
                      inputs: seq<Payload>, outputs: seq<Payload>, expires: Option<int>, status: Status)
    requires Consistent(log) && Next(log, Create(key, prev, inputs, outputs, expires, status)).Some?
    ensures var next := Next(log, Create(key, prev, inputs, outputs, expires, status)).value;
      && Readable(next) && key in next.records
      && Replay(next, key) ==
        (if prev.None? || ContainsCompaction(outputs) then [] else Replay(log, prev.value)) + Rows(next, key)
  {
    hide OneLivePerOwner, Deduplicated, StampsBelow, LeasesLinked, HeadsLinked;
    var step := Create(key, prev, inputs, outputs, expires, status);
    var next := Next(log, step).value;
    NextConsistent(log, step);
    CreatedConsistent(log, key, prev, inputs, outputs, expires, status);
    if prev.Some? && !ContainsCompaction(outputs) {
      BaseInChain(log.records, prev.value);
      NextKeepsReplay(log, step, prev.value);
    }
  }

  /******* Replay is stable *******/

  /** The items of `r` are the same rows with the same payloads in both logs. */
  ghost predicate SameItems(log: Log, next: Log, r: ResponseKey) {
    forall k: ItemKey | k.response == r ::
      && (k in log.items <==> k in next.items)
      && (k in log.items ==>
            && log.items[k] in log.payloads && next.items[k] in next.payloads
            && log.payloads[log.items[k]] == next.payloads[next.items[k]])
  }

  /** `next` changes nothing that a replay of a response present in both can see. */
  ghost predicate SameContent(log: Log, next: Log, r: ResponseKey) {
    && r in log.records && r in next.records
    && log.records[r].prev == next.records[r].prev && log.records[r].base == next.records[r].base
    && SameItems(log, next, r)
  }

  lemma {:induction false} SameWithPayloads(log: Log, next: Log, r: ResponseKey, keys: seq<ItemKey>)
    requires SameItems(log, next, r) && forall i | 0 <= i < |keys| :: keys[i].response == r
    ensures WithPayloads(log, keys) == WithPayloads(next, keys)
  {
    if keys != [] {
      SameWithPayloads(log, next, r, keys[1..]);
    }
  }

  lemma SameItemRows(log: Log, next: Log, r: ResponseKey, d: Direction)
    requires SameItems(log, next, r)
    ensures ItemRows(log, r, d) == ItemRows(next, r, d)
  {
    assert KeysOf(log.items, r, d) == KeysOf(next.items, r, d);
    ByIndexOrdered(KeysOf(log.items, r, d));
    SameWithPayloads(log, next, r, ByIndex(KeysOf(log.items, r, d)));
  }

  lemma SameRows(log: Log, next: Log, r: ResponseKey)
    requires SameItems(log, next, r)
    ensures Rows(log, r) == Rows(next, r)
  {
    SameItemRows(log, next, r, Input);
    SameItemRows(log, next, r, Output);
  }

  /** Equal content along the lineage gives equal replays. */
  lemma {:induction false} ReplayStable(log: Log, next: Log, r: ResponseKey)
    requires Readable(log) && Readable(next) && r in log.records
    requires forall c | c in Lineage(log.records, r, log.records[r].base) :: SameContent(log, next, c)
    ensures r in next.records && Replay(next, r) == Replay(log, r)
    decreases log.records[r].created
  {
    assert r in Lineage(log.records, r, log.records[r].base);
    SameRows(log, next, r);
    if log.records[r].base != r {
      ReplayStable(log, next, log.records[r].prev.value);
    }
  }

  /** Adding an item leaves every other response's content alone. */
  lemma AddItemSame(log: Log, k: ItemKey, item: Payload, c: ResponseKey)
    requires Consistent(log) && AddItem(log, k, item).Some? && c in log.records && c != k.response
    ensures SameContent(log, AddItem(log, k, item).value, c)
  {
    InternConsistent(log, k.response.scope, item);
  }

  lemma {:induction false} AddItemsSame(log: Log, r: ResponseKey, d: Direction, index: int,
                                        items: seq<Payload>, c: ResponseKey)
    requires Consistent(log) && AddItems(log, r, d, index, items).Some? && c in log.records && c != r
    ensures SameContent(log, AddItems(log, r, d, index, items).value, c)
    decreases |items|
  {
    if items != [] {
      var next := AddItem(log, ItemKey(r, d, index), items[0]).value;
      AddItemConsistent(log, ItemKey(r, d, index), items[0]);
      AddItemSame(log, ItemKey(r, d, index), items[0], c);
      AddItemsSame(next, r, d, index + 1, items[1..], c);
    }
  }

  lemma CreatedSame(log: Log, key: ResponseKey, prev: Option<ResponseKey>,
                    inputs: seq<Payload>, outputs: seq<Payload>, expires: Option<int>, status: Status, c: ResponseKey)
    requires Consistent(log) && (prev.Some? ==> prev.value.scope == key.scope) && c in log.records
    requires Created(log, key, prev, inputs, outputs, expires, status).Some?
    ensures SameContent(log, Created(log, key, prev, inputs, outputs, expires, status).value, c)
  {
    hide OneLivePerOwner, Deduplicated, StampsBelow, LeasesLinked, HeadsLinked;
    CreatedConsistent(log, key, prev, inputs, outputs, expires, status);
    var leased := LeasedRecord(log, key, prev, outputs, expires, status);
    AddItemsConsistent(leased, key, Input, 0, inputs);
    AddItemsSame(leased, key, Input, 0, inputs, c);
    AddItemsSame(AddItems(leased, key, Input, 0, inputs).value, key, Output, 0, outputs, c);
    assert SameItems(log, leased, c);
  }

  lemma RemovedSame(log: Log, r: ResponseKey, c: ResponseKey)
    requires Readable(log) && c in log.records && c != r
    ensures SameContent(log, Removed(log, r), c)
  {
    var items := ItemsWithout(log.items, r);
    assert forall k | k in items :: k in Uses(items, items[k]);
  }

  lemma PrunedSame(log: Log, p: PayloadKey, c: ResponseKey)
    requires Readable(log) && c in log.records && Uses(log.items, p) == {}
    ensures SameContent(log, log.(payloads := log.payloads - {p}), c)
  {
    assert forall k | k in log.items :: k in Uses(log.items, log.items[k]);
  }

  /** Whether the step writes items of `c`, or deletes it. */
  predicate Touches(step: Step, c: ResponseKey) {
    (step.Append? || step.Replace? || step.Remove?) && step.key == c
  }

  lemma ReplacedSame(log: Log, k: ItemKey, item: Payload, c: ResponseKey)
    requires Consistent(log) && Replaced(log, k, item).Some? && c in log.records && c != k.response
    ensures SameContent(log, Replaced(log, k, item).value, c)
  {
    var without := log.(items := log.items - {k});
    assert ItemsLinked(without.items, log.records.Keys, log.payloads.Keys);
    AddItemSame(without, k, item, c);
    assert SameContent(log, without, c);
  }

  /** The steps that write neither items nor payloads. */
  lemma QuietKeeps(log: Log, step: Step)
    requires Next(log, step).Some?
    requires !step.Create? && !step.Append? && !step.Replace? && !step.Remove? && !step.PrunePayload?
    ensures var next := Next(log, step).value;
      && next.items == log.items && next.payloads == log.payloads
      && next.records == (if step.Terminate? && step.key in log.records
                          then WithStatus(log, step.key, step.status).records
                          else log.records)
  {
  }

  lemma QuietSame(log: Log, step: Step, c: ResponseKey)
    requires Next(log, step).Some? && c in log.records && ItemsLinked(log.items, log.records.Keys, log.payloads.Keys)
    requires !step.Create? && !step.Append? && !step.Replace? && !step.Remove? && !step.PrunePayload?
    ensures SameContent(log, Next(log, step).value, c)
  {
    QuietKeeps(log, step);
  }

  lemma NextSameContent(log: Log, step: Step, c: ResponseKey)
    requires Consistent(log) && Next(log, step).Some? && c in log.records && !Touches(step, c)
    ensures SameContent(log, Next(log, step).value, c)
  {
    match step
    case Create(key, prev, inputs, outputs, expires, status) =>
      CreatedSame(log, key, prev, inputs, outputs, expires, status, c);
    case Append(key, index, item) => AddItemSame(log, ItemKey(key, Output, index), item, c);
    case Replace(key, index, item) => ReplacedSame(log, ItemKey(key, Output, index), item, c);
    case Remove(key) => RemovedSame(log, key, c);
    case PrunePayload(p) => PrunedSame(log, p, c);
    case _ => QuietSame(log, step, c);
  }

  /** What a replay reads: the responses from `r` down to its base. */
  ghost function Read(log: Log, r: ResponseKey): seq<ResponseKey>
    requires Readable(log) && r in log.records
  {
    Lineage(log.records, r, log.records[r].base)
  }

  lemma {:induction false} ReadSame(log: Log, next: Log, r: ResponseKey)
    requires Readable(log) && Readable(next) && r in log.records
    requires forall c | c in Read(log, r) :: SameContent(log, next, c)
    ensures r in next.records && Read(next, r) == Read(log, r)
    decreases log.records[r].created
  {
    assert r in Read(log, r);
    if log.records[r].base != r {
      assert Read(log, r)[1..] == Read(log, log.records[r].prev.value);
      ReadSame(log, next, log.records[r].prev.value);
    }
  }

  /**
   One transaction changes the replay of a response only by writing items on its lineage or deleting the response
   itself.
   */
  lemma NextKeepsReplay(log: Log, step: Step, r: ResponseKey)
    requires Consistent(log) && Next(log, step).Some? && (step.Remove? ==> HeadsLeased(log))
    requires r in log.records && step != Remove(r)
    requires step.Append? || step.Replace? ==> step.key !in Read(log, r)
    ensures var next := Next(log, step).value;
      && Readable(next) && r in next.records && Replay(next, r) == Replay(log, r) && Read(next, r) == Read(log, r)
  {
    var next := Next(log, step).value;
    NextConsistent(log, step);
    LineageIsChainPrefix(log.records, r);
    forall c | c in Read(log, r) ensures SameContent(log, next, c) {
      assert c in Chain(log.records, r);
      ChainClosed(log.records, r, c);
      if step.Remove? {
        assert Children(log.records, step.key) == {};
        assert forall d | d in log.records :: d !in Children(log.records, step.key);
      }
      NextSameContent(log, step, c);
    }
    ReplayStable(log, next, r);
    ReadSame(log, next, r);
  }

  /**
   Whatever else happens in a run, a response that is not deleted and whose lineage is not written replays the same.
   */
  lemma {:induction false} RunKeepsReplay(log: Log, steps: seq<Step>, r: ResponseKey)
    requires Consistent(log) && HeadsLeased(log) && Careful(log, steps) && r in log.records
    requires Remove(r) !in steps
    requires forall step | step in steps && (step.Append? || step.Replace?) :: step.key !in Read(log, r)
    ensures var end := Run(log, steps); Readable(end) && r in end.records && Replay(end, r) == Replay(log, r)
    decreases |steps|
  {
    if steps != [] {
      var next := After(log, steps[0]);
      if Next(log, steps[0]).Some? {
        NextConsistent(log, steps[0]);
        NextHeadsLeased(log, steps[0]);
        NextKeepsReplay(log, steps[0], r);
      }
      RunKeepsReplay(next, steps[1..], r);
    }
  }

  /******* Liveness *******/

  /** A live-leased response or an ancestor of one. */
  ghost predicate Held(log: Log, r: ResponseKey)
    requires Lineal(log.records) && LeasesLinked(log.leases, log.records.Keys)
  {
    exists l :: l in log.leases && log.leases[l].status == Live && r in Chain(log.records, log.leases[l].response)
  }

  /** The responses nothing live leads to. */
  ghost function Garbage(log: Log): set<ResponseKey>
    requires Lineal(log.records) && LeasesLinked(log.leases, log.records.Keys)
  {
    set r | r in log.records && !Held(log, r)
  }

  /** The collector only ever picks garbage. */
  lemma UnreferencedIsGarbage(log: Log, r: ResponseKey)
    requires Consistent(log) && r in log.records && !Referenced(log, r)
    ensures r in Garbage(log)
  {
    forall l | l in log.leases && log.leases[l].status == Live
      ensures r !in Chain(log.records, log.leases[l].response)
    {
      assert l !in LiveLeases(log.leases, r);
      assert forall d | d in log.records :: d !in Children(log.records, r);
      if r in Chain(log.records, log.leases[l].response) {
        ChainClosed(log.records, log.leases[l].response, r);
      }
    }
  }

  /** Removing an unreferenced response takes that one response out of the garbage and makes none. */
  lemma RemovedGarbage(log: Log, r: ResponseKey)
    requires Consistent(log) && HeadsLeased(log) && r in log.records && !Referenced(log, r)
    ensures Consistent(Removed(log, r)) && Garbage(Removed(log, r)) == Garbage(log) - {r}
  {
    var next := Removed(log, r);
    RemovedConsistent(log, r);
    UnreferencedIsGarbage(log, r);
    assert forall l | l in log.leases :: l !in LiveLeases(log.leases, r);
    forall x | x in next.records ensures Held(next, x) <==> Held(log, x) {
      forall l | l in next.leases && next.leases[l].status == Live
        ensures Chain(next.records, next.leases[l].response) == Chain(log.records, next.leases[l].response)
      {
        ChainSame(next.records, log.records, next.leases[l].response);
      }
    }
  }

  /** Garbage always holds an unreferenced response: nothing unreachable is kept alive by its own descendants. */
  lemma {:induction false} GarbageHasUnreferenced(log: Log, r: ResponseKey) returns (leaf: ResponseKey)
    requires Consistent(log) && r in Garbage(log)
    ensures leaf in Garbage(log) && !Referenced(log, leaf)
    decreases log.serial - log.records[r].created
  {
    forall l | l in log.leases ensures l !in LiveLeases(log.leases, r) {
      assert log.leases[l].response in Chain(log.records, log.leases[l].response);
    }
    if Children(log.records, r) == {} {
      leaf := r;
    } else {
      var c :| c in Children(log.records, r);
      forall l | l in log.leases && log.leases[l].status == Live
        ensures c !in Chain(log.records, log.leases[l].response)
      {
        if c in Chain(log.records, log.leases[l].response) {
          ChainClosed(log.records, log.leases[l].response, c);
        }
      }
      leaf := GarbageHasUnreferenced(log, c);
    }
  }

  /******* Sweeps *******/

  lemma {:induction false} RunConcat(log: Log, first: seq<Step>, second: seq<Step>)
    ensures Run(log, first + second) == Run(Run(log, first), second)
    decreases |first|
  {
    if first == [] {
      assert first + second == second;
    } else {
      assert (first + second)[1..] == first[1..] + second;
      RunConcat(After(log, first[0]), first[1..], second);
    }
  }

  lemma {:induction false} CarefulConcat(log: Log, first: seq<Step>, second: seq<Step>)
    ensures Careful(log, first + second) <==> Careful(log, first) && Careful(Run(log, first), second)
    decreases |first|
  {
    if first == [] {
      assert first + second == second;
    } else {
      assert (first + second)[1..] == first[1..] + second;
      CarefulConcat(After(log, first[0]), first[1..], second);
    }
  }

  lemma RunStep(log: Log, steps: seq<Step>, step: Step)
    ensures Run(log, steps + [step]) == After(Run(log, steps), step)
  {
    RunConcat(log, steps, [step]);
  }

  lemma RunCons(log: Log, step: Step, steps: seq<Step>)
    ensures Run(log, [step] + steps) == Run(After(log, step), steps)
  {
    assert ([step] + steps)[1..] == steps;
  }

  function Members(list: seq<ResponseKey>): set<ResponseKey> {
    set r | r in list
  }

  /**
   The collector has removed the first `|steps|` responses of the chain above `r`, and nothing else from the records.
   */
  ghost predicate Collected(log: Log, r: ResponseKey, steps: seq<Step>, now: Log)
    requires Lineal(log.records) && r in log.records
  {
    var chain := Chain(log.records, r);
    && |steps| <= |chain|
    && now == Run(log, steps)
    && (forall i | 0 <= i < |steps| :: steps[i] == Remove(chain[i]))
    && now.records == log.records - Members(chain[..|steps|])
  }

  /** A collected run removed as many responses as it took steps. */
  lemma {:induction false} CollectedCount(records: map<ResponseKey, Record>, r: ResponseKey, n: nat)
    requires Lineal(records) && r in records && n <= |Chain(records, r)|
    ensures |records.Keys| - |(records - Members(Chain(records, r)[..n])).Keys| == n
  {
    ChainDescends(records, r);
    var chain := Chain(records, r)[..n];
    assert forall i | 0 <= i < |chain| :: chain[i] in records;
    assert forall i, j | 0 <= i < j < |chain| :: records[chain[j]].created < records[chain[i]].created;
    SizeDropped(records, chain);
  }

  lemma SizeDropped(records: map<ResponseKey, Record>, chain: seq<ResponseKey>)
    requires forall i | 0 <= i < |chain| :: chain[i] in records
    requires forall i, j | 0 <= i < j < |chain| :: records[chain[j]].created < records[chain[i]].created
    ensures |records.Keys| - |(records - Members(chain)).Keys| == |chain|
  {
    DistinctMembers(records, chain);
    SizeWithout(records.Keys, Members(chain));
    assert (records - Members(chain)).Keys == records.Keys - Members(chain);
  }

  lemma SizeWithout<T>(all: set<T>, gone: set<T>)
    requires gone <= all
    ensures |all - gone| == |all| - |gone|
  {
    assert all == (all - gone) + gone;
  }

  lemma {:induction false} DistinctMembers(records: map<ResponseKey, Record>, chain: seq<ResponseKey>)
    requires forall i | 0 <= i < |chain| :: chain[i] in records
    requires forall i, j | 0 <= i < j < |chain| :: records[chain[j]].created < records[chain[i]].created
    ensures |Members(chain)| == |chain|
  {
    if chain != [] {
      DistinctMembers(records, chain[1..]);
      assert Members(chain) == Members(chain[1..]) + {chain[0]};
      assert chain[0] !in Members(chain[1..]);
    }
  }

  /** What a collected run means for whoever asked for it. */
  lemma {:induction false} CollectedSweep(log: Log, r: ResponseKey, steps: seq<Step>, now: Log)
    requires Lineal(log.records) && r in log.records && Collected(log, r, steps, now)
    ensures now == Run(log, steps)
    ensures forall i | 0 <= i < |steps| :: Sweeping(steps[i]) && Scheduled(steps[i])
    ensures |log.records.Keys| - |now.records.Keys| == |steps|
    ensures Stopped(log, r, |steps|, now) && !Referenced(log, r) ==> |steps| > 0
  {
    CollectedCount(log.records, r, |steps|);
  }

  /** What gc_expire_response_leases looks for. */
  predicate Expirable(lease: Lease, now: int) {
    lease.status == Live && lease.expires.Some? && lease.expires.value <= now
  }

  /** What gc_prune_conversations looks for. */
  predicate Stale(conversation: Conversation, now: int) {
    conversation.retention.Some? && conversation.retention.value <= now
  }

  /** The leases that gc_expire_response_leases has yet to take, and the conversations gc_prune_conversations has. */
  function Due(leases: map<LeaseKey, Lease>, now: int): set<LeaseKey> {
    set l | l in leases && Expirable(leases[l], now)
  }

  function Outdated(conversations: map<ConversationKey, Conversation>, now: int): set<ConversationKey> {
    set c | c in conversations && Stale(conversations[c], now)
  }

  /** Without this lease, and perhaps some dead ones, one less is due. */
  lemma OneLessDue(before: map<LeaseKey, Lease>, after: map<LeaseKey, Lease>, l: LeaseKey, now: int)
    requires l in Due(before, now) && l !in after
    requires forall m | m in after :: m in before && after[m] == before[m]
    requires forall m | m in before && before[m].status == Live && m != l :: m in after
    ensures Due(after, now) == Due(before, now) - {l} && |Due(after, now)| == |Due(before, now)| - 1
  {
    assert Due(after, now) == Due(before, now) - {l};
  }

  lemma OneLessOutdated(conversations: map<ConversationKey, Conversation>, c: ConversationKey, now: int)
    requires c in Outdated(conversations, now)
    ensures Outdated(conversations - {c}, now) == Outdated(conversations, now) - {c}
    ensures |Outdated(conversations - {c}, now)| == |Outdated(conversations, now)| - 1
  {
    assert Outdated(conversations - {c}, now) == Outdated(conversations, now) - {c};
  }

  lemma AfterExpire(log: Log, l: LeaseKey, now: int)
    requires l in log.leases && Expirable(log.leases[l], now)
    ensures After(log, ExpireLease(l, now)) == log.(leases := log.leases - {l})
  {
  }

  lemma AfterPrune(log: Log, c: ConversationKey, now: int)
    requires c in log.conversations && Stale(log.conversations[c], now)
    ensures After(log, PruneConversation(c, now)) == ConversationsDropped(log, {c})
  {
  }

  lemma AfterPrunePayload(log: Log, p: PayloadKey)
    requires p in log.payloads && Uses(log.items, p) == {}
    ensures After(log, PrunePayload(p)) == log.(payloads := log.payloads - {p})
  {
  }

  /** A sweep leaves conversations and live leases as they are. */
  lemma {:induction false} SweepKeepsHolders(log: Log, steps: seq<Step>)
    requires forall i | 0 <= i < |steps| :: Sweeping(steps[i])
    ensures var end := Run(log, steps);
      && end.conversations == log.conversations
      && (forall l | l in log.leases && log.leases[l].status == Live ::
          l in end.leases && end.leases[l] == log.leases[l])
      && (forall l | l in end.leases :: l in log.leases && end.leases[l] == log.leases[l])
    decreases |steps|
  {
    if steps != [] {
      SweepKeepsHolders(After(log, steps[0]), steps[1..]);
    }
  }

  /** It went as far as it could: to the root, or to a response that something still refers to. */
  ghost predicate Stopped(log: Log, r: ResponseKey, deleted: nat, now: Log)
    requires Lineal(log.records) && r in log.records
  {
    var chain := Chain(log.records, r);
    deleted < |chain| ==> Referenced(now, chain[deleted])
  }

  /** What the collector finds next on its way up. */
  lemma CollectFinds(log: Log, r: ResponseKey, steps: seq<Step>, now: Log)
    requires Lineal(log.records) && r in log.records && Collected(log, r, steps, now)
      && |steps| < |Chain(log.records, r)|
    ensures var chain := Chain(log.records, r);
      && chain[|steps|] in now.records
      && now.records[chain[|steps|]].prev == if |steps| + 1 < |chain| then Some(chain[|steps| + 1]) else None
  {
    hide Chain, Lineal, Run;
    ChainDescends(log.records, r);
    ChainSteps(log.records, r, |steps|);
    NotYetGone(log.records, Chain(log.records, r), |steps|);
  }

  lemma NotYetGone(records: map<ResponseKey, Record>, chain: seq<ResponseKey>, n: nat)
    requires n < |chain| && forall i | 0 <= i < |chain| :: chain[i] in records
    requires forall i, j | 0 <= i < j < |chain| :: records[chain[j]].created < records[chain[i]].created
    ensures chain[n] !in Members(chain[..n])
  {
  }

  lemma CollectStep(log: Log, r: ResponseKey, steps: seq<Step>, now: Log)
    requires Lineal(log.records) && r in log.records && Collected(log, r, steps, now)
      && |steps| < |Chain(log.records, r)|
    requires Chain(log.records, r)[|steps|] in now.records && !Referenced(now, Chain(log.records, r)[|steps|])
    ensures var next := Chain(log.records, r)[|steps|];
      Collected(log, r, steps + [Remove(next)], Removed(now, next))
  {
    hide Lineal, Chain, Run, After, Removed, Referenced, Members;
    var chain := Chain(log.records, r);
    RunStep(log, steps, Remove(chain[|steps|]));
    AfterRemove(now, chain[|steps|]);
    OneMoreGone(log.records, chain, |steps|);
    OneMoreStep(chain, steps);
  }

  lemma OneMoreStep(chain: seq<ResponseKey>, steps: seq<Step>)
    requires |steps| < |chain| && forall i | 0 <= i < |steps| :: steps[i] == Remove(chain[i])
    ensures var more := steps + [Remove(chain[|steps|])];
      forall i | 0 <= i < |more| :: more[i] == Remove(chain[i])
  {
  }

  lemma OneMoreGone(records: map<ResponseKey, Record>, chain: seq<ResponseKey>, n: nat)
    requires n < |chain|
    ensures records - Members(chain[..n + 1]) == records - Members(chain[..n]) - {chain[n]}
  {
    assert chain[..n + 1] == chain[..n] + [chain[n]];
  }

  lemma AfterRemove(log: Log, r: ResponseKey)
    requires r in log.records && !Referenced(log, r)
    ensures After(log, Remove(r)) == Removed(log, r) && Removed(log, r).records == log.records - {r}
  {
  }

  /** The steps of the collector itself. */
  predicate Sweeping(step: Step) {
    step.Remove? || step.PrunePayload?
  }

  /** The steps of the four scheduled procedures. */
  predicate Scheduled(step: Step) {
    Sweeping(step) || step.ExpireLease? || step.PruneConversation?
  }

  lemma AfterInvariants(log: Log, step: Step)
    requires Consistent(log) && HeadsLeased(log) && SparesHeads(log, step)
    ensures Consistent(After(log, step)) && HeadsLeased(After(log, step))
  {
    if Next(log, step).Some? {
      NextConsistent(log, step);
      NextHeadsLeased(log, step);
    }
  }

  /** One turn of a sweep takes what it takes out of the garbage. */
  lemma SweepStep(log: Log, step: Step)
    requires Consistent(log) && HeadsLeased(log) && Sweeping(step)
    ensures var next := After(log, step);
      && Consistent(next) && HeadsLeased(next)
      && next.records.Keys <= log.records.Keys
      && log.records.Keys - next.records.Keys <= Garbage(log)
      && Garbage(next) == Garbage(log) - (log.records.Keys - next.records.Keys)
  {
    hide Consistent, HeadsLeased;
    AfterInvariants(log, step);
    if step.Remove? && Next(log, step).Some? {
      RemovedGarbage(log, step.key);
      UnreferencedIsGarbage(log, step.key);
    } else {
      var next := After(log, step);
      assert next.records == log.records && next.leases == log.leases;
      assert forall r | r in log.records :: Held(next, r) <==> Held(log, r);
    }
  }

  /** A sweep removes garbage only, makes none, and loses nothing but what it removes. */
  lemma {:induction false} SweepTakesGarbage(log: Log, steps: seq<Step>)
    requires Consistent(log) && HeadsLeased(log) && forall i | 0 <= i < |steps| :: Sweeping(steps[i])
    ensures var end := Run(log, steps);
      && Consistent(end) && HeadsLeased(end)
      && end.records.Keys <= log.records.Keys
      && log.records.Keys - end.records.Keys <= Garbage(log)
      && Garbage(end) == Garbage(log) - (log.records.Keys - end.records.Keys)
    decreases |steps|
  {
    hide HeadsLeased, Garbage, SparesHeads, Next;
    if steps != [] {
      var mid := After(log, steps[0]);
      SweepStep(log, steps[0]);
      SweepTakesGarbage(mid, steps[1..]);
      RunCons(log, steps[0], steps[1..]);
      assert [steps[0]] + steps[1..] == steps;
      TakenInTwo(log.records.Keys, mid.records.Keys, Run(log, steps).records.Keys, Garbage(log));
    }
  }

  /** What is taken in two turns, each out of what the one before left. */
  lemma TakenInTwo<T>(all: set<T>, mid: set<T>, end: set<T>, garbage: set<T>)
    requires end <= mid <= all && all - mid <= garbage && mid - end <= garbage - (all - mid)
    ensures end <= all && all - end <= garbage
    ensures garbage - (all - mid) - (mid - end) == garbage - (all - end)
  {
    assert all - end == (all - mid) + (mid - end);
  }

  lemma ScheduledStep(log: Log, step: Step, r: ResponseKey)
    requires Consistent(log) && HeadsLeased(log) && Scheduled(step)
    ensures var next := After(log, step);
      && Consistent(next) && HeadsLeased(next) && next.records.Keys <= log.records.Keys
      && (r in next.records ==> Replay(next, r) == Replay(log, r))
  {
    hide Consistent, Replay, Matched, SameItems;
    AfterInvariants(log, step);
    if Next(log, step).Some? && r in log.records && step != Remove(r) {
      NextKeepsReplay(log, step, r);
    }
  }

  /** Whatever a run of the scheduled procedures leaves in the log replays as it did before. */
  lemma {:induction false} ScheduledKeepsReplay(log: Log, steps: seq<Step>, r: ResponseKey)
    requires Consistent(log) && HeadsLeased(log) && forall i | 0 <= i < |steps| :: Scheduled(steps[i])
    ensures var end := Run(log, steps);
      && Consistent(end) && HeadsLeased(end) && end.records.Keys <= log.records.Keys
      && (r in end.records ==> Replay(end, r) == Replay(log, r))
    decreases |steps|
  {
    if steps != [] {
      ScheduledStep(log, steps[0], r);
      ScheduledKeepsReplay(After(log, steps[0]), steps[1..], r);
    }
  }

  /** No sweep touches a live-leased response or an ancestor of one, nor what they replay. */
  lemma SweepSparesHeld(log: Log, steps: seq<Step>, r: ResponseKey)
    requires Consistent(log) && HeadsLeased(log) && forall i | 0 <= i < |steps| :: Sweeping(steps[i])
    requires r in log.records && Held(log, r)
    ensures var end := Run(log, steps);
      && Consistent(end) && r in end.records && Held(end, r) && Replay(end, r) == Replay(log, r)
  {
    SweepTakesGarbage(log, steps);
    ScheduledKeepsReplay(log, steps, r);
    var end := Run(log, steps);
    assert r !in Garbage(log);
    assert r in end.records && r !in Garbage(end);
  }

  /** Nothing is left unreferenced that was not so before. */
  ghost predicate NoneLoosened(log: Log, now: Log) {
    forall u | u in now.records && !Referenced(now, u) :: u in log.records && !Referenced(log, u)
  }

  lemma NoneLoosenedThrough(log: Log, mid: Log, now: Log)
    requires NoneLoosened(log, mid) && NoneLoosened(mid, now)
    ensures NoneLoosened(log, now)
  {
    hide Referenced;
  }

  /** Where only `r` can have been left unreferenced, and what follows sees to it. */
  lemma LoosenedButOne(log: Log, mid: Log, now: Log, r: ResponseKey)
    requires forall u | u in mid.records && !Referenced(mid, u) :: u == r || !Referenced(log, u)
    requires mid.records == log.records && NoneLoosened(mid, now) && (r in now.records ==> Referenced(now, r))
    ensures NoneLoosened(log, now)
  {
    hide Referenced;
  }

  /** Nothing but perhaps this one response is left unreferenced that was not so before. */
  ghost predicate LoosenedBut(log: Log, now: Log, edge: ResponseKey) {
    forall u | u in now.records && !Referenced(now, u) :: u == edge || (u in log.records && !Referenced(log, u))
  }

  lemma LoosenedButThrough(log: Log, mid: Log, now: Log, edge: ResponseKey)
    requires NoneLoosened(log, mid) && LoosenedBut(mid, now, edge)
    ensures LoosenedBut(log, now, edge)
  {
    hide Referenced;
  }

  /** Where only `r` can have been left unreferenced, and what follows takes it, refers to it, or ends on it. */
  lemma LoosenedEdge(log: Log, mid: Log, now: Log, r: ResponseKey, edge: ResponseKey)
    requires forall u | u in mid.records && !Referenced(mid, u) :: u == r || !Referenced(log, u)
    requires mid.records == log.records && LoosenedBut(mid, now, edge)
    requires r in now.records ==> r == edge || Referenced(now, r)
    ensures LoosenedBut(log, now, edge)
  {
    hide Referenced;
  }

  lemma NoneLoosenedYet(log: Log)
    ensures NoneLoosened(log, log) && Run(log, []) == log
    ensures forall edge :: LoosenedBut(log, log, edge)
  {
  }

  /**
   A response that something refers to in a log is still referred to in a later one, by the same child or live lease.
   */
  lemma StillReferenced(log: Log, now: Log, u: ResponseKey)
    requires forall l | l in log.leases && log.leases[l].status == Live ::
      l in now.leases && now.leases[l] == log.leases[l]
    requires forall c | c in log.records && log.records[c].prev == Some(u) ::
      c in now.records && now.records[c] == log.records[c]
    ensures Referenced(log, u) ==> Referenced(now, u)
  {
    if c :| c in Children(log.records, u) {
      assert c in Children(now.records, u);
    } else if l :| l in LiveLeases(log.leases, u) {
      assert l in LiveLeases(now.leases, u);
    }
  }

  /** A collected run that stopped by itself leaves nothing unreferenced that was not so before, and not its start. */
  lemma CollectedLoosens(log: Log, r: ResponseKey, steps: seq<Step>, now: Log)
    requires Lineal(log.records) && r in log.records && Collected(log, r, steps, now) && Stopped(log, r, |steps|, now)
    requires forall l | l in log.leases && log.leases[l].status == Live ::
      l in now.leases && now.leases[l] == log.leases[l]
    ensures NoneLoosened(log, now) && (r in now.records ==> Referenced(now, r))
  {
    hide Lineal, Chain, Run, Referenced;
    forall u | u in now.records && !Referenced(now, u) ensures u in log.records && !Referenced(log, u) {
      forall c | c in log.records && log.records[c].prev == Some(u)
        ensures c in now.records && now.records[c] == log.records[c]
      {
        ChildStays(log, r, steps, now, u, c);
      }
      StillReferenced(log, now, u);
    }
    StartGone(log, r, steps, now);
  }

  lemma ChildStays(log: Log, r: ResponseKey, steps: seq<Step>, now: Log, u: ResponseKey, c: ResponseKey)
    requires Lineal(log.records) && r in log.records && Collected(log, r, steps, now) && Stopped(log, r, |steps|, now)
    requires u in now.records && !Referenced(now, u) && c in log.records && log.records[c].prev == Some(u)
    ensures c in now.records && now.records[c] == log.records[c]
  {
    hide Lineal, Chain, Run, Referenced;
    var chain, n := Chain(log.records, r), |steps|;
    if c in Members(chain[..n]) {
      var i :| 0 <= i < n && chain[i] == c;
      ChainSteps(log.records, r, i);
    }
  }

  /** Where a collected run ends: at the first response it left, unless it went to the root. */
  ghost function Edge(log: Log, r: ResponseKey, n: nat): ResponseKey
    requires Lineal(log.records) && r in log.records
  {
    if n < |Chain(log.records, r)| then Chain(log.records, r)[n] else r
  }

  /** A collected run, whatever stopped it, leaves nothing else unreferenced that was not so before. */
  lemma CollectedEdge(log: Log, r: ResponseKey, steps: seq<Step>, now: Log)
    requires Lineal(log.records) && r in log.records && Collected(log, r, steps, now)
    requires forall l | l in log.leases && log.leases[l].status == Live ::
      l in now.leases && now.leases[l] == log.leases[l]
    ensures LoosenedBut(log, now, Edge(log, r, |steps|))
    ensures r in now.records ==> r == Edge(log, r, |steps|)
  {
    hide Lineal, Chain, Run, Referenced;
    var edge := Edge(log, r, |steps|);
    forall u | u in now.records && !Referenced(now, u) && u != edge ensures u in log.records && !Referenced(log, u) {
      forall c | c in log.records && log.records[c].prev == Some(u)
        ensures c in now.records && now.records[c] == log.records[c]
      {
        ChildBelowEdge(log, r, steps, now, u, c);
      }
      StillReferenced(log, now, u);
    }
    StartAtEdge(log, r, steps, now);
  }

  lemma ChildBelowEdge(log: Log, r: ResponseKey, steps: seq<Step>, now: Log, u: ResponseKey, c: ResponseKey)
    requires Lineal(log.records) && r in log.records && Collected(log, r, steps, now)
    requires u in now.records && u != Edge(log, r, |steps|) && c in log.records && log.records[c].prev == Some(u)
    ensures c in now.records && now.records[c] == log.records[c]
  {
    hide Lineal, Chain, Run, Referenced;
    var chain, n := Chain(log.records, r), |steps|;
    if c in Members(chain[..n]) {
      var i :| 0 <= i < n && chain[i] == c;
      ChainSteps(log.records, r, i);
    }
  }

  lemma StartAtEdge(log: Log, r: ResponseKey, steps: seq<Step>, now: Log)
    requires Lineal(log.records) && r in log.records && Collected(log, r, steps, now)
    ensures r in now.records ==> r == Edge(log, r, |steps|)
  {
    hide Lineal, Run;
    var chain := Chain(log.records, r);
    assert chain[0] == r;
    if |steps| > 0 {
      assert chain[..|steps|][0] == r;
    }
  }

  lemma StartGone(log: Log, r: ResponseKey, steps: seq<Step>, now: Log)
    requires Lineal(log.records) && r in log.records && Collected(log, r, steps, now) && Stopped(log, r, |steps|, now)
    ensures r in now.records ==> Referenced(now, r)
  {
    hide Lineal, Run, Referenced;
    var chain := Chain(log.records, r);
    assert chain[0] == r;
    if |steps| > 0 {
      assert chain[..|steps|][0] == r;
    }
  }

  /** Without an expired lease only the response it was on can be left unreferenced. */
  lemma ExpiredLoosens(log: Log, l: LeaseKey)
    requires l in log.leases
    ensures var next := log.(leases := log.leases - {l});
      forall u | u in next.records && !Referenced(next, u) :: u == log.leases[l].response || !Referenced(log, u)
  {
    var next := log.(leases := log.leases - {l});
    forall u | u in next.records && !Referenced(next, u) && Referenced(log, u) ensures u == log.leases[l].response {
      assert Children(next.records, u) == Children(log.records, u);
      var m :| m in LiveLeases(log.leases, u);
      assert m != l ==> m in LiveLeases(next.leases, u);
    }
  }

  /** Without a conversation only its head can be left unreferenced. */
  lemma PrunedLoosens(log: Log, c: ConversationKey)
    requires HeadsLeased(log) && c in log.conversations
    ensures var next := ConversationsDropped(log, {c});
      forall u | u in next.records && !Referenced(next, u) :: u == log.conversations[c].head || !Referenced(log, u)
  {
    var next := ConversationsDropped(log, {c});
    forall u | u in next.records && !Referenced(next, u) && Referenced(log, u) ensures u == log.conversations[c].head {
      assert Children(next.records, u) == Children(log.records, u);
      var m :| m in LiveLeases(log.leases, u);
      assert m !in LiveLeases(next.leases, u);
      assert m !in next.leases;
    }
  }

  /** Where all was held, and nothing has been left unreferenced since, all is held. */
  lemma NoneLoosenedHolds(log: Log, now: Log)
    requires Consistent(log) && Consistent(now)
    ensures NoneLoosened(log, now) && Garbage(log) == {} ==> Garbage(now) == {}
  {
    if NoneLoosened(log, now) && Garbage(log) == {} {
      forall u | u in now.records ensures Referenced(now, u) {
        if !Referenced(now, u) {
          UnreferencedIsGarbage(log, u);
        }
      }
      QuiescentHoldsHeld(now);
    }
  }

  /** Quiescence is completeness: when nothing unreferenced is left, exactly the held responses are. */
  lemma QuiescentHoldsHeld(log: Log)
    requires Consistent(log) && forall r | r in log.records :: Referenced(log, r)
    ensures Garbage(log) == {}
  {
    if r :| r in Garbage(log) {
      var leaf := GarbageHasUnreferenced(log, r);
    }
  }

  /** A sweep that filled its batch or found nothing more took as much garbage as the batch allows. */
  lemma SweptAll(log: Log, end: Log, batch: nat)
    requires Consistent(log) && Consistent(end) && end.records.Keys <= log.records.Keys
    requires log.records.Keys - end.records.Keys <= Garbage(log)
    requires Garbage(end) == Garbage(log) - (log.records.Keys - end.records.Keys)
    requires |log.records.Keys| - |end.records.Keys| <= batch
    requires |log.records.Keys| - |end.records.Keys| == batch || forall r | r in end.records :: Referenced(end, r)
    ensures |log.records.Keys - end.records.Keys| == (if |Garbage(log)| <= batch then |Garbage(log)| else batch)
    ensures |Garbage(log)| <= batch ==> end.records.Keys == log.records.Keys - Garbage(log)
  {
    if |log.records.Keys| - |end.records.Keys| < batch {
      QuiescentHoldsHeld(end);
    }
    SizesSwept(log.records.Keys, end.records.Keys, Garbage(log), Garbage(end), batch);
  }

  lemma SizesSwept<T>(all: set<T>, left: set<T>, garbage: set<T>, remaining: set<T>, batch: nat)
    requires left <= all && all - left <= garbage <= all && remaining == garbage - (all - left)
    requires |all| - |left| <= batch && (|all| - |left| == batch || remaining == {})
    ensures |all - left| == if |garbage| <= batch then |garbage| else batch
    ensures |garbage| <= batch ==> left == all - garbage
  {
    SizeWithout(all, left);
    SizeWithout(garbage, all - left);
    if remaining == {} {
      assert all - left == garbage;
    }
    assert left == all - (all - left);
  }

  /** A batch that takes nothing had nothing to take. */
  lemma TookNothing<T>(all: set<T>, left: set<T>, garbage: set<T>, remaining: set<T>, batch: int)
    requires left <= all && remaining == garbage - (all - left) && batch > 0
    requires |all - left| == (if |garbage| <= batch then |garbage| else batch)
    ensures if |left| == |all| then remaining == {} else |left| < |all|
  {
    SizeWithout(all, all - left);
    assert all - (all - left) == left;
  }

  lemma AllTaken<T>(all: set<T>, left: set<T>, garbage: set<T>, remaining: set<T>)
    requires left <= all && all - left <= garbage && remaining == garbage - (all - left) && remaining == {}
    ensures left == all - garbage
  {
    forall g | g in garbage ensures g in all - left {
      assert g !in remaining;
    }
    assert all - left == garbage;
    assert left == all - (all - left);
  }

  lemma RunFirst(log: Log, steps: seq<Step>, i: nat)
    requires i < |steps|
    ensures Run(log, steps[i..]) == Run(After(log, steps[i]), steps[i + 1..])
    ensures Careful(log, steps[i..]) <==> SparesHeads(log, steps[i]) && Careful(After(log, steps[i]), steps[i + 1..])
  {
    assert steps[i..][1..] == steps[i + 1..];
  }
}
