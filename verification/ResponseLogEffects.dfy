/** What each transaction does to the rows of the tables, and what a reader then finds. */
module ResponseLogEffects {
  import opened Wrappers
  import opened ResponseLogSpec
  import opened ResponseLogInvariants
  import opened ResponseLogReplay

  /******* Items *******/

  /** The item row `k` is there and its payload is `item`. */
  ghost predicate Stores(log: Log, k: ItemKey, item: Payload) {
    && k in log.items && log.items[k] in log.payloads
    && log.payloads[log.items[k]] == item
  }

  /** Payload rows are neither lost nor changed, and each new one is in use. */
  ghost predicate PayloadsKept(log: Log, next: Log) {
    && (forall p | p in log.payloads :: p in next.payloads && next.payloads[p] == log.payloads[p])
    && (forall p | p in next.payloads && p !in log.payloads :: Uses(next.items, p) != {})
  }

  /** The rows of these keys apart, all item rows are as before. */
  ghost predicate OtherItemsKept(log: Log, next: Log, keys: iset<ItemKey>) {
    forall k | k !in keys :: (k in next.items <==> k in log.items) && (k in log.items ==> next.items[k] == log.items[k])
  }

  /** Only item and payload rows were written. */
  ghost predicate OnlyItems(log: Log, next: Log) {
    && next.records == log.records && next.leases == log.leases && next.conversations == log.conversations
    && next.tombstones == log.tombstones && next.serial >= log.serial
  }

  /** No payload of this scope has the item's hash and another content. */
  ghost predicate Fits(log: Log, scope: int, item: Payload) {
    && item.Object?
    && forall p | p in log.payloads && p.scope == scope && log.payloads[p].hash == item.hash :: log.payloads[p] == item
  }

  /**
   An item is taken exactly when its key is free, its response is there and its hash is not another payload's; then
   that row holds it and no other changes.
   */
  lemma AddItemRows(log: Log, k: ItemKey, item: Payload)
    requires Consistent(log)
    ensures AddItem(log, k, item).Some? <==>
      k !in log.items && k.index >= 0 && k.response in log.records && Fits(log, k.response.scope, item)
    ensures AddItem(log, k, item).Some? ==>
      var next := AddItem(log, k, item).value;
      && Stores(next, k, item) && OtherItemsKept(log, next, iset{k}) && PayloadsKept(log, next) && OnlyItems(log, next)
  {
    hide Lineal, BasesShared, LeasesLinked, HeadsLinked, OneLivePerOwner;
    if AddItem(log, k, item).Some? {
      InternConsistent(log, k.response.scope, item);
      var next, p := AddItem(log, k, item).value, Intern(log, k.response.scope, item).value.1;
      if p !in log.payloads {
        assert k in Uses(next.items, p);
      }
    }
  }

  /** Replacing needs the row; the new content goes in under the same key and no other row changes. */
  lemma ReplacedRows(log: Log, k: ItemKey, item: Payload)
    requires Consistent(log)
    ensures Replaced(log, k, item).Some? <==> k in log.items && k.index >= 0 && Fits(log, k.response.scope, item)
    ensures Replaced(log, k, item).Some? ==>
      var next := Replaced(log, k, item).value;
      && Stores(next, k, item) && OtherItemsKept(log, next, iset{k}) && PayloadsKept(log, next) && OnlyItems(log, next)
  {
    if k in log.items {
      var without := log.(items := log.items - {k});
      ItemDeletedConsistent(log, k);
      AddItemRows(without, k, item);
      assert k.response in log.records;
    }
  }

  ghost function Keys(r: ResponseKey, d: Direction, low: int, high: int): iset<ItemKey> {
    iset k: ItemKey | k.response == r && k.direction == d && low <= k.index < high
  }

  /** These items are the rows at consecutive indexes from `index` on. */
  ghost predicate StoresAll(log: Log, r: ResponseKey, d: Direction, index: int, items: seq<Payload>) {
    forall i | 0 <= i < |items| :: Stores(log, ItemKey(r, d, index + i), items[i])
  }

  lemma StoredStays(log: Log, next: Log, keys: iset<ItemKey>, k: ItemKey, item: Payload)
    requires Stores(log, k, item) && k !in keys && OtherItemsKept(log, next, keys) && PayloadsKept(log, next)
    ensures Stores(next, k, item)
  {
  }

  lemma KeptTwice(log: Log, mid: Log, next: Log, first: iset<ItemKey>, second: iset<ItemKey>, both: iset<ItemKey>)
    requires OtherItemsKept(log, mid, first) && PayloadsKept(log, mid) && OnlyItems(log, mid)
    requires OtherItemsKept(mid, next, second) && PayloadsKept(mid, next) && OnlyItems(mid, next)
    requires first + second == both && (forall k | k in second :: k !in mid.items)
    ensures OtherItemsKept(log, next, both) && PayloadsKept(log, next) && OnlyItems(log, next)
  {
    forall p | p in next.payloads && p !in log.payloads ensures Uses(next.items, p) != {} {
      if p in mid.payloads {
        var k :| k in Uses(mid.items, p);
        assert k in Uses(next.items, p);
      }
    }
  }

  lemma {:induction false} AddItemsRows(log: Log, r: ResponseKey, d: Direction, index: int, items: seq<Payload>)
    requires Consistent(log) && AddItems(log, r, d, index, items).Some?
    ensures var next := AddItems(log, r, d, index, items).value;
      && Consistent(next) && StoresAll(next, r, d, index, items)
      && OtherItemsKept(log, next, Keys(r, d, index, index + |items|))
      && PayloadsKept(log, next) && OnlyItems(log, next)
      && (forall k | k in Keys(r, d, index, index + |items|) :: k !in log.items && k in next.items)
    decreases |items|
  {
    hide Consistent, Stores, PayloadsKept, OtherItemsKept, OnlyItems, AddItem, Fits;
    if items == [] {
      NothingWritten(log, Keys(r, d, index, index));
    } else {
      var k := ItemKey(r, d, index);
      var mid := AddItem(log, k, items[0]).value;
      AddItemRows(log, k, items[0]);
      AddItemConsistent(log, k, items[0]);
      AddItemsRows(mid, r, d, index + 1, items[1..]);
      var next := AddItems(log, r, d, index, items).value;
      var rest, all := Keys(r, d, index + 1, index + |items|), Keys(r, d, index, index + |items|);
      assert iset{k} + rest == all;
      KeptTwice(log, mid, next, iset{k}, rest, all);
      StoredStays(mid, next, rest, k, items[0]);
      forall i | 0 <= i < |items| ensures Stores(next, ItemKey(r, d, index + i), items[i]) {
        if i > 0 {
          assert items[i] == items[1..][i - 1];
          assert ItemKey(r, d, index + i) == ItemKey(r, d, index + 1 + (i - 1));
        }
      }
      forall x | x in all ensures x !in log.items && x in next.items {
        KeyWritten(log, mid, next, k, rest, x, items[0]);
      }
    }
  }

  lemma KeyWritten(log: Log, mid: Log, next: Log, k: ItemKey, rest: iset<ItemKey>, x: ItemKey, item: Payload)
    requires Stores(next, k, item) && OtherItemsKept(log, mid, iset{k}) && k !in log.items
    requires forall y | y in rest :: y !in mid.items && y in next.items
    requires x == k || x in rest
    ensures x !in log.items && x in next.items
  {
  }

  lemma NothingWritten(log: Log, none: iset<ItemKey>)
    ensures OtherItemsKept(log, log, none) && PayloadsKept(log, log) && OnlyItems(log, log)
  {
  }

  /** Of two items with one hash, both are the same. */
  ghost predicate Agree(first: Payload, second: Payload) {
    first.hash == second.hash ==> first == second
  }

  /** The items fit the payloads there are, and one another. */
  ghost predicate AllFit(log: Log, scope: int, items: seq<Payload>) {
    && (forall i | 0 <= i < |items| :: Fits(log, scope, items[i]))
    && (forall i, j | 0 <= i < j < |items| :: Agree(items[i], items[j]))
  }

  /** What fits once an item has been interned is what fitted before and agrees with it. */
  lemma FitsAfter(log: Log, k: ItemKey, item: Payload, other: Payload)
    requires Consistent(log) && AddItem(log, k, item).Some?
    ensures Fits(AddItem(log, k, item).value, k.response.scope, other) <==>
      Fits(log, k.response.scope, other) && Agree(item, other)
  {
    hide Lineal, BasesShared, LeasesLinked, HeadsLinked, OneLivePerOwner, ItemsLinked;
    InternConsistent(log, k.response.scope, item);
    var p := Intern(log, k.response.scope, item).value.1;
    var next := AddItem(log, k, item).value;
    assert next.payloads[p] == item;
  }

  lemma {:induction false} FitsAfterAll(log: Log, r: ResponseKey, d: Direction, index: int, items: seq<Payload>,
                                        other: Payload)
    requires Consistent(log) && AddItems(log, r, d, index, items).Some?
    ensures Fits(AddItems(log, r, d, index, items).value, r.scope, other) <==>
      Fits(log, r.scope, other) && forall i | 0 <= i < |items| :: Agree(items[i], other)
    decreases |items|
  {
    hide Consistent, Fits, AddItem, Agree;
    if items != [] {
      var k := ItemKey(r, d, index);
      FitsAfter(log, k, items[0], other);
      AddItemConsistent(log, k, items[0]);
      FitsAfterAll(AddItem(log, k, items[0]).value, r, d, index + 1, items[1..], other);
      assert forall i | 0 < i < |items| :: items[i] == items[1..][i - 1];
    }
  }

  /** Items are taken in a row exactly when their keys are free, their response is there and they all fit. */
  lemma {:induction false} AddItemsTaken(log: Log, r: ResponseKey, d: Direction, index: nat, items: seq<Payload>)
    requires Consistent(log) && r in log.records && forall k | k in Keys(r, d, index, index + |items|) ::
      k !in log.items
    ensures AddItems(log, r, d, index, items).Some? <==> AllFit(log, r.scope, items)
    decreases |items|
  {
    hide Consistent, Fits, AddItem, Agree, Stores, PayloadsKept;
    if items != [] {
      var k := ItemKey(r, d, index);
      assert k in Keys(r, d, index, index + |items|);
      AddItemRows(log, k, items[0]);
      if AddItem(log, k, items[0]).Some? {
        var mid := AddItem(log, k, items[0]).value;
        AddItemConsistent(log, k, items[0]);
        AddItemsTaken(mid, r, d, index + 1, items[1..]);
        forall i | 0 <= i < |items| - 1
          ensures Fits(mid, r.scope, items[1..][i]) <==>
            Fits(log, r.scope, items[i + 1]) && Agree(items[0], items[i + 1])
        {
          FitsAfter(log, k, items[0], items[i + 1]);
        }
        AllFitFirst(log, mid, r.scope, items);
      }
    }
  }

  lemma AllFitFirst(log: Log, mid: Log, scope: int, items: seq<Payload>)
    requires items != [] && Fits(log, scope, items[0])
    requires forall i | 0 <= i < |items| - 1 ::
      Fits(mid, scope, items[1..][i]) <==> Fits(log, scope, items[i + 1]) && Agree(items[0], items[i + 1])
    ensures AllFit(mid, scope, items[1..]) <==> AllFit(log, scope, items)
  {
    hide Fits, Agree;
    var rest := items[1..];
    assert forall i | 0 < i < |items| :: items[i] == rest[i - 1];
    if AllFit(mid, scope, rest) {
      forall i | 0 <= i < |items| ensures Fits(log, scope, items[i]) {
        assert i == 0 || Fits(mid, scope, rest[i - 1]);
      }
      forall i, j | 0 <= i < j < |items| ensures Agree(items[i], items[j]) {
        assert if i == 0 then Fits(mid, scope, rest[j - 1]) else Agree(rest[i - 1], rest[j - 1]);
      }
    }
  }

  /** Two lists fit one after the other exactly when they fit as one. */
  lemma AllFitBoth(log: Log, mid: Log, scope: int, first: seq<Payload>, second: seq<Payload>)
    requires AllFit(log, scope, first)
    requires forall i | 0 <= i < |second| ::
      Fits(mid, scope, second[i]) <==>
        Fits(log, scope, second[i]) && forall j | 0 <= j < |first| :: Agree(first[j], second[i])
    ensures AllFit(mid, scope, second) <==> AllFit(log, scope, first + second)
  {
    hide Fits, Agree;
    var both := first + second;
    assert forall i | 0 <= i < |second| :: both[|first| + i] == second[i];
    if AllFit(mid, scope, second) {
      forall i | 0 <= i < |both| ensures Fits(log, scope, both[i]) {
        assert i < |first| || Fits(mid, scope, second[i - |first|]);
      }
      forall i, j | 0 <= i < j < |both| ensures Agree(both[i], both[j]) {
        if i < |first| <= j {
          assert Fits(mid, scope, second[j - |first|]);
        }
      }
    }
    if AllFit(log, scope, both) {
      forall i, j | 0 <= i < j < |second| ensures Agree(second[i], second[j]) {
        assert Agree(both[|first| + i], both[|first| + j]);
      }
      forall i | 0 <= i < |second| ensures Fits(mid, scope, second[i]) {
        assert Fits(log, scope, both[|first| + i]);
        forall j | 0 <= j < |first| ensures Agree(first[j], second[i]) {
          assert Agree(both[j], both[|first| + i]);
        }
      }
    }
  }

  /******* Creation *******/

  /**
   The new response has its inputs as input rows and its outputs as output rows, each at its position, and no other
   item.
   */
  ghost predicate Filed(log: Log, key: ResponseKey, inputs: seq<Payload>, outputs: seq<Payload>) {
    && (forall i | 0 <= i < |inputs| :: Stores(log, ItemKey(key, Input, i), inputs[i]))
    && (forall i | 0 <= i < |outputs| :: Stores(log, ItemKey(key, Output, i), outputs[i]))
    && (forall k: ItemKey | k.response == key ::
          k in log.items <==> 0 <= k.index < if k.direction.Input? then |inputs| else |outputs|)
  }

  /** The new record, above all others in insertion order; the records there were are unchanged. */
  ghost predicate Recording(log: Log, next: Log, key: ResponseKey, prev: Option<ResponseKey>, status: Status) {
    && next.records.Keys == log.records.Keys + {key} && key !in log.records
    && (forall r | r in log.records :: next.records[r] == log.records[r])
    && next.records[key].prev == prev && next.records[key].status == status
    && (forall r | r in log.records :: log.records[r].created < next.records[key].created)
  }

  /** With an expiry the response leases itself until then; no other lease comes, goes or changes. */
  ghost predicate SelfLeased(log: Log, next: Log, key: ResponseKey, expires: Option<int>) {
    && (forall l | l in log.leases :: l in next.leases && next.leases[l] == log.leases[l])
    && (expires.None? ==> next.leases == log.leases)
    && (expires.Some? ==> |next.leases| == |log.leases| + 1 &&
                          exists l :: l in next.leases && l !in log.leases &&
                                      next.leases[l] == Lease(key, ResponseOwner(key), Live, expires))
  }

  lemma RecordedRows(log: Log, key: ResponseKey, prev: Option<ResponseKey>, outputs: seq<Payload>, status: Status)
    requires StampsBelow(log) && key !in log.records && (prev.Some? ==> prev.value in log.records)
    ensures var recorded := Recorded(log, key, prev, outputs, status);
      && Recording(log, recorded, key, prev, status) && recorded.serial > log.serial
      && recorded == log.(records := recorded.records, serial := recorded.serial)
  {
    hide ContainsCompaction;
  }

  lemma SelfLeasedRows(log: Log, recorded: Log, key: ResponseKey, expires: int)
    requires StampsBelow(log) && recorded.leases == log.leases && recorded.serial > log.serial
    ensures SelfLeased(log, InsertLease(recorded, ResponseOwner(key), key, Some(expires)), key, Some(expires))
  {
    var l := LeaseKey(key.scope, recorded.serial);
    assert l !in log.leases;
    var leases := log.leases[l := Lease(key, ResponseOwner(key), Live, Some(expires))];
    assert leases.Keys == log.leases.Keys + {l};
    assert l in leases;
  }

  lemma LeasedRows(log: Log, key: ResponseKey, prev: Option<ResponseKey>, outputs: seq<Payload>, expires: Option<int>,
                   status: Status)
    requires StampsBelow(log) && key !in log.records && (prev.Some? ==> prev.value in log.records)
    ensures var leased := LeasedRecord(log, key, prev, outputs, expires, status);
      && Recording(log, leased, key, prev, status) && SelfLeased(log, leased, key, expires)
      && leased.items == log.items && leased.payloads == log.payloads
      && leased.conversations == log.conversations && leased.tombstones == log.tombstones
  {
    hide StampsBelow, Recorded;
    RecordedRows(log, key, prev, outputs, status);
    if expires.Some? {
      hide SelfLeased;
      SelfLeasedRows(log, Recorded(log, key, prev, outputs, status), key, expires.value);
    }
  }

  lemma FilledRows(log: Log, key: ResponseKey, inputs: seq<Payload>, outputs: seq<Payload>)
    requires Consistent(log) && Filled(log, key, inputs, outputs).Some?
    requires forall k | k in log.items :: k.response != key
    ensures var next := Filled(log, key, inputs, outputs).value;
      && Filed(next, key, inputs, outputs)
      && OtherItemsKept(log, next, iset k: ItemKey | k.response == key)
      && PayloadsKept(log, next) && OnlyItems(log, next)
  {
    hide Consistent, AddItems, Stores, PayloadsKept, OnlyItems;
    var mid := AddItems(log, key, Input, 0, inputs).value;
    var next := Filled(log, key, inputs, outputs).value;
    AddItemsRows(log, key, Input, 0, inputs);
    AddItemsRows(mid, key, Output, 0, outputs);
    var ins, outs := Keys(key, Input, 0, |inputs|), Keys(key, Output, 0, |outputs|);
    KeptTwice(log, mid, next, ins, outs, ins + outs);
    forall i | 0 <= i < |inputs| ensures Stores(next, ItemKey(key, Input, i), inputs[i]) {
      assert Stores(mid, ItemKey(key, Input, 0 + i), inputs[i]);
      StoredStays(mid, next, outs, ItemKey(key, Input, i), inputs[i]);
    }
    forall i | 0 <= i < |outputs| ensures Stores(next, ItemKey(key, Output, i), outputs[i]) {
      assert Stores(next, ItemKey(key, Output, 0 + i), outputs[i]);
    }
    forall k: ItemKey | k.response == key
      ensures k in next.items <==> 0 <= k.index < if k.direction.Input? then |inputs| else |outputs|
    {
      FiledKey(log, mid, next, ins, outs, k);
    }
  }

  lemma FiledKey(log: Log, mid: Log, next: Log, ins: iset<ItemKey>, outs: iset<ItemKey>, k: ItemKey)
    requires OtherItemsKept(log, mid, ins) && OtherItemsKept(mid, next, outs) && k !in log.items
    requires forall x | x in ins :: x in mid.items
    requires forall x | x in outs :: x in next.items
    ensures k in next.items <==> k in ins || k in outs
  {
  }

  lemma FilledTaken(log: Log, key: ResponseKey, inputs: seq<Payload>, outputs: seq<Payload>)
    requires Consistent(log) && key in log.records && forall k | k in log.items :: k.response != key
    ensures Filled(log, key, inputs, outputs).Some? <==> AllFit(log, key.scope, inputs + outputs)
  {
    hide Consistent, AddItems, Fits, Agree, Stores, PayloadsKept;
    AddItemsTaken(log, key, Input, 0, inputs);
    if AddItems(log, key, Input, 0, inputs).Some? {
      var mid := AddItems(log, key, Input, 0, inputs).value;
      AddItemsRows(log, key, Input, 0, inputs);
      AddItemsTaken(mid, key, Output, 0, outputs);
      forall x ensures Fits(mid, key.scope, x) <==>
        Fits(log, key.scope, x) && forall j | 0 <= j < |inputs| :: Agree(inputs[j], x)
      {
        FitsAfterAll(log, key, Input, 0, inputs, x);
      }
      AllFitBoth(log, mid, key.scope, inputs, outputs);
    } else {
      AllFitPrefix(log, key.scope, inputs, outputs);
    }
  }

  lemma AllFitPrefix(log: Log, scope: int, first: seq<Payload>, second: seq<Payload>)
    ensures AllFit(log, scope, first + second) ==> AllFit(log, scope, first)
  {
    hide Fits, Agree;
    var both := first + second;
    assert forall i | 0 <= i < |first| :: both[i] == first[i];
    if AllFit(log, scope, both) {
      forall i | 0 <= i < |first| ensures Fits(log, scope, first[i]) {
        assert Fits(log, scope, both[i]);
      }
      forall i, j | 0 <= i < j < |first| ensures Agree(first[i], first[j]) {
        assert Agree(both[i], both[j]);
      }
    }
  }

  /**
   A creation succeeds exactly when the key is new and named, its parent is there, every item says its type, no two
   different payloads share a hash, and the response does not already lease something for itself.
   */
  lemma CreatedTaken(log: Log, key: ResponseKey, prev: Option<ResponseKey>, inputs: seq<Payload>, outputs: seq<Payload>,
                     expires: Option<int>, status: Status)
    requires Consistent(log) && (prev.Some? ==> prev.value.scope == key.scope)
    ensures Created(log, key, prev, inputs, outputs, expires, status).Some? <==>
      && key.id != "" && key !in log.records && (prev.Some? ==> prev.value in log.records)
      && (forall i | 0 <= i < |inputs + outputs| :: (inputs + outputs)[i].Object? && (inputs + outputs)[i].kind != "")
      && AllFit(log, key.scope, inputs + outputs)
      && (expires.Some? ==> forall l | l in log.leases && log.leases[l].status == Live ::
                              log.leases[l].owner != ResponseOwner(key))
  {
    hide Lineal, BasesShared, LeasesLinked, HeadsLinked, OneLivePerOwner, Deduplicated, StampsBelow, AllFit, Filled;
    assert ValidItems(inputs) && ValidItems(outputs) <==>
      forall i | 0 <= i < |inputs + outputs| :: (inputs + outputs)[i].Object? && (inputs + outputs)[i].kind != "" by {
      ValidBoth(inputs, outputs);
    }
    assert (forall l | l in log.leases && log.leases[l].status == Live ::
            log.leases[l].owner != ResponseOwner(key)) <==>
      OwnedLive(log.leases, ResponseOwner(key)) == {} by {
      NoneOwned(log.leases, ResponseOwner(key));
    }
    if key !in log.records && (prev.Some? ==> prev.value in log.records)
      && (expires.Some? ==> OwnedLive(log.leases, ResponseOwner(key)) == {}) {
      LeasedTaken(log, key, prev, inputs, outputs, expires, status);
    }
  }

  lemma LeasedTaken(log: Log, key: ResponseKey, prev: Option<ResponseKey>, inputs: seq<Payload>, outputs: seq<Payload>,
                    expires: Option<int>, status: Status)
    requires Consistent(log) && key !in log.records
      && (prev.Some? ==> prev.value in log.records && prev.value.scope == key.scope)
      && (expires.Some? ==> OwnedLive(log.leases, ResponseOwner(key)) == {})
    ensures Filled(LeasedRecord(log, key, prev, outputs, expires, status), key, inputs, outputs).Some? <==>
      AllFit(log, key.scope, inputs + outputs)
  {
    hide Lineal, BasesShared, LeasesLinked, HeadsLinked, OneLivePerOwner, Deduplicated, StampsBelow, Filled, SelfLeased,
      LeasedRecord;
    var leased := LeasedRecord(log, key, prev, outputs, expires, status);
    LeasedRecordConsistent(log, key, prev, outputs, expires, status);
    LeasedRows(log, key, prev, outputs, expires, status) by {
      assert StampsBelow(log);
    }
    FilledTaken(leased, key, inputs, outputs);
    AllFitSame(log, leased, key.scope, inputs + outputs);
  }

  lemma AllFitSame(log: Log, next: Log, scope: int, items: seq<Payload>)
    requires next.payloads == log.payloads
    ensures AllFit(next, scope, items) <==> AllFit(log, scope, items)
  {
  }

  lemma ValidBoth(inputs: seq<Payload>, outputs: seq<Payload>)
    ensures ValidItems(inputs) && ValidItems(outputs) <==>
      forall i | 0 <= i < |inputs + outputs| :: (inputs + outputs)[i].Object? && (inputs + outputs)[i].kind != ""
  {
    var both := inputs + outputs;
    assert forall i | 0 <= i < |inputs| :: inputs[i] == both[i];
    assert forall i | 0 <= i < |outputs| :: outputs[i] == both[|inputs| + i];
  }

  lemma NoneOwned(leases: map<LeaseKey, Lease>, o: Owner)
    ensures (forall l | l in leases && leases[l].status == Live :: leases[l].owner != o) <==> OwnedLive(leases, o) == {}
  {
    assert forall l | l in leases && leases[l].status == Live && leases[l].owner == o :: l in OwnedLive(leases, o);
  }

  /** What a creation that succeeds leaves in the tables. */
  lemma CreatedRows(log: Log, key: ResponseKey, prev: Option<ResponseKey>, inputs: seq<Payload>, outputs: seq<Payload>,
                    expires: Option<int>, status: Status)
    requires Consistent(log) && (prev.Some? ==> prev.value.scope == key.scope)
    requires Created(log, key, prev, inputs, outputs, expires, status).Some?
    ensures var next := Created(log, key, prev, inputs, outputs, expires, status).value;
      && Filed(next, key, inputs, outputs)
      && OtherItemsKept(log, next, iset k: ItemKey | k.response == key) && PayloadsKept(log, next)
      && Recording(log, next, key, prev, status) && SelfLeased(log, next, key, expires)
      && next.conversations == log.conversations && next.tombstones == log.tombstones
  {
    hide Filed, PayloadsKept, Filled, OtherItemsKept, Recording, SelfLeased, LeasedRecord, Lineal, BasesShared,
      LeasesLinked, HeadsLinked, OneLivePerOwner, Deduplicated, StampsBelow;
    LeasedRecordConsistent(log, key, prev, outputs, expires, status);
    var leased := LeasedRecord(log, key, prev, outputs, expires, status);
    LeasedRows(log, key, prev, outputs, expires, status);
    FilledRows(leased, key, inputs, outputs);
    SameTables(log, leased, Filled(leased, key, inputs, outputs).value, iset k: ItemKey | k.response == key);
    SameRecords(log, leased, Filled(leased, key, inputs, outputs).value, key, prev, expires, status);
  }

  lemma SameRecords(log: Log, leased: Log, next: Log, key: ResponseKey, prev: Option<ResponseKey>, expires: Option<int>,
                    status: Status)
    requires Recording(log, leased, key, prev, status) && SelfLeased(log, leased, key, expires)
    requires next.records == leased.records && next.leases == leased.leases
    ensures Recording(log, next, key, prev, status) && SelfLeased(log, next, key, expires)
  {
  }

  lemma SameTables(log: Log, same: Log, next: Log, keys: iset<ItemKey>)
    requires same.items == log.items && same.payloads == log.payloads
    requires OtherItemsKept(same, next, keys) && PayloadsKept(same, next)
    ensures OtherItemsKept(log, next, keys) && PayloadsKept(log, next)
  {
  }

  /******* What a reader finds *******/

  ghost function FirstKeys(r: ResponseKey, d: Direction, n: nat): set<ItemKey> {
    set i | 0 <= i < n :: ItemKey(r, d, i)
  }

  lemma LastOfFirst(r: ResponseKey, d: Direction, n: nat)
    ensures var keys := FirstKeys(r, d, n + 1);
      keys != {} && Last(keys) == ItemKey(r, d, n) && keys - {Last(keys)} == FirstKeys(r, d, n)
  {
    hide Last;
    var keys := FirstKeys(r, d, n + 1);
    assert ItemKey(r, d, n) in keys;
  }

  lemma {:induction false} ByIndexFirst(r: ResponseKey, d: Direction, n: nat)
    ensures ByIndex(FirstKeys(r, d, n)) == seq(n, i requires 0 <= i < n => ItemKey(r, d, i))
  {
    hide Last;
    if n > 0 {
      LastOfFirst(r, d, n - 1);
      hide FirstKeys;
      ByIndexFirst(r, d, n - 1);
    }
  }

  /** These items as a replay lists them. */
  ghost function Listed(r: ResponseKey, d: Direction, items: seq<Payload>): seq<ReplayRow> {
    seq(|items|, i requires 0 <= i < |items| => ReplayRow(ItemKey(r, d, i), items[i]))
  }

  lemma {:induction false} WithPayloadsListed(log: Log, keys: seq<ItemKey>, items: seq<Payload>)
    requires |keys| == |items| && forall i | 0 <= i < |keys| :: Stores(log, keys[i], items[i])
    ensures WithPayloads(log, keys) ==
      seq(|keys|, i requires 0 <= i < |keys| && |keys| == |items| => ReplayRow(keys[i], items[i]))
  {
    if keys != [] {
      assert Stores(log, keys[0], items[0]);
      WithPayloadsListed(log, keys[1..], items[1..]);
    }
  }

  lemma RowsListed(log: Log, r: ResponseKey, d: Direction, items: seq<Payload>)
    requires forall i | 0 <= i < |items| :: Stores(log, ItemKey(r, d, i), items[i])
    requires forall k: ItemKey | k.response == r && k.direction == d :: k in log.items <==> 0 <= k.index < |items|
    ensures ItemRows(log, r, d) == Listed(r, d, items)
  {
    hide Stores;
    var keys := seq(|items|, i requires 0 <= i < |items| => ItemKey(r, d, i));
    assert KeysOf(log.items, r, d) == FirstKeys(r, d, |items|) by {
      forall k | k in KeysOf(log.items, r, d) ensures k in FirstKeys(r, d, |items|) {
        assert k == ItemKey(r, d, k.index);
      }
    }
    ByIndexFirst(r, d, |items|);
    WithPayloadsListed(log, keys, items);
    assert Listed(r, d, items) ==
      seq(|keys|, i requires 0 <= i < |keys| && |keys| == |items| => ReplayRow(keys[i], items[i]));
  }

  /**
   A new response is read as what its parent is read as, then its inputs, then its outputs; one without a parent, or
   with a compaction among its outputs, is read without anything before it.
   */
  lemma CreatedReads(log: Log, key: ResponseKey, prev: Option<ResponseKey>, inputs: seq<Payload>, outputs: seq<Payload>,
                     expires: Option<int>, status: Status)
    requires Consistent(log) && Next(log, Create(key, prev, inputs, outputs, expires, status)).Some?
    ensures var next := Next(log, Create(key, prev, inputs, outputs, expires, status)).value;
      var anew := prev.None? || exists i :: 0 <= i < |outputs| && outputs[i].Object? && outputs[i].kind == "compaction";
      && Readable(next)
      && ListResponseReplay(next, key) ==
        (if anew then [] else ListResponseReplay(log, prev.value))
        + Listed(key, Input, inputs) + Listed(key, Output, outputs)
  {
    hide *;
    CreatedWhen(log, key, prev, inputs, outputs, expires, status);
    var next := Next(log, Create(key, prev, inputs, outputs, expires, status)).value;
    CreatedReplay(log, key, prev, inputs, outputs, expires, status);
    CreatedRows(log, key, prev, inputs, outputs, expires, status);
    FiledRows(next, key, inputs, outputs);
    ReplayRefinesFold(next, key);
    ReadableWhenConsistent(log);
    if prev.Some? {
      ReplayRefinesFold(log, prev.value);
    }
  }

  lemma CreatedWhen(log: Log, key: ResponseKey, prev: Option<ResponseKey>, inputs: seq<Payload>, outputs: seq<Payload>,
                    expires: Option<int>, status: Status)
    ensures var outcome := Next(log, Create(key, prev, inputs, outputs, expires, status));
      outcome.Some? ==>
        && outcome == Created(log, key, prev, inputs, outputs, expires, status)
        && (prev.Some? ==> prev.value in log.records && prev.value.scope == key.scope)
    ensures ContainsCompaction(outputs) <==>
      exists i :: 0 <= i < |outputs| && outputs[i].Object? && outputs[i].kind == "compaction"
  {
  }

  lemma FiledRows(log: Log, key: ResponseKey, inputs: seq<Payload>, outputs: seq<Payload>)
    requires Filed(log, key, inputs, outputs)
    ensures Rows(log, key) == Listed(key, Input, inputs) + Listed(key, Output, outputs)
  {
    hide Stores, ItemRows, Listed;
    RowsListed(log, key, Input, inputs);
    RowsListed(log, key, Output, outputs);
  }

  lemma ReadableWhenConsistent(log: Log)
    ensures Consistent(log) ==> Readable(log)
  {
  }

  /** Both lists are of one response: the inputs come first, and within a direction the indexes ascend. */
  ghost predicate InOrder(rows: seq<ReplayRow>) {
    forall i, j | 0 <= i < j < |rows| ::
      if rows[i].item.direction == rows[j].item.direction then rows[i].item.index < rows[j].item.index
      else rows[i].item.direction.Input?
  }

  lemma {:induction false} WithPayloadsAll(log: Log, keys: seq<ItemKey>)
    requires forall i | 0 <= i < |keys| :: keys[i] in log.items && log.items[keys[i]] in log.payloads
    ensures |WithPayloads(log, keys)| == |keys|
    ensures forall i | 0 <= i < |keys| ::
      WithPayloads(log, keys)[i] == ReplayRow(keys[i], log.payloads[log.items[keys[i]]])
  {
    if keys != [] {
      WithPayloadsAll(log, keys[1..]);
    }
  }

  lemma ItemRowsOrdered(log: Log, r: ResponseKey, d: Direction)
    requires ItemsLinked(log.items, log.records.Keys, log.payloads.Keys)
    ensures var rows := ItemRows(log, r, d);
      && (forall i | 0 <= i < |rows| ::
          rows[i].item.response == r && rows[i].item.direction == d && Stores(log, rows[i].item, rows[i].payload))
      && (forall i, j | 0 <= i < j < |rows| :: rows[i].item.index < rows[j].item.index)
      && (forall k: ItemKey | k in log.items && k.response == r && k.direction == d ::
          exists i :: 0 <= i < |rows| && rows[i].item == k)
  {
    hide ByIndex;
    var keys := KeysOf(log.items, r, d);
    var listed, rows := ByIndex(keys), ItemRows(log, r, d);
    ByIndexSorts(keys);
    WithPayloadsAll(log, listed);
    forall i, j | 0 <= i < j < |rows| ensures rows[i].item.index < rows[j].item.index {
      assert rows[i].item == listed[i] && rows[j].item == listed[j] && listed[i] != listed[j];
      assert listed[i] in keys && listed[j] in keys;
    }
    forall k: ItemKey | k in log.items && k.response == r && k.direction == d
      ensures exists i :: 0 <= i < |rows| && rows[i].item == k
    {
      assert k in listed;
      var i :| 0 <= i < |listed| && listed[i] == k;
      assert rows[i].item == k;
    }
  }

  /** The rows of one response: every item of it with its payload, inputs before outputs, each in ascending order. */
  lemma RowsOrdered(log: Log, r: ResponseKey)
    requires ItemsLinked(log.items, log.records.Keys, log.payloads.Keys)
    ensures InOrder(Rows(log, r))
    ensures forall row :: row in Rows(log, r) <==> row.item.response == r && Stores(log, row.item, row.payload)
  {
    hide ItemRows, Stores;
    ItemRowsOrdered(log, r, Input);
    ItemRowsOrdered(log, r, Output);
    var ins, outs, rows := ItemRows(log, r, Input), ItemRows(log, r, Output), Rows(log, r);
    assert forall i | 0 <= i < |rows| :: rows[i] == if i < |ins| then ins[i] else outs[i - |ins|];
    forall row: ReplayRow | row.item.response == r && Stores(log, row.item, row.payload) ensures row in rows {
      RowListed(log, r, row);
      if row.item.direction.Input? {
        assert row in ins;
      } else {
        assert row in outs;
      }
    }
  }

  lemma RowListed(log: Log, r: ResponseKey, row: ReplayRow)
    requires ItemsLinked(log.items, log.records.Keys, log.payloads.Keys)
    requires row.item.response == r && Stores(log, row.item, row.payload)
    ensures row in ItemRows(log, r, row.item.direction)
  {
    ItemRowsOrdered(log, r, row.item.direction);
  }

  /******* Status, leases and conversations *******/

  /** The leases but the live ones of these owners are as before. */
  ghost predicate OtherLeasesKept(log: Log, next: Log, owners: iset<Owner>) {
    && (forall l | l in log.leases && !(log.leases[l].status == Live && log.leases[l].owner in owners) ::
          l in next.leases && next.leases[l] == log.leases[l])
    && (forall l | l in next.leases && !(next.leases[l].status == Live && next.leases[l].owner in owners) ::
          l in log.leases && next.leases[l] == log.leases[l])
  }

  /** The owner has a live lease, on `r`, and no other. */
  ghost predicate LeasesOnly(log: Log, o: Owner, r: ResponseKey, expires: Option<int>) {
    && (exists l :: l in log.leases && log.leases[l] == Lease(r, o, Live, expires))
    && (forall l | l in log.leases && log.leases[l].status == Live && log.leases[l].owner == o ::
          log.leases[l] == Lease(r, o, Live, expires))
  }

  /** No lease of this owner is live. */
  ghost predicate LeasesNothing(log: Log, o: Owner) {
    forall l | l in log.leases && log.leases[l].status == Live :: log.leases[l].owner != o
  }

  ghost predicate OnlyLeases(log: Log, next: Log) {
    next == log.(leases := next.leases, serial := next.serial) && next.serial >= log.serial
  }

  lemma HoldRows(log: Log, o: Owner, r: ResponseKey, expires: Option<int>)
    requires StampsBelow(log)
    ensures var next := Hold(log, o, r, expires);
      OnlyLeases(log, next) && LeasesOnly(next, o, r, expires) && OtherLeasesKept(log, next, iset{o})
  {
    var held := HoldLeases(log, o, r, expires);
    assert forall l | l in log.leases && log.leases[l].status == Live && log.leases[l].owner == o ::
      l in OwnedLive(log.leases, o);
  }

  lemma OwnedOrNot(log: Log, o: Owner)
    ensures OwnedLive(log.leases, o) == {} <==> LeasesNothing(log, o)
  {
    assert forall l | l in log.leases && log.leases[l].status == Live && log.leases[l].owner == o ::
      l in OwnedLive(log.leases, o);
  }

  /** A refreshed lease is the owner's one live lease, on that response and until that time. */
  lemma LeaseRefreshedRows(log: Log, o: Owner, r: ResponseKey, expires: Option<int>)
    requires Consistent(log)
    ensures LeaseRefreshed(log, o, r, expires).Some? <==>
      r in log.records && (LeasesNothing(log, o) ==> o.kind != "" && o.id != "")
    ensures LeaseRefreshed(log, o, r, expires).Some? ==>
      var next := LeaseRefreshed(log, o, r, expires).value;
      OnlyLeases(log, next) && LeasesOnly(next, o, r, expires) && OtherLeasesKept(log, next, iset{o})
  {
    hide Hold;
    OwnedOrNot(log, o);
    HoldRows(log, o, r, expires);
  }

  /** A released owner has no live lease; all others are as they were. */
  lemma ReleasedRows(log: Log, o: Owner)
    ensures var next := Released(log, o);
      && next == log.(leases := next.leases) && LeasesNothing(next, o) && OtherLeasesKept(log, next, iset{o})
  {
  }

  /** One lease gets the mark, unless another one of its owner is live already. */
  lemma LeaseMarkedRows(log: Log, l: LeaseKey, mark: LeaseStatus)
    ensures LeaseMarked(log, l, mark).Some? <==>
      && l in log.leases
      && (mark == Live ==> forall m | m in log.leases && log.leases[m].status == Live &&
                                      log.leases[m].owner == log.leases[l].owner :: m == l)
    ensures LeaseMarked(log, l, mark).Some? ==>
      var next := LeaseMarked(log, l, mark).value;
      && next == log.(leases := next.leases) && next.leases.Keys == log.leases.Keys
      && (forall m | m in log.leases && m != l :: next.leases[m] == log.leases[m])
      && next.leases[l] == Lease(log.leases[l].response, log.leases[l].owner, mark, log.leases[l].expires)
  {
    if l in log.leases {
      assert forall m :: m in OwnedLive(log.leases, log.leases[l].owner) - {l} <==>
        m in log.leases && log.leases[m].status == Live && log.leases[m].owner == log.leases[l].owner && m != l;
    }
  }

  /**
   The conversation is there with this head and retention, holds the head by its own lease, and nothing else moved.
   */
  ghost predicate Headed(log: Log, next: Log, c: ConversationKey, head: ResponseKey, retention: Option<int>) {
    && c in next.conversations && next.conversations[c].head == head && next.conversations[c].retention == retention
    && next.conversations.Keys == log.conversations.Keys + {c}
    && (forall d | d in log.conversations && d != c :: next.conversations[d] == log.conversations[d])
    && LeasesOnly(next, ConversationOwner(c), head, None)
    && OtherLeasesKept(log, next, iset{ConversationOwner(c)})
  }

  lemma HeadMovedRows(log: Log, c: ConversationKey, head: ResponseKey, retention: Option<int>)
    requires Consistent(log)
    ensures HeadMoved(log, c, head, retention).Some? <==>
      c.id != "" && head in log.records && (c !in log.conversations ==> LeasesNothing(log, ConversationOwner(c)))
    ensures HeadMoved(log, c, head, retention).Some? ==>
      var next := HeadMoved(log, c, head, retention).value;
      && Headed(log, next, c, head, retention)
      && next == log.(conversations := next.conversations, leases := next.leases, serial := next.serial)
  {
    hide Hold, Lineal, BasesShared, OneLivePerOwner, LeasesLinked, HeadsLinked, Deduplicated, ItemsLinked;
    OwnedOrNot(log, ConversationOwner(c));
    var moved := log.(conversations := log.conversations[c := Conversation(head, retention)]);
    HoldRows(moved, ConversationOwner(c), head, None);
    KeptSame(log, moved, Hold(moved, ConversationOwner(c), head, None), iset{ConversationOwner(c)});
  }

  lemma KeptSame(log: Log, same: Log, next: Log, owners: iset<Owner>)
    requires same.leases == log.leases && OtherLeasesKept(same, next, owners)
    ensures OtherLeasesKept(log, next, owners)
  {
  }

  /** Only the status of this record differs. */
  ghost predicate Rated(log: Log, next: Log, key: ResponseKey, status: Status) {
    && next.records.Keys == log.records.Keys && key in next.records
    && (forall r | r in log.records && r != key :: next.records[r] == log.records[r])
    && next.records[key].status == status
    && next.records[key].prev == log.records[key].prev && next.records[key].base == log.records[key].base
    && next.records[key].created == log.records[key].created
  }

  /**
   A response ends exactly when it is still running and its conversation, if it has one, can be moved to it; then its
   status is the one asked for, and the conversation's head is the response.
   */
  lemma TerminatedRows(log: Log, key: ResponseKey, status: Status, conversation: Option<string>)
    requires Consistent(log)
    ensures Terminated(log, key, status, conversation).Some? <==>
      && key in log.records && (log.records[key].status == Queued || log.records[key].status == InProgress)
      && (conversation.Some? ==>
            var c := ConversationKey(key.scope, conversation.value);
            c.id != "" && (c !in log.conversations ==> LeasesNothing(log, ConversationOwner(c))))
    ensures Terminated(log, key, status, conversation).Some? ==>
      var next := Terminated(log, key, status, conversation).value;
      && Rated(log, next, key, status) && next.items == log.items && next.payloads == log.payloads
      && next.tombstones == log.tombstones
      && (conversation.None? ==> next.conversations == log.conversations && next.leases == log.leases)
      && (conversation.Some? ==> Headed(log, next, ConversationKey(key.scope, conversation.value), key, None))
  {
    hide HeadMoved, Consistent, OtherLeasesKept, LeasesOnly;
    if key in log.records && conversation.Some? {
      var c := ConversationKey(key.scope, conversation.value);
      var rated := WithStatus(log, key, status);
      StatusConsistent(log, key, status);
      HeadMovedRows(rated, c, key, None);
      OwnedOrNot(log, ConversationOwner(c));
      OwnedOrNot(rated, ConversationOwner(c));
      if HeadMoved(rated, c, key, None).Some? {
        KeptSame(log, rated, HeadMoved(rated, c, key, None).value, iset{ConversationOwner(c)});
      }
    }
  }

  /** The conversations that `doomed` names are gone with their live leases, and nothing else. */
  lemma ConversationsDroppedRows(log: Log, doomed: set<ConversationKey>)
    ensures var next := ConversationsDropped(log, doomed);
      && next == log.(conversations := next.conversations, leases := next.leases)
      && next.conversations.Keys == log.conversations.Keys - doomed
      && (forall c | c in next.conversations :: next.conversations[c] == log.conversations[c])
      && (forall c | c in doomed :: LeasesNothing(next, ConversationOwner(c)))
      && OtherLeasesKept(log, next, iset c | c in doomed :: ConversationOwner(c))
  {
  }

  /**
   A deleted response is hidden, once; every conversation it headed is gone with its lease, and the response leases
   nothing for itself.
   */
  lemma DeletedRows(log: Log, r: ResponseKey)
    ensures Deleted(log, r).Some? <==> r in log.records && r !in log.tombstones
    ensures Deleted(log, r).Some? ==>
      var next := Deleted(log, r).value;
      && next == log.(conversations := next.conversations, leases := next.leases, tombstones := next.tombstones)
      && next.tombstones == log.tombstones + {r}
      && (forall c :: c in next.conversations <==> c in log.conversations && log.conversations[c].head != r)
      && (forall c | c in next.conversations :: next.conversations[c] == log.conversations[c])
      && LeasesNothing(next, ResponseOwner(r))
      && (forall c | c in log.conversations && log.conversations[c].head == r ::
          LeasesNothing(next, ConversationOwner(c)))
      && OtherLeasesKept(log, next, iset{ResponseOwner(r)} +
          iset c | c in log.conversations && log.conversations[c].head == r :: ConversationOwner(c))
  {
    if r in log.records && r !in log.tombstones {
      var hidden := log.(tombstones := log.tombstones + {r});
      ConversationsDroppedRows(hidden, HeadedBy(log, r));
      ReleasedRows(ConversationsDropped(hidden, HeadedBy(log, r)), ResponseOwner(r));
    }
  }

  /** A lease goes exactly when it is live and its time is up, and a conversation when it is kept only up to then. */
  lemma OverdueRows(log: Log, l: LeaseKey, c: ConversationKey, now: int)
    ensures var next := Next(log, ExpireLease(l, now));
      && (next.Some? <==> exists due :: l in log.leases && log.leases[l].status == Live &&
                                        log.leases[l].expires == Some(due) && due <= now)
      && (next.Some? ==> next.value == log.(leases := next.value.leases) && OtherLeaseRows(log, next.value, l))
    ensures var next := Next(log, PruneConversation(c, now));
      && (next.Some? <==> exists due ::
          c in log.conversations && log.conversations[c].retention == Some(due) && due <= now)
      && (next.Some? ==>
            && next.value == log.(conversations := next.value.conversations, leases := next.value.leases)
            && next.value.conversations == log.conversations - {c} && LeasesNothing(next.value, ConversationOwner(c))
            && OtherLeasesKept(log, next.value, iset{ConversationOwner(c)}))
  {
    if c in log.conversations {
      ConversationsDroppedRows(log, {c});
      assert (iset d | d in {c} :: ConversationOwner(d)) == iset{ConversationOwner(c)};
    }
  }

  /** This lease is gone and no other. */
  ghost predicate OtherLeaseRows(log: Log, next: Log, l: LeaseKey) {
    && next.leases.Keys == log.leases.Keys - {l}
    && forall m | m in next.leases :: next.leases[m] == log.leases[m]
  }

  /******* Collection *******/

  /**
   Nothing but whole responses went, and what only they used: an item is left exactly when its response is, and a
   payload exactly when it is still used or never was.
   */
  ghost predicate ItemsSwept(log: Log, now: Log) {
    && (forall r | r in now.records :: r in log.records && now.records[r] == log.records[r])
    && now.tombstones == log.tombstones * now.records.Keys
    && (forall k :: k in now.items <==> k in log.items && k.response in now.records)
    && (forall k | k in now.items :: now.items[k] == log.items[k])
    && (forall p | p in now.payloads ::
          && p in log.payloads && now.payloads[p] == log.payloads[p]
          && (Uses(now.items, p) != {} || Uses(log.items, p) == {}))
    && (forall p | p in log.payloads && p !in now.payloads :: Uses(log.items, p) != {} && Uses(now.items, p) == {})
  }

  /** Besides, a lease is left exactly when its response is, and conversations are as they were. */
  ghost predicate Swept(log: Log, now: Log) {
    && ItemsSwept(log, now)
    && (forall l :: l in now.leases <==> l in log.leases && log.leases[l].response in now.records)
    && (forall l | l in now.leases :: now.leases[l] == log.leases[l])
    && now.conversations == log.conversations
  }

  lemma NothingSwept(log: Log)
    requires Consistent(log)
    ensures ItemsSwept(log, log) && Swept(log, log)
  {
    assert log.tombstones == log.tombstones * log.records.Keys;
  }

  lemma UsesShrink(before: map<ItemKey, PayloadKey>, after: map<ItemKey, PayloadKey>, p: PayloadKey)
    requires forall k | k in after :: k in before && after[k] == before[k]
    ensures Uses(before, p) == {} ==> Uses(after, p) == {}
  {
    if Uses(before, p) == {} {
      forall k ensures k !in Uses(after, p) {
        assert k !in Uses(before, p);
      }
    }
  }

  /** A response's items, once gone, use nothing; what is left of the payloads is what others use or nobody did. */
  lemma OrphansTaken(log: Log, r: ResponseKey, p: PayloadKey)
    ensures p in Removed(log, r).payloads <==>
      p in log.payloads && (Uses(Removed(log, r).items, p) != {} || Uses(log.items, p) == {})
    ensures Uses(log.items, p) == {} ==> Uses(Removed(log, r).items, p) == {}
  {
    UsesShrink(log.items, ItemsWithout(log.items, r), p);
  }

  /** Removing an unreferenced response sweeps it, and takes a payload exactly when only its items used it. */
  lemma RemovedSwept(log: Log, r: ResponseKey)
    requires Consistent(log) && r in log.records && !Referenced(log, r)
    ensures var now := Removed(log, r); Swept(log, now) && now.records.Keys == log.records.Keys - {r}
  {
    hide Lineal, BasesShared, OneLivePerOwner, HeadsLinked, StampsBelow, Deduplicated, Uses, Orphans;
    var now := Removed(log, r);
    assert now.tombstones == log.tombstones * now.records.Keys;
    assert forall l | l in log.leases :: l !in LiveLeases(log.leases, r);
    forall p
      ensures p in now.payloads <==> p in log.payloads && (Uses(now.items, p) != {} || Uses(log.items, p) == {})
      ensures Uses(log.items, p) == {} ==> Uses(now.items, p) == {}
    {
      OrphansTaken(log, r, p);
    }
  }

  lemma ItemsSweptThrough(log: Log, mid: Log, now: Log)
    requires ItemsSwept(log, mid) && ItemsSwept(mid, now)
    ensures ItemsSwept(log, now)
  {
    hide Uses;
    forall p ensures (Uses(log.items, p) == {} ==> Uses(mid.items, p) == {}) &&
                     (Uses(mid.items, p) == {} ==> Uses(now.items, p) == {})
    {
      UsesShrink(log.items, mid.items, p);
      UsesShrink(mid.items, now.items, p);
    }
  }

  lemma SweptThrough(log: Log, mid: Log, now: Log)
    requires Swept(log, mid) && Swept(mid, now)
    ensures Swept(log, now)
  {
    hide Uses;
    ItemsSweptThrough(log, mid, now);
  }

  /** Where leases and conversations went first. */
  lemma LetGoThenSwept(log: Log, mid: Log, now: Log)
    requires Consistent(log) && ItemsSwept(mid, now)
    requires mid == log.(leases := mid.leases, conversations := mid.conversations)
    ensures ItemsSwept(log, now)
  {
  }
}
