/** The counter columns: what they count, and why each trigger keeps them right. */
module ResponseLogCounters {
  import opened Wrappers
  import opened ResponseLogSpec

  /** The tables as a value, to roll back to. Counter columns are maps of their own, keyed like their table. */
  datatype Tables = Tables(log: Log, refcount: map<PayloadKey, int>,
                           childRefcount: map<ResponseKey, int>, leaseRefcount: map<ResponseKey, int>)

  ghost predicate UsesCounted(refcount: map<PayloadKey, int>, payloads: map<PayloadKey, Payload>,
                              items: map<ItemKey, PayloadKey>) {
    forall p | p in payloads :: p in refcount && refcount[p] == |Uses(items, p)|
  }

  ghost predicate ChildrenCounted(childRefcount: map<ResponseKey, int>, records: map<ResponseKey, Record>) {
    forall r | r in records :: r in childRefcount && childRefcount[r] == |Children(records, r)|
  }

  ghost predicate LeasesCounted(leaseRefcount: map<ResponseKey, int>, records: map<ResponseKey, Record>,
                                leases: map<LeaseKey, Lease>) {
    forall r | r in records :: r in leaseRefcount && leaseRefcount[r] == |LiveLeases(leases, r)|
  }

  /** UPDATE ... SET count = count + delta WHERE key = k, as the triggers do it; no row, no update. */
  function Add<K>(counts: map<K, int>, k: K, delta: int): map<K, int> {
    if k in counts then counts[k := counts[k] + delta] else counts
  }

  lemma CountMoved<T>(was: set<T>, now: set<T>, x: T)
    requires was - {x} == now - {x}
    ensures |now| - (if x in now then 1 else 0) == |was| - (if x in was then 1 else 0)
  {
    assert x in was ==> was == (was - {x}) + {x};
    assert x in now ==> now == (now - {x}) + {x};
    assert x !in was ==> was == was - {x};
    assert x !in now ==> now == now - {x};
  }

  /** Inserting or deleting the item row `k` moves the refcount of its payload by one. */
  lemma ItemChanged(refcount: map<PayloadKey, int>, payloads: map<PayloadKey, Payload>,
                    items: map<ItemKey, PayloadKey>, next: map<ItemKey, PayloadKey>, k: ItemKey, p: PayloadKey,
                      delta: int)
    requires UsesCounted(refcount, payloads, items) && items - {k} == next - {k}
    requires (k !in items && k in next && next[k] == p && delta == 1)
      || (k in items && items[k] == p && k !in next && delta == -1)
    ensures UsesCounted(Add(refcount, p, delta), payloads, next)
  {
    forall q | q in payloads ensures Add(refcount, p, delta)[q] == |Uses(next, q)| {
      forall j | j != k ensures j in Uses(items, q) <==> j in Uses(next, q) {
        assert j in items - {k} <==> j in next - {k};
        assert j in items - {k} ==> (items - {k})[j] == (next - {k})[j];
      }
      assert Uses(items, q) - {k} == Uses(next, q) - {k};
      CountMoved(Uses(items, q), Uses(next, q), k);
    }
  }

  /** Inserting or deleting the record `r` moves the child count of its parent by one. */
  lemma ChildChanged(records: map<ResponseKey, Record>, next: map<ResponseKey, Record>, r: ResponseKey, q: ResponseKey)
    requires records - {r} == next - {r}
    ensures |Children(next, q)| - (if r in Children(next, q) then 1 else 0)
      == |Children(records, q)| - (if r in Children(records, q) then 1 else 0)
  {
    forall c | c != r ensures c in Children(records, q) <==> c in Children(next, q) {
      assert c in records - {r} <==> c in next - {r};
      assert c in records - {r} ==> (records - {r})[c] == (next - {r})[c];
    }
    assert Children(records, q) - {r} == Children(next, q) - {r};
    CountMoved(Children(records, q), Children(next, q), r);
  }

  /** A response nobody knew has neither children nor leases yet. */
  lemma UnknownUnreferenced(records: map<ResponseKey, Record>, leases: map<LeaseKey, Lease>, r: ResponseKey,
                            record: Record)
    requires Lineal(records) && LeasesLinked(leases, records.Keys) && r !in records && record.prev != Some(r)
    ensures Children(records[r := record], r) == {} && LiveLeases(leases, r) == {}
  {
  }

  /** The counters of a new row start at zero and its parent's grows. */
  lemma RecordInserted(childRefcount: map<ResponseKey, int>, leaseRefcount: map<ResponseKey, int>,
                       records: map<ResponseKey, Record>, leases: map<LeaseKey, Lease>, r: ResponseKey, record: Record)
    requires ChildrenCounted(childRefcount, records) && LeasesCounted(leaseRefcount, records, leases) && r !in records
    requires Children(records[r := record], r) == {} && LiveLeases(leases, r) == {}
    ensures LeasesCounted(leaseRefcount[r := 0], records[r := record], leases)
    ensures ChildrenCounted(if record.prev.None?
                            then childRefcount[r := 0] else Add(childRefcount[r := 0], record.prev.value, 1),
      records[r := record])
  {
    assert r in records[r := record] && r !in Children(records[r := record], r);
    forall q ensures |Children(records[r := record], q)| ==
      |Children(records, q)| + if record.prev == Some(q) then 1 else 0
    {
      ChildChanged(records, records[r := record], r, q);
    }
  }

  lemma RecordDeleted(childRefcount: map<ResponseKey, int>, leaseRefcount: map<ResponseKey, int>,
                      records: map<ResponseKey, Record>, leases: map<LeaseKey, Lease>, r: ResponseKey)
    requires ChildrenCounted(childRefcount, records) && LeasesCounted(leaseRefcount, records, leases) && r in records
    ensures LeasesCounted(leaseRefcount - {r}, records - {r}, leases)
    ensures ChildrenCounted(if records[r].prev.None?
                            then childRefcount - {r} else Add(childRefcount - {r}, records[r].prev.value, -1),
      records - {r})
  {
    forall q
      ensures |Children(records - {r}, q)| == |Children(records, q)| - if records[r].prev == Some(q) then 1 else 0
    {
      ChildChanged(records, records - {r}, r, q);
    }
  }

  /** Counts move with a lease from its old response, if it was live there, to its new one, if it is live there. */
  lemma LeaseChanged(leaseRefcount: map<ResponseKey, int>, records: map<ResponseKey, Record>,
                     leases: map<LeaseKey, Lease>, next: map<LeaseKey, Lease>, l: LeaseKey,
                       updated: map<ResponseKey, int>)
    requires LeasesCounted(leaseRefcount, records, leases) && leases - {l} == next - {l}
    requires forall q | q in leaseRefcount ::
      && q in updated
      && updated[q] == leaseRefcount[q] - (if l in LiveLeases(leases, q) then 1 else 0)
        + (if l in LiveLeases(next, q) then 1 else 0)
    ensures LeasesCounted(updated, records, next)
  {
    forall q | q in records ensures updated[q] == |LiveLeases(next, q)| {
      forall m | m != l ensures m in LiveLeases(leases, q) <==> m in LiveLeases(next, q) {
        assert m in leases - {l} <==> m in next - {l};
        assert m in leases - {l} ==> (leases - {l})[m] == (next - {l})[m];
      }
      assert LiveLeases(leases, q) - {l} == LiveLeases(next, q) - {l};
      CountMoved(LiveLeases(leases, q), LiveLeases(next, q), l);
    }
  }

  lemma NewPayloadCounted(refcount: map<PayloadKey, int>, payloads: map<PayloadKey, Payload>,
                          items: map<ItemKey, PayloadKey>,
                          p: PayloadKey, item: Payload)
    requires UsesCounted(refcount, payloads, items) && p !in payloads && forall k | k in items :: items[k] in payloads
    ensures UsesCounted(refcount[p := 0], payloads[p := item], items)
  {
    assert Uses(items, p) == {};
  }

  /******* What a search in an indexed table finds *******/

  lemma HoldUpdates(log: Log, o: Owner, r: ResponseKey, expires: Option<int>, l: LeaseKey)
    requires OneLivePerOwner(log.leases) && l in log.leases && log.leases[l].status == Live && log.leases[l].owner == o
    ensures Hold(log, o, r, expires) == log.(leases := log.leases[l := Lease(r, o, Live, expires)])
  {
    assert OwnedLive(log.leases, o) == {l};
  }

  lemma InternFinds(log: Log, scope: int, item: Payload, p: PayloadKey)
    requires Deduplicated(log.payloads) && item.Object?
    requires p in log.payloads && p.scope == scope && log.payloads[p].hash == item.hash
    ensures Intern(log, scope, item) == if log.payloads[p] == item then Some((log, p)) else None
  {
  }

  lemma NoneDropped(log: Log)
    ensures ConversationsDropped(log, {}) == log
  {
    assert log.conversations - {} == log.conversations;
    assert ConversationsDropped(log, {}).leases == log.leases;
  }

  lemma DroppedTogether(log: Log, some: set<ConversationKey>, c: ConversationKey)
    ensures ConversationsDropped(ConversationsDropped(log, some), {c}) == ConversationsDropped(log, some + {c})
  {
    var one, both := ConversationsDropped(ConversationsDropped(log, some), {c}), ConversationsDropped(log, some + {c});
    assert one.conversations == both.conversations;
    assert (set d | d in some + {c} :: ConversationOwner(d)) ==
      (set d | d in some :: ConversationOwner(d)) + (set d | d in {c} :: ConversationOwner(d));
    assert one.leases == both.leases;
  }

  lemma StatusCounted(childRefcount: map<ResponseKey, int>, records: map<ResponseKey, Record>, r: ResponseKey,
                      status: Status)
    requires ChildrenCounted(childRefcount, records) && r in records
    ensures ChildrenCounted(childRefcount, records[r := records[r].(status := status)])
  {
    forall q ensures Children(records[r := records[r].(status := status)], q) == Children(records, q) {
    }
  }

  /** The collector's list of touched payloads holds every orphan. */
  lemma TouchedAreUsed(log: Log, r: ResponseKey, touched: set<PayloadKey>)
    requires touched == set k | k in log.items && k.response == r :: log.items[k]
    ensures log.payloads - Orphans(log, r) ==
      log.payloads - set p | p in touched && Uses(ItemsWithout(log.items, r), p) == {}
  {
    forall p | p in log.payloads
      ensures p in Orphans(log, r) <==> p in touched && Uses(ItemsWithout(log.items, r), p) == {}
    {
      if Uses(ItemsWithout(log.items, r), p) == {} {
        assert forall k | k in log.items && k.response != r :: k !in Uses(ItemsWithout(log.items, r), p);
        if p in touched {
          var k :| k in log.items && k.response == r && log.items[k] == p;
          assert k in Uses(log.items, p);
        }
      }
    }
  }
}

/**
 The delta log as the migrations build it: tables with reference-count columns,
 the triggers that maintain them, and the functions and procedures over them.
 Every public member is one transaction, proved to be a step of ResponseLogSpec.
 */
module ResponseLog {
  import opened Wrappers
  import opened ResponseLogSpec
  import opened ResponseLogInvariants
  import opened ResponseLogReplay
  import opened ResponseLogEffects
  import opened ResponseLogCounters

  class Database {
    var payloads: map<PayloadKey, Payload>
    var refcount: map<PayloadKey, int>
    var records: map<ResponseKey, Record>
    var childRefcount: map<ResponseKey, int>
    var leaseRefcount: map<ResponseKey, int>
    var items: map<ItemKey, PayloadKey>
    var leases: map<LeaseKey, Lease>
    var conversations: map<ConversationKey, Conversation>
    var tombstones: set<ResponseKey>
    var serial: nat

    /** The content of the tables without the counters. */
    ghost function Snapshot(): Log
      reads this
    {
      Log(payloads, records, items, leases, conversations, tombstones, serial)
    }

    /** Each counter is the number of rows it counts. */
    ghost predicate Counted()
      reads this
    {
      && UsesCounted(refcount, payloads, items)
      && ChildrenCounted(childRefcount, records)
      && LeasesCounted(leaseRefcount, records, leases)
    }

    ghost predicate Valid()
      reads this
    {
      Counted() && Consistent(Snapshot())
    }

    constructor ()
      ensures Valid() && HeadsLeased(Snapshot()) && Snapshot() == EMPTY
    {
      payloads, refcount := map[], map[];
      records, childRefcount, leaseRefcount := map[], map[], map[];
      items, leases, conversations, tombstones, serial := map[], map[], map[], {}, 0;
    }

    /******* Statements, each with its row triggers *******/

    /** apply_payload_refcount_from_response_item, on insert */
    method InsertItemRow(k: ItemKey, p: PayloadKey)
      requires Counted() && k !in items
      modifies this
      ensures Counted() && Snapshot() == old(Snapshot()).(items := old(items)[k := p])
    {
      ItemChanged(refcount, payloads, items, items[k := p], k, p, 1);
      items := items[k := p];
      refcount := Add(refcount, p, 1);
    }

    /** apply_payload_refcount_from_response_item, on delete */
    method DeleteItemRow(k: ItemKey)
      requires Counted() && k in items
      modifies this
      ensures Counted() && Snapshot() == old(Snapshot()).(items := old(items) - {k})
    {
      var p := items[k];
      ItemChanged(refcount, payloads, items, items - {k}, k, p, -1);
      items := items - {k};
      refcount := Add(refcount, p, -1);
    }

    /** apply_response_refcounts, on insert */
    method InsertRecordRow(r: ResponseKey, record: Record)
      requires Valid() && r !in records && record.prev != Some(r)
      modifies this
      ensures Counted() && Snapshot() == old(Snapshot()).(records := old(records)[r := record])
    {
      UnknownUnreferenced(records, leases, r, record);
      RecordInserted(childRefcount, leaseRefcount, records, leases, r, record);
      records, childRefcount, leaseRefcount := records[r := record], childRefcount[r := 0], leaseRefcount[r := 0];
      if record.prev.Some? {
        childRefcount := Add(childRefcount, record.prev.value, 1);
      }
    }

    /** ON DELETE CASCADE: the item rows of `r` go one by one. */
    method CascadeItems(r: ResponseKey)
      requires Counted()
      modifies this
      ensures Counted() && Snapshot() == old(Snapshot()).(items := ItemsWithout(old(items), r))
    {
      var doomed := set k | k in items && k.response == r;
      while doomed != {}
        invariant doomed == set k | k in items && k.response == r
        invariant ItemsWithout(items, r) == ItemsWithout(old(items), r)
        invariant Counted() && Snapshot() == old(Snapshot()).(items := items)
        decreases doomed
      {
        var k :| k in doomed;
        DeleteItemRow(k);
        doomed := doomed - {k};
      }
      assert items == ItemsWithout(items, r) by {
        assert forall k | k in items :: k !in doomed;
      }
    }

    /** apply_response_refcounts, on delete */
    method DeleteRecordRow(r: ResponseKey)
      requires Counted() && r in records && !Blocked(Snapshot(), r)
      modifies this
      ensures Counted()
      ensures Snapshot() == old(Snapshot()).(
        records := old(records) - {r},
        items := ItemsWithout(old(items), r),
        tombstones := old(tombstones) - {r})
    {
      CascadeItems(r);
      var prev := records[r].prev;
      RecordDeleted(childRefcount, leaseRefcount, records, leases, r);
      tombstones, records := tombstones - {r}, records - {r};
      childRefcount, leaseRefcount := childRefcount - {r}, leaseRefcount - {r};
      if prev.Some? {
        childRefcount := Add(childRefcount, prev.value, -1);
      }
    }

    /** apply_response_lease_refcounts, on insert; the key is generated. */
    method InsertLeaseRow(o: Owner, r: ResponseKey, expires: Option<int>)
      requires Counted() && StampsBelow(Snapshot())
      modifies this
      ensures Counted() && Snapshot() == InsertLease(old(Snapshot()), o, r, expires)
    {
      var l := LeaseKey(o.scope, serial);
      leases, serial := leases[l := Lease(r, o, Live, expires)], serial + 1;
      leaseRefcount := Add(leaseRefcount, r, 1);
      LeaseChanged(old(leaseRefcount), records, old(leases), leases, l, leaseRefcount);
    }

    /** apply_response_lease_refcounts, on delete */
    method DeleteLeaseRow(l: LeaseKey)
      requires Counted() && l in leases
      modifies this
      ensures Counted() && Snapshot() == old(Snapshot()).(leases := old(leases) - {l})
    {
      var was := leases[l];
      leases := leases - {l};
      if was.status == Live {
        leaseRefcount := Add(leaseRefcount, was.response, -1);
      }
      LeaseChanged(old(leaseRefcount), records, old(leases), leases, l, leaseRefcount);
    }

    /**
     apply_response_lease_refcounts, on update: a live lease that dies or moves leaves one count and joins another.
     */
    method UpdateLeaseRow(l: LeaseKey, r: ResponseKey, status: LeaseStatus, expires: Option<int>)
      requires Counted() && l in leases
      modifies this
      ensures Counted()
      ensures Snapshot() ==
        old(Snapshot()).(leases := old(leases)[l := Lease(r, old(leases)[l].owner, status, expires)])
    {
      var was := leases[l];
      leases := leases[l := Lease(r, was.owner, status, expires)];
      if was.status == Live && (status != Live || was.response != r) {
        leaseRefcount := Add(leaseRefcount, was.response, -1);
      }
      if status == Live && (was.status != Live || was.response != r) {
        leaseRefcount := Add(leaseRefcount, r, 1);
      }
      LeaseChanged(old(leaseRefcount), records, old(leases), leases, l, leaseRefcount);
    }

    /** Dead leases have no counter to maintain. */
    method DeleteDeadLeases(r: ResponseKey)
      requires Counted()
      modifies this
      ensures Counted() && Snapshot() == WithoutDeadLeases(old(Snapshot()), r)
    {
      leases := map l | l in leases && (leases[l].response != r || leases[l].status == Live) :: leases[l];
      forall q ensures LiveLeases(leases, q) == LiveLeases(old(leases), q) {
      }
    }

    method DeletePayloadRows(doomed: set<PayloadKey>)
      requires Counted()
      modifies this
      ensures Counted() && Snapshot() == old(Snapshot()).(payloads := old(payloads) - doomed)
    {
      payloads, refcount := payloads - doomed, refcount - doomed;
    }

    method DeleteUnusedPayloads(candidates: set<PayloadKey>)
      requires Counted()
      modifies this
      ensures Counted()
      ensures Snapshot() ==
        old(Snapshot()).(payloads := old(payloads) - set p | p in candidates && Uses(items, p) == {})
    {
      var doomed := set p | p in candidates && p in payloads && refcount[p] == 0;
      assert payloads - doomed == payloads - set p | p in candidates && Uses(items, p) == {};
      DeletePayloadRows(doomed);
    }

    /** The unique index admits at most one row here. */
    method DeleteLiveLeases(o: Owner)
      requires Counted()
      modifies this
      ensures Counted() && Snapshot() == Released(old(Snapshot()), o)
    {
      var doomed := OwnedLive(leases, o);
      while doomed != {}
        invariant doomed == OwnedLive(leases, o)
        invariant DropLive(leases, {o}) == DropLive(old(leases), {o})
        invariant Counted() && Snapshot() == old(Snapshot()).(leases := leases)
        decreases doomed
      {
        var l :| l in doomed;
        DeleteLeaseRow(l);
        doomed := doomed - {l};
      }
      assert leases == DropLive(leases, {o}) by {
        assert forall l | l in leases :: l !in doomed;
      }
    }

    /** UPDATE of the owner's live lease if there is one, INSERT otherwise. */
    method HoldLease(o: Owner, r: ResponseKey, expires: Option<int>)
      requires Valid() && r in Snapshot().records && r.scope == o.scope
      modifies this
      ensures Valid() && Snapshot() == Hold(old(Snapshot()), o, r, expires)
    {
      HoldConsistent(Snapshot(), o, r, expires);
      if l :| l in leases && leases[l].status == Live && leases[l].owner == o {
        HoldUpdates(Snapshot(), o, r, expires, l);
        UpdateLeaseRow(l, r, Live, expires);
      } else {
        assert OwnedLive(leases, o) == {};
        InsertLeaseRow(o, r, expires);
      }
    }

    /** maintain_conversation_response_lease, on delete */
    method DeleteConversationRow(c: ConversationKey)
      requires Counted()
      modifies this
      ensures Counted() && Snapshot() == ConversationsDropped(old(Snapshot()), {c})
    {
      conversations := conversations - {c};
      DeleteLiveLeases(ConversationOwner(c));
      assert {ConversationOwner(c)} == set d | d in {c} :: ConversationOwner(d);
    }

    /******* Rolling back *******/

    function Saved(): Tables
      reads this
    {
      Tables(Log(payloads, records, items, leases, conversations, tombstones, serial),
        refcount, childRefcount, leaseRefcount)
    }

    method Rollback(saved: Tables)
      modifies this
      ensures Saved() == saved
    {
      payloads, refcount := saved.log.payloads, saved.refcount;
      records, childRefcount, leaseRefcount := saved.log.records, saved.childRefcount, saved.leaseRefcount;
      items, leases, conversations := saved.log.items, saved.log.leases, saved.log.conversations;
      tombstones, serial := saved.log.tombstones, saved.log.serial;
    }

    /******* Writing responses *******/

    /** Lookup in the unique index on hashes. */
    method FindPayload(scope: int, h: int) returns (p: Option<PayloadKey>)
      requires Counted()
      ensures p.Some? ==> p.value in payloads && p.value.scope == scope && payloads[p.value].hash == h
      ensures p.None? ==> forall q | q in payloads && q.scope == scope :: payloads[q].hash != h
    {
      if k :| k in payloads && k.scope == scope && payloads[k].hash == h {
        p := Some(k);
      } else {
        p := None;
      }
    }

    /** get_or_create_payload; None is the exception. */
    method GetOrCreatePayload(scope: int, item: Payload) returns (p: Option<PayloadKey>)
      requires Valid()
      modifies this
      ensures Valid()
      ensures match Intern(old(Snapshot()), scope, item)
        case None => p == None && Snapshot() == old(Snapshot())
        case Some((next, k)) => p == Some(k) && Snapshot() == next
    {
      hide ChildrenCounted, LeasesCounted, OneLivePerOwner, BasesShared, LeasesLinked, HeadsLinked, Lineal, StampsBelow;
      if item.Scalar? {
        return None;
      }
      var h := item.hash;
      p := FindPayload(scope, h);
      if p.Some? {
        InternFinds(Snapshot(), scope, item, p.value);
        return if payloads[p.value] == item then p else None;
      }
      var k := PayloadKey(scope, serial);
      InternConsistent(Snapshot(), scope, item);
      NewPayloadCounted(refcount, payloads, items, k, item);
      payloads, refcount, serial := payloads[k := item], refcount[k := 0], serial + 1;
      p := Some(k);
    }

    /** Intern and insert; a failure leaves work for the rollback. */
    method InsertItem(k: ItemKey, item: Payload) returns (ok: bool)
      requires Valid()
      modifies this
      ensures ok == AddItem(old(Snapshot()), k, item).Some?
      ensures ok ==> Valid() && Snapshot() == AddItem(old(Snapshot()), k, item).value
    {
      var p := GetOrCreatePayload(k.response.scope, item);
      ok := p.Some? && k.response in records && k.index >= 0 && k !in items;
      if ok {
        AddItemConsistent(old(Snapshot()), k, item);
        InsertItemRow(k, p.value);
      }
    }

    /** insert_response_input_items and insert_response_output_items */
    method InsertItems(r: ResponseKey, d: Direction, list: seq<Payload>) returns (ok: bool)
      requires Valid()
      modifies this
      ensures ok == AddItems(old(Snapshot()), r, d, 0, list).Some?
      ensures ok ==> Valid() && Snapshot() == AddItems(old(Snapshot()), r, d, 0, list).value
    {
      for i := 0 to |list|
        invariant Valid()
        invariant AddItems(Snapshot(), r, d, i, list[i..]) == AddItems(old(Snapshot()), r, d, 0, list)
      {
        assert list[i..][1..] == list[i + 1..];
        var added := InsertItem(ItemKey(r, d, i), list[i]);
        if !added {
          return false;
        }
      }
      ok := true;
    }

    /** The record and its own lease, checked as the constraints check them. */
    method InsertRecord(key: ResponseKey, prev: Option<ResponseKey>, outputs: seq<Payload>, retention: Option<int>,
                        status: Status)
      returns (ok: bool)
      requires Valid() && (prev.Some? ==> prev.value in Snapshot().records && prev.value.scope == key.scope)
        && prev != Some(key)
      modifies this
      ensures ok == (key.id != "" && key !in old(Snapshot()).records
                     && (retention.Some? ==> OwnedLive(old(leases), ResponseOwner(key)) == {}))
      ensures if ok then Valid() && Snapshot() == LeasedRecord(old(Snapshot()), key, prev, outputs, retention, status)
              else Saved() == old(Saved())
    {
      hide UsesCounted, ChildrenCounted, LeasesCounted, OneLivePerOwner, LeasesLinked, Lineal;
      if key.id == "" || key in records || (retention.Some? && OwnedLive(leases, ResponseOwner(key)) != {}) {
        return false;
      }
      var base := if prev.None? || ContainsCompaction(outputs) then key else records[prev.value].base;
      LeasedRecordConsistent(Snapshot(), key, prev, outputs, retention, status);
      RecordedConsistent(Snapshot(), key, prev, outputs, status);
      InsertRecordRow(key, Record(prev, base, serial, status));
      serial := serial + 1;
      assert Snapshot() == Recorded(old(Snapshot()), key, prev, outputs, status);
      if retention.Some? {
        InsertLeaseRow(ResponseOwner(key), key, retention);
      }
      ok := true;
    }

    method InsertAllItems(key: ResponseKey, inputs: seq<Payload>, outputs: seq<Payload>) returns (ok: bool)
      requires Valid()
      modifies this
      ensures ok == Filled(old(Snapshot()), key, inputs, outputs).Some?
      ensures ok ==> Valid() && Snapshot() == Filled(old(Snapshot()), key, inputs, outputs).value
    {
      ok := InsertItems(key, Input, inputs);
      if ok {
        ok := InsertItems(key, Output, outputs);
      }
    }

    /** create_response_record: the row, its lease if retained, its inputs, its outputs; all or nothing. */
    method CreateResponseRecord(key: ResponseKey, prevId: Option<string>, inputs: seq<Payload>, outputs: seq<Payload>,
                                retention: Option<int>, status: Status) returns (ok: bool)
      requires Valid()
      modifies this
      ensures Valid() && Did(old(Snapshot()),
        Created(old(Snapshot()), key, if prevId.None? then None else Some(ResponseKey(key.scope, prevId.value)),
                inputs, outputs, retention, status),
        ok, Snapshot())
      ensures ok ==>
        && Filed(Snapshot(), key, inputs, outputs)
        && OtherItemsKept(old(Snapshot()), Snapshot(), iset k: ItemKey | k.response == key)
        && PayloadsKept(old(Snapshot()), Snapshot())
        && Recording(old(Snapshot()), Snapshot(), key,
                     if prevId.None? then None else Some(ResponseKey(key.scope, prevId.value)), status)
        && SelfLeased(old(Snapshot()), Snapshot(), key, retention)
    {
      hide UsesCounted, ChildrenCounted, LeasesCounted, Filed, OtherItemsKept, PayloadsKept, Recording, SelfLeased;
      var saved := Saved();
      var prev := if prevId.None? then None else Some(ResponseKey(key.scope, prevId.value));
      if !ValidItems(inputs) || !ValidItems(outputs) || prev == Some(key) || (prev.Some? && prev.value !in records) {
        return false;
      }
      ok := InsertRecord(key, prev, outputs, retention, status);
      if !ok {
        return;
      }
      ok := InsertAllItems(key, inputs, outputs);
      if ok {
        CreatedRows(saved.log, key, prev, inputs, outputs, retention, status);
      } else {
        Rollback(saved);
      }
    }

    /** append_output_item */
    method AppendOutputItem(key: ResponseKey, index: int, item: Payload) returns (ok: bool)
      requires Valid()
      modifies this
      ensures Valid() && Did(old(Snapshot()), AddItem(old(Snapshot()), ItemKey(key, Output, index), item), ok,
                             Snapshot())
      ensures ok ==>
        && ItemKey(key, Output, index) !in old(items) && Stores(Snapshot(), ItemKey(key, Output, index), item)
        && OtherItemsKept(old(Snapshot()), Snapshot(), iset{ItemKey(key, Output, index)})
        && PayloadsKept(old(Snapshot()), Snapshot()) && OnlyItems(old(Snapshot()), Snapshot())
    {
      hide UsesCounted, ChildrenCounted, LeasesCounted, Stores, OtherItemsKept, PayloadsKept, OnlyItems, AddItem;
      var saved := Saved();
      AddItemRows(Snapshot(), ItemKey(key, Output, index), item);
      ok := InsertItem(ItemKey(key, Output, index), item);
      if !ok {
        Rollback(saved);
      }
    }

    /** replace_output_item: delete the row, then insert it anew. */
    method ReplaceOutputItem(key: ResponseKey, index: int, item: Payload) returns (ok: bool)
      requires Valid()
      modifies this
      ensures Valid() && Did(old(Snapshot()), Replaced(old(Snapshot()), ItemKey(key, Output, index), item), ok,
                             Snapshot())
      ensures ok ==>
        && ItemKey(key, Output, index) in old(items) && Stores(Snapshot(), ItemKey(key, Output, index), item)
        && OtherItemsKept(old(Snapshot()), Snapshot(), iset{ItemKey(key, Output, index)})
        && PayloadsKept(old(Snapshot()), Snapshot()) && OnlyItems(old(Snapshot()), Snapshot())
    {
      hide UsesCounted, ChildrenCounted, LeasesCounted, Stores, OtherItemsKept, PayloadsKept, OnlyItems;
      var saved := Saved();
      ReplacedRows(Snapshot(), ItemKey(key, Output, index), item);
      var k := ItemKey(key, Output, index);
      if k !in items {
        return false;
      }
      ItemDeletedConsistent(Snapshot(), k);
      DeleteItemRow(k);
      ok := InsertItem(k, item);
      if !ok {
        Rollback(saved);
      }
    }

    method SetStatus(key: ResponseKey, status: Status)
      requires Valid() && key in Snapshot().records
      modifies this
      ensures Valid() && Snapshot() == WithStatus(old(Snapshot()), key, status)
    {
      hide UsesCounted, ChildrenCounted, Consistent;
      StatusConsistent(Snapshot(), key, status);
      StatusCounted(childRefcount, records, key, status);
      records := records[key := records[key].(status := status)];
    }

    /**
     finish_response, fail_response and cancel_response: out of a running status once, moving the conversation if any.
     */
    method TerminateResponse(key: ResponseKey, status: Status, conversation: Option<string>) returns (ok: bool)
      requires Valid()
      modifies this
      ensures Valid() && Did(old(Snapshot()), Terminated(old(Snapshot()), key, status, conversation), ok, Snapshot())
      ensures ok ==> Rated(old(Snapshot()), Snapshot(), key, status)
      ensures ok && conversation.Some? ==>
        Headed(old(Snapshot()), Snapshot(), ConversationKey(key.scope, conversation.value), key, None)
      ensures ok && conversation.None? ==> conversations == old(conversations) && leases == old(leases)
    {
      hide UsesCounted, ChildrenCounted, LeasesCounted, Rated, Headed;
      TerminatedRows(Snapshot(), key, status, conversation);
      var saved := Saved();
      if key !in records || records[key].status !in {Queued, InProgress} {
        return false;
      }
      SetStatus(key, status);
      if conversation.None? {
        return true;
      }
      ok := MoveConversationHead(ConversationKey(key.scope, conversation.value), key.id, None);
      if !ok {
        Rollback(saved);
      }
    }

    /******* Leases and conversations *******/

    /** create_or_refresh_response_lease */
    method CreateOrRefreshResponseLease(o: Owner, responseId: string, expires: Option<int>) returns (ok: bool)
      requires Valid()
      modifies this
      ensures Valid() && Did(old(Snapshot()),
                             LeaseRefreshed(old(Snapshot()), o, ResponseKey(o.scope, responseId), expires),
                             ok, Snapshot())
    {
      var r := ResponseKey(o.scope, responseId);
      ok := r in records && (OwnedLive(leases, o) != {} || (o.kind != "" && o.id != ""));
      if ok {
        HoldLease(o, r, expires);
      }
    }

    /** release_response_lease */
    method ReleaseResponseLease(o: Owner)
      requires Valid()
      modifies this
      ensures Valid() && Snapshot() == Released(old(Snapshot()), o)
    {
      DropLiveConsistent(Snapshot(), {o});
      DeleteLiveLeases(o);
    }

    /** UPDATE response_leases SET status, under the unique index on live owners. */
    method MarkResponseLease(l: LeaseKey, mark: LeaseStatus) returns (ok: bool)
      requires Valid()
      modifies this
      ensures Valid() && Did(old(Snapshot()), LeaseMarked(old(Snapshot()), l, mark), ok, Snapshot())
    {
      ok := l in leases && (mark == Live ==> OwnedLive(leases, leases[l].owner) - {l} == {});
      if ok {
        LeaseMarkedConsistent(Snapshot(), l, mark);
        UpdateLeaseRow(l, leases[l].response, mark, leases[l].expires);
      }
    }

    /** move_conversation_head: INSERT ... ON CONFLICT DO UPDATE, with maintain_conversation_response_lease. */
    method MoveConversationHead(c: ConversationKey, responseId: string, retention: Option<int>) returns (ok: bool)
      requires Valid()
      modifies this
      ensures Valid() && Did(old(Snapshot()),
                             HeadMoved(old(Snapshot()), c, ResponseKey(c.scope, responseId), retention), ok, Snapshot())
    {
      hide UsesCounted, ChildrenCounted, LeasesCounted;
      var r := ResponseKey(c.scope, responseId);
      var inserting := c !in conversations;
      ok := c.id != "" && r in records && (inserting ==> OwnedLive(leases, ConversationOwner(c)) == {});
      if ok {
        HeadSetConsistent(Snapshot(), c, r, retention);
        conversations := conversations[c := Conversation(r, retention)];
        HoldLease(ConversationOwner(c), r, None);
      }
    }

    /** delete_response */
    method DeleteResponse(key: ResponseKey) returns (ok: bool)
      requires Valid()
      modifies this
      ensures Valid() && Did(old(Snapshot()), Deleted(old(Snapshot()), key), ok, Snapshot())
    {
      ok := key in records && key !in tombstones;
      if ok {
        DeletedConsistent(Snapshot(), key);
        tombstones := tombstones + {key};
        DeleteConversationsHeadedBy(key);
        DeleteLiveLeases(ResponseOwner(key));
      }
    }

    method DeleteConversationsHeadedBy(r: ResponseKey)
      requires Counted()
      modifies this
      ensures Counted() && Snapshot() == ConversationsDropped(old(Snapshot()), HeadedBy(old(Snapshot()), r))
    {
      var headed := set c | c in conversations && conversations[c].head == r;
      assert headed == HeadedBy(Snapshot(), r);
      var doomed := headed;
      NoneDropped(Snapshot());
      while doomed != {}
        invariant doomed <= headed && headed <= old(conversations).Keys
        invariant Counted() && Snapshot() == ConversationsDropped(old(Snapshot()), headed - doomed)
        decreases doomed
      {
        var c :| c in doomed;
        DeleteConversationRow(c);
        DroppedTogether(old(Snapshot()), headed - doomed, c);
        assert headed - (doomed - {c}) == headed - doomed + {c};
        doomed := doomed - {c};
      }
      assert headed - doomed == headed;
    }

    /******* Garbage collection *******/

    /** The body of the collector's loop: dead leases, the record with its cascade, then the payloads it alone used. */
    method RemoveResponse(r: ResponseKey)
      requires Valid() && HeadsLeased(Snapshot()) && r in Snapshot().records && !Referenced(Snapshot(), r)
      modifies this
      ensures Valid() && Snapshot() == Removed(old(Snapshot()), r)
      ensures Swept(old(Snapshot()), Snapshot()) && records.Keys == old(records).Keys - {r}
    {
      hide Swept;
      RemovedSwept(Snapshot(), r);
      RemovedConsistent(Snapshot(), r);
      UnreferencedUnblocked(Snapshot(), r);
      var touched := set k | k in items && k.response == r :: items[k];
      TouchedAreUsed(Snapshot(), r, touched);
      DeleteDeadLeases(r);
      DeleteRecordRow(r);
      DeleteUnusedPayloads(touched);
    }

    /**
     gc_delete_response_if_unreferenced: removes a contiguous run of the chain from
     `key` up, stopping at the first response that something refers to.
     */
    method GcDeleteResponseIfUnreferenced(key: ResponseKey, maxSteps: int)
      returns (deleted: int, ghost steps: seq<Step>)
      requires Valid() && HeadsLeased(Snapshot())
      modifies this
      ensures Valid() && HeadsLeased(Snapshot())
      ensures |steps| == deleted && (deleted <= maxSteps || deleted == 0)
      ensures key !in old(Snapshot()).records ==> steps == [] && Snapshot() == old(Snapshot())
      ensures key in old(Snapshot()).records ==>
        && Collected(old(Snapshot()), key, steps, Snapshot())
        && (deleted < maxSteps ==> Stopped(old(Snapshot()), key, deleted, Snapshot()))
      ensures Swept(old(Snapshot()), Snapshot())
    {
      hide UsesCounted, ChildrenCounted, LeasesCounted, OneLivePerOwner, Deduplicated, ItemsLinked, StampsBelow, Swept,
        Removed, Referenced, Matched, HeadsLeased, BasesShared;
      NothingSwept(Snapshot());
      deleted, steps := 0, [];
      if maxSteps <= 0 || key !in records {
        return;
      }
      ghost var log := Snapshot();
      ghost var chain := Chain(log.records, key);
      var current := Some(key);
      while current.Some? && deleted < maxSteps
        invariant Valid() && HeadsLeased(Snapshot())
        invariant |steps| == deleted <= maxSteps && Collected(log, key, steps, Snapshot())
        invariant Swept(log, Snapshot())
        invariant current == if deleted < |chain| then Some(chain[deleted]) else None
        decreases maxSteps - deleted
      {
        var r := current.value;
        ghost var mid := Snapshot();
        CollectFinds(log, key, steps, mid);
        var taken, above := RemoveUnlessReferenced(r);
        if !taken {
          return;
        }
        CollectStep(log, key, steps, mid);
        SweptThrough(log, mid, Snapshot());
        current, deleted, steps := above, deleted + 1, steps + [Remove(r)];
      }
    }

    /** One turn: a response that something refers to stays, any other goes, and its parent is next. */
    method RemoveUnlessReferenced(r: ResponseKey) returns (taken: bool, above: Option<ResponseKey>)
      requires Valid() && HeadsLeased(Snapshot()) && r in Snapshot().records
      modifies this
      ensures Valid() && HeadsLeased(Snapshot())
      ensures taken <==> !Referenced(old(Snapshot()), r)
      ensures if taken then
          && Snapshot() == Removed(old(Snapshot()), r) && Swept(old(Snapshot()), Snapshot())
          && above == old(records)[r].prev
        else Snapshot() == old(Snapshot())
    {
      hide UsesCounted, Consistent, Removed, Swept, Matched, HeadsLeased;
      CountersRefer(r);
      if childRefcount[r] + leaseRefcount[r] > 0 {
        return false, None;
      }
      taken := true;
      RemovedHeads(Snapshot(), r);
      above := records[r].prev;
      RemoveResponse(r);
    }

    /** What the two counters of a row say together. */
    lemma CountersRefer(r: ResponseKey)
      requires Counted() && r in records
      ensures childRefcount[r] + leaseRefcount[r] > 0 <==> Referenced(Snapshot(), r)
      ensures childRefcount[r] == 0 && leaseRefcount[r] == 0 <==> !Referenced(Snapshot(), r)
    {
    }

    /**
     gc_prune_unreferenced_responses, for every way of picking the next victim:
     it removes as much garbage as the batch allows, so that with a large enough
     batch exactly the live-leased responses and their ancestors remain.
     */
    method GcPruneUnreferencedResponses(batch: int) returns (ghost steps: seq<Step>)
      requires Valid() && HeadsLeased(Snapshot())
      modifies this
      ensures Valid() && HeadsLeased(Snapshot())
      ensures Snapshot() == Run(old(Snapshot()), steps) && forall i | 0 <= i < |steps| :: Sweeping(steps[i])
      ensures var garbage := Garbage(old(Snapshot()));
        var removed := old(records).Keys - records.Keys;
        && records.Keys <= old(records).Keys
        && |removed| == (if |garbage| <= batch then |garbage| else if batch < 0 then 0 else batch)
        && (|garbage| <= batch ==> records.Keys == old(records).Keys - garbage)
      ensures Swept(old(Snapshot()), Snapshot())
    {
      hide UsesCounted, ChildrenCounted, LeasesCounted, HeadsLeased, Matched, Run, Sweeping, Garbage, Swept;
      NoneLoosenedYet(Snapshot());
      NothingSwept(Snapshot());
      steps := [];
      var remaining := AtLeast(batch, 0);
      ghost var log := Snapshot();
      var more := true;
      while more && remaining > 0
        invariant Valid() && HeadsLeased(Snapshot()) && remaining >= 0
        invariant Snapshot() == Run(log, steps) && forall i | 0 <= i < |steps| :: Sweeping(steps[i])
        invariant |log.records.Keys| - |records.Keys| == AtLeast(batch, 0) - remaining
        invariant more || forall r | r in Snapshot().records :: Referenced(Snapshot(), r)
        invariant Swept(log, Snapshot())
        decreases more, remaining
      {
        ghost var mid := Snapshot();
        ghost var taken;
        more, remaining, taken := PruneNext(remaining);
        SweptThrough(log, mid, Snapshot());
        RunConcat(log, steps, taken);
        steps := steps + taken;
      }
      SweepTakesGarbage(log, steps);
      SweptAll(log, Snapshot(), AtLeast(batch, 0));
    }

    /** One turn: pick any row whose counters are both zero and collect from it. */
    method PruneNext(remaining: int) returns (found: bool, left: int, ghost steps: seq<Step>)
      requires Valid() && HeadsLeased(Snapshot()) && remaining > 0
      modifies this
      ensures Valid() && HeadsLeased(Snapshot())
      ensures Snapshot() == Run(old(Snapshot()), steps) && forall i | 0 <= i < |steps| :: Sweeping(steps[i])
      ensures |old(records).Keys| - |records.Keys| == remaining - left
      ensures if found then 0 <= left < remaining
              else left == remaining && forall r | r in Snapshot().records :: Referenced(Snapshot(), r)
      ensures Swept(old(Snapshot()), Snapshot())
    {
      hide UsesCounted, Swept, Referenced, Collected;
      NothingSwept(Snapshot());
      if r :| r in records && childRefcount[r] == 0 && leaseRefcount[r] == 0 {
        CountersRefer(r);
        var deleted;
        deleted, steps := GcDeleteResponseIfUnreferenced(r, remaining);
        found := true;
        CollectedSweep(old(Snapshot()), r, steps, Snapshot());
        left := AtLeast(remaining - AtLeast(deleted, 1), 0);
      } else {
        found, left, steps := false, remaining, [];
        forall r | r in Snapshot().records ensures Referenced(Snapshot(), r) {
          CountersRefer(r);
        }
      }
    }

    /** Collect upwards from a response that has just lost a reference. */
    method CollectFrom(key: ResponseKey, remaining: int)
      returns (left: int, ghost steps: seq<Step>, ghost edge: ResponseKey)
      requires Valid() && HeadsLeased(Snapshot()) && remaining > 0 && key in Snapshot().records
      modifies this
      ensures Valid() && HeadsLeased(Snapshot()) && conversations == old(conversations)
      ensures forall l | l in leases :: l in old(leases) && leases[l] == old(leases)[l]
      ensures forall l | l in old(leases) && old(leases)[l].status == Live :: l in leases && leases[l] == old(leases)[l]
      ensures Snapshot() == Run(old(Snapshot()), steps) && forall i | 0 <= i < |steps| :: Sweeping(steps[i])
      ensures 0 <= left < remaining && |old(records).Keys| - |records.Keys| <= remaining - left
      ensures remaining - left <= |old(records).Keys| - |records.Keys| + 1
      ensures LoosenedBut(old(Snapshot()), Snapshot(), edge) && (key in records ==> key == edge)
      ensures Collected(old(Snapshot()), key, steps, Snapshot())
      ensures |steps| < remaining ==> Stopped(old(Snapshot()), key, |steps|, Snapshot())
      ensures left > 0 ==> NoneLoosened(old(Snapshot()), Snapshot()) && (key in records ==> Referenced(Snapshot(), key))
      ensures Swept(old(Snapshot()), Snapshot())
    {
      hide Swept;
      var deleted;
      deleted, steps := GcDeleteResponseIfUnreferenced(key, remaining);
      CollectedSweep(old(Snapshot()), key, steps, Snapshot());
      SweepKeepsHolders(old(Snapshot()), steps);
      CollectedEdge(old(Snapshot()), key, steps, Snapshot());
      edge := Edge(old(Snapshot()), key, |steps|);
      if deleted < remaining {
        CollectedLoosens(old(Snapshot()), key, steps, Snapshot());
      }
      left := AtLeast(remaining - AtLeast(deleted, 1), 0);
    }

    /** gc_expire_response_leases: every expired live lease goes, with what it alone kept, until the batch is spent. */
    method GcExpireResponseLeases(batch: int, now: int)
      returns (ghost steps: seq<Step>, ghost spent: int, ghost edge: ResponseKey)
      requires Valid() && HeadsLeased(Snapshot())
      modifies this
      ensures Valid() && HeadsLeased(Snapshot())
      ensures Snapshot() == Run(old(Snapshot()), steps) && forall i | 0 <= i < |steps| :: Scheduled(steps[i])
      ensures |old(records).Keys| - |records.Keys| <= spent <= AtLeast(batch, 0)
      ensures spent < AtLeast(batch, 0) ==> forall l | l in leases :: !Expirable(leases[l], now)
      ensures conversations == old(conversations)
      ensures forall l | l in old(leases) && old(leases)[l].status == Live && !Expirable(old(leases)[l], now) ::
        l in leases && leases[l] == old(leases)[l]
      ensures spent < AtLeast(batch, 0) ==> NoneLoosened(old(Snapshot()), Snapshot())
      ensures spent < AtLeast(batch, 0) && Garbage(old(Snapshot())) == {} ==> Garbage(Snapshot()) == {}
      ensures Due(leases, now) <= Due(old(leases), now)
      ensures spent <= |old(records).Keys| - |records.Keys| + |Due(old(leases), now)| - |Due(leases, now)|
      ensures LoosenedBut(old(Snapshot()), Snapshot(), edge)
      ensures ItemsSwept(old(Snapshot()), Snapshot())
    {
      hide UsesCounted, ChildrenCounted, LeasesCounted, Consistent, NoneLoosened, LoosenedBut, Due, Outdated, Garbage,
        Run, Scheduled, Expirable, Stale, Matched, HeadsLeased, Referenced, ItemsSwept, Swept;
      NoneLoosenedYet(Snapshot());
      NothingSwept(Snapshot());
      steps, edge := [], ResponseKey(0, "");
      var remaining := AtLeast(batch, 0);
      ghost var log := Snapshot();
      var more := true;
      while more && remaining > 0
        invariant Valid() && HeadsLeased(Snapshot()) && 0 <= remaining <= AtLeast(batch, 0)
        invariant Snapshot() == Run(log, steps) && forall i | 0 <= i < |steps| :: Scheduled(steps[i])
        invariant |log.records.Keys| - |records.Keys| <= AtLeast(batch, 0) - remaining
        invariant more || forall l | l in leases :: !Expirable(leases[l], now)
        invariant conversations == log.conversations
        invariant forall l | l in log.leases && log.leases[l].status == Live && !Expirable(log.leases[l], now) ::
          l in leases && leases[l] == log.leases[l]
        invariant remaining > 0 ==> NoneLoosened(log, Snapshot())
        invariant Due(leases, now) <= Due(log.leases, now)
        invariant AtLeast(batch, 0) - remaining <=
          |log.records.Keys| - |records.Keys| + |Due(log.leases, now)| - |Due(leases, now)|
        invariant LoosenedBut(log, Snapshot(), edge) && ItemsSwept(log, Snapshot())
        decreases more, remaining
      {
        ghost var mid := Snapshot();
        ghost var taken;
        more, remaining, taken, edge := ExpireNext(remaining, now);
        LoosenedButThrough(log, mid, Snapshot(), edge);
        ItemsSweptThrough(log, mid, Snapshot());
        if remaining > 0 {
          NoneLoosenedThrough(log, mid, Snapshot());
        }
        RunConcat(log, steps, taken);
        steps := steps + taken;
      }
      NoneLoosenedHolds(log, Snapshot());
      spent := AtLeast(batch, 0) - remaining;
    }

    method ExpireLeaseRow(l: LeaseKey, now: int) returns (r: ResponseKey)
      requires Valid() && HeadsLeased(Snapshot()) && l in leases && Expirable(leases[l], now)
      modifies this
      ensures Valid() && HeadsLeased(Snapshot()) && Snapshot() == After(old(Snapshot()), ExpireLease(l, now))
      ensures Snapshot() == old(Snapshot()).(leases := old(leases) - {l}) && r in Snapshot().records
      ensures r == old(leases)[l].response
    {
      r := leases[l].response;
      assert r in Snapshot().records;
      AfterExpire(Snapshot(), l, now);
      AfterInvariants(Snapshot(), ExpireLease(l, now));
      DeleteLeaseRow(l);
    }

    method PruneConversationRow(c: ConversationKey, now: int) returns (r: ResponseKey)
      requires Valid() && HeadsLeased(Snapshot()) && c in conversations && Stale(conversations[c], now)
      modifies this
      ensures Valid() && HeadsLeased(Snapshot()) && Snapshot() == After(old(Snapshot()), PruneConversation(c, now))
      ensures conversations == old(conversations) - {c} && Snapshot().records == old(Snapshot()).records
      ensures r in Snapshot().records && r == old(conversations)[c].head
      ensures Snapshot() == ConversationsDropped(old(Snapshot()), {c})
    {
      r := conversations[c].head;
      assert r in Snapshot().records;
      AfterPrune(Snapshot(), c, now);
      AfterInvariants(Snapshot(), PruneConversation(c, now));
      DeleteConversationRow(c);
    }

    method PrunePayloadRow(p: PayloadKey)
      requires Valid() && p in payloads && refcount[p] == 0
      modifies this
      ensures Valid() && Snapshot() == After(old(Snapshot()), PrunePayload(p))
      ensures records == old(records) && items == old(items) && leases == old(leases) && payloads == old(payloads) - {p}
      ensures Snapshot() == old(Snapshot()).(payloads := old(payloads) - {p})
    {
      PayloadPrunedConsistent(Snapshot(), p);
      AfterPrunePayload(Snapshot(), p);
      DeletePayloadRows({p});
    }

    /** One turn: delete any expired live lease, then collect from the response it was on. */
    method ExpireNext(remaining: int, now: int)
      returns (found: bool, left: int, ghost steps: seq<Step>, ghost edge: ResponseKey)
      requires Valid() && HeadsLeased(Snapshot()) && remaining > 0
      modifies this
      ensures Valid() && HeadsLeased(Snapshot()) && conversations == old(conversations)
      ensures Snapshot() == Run(old(Snapshot()), steps) && forall i | 0 <= i < |steps| :: Scheduled(steps[i])
      ensures |old(records).Keys| - |records.Keys| <= remaining - left
      ensures forall l | l in old(leases) && old(leases)[l].status == Live && !Expirable(old(leases)[l], now) ::
        l in leases && leases[l] == old(leases)[l]
      ensures if found then 0 <= left < remaining
              else left == remaining && forall l | l in leases :: !Expirable(leases[l], now)
      ensures left > 0 ==> NoneLoosened(old(Snapshot()), Snapshot())
      ensures LoosenedBut(old(Snapshot()), Snapshot(), edge)
      ensures Due(leases, now) <= Due(old(leases), now)
      ensures remaining - left <=
        |old(records).Keys| - |records.Keys| + |Due(old(leases), now)| - |Due(leases, now)|
      ensures ItemsSwept(old(Snapshot()), Snapshot())
    {
      hide UsesCounted, ChildrenCounted, LeasesCounted, Consistent, NoneLoosened, LoosenedBut, ItemsSwept, Swept;
      NoneLoosenedYet(Snapshot());
      NothingSwept(Snapshot());
      found, left, steps, edge := false, remaining, [], ResponseKey(0, "");
      if l :| l in leases && Expirable(leases[l], now) {
        found := true;
        left, steps, edge := ExpireOne(l, remaining, now);
      }
    }

    method ExpireOne(l: LeaseKey, remaining: int, now: int)
      returns (left: int, ghost steps: seq<Step>, ghost edge: ResponseKey)
      requires Valid() && HeadsLeased(Snapshot()) && remaining > 0 && l in leases && Expirable(leases[l], now)
      modifies this
      ensures Valid() && HeadsLeased(Snapshot()) && conversations == old(conversations)
      ensures Snapshot() == Run(old(Snapshot()), steps) && forall i | 0 <= i < |steps| :: Scheduled(steps[i])
      ensures 0 <= left < remaining && |old(records).Keys| - |records.Keys| <= remaining - left
      ensures forall m | m in old(leases) && old(leases)[m].status == Live && m != l ::
        m in leases && leases[m] == old(leases)[m]
      ensures left > 0 ==> NoneLoosened(old(Snapshot()), Snapshot())
      ensures LoosenedBut(old(Snapshot()), Snapshot(), edge)
      ensures remaining - left <= |old(records).Keys| - |records.Keys| + 1
      ensures |Due(leases, now)| == |Due(old(leases), now)| - 1 && Due(leases, now) <= Due(old(leases), now)
      ensures ItemsSwept(old(Snapshot()), Snapshot())
    {
      hide UsesCounted, ChildrenCounted, LeasesCounted, Consistent, Run, NoneLoosened, LoosenedBut, Referenced, Matched,
        HeadsLeased, Collected, Stopped, ItemsSwept;
      var r := ExpireLeaseRow(l, now);
      ghost var mid := Snapshot();
      ExpiredLoosens(old(Snapshot()), l);
      ghost var collected;
      left, collected, edge := CollectFrom(r, remaining);
      LoosenedEdge(old(Snapshot()), mid, Snapshot(), r, edge);
      LetGoThenSwept(old(Snapshot()), mid, Snapshot());
      OneLessDue(old(leases), leases, l, now);
      if left > 0 {
        LoosenedButOne(old(Snapshot()), mid, Snapshot(), r);
      }
      RunCons(old(Snapshot()), ExpireLease(l, now), collected);
      steps := [ExpireLease(l, now)] + collected;
    }

    /**
     gc_prune_conversations: every conversation past its retention goes, with what its head alone kept, until the
     batch is spent.
     */
    method GcPruneConversations(batch: int, now: int)
      returns (ghost steps: seq<Step>, ghost spent: int, ghost edge: ResponseKey)
      requires Valid() && HeadsLeased(Snapshot())
      modifies this
      ensures Valid() && HeadsLeased(Snapshot())
      ensures Snapshot() == Run(old(Snapshot()), steps) && forall i | 0 <= i < |steps| :: Scheduled(steps[i])
      ensures |old(records).Keys| - |records.Keys| <= spent <= AtLeast(batch, 0)
      ensures spent < AtLeast(batch, 0) ==> forall c | c in conversations :: !Stale(conversations[c], now)
      ensures forall c | c in old(conversations) && !Stale(old(conversations)[c], now) ::
        c in conversations && conversations[c] == old(conversations)[c]
      ensures spent < AtLeast(batch, 0) ==> NoneLoosened(old(Snapshot()), Snapshot())
      ensures spent < AtLeast(batch, 0) && Garbage(old(Snapshot())) == {} ==> Garbage(Snapshot()) == {}
      ensures Outdated(conversations, now) <= Outdated(old(conversations), now)
      ensures spent <= |old(records).Keys| - |records.Keys|
        + |Outdated(old(conversations), now)| - |Outdated(conversations, now)|
      ensures LoosenedBut(old(Snapshot()), Snapshot(), edge)
      ensures ItemsSwept(old(Snapshot()), Snapshot())
    {
      hide UsesCounted, ChildrenCounted, LeasesCounted, Consistent, NoneLoosened, LoosenedBut, Due, Outdated, Garbage,
        Run, Scheduled, Expirable, Stale, Matched, HeadsLeased, Referenced, ItemsSwept, Swept;
      NoneLoosenedYet(Snapshot());
      NothingSwept(Snapshot());
      steps, edge := [], ResponseKey(0, "");
      var remaining := AtLeast(batch, 0);
      ghost var log := Snapshot();
      var more := true;
      while more && remaining > 0
        invariant Valid() && HeadsLeased(Snapshot()) && 0 <= remaining <= AtLeast(batch, 0)
        invariant Snapshot() == Run(log, steps) && forall i | 0 <= i < |steps| :: Scheduled(steps[i])
        invariant |log.records.Keys| - |records.Keys| <= AtLeast(batch, 0) - remaining
        invariant more || forall c | c in conversations :: !Stale(conversations[c], now)
        invariant forall c | c in log.conversations && !Stale(log.conversations[c], now) ::
          c in conversations && conversations[c] == log.conversations[c]
        invariant remaining > 0 ==> NoneLoosened(log, Snapshot())
        invariant Outdated(conversations, now) <= Outdated(log.conversations, now)
        invariant AtLeast(batch, 0) - remaining <=
          |log.records.Keys| - |records.Keys| + |Outdated(log.conversations, now)| - |Outdated(conversations, now)|
        invariant LoosenedBut(log, Snapshot(), edge) && ItemsSwept(log, Snapshot())
        decreases more, remaining
      {
        ghost var mid := Snapshot();
        ghost var taken;
        more, remaining, taken, edge := PruneNextConversation(remaining, now);
        LoosenedButThrough(log, mid, Snapshot(), edge);
        ItemsSweptThrough(log, mid, Snapshot());
        if remaining > 0 {
          NoneLoosenedThrough(log, mid, Snapshot());
        }
        RunConcat(log, steps, taken);
        steps := steps + taken;
      }
      NoneLoosenedHolds(log, Snapshot());
      spent := AtLeast(batch, 0) - remaining;
    }

    method PruneNextConversation(remaining: int, now: int)
      returns (found: bool, left: int, ghost steps: seq<Step>, ghost edge: ResponseKey)
      requires Valid() && HeadsLeased(Snapshot()) && remaining > 0
      modifies this
      ensures Valid() && HeadsLeased(Snapshot())
      ensures Snapshot() == Run(old(Snapshot()), steps) && forall i | 0 <= i < |steps| :: Scheduled(steps[i])
      ensures |old(records).Keys| - |records.Keys| <= remaining - left
      ensures forall c | c in old(conversations) && !Stale(old(conversations)[c], now) ::
        c in conversations && conversations[c] == old(conversations)[c]
      ensures if found then 0 <= left < remaining
              else left == remaining && forall c | c in conversations :: !Stale(conversations[c], now)
      ensures left > 0 ==> NoneLoosened(old(Snapshot()), Snapshot())
      ensures LoosenedBut(old(Snapshot()), Snapshot(), edge)
      ensures Outdated(conversations, now) <= Outdated(old(conversations), now)
      ensures remaining - left <=
        |old(records).Keys| - |records.Keys| + |Outdated(old(conversations), now)| - |Outdated(conversations, now)|
      ensures ItemsSwept(old(Snapshot()), Snapshot())
    {
      hide UsesCounted, ChildrenCounted, LeasesCounted, Consistent, NoneLoosened, LoosenedBut, ItemsSwept, Swept;
      NoneLoosenedYet(Snapshot());
      NothingSwept(Snapshot());
      found, left, steps, edge := false, remaining, [], ResponseKey(0, "");
      if c :| c in conversations && Stale(conversations[c], now) {
        found := true;
        left, steps, edge := PruneOneConversation(c, remaining, now);
      }
    }

    method PruneOneConversation(c: ConversationKey, remaining: int, now: int)
      returns (left: int, ghost steps: seq<Step>, ghost edge: ResponseKey)
      requires Valid() && HeadsLeased(Snapshot()) && remaining > 0 && c in conversations && Stale(conversations[c], now)
      modifies this
      ensures Valid() && HeadsLeased(Snapshot()) && conversations == old(conversations) - {c}
      ensures Snapshot() == Run(old(Snapshot()), steps) && forall i | 0 <= i < |steps| :: Scheduled(steps[i])
      ensures 0 <= left < remaining && |old(records).Keys| - |records.Keys| <= remaining - left
      ensures left > 0 ==> NoneLoosened(old(Snapshot()), Snapshot())
      ensures LoosenedBut(old(Snapshot()), Snapshot(), edge)
      ensures remaining - left <= |old(records).Keys| - |records.Keys| + 1
      ensures |Outdated(conversations, now)| == |Outdated(old(conversations), now)| - 1
      ensures Outdated(conversations, now) <= Outdated(old(conversations), now)
      ensures ItemsSwept(old(Snapshot()), Snapshot())
    {
      hide UsesCounted, ChildrenCounted, LeasesCounted, Consistent, Run, NoneLoosened, LoosenedBut, Referenced, Matched,
        HeadsLeased, Collected, Stopped, ItemsSwept;
      var r := PruneConversationRow(c, now);
      ghost var mid := Snapshot();
      PrunedLoosens(old(Snapshot()), c);
      ghost var collected;
      left, collected, edge := CollectFrom(r, remaining);
      LoosenedEdge(old(Snapshot()), mid, Snapshot(), r, edge);
      LetGoThenSwept(old(Snapshot()), mid, Snapshot());
      OneLessOutdated(old(conversations), c, now);
      if left > 0 {
        LoosenedButOne(old(Snapshot()), mid, Snapshot(), r);
      }
      RunCons(old(Snapshot()), PruneConversation(c, now), collected);
      steps := [PruneConversation(c, now)] + collected;
    }

    /** gc_prune_payloads: up to `limit` payloads that no item uses. */
    method GcPrunePayloads(limit: nat) returns (ghost steps: seq<Step>)
      requires Valid()
      modifies this
      ensures Valid() && records == old(records) && items == old(items) && leases == old(leases)
      ensures Snapshot() == Run(old(Snapshot()), steps) && forall i | 0 <= i < |steps| :: Sweeping(steps[i])
      ensures |steps| <= limit
      ensures |steps| < limit ==> forall p | p in Snapshot().payloads :: Uses(items, p) != {}
      ensures payloads.Keys <= old(payloads).Keys && |payloads.Keys| + |steps| == |old(payloads).Keys|
      ensures Snapshot() == old(Snapshot()).(payloads := payloads)
      ensures forall p | p in old(payloads) ::
        if p in payloads then payloads[p] == old(payloads)[p] else Uses(items, p) == {}
    {
      hide UsesCounted, ChildrenCounted, LeasesCounted, Consistent, Run, Uses;
      NoneLoosenedYet(Snapshot());
      steps := [];
      var claimed := 0;
      var more := true;
      while more && claimed < limit
        invariant Valid() && records == old(records) && items == old(items) && leases == old(leases)
        invariant |steps| == claimed <= limit
        invariant payloads.Keys <= old(payloads).Keys && |payloads.Keys| + |steps| == |old(payloads).Keys|
        invariant Snapshot() == old(Snapshot()).(payloads := payloads)
        invariant forall p | p in old(payloads) ::
          if p in payloads then payloads[p] == old(payloads)[p] else Uses(items, p) == {}
        invariant Snapshot() == Run(old(Snapshot()), steps) && forall i | 0 <= i < |steps| :: Sweeping(steps[i])
        invariant more || forall p | p in Snapshot().payloads :: Uses(items, p) != {}
        decreases more, limit - claimed
      {
        ghost var p;
        more, p := PruneNextPayload();
        if more {
          RunStep(old(Snapshot()), steps, PrunePayload(p));
          claimed, steps := claimed + 1, steps + [PrunePayload(p)];
        }
      }
    }

    /** One turn: delete any payload whose counter is zero. */
    method PruneNextPayload() returns (found: bool, ghost p: PayloadKey)
      requires Valid()
      modifies this
      ensures Valid() && records == old(records) && items == old(items) && leases == old(leases)
      ensures found ==> Snapshot() == After(old(Snapshot()), PrunePayload(p))
      ensures found ==> payloads.Keys <= old(payloads).Keys && |payloads.Keys| + 1 == |old(payloads).Keys|
      ensures found ==> p in old(payloads) && Uses(items, p) == {} &&
                        Snapshot() == old(Snapshot()).(payloads := old(payloads) - {p})
      ensures !found ==> Snapshot() == old(Snapshot()) && forall q | q in Snapshot().payloads :: Uses(items, q) != {}
    {
      if q :| q in payloads && refcount[q] == 0 {
        found, p := true, q;
        assert (payloads - {q}).Keys == payloads.Keys - {q};
        PrunePayloadRow(q);
      } else {
        found, p := false, PayloadKey(0, 0);
      }
    }

    /******* Runs *******/

    /** The scheduled collection, call after call with nothing in between: in the end exactly the garbage is gone. */
    method CollectUntilQuiescent(batch: int) returns (ghost steps: seq<Step>)
      requires Valid() && HeadsLeased(Snapshot()) && batch > 0
      modifies this
      ensures Valid() && HeadsLeased(Snapshot())
      ensures Snapshot() == Run(old(Snapshot()), steps) && forall i | 0 <= i < |steps| :: Sweeping(steps[i])
      ensures records.Keys == old(records).Keys - Garbage(old(Snapshot())) && Garbage(Snapshot()) == {}
      ensures Swept(old(Snapshot()), Snapshot())
    {
      hide UsesCounted, ChildrenCounted, LeasesCounted, HeadsLeased, Run, Sweeping, Garbage, Swept;
      ghost var log := Snapshot();
      NoneLoosenedYet(log);
      NothingSwept(log);
      steps := [];
      var done := false;
      while !done
        invariant Valid() && HeadsLeased(Snapshot()) && (done ==> Garbage(Snapshot()) == {})
        invariant Snapshot() == Run(log, steps) && forall i | 0 <= i < |steps| :: Sweeping(steps[i])
        invariant Swept(log, Snapshot())
        decreases |records|, !done
      {
        ghost var mid := Snapshot();
        ghost var taken;
        done, taken := CollectOnce(batch);
        SweptThrough(log, mid, Snapshot());
        RunConcat(log, steps, taken);
        steps := steps + taken;
      }
      SweepTakesGarbage(log, steps);
      AllTaken(log.records.Keys, records.Keys, Garbage(log), Garbage(Snapshot()));
    }

    /** One call, which either takes something or finds nothing left to take. */
    method CollectOnce(batch: int) returns (done: bool, ghost steps: seq<Step>)
      requires Valid() && HeadsLeased(Snapshot()) && batch > 0
      modifies this
      ensures Valid() && HeadsLeased(Snapshot())
      ensures Snapshot() == Run(old(Snapshot()), steps) && forall i | 0 <= i < |steps| :: Sweeping(steps[i])
      ensures if done then |records| == |old(records)| && Garbage(Snapshot()) == {} else |records| < |old(records)|
      ensures Swept(old(Snapshot()), Snapshot())
    {
      hide UsesCounted, ChildrenCounted, LeasesCounted, HeadsLeased, Run, Sweeping, Garbage, Swept;
      ghost var log := Snapshot();
      var before := |records|;
      steps := GcPruneUnreferencedResponses(batch);
      SweepTakesGarbage(log, steps);
      TookNothing(log.records.Keys, records.Keys, Garbage(log), Garbage(Snapshot()), batch);
      done := |records| == before;
    }

    /** One transaction, as the table of steps has it. */
    method Execute(step: Step) returns (ok: bool)
      requires Valid() && HeadsLeased(Snapshot()) && SparesHeads(Snapshot(), step)
      modifies this
      ensures Valid() && HeadsLeased(Snapshot()) && Snapshot() == After(old(Snapshot()), step)
      ensures ok <==> Next(old(Snapshot()), step).Some?
    {
      hide Created, AddItem, Replaced, Terminated, LeaseRefreshed, Released, LeaseMarked, HeadMoved, Deleted, Removed,
        ConversationsDropped, UsesCounted, ChildrenCounted, LeasesCounted, Consistent, Matched, SparesHeads;
      AfterInvariants(Snapshot(), step);
      ok := false;
      match step
      case Create(key, prev, inputs, outputs, retention, status) =>
        if prev.None? || prev.value.scope == key.scope {
          var prevId := if prev.None? then None else Some(prev.value.id);
          ok := CreateResponseRecord(key, prevId, inputs, outputs, retention, status);
        }
      case Append(key, index, item) => ok := AppendOutputItem(key, index, item);
      case Replace(key, index, item) => ok := ReplaceOutputItem(key, index, item);
      case Terminate(key, status, conversation) => ok := TerminateResponse(key, status, conversation);
      case RefreshLease(owner, key, expires) =>
        if key.scope == owner.scope {
          ok := CreateOrRefreshResponseLease(owner, key.id, expires);
        }
      case ReleaseLease(owner) =>
        ReleaseResponseLease(owner);
        ok := true;
      case MarkLease(l, mark) => ok := MarkResponseLease(l, mark);
      case MoveHead(c, key, retention) =>
        if key.scope == c.scope {
          ok := MoveConversationHead(c, key.id, retention);
        }
      case Delete(key) => ok := DeleteResponse(key);
      case _ => ok := ExecuteScheduled(step);
    }

    method ExecuteScheduled(step: Step) returns (ok: bool)
      requires Valid() && HeadsLeased(Snapshot()) && Scheduled(step)
      modifies this
      ensures Valid() && HeadsLeased(Snapshot()) && Snapshot() == After(old(Snapshot()), step)
      ensures ok <==> Next(old(Snapshot()), step).Some?
    {
      hide UsesCounted, ChildrenCounted, LeasesCounted, Consistent, HeadsLeased, Removed, ConversationsDropped,
        Referenced, Uses;
      ok := false;
      match step
      case ExpireLease(l, now) =>
        if l in leases && Expirable(leases[l], now) {
          var r := ExpireLeaseRow(l, now);
          ok := true;
        }
      case PruneConversation(c, now) =>
        if c in conversations && Stale(conversations[c], now) {
          var r := PruneConversationRow(c, now);
          ok := true;
        }
      case Remove(key) => ok := RemoveIfUnreferenced(key);
      case PrunePayload(p) => ok := PruneIfUnused(p);
    }

    method RemoveIfUnreferenced(key: ResponseKey) returns (ok: bool)
      requires Valid() && HeadsLeased(Snapshot())
      modifies this
      ensures Valid() && HeadsLeased(Snapshot()) && Snapshot() == After(old(Snapshot()), Remove(key))
      ensures ok <==> Next(old(Snapshot()), Remove(key)).Some?
    {
      hide UsesCounted, ChildrenCounted, LeasesCounted, Consistent, Matched, HeadsLeased, Removed, Referenced;
      var free := IsUnreferenced(key);
      ok := false;
      if free {
        AfterRemove(Snapshot(), key);
        RemovedHeads(Snapshot(), key);
        RemoveResponse(key);
        ok := true;
      }
    }

    method IsUnreferenced(key: ResponseKey) returns (free: bool)
      requires Counted()
      ensures free <==> key in records && !Referenced(Snapshot(), key)
    {
      if key !in records {
        return false;
      }
      CountersRefer(key);
      free := childRefcount[key] == 0 && leaseRefcount[key] == 0;
    }

    method PruneIfUnused(p: PayloadKey) returns (ok: bool)
      requires Valid() && HeadsLeased(Snapshot())
      modifies this
      ensures Valid() && HeadsLeased(Snapshot()) && Snapshot() == After(old(Snapshot()), PrunePayload(p))
      ensures ok <==> Next(old(Snapshot()), PrunePayload(p)).Some?
    {
      ok := false;
      if p in payloads && refcount[p] == 0 {
        AfterInvariants(Snapshot(), PrunePayload(p));
        PrunePayloadRow(p);
        ok := true;
      }
    }

    /**
     Any run of transactions that spare the heads, on the tables with their counters: it is the run of the
     specification.
     */
    method ExecuteAll(steps: seq<Step>)
      requires Valid() && HeadsLeased(Snapshot()) && Careful(Snapshot(), steps)
      modifies this
      ensures Valid() && HeadsLeased(Snapshot()) && Snapshot() == Run(old(Snapshot()), steps)
    {
      hide UsesCounted, ChildrenCounted, LeasesCounted, Matched, Consistent, SparesHeads, Next;
      assert steps[0..] == steps;
      for i := 0 to |steps|
        invariant Valid() && HeadsLeased(Snapshot()) && Careful(Snapshot(), steps[i..])
        invariant Run(Snapshot(), steps[i..]) == Run(old(Snapshot()), steps)
      {
        RunFirst(Snapshot(), steps, i);
        var ok := Execute(steps[i]);
      }
    }
  }

  /** greatest */
  function AtLeast(x: int, low: int): int {
    if x < low then low else x
  }
}
