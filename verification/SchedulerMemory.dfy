/** What every operation on the shared memory keeps: registered queues and the round-robin order
    agree, each device's history is its finished items followed by its queue, an item is done
    exactly when it has left, it leaves once, and only heads are ever touched. */
module SchedulerMemory {
  import opened Words
  import opened WriteItems
  import opened Scheduler

  ghost predicate Registry(m: Mem)
  {
    && m.history.Keys == m.queues.Keys && m.finished.Keys == m.queues.Keys
    && (forall i, j | 0 <= i < j < |m.order| :: m.order[i] != m.order[j])
    && (forall d: Device :: d in m.queues <==> d in m.order)
  }

  /** Enqueue history = finished items in order, then the current queue. */
  ghost predicate Conserved(m: Mem)
  {
    forall d | d in m.history && d in m.finished && d in m.queues :: m.history[d] == m.finished[d] + m.queues[d]
  }

  /** Every item is in the history of its own device, and there once: ids grow along it. */
  ghost predicate Owned(m: Mem)
  {
    && (forall d, j | d in m.history && 0 <= j < |m.history[d]| ::
          m.history[d][j] < |m.items| && m.items[m.history[d][j]].device == d)
    && (forall d, i, j | d in m.history && 0 <= i < j < |m.history[d]| :: m.history[d][i] < m.history[d][j])
    && (forall id | 0 <= id < |m.items| :: m.items[id].device in m.history && id in m.history[m.items[id].device])
  }

  ghost predicate DoneMeansFinished(m: Mem)
  {
    && (forall d, j | d in m.finished && 0 <= j < |m.finished[d]| :: ItemAt(m, m.finished[d][j]).done)
    && (forall d, j | d in m.queues && 0 <= j < |m.queues[d]| :: !ItemAt(m, m.queues[d][j]).done)
  }

  /** Behind the head nothing has been prepared, retried or finished. */
  ghost predicate OnlyHeadsTouched(m: Mem)
  {
    forall d, j | d in m.queues && 1 <= j < |m.queues[d]| :: ItemAt(m, m.queues[d][j]) == NewItem(d)
  }

  ghost predicate EndedAt(m: Mem, id: nat, k: nat)
  {
    k < |m.ends| && m.ends[k].id == id
  }

  /** One departure per done item, acked exactly when the item says so; none for any other item. */
  ghost predicate EndsOnce(m: Mem)
  {
    && (forall k | 0 <= k < |m.ends| ::
          ItemAt(m, m.ends[k].id).done && (m.ends[k].outcome == Acked <==> ItemAt(m, m.ends[k].id).acked))
    && (forall j, k | 0 <= j < k < |m.ends| :: m.ends[j].id != m.ends[k].id)
    && (forall id | 0 <= id < |m.items| && m.items[id].done :: exists k :: EndedAt(m, id, k))
  }

  ghost predicate MemInv(m: Mem)
  {
    Registry(m) && Conserved(m) && Owned(m) && DoneMeansFinished(m) && OnlyHeadsTouched(m) && EndsOnce(m)
  }

  // ------------------------------------------------------------------ AddQueue

  lemma AddQueueKeeps(m: Mem, device: Device)
    requires MemInv(m)
    ensures MemInv(AddQueue(m, device))
  {
    if device !in m.queues {
      AddQueueRegistry(m, device);
      AddQueueItems(m, device);
      AddQueueEnds(m, device);
    }
  }

  lemma AddQueueRegistry(m: Mem, device: Device)
    requires MemInv(m) && device !in m.queues
    ensures Registry(AddQueue(m, device))
  {
    hide Conserved, Owned, DoneMeansFinished, OnlyHeadsTouched, EndsOnce;
    var n := AddQueue(m, device);
    assert forall d: Device :: d in n.queues <==> d in n.order;
  }

  lemma AddQueueItems(m: Mem, device: Device)
    requires MemInv(m) && device !in m.queues
    ensures var n := AddQueue(m, device); Conserved(n) && DoneMeansFinished(n) && OnlyHeadsTouched(n)
  {
    hide Owned, EndsOnce;
  }

  lemma AddQueueEnds(m: Mem, device: Device)
    requires MemInv(m) && device !in m.queues
    ensures var n := AddQueue(m, device); Owned(n) && EndsOnce(n)
  {
    hide Conserved, DoneMeansFinished, OnlyHeadsTouched;
    var n := AddQueue(m, device);
    assert forall id, k :: EndedAt(m, id, k) ==> EndedAt(n, id, k);
  }

  // ------------------------------------------------------------------ AppendItem

  lemma AppendItemKeeps(m: Mem, device: Device)
    requires MemInv(m) && device in m.queues
    ensures MemInv(AppendItem(m, device))
  {
    var n := AppendItem(m, device);
    AppendOwned(m, device);
    AppendItemsKept(m, device);
    assert n.queues.Keys == m.queues.Keys && n.order == m.order;
    AppendEnds(m, device);
  }

  lemma AppendItemsKept(m: Mem, device: Device)
    requires MemInv(m) && device in m.queues
    ensures var n := AppendItem(m, device); DoneMeansFinished(n) && OnlyHeadsTouched(n) && Conserved(n)
  {
    var n := AppendItem(m, device);
    forall d, j | d in n.queues && 0 <= j < |n.queues[d]|
      ensures !ItemAt(n, n.queues[d][j]).done && (j >= 1 ==> ItemAt(n, n.queues[d][j]) == NewItem(d))
    {
      if d == device && j == |m.queues[d]| {
        assert n.queues[d][j] == |m.items|;
      } else {
        QueuedInRange(m, d, j);
        assert ItemAt(n, n.queues[d][j]) == ItemAt(m, m.queues[d][j]);
      }
    }
    forall d, j | d in n.finished && 0 <= j < |n.finished[d]|
      ensures ItemAt(n, n.finished[d][j]).done
    {
      FinishedInRange(m, d, j);
      assert ItemAt(m, m.finished[d][j]).done;
    }
  }

  lemma QueuedInRange(m: Mem, d: Device, j: nat)
    requires MemInv(m) && d in m.queues && j < |m.queues[d]|
    ensures m.queues[d][j] < |m.items| && m.items[m.queues[d][j]].device == d
  {
    assert m.history[d][|m.finished[d]| + j] == m.queues[d][j];
  }

  lemma FinishedInRange(m: Mem, d: Device, j: nat)
    requires MemInv(m) && d in m.finished && j < |m.finished[d]|
    ensures m.finished[d][j] < |m.items| && m.items[m.finished[d][j]].device == d
  {
    assert d in m.queues && m.history[d][j] == m.finished[d][j];
  }

  lemma AppendHistory(m: Mem, device: Device)
    requires Registry(m) && device in m.queues
    ensures var n := AppendItem(m, device);
            && device in m.history && n.history == m.history[device := m.history[device] + [|m.items|]]
            && n.items == m.items + [NewItem(device)]
  {}

  lemma AppendOwned(m: Mem, device: Device)
    requires Registry(m) && Owned(m) && device in m.queues
    ensures Owned(AppendItem(m, device))
  {
    hide Registry, AppendItem;
    var n := AppendItem(m, device);
    AppendHistory(m, device);
    forall id | 0 <= id < |n.items|
      ensures n.items[id].device in n.history && id in n.history[n.items[id].device]
    {
      if id < |m.items| {
        assert id in m.history[m.items[id].device];
      } else {
        assert n.history[device][|m.history[device]|] == id;
      }
    }
  }

  lemma AppendEnds(m: Mem, device: Device)
    requires MemInv(m) && device in m.queues
    ensures EndsOnce(AppendItem(m, device))
  {
    var n := AppendItem(m, device);
    forall k | 0 <= k < |n.ends|
      ensures ItemAt(n, n.ends[k].id) == ItemAt(m, m.ends[k].id)
    {
      assert ItemAt(m, m.ends[k].id).done;
    }
    forall id | 0 <= id < |n.items| && n.items[id].done
      ensures exists k :: EndedAt(n, id, k)
    {
      var k :| EndedAt(m, id, k);
      assert EndedAt(n, id, k);
    }
  }

  // ------------------------------------------------------------------ PopHead

  /** Only the head's own item changes when it leaves. */
  lemma PopHeadItems(m: Mem, device: Device, outcome: Outcome, at: nat, id: nat)
    requires MemInv(m) && Queue(m, device) != []
    ensures var n, head := PopHead(m, device, outcome, at), m.queues[device][0];
            && head < |m.items| && !m.items[head].done && |n.items| == |m.items|
            && ItemAt(n, id) == if id == head then m.items[head].(done := true, acked := outcome == Acked) else ItemAt(m, id)
  {
    QueuedInRange(m, device, 0);
  }

  lemma PopHeadKeeps(m: Mem, device: Device, outcome: Outcome, at: nat)
    requires MemInv(m) && Queue(m, device) != []
    ensures MemInv(PopHead(m, device, outcome, at))
  {
    hide Conserved, Owned, DoneMeansFinished, OnlyHeadsTouched, EndsOnce;
    var n := PopHead(m, device, outcome, at);
    PopHeadItems(m, device, outcome, at, 0);
    PopConserved(m, device, outcome, at);
    PopOwned(m, device, outcome, at);
    PopDone(m, device, outcome, at);
    PopEnds(m, device, outcome, at);
    assert n.queues.Keys == m.queues.Keys && n.finished.Keys == m.finished.Keys && n.order == m.order;
  }

  lemma PopConserved(m: Mem, device: Device, outcome: Outcome, at: nat)
    requires MemInv(m) && Queue(m, device) != []
    ensures Conserved(PopHead(m, device, outcome, at))
  {
    hide Owned, DoneMeansFinished, OnlyHeadsTouched, EndsOnce, ItemAt, MarkDone;
    var q := m.queues[device];
    assert m.finished[device] + q == m.finished[device] + [q[0]] + q[1..];
  }

  lemma PopOwned(m: Mem, device: Device, outcome: Outcome, at: nat)
    requires MemInv(m) && Queue(m, device) != []
    ensures Owned(PopHead(m, device, outcome, at))
  {
    var n := PopHead(m, device, outcome, at);
    PopHeadItems(m, device, outcome, at, 0);
    assert n.history == m.history;
    forall id | 0 <= id < |m.items|
      ensures n.items[id].device == m.items[id].device
    {
      PopHeadItems(m, device, outcome, at, id);
    }
  }

  /** The head is in no other queue and further along in none. */
  lemma HeadIsAlone(m: Mem, device: Device, d: Device, j: nat)
    requires MemInv(m) && Queue(m, device) != [] && d in m.queues && j < |m.queues[d]|
    ensures m.queues[d][j] == m.queues[device][0] ==> d == device && j == 0
  {
    QueuedInRange(m, device, 0);
    QueuedInRange(m, d, j);
    if d == device && j > 0 {
      var f := |m.finished[d]|;
      assert m.history[d][f] == m.queues[d][0] && m.history[d][f + j] == m.queues[d][j];
    }
  }

  lemma PopDone(m: Mem, device: Device, outcome: Outcome, at: nat)
    requires MemInv(m) && Queue(m, device) != []
    ensures var n := PopHead(m, device, outcome, at); DoneMeansFinished(n) && OnlyHeadsTouched(n)
  {
    var n := PopHead(m, device, outcome, at);
    forall d, j | d in n.queues && 0 <= j < |n.queues[d]|
      ensures !ItemAt(n, n.queues[d][j]).done && (j >= 1 ==> ItemAt(n, n.queues[d][j]) == NewItem(d))
    {
      var i := if d == device then j + 1 else j;
      assert n.queues[d][j] == m.queues[d][i];
      HeadIsAlone(m, device, d, i);
      PopHeadItems(m, device, outcome, at, n.queues[d][j]);
    }
    forall d, j | d in n.finished && 0 <= j < |n.finished[d]|
      ensures ItemAt(n, n.finished[d][j]).done
    {
      PopHeadItems(m, device, outcome, at, n.finished[d][j]);
      if j < |m.finished[d]| {
        assert ItemAt(m, m.finished[d][j]).done;
      }
    }
  }

  lemma PopEnds(m: Mem, device: Device, outcome: Outcome, at: nat)
    requires MemInv(m) && Queue(m, device) != []
    ensures EndsOnce(PopHead(m, device, outcome, at))
  {
    var n, head := PopHead(m, device, outcome, at), m.queues[device][0];
    forall k | 0 <= k < |m.ends|
      ensures m.ends[k].id != head && ItemAt(n, n.ends[k].id) == ItemAt(m, m.ends[k].id)
    {
      PopHeadItems(m, device, outcome, at, m.ends[k].id);
      assert ItemAt(m, m.ends[k].id).done;
    }
    PopHeadItems(m, device, outcome, at, head);
    forall id | 0 <= id < |n.items| && n.items[id].done
      ensures exists k :: EndedAt(n, id, k)
    {
      PopHeadItems(m, device, outcome, at, id);
      if id == head {
        assert EndedAt(n, id, |m.ends|);
      } else {
        assert m.items[id].done;
        var k :| EndedAt(m, id, k);
        assert EndedAt(n, id, k);
      }
    }
  }

  lemma RemoveItemKeeps(m: Mem, device: Device, id: nat, outcome: Outcome, at: nat)
    requires MemInv(m)
    ensures MemInv(RemoveItem(m, device, id, outcome, at))
  {
    if IsHead(m, device, id) {
      PopHeadKeeps(m, device, outcome, at);
    }
  }

  lemma AckHeadKeeps(m: Mem, device: Device, messageId: byte, at: nat)
    requires MemInv(m)
    ensures MemInv(AckHead(m, device, messageId, at))
  {
    if Queue(m, device) != [] {
      PopHeadKeeps(m, device, Acked, at);
    }
  }

  // ------------------------------------------------------------------ WithItem

  /** The scheduler's item: the head of its queue, or already gone. */
  ghost predicate HeadOrDone(m: Mem, device: Device, id: nat)
  {
    && id < |m.items| && m.items[id].device == device && device in m.queues
    && (m.items[id].done || IsHead(m, device, id))
  }

  /** Preparing or counting an attempt: device, done and acked stay. */
  lemma WithItemKeeps(m: Mem, device: Device, id: nat, item: Item)
    requires MemInv(m) && HeadOrDone(m, device, id)
    requires item.device == device && item.done == m.items[id].done && item.acked == m.items[id].acked
    ensures MemInv(WithItem(m, id, item))
  {
    WithItemQueues(m, device, id, item);
    WithItemEnds(m, device, id, item);
  }

  lemma WithItemQueues(m: Mem, device: Device, id: nat, item: Item)
    requires MemInv(m) && HeadOrDone(m, device, id)
    requires item.device == device && item.done == m.items[id].done && item.acked == m.items[id].acked
    ensures var n := WithItem(m, id, item); Owned(n) && DoneMeansFinished(n) && OnlyHeadsTouched(n)
  {
    hide EndsOnce;
    forall d, j | d in m.queues && 1 <= j < |m.queues[d]|
      ensures m.queues[d][j] != id
    {
      if m.items[id].done {
        assert !ItemAt(m, m.queues[d][j]).done;
      } else {
        HeadIsAlone(m, device, d, j);
      }
    }
  }

  lemma WithItemEnds(m: Mem, device: Device, id: nat, item: Item)
    requires MemInv(m) && HeadOrDone(m, device, id)
    requires item.done == m.items[id].done && item.acked == m.items[id].acked
    ensures EndsOnce(WithItem(m, id, item))
  {
    hide Conserved, Owned, DoneMeansFinished, OnlyHeadsTouched, Registry;
    var n := WithItem(m, id, item);
    forall i | 0 <= i < |n.items| && n.items[i].done
      ensures exists k :: EndedAt(n, i, k)
    {
      var k :| EndedAt(m, i, k);
      assert EndedAt(n, i, k);
    }
  }
}
