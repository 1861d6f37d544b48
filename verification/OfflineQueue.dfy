/**
 * The offline mutation queue: a persistent FIFO kept as one JSON array in localStorage.
 */
module OfflineQueue {

  datatype Mutation = Mutation(id: string, request: string, timestamp: int)

  /** What the storage slot holds: nothing, text that does not parse, or an array. */
  datatype Slot = Absent | Garbled | Saved(items: seq<Mutation>)

  function Parse(slot: Slot): seq<Mutation> {
    if slot.Saved? then slot.items else []
  }

  function Without(queue: seq<Mutation>, id: string): seq<Mutation> {
    if queue == [] then []
    else (if queue[0].id == id then [] else [queue[0]]) + Without(queue[1..], id)
  }

  ghost predicate DistinctIds(queue: seq<Mutation>) {
    forall i, j | 0 <= i < j < |queue| :: queue[i].id != queue[j].id
  }

  lemma {:induction false} WithoutAbsent(queue: seq<Mutation>, id: string)
    requires forall m | m in queue :: m.id != id
    ensures Without(queue, id) == queue
  {
    if queue != [] {
      WithoutAbsent(queue[1..], id);
    }
  }

  /** Removing the head of a queue of distinct ids leaves its tail, and nothing else goes. */
  lemma WithoutHead(queue: seq<Mutation>)
    requires DistinctIds(queue) && queue != []
    ensures Without(queue, queue[0].id) == queue[1..]
  {
    forall m | m in queue[1..] ensures m.id != queue[0].id {
      var k :| 0 <= k < |queue[1..]| && queue[1..][k] == m;
    }
    WithoutAbsent(queue[1..], queue[0].id);
  }

  lemma {:induction false} WithoutConcat(a: seq<Mutation>, b: seq<Mutation>, id: string)
    ensures Without(a + b, id) == Without(a, id) + Without(b, id)
  {
    if a == [] {
      assert a + b == b;
    } else {
      assert (a + b)[1..] == a[1..] + b;
      WithoutConcat(a[1..], b, id);
    }
  }

  /** Every entry with another id stays, between the same neighbours; every entry with the id goes. */
  lemma WithoutKeepsOthers(before: seq<Mutation>, m: Mutation, after: seq<Mutation>, id: string)
    ensures Without(before + [m] + after, id) ==
            Without(before, id) + (if m.id == id then [] else [m]) + Without(after, id)
  {
    WithoutConcat(before + [m], after, id);
    WithoutConcat(before, [m], id);
    assert [m][1..] == [];
  }

  lemma {:induction false} WithoutMembers(queue: seq<Mutation>, id: string)
    ensures forall m :: multiset(Without(queue, id))[m] == if m.id == id then 0 else multiset(queue)[m]
  {
    if queue != [] {
      WithoutMembers(queue[1..], id);
      assert queue == [queue[0]] + queue[1..];
    }
  }

  class OfflineQueue {
    var slot: Slot

    constructor ()
      ensures GetQueue() == []
    {
      slot := Absent;
    }

    /** An absent or unreadable slot is an empty queue. */
    function GetQueue(): (queue: seq<Mutation>)
      reads this
      ensures !slot.Saved? ==> queue == []
    {
      Parse(slot)
    }

    method Add(request: string, id: string, now: int)
      modifies this
      ensures GetQueue() == old(GetQueue()) + [Mutation(id, request, now)] && slot == Saved(GetQueue())
    {
      var queue := GetQueue();
      queue := queue + [Mutation(id, request, now)];
      slot := Saved(queue);
    }

    method Remove(id: string)
      modifies this
      ensures GetQueue() == Without(old(GetQueue()), id) && slot == Saved(GetQueue())
    {
      slot := Saved(Without(GetQueue(), id));
    }
  }
}
