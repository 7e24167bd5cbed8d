/** The three queues that hold task slots, on the linked heap of module Lists. */
module TaskQueues {
  import opened KernelTypes
  import opened Lists
  import opened Seqs

  /** Addresses of the queue heads. The address of `task[i].list` is `i`, so that
      `list_head_to_task_struct` is the identity. */
  const FREEQUEUE := NR_TASKS
  const READYQUEUE := NR_TASKS + 1
  const BLOCKQUEUE := NR_TASKS + 2
  const NR_NODES := NR_TASKS + 3

  function Head(q: QueueId): nat {
    match q
    case FreeQueue => FREEQUEUE
    case ReadyQueue => READYQUEUE
    case BlockQueue => BLOCKQUEUE
  }

  ghost predicate AllSlots(q: seq<nat>) {
    forall i :: i in q ==> i < NR_TASKS
  }

  ghost predicate Disjoint(p: seq<nat>, q: seq<nat>) {
    forall i :: i in p ==> i !in q
  }

  /** The three pointer lists of a heap spell out three sequences of slots that share none. */
  ghost predicate Spells(next: seq<int>, prev: seq<int>, free: seq<nat>, ready: seq<nat>, blocked: seq<nat>) {
    && IsList(next, prev, FREEQUEUE, free) && IsList(next, prev, READYQUEUE, ready) &&
        IsList(next, prev, BLOCKQUEUE, blocked)
    && AllSlots(free) && AllSlots(ready) && AllSlots(blocked)
    && Disjoint(free, ready) && Disjoint(free, blocked) && Disjoint(ready, blocked)
  }

  lemma ListsApart(node: nat, head: nat, s: seq<nat>, h: nat, t: seq<nat>)
    requires h != head && NR_TASKS <= h && NR_TASKS <= head && node < NR_TASKS && node !in t
    requires AllSlots(s) && AllSlots(t) && Disjoint(t, s)
    ensures Apart(node, head, s, h, t)
  {
  }

  /** Whatever a list operation on queue `q` did to that queue, the other two are as they were. */
  lemma OtherQueuesKept(next: seq<int>, prev: seq<int>, next': seq<int>, prev': seq<int>,
                        free: seq<nat>, ready: seq<nat>, blocked: seq<nat>, slot: nat, q: QueueId)
    requires Spells(next, prev, free, ready, blocked) && slot < NR_TASKS
    requires q != FreeQueue ==> slot !in free
    requires q != ReadyQueue ==> slot !in ready
    requires q != BlockQueue ==> slot !in blocked
    requires var s := match q case FreeQueue => free case ReadyQueue => ready case BlockQueue => blocked;
             forall h, t :: IsList(next, prev, h, t) && Apart(slot, Head(q), s, h, t) ==> IsList(next', prev', h, t)
    ensures q != FreeQueue ==> IsList(next', prev', FREEQUEUE, free)
    ensures q != ReadyQueue ==> IsList(next', prev', READYQUEUE, ready)
    ensures q != BlockQueue ==> IsList(next', prev', BLOCKQUEUE, blocked)
  {
    var s := match q case FreeQueue => free case ReadyQueue => ready case BlockQueue => blocked;
    if q != FreeQueue {
      ListsApart(slot, Head(q), s, FREEQUEUE, free);
    }
    if q != ReadyQueue {
      ListsApart(slot, Head(q), s, READYQUEUE, ready);
    }
    if q != BlockQueue {
      ListsApart(slot, Head(q), s, BLOCKQUEUE, blocked);
    }
  }

  class Queues {
    const heap: NodeHeap

    ghost var free: seq<nat>
    ghost var ready: seq<nat>
    ghost var blocked: seq<nat>

    /** The slots on queue `q`, first to last. */
    ghost function Slots(q: QueueId): seq<nat>
      reads this
    {
      match q
      case FreeQueue => free
      case ReadyQueue => ready
      case BlockQueue => blocked
    }

    ghost predicate Linked(slot: nat)
      reads this
    {
      slot in free || slot in ready || slot in blocked
    }

    /** The pointers spell out the three sequences, which share no slot. */
    ghost predicate Valid()
      reads this, heap.next, heap.prev
    {
      && heap.Valid() && heap.next.Length == NR_NODES
      && Spells(heap.next[..], heap.prev[..], free, ready, blocked)
    }

    /** The static storage of the queues, with the three `INIT_LIST_HEAD` calls. */
    constructor ()
      ensures Valid() && fresh(heap.next) && fresh(heap.prev)
      ensures free == [] && ready == [] && blocked == []
    {
      heap := new NodeHeap(NR_NODES);
      free, ready, blocked := [], [], [];
      new;
      heap.InitListHead(FREEQUEUE);
      heap.InitListHead(READYQUEUE);
      heap.InitListHead(BLOCKQUEUE);
      assert forall q :: Ring(Head(q), []) == [Head(q), Head(q)];
    }

    method Empty(q: QueueId) returns (b: bool)
      requires Valid()
      ensures b <==> Slots(q) == []
    {
      b := heap.ListEmpty(Head(q), Slots(q));
    }

    /** `list_head_to_task_struct(list_first(q))`. */
    method First(q: QueueId) returns (slot: nat)
      requires Valid() && Slots(q) != []
      ensures slot == Slots(q)[0] && slot < NR_TASKS
    {
      slot := heap.ListFirst(Head(q), Slots(q));
      assert Slots(q)[0] in Slots(q);
    }

    /** `list_add_tail(&task[slot].list, q)`. */
    method AddTail(slot: nat, q: QueueId)
      requires Valid() && slot < NR_TASKS && !Linked(slot)
      modifies this, heap.next, heap.prev
      ensures Valid()
      ensures free == if q.FreeQueue? then old(free) + [slot] else old(free)
      ensures ready == if q.ReadyQueue? then old(ready) + [slot] else old(ready)
      ensures blocked == if q.BlockQueue? then old(blocked) + [slot] else old(blocked)
    {
      heap.ListAddTail(slot, Head(q), Slots(q));
      OtherQueuesKept(old(heap.next[..]), old(heap.prev[..]), heap.next[..], heap.prev[..], free, ready, blocked,
          slot, q);
      match q
      case FreeQueue => free := free + [slot];
      case ReadyQueue => ready := ready + [slot];
      case BlockQueue => blocked := blocked + [slot];
    }

    /** `list_del(&task[slot].list)`: only the node is named, not the queue. */
    method Del(slot: nat)
      requires Valid() && slot < NR_TASKS && Linked(slot)
      modifies this, heap.next, heap.prev
      ensures Valid() && !Linked(slot)
      ensures free == Without(old(free), slot)
      ensures ready == Without(old(ready), slot)
      ensures blocked == Without(old(blocked), slot)
    {
      ghost var q := if slot in free then FreeQueue else if slot in ready then ReadyQueue else BlockQueue;
      ghost var k :| 0 <= k < |Slots(q)| && Slots(q)[k] == slot;
      WithoutAt(Slots(q), k);
      heap.ListDel(slot, Head(q), Slots(q), k);
      OtherQueuesKept(old(heap.next[..]), old(heap.prev[..]), heap.next[..], heap.prev[..], free, ready, blocked,
          slot, q);
      if q != FreeQueue {
        WithoutAbsent(free, slot);
      }
      if q != ReadyQueue {
        WithoutAbsent(ready, slot);
      }
      if q != BlockQueue {
        WithoutAbsent(blocked, slot);
      }
      free := Without(free, slot);
      ready := Without(ready, slot);
      blocked := Without(blocked, slot);
    }

    /** The part of `copy_data(current(), uchild, ...)` that lands on the child's list node. */
    method CopyLink(from: nat, to: nat)
      requires Valid() && from < NR_TASKS && to < NR_TASKS && !Linked(to)
      modifies heap.next, heap.prev
      ensures Valid()
    {
      heap.next[to], heap.prev[to] := heap.next[from], heap.prev[from];
      ListKept(old(heap.next[..]), old(heap.prev[..]), heap.next[..], heap.prev[..], FREEQUEUE, free);
      ListKept(old(heap.next[..]), old(heap.prev[..]), heap.next[..], heap.prev[..], READYQUEUE, ready);
      ListKept(old(heap.next[..]), old(heap.prev[..]), heap.next[..], heap.prev[..], BLOCKQUEUE, blocked);
    }
  }
}
