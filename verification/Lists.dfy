/**
 The intrusive circular doubly linked lists of list.c, on a heap of nodes.

 A node is named by its address and the heap holds the `next` and the `prev` field of every
 address. Neither a node nor `ListDel` knows which list the node is on: the head of the list
 and the sequence the list stands for are ghost arguments.
 */
module Lists {
  import opened Seqs

  const NULL := -1

  /** Going round the list headed by `head`: the head, the nodes, and the head again. */
  ghost function Ring(head: nat, s: seq<nat>): seq<nat> {
    [head] + s + [head]
  }

  /** `next` leads from each ring position to the following one, and `prev` back. */
  ghost predicate LinkAt(next: seq<int>, prev: seq<int>, a: nat, b: nat) {
    a < |next| && b < |prev| && next[a] == b && prev[b] == a
  }

  /** The list headed by `head` links exactly the nodes `s`, in this order, circularly, and
      `next` and `prev` are inverse to one another all the way round. */
  ghost predicate IsList(next: seq<int>, prev: seq<int>, head: nat, s: seq<nat>) {
    && head !in s
    && NoDup(s)
    && forall i :: 0 <= i <= |s| ==> LinkAt(next, prev, Ring(head, s)[i], Ring(head, s)[i + 1])
  }

  /** `next` and `prev` after `__list_add`. */
  ghost function Inserted(node: nat, before: nat, after: nat, next: seq<int>, prev: seq<int>): (r: (seq<int>, seq<int>))
    requires node < |next| == |prev| && before < |next| && after < |next|
  {
    (next[node := after][before := node], prev[after := node][node := before])
  }

  /** `next` and `prev` after `list_del`. */
  ghost function Deleted(node: nat, before: nat, after: nat, next: seq<int>, prev: seq<int>): (r: (seq<int>, seq<int>))
    requires node < |next| == |prev| && before < |next| && after < |next|
  {
    (next[before := after][node := NULL], prev[after := before][node := NULL])
  }

  /** Linking a fresh node between ring positions `k` and `k + 1` puts it at index `k`. */
  lemma InsertIntoList(next: seq<int>, prev: seq<int>, head: nat, s: seq<nat>, k: nat, node: nat)
    requires IsList(next, prev, head, s) && node < |next| == |prev| && node != head && node !in s && k <= |s|
    ensures Ring(head, s)[k] < |next| && Ring(head, s)[k + 1] < |next|
    ensures var h := Inserted(node, Ring(head, s)[k], Ring(head, s)[k + 1], next, prev);
            IsList(h.0, h.1, head, s[..k] + [node] + s[k..])
  {
    var r := Ring(head, s);
    var t := s[..k] + [node] + s[k..];
    var u := Ring(head, t);
    assert LinkAt(next, prev, r[k], r[k + 1]);
    var h := Inserted(node, r[k], r[k + 1], next, prev);
    forall i | 0 <= i <= |t|
      ensures LinkAt(h.0, h.1, u[i], u[i + 1])
    {
      if i < k {
        assert u[i] == r[i] && u[i + 1] == r[i + 1];
        assert LinkAt(next, prev, r[i], r[i + 1]);
      } else if i == k {
        assert u[i] == r[k] && u[i + 1] == node;
      } else if i == k + 1 {
        assert u[i] == node && u[i + 1] == r[k + 1];
      } else {
        assert u[i] == r[i - 1] && u[i + 1] == r[i];
        assert LinkAt(next, prev, r[i - 1], r[i]);
      }
    }
  }

  /** Unlinking the node at index `k` closes the gap. */
  lemma DeleteFromList(next: seq<int>, prev: seq<int>, head: nat, s: seq<nat>, k: nat)
    requires IsList(next, prev, head, s) && k < |s| && |next| == |prev|
    ensures s[k] < |next| && next[s[k]] == Ring(head, s)[k + 2] && prev[s[k]] == Ring(head, s)[k]
    ensures Ring(head, s)[k] < |next| && Ring(head, s)[k + 2] < |next|
    ensures var h := Deleted(s[k], Ring(head, s)[k], Ring(head, s)[k + 2], next, prev);
            IsList(h.0, h.1, head, s[..k] + s[k + 1..])
  {
    var r := Ring(head, s);
    var t := s[..k] + s[k + 1..];
    var u := Ring(head, t);
    assert r[k + 1] == s[k];
    assert LinkAt(next, prev, r[k], r[k + 1]) && LinkAt(next, prev, r[k + 1], r[k + 2]);
    var h := Deleted(s[k], r[k], r[k + 2], next, prev);
    forall i | 0 <= i <= |t|
      ensures LinkAt(h.0, h.1, u[i], u[i + 1])
    {
      if i < k {
        assert u[i] == r[i] && u[i + 1] == r[i + 1];
        assert LinkAt(next, prev, r[i], r[i + 1]);
      } else if i == k {
        assert u[i] == r[k] && u[i + 1] == r[k + 2];
      } else {
        assert u[i] == r[i + 1] && u[i + 1] == r[i + 2];
        assert LinkAt(next, prev, r[i + 1], r[i + 2]);
      }
    }
  }

  /** A list none of whose own nodes changed is still the same list. */
  lemma ListKept(next: seq<int>, prev: seq<int>, next': seq<int>, prev': seq<int>, head: nat, s: seq<nat>)
    requires IsList(next, prev, head, s) && |next'| == |next| && |prev'| == |prev|
    requires forall n :: n in Ring(head, s) && n < |next| && n < |prev| ==> next'[n] == next[n] && prev'[n] == prev[n]
    ensures IsList(next', prev', head, s)
  {
    var r := Ring(head, s);
    forall i | 0 <= i <= |s|
      ensures LinkAt(next', prev', r[i], r[i + 1])
    {
      assert LinkAt(next, prev, r[i], r[i + 1]);
      assert r[i] in r && r[i + 1] in r;
      if i > 0 {
        assert LinkAt(next, prev, r[i - 1], r[i]);
      } else {
        assert LinkAt(next, prev, r[|s|], r[|s| + 1]);
      }
      if i < |s| {
        assert LinkAt(next, prev, r[i + 1], r[i + 2]);
      } else {
        assert LinkAt(next, prev, r[0], r[1]);
      }
    }
  }

  /** No node of the list `h`, `t` is `node` or on the list `head`, `s`. */
  ghost predicate Apart(node: nat, head: nat, s: seq<nat>, h: nat, t: seq<nat>) {
    forall n :: n in Ring(h, t) ==> n != node && n !in Ring(head, s)
  }

  /** What changed only `node` and nodes of one list left every list apart from it alone. */
  lemma OthersKept(next: seq<int>, prev: seq<int>, next': seq<int>, prev': seq<int>, node: nat, head: nat, s: seq<nat>)
    requires |next'| == |next| && |prev'| == |prev| == |next|
    requires forall n :: 0 <= n < |next| && n != node && n !in Ring(head, s) ==>
        next'[n] == next[n] && prev'[n] == prev[n]
    ensures forall h, t :: IsList(next, prev, h, t) && Apart(node, head, s, h, t) ==> IsList(next', prev', h, t)
  {
    forall h, t | IsList(next, prev, h, t) && Apart(node, head, s, h, t)
      ensures IsList(next', prev', h, t)
    {
      ListKept(next, prev, next', prev', h, t);
    }
  }

  /** A heap determines the sequence of a list: two readings agree. */
  lemma SameList(next: seq<int>, prev: seq<int>, head: nat, s: seq<nat>, t: seq<nat>)
    requires IsList(next, prev, head, s) && IsList(next, prev, head, t)
    ensures s == t
  {
    var m := if |s| <= |t| then |s| else |t|;
    SamePrefix(next, prev, head, s, t, m);
    assert Ring(head, s)[m] == Ring(head, t)[m];
    assert LinkAt(next, prev, Ring(head, s)[m], Ring(head, s)[m + 1]);
    assert LinkAt(next, prev, Ring(head, t)[m], Ring(head, t)[m + 1]);
    assert |s| == |t|;
    assert s == s[..m] && t == t[..m];
  }

  lemma {:induction false} SamePrefix(next: seq<int>, prev: seq<int>, head: nat, s: seq<nat>, t: seq<nat>, n: nat)
    requires IsList(next, prev, head, s) && IsList(next, prev, head, t) && n <= |s| && n <= |t|
    ensures s[..n] == t[..n]
  {
    if n > 0 {
      SamePrefix(next, prev, head, s, t, n - 1);
      assert s[..n] == s[..n - 1] + [s[n - 1]];
      assert t[..n] == t[..n - 1] + [t[n - 1]];
      assert Ring(head, s)[n - 1] == Ring(head, t)[n - 1];
      assert LinkAt(next, prev, Ring(head, s)[n - 1], Ring(head, s)[n]);
      assert LinkAt(next, prev, Ring(head, t)[n - 1], Ring(head, t)[n]);
    }
  }

  /** All the `struct list_head` objects of the kernel. */
  class NodeHeap {
    const next: array<int>
    const prev: array<int>

    ghost predicate Valid() {
      next != prev && next.Length == prev.Length
    }

    /** The list headed by `head` holds exactly `s`. */
    ghost predicate Holds(head: nat, s: seq<nat>)
      reads next, prev
    {
      IsList(next[..], prev[..], head, s)
    }

    constructor (size: nat)
      ensures Valid() && fresh(next) && fresh(prev) && next.Length == size
    {
      next := new int[size](_ => NULL);
      prev := new int[size](_ => NULL);
    }

    method InitListHead(list: nat)
      requires Valid() && list < next.Length
      modifies next, prev
      ensures Holds(list, [])
      ensures next[..] == old(next[..])[list := list] && prev[..] == old(prev[..])[list := list]
    {
      next[list] := list;
      prev[list] := list;
      assert Ring(list, [])[0] == Ring(list, [])[1] == list;
    }

    /** `__list_add`. */
    method ListAddBetween(node: nat, before: nat, after: nat)
      requires Valid() && node < next.Length && before < next.Length && after < next.Length
      modifies next, prev
      ensures (next[..], prev[..]) == Inserted(node, before, after, old(next[..]), old(prev[..]))
    {
      prev[after] := node;
      next[node] := after;
      prev[node] := before;
      next[before] := node;
    }

    method ListAdd(node: nat, head: nat, ghost s: seq<nat>)
      requires Valid() && Holds(head, s) && node < next.Length && node != head && node !in s
      modifies next, prev
      ensures Holds(head, [node] + s)
      ensures forall h, t :: old(Holds(h, t)) && Apart(node, head, s, h, t) ==> Holds(h, t)
    {
      InsertIntoList(next[..], prev[..], head, s, 0, node);
      assert LinkAt(next[..], prev[..], Ring(head, s)[0], Ring(head, s)[1]);
      ListAddBetween(node, head, next[head]);
      assert s[..0] + [node] + s[0..] == [node] + s;
      OthersKept(old(next[..]), old(prev[..]), next[..], prev[..], node, head, s);
    }

    method ListAddTail(node: nat, head: nat, ghost s: seq<nat>)
      requires Valid() && Holds(head, s) && node < next.Length && node != head && node !in s
      modifies next, prev
      ensures Holds(head, s + [node])
      ensures forall h, t :: old(Holds(h, t)) && Apart(node, head, s, h, t) ==> Holds(h, t)
    {
      InsertIntoList(next[..], prev[..], head, s, |s|, node);
      assert LinkAt(next[..], prev[..], Ring(head, s)[|s|], Ring(head, s)[|s| + 1]);
      ListAddBetween(node, prev[head], head);
      assert s[..|s|] + [node] + s[|s|..] == s + [node];
      OthersKept(old(next[..]), old(prev[..]), next[..], prev[..], node, head, s);
    }

    /** `list_del` with `__list_del`: unlinks `entry` from whichever list holds it. */
    method ListDel(entry: nat, ghost head: nat, ghost s: seq<nat>, ghost k: nat)
      requires Valid() && Holds(head, s) && k < |s| && s[k] == entry && entry < next.Length
      modifies next, prev
      ensures Holds(head, s[..k] + s[k + 1..])
      ensures next[entry] == NULL && prev[entry] == NULL
      ensures forall h, t :: old(Holds(h, t)) && Apart(entry, head, s, h, t) ==> Holds(h, t)
    {
      DeleteFromList(next[..], prev[..], head, s, k);
      var before, after := prev[entry], next[entry];
      prev[after] := before;
      next[before] := after;
      next[entry] := NULL;
      prev[entry] := NULL;
      OthersKept(old(next[..]), old(prev[..]), next[..], prev[..], entry, head, s);
    }

    method ListIsLast(list: nat, head: nat, ghost s: seq<nat>) returns (b: bool)
      requires Valid() && Holds(head, s) && list in s && list < next.Length
      ensures b <==> list == s[|s| - 1]
    {
      ghost var k :| 0 <= k < |s| && s[k] == list;
      assert LinkAt(next[..], prev[..], Ring(head, s)[k + 1], Ring(head, s)[k + 2]);
      b := next[list] == head;
    }

    method ListEmpty(head: nat, ghost s: seq<nat>) returns (b: bool)
      requires Valid() && Holds(head, s) && head < next.Length
      ensures b <==> s == []
    {
      assert LinkAt(next[..], prev[..], Ring(head, s)[0], Ring(head, s)[1]);
      b := next[head] == head;
    }

    /** The macro `list_first`. */
    method ListFirst(head: nat, ghost s: seq<nat>) returns (e: nat)
      requires Valid() && Holds(head, s) && s != [] && head < next.Length
      ensures e == s[0] && e < next.Length
    {
      assert LinkAt(next[..], prev[..], Ring(head, s)[0], Ring(head, s)[1]);
      assert LinkAt(next[..], prev[..], Ring(head, s)[1], Ring(head, s)[2]);
      e := next[head];
    }

    /** `list_first` and `list_del` of what it returned. */
    method TakeOne(head: nat, ghost s: seq<nat>) returns (e: nat)
      requires Valid() && Holds(head, s) && s != [] && head < next.Length
      modifies next, prev
      ensures e == s[0] && Holds(head, s[1..])
    {
      hide IsList;
      e := ListFirst(head, s);
      ListDel(e, head, s, 0);
      assert s[..0] + s[1..] == s[1..];
    }

    /** A list used as the kernel uses its queues, with nodes put in by `list_add_tail` and taken out
        by `list_first` and `list_del` in any order, is first in, first out: the nodes taken out,
        and then those still there, are the nodes it had and those put in, in the same order. A node
        may come back after it was taken out. */
    method FirstInFirstOut(head: nat, uses: seq<Use>, ghost s: seq<nat>) returns (out: seq<nat>, ghost left: seq<nat>)
      requires Valid() && Holds(head, s) && head < next.Length && Allowed(uses, s, head, next.Length)
      modifies next, prev
      ensures Holds(head, left) && out + left == s + PutIn(uses)
      decreases |uses|
    {
      hide IsList;
      if uses == [] {
        return [], s;
      }
      match uses[0] {
        case Put(node) =>
          ListAddTail(node, head, s);
          out, left := FirstInFirstOut(head, uses[1..], s + [node]);
          Joined(s, [node], PutIn(uses[1..]));
        case Take =>
          var empty := ListEmpty(head, s);
          if empty {
            out, left := FirstInFirstOut(head, uses[1..], s);
          } else {
            var e := TakeOne(head, s);
            out, left := FirstInFirstOut(head, uses[1..], s[1..]);
            Joined([e], out, left);
            Joined([e], s[1..], PutIn(uses));
            assert s == [e] + s[1..];
            out := [e] + out;
          }
      }
    }
  }

  lemma Joined(a: seq<nat>, b: seq<nat>, c: seq<nat>)
    ensures (a + b) + c == a + (b + c)
  {
  }

  datatype Use = Put(node: nat) | Take

  function PutIn(uses: seq<Use>): seq<nat> {
    if uses == [] then []
    else if uses[0].Put? then [uses[0].node] + PutIn(uses[1..])
    else PutIn(uses[1..])
  }

  /** No node is put in while it is on the list, which holds `s` at first. */
  ghost predicate Allowed(uses: seq<Use>, s: seq<nat>, head: nat, size: nat) {
    if uses == [] then true
    else match uses[0]
      case Put(n) => n < size && n != head && n !in s && Allowed(uses[1..], s + [n], head, size)
      case Take => Allowed(uses[1..], if s == [] then [] else s[1..], head, size)
  }
}
