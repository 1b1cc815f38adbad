/**
 * `MemList` (src/util.cpp): a singly linked list that keeps the last buffers
 * added, recycling its head node as the new tail once it is full.
 */
module MemListModel {
  import opened Common

  /** The last `n` elements, or all of them. */
  function Last<T>(s: seq<T>, n: nat): (w: seq<T>)
    ensures |w| == if |s| <= n then |s| else n
  {
    if |s| <= n then s else s[|s| - n..]
  }

  /** What a list with limit `n` keeps; a negative limit is none. */
  function Window<T>(s: seq<T>, n: int): (w: seq<T>)
    ensures n >= 0 ==> |w| <= n
  {
    if n < 0 then s else Last(s, n)
  }

  /** One more element slides the window once it is full. */
  lemma WindowAppend<T>(s: seq<T>, x: T, n: int)
    requires n != 0
    ensures var w := Window(s, n);
            Window(s + [x], n) == if |w| == n then w[1..] + [x] else w + [x]
  {
  }

  class MemItem {
    var buffer: seq<Byte>    // `nLength` bytes at `pBuffer`
    var next: MemItem?

    constructor (bs: seq<Byte>)
      ensures buffer == bs && next == null
    {
      buffer, next := bs, null;
    }
  }

  class MemList {
    var itemCount: int
    var curItemCount: int
    var head: MemItem?
    var tail: MemItem?
    ghost var nodes: seq<MemItem>          // from `head` along `next`
    ghost var history: seq<seq<Byte>>      // added since the last reset
    ghost var repr: set<MemItem>           // every node allocated so far

    /** The chain from `head` is acyclic and ends at `tail`. */
    ghost predicate Chain()
      reads this, nodes
    {
      && (forall i, j :: 0 <= i < j < |nodes| ==> nodes[i] != nodes[j])
      && (if nodes == [] then head == null && tail == null
          else head == nodes[0] && tail == nodes[|nodes| - 1] && tail.next == null)
      && (forall i :: 0 <= i < |nodes| - 1 ==> nodes[i].next == nodes[i + 1])
    }

    /** It holds exactly these buffers, in order. */
    ghost predicate Holds(w: seq<seq<Byte>>)
      reads this, nodes
    {
      |nodes| == |w| && forall i :: 0 <= i < |nodes| ==> nodes[i].buffer == w[i]
    }

    ghost predicate Valid()
      reads this, nodes
    {
      && Chain() && |nodes| == curItemCount
      && (forall i :: 0 <= i < |nodes| ==> nodes[i] in repr)
      && Holds(Window(history, itemCount)) && (itemCount == 0 ==> history == [])
    }

    constructor (nItems: int)
      ensures Valid() && history == [] && itemCount == nItems && repr == {}
    {
      itemCount, curItemCount, head, tail := nItems, 0, null, null;
      nodes, history, repr := [], [], {};
    }

    method FreeAllItems()
      requires Chain()
      modifies this
      ensures head == null && tail == null && nodes == []
      ensures itemCount == old(itemCount) && curItemCount == old(curItemCount)
      ensures history == old(history) && repr == old(repr)
    {
      ghost var k := 0;
      while head != null
        invariant 0 <= k <= |nodes| && nodes == old(nodes)
        invariant head == if k < |nodes| then nodes[k] else null
        invariant forall i :: 0 <= i < |nodes| ==> nodes[i].next == if i + 1 < |nodes| then nodes[i + 1] else null
        invariant itemCount == old(itemCount) && curItemCount == old(curItemCount)
        invariant history == old(history) && repr == old(repr)
        decreases |nodes| - k
      {
        head := head.next;
        k := k + 1;
      }
      head, tail := null, null;
      nodes := [];
    }

    method SetItems(nItems: int)
      requires Valid()
      modifies this
      ensures Valid() && itemCount == nItems && history == [] && repr == old(repr)
    {
      FreeAllItems();
      itemCount := nItems;
      curItemCount := 0;
      history := [];
    }

    method Reset()
      requires Valid()
      modifies this
      ensures Valid() && itemCount == old(itemCount) && history == [] && repr == old(repr)
    {
      curItemCount := 0;
      FreeAllItems();
      history := [];
    }

    /** The full list: the head node is moved behind the tail and refilled. */
    method Recycle(bs: seq<Byte>)
      requires Valid() && itemCount != 0 && curItemCount == itemCount
      modifies this, repr
      ensures Chain() && |nodes| == curItemCount == old(curItemCount) && itemCount == old(itemCount)
      ensures history == old(history) && repr == old(repr) && forall i :: 0 <= i < |nodes| ==> nodes[i] in repr
      ensures Holds(Window(old(history), itemCount)[1..] + [bs])
    {
      var item := if itemCount > 1 then head else tail;
      if itemCount > 1 {
        head := head.next;
        tail.next := item;
        tail := item;
        item.next := null;
        nodes := nodes[1..] + [nodes[0]];
      }
      item.buffer := bs;
    }

    /** The list below its limit: a new node behind the tail. */
    method Append(bs: seq<Byte>)
      requires Valid() && itemCount != 0 && curItemCount != itemCount
      modifies this, repr
      ensures Chain() && |nodes| == curItemCount == old(curItemCount) + 1 && itemCount == old(itemCount)
      ensures history == old(history) && fresh(repr - old(repr)) && forall i :: 0 <= i < |nodes| ==> nodes[i] in repr
      ensures Holds(Window(old(history), itemCount) + [bs])
    {
      var item := new MemItem(bs);
      if head == null {
        head, tail := item, item;
      } else {
        tail.next := item;
        tail := item;
      }
      nodes := nodes + [item];
      repr := repr + {item};
      curItemCount := curItemCount + 1;
    }

    /** Adds a buffer; the list always holds the last `itemCount` of them, or all
        under a negative limit. */
    method Add(bs: seq<Byte>)
      requires Valid() && itemCount != 0   // with limit zero the code needs a tail it does not have
      modifies this, repr
      ensures Valid() && itemCount == old(itemCount) && history == old(history) + [bs]
      ensures fresh(repr - old(repr))
    {
      WindowAppend(history, bs, itemCount);
      ghost var w := Window(history + [bs], itemCount);
      if curItemCount == itemCount {
        Recycle(bs);
        assert Holds(w);
      } else {
        Append(bs);
        assert Holds(w);
      }
      history := history + [bs];
    }

    /** Walking from `head` with `set_serialize` and `get` ends, and yields exactly
        the window. */
    method Serialize() returns (out: seq<seq<Byte>>)
      requires Valid()
      ensures out == Window(history, itemCount)
    {
      out := [];
      var cur := head;
      while cur != null
        invariant |out| <= |nodes|
        invariant cur == if |out| < |nodes| then nodes[|out|] else null
        invariant forall i :: 0 <= i < |out| ==> out[i] == nodes[i].buffer
        decreases |nodes| - |out|
      {
        out := out + [cur.buffer];
        cur := cur.next;
      }
    }
  }

  datatype Op = Add(bs: seq<Byte>) | Reset | SetItems(n: int)

  /** Buffers added since the last `reset` or `set_items`, and the limit. */
  function Recent(ops: seq<Op>): seq<seq<Byte>> {
    if ops == [] then [] else
    match ops[|ops| - 1]
    case Add(bs) => Recent(ops[..|ops| - 1]) + [bs]
    case _ => []
  }

  function Limit(n0: int, ops: seq<Op>): int {
    if ops == [] then n0 else if ops[|ops| - 1].SetItems? then ops[|ops| - 1].n else Limit(n0, ops[..|ops| - 1])
  }

  lemma OpsStep(n0: int, ops: seq<Op>, i: nat)
    requires i < |ops|
    ensures Recent(ops[..i + 1]) == if ops[i].Add? then Recent(ops[..i]) + [ops[i].bs] else []
    ensures Limit(n0, ops[..i + 1]) == if ops[i].SetItems? then ops[i].n else Limit(n0, ops[..i])
  {
    assert ops[..i + 1][..i] == ops[..i];
  }

  /** After any run that adds nothing under limit zero, walking the list gives
      exactly the last buffers added, as many as the limit, in order; all of them
      when the limit is negative. */
  method RunList(n0: int, ops: seq<Op>) returns (out: seq<seq<Byte>>)
    requires forall i :: 0 <= i < |ops| && ops[i].Add? ==> Limit(n0, ops[..i]) != 0
    ensures out == Window(Recent(ops), Limit(n0, ops))
  {
    var list := new MemList(n0);
    for i := 0 to |ops|
      invariant fresh(list) && fresh(list.repr) && list.Valid()
      invariant list.itemCount == Limit(n0, ops[..i]) && list.history == Recent(ops[..i])
    {
      OpsStep(n0, ops, i);
      match ops[i] {
        case Add(bs) => list.Add(bs);
        case Reset => list.Reset();
        case SetItems(n) => list.SetItems(n);
      }
    }
    TakeAll(ops);
    out := list.Serialize();
  }
}
