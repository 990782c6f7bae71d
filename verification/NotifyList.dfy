/**
 The notification messages: a singly linked list with head and tail pointers. `nodes` and
 `contents` are the ghost view that every method keeps up to date.
 */
module NotifyList {
  import opened Messages

  class Node {
    var msg: Msg
    var next: Node?

    constructor (msg: Msg)
      ensures this.msg == msg && next == null
    {
      this.msg := msg;
      next := null;
    }
  }

  // Leaving out one of distinct nodes.
  lemma Without(nodes: seq<Node>, contents: seq<Msg>, i: nat)
    requires i < |nodes| == |contents|
    ensures var n, c := nodes[..i] + nodes[i + 1..], contents[..i] + contents[i + 1..];
      |n| == |c| == |nodes| - 1
      && forall k | 0 <= k < |n| ::
           n[k] == nodes[if k < i then k else k + 1] && c[k] == contents[if k < i then k else k + 1]
  {
  }

  class List {
    var first: Node?
    var last: Node?
    ghost var nodes: seq<Node>
    ghost var contents: seq<Msg>

    ghost predicate Valid()
      reads this, nodes
    {
      && |contents| == |nodes|
      && (forall i | 0 <= i < |nodes| :: nodes[i].msg == contents[i])
      && (forall i, j | 0 <= i < j < |nodes| :: nodes[i] != nodes[j])
      && (forall i | 0 <= i < |nodes| - 1 :: nodes[i].next == nodes[i + 1])
      && if nodes == [] then first == null && last == null
         else first == nodes[0] && last == nodes[|nodes| - 1] && last.next == null
    }

    constructor ()
      ensures Valid() && contents == [] && nodes == []
    {
      first, last := null, null;
      nodes, contents := [], [];
    }

    // SendNotifyMessage and NotifyWindow: to the back.
    method Append(m: Msg)
      requires Valid()
      modifies this, nodes
      ensures Valid() && contents == old(contents) + [m]
      ensures fresh(nodes[|old(nodes)|]) && nodes[..|nodes| - 1] == old(nodes)
    {
      var node := new Node(m);
      if first == null {
        first, last := node, node;
      } else {
        last.next := node;
        last := node;
      }
      nodes, contents := nodes + [node], contents + [m];
    }

    // SendPriorNotifyMessage: to the front.
    method Prepend(m: Msg)
      requires Valid()
      modifies this
      ensures Valid() && contents == [m] + old(contents)
      ensures fresh(nodes[0]) && nodes[1..] == old(nodes)
    {
      var node := new Node(m);
      if first == null {
        first, last := node, node;
      } else {
        node.next := first;
        first := node;
      }
      nodes, contents := [node] + nodes, [m] + contents;
    }

    // The removing branch of PeekMessageEx.
    method RemoveFirst() returns (m: Msg)
      requires Valid() && first != null
      modifies this
      ensures Valid() && old(contents) == [m] + contents && nodes == old(nodes)[1..]
    {
      var head := first;
      m := head.msg;
      first := head.next;
      if first == null {
        last := null;
      }
      nodes, contents := nodes[1..], contents[1..];
    }

    // Unlinks the `i`-th node, given the one before it.
    method Unlink(prev: Node?, node: Node, ghost i: nat)
      requires Valid() && i < |nodes| && node == nodes[i]
      requires prev == if i == 0 then null else nodes[i - 1]
      modifies this, nodes
      ensures Valid()
      ensures nodes == old(nodes)[..i] + old(nodes)[i + 1..]
      ensures contents == old(contents)[..i] + old(contents)[i + 1..]
      ensures node.next == old(node.next)
    {
      if prev != null {
        prev.next := node.next;
      } else {
        first := node.next;
      }
      if last == node {
        last := if prev != null then prev else first;
      }
      Without(nodes, contents, i);
      nodes := nodes[..i] + nodes[i + 1..];
      contents := contents[..i] + contents[i + 1..];
    }

    lemma Ends()
      requires Valid()
      ensures |nodes| == |contents| && first == if nodes == [] then null else nodes[0]
    {
    }

    lemma NodeAt(i: nat)
      requires Valid() && i < |nodes|
      ensures |nodes| == |contents| && nodes[i].msg == contents[i]
      ensures nodes[i].next == if i + 1 < |nodes| then nodes[i + 1] else null
    {
    }

    // The notification part of __mg_throw_away_messages.
    method ThrowAway(ws: Windows, target: Hwnd) returns (count: nat)
      requires Valid()
      modifies this, nodes
      ensures Valid() && contents == Keep(ws, target, old(contents))
      ensures count == |old(contents)| - |contents|
      ensures forall i | 0 <= i < |nodes| :: nodes[i] in old(nodes)
    {
      hide Keep, Filtered, Kept, BelongsTo, List.Valid;
      ghost var s, j := contents, 0;
      Ends();
      FilterEnds(ws, target, s);
      var prev, node := null, first;
      count := 0;
      while node != null
        invariant Valid() && |nodes| == |contents|
        invariant forall i | 0 <= i < |nodes| :: nodes[i] in old(nodes)
        invariant j <= |s| && contents == Filtered(ws, target, s, j)
        invariant |contents| == |s| - count && Kept(ws, target, s, j) == j - count
        invariant node == if j < |s| then nodes[j - count] else null
        invariant prev == if j == count then null else nodes[j - count - 1]
        decreases |s| - j
      {
        FilterStep(ws, target, s, j, node.msg);
        NodeAt(j - count);
        if BelongsTo(ws, node.msg.hwnd, target) {
          Unlink(prev, node, j - count);
          node := node.next;
          count := count + 1;
        } else {
          prev, node := node, node.next;
        }
        j := j + 1;
      }
    }

    // The notification part of EmptyMessageQueue.
    method Empty()
      requires Valid()
      modifies this
      ensures Valid() && contents == [] && nodes == []
    {
      first, last := null, null;
      nodes, contents := [], [];
    }
  }
}
