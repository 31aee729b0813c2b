/** The doubly linked list of src/core/co_list.c, refined to a sequence of values. An iterator is a node;
    its position is a ghost argument. Freeing a node is dropping it from `nodes`. */
module LinkedList {
  import opened Machine

  class Node<T> {
    var data: T
    var prev: Node?<T>
    var next: Node?<T>

    constructor (data: T)
      ensures this.data == data && prev == null && next == null
    {
      this.data, prev, next := data, null, null;
    }
  }

  function Without<T>(s: seq<T>, k: nat): (r: seq<T>)
    requires k < |s|
    ensures |r| == |s| - 1
    ensures forall i :: 0 <= i < k ==> r[i] == s[i]
    ensures forall i :: k <= i < |r| ==> r[i] == s[i + 1]
  {
    s[..k] + s[k + 1..]
  }

  function With<T>(s: seq<T>, k: nat, x: T): (r: seq<T>)
    requires k <= |s|
    ensures |r| == |s| + 1 && r[k] == x
    ensures forall i :: 0 <= i < k ==> r[i] == s[i]
    ensures forall i :: k < i < |r| ==> r[i] == s[i - 1]
  {
    s[..k] + [x] + s[k..]
  }

  class List<T> {
    var count: nat
    var head: Node?<T>
    var tail: Node?<T>
    ghost var nodes: seq<Node<T>>

    /** The nodes as a frame. */
    ghost function Spine(): set<Node<T>>
      reads this`nodes
    {
      set n | n in nodes
    }

    ghost predicate Valid()
      reads this, nodes
    {
      && count == |nodes|
      && (forall i, j :: 0 <= i < j < |nodes| ==> nodes[i] != nodes[j])
      && (nodes == [] ==> head == null && tail == null)
      && (nodes != [] ==> head == nodes[0] && tail == nodes[|nodes| - 1])
      && (forall i {:trigger nodes[i].prev} :: 0 <= i < |nodes| ==> nodes[i].prev == if i == 0 then null else nodes[i - 1])
      && (forall i {:trigger nodes[i].next} :: 0 <= i < |nodes| ==> nodes[i].next == if i == |nodes| - 1 then null else nodes[i + 1])
    }

    ghost function Values(): (s: seq<T>)
      reads this, nodes
      ensures |s| == |nodes| && forall i :: 0 <= i < |s| ==> s[i] == nodes[i].data
    {
      seq(|nodes|, i requires 0 <= i < |nodes| reads this, nodes => nodes[i].data)
    }

    constructor ()
      ensures Valid() && nodes == [] && Values() == []
    {
      count, head, tail := 0, null, null;
      nodes := [];
    }

    /** The head pointer and the successor of the node at position k, as positions. */
    lemma Links(k: nat)
      requires Valid()
      ensures head == if nodes == [] then null else nodes[0]
      ensures k < |nodes| ==> nodes[k].next == (if k + 1 < |nodes| then nodes[k + 1] else null) && nodes[k].data == Values()[k]
    {
    }

    method Clear()
      requires Valid()
      modifies this
      ensures Valid() && nodes == [] && Values() == []
    {
      count, head, tail := 0, null, null;
      nodes := [];
    }

    method AddHead(value: T) returns (ghost n: Node<T>)
      requires Valid()
      modifies this, Spine()
      ensures Valid() && Values() == [value] + old(Values())
      ensures fresh(n) && nodes == [n] + old(nodes)
    {
      var item := new Node(value);
      if head != null {
        item.next := head;
        head.prev := item;
      } else {
        tail := item;
      }
      head := item;
      count := count + 1;
      nodes := [item] + nodes;
      n := item;
    }

    method AddTail(value: T) returns (ghost n: Node<T>)
      requires Valid()
      modifies this, Spine()
      ensures Valid() && Values() == old(Values()) + [value]
      ensures fresh(n) && nodes == old(nodes) + [n]
    {
      var item := new Node(value);
      if tail != null {
        tail.next := item;
        item.prev := tail;
      } else {
        head := item;
      }
      tail := item;
      count := count + 1;
      nodes := nodes + [item];
      n := item;
    }

    method GetHead() returns (value: Option<T>)
      requires Valid()
      ensures value == if Values() == [] then None else Some(Values()[0])
    {
      value := if head != null then Some(head.data) else None;
    }

    method RemoveHead()
      requires Valid()
      modifies this, Spine()
      ensures Valid() && nodes == if old(nodes) == [] then [] else old(nodes)[1..]
      ensures Values() == if old(Values()) == [] then [] else old(Values())[1..]
    {
      if head != null {
        var item := head;
        head := item.next;
        if head != null {
          head.prev := null;
        }
        count := count - 1;
        if count == 0 {
          head, tail := null, null;
        }
        nodes := nodes[1..];
      }
    }

    method RemoveTail()
      requires Valid()
      modifies this, Spine()
      ensures Valid() && nodes == if old(nodes) == [] then [] else old(nodes)[..|old(nodes)| - 1]
      ensures Values() == if old(Values()) == [] then [] else old(Values())[..|old(Values())| - 1]
    {
      if tail != null {
        var item := tail;
        tail := item.prev;
        if tail != null {
          tail.next := null;
        }
        count := count - 1;
        if count == 0 {
          head, tail := null, null;
        }
        nodes := nodes[..|nodes| - 1];
      }
    }

    /** Unlinks the node at position k. */
    method RemoveAt(it: Node<T>, ghost k: nat)
      requires Valid() && k < |nodes| && nodes[k] == it
      modifies this, Spine()
      ensures Valid() && nodes == Without(old(nodes), k) && Values() == Without(old(Values()), k)
    {
      hide Without, Values;
      if head == it {
        RemoveHead();
      } else if tail == it {
        RemoveTail();
      } else {
        it.prev.next := it.next;
        it.next.prev := it.prev;
        count := count - 1;
        nodes := Without(nodes, k);
      }
    }

    /** The links that make the list valid with `item` spliced in at position k of `was`. */
    lemma Relinked(was: seq<Node<T>>, k: nat, item: Node<T>)
      requires k <= |was| && nodes == With(was, k, item) && count == |was| + 1
      requires item !in was && forall i, j :: 0 <= i < j < |was| ==> was[i] != was[j]
      requires head == (if k == 0 then item else was[0]) && tail == if k == |was| then item else was[|was| - 1]
      requires item.prev == (if k == 0 then null else was[k - 1]) && item.next == if k == |was| then null else was[k]
      requires forall i {:trigger was[i].prev} :: 0 <= i < |was| ==> was[i].prev == if i == k then item else if i == 0 then null else was[i - 1]
      requires forall i {:trigger was[i].next} :: 0 <= i < |was| ==> was[i].next == if i + 1 == k then item else if i == |was| - 1 then null else was[i + 1]
      ensures Valid()
    {
      hide With;
    }

    /** Links a new node before the one at position k. */
    method Insert(it: Node<T>, value: T, ghost k: nat) returns (ghost n: Node<T>)
      requires Valid() && k < |nodes| && nodes[k] == it
      modifies this, Spine()
      ensures Valid() && Values() == With(old(Values()), k, value)
      ensures fresh(n) && nodes == With(old(nodes), k, n)
    {
      hide With, Values;
      var item := new Node(value);
      item.prev := it.prev;
      item.next := it;
      it.prev := item;
      if item.prev != null {
        item.prev.next := item;
      }
      if head == it {
        head := item;
      }
      count := count + 1;
      ghost var was := nodes;
      nodes := With(nodes, k, item);
      n := item;
      Relinked(was, k, item);
    }

    /** Links a new node after `it`, at position k. */
    method InsertAfter(it: Node<T>, value: T, ghost k: nat) returns (ghost n: Node<T>)
      requires Valid() && 0 < k <= |nodes| && nodes[k - 1] == it
      modifies this, Spine()
      ensures Valid() && Values() == With(old(Values()), k, value)
      ensures fresh(n) && nodes == With(old(nodes), k, n)
    {
      hide With, Values;
      var item := new Node(value);
      item.prev := it;
      item.next := it.next;
      it.next := item;
      if item.next != null {
        item.next.prev := item;
      }
      if tail == it {
        tail := item;
      }
      count := count + 1;
      ghost var was := nodes;
      nodes := With(nodes, k, item);
      n := item;
      Relinked(was, k, item);
    }

    /** The first node, from the head, whose value matches. */
    method Find(matches: T -> bool) returns (it: Node?<T>, ghost k: nat)
      requires Valid()
      ensures it == null ==> forall i :: 0 <= i < |Values()| ==> !matches(Values()[i])
      ensures it != null ==> k < |nodes| && nodes[k] == it && matches(Values()[k])
                             && forall i :: 0 <= i < k ==> !matches(Values()[i])
    {
      it, k := head, 0;
      while it != null
        invariant k <= |nodes| && it == (if k < |nodes| then nodes[k] else null)
        invariant forall i :: 0 <= i < k ==> !matches(Values()[i])
        decreases |nodes| - k
      {
        if matches(it.data) {
          return;
        }
        it := it.next;
        k := k + 1;
      }
    }

    method Contains(matches: T -> bool) returns (found: bool)
      requires Valid()
      ensures found <==> exists i :: 0 <= i < |Values()| && matches(Values()[i])
    {
      var it, k := Find(matches);
      found := it != null;
    }
  }
}
