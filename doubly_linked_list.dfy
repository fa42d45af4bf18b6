/**
  The doubly linked list of DoublyLinkedList.py: a `head` pointer, nodes with
  `prev_node`/`next_node` pointers, and a `size` counter that the operations
  update on their own account.

  The ghost fields give the abstract view: `Contents` is what `traverse_all`
  returns, `Nodes` the nodes from head to tail, `Repr` every object the list
  has used. `size` is NOT tied to `Contents`: several operations of the
  original forget to update it, and the contracts below say exactly how it
  moves. Every operation that the original ends by raising an exception
  returns `Raised(...)` here, with the state the original leaves behind.
*/
module LinkedList {

  /** The exceptions the list raises. */
  datatype Error<T> =
    | ListEmpty             // ValueError("List is already empty.")
    | NotFound(element: T)  // ValueError(element, " not found.")
    | NoneDereference       // AttributeError: an attribute of None was used

  /** How an operation that returns nothing ended. */
  datatype Outcome<T> = Done | Raised(error: Error<T>)

  /** How an operation that returns a value ended. */
  datatype Result<T> = Returned(value: T) | Failed(error: Error<T>)

  /** The index of the first occurrence of `x` in `s`. */
  function IndexOf<T(==)>(s: seq<T>, x: T): (i: nat)
    requires x in s
    ensures i < |s| && s[i] == x
    ensures forall k :: 0 <= k < i ==> s[k] != x
  {
    if s[0] == x then 0 else 1 + IndexOf(s[1..], x)
  }

  /** `s` with `e` placed right after the first occurrence of `x`. */
  function InsertAfter<T(==)>(s: seq<T>, e: T, x: T): (r: seq<T>)
    requires x in s
    ensures r == s[..IndexOf(s, x) + 1] + [e] + s[IndexOf(s, x) + 1..]
  {
    if s[0] == x then [s[0], e] + s[1..]
    else
      assert x in s[1..];
      [s[0]] + InsertAfter(s[1..], e, x)
  }

  /** `s` without the first occurrence of `x`. */
  function RemoveFirstOf<T(==)>(s: seq<T>, x: T): (r: seq<T>)
    requires x in s
    ensures r == s[..IndexOf(s, x)] + s[IndexOf(s, x) + 1..]
  {
    if s[0] == x then s[1..]
    else
      assert x in s[1..];
      [s[0]] + RemoveFirstOf(s[1..], x)
  }

  /** Inserting adds exactly one copy of `e`, right behind the first `x`. */
  lemma InsertAfterElements<T>(s: seq<T>, e: T, x: T)
    requires x in s
    ensures |InsertAfter(s, e, x)| == |s| + 1
    ensures InsertAfter(s, e, x)[IndexOf(s, x) + 1] == e
    ensures multiset(InsertAfter(s, e, x)) == multiset(s) + multiset{e}
  {
    var i := IndexOf(s, x);
    var before, after := s[..i + 1], s[i + 1..];
    assert s == before + after;
    assert InsertAfter(s, e, x) == before + [e] + after;
    MultisetSplice(before, e, after);
  }

  /** Splicing `e` into a sequence adds exactly one copy of it to the multiset. */
  lemma MultisetSplice<T>(before: seq<T>, e: T, after: seq<T>)
    ensures multiset(before + [e] + after) == multiset(before + after) + multiset{e}
  {
    assert multiset(before + after) == multiset(before) + multiset(after);
  }

  /** Removing takes away exactly one copy of `x` and keeps the rest in order. */
  lemma RemoveFirstOfElements<T>(s: seq<T>, x: T)
    requires x in s
    ensures |RemoveFirstOf(s, x)| == |s| - 1
    ensures multiset(RemoveFirstOf(s, x)) == multiset(s) - multiset{x}
  {
    var i := IndexOf(s, x);
    var before, after := s[..i], s[i + 1..];
    assert s == before + [x] + after;
    assert multiset(s) == multiset(before) + multiset{x} + multiset(after);
    assert RemoveFirstOf(s, x) == before + after;
  }

  /** The first `e` in `before + [e] + after` is the one after `before` when `before` has none. */
  lemma FirstOccurrence<T>(before: seq<T>, e: T, after: seq<T>)
    requires e !in before
    ensures IndexOf(before + [e] + after, e) == |before|
  {
    var r := before + [e] + after;
    assert r[|before|] == e;
    assert forall k :: 0 <= k < |before| ==> r[k] == before[k];
  }

  /** Removing a fresh element right after inserting it gives the list back. */
  lemma RemoveInserted<T>(s: seq<T>, e: T, x: T)
    requires x in s && e !in s
    ensures e in InsertAfter(s, e, x)
    ensures RemoveFirstOf(InsertAfter(s, e, x), e) == s
  {
    var i := IndexOf(s, x);
    var before, after := s[..i + 1], s[i + 1..];
    var r := InsertAfter(s, e, x);
    assert r == before + [e] + after;
    FirstOccurrence(before, e, after);
    assert r[..i + 1] == before && r[i + 2..] == after;
    assert s == before + after;
  }

  /** `_Node`: one element with its two neighbour pointers. */
  class Node<T> {
    var element: T
    var prevNode: Node?<T>
    var nextNode: Node?<T>

    constructor (element: T, prevNode: Node?<T>, nextNode: Node?<T>)
      ensures this.element == element
      ensures this.prevNode == prevNode && this.nextNode == nextNode
    {
      this.element := element;
      this.prevNode := prevNode;
      this.nextNode := nextNode;
    }
  }

  class DoublyLinkedList<T(==)> {
    var head: Node?<T>
    var size: int

    ghost var Contents: seq<T>
    ghost var Nodes: seq<Node<T>>
    ghost var Repr: set<object>

    /**
      The list is well formed: `Nodes` is a chain of distinct nodes starting
      at `head`, each `nextNode` points to the following node (the last to
      null) and each `prevNode` is the exact mirror (the first to null).
    */
    ghost predicate Valid()
      reads this, Repr
    {
      && this in Repr
      && |Nodes| == |Contents|
      && (forall i :: 0 <= i < |Nodes| ==> Nodes[i] in Repr)
      && head == (if Nodes == [] then null else Nodes[0])
      && (forall i :: 0 <= i < |Nodes| ==> Nodes[i].element == Contents[i])
      && (forall i {:trigger Nodes[i].nextNode} :: 0 <= i < |Nodes| ==>
            Nodes[i].nextNode == (if i + 1 < |Nodes| then Nodes[i + 1] else null))
      && (forall i {:trigger Nodes[i].prevNode} :: 0 <= i < |Nodes| ==>
            Nodes[i].prevNode == (if i == 0 then null else Nodes[i - 1]))
      && (forall i, j :: 0 <= i < j < |Nodes| ==> Nodes[i] != Nodes[j])
    }

    /** The `size` counter agrees with the number of elements. */
    ghost predicate SizeAccurate()
      reads this
    {
      size == |Contents|
    }

    constructor ()
      ensures Valid() && fresh(Repr)
      ensures Contents == [] && size == 0
    {
      head := null;
      size := 0;
      Contents := [];
      Nodes := [];
      Repr := {this};
    }

    /** `__len__`: the counter, which is the length only while it is accurate. */
    method Len() returns (n: int)
      requires Valid()
      ensures n == size
      ensures SizeAccurate() ==> n == |Contents|
    {
      n := size;
    }

    /** `get_head`: the first element; reading `head.element` fails on an empty list. */
    method GetHead() returns (r: Result<T>)
      requires Valid()
      ensures Contents == [] ==> r == Failed(NoneDereference)
      ensures Contents != [] ==> r == Returned(Contents[0])
    {
      if head == null {
        r := Failed(NoneDereference);
      } else {
        r := Returned(head.element);
      }
    }

    /** `is_empty`: asks the counter, not the head pointer. */
    method IsEmpty() returns (b: bool)
      requires Valid()
      ensures b <==> size == 0
      ensures SizeAccurate() ==> (b <==> Contents == [])
    {
      b := size == 0;
    }

    /** `add_first`: a new node in front of the head. */
    method AddFirst(element: T)
      requires Valid()
      modifies Repr
      ensures Valid() && fresh(Repr - old(Repr))
      ensures Contents == [element] + old(Contents)
      ensures size == old(size) + 1
    {
      var newNode := new Node(element, null, null);
      if head == null {
        head := newNode;
      } else {
        newNode.nextNode := head;
        head.prevNode := newNode;
        head := newNode;
      }
      size := size + 1;
      Nodes := [newNode] + Nodes;
      Contents := [element] + Contents;
      Repr := Repr + {newNode};
    }

    /**
      `remove_first`. On a one-element list the head becomes None and the
      next step, `self.head.prev_node = None`, fails: the list is left empty
      with `size` unchanged.
    */
    method RemoveFirst() returns (outcome: Outcome<T>)
      requires Valid()
      modifies Repr
      ensures Valid() && Repr == old(Repr)
      ensures old(Contents) == [] ==>
        outcome == Raised(ListEmpty) && Contents == [] && size == old(size)
      ensures |old(Contents)| == 1 ==>
        outcome == Raised(NoneDereference) && Contents == [] && size == old(size)
      ensures |old(Contents)| >= 2 ==>
        outcome == Done && Contents == old(Contents)[1..] && size == old(size) - 1
    {
      var oldHead := head;
      if head != null {
        head := head.nextNode;
        if head == null {
          Nodes, Contents := [], [];
          return Raised(NoneDereference);
        }
        head.prevNode := null;
        oldHead.nextNode := null;
        size := size - 1;
        Nodes, Contents := Nodes[1..], Contents[1..];
        outcome := Done;
      } else {
        outcome := Raised(ListEmpty);
      }
    }

    /**
      `add_last`. It decides by the counter (`is_empty`), so a list whose
      counter has drifted to 0 gets the element in front, and one whose
      counter is non-zero but which has no head fails walking from None.
      Appending to a non-empty list leaves `size` as it was.
    */
    method AddLast(element: T) returns (outcome: Outcome<T>)
      requires Valid()
      modifies Repr
      ensures Valid() && fresh(Repr - old(Repr))
      ensures old(size) == 0 ==>
        outcome == Done && Contents == [element] + old(Contents) && size == 1
      ensures old(size) != 0 && old(Contents) == [] ==>
        outcome == Raised(NoneDereference) && Contents == [] && size == old(size)
      ensures old(size) != 0 && old(Contents) != [] ==>
        outcome == Done && Contents == old(Contents) + [element] && size == old(size)
    {
      var empty := IsEmpty();
      if !empty {
        var newNode := new Node(element, null, null);
        var current := head;
        if current == null {
          return Raised(NoneDereference);
        }
        ghost var i := 0;
        while current.nextNode != null
          invariant 0 <= i < |Nodes| && current == Nodes[i]
          decreases |Nodes| - i
        {
          current := current.nextNode;
          i := i + 1;
        }
        LinkAfterTail(current, newNode);
        outcome := Done;
      } else {
        AddFirst(element);
        outcome := Done;
      }
    }

    /** `remove_last`: unlinks the tail node and decrements the counter. */
    method RemoveLast() returns (outcome: Outcome<T>)
      requires Valid()
      modifies Repr
      ensures Valid() && Repr == old(Repr)
      ensures old(Contents) == [] ==>
        outcome == Raised(ListEmpty) && Contents == [] && size == old(size)
      ensures old(Contents) != [] ==>
        outcome == Done && Contents == old(Contents)[..|old(Contents)| - 1]
        && size == old(size) - 1
    {
      if head != null && head.nextNode == null {
        head := null;
        size := size - 1;
        Nodes, Contents := [], [];
        outcome := Done;
      } else if head != null {
        var current := head;
        var prev := current;
        ghost var i := 0;
        while current != null && current.nextNode != null
          invariant 0 <= i < |Nodes| && current == Nodes[i]
          invariant prev == Nodes[if i == 0 then 0 else i - 1]
          decreases |Nodes| - i
        {
          prev := current;
          current := current.nextNode;
          i := i + 1;
        }
        prev.nextNode := null;
        current.prevNode := null;
        size := size - 1;
        Nodes, Contents := Nodes[..i], Contents[..i];
        outcome := Done;
      } else {
        outcome := Raised(ListEmpty);
      }
    }

    /**
      `insert_mid`: places `element` right after the first occurrence of
      `afterElement`. On an empty list the search reads `.element` of None.
    */
    method InsertMid(element: T, afterElement: T) returns (outcome: Outcome<T>)
      requires Valid()
      modifies Repr
      ensures Valid() && fresh(Repr - old(Repr))
      ensures old(Contents) == [] ==>
        outcome == Raised(NoneDereference) && Contents == [] && size == old(size)
      ensures old(Contents) != [] && afterElement !in old(Contents) ==>
        outcome == Raised(NotFound(afterElement))
        && Contents == old(Contents) && size == old(size)
      ensures afterElement in old(Contents) ==>
        outcome == Done && Contents == InsertAfter(old(Contents), element, afterElement)
        && size == old(size) + 1
    {
      var newNode := new Node(element, null, null);
      var current := head;
      ghost var i := 0;
      if head != null {
        while current.element != afterElement && current.nextNode != null
          invariant 0 <= i < |Nodes| && current == Nodes[i]
          invariant forall k :: 0 <= k < i ==> Contents[k] != afterElement
          decreases |Nodes| - i
        {
          current := current.nextNode;
          i := i + 1;
        }
      }
      if current == null {
        return Raised(NoneDereference);
      }
      if current.element == afterElement {
        assert IndexOf(Contents, afterElement) == i;
        if current.nextNode != null {
          LinkBetween(current, newNode, i);
        } else if current.nextNode == null {
          LinkAfterTail(current, newNode);
        }
        size := size + 1;
        outcome := Done;
      } else {
        outcome := Raised(NotFound(afterElement));
      }
    }

    /**
      `remove_mid`: unlinks the first node holding `element`. It never
      touches `size`, does nothing on an empty list, and does nothing when
      the only node holds `element` (none of its three cases applies).
    */
    method RemoveMid(element: T) returns (outcome: Outcome<T>)
      requires Valid()
      modifies Repr
      ensures Valid() && Repr == old(Repr)
      ensures size == old(size)
      ensures old(Contents) == [] ==> outcome == Done && Contents == []
      ensures old(Contents) != [] && element !in old(Contents) ==>
        outcome == Raised(NotFound(element)) && Contents == old(Contents)
      ensures |old(Contents)| == 1 && element in old(Contents) ==>
        outcome == Done && Contents == old(Contents)
      ensures |old(Contents)| >= 2 && element in old(Contents) ==>
        outcome == Done && Contents == RemoveFirstOf(old(Contents), element)
    {
      outcome := Done;
      if head != null {
        var current := head;
        var prev := current;
        ghost var i := 0;
        while current.element != element && current.nextNode != null
          invariant 0 <= i < |Nodes| && current == Nodes[i]
          invariant prev == Nodes[if i == 0 then 0 else i - 1]
          invariant forall k :: 0 <= k < i ==> Contents[k] != element
          decreases |Nodes| - i
        {
          prev := current;
          current := current.nextNode;
          i := i + 1;
        }
        if current.element == element {
          assert IndexOf(Contents, element) == i;
          if current.prevNode != null && current.nextNode != null {
            UnlinkBetween(prev, current, i);
          } else if current.prevNode == null && current.nextNode != null {
            UnlinkHead(current);
          } else if current.prevNode != null && current.nextNode == null {
            UnlinkTail(prev, i);
          }
        } else {
          outcome := Raised(NotFound(element));
        }
      }
    }

    /** `traverse_all`: the elements from head to tail; changes nothing. */
    method TraverseAll() returns (items: seq<T>)
      requires Valid()
      ensures items == Contents
    {
      var current := head;
      items := [];
      ghost var i := 0;
      while current != null
        invariant 0 <= i <= |Nodes|
        invariant current == (if i < |Nodes| then Nodes[i] else null)
        invariant items == Contents[..i]
        decreases |Nodes| - i
      {
        items := items + [current.element];
        current := current.nextNode;
        i := i + 1;
      }
    }
    // Pointer surgery shared by the operations above. Each helper performs
    // the field writes of the lines it is called for, and says what the
    // abstract view becomes.

    /** Lines 111-115: `newNode` goes between `Nodes[i]` and `Nodes[i + 1]`. */
    method LinkBetween(current: Node<T>, newNode: Node<T>, ghost i: nat)
      requires Valid()
      requires i + 1 < |Nodes| && current == Nodes[i]
      requires newNode !in Repr
      modifies Repr, newNode
      ensures Valid()
      ensures Repr == old(Repr) + {newNode}
      ensures Nodes == old(Nodes[..i + 1]) + [newNode] + old(Nodes[i + 1..])
      ensures Contents == old(Contents[..i + 1]) + [old(newNode.element)] + old(Contents[i + 1..])
      ensures head == old(head) && size == old(size)
    {
      ghost var oldNodes := Nodes;
      var oldNextNode := current.nextNode;
      newNode.prevNode := current;
      newNode.nextNode := oldNextNode;
      current.nextNode := newNode;
      oldNextNode.prevNode := newNode;
      Nodes := Nodes[..i + 1] + [newNode] + Nodes[i + 1..];
      Contents := Contents[..i + 1] + [newNode.element] + Contents[i + 1..];
      Repr := Repr + {newNode};
      forall k | 0 <= k < |Nodes|
        ensures Nodes[k].nextNode == (if k + 1 < |Nodes| then Nodes[k + 1] else null)
        ensures Nodes[k].prevNode == (if k == 0 then null else Nodes[k - 1])
      {
        if k < i {
          assert Nodes[k] == oldNodes[k] && Nodes[k + 1] == oldNodes[k + 1];
          assert oldNodes[k] != current && oldNodes[k] != oldNextNode;
        } else if i + 2 < k {
          assert Nodes[k] == oldNodes[k - 1] && Nodes[k - 1] == oldNodes[k - 2];
          assert oldNodes[k - 1] != current && oldNodes[k - 1] != oldNextNode;
        }
      }
      assert forall k :: 0 <= k < |Nodes| ==> Nodes[k] in Repr;
      assert forall k :: 0 <= k < |Nodes| ==> Nodes[k].element == Contents[k];
      assert forall j, k :: 0 <= j < k < |Nodes| ==> Nodes[j] != Nodes[k];
    }

    /** Lines 74-75 and 118-119: `newNode` goes after the tail node `current`. */
    method LinkAfterTail(current: Node<T>, newNode: Node<T>)
      requires Valid()
      requires Nodes != [] && current == Nodes[|Nodes| - 1]
      requires newNode !in Repr && newNode.nextNode == null
      modifies Repr, newNode
      ensures Valid()
      ensures Repr == old(Repr) + {newNode}
      ensures Nodes == old(Nodes) + [newNode]
      ensures Contents == old(Contents) + [old(newNode.element)]
      ensures head == old(head) && size == old(size)
    {
      current.nextNode := newNode;
      newNode.prevNode := current;
      Nodes, Contents := Nodes + [newNode], Contents + [newNode.element];
      Repr := Repr + {newNode};
    }

    /** Lines 137-138: bypasses the inner node `Nodes[i]`. */
    method UnlinkBetween(prev: Node<T>, current: Node<T>, ghost i: nat)
      requires Valid()
      requires 0 < i && i + 1 < |Nodes| && prev == Nodes[i - 1] && current == Nodes[i]
      modifies Repr
      ensures Valid() && Repr == old(Repr)
      ensures Nodes == old(Nodes[..i]) + old(Nodes[i + 1..])
      ensures Contents == old(Contents[..i]) + old(Contents[i + 1..])
      ensures head == old(head) && size == old(size)
    {
      ghost var oldNodes := Nodes;
      var newNextNode := current.nextNode;
      prev.nextNode := newNextNode;
      newNextNode.prevNode := prev;
      Nodes, Contents := Nodes[..i] + Nodes[i + 1..], Contents[..i] + Contents[i + 1..];
      assert forall k :: 0 <= k < i ==> Nodes[k] == oldNodes[k];
      assert forall k :: i <= k < |Nodes| ==> Nodes[k] == oldNodes[k + 1];
    }

    /** Lines 141-143: the head node `current`, which has a successor, is dropped. */
    method UnlinkHead(current: Node<T>)
      requires Valid()
      requires 1 < |Nodes| && current == Nodes[0]
      modifies Repr
      ensures Valid() && Repr == old(Repr)
      ensures Nodes == old(Nodes[1..]) && Contents == old(Contents[1..])
      ensures size == old(size)
    {
      var newNextNode := current.nextNode;
      head := newNextNode;
      current.nextNode := null;
      newNextNode.prevNode := null;
      Nodes, Contents := Nodes[1..], Contents[1..];
    }

    /** Line 146: the tail node `Nodes[i]` is dropped by cutting `prev.nextNode`. */
    method UnlinkTail(prev: Node<T>, ghost i: nat)
      requires Valid()
      requires 0 < i && i + 1 == |Nodes| && prev == Nodes[i - 1]
      modifies Repr
      ensures Valid() && Repr == old(Repr)
      ensures Nodes == old(Nodes[..i]) && Contents == old(Contents[..i])
      ensures head == old(head) && size == old(size)
    {
      prev.nextNode := null;
      Nodes, Contents := Nodes[..i], Contents[..i];
    }
  }
}
