/** A key-to-value linked list with unique keys (linkedlist.c).
    The chain of nodes starting at `first` is modelled as the sequence `nodes`,
    front node first; the `size` counter is kept as its own field, as in the C struct. */
module LinkedLists {

  /** One node of the chain: its key and its value (the `next` link is the order of the sequence). */
  datatype Node = Node(key: int, value: int)

  /** The map that a chain of nodes with pairwise distinct keys stands for. */
  ghost function MapOf(nodes: seq<Node>): map<int, int>
  {
    if nodes == [] then map[] else MapOf(nodes[1..])[nodes[0].key := nodes[0].value]
  }

  /** Keys of the chain are pairwise distinct. */
  ghost predicate DistinctKeys(nodes: seq<Node>)
  {
    forall i, j :: 0 <= i < j < |nodes| ==> nodes[i].key != nodes[j].key
  }

  /** A key is in the map exactly when some node carries it, and then the map holds that node's value. */
  lemma {:induction false} MapOfLookup(nodes: seq<Node>, k: int)
    requires DistinctKeys(nodes)
    ensures k in MapOf(nodes) <==> exists i :: 0 <= i < |nodes| && nodes[i].key == k
    ensures forall i :: 0 <= i < |nodes| && nodes[i].key == k ==> MapOf(nodes)[k] == nodes[i].value
  {
    if nodes != [] {
      MapOfLookup(nodes[1..], k);
      if k != nodes[0].key {
        forall i | 0 < i < |nodes| && nodes[i].key == k
          ensures MapOf(nodes)[k] == nodes[i].value
        {
          assert nodes[1..][i - 1] == nodes[i];
        }
        if exists i :: 0 <= i < |nodes| && nodes[i].key == k {
          var i :| 0 <= i < |nodes| && nodes[i].key == k;
          assert nodes[1..][i - 1] == nodes[i];
        }
        if k in MapOf(nodes[1..]) {
          var i :| 0 <= i < |nodes[1..]| && nodes[1..][i].key == k;
          assert nodes[i + 1].key == k;
        }
      }
    }
  }

  /** With distinct keys there are as many entries in the map as nodes in the chain. */
  lemma {:induction false} MapOfSize(nodes: seq<Node>)
    requires DistinctKeys(nodes)
    ensures |MapOf(nodes)| == |nodes|
  {
    if nodes != [] {
      MapOfSize(nodes[1..]);
      MapOfLookup(nodes[1..], nodes[0].key);
      assert nodes[0].key !in MapOf(nodes[1..]);
    }
  }

  /** Overwriting the value of the node at index i updates exactly that key of the map. */
  lemma {:induction false} MapOfUpdate(nodes: seq<Node>, i: nat, value: int)
    requires DistinctKeys(nodes) && i < |nodes|
    ensures DistinctKeys(nodes[i := Node(nodes[i].key, value)])
    ensures MapOf(nodes[i := Node(nodes[i].key, value)]) == MapOf(nodes)[nodes[i].key := value]
  {
    if i > 0 {
      MapOfUpdate(nodes[1..], i - 1, value);
      assert nodes[i := Node(nodes[i].key, value)][1..] == nodes[1..][i - 1 := Node(nodes[i].key, value)];
    } else {
      assert nodes[i := Node(nodes[i].key, value)][1..] == nodes[1..];
    }
  }

  /** struct linkedlist: the node chain and the node counter. */
  class LinkedList {
    var nodes: seq<Node>
    var size: nat

    ghost predicate Valid()
      reads this
    {
      DistinctKeys(nodes) && size == |nodes|
    }

    /** The key-to-value mapping the list stands for. */
    ghost function Contents(): map<int, int>
      reads this
    {
      MapOf(nodes)
    }

    /** ll_init: an empty list of size 0. */
    constructor ()
      ensures Valid() && nodes == [] && size == 0 && Contents() == map[]
    {
      nodes := [];
      size := 0;
    }

    /** ll_add: overwrite the value of the node holding `key`, or prepend a new node when there is none. */
    method Add(key: int, value: int)
      requires Valid()
      modifies this
      ensures Valid()
      ensures Contents() == old(Contents())[key := value]
      ensures key in old(Contents()) ==>
        size == old(size) && |nodes| == |old(nodes)| &&
        forall i :: 0 <= i < |nodes| ==>
          (nodes[i].key == old(nodes)[i].key && (nodes[i].key != key ==> nodes[i] == old(nodes)[i]))
      ensures key !in old(Contents()) ==> nodes == [Node(key, value)] + old(nodes) && size == old(size) + 1
    {
      var i := 0;
      while i < |nodes|
        invariant 0 <= i <= |nodes|
        invariant forall j :: 0 <= j < i ==> nodes[j].key != key
      {
        if nodes[i].key == key {
          MapOfUpdate(nodes, i, value);
          MapOfLookup(nodes, key);
          nodes := nodes[i := Node(key, value)];
          return;
        }
        i := i + 1;
      }
      MapOfLookup(nodes, key);
      nodes := [Node(key, value)] + nodes;
      size := size + 1;
    }

    /** ll_get: the value stored under `key`, or 0 when no node holds it. */
    method Get(key: int) returns (value: int)
      requires Valid()
      ensures key in Contents() ==> value == Contents()[key]
      ensures key !in Contents() ==> value == 0
    {
      var i := 0;
      while i < |nodes|
        invariant 0 <= i <= |nodes|
        invariant forall j :: 0 <= j < i ==> nodes[j].key != key
      {
        if nodes[i].key == key {
          MapOfLookup(nodes, key);
          return nodes[i].value;
        }
        i := i + 1;
      }
      MapOfLookup(nodes, key);
      return 0;
    }

    /** ll_size: the counter, which is the number of keys stored. */
    method Size() returns (n: nat)
      requires Valid()
      ensures n == |Contents()|
    {
      MapOfSize(nodes);
      return size;
    }
  }
}
