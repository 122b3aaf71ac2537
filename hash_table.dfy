/** A chained hash table from int keys to int values (hashtable.c), whose buckets are
    the key-to-value lists of linkedlist.c. */
module HashTables {
  import opened LinkedLists

  /** hash: the absolute value of the key, reduced modulo the number of buckets.
      The key is already non-negative when `%` is taken, so C's truncating remainder
      and Dafny's Euclidean one agree. */
  function Hash(key: int, maxRange: int): (index: int)
    requires maxRange > 0
    ensures 0 <= index < maxRange
  {
    var k := if key > 0 then key else -key;
    k % maxRange
  }

  /** The value ht_get reports for a key: the stored one, or 0 when there is none. */
  function Lookup(m: map<int, int>, key: int): int
  {
    if key in m then m[key] else 0
  }

  /** The part of mapping `m` whose keys hash to bucket `i` of `n`. */
  ghost function BucketView(m: map<int, int>, n: int, i: int): map<int, int>
    requires n > 0
  {
    map k | k in m && Hash(k, n) == i :: m[k]
  }

  /** Updating one key of the mapping changes only the bucket that key hashes to. */
  lemma BucketViewUpdate(m: map<int, int>, n: int, key: int, value: int, i: int)
    requires n > 0
    ensures BucketView(m[key := value], n, i) ==
      if Hash(key, n) == i then BucketView(m, n, i)[key := value] else BucketView(m, n, i)
  {
  }

  /** struct hashtable: the bucket array, the number of buckets and the number of mappings. */
  class HashTable {
    var buckets: array<LinkedList?>
    var numBuckets: nat
    var size: nat

    /** The mapping the table stands for. */
    ghost var contents: map<int, int>
    /** The objects the table is made of: itself, the bucket array and the bucket lists. */
    ghost var Repr: set<object>

    ghost predicate Valid()
      reads this, Repr
    {
      this in Repr && buckets in Repr && numBuckets == buckets.Length && numBuckets > 0 &&
      (forall i :: 0 <= i < buckets.Length ==>
         buckets[i] != null && buckets[i] in Repr && buckets[i].Valid() &&
         buckets[i].Contents() == BucketView(contents, numBuckets, i)) &&
      (forall i, j :: 0 <= i < j < buckets.Length ==> buckets[i] != buckets[j]) &&
      size == |contents|
    }

    /** ht_init: `n` empty buckets and no mappings. */
    constructor (n: int)
      requires n > 0
      ensures Valid() && fresh(Repr)
      ensures numBuckets == n && size == 0 && contents == map[]
    {
      var bs := new LinkedList?[n];
      var i := 0;
      while i < n
        invariant 0 <= i <= n
        invariant forall j :: 0 <= j < i ==> bs[j] != null && fresh(bs[j]) && bs[j].Valid() && bs[j].Contents() == map[]
        invariant forall j, k :: 0 <= j < k < i ==> bs[j] != bs[k]
      {
        bs[i] := new LinkedList();
        i := i + 1;
      }
      buckets := bs;
      numBuckets := n;
      size := 0;
      contents := map[];
      Repr := {this, bs} + set j | 0 <= j < n :: bs[j] as object;
    }

    /** ht_add: map `key` to `value` in its bucket; the counter grows exactly when the key is new. */
    method Add(key: int, value: int)
      requires Valid()
      modifies Repr
      ensures Valid() && Repr == old(Repr) && numBuckets == old(numBuckets)
      ensures contents == old(contents)[key := value]
      ensures size == if key in old(contents) then old(size) else old(size) + 1
    {
      var index := Hash(key, numBuckets);
      var list := buckets[index];
      var prevSize := list.Size();
      list.Add(key, value);
      var newSize := list.Size();
      assert key in old(contents) <==> key in old(list.Contents());
      if newSize > prevSize {
        size := size + 1;
      }
      contents := contents[key := value];
      forall i | 0 <= i < buckets.Length
        ensures buckets[i].Contents() == BucketView(contents, numBuckets, i)
      {
        BucketViewUpdate(old(contents), numBuckets, key, value, i);
      }
    }

    /** ht_get: the value mapped to `key`, or 0 when the key was never added. */
    method Get(key: int) returns (value: int)
      requires Valid()
      ensures value == Lookup(contents, key)
    {
      var index := Hash(key, numBuckets);
      var list := buckets[index];
      value := list.Get(key);
    }

    /** ht_size: the number of distinct keys stored. */
    method Size() returns (n: nat)
      requires Valid()
      ensures n == |contents|
    {
      return size;
    }
  }
}
