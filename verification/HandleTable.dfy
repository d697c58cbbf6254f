/** The cache's hash table (util/cache.cc): an array of chains that doubles as it fills. A node stands
    for an LRUHandle, of which the table only reads the key and the hash. */
module HandleTables {
  import opened InternalKeys
  import opened Coding

  type Ref = nat
  type Hash = Bytes -> nat

  datatype Node = Node(key: Bytes, ref: Ref)

  /** The chain a hash belongs to. The length is a power of two, so masking is taking a remainder. */
  function Bucket(hash: nat, length: nat): (b: nat)
    requires length > 0
    ensures b < length
  {
    hash % length
  }

  /** Nodes sit in the chain of their key, no key twice, and agree with the map. */
  ghost predicate ChainOk(chain: seq<Node>, b: nat, length: nat, h: Hash, contents: map<Bytes, Ref>)
    requires length > 0
  {
    && (forall i :: 0 <= i < |chain| ==>
          && Bucket(h(chain[i].key), length) == b
          && chain[i].key in contents && contents[chain[i].key] == chain[i].ref)
    && (forall i, j :: 0 <= i < j < |chain| ==> chain[i].key != chain[j].key)
  }

  ghost predicate Holds(chain: seq<Node>, key: Bytes) {
    exists i :: 0 <= i < |chain| && chain[i].key == key
  }

  /** The chains represent the map. */
  ghost predicate Represents(list: seq<seq<Node>>, h: Hash, contents: map<Bytes, Ref>) {
    && |list| > 0
    && (forall b :: 0 <= b < |list| ==> ChainOk(list[b], b, |list|, h, contents))
    && (forall k :: k in contents ==> Holds(list[Bucket(h(k), |list|)], k))
  }

  /** Lengths that a mask of the hash can index. */
  predicate PowerOfTwo(n: nat) {
    n == 1 || (n > 1 && n % 2 == 0 && PowerOfTwo(n / 2))
  }

  /** The length the table has for so many entries: a power of two, with no more entries than chains. */
  predicate Roomy(length: nat, elems: nat) {
    length >= 4 && PowerOfTwo(length) && elems <= length
  }

  class HandleTable {
    const hash: Hash
    var length: nat
    var elems: nat
    var list: seq<seq<Node>>
    ghost var contents: map<Bytes, Ref>

    ghost predicate Valid()
      reads this
    {
      length == |list| && elems == |contents| && Represents(list, hash, contents) && Roomy(length, elems)
    }

    constructor (hash: Hash)
      ensures Valid() && contents == map[] && this.hash == hash
    {
      assert PowerOfTwo(2) && PowerOfTwo(4);
      this.hash := hash;
      length, elems, list, contents := 4, 0, [[], [], [], []], map[];
    }

    /** Position in the chain of the node for this key, or the end of the chain. */
    method FindPointer(key: Bytes) returns (b: nat, i: nat)
      requires Valid()
      ensures b == Bucket(hash(key), length) && b < |list| && i <= |list[b]|
      ensures key in contents <==> i < |list[b]|
      ensures i < |list[b]| ==> list[b][i] == Node(key, contents[key])
    {
      b, i := Bucket(hash(key), length), 0;
      var chain := list[b];
      while i < |chain| && !(hash(chain[i].key) == hash(key) && chain[i].key == key)
        invariant i <= |chain| && forall j :: 0 <= j < i ==> chain[j].key != key
      {
        i := i + 1;
      }
      assert ChainOk(chain, b, length, hash, contents);
      if key in contents {
        assert Holds(chain, key);
      }
    }

    method Lookup(key: Bytes) returns (r: Option<Ref>)
      requires Valid()
      ensures r == if key in contents then Some(contents[key]) else None
    {
      var b, i := FindPointer(key);
      r := if i < |list[b]| then Some(list[b][i].ref) else None;
    }

    /** Enters a handle under its key and returns the one it displaces. */
    method Insert(key: Bytes, ref: Ref) returns (old_: Option<Ref>)
      requires Valid()
      modifies this
      ensures Valid() && contents == old(contents)[key := ref]
      ensures old_ == if key in old(contents) then Some(old(contents)[key]) else None
    {
      hide Represents;
      var b, i := FindPointer(key);
      ghost var m := contents[key := ref];
      old_ := if i < |list[b]| then Some(list[b][i].ref) else None;
      list := list[b := if i < |list[b]| then list[b][i := Node(key, ref)] else list[b] + [Node(key, ref)]];
      PutKeeps(old(list), contents, key, ref, b, i);
      SizeAfterPut(contents, key, ref);
      contents := m;
      if old_.None? {
        elems := elems + 1;
        if elems > length {
          Resize();
        }
      }
    }

    /** Chains other than the key's own do not care. */
    lemma OtherChain(chain: seq<Node>, c: nat, n: nat, m: map<Bytes, Ref>, m': map<Bytes, Ref>, key: Bytes)
      requires n > 0 && ChainOk(chain, c, n, hash, m) && c != Bucket(hash(key), n)
      requires forall k :: k in m && k != key ==> k in m' && m'[k] == m[k]
      ensures ChainOk(chain, c, n, hash, m')
    {
      assert forall j :: 0 <= j < |chain| ==> chain[j].key != key;
    }

    lemma PutInChain(chain: seq<Node>, c: nat, n: nat, m: map<Bytes, Ref>, key: Bytes, ref: Ref, i: nat)
      requires n > 0 && ChainOk(chain, c, n, hash, m) && c == Bucket(hash(key), n) && i <= |chain|
      requires if i < |chain| then chain[i].key == key else key !in m
      ensures var chain' := if i < |chain| then chain[i := Node(key, ref)] else chain + [Node(key, ref)];
              && ChainOk(chain', c, n, hash, m[key := ref])
              && chain'[i].key == key && |chain'| >= |chain| && forall j :: 0 <= j < |chain| ==> chain'[j].key == chain[j].key
    {
      if i < |chain| {
        assert forall j :: 0 <= j < |chain| && j != i ==> chain[j].key != chain[i].key;
      }
    }

    lemma PutKeeps(list: seq<seq<Node>>, contents: map<Bytes, Ref>, key: Bytes, ref: Ref, b: nat, i: nat)
      requires Represents(list, hash, contents) && b == Bucket(hash(key), |list|) && i <= |list[b]|
      requires key in contents <==> i < |list[b]|
      requires i < |list[b]| ==> list[b][i].key == key
      ensures var chain := if i < |list[b]| then list[b][i := Node(key, ref)] else list[b] + [Node(key, ref)];
              Represents(list[b := chain], hash, contents[key := ref])
    {
      hide ChainOk;
      var chain := if i < |list[b]| then list[b][i := Node(key, ref)] else list[b] + [Node(key, ref)];
      var l, m := list[b := chain], contents[key := ref];
      PutInChain(list[b], b, |list|, contents, key, ref, i);
      forall c | 0 <= c < |l| ensures ChainOk(l[c], c, |l|, hash, m) {
        if c != b {
          OtherChain(list[c], c, |list|, contents, m, key);
        }
      }
      forall k | k in m ensures Holds(l[Bucket(hash(k), |l|)], k) {
        var c := Bucket(hash(k), |l|);
        if k == key {
          assert l[c][i].key == k;
        } else {
          assert Holds(list[c], k);
          var j :| 0 <= j < |list[c]| && list[c][j].key == k;
          assert l[c][j].key == k;
        }
      }
    }

    lemma SizeAfterPut(m: map<Bytes, Ref>, key: Bytes, ref: Ref)
      ensures |m[key := ref]| == if key in m then |m| else |m| + 1
    {
      assert m[key := ref].Keys == m.Keys + {key};
    }

    /** Takes a key out and returns its handle, if it was there. */
    method Remove(key: Bytes) returns (result: Option<Ref>)
      requires Valid()
      modifies this
      ensures Valid() && contents == old(contents) - {key}
      ensures result == if key in old(contents) then Some(old(contents)[key]) else None
    {
      hide Represents;
      var b, i := FindPointer(key);
      result := if i < |list[b]| then Some(list[b][i].ref) else None;
      if result.Some? {
        RemoveKeeps(list, contents, key, b, i);
        list := list[b := list[b][..i] + list[b][i + 1..]];
        elems := elems - 1;
        assert (contents - {key}).Keys == contents.Keys - {key};
      } else {
        assert contents - {key} == contents;
      }
      contents := contents - {key};
    }

    ghost predicate NodeOk(node: Node, c: nat, n: nat, m: map<Bytes, Ref>)
      requires n > 0
    {
      Bucket(hash(node.key), n) == c && node.key in m && m[node.key] == node.ref
    }

    lemma NodeIs(chain: seq<Node>, c: nat, n: nat, m: map<Bytes, Ref>, k: nat)
      requires n > 0 && ChainOk(chain, c, n, hash, m) && k < |chain|
      ensures NodeOk(chain[k], c, n, m)
    {
    }

    lemma DistinctKeys(chain: seq<Node>, c: nat, n: nat, m: map<Bytes, Ref>)
      requires n > 0 && ChainOk(chain, c, n, hash, m)
      ensures forall i, j :: 0 <= i < |chain| && 0 <= j < |chain| && i != j ==> chain[i].key != chain[j].key
    {
    }

    lemma AllNodes(chain: seq<Node>, c: nat, n: nat, m: map<Bytes, Ref>)
      requires n > 0 && forall k :: 0 <= k < |chain| ==> NodeOk(chain[k], c, n, m)
      requires forall i, j :: 0 <= i < j < |chain| ==> chain[i].key != chain[j].key
      ensures ChainOk(chain, c, n, hash, m)
    {
    }

    lemma RemoveFromChain(chain: seq<Node>, c: nat, n: nat, m: map<Bytes, Ref>, key: Bytes, i: nat)
      requires n > 0 && ChainOk(chain, c, n, hash, m) && i < |chain| && chain[i].key == key
      ensures var chain' := chain[..i] + chain[i + 1..];
              && ChainOk(chain', c, n, hash, m - {key})
              && forall j :: 0 <= j < |chain| && j != i ==> chain'[if j < i then j else j - 1] == chain[j]
    {
      hide Bucket;
      var chain' := chain[..i] + chain[i + 1..];
      forall j | 0 <= j < |chain'| ensures chain'[j] == chain[if j < i then j else j + 1] {
      }
      DistinctKeys(chain, c, n, m);
      hide ChainOk;
      forall j | 0 <= j < |chain'|
        ensures NodeOk(chain'[j], c, n, m - {key})
      {
        var k := if j < i then j else j + 1;
        NodeIs(chain, c, n, m, k);
        assert chain[k].key != chain[i].key;
      }
      AllNodes(chain', c, n, m - {key});
    }

    lemma RemoveKeeps(list: seq<seq<Node>>, contents: map<Bytes, Ref>, key: Bytes, b: nat, i: nat)
      requires Represents(list, hash, contents) && b == Bucket(hash(key), |list|) && i < |list[b]|
      requires key in contents && list[b][i].key == key
      ensures Represents(list[b := list[b][..i] + list[b][i + 1..]], hash, contents - {key})
    {
      hide ChainOk;
      var chain := list[b][..i] + list[b][i + 1..];
      var l, m := list[b := chain], contents - {key};
      RemoveFromChain(list[b], b, |list|, contents, key, i);
      forall c | 0 <= c < |l| ensures ChainOk(l[c], c, |l|, hash, m) {
        if c != b {
          OtherChain(list[c], c, |list|, contents, m, key);
        }
      }
      forall k | k in m ensures Holds(l[Bucket(hash(k), |l|)], k) {
        var c := Bucket(hash(k), |l|);
        assert Holds(list[c], k);
        var j :| 0 <= j < |list[c]| && list[c][j].key == k;
        if c == b {
          assert chain[if j < i then j else j - 1].key == k;
        } else {
          assert l[c][j].key == k;
        }
      }
    }

    /** The least length from 4 on, doubling, with room for so many entries. */
    static method LengthFor(elems: nat) returns (n: nat)
      ensures Roomy(n, elems) && (n == 4 || n < 2 * elems)
    {
      n := 4;
      assert PowerOfTwo(2) && PowerOfTwo(4);
      while n < elems
        invariant n >= 4 && PowerOfTwo(n) && (n == 4 || n < 2 * elems)
      {
        assert n * 2 / 2 == n;
        n := n * 2;
      }
    }

    /** Rehashing into the next power of two keeps the map. */
    method Resize()
      requires |list| == length && elems == |contents| && Represents(list, hash, contents)
      modifies `list, `length
      ensures Valid() && (length == 4 || length < 2 * elems)
    {
      var newLength := LengthFor(elems);
      hide Represents, Rehashed, Bucket, Roomy;
      var newList: seq<seq<Node>> := seq(newLength, _ => []);
      ghost var moved: map<Bytes, Ref> := map[];
      NoNodes(newList);
      var count := 0;
      var chains, n := list, length;
      Positive();
      StartRehashed(chains, n);
      for i := 0 to n
        invariant |newList| == newLength
        invariant Represents(newList, hash, moved) && count == |moved|
        invariant Rehashed(chains, n, moved, i, 0)
        modifies {}
      {
        for j := 0 to |chains[i]|
          invariant |newList| == newLength
          invariant Represents(newList, hash, moved) && count == |moved|
          invariant Rehashed(chains, n, moved, i, j)
          modifies {}
        {
          var node := chains[i][j];
          var b := Bucket(hash(node.key), newLength);
          NextRehashed(chains, n, moved, i, j);
          PushKeeps(newList, moved, node.key, node.ref, b);
          SizeAfterPut(moved, node.key, node.ref);
          newList := newList[b := [node] + newList[b]];
          moved := moved[node.key := node.ref];
          count := count + 1;
        }
        ChainRehashed(chains, n, moved, i);
      }
      AllRehashed(chains, n, moved);
      list, length := newList, newLength;
    }

    /** What has been moved once chains before i, and the first j nodes of chain i, are done. */
    ghost predicate Rehashed(chains: seq<seq<Node>>, n: nat, moved: map<Bytes, Ref>, i: nat, j: nat)
      requires n == |chains| > 0 && (i < n ==> j <= |chains[i]|)
      reads this
    {
      && (forall k :: k in moved ==> k in contents && moved[k] == contents[k])
      && (forall k :: k in contents ==>
            (k in moved <==> Bucket(hash(k), n) < i || (i < n && exists m :: 0 <= m < j && chains[i][m].key == k)))
    }

    lemma StartRehashed(chains: seq<seq<Node>>, n: nat)
      requires n == |chains| > 0
      ensures Rehashed(chains, n, map[], 0, 0)
    {
    }

    lemma NextRehashed(chains: seq<seq<Node>>, n: nat, moved: map<Bytes, Ref>, i: nat, j: nat)
      requires n == |chains| > 0 && i < n && j < |chains[i]|
      requires Represents(chains, hash, contents) && Rehashed(chains, n, moved, i, j)
      ensures var node := chains[i][j];
              && node.key !in moved && node.key in contents
              && Rehashed(chains, n, moved[node.key := node.ref], i, j + 1)
    {
      assert ChainOk(chains[i], i, n, hash, contents);
    }

    lemma ChainRehashed(chains: seq<seq<Node>>, n: nat, moved: map<Bytes, Ref>, i: nat)
      requires n == |chains| > 0 && i < n && Represents(chains, hash, contents) && Rehashed(chains, n, moved, i, |chains[i]|)
      ensures Rehashed(chains, n, moved, i + 1, 0)
    {
      assert ChainOk(chains[i], i, n, hash, contents);
      forall k | k in contents ensures k in moved <==> Bucket(hash(k), n) < i + 1 {
        if Bucket(hash(k), n) == i {
          assert Holds(chains[i], k);
        }
      }
    }

    lemma AllRehashed(chains: seq<seq<Node>>, n: nat, moved: map<Bytes, Ref>)
      requires n == |chains| > 0 && Rehashed(chains, n, moved, n, 0)
      ensures moved == contents
    {
      assert moved.Keys == contents.Keys;
    }

    lemma NoNodes(l: seq<seq<Node>>)
      requires |l| > 0 && forall b :: 0 <= b < |l| ==> l[b] == []
      ensures Represents(l, hash, map[])
    {
    }

    lemma Positive()
      requires Represents(list, hash, contents)
      ensures |list| > 0
    {
    }

    lemma PushKeeps(list: seq<seq<Node>>, contents: map<Bytes, Ref>, key: Bytes, ref: Ref, b: nat)
      requires Represents(list, hash, contents) && b == Bucket(hash(key), |list|) && key !in contents
      ensures Represents(list[b := [Node(key, ref)] + list[b]], hash, contents[key := ref])
    {
      var chain := [Node(key, ref)] + list[b];
      var l, m := list[b := chain], contents[key := ref];
      forall c | 0 <= c < |l| ensures ChainOk(l[c], c, |l|, hash, m) {
        assert ChainOk(list[c], c, |list|, hash, contents);
      }
      forall k | k in m ensures Holds(l[Bucket(hash(k), |l|)], k) {
        var c := Bucket(hash(k), |l|);
        if k == key {
          assert l[c][0].key == k;
        } else {
          assert Holds(list[c], k);
          var j :| 0 <= j < |list[c]| && list[c][j].key == k;
          assert c != b ==> l[c][j].key == k;
          assert c == b ==> chain[j + 1].key == k;
        }
      }
    }
  }
}
