/** RTPKeyHashTable of rtpkeyhashtable.h: every node is on two doubly linked lists, the chain of
    its bucket and the list of all nodes in insertion order. */
module KeyHashTable {

  datatype Status = Ok | InvalidHashIndex | KeyAlreadyExists | KeyNotFound | NoCurrentElement

  class HashElement<Key(==), Element> {
    const hashindex: nat
    const key: Key
    const element: Element
    var hashprev: HashElement?<Key, Element>
    var hashnext: HashElement?<Key, Element>
    var listprev: HashElement?<Key, Element>
    var listnext: HashElement?<Key, Element>

    constructor (k: Key, e: Element, index: nat)
      ensures key == k && element == e && hashindex == index
      ensures hashprev == null && hashnext == null && listprev == null && listnext == null
    {
      key, element, hashindex := k, e, index;
      hashprev, hashnext, listprev, listnext := null, null, null, null;
    }
  }

  // --- node sequences ---

  type Node<Key(==), Element> = HashElement<Key, Element>

  ghost predicate Distinct<T>(s: seq<T>) {
    forall i, j :: 0 <= i < j < |s| ==> s[i] != s[j]
  }

  ghost predicate DistinctKeys<Key, Element>(s: seq<Node<Key, Element>>) {
    forall i, j :: 0 <= i < j < |s| ==> s[i].key != s[j].key
  }

  function Without<T>(s: seq<T>, k: nat): seq<T>
    requires k < |s|
  {
    s[..k] + s[k + 1..]
  }

  function At<Key, Element>(s: seq<Node<Key, Element>>, i: int): HashElement?<Key, Element> {
    if 0 <= i < |s| then s[i] else null
  }

  /** The nodes of one bucket, newest first. */
  ghost function Bucket<Key, Element>(s: seq<Node<Key, Element>>, b: nat): seq<Node<Key, Element>> {
    if s == [] then []
    else
      var l := |s| - 1;
      (if s[l].hashindex == b then [s[l]] else []) + Bucket(s[..l], b)
  }

  lemma {:induction false} BucketSnoc<Key, Element>(s: seq<Node<Key, Element>>, x: Node<Key, Element>, b: nat)
    ensures Bucket(s + [x], b) == (if x.hashindex == b then [x] else []) + Bucket(s, b)
  {
    assert (s + [x])[..|s|] == s;
  }

  lemma {:induction false} WithoutConcat<T>(a: seq<T>, s: seq<T>, i: nat)
    requires i < |s|
    ensures Without(a + s, |a| + i) == a + Without(s, i)
  {}

  lemma {:induction false} OnlyAt<T>(s: seq<T>, k: nat)
    requires Distinct(s) && k < |s|
    ensures forall i :: 0 <= i < |s| && s[i] == s[k] ==> i == k
  {}

  lemma {:induction false} WithoutAt<Key, Element>(s: seq<Node<Key, Element>>, k: nat, i: int)
    requires k < |s|
    ensures At(Without(s, k), i) == At(s, if i < k then i else i + 1)
  {}

  lemma {:induction false} WithoutSnoc<T>(s: seq<T>, k: nat)
    requires k < |s|
    ensures k == |s| - 1 ==> Without(s, k) == s[..|s| - 1]
    ensures k < |s| - 1 ==> Without(s, k) == Without(s[..|s| - 1], k) + [s[|s| - 1]]
  {}

  lemma {:induction false} WithoutMembers<T>(s: seq<T>, k: nat)
    requires k < |s| && Distinct(s)
    ensures Distinct(Without(s, k))
    ensures forall x :: x in Without(s, k) <==> x in s && x != s[k]
  {
    forall x ensures x in Without(s, k) <==> x in s && x != s[k] {
      if x in s && x != s[k] {
        var i :| 0 <= i < |s| && s[i] == x;
        assert Without(s, k)[if i < k then i else i - 1] == x;
      }
    }
  }

  /** Taking a node out of the sequence takes it out of its bucket and leaves the others. */
  lemma {:induction false} BucketWithout<Key, Element>(s: seq<Node<Key, Element>>, k: nat, b: nat) returns (j: nat)
    requires k < |s|
    ensures s[k].hashindex == b ==> j < |Bucket(s, b)| && Bucket(s, b)[j] == s[k]
    ensures s[k].hashindex == b ==> Bucket(Without(s, k), b) == Without(Bucket(s, b), j)
    ensures s[k].hashindex != b ==> Bucket(Without(s, k), b) == Bucket(s, b)
  {
    hide Bucket, Without;
    var l, front := |s| - 1, if s[|s| - 1].hashindex == b then [s[|s| - 1]] else [];
    assert s == s[..l] + [s[l]];
    BucketSnoc(s[..l], s[l], b);
    WithoutSnoc(s, k);
    if k == l {
      j := 0;
      WithoutFirst(s[k], Bucket(s[..l], b));
      assert [] + Bucket(s[..l], b) == Bucket(s[..l], b);
    } else {
      var i := BucketWithout(s[..l], k, b);
      j := |front| + i;
      BucketSnoc(Without(s[..l], k), s[l], b);
      if s[k].hashindex == b {
        WithoutConcat(front, Bucket(s[..l], b), i);
      }
    }
  }

  lemma {:induction false} WithoutFirst<T>(x: T, s: seq<T>)
    ensures Without([x] + s, 0) == s
  {}

  // --- the shape of a table ---

  /** The chains partition nodes by index. */
  ghost predicate Filed<Key, Element>(chains: seq<seq<Node<Key, Element>>>, nodes: seq<Node<Key, Element>>) {
    forall b, i {:trigger chains[b][i]} :: 0 <= b < |chains| && 0 <= i < |chains[b]| ==>
      chains[b][i] in nodes && chains[b][i].hashindex == b
  }

  /** Nodes with distinct keys, each filed under its key's index, and the bucket chains. */
  ghost predicate Shape<Key, Element>(nodes: seq<Node<Key, Element>>, chains: seq<seq<Node<Key, Element>>>,
                                      getIndex: Key -> nat) {
    && Distinct(nodes) && DistinctKeys(nodes)
    && (forall x :: x in nodes ==> x.hashindex == getIndex(x.key) < |chains| && x in chains[x.hashindex])
    && Filed(chains, nodes)
    && (forall b :: 0 <= b < |chains| ==> Distinct(chains[b]) && chains[b] == Bucket(nodes, b))
  }

  lemma {:induction false} ShapeEmpty<Key, Element>(chains: seq<seq<Node<Key, Element>>>, getIndex: Key -> nat)
    requires forall b :: 0 <= b < |chains| ==> chains[b] == []
    ensures Shape([], chains, getIndex)
  {}

  /** Filing a new node: last in the list, first in its bucket. */
  lemma {:induction false} ShapeAdd<Key, Element>(nodes: seq<Node<Key, Element>>, chains: seq<seq<Node<Key, Element>>>,
                                                  getIndex: Key -> nat, x: Node<Key, Element>)
    requires Shape(nodes, chains, getIndex)
    requires x.hashindex == getIndex(x.key) < |chains|
    requires forall y :: y in nodes ==> y.key != x.key
    ensures x !in nodes
    ensures Shape(nodes + [x], chains[x.hashindex := [x] + chains[x.hashindex]], getIndex)
  {
    hide Bucket;
    forall b: nat | b < |chains|
      ensures Bucket(nodes + [x], b) == (if x.hashindex == b then [x] else []) + Bucket(nodes, b)
    {
      BucketSnoc(nodes, x, b);
    }
  }

  /** Taking node k out: it leaves its bucket from some place j, and nothing else moves. */
  lemma {:induction false} ShapeWithout<Key, Element>(nodes: seq<Node<Key, Element>>, chains: seq<seq<Node<Key,
                                                      Element>>>,
                                                      getIndex: Key -> nat, k: nat) returns (j: nat)
    requires Shape(nodes, chains, getIndex) && k < |nodes|
    ensures nodes[k].hashindex < |chains|
    ensures j < |chains[nodes[k].hashindex]| && chains[nodes[k].hashindex][j] == nodes[k]
    ensures var h := nodes[k].hashindex;
      Shape(Without(nodes, k), chains[h := Without(chains[h], j)], getIndex)
  {
    hide Bucket;
    var h := nodes[k].hashindex;
    j := BucketWithout(nodes, k, h);
    WithoutMembers(nodes, k);
    WithoutMembers(chains[h], j);
    KeysWithout(nodes, k);
    forall b: nat | b < |chains| && b != h
      ensures Bucket(Without(nodes, k), b) == Bucket(nodes, b)
    {
      var _ := BucketWithout(nodes, k, b);
    }
    var chains' := chains[h := Without(chains[h], j)];
    assert forall b, x: Node<Key, Element> :: 0 <= b < |chains'| && x in chains'[b] ==> x in Without(nodes, k);
  }

  lemma {:induction false} KeysWithout<Key, Element>(s: seq<Node<Key, Element>>, k: nat)
    requires k < |s| && DistinctKeys(s)
    ensures DistinctKeys(Without(s, k))
  {}

  // --- links ---

  /** Each node's list links lead to its neighbours. */
  ghost predicate ListLinked<Key, Element>(s: seq<Node<Key, Element>>)
    reads s`listprev, s`listnext
  {
    && (forall i {:trigger s[i].listprev} :: 0 <= i < |s| ==> s[i].listprev == At(s, i - 1))
    && (forall i {:trigger s[i].listnext} :: 0 <= i < |s| ==> s[i].listnext == At(s, i + 1))
  }

  ghost predicate HashLinked<Key, Element>(s: seq<Node<Key, Element>>, nodes: seq<Node<Key, Element>>)
    requires forall i :: 0 <= i < |s| ==> s[i] in nodes
    reads nodes`hashprev, nodes`hashnext
  {
    && (forall i {:trigger s[i].hashprev} :: 0 <= i < |s| ==> s[i].hashprev == At(s, i - 1))
    && (forall i {:trigger s[i].hashnext} :: 0 <= i < |s| ==> s[i].hashnext == At(s, i + 1))
  }

  /** The table leads to the chains, and the hash links along them. */
  ghost predicate Chained<Key, Element>(table: array<HashElement?<Key, Element>>, chains: seq<seq<Node<Key, Element>>>,
                                        nodes: seq<Node<Key, Element>>)
    requires Filed(chains, nodes) && table.Length == |chains|
    reads table, nodes`hashprev, nodes`hashnext
  {
    forall b :: 0 <= b < |chains| ==> table[b] == At(chains[b], 0) && HashLinked(chains[b], nodes)
  }

  /** The neighbours of node k lead past it, to each other. */
  ghost predicate ListBypassed<Key, Element>(s: seq<Node<Key, Element>>, k: nat)
    reads s`listprev, s`listnext
  {
    && (forall i {:trigger s[i].listprev} :: 0 <= i < |s| && i != k ==>
          s[i].listprev == At(s, if i == k + 1 then k - 1 else i - 1))
    && (forall i {:trigger s[i].listnext} :: 0 <= i < |s| && i != k ==>
          s[i].listnext == At(s, if i == k - 1 then k + 1 else i + 1))
  }

  lemma {:induction false} ListWithout<Key, Element>(s: seq<Node<Key, Element>>, k: nat)
    requires k < |s| && ListBypassed(s, k)
    ensures ListLinked(Without(s, k))
  {
    var t := Without(s, k);
    forall i | 0 <= i < |t|
      ensures t[i].listprev == At(t, i - 1) && t[i].listnext == At(t, i + 1)
    {
      var o := if i < k then i else i + 1;
      assert t[i] == s[o];
      WithoutAt(s, k, i - 1);
      WithoutAt(s, k, i + 1);
    }
  }

  ghost predicate HashBypassed<Key, Element>(s: seq<Node<Key, Element>>, k: nat, nodes: seq<Node<Key, Element>>)
    requires forall i :: 0 <= i < |s| ==> s[i] in nodes
    reads nodes`hashprev, nodes`hashnext
  {
    && (forall i {:trigger s[i].hashprev} :: 0 <= i < |s| && i != k ==>
          s[i].hashprev == At(s, if i == k + 1 then k - 1 else i - 1))
    && (forall i {:trigger s[i].hashnext} :: 0 <= i < |s| && i != k ==>
          s[i].hashnext == At(s, if i == k - 1 then k + 1 else i + 1))
  }

  lemma {:induction false} HashWithout<Key, Element>(s: seq<Node<Key, Element>>, k: nat, nodes: seq<Node<Key, Element>>,
                                                     nodes': seq<Node<Key, Element>>)
    requires forall i :: 0 <= i < |s| ==> s[i] in nodes
    requires k < |s| && HashBypassed(s, k, nodes)
    requires forall i :: 0 <= i < |Without(s, k)| ==> Without(s, k)[i] in nodes'
    ensures HashLinked(Without(s, k), nodes')
  {
    var t := Without(s, k);
    forall i | 0 <= i < |t|
      ensures t[i].hashprev == At(t, i - 1) && t[i].hashnext == At(t, i + 1)
    {
      var o := if i < k then i else i + 1;
      assert t[i] == s[o];
      WithoutAt(s, k, i - 1);
      WithoutAt(s, k, i + 1);
    }
  }

  /** A chain whose first node leads back to x, and x on to it, is a chain with x in front. */
  lemma {:induction false} HashLed<Key, Element>(c: seq<Node<Key, Element>>, x: Node<Key, Element>,
                                                 nodes: seq<Node<Key, Element>>)
    requires (forall i :: 0 <= i < |c| ==> c[i] in nodes) && x.hashprev == null && x.hashnext == At(c, 0)
    requires forall i {:trigger c[i].hashprev} :: 0 <= i < |c| ==> c[i].hashprev == if i == 0 then x else c[i - 1]
    requires forall i {:trigger c[i].hashnext} :: 0 <= i < |c| ==> c[i].hashnext == At(c, i + 1)
    ensures HashLinked([x] + c, nodes + [x])
  {
    var t := [x] + c;
    forall i | 0 <= i < |t|
      ensures t[i].hashprev == At(t, i - 1) && t[i].hashnext == At(t, i + 1)
    {
      assert i > 0 ==> t[i] == c[i - 1];
    }
  }

  class RTPKeyHashTable<Key(==), Element> {
    const hashsize: nat
    const getIndex: Key -> nat
    const table: array<HashElement?<Key, Element>>
    var firsthashelem: HashElement?<Key, Element>
    var lasthashelem: HashElement?<Key, Element>
    var curhashelem: HashElement?<Key, Element>

    /** The nodes in insertion order, and each bucket's chain. */
    ghost var nodes: seq<Node<Key, Element>>
    ghost var chains: seq<seq<Node<Key, Element>>>

    ghost predicate Valid()
      reads this, table, nodes
    {
      hide Bucket;
      && table.Length == hashsize == |chains|
      && Shape(nodes, chains, getIndex)
      && ListLinked(nodes)
      && firsthashelem == At(nodes, 0) && lasthashelem == At(nodes, |nodes| - 1)
      && Chained(table, chains, nodes)
      && (curhashelem != null ==> curhashelem in nodes)
    }

    constructor (hashsize: nat, getIndex: Key -> nat)
      ensures Valid() && fresh(table) && nodes == [] && curhashelem == null
      ensures this.hashsize == hashsize && this.getIndex == getIndex
    {
      this.hashsize, this.getIndex := hashsize, getIndex;
      table := new HashElement?<Key, Element>[hashsize](i => null);
      firsthashelem, lasthashelem, curhashelem := null, null, null;
      nodes := [];
      chains := seq(hashsize, i => []);
    }

    /** Every node with a key is on the chain of that key's index, and the links lead along it. */
    lemma {:induction false} ChainOf(k: Key) returns (chain: seq<Node<Key, Element>>)
      requires Valid() && getIndex(k) < hashsize
      ensures getIndex(k) < table.Length && table[getIndex(k)] == At(chain, 0)
      ensures forall i {:trigger chain[i]} :: 0 <= i < |chain| ==>
        chain[i] in nodes && chain[i].hashnext == At(chain, i + 1)
      ensures (forall i :: 0 <= i < |chain| ==> chain[i].key != k) ==> forall x :: x in nodes ==> x.key != k
    {
      hide Bucket, ListLinked, Distinct, DistinctKeys;
      chain := chains[getIndex(k)];
    }

    /** The chain search that GotoElement, HasElement and AddElement all start with. */
    method Find(k: Key) returns (e: HashElement?<Key, Element>)
      requires Valid() && getIndex(k) < hashsize
      ensures e != null ==> e in nodes && e.key == k
      ensures e == null ==> forall x :: x in nodes ==> x.key != k
    {
      hide Valid;
      var index := getIndex(k);
      ghost var chain := ChainOf(k);
      ghost var i := 0;
      e := table[index];
      var found := false;
      while !found && e != null
        invariant 0 <= i <= |chain| && e == At(chain, i)
        invariant found ==> e != null && e.key == k
        invariant forall j :: 0 <= j < i ==> chain[j].key != k
        decreases |chain| - i, if found then 0 else 1
      {
        assert e == chain[i];
        if e.key == k {
          found := true;
        } else {
          e := e.hashnext;
          i := i + 1;
        }
      }
    }

    method HasElement(k: Key) returns (found: bool)
      requires Valid()
      ensures found <==> exists x :: x in nodes && x.key == k
    {
      if getIndex(k) >= hashsize {
        NoSuchIndex(k);
        return false;
      }
      var e := Find(k);
      found := e != null;
    }

    lemma {:induction false} NoSuchIndex(k: Key)
      requires Valid() && getIndex(k) >= hashsize
      ensures forall x :: x in nodes ==> x.key != k
    {
      hide Bucket, ListLinked, HashLinked, Distinct, DistinctKeys;
    }

    /** A key that is not there loses the cursor; an index out of range leaves it alone. */
    method GotoElement(k: Key) returns (status: Status)
      requires Valid()
      modifies this`curhashelem
      ensures Valid()
      ensures status == if getIndex(k) >= hashsize then InvalidHashIndex
        else if exists x :: x in nodes && x.key == k then Ok else KeyNotFound
      ensures status == Ok ==> curhashelem != null && curhashelem in nodes && curhashelem.key == k
      ensures status == KeyNotFound ==> curhashelem == null
      ensures status == InvalidHashIndex ==> curhashelem == old(curhashelem)
    {
      hide Shape, ListLinked, HashLinked;
      if getIndex(k) >= hashsize {
        return InvalidHashIndex;
      }
      curhashelem := Find(k);
      if curhashelem == null {
        return KeyNotFound;
      }
      return Ok;
    }

    /** Put a new node in front of its bucket's chain. */
    method LinkIntoBucket(newelem: Node<Key, Element>)
      requires table.Length == |chains| && Filed(chains, nodes) && Chained(table, chains, nodes)
      requires newelem !in nodes && newelem.hashindex < |chains| && newelem.hashprev == null
      modifies table, newelem`hashnext, nodes`hashprev
      ensures var h := newelem.hashindex;
        var chains' := chains[h := [newelem] + chains[h]];
        Filed(chains', nodes + [newelem]) && Chained(table, chains', nodes + [newelem])
    {
      var index := newelem.hashindex;
      ghost var c := chains[index];
      ghost var chains' := chains[index := [newelem] + c];
      var e := table[index];
      table[index] := newelem;
      newelem.hashnext := e;
      if e != null {
        assert e == chains[index][0];
        e.hashprev := newelem;
      }
      assert old(HashLinked(c, nodes));
      forall i | 0 <= i < |c| ensures c[i].hashprev == if i == 0 then newelem else c[i - 1] {
        assert old(c[i].hashprev) == At(c, i - 1);
      }
      HashLed(c, newelem, nodes);
      forall b | 0 <= b < |chains| && b != index
        ensures HashLinked(chains[b], nodes + [newelem])
      {
        assert old(HashLinked(chains[b], nodes));
      }
    }

    /** Put a new node at the end of the list. */
    method LinkIntoList(newelem: Node<Key, Element>)
      requires ListLinked(nodes) && firsthashelem == At(nodes, 0) && lasthashelem == At(nodes, |nodes| - 1)
      requires newelem !in nodes && Distinct(nodes) && newelem.listprev == null && newelem.listnext == null
      modifies this`firsthashelem, this`lasthashelem, newelem`listprev, nodes`listnext
      ensures ListLinked(nodes + [newelem])
      ensures firsthashelem == At(nodes + [newelem], 0) && lasthashelem == newelem
    {
      if firsthashelem == null {
        firsthashelem := newelem;
        lasthashelem := newelem;
      } else {
        assert lasthashelem == nodes[|nodes| - 1];
        lasthashelem.listnext := newelem;
        newelem.listprev := lasthashelem;
        lasthashelem := newelem;
      }
    }

    method AddElement(k: Key, elem: Element) returns (status: Status)
      requires Valid()
      modifies this, table, nodes
      ensures Valid() && curhashelem == old(curhashelem)
      ensures status == if getIndex(k) >= hashsize then InvalidHashIndex
        else if exists x :: x in old(nodes) && x.key == k then KeyAlreadyExists else Ok
      ensures status != Ok ==> nodes == old(nodes)
      ensures status == Ok ==> |nodes| == |old(nodes)| + 1 && nodes[..|old(nodes)|] == old(nodes)
      ensures status == Ok ==> var x := nodes[|old(nodes)|]; fresh(x) && x.key == k && x.element == elem
    {
      hide Shape, Bucket, Chained, ListLinked, HashLinked, Filed, Distinct;
      var index := getIndex(k);
      if index >= hashsize {
        NoSuchIndex(k);
        return InvalidHashIndex;
      }
      var e := Find(k);
      if e != null {
        return KeyAlreadyExists;
      }
      var newelem := new HashElement(k, elem, index);
      ShapeParts();
      ShapeAdd(nodes, chains, getIndex, newelem);
      LinkIntoBucket(newelem);
      LinkIntoList(newelem);
      chains := chains[index := [newelem] + chains[index]];
      nodes := nodes + [newelem];
      return Ok;
    }

    lemma {:induction false} ShapeParts()
      requires Valid()
      ensures Filed(chains, nodes) && Distinct(nodes)
    {
      hide Bucket, ListLinked, HashLinked;
    }

    /** The neighbours on the bucket's chain c, or the table, lead past the current node. */
    method BypassInBucket(ghost c: seq<Node<Key, Element>>, ghost j: nat)
      requires (forall i :: 0 <= i < |c| ==> c[i] in nodes) && HashLinked(c, nodes) && Distinct(c)
      requires j < |c| && c[j] == curhashelem
      requires curhashelem.hashindex < table.Length && table[curhashelem.hashindex] == At(c, 0)
      modifies table, c`hashprev, c`hashnext
      ensures HashBypassed(c, j, nodes) && table[curhashelem.hashindex] == At(Without(c, j), 0)
      ensures forall b :: 0 <= b < table.Length && b != curhashelem.hashindex ==> table[b] == old(table[b])
    {
      var index := curhashelem.hashindex;
      var tmp1, tmp2 := curhashelem.hashprev, curhashelem.hashnext;
      assert tmp1 == At(c, j - 1) && tmp2 == At(c, j + 1);
      if tmp1 == null {
        table[index] := tmp2;
        if tmp2 != null {
          tmp2.hashprev := null;
        }
      } else {
        tmp1.hashnext := tmp2;
        if tmp2 != null {
          tmp2.hashprev := tmp1;
        }
      }
    }

    /** Take the current node off its bucket's chain. */
    method UnlinkFromBucket(ghost k: nat, ghost j: nat)
      requires table.Length == |chains| && Filed(chains, nodes) && Chained(table, chains, nodes)
      requires k < |nodes| && nodes[k] == curhashelem && curhashelem.hashindex < |chains|
      requires var c := chains[curhashelem.hashindex]; j < |c| && c[j] == curhashelem && Distinct(c)
      requires var h := curhashelem.hashindex; Filed(chains[h := Without(chains[h], j)], Without(nodes, k))
      requires forall x :: x in Without(nodes, k) ==> x in nodes
      modifies table, nodes`hashprev, nodes`hashnext
      ensures var h := curhashelem.hashindex; Chained(table, chains[h := Without(chains[h], j)], Without(nodes, k))
    {
      hide Without, Distinct;
      ghost var index := curhashelem.hashindex;
      ghost var c := chains[index];
      ghost var nodes', chains' := Without(nodes, k), chains[index := Without(c, j)];
      BypassInBucket(c, j);
      forall i | 0 <= i < |Without(c, j)| ensures Without(c, j)[i] in nodes' {
        assert chains'[index][i] in nodes';
      }
      HashWithout(c, j, nodes, nodes');
      forall b | 0 <= b < |chains| && b != index
        ensures HashLinked(chains'[b], nodes')
      {
        assert old(HashLinked(chains[b], nodes));
      }
    }

    /** Take the current node off the list. */
    method UnlinkFromList(ghost k: nat) returns (next: HashElement?<Key, Element>)
      requires ListLinked(nodes) && firsthashelem == At(nodes, 0) && lasthashelem == At(nodes, |nodes| - 1)
      requires Distinct(nodes) && k < |nodes| && nodes[k] == curhashelem
      modifies this`firsthashelem, this`lasthashelem, nodes`listprev, nodes`listnext
      ensures var nodes' := Without(nodes, k);
        && ListLinked(nodes') && firsthashelem == At(nodes', 0) && lasthashelem == At(nodes', |nodes'| - 1)
        && next == At(nodes', k)
    {
      ghost var nodes' := Without(nodes, k);
      var tmp1, tmp2 := curhashelem.listprev, curhashelem.listnext;
      assert tmp1 == At(nodes, k - 1) && tmp2 == At(nodes, k + 1);
      if tmp1 == null {
        firsthashelem := tmp2;
        if tmp2 != null {
          tmp2.listprev := null;
        } else {
          lasthashelem := null;
        }
      } else {
        tmp1.listnext := tmp2;
        if tmp2 != null {
          tmp2.listprev := tmp1;
        } else {
          lasthashelem := tmp1;
        }
      }
      assert old(ListLinked(nodes));
      assert ListBypassed(nodes, k);
      ListWithout(nodes, k);
      WithoutAt(nodes, k, k);
      next := tmp2;
    }

    /** The current node goes and the cursor moves on to the one after it; everything else stays. */
    method DeleteCurrentElement() returns (status: Status)
      requires Valid()
      modifies this, table, nodes
      ensures Valid()
      ensures old(curhashelem) == null ==> status == NoCurrentElement && nodes == old(nodes) && curhashelem == null
      ensures old(curhashelem) != null ==> status == Ok
      ensures forall k :: 0 <= k < |old(nodes)| && old(nodes)[k] == old(curhashelem) ==>
        nodes == Without(old(nodes), k) && curhashelem == At(nodes, k)
    {
      if curhashelem != null {
        CurrentIsNode();
        hide Valid;
        ghost var k :| 0 <= k < |nodes| && nodes[k] == curhashelem;
        OnlyAt(nodes, k);
        RemoveCurrent(k);
      } else {
        return NoCurrentElement;
      }
      return Ok;
    }

    lemma {:induction false} CurrentIsNode()
      requires Valid() && curhashelem != null
      ensures curhashelem in nodes && Distinct(nodes)
    {
      hide Bucket, Chained, ListLinked;
    }

    method RemoveCurrent(ghost k: nat)
      requires Valid() && k < |nodes| && nodes[k] == curhashelem
      modifies this, table, nodes
      ensures Valid() && nodes == Without(old(nodes), k) && curhashelem == At(nodes, k)
    {
      hide Shape, Bucket, Chained, ListLinked, HashLinked, Filed, Distinct;
      ghost var h := curhashelem.hashindex;
      ghost var j := ShapeWithout(nodes, chains, getIndex, k);
      DeletionParts(k, j);
      UnlinkFromBucket(k, j);
      var tmp2 := UnlinkFromList(k);
      chains := chains[h := Without(chains[h], j)];
      nodes := Without(nodes, k);
      curhashelem := tmp2;
      assert curhashelem != null ==> curhashelem == nodes[k];
    }

    lemma {:induction false} DeletionParts(k: nat, j: nat)
      requires Valid() && k < |nodes| && nodes[k].hashindex < |chains| && j < |chains[nodes[k].hashindex]|
      requires var h := nodes[k].hashindex; Shape(Without(nodes, k), chains[h := Without(chains[h], j)], getIndex)
      ensures Filed(chains, nodes) && Distinct(nodes) && Distinct(chains[nodes[k].hashindex])
      ensures var h := nodes[k].hashindex; Filed(chains[h := Without(chains[h], j)], Without(nodes, k))
      ensures forall x :: x in Without(nodes, k) ==> x in nodes
    {
      hide Bucket, ListLinked, HashLinked;
    }

    method DeleteElement(k: Key) returns (status: Status)
      requires Valid()
      modifies this, table, nodes
      ensures Valid()
      ensures status == if getIndex(k) >= hashsize then InvalidHashIndex
        else if exists x :: x in old(nodes) && x.key == k then Ok else KeyNotFound
      ensures status != Ok ==> nodes == old(nodes)
      ensures status == KeyNotFound ==> curhashelem == null
      ensures status == InvalidHashIndex ==> curhashelem == old(curhashelem)
      ensures status == Ok ==> exists i ::
        && 0 <= i < |old(nodes)| && old(nodes)[i].key == k
        && nodes == Without(old(nodes), i) && curhashelem == At(nodes, i)
    {
      hide Valid;
      status := GotoElement(k);
      if status != Ok {
        return;
      }
      status := DeleteCurrentElement();
    }

    method GotoFirstElement()
      requires Valid()
      modifies this`curhashelem
      ensures Valid() && curhashelem == At(nodes, 0)
    {
      hide Shape, Chained, ListLinked;
      curhashelem := firsthashelem;
    }

    method GotoLastElement()
      requires Valid()
      modifies this`curhashelem
      ensures Valid() && curhashelem == At(nodes, |nodes| - 1)
    {
      hide Shape, Chained, ListLinked;
      curhashelem := lasthashelem;
    }

    method HasCurrentElement() returns (r: bool)
      ensures r <==> curhashelem != null
    {
      r := curhashelem != null;
    }

    method GetCurrentElement() returns (e: Element)
      requires curhashelem != null
      ensures e == curhashelem.element
    {
      e := curhashelem.element;
    }

    method GetCurrentKey() returns (k: Key)
      requires curhashelem != null
      ensures k == curhashelem.key
    {
      k := curhashelem.key;
    }

    /** With no current element the cursor stays where it is. */
    method GotoNextElement()
      requires Valid()
      modifies this`curhashelem
      ensures Valid()
      ensures old(curhashelem) == null ==> curhashelem == null
      ensures forall i :: 0 <= i < |nodes| && old(curhashelem) == nodes[i] ==> curhashelem == At(nodes, i + 1)
    {
      hide Shape, Chained;
      if curhashelem != null {
        NodesDistinct();
        ghost var k :| 0 <= k < |nodes| && nodes[k] == curhashelem;
        curhashelem := curhashelem.listnext;
        assert curhashelem == At(nodes, k + 1);
      }
    }

    method GotoPreviousElement()
      requires Valid()
      modifies this`curhashelem
      ensures Valid()
      ensures old(curhashelem) == null ==> curhashelem == null
      ensures forall i :: 0 <= i < |nodes| && old(curhashelem) == nodes[i] ==> curhashelem == At(nodes, i - 1)
    {
      hide Shape, Chained;
      if curhashelem != null {
        NodesDistinct();
        ghost var k :| 0 <= k < |nodes| && nodes[k] == curhashelem;
        curhashelem := curhashelem.listprev;
        assert curhashelem == At(nodes, k - 1);
      }
    }

    lemma {:induction false} NodesDistinct()
      requires Valid()
      ensures Distinct(nodes)
    {
      hide Bucket, Chained, ListLinked;
    }

    /** The cursor is reset with the rest; the source leaves it on a deleted node. */
    method Clear()
      requires Valid()
      modifies this, table
      ensures Valid() && nodes == [] && curhashelem == null
    {
      hide Bucket;
      for i := 0 to hashsize
        modifies table
        invariant table.Length == hashsize && forall b :: 0 <= b < i ==> table[b] == null
      {
        table[i] := null;
      }
      var tmp1 := firsthashelem;
      ghost var k := 0;
      while tmp1 != null
        modifies {}
        invariant 0 <= k <= |nodes| && tmp1 == At(nodes, k)
        decreases |nodes| - k
      {
        assert tmp1 == nodes[k];
        var tmp2 := tmp1.listnext;
        tmp1 := tmp2;
        k := k + 1;
      }
      firsthashelem := null;
      lasthashelem := null;
      curhashelem := null;
      nodes, chains := [], seq(hashsize, i => []);
      ShapeEmpty(chains, getIndex);
    }
  }

  // --- iterate and delete ---

  /** The nodes a predicate on key and element does not select, in order. */
  ghost function Kept<Key, Element>(s: seq<Node<Key, Element>>, p: (Key, Element) -> bool): seq<Node<Key, Element>> {
    if s == [] then []
    else
      var l := |s| - 1;
      Kept(s[..l], p) + if p(s[l].key, s[l].element) then [] else [s[l]]
  }

  /** How far a sweep has got: v nodes visited, the others untouched, the cursor on the next. */
  ghost predicate Swept<Key, Element>(s: seq<Node<Key, Element>>, p: (Key, Element) -> bool, v: nat,
                                      nodes: seq<Node<Key, Element>>, cur: HashElement?<Key, Element>) {
    v <= |s| && nodes == Kept(s[..v], p) + s[v..] && cur == At(nodes, |Kept(s[..v], p)|)
  }

  lemma {:induction false} SweptStep<Key, Element>(s: seq<Node<Key, Element>>, p: (Key, Element) -> bool, v: nat,
                                                   nodes: seq<Node<Key, Element>>, cur: HashElement?<Key, Element>)
    requires Swept(s, p, v, nodes, cur) && cur != null
    ensures v < |s| && cur == s[v]
    ensures var k := |Kept(s[..v], p)|;
      && k < |nodes| && nodes[k] == cur
      && if p(cur.key, cur.element) then Swept(s, p, v + 1, Without(nodes, k), At(Without(nodes, k), k))
         else Swept(s, p, v + 1, nodes, At(nodes, k + 1))
  {
    var a, k := Kept(s[..v], p), |Kept(s[..v], p)|;
    assert s[..v + 1][..v] == s[..v] && s[..v + 1][v] == s[v];
    assert s[v..] == [s[v]] + s[v + 1..];
    assert Without(nodes, k) == a + s[v + 1..];
    assert a + [] == a;
    assert nodes == a + [s[v]] + s[v + 1..];
  }

  /** The loop the table is made for: visit each element once and delete as you go. */
  method DeleteWhere<Key(==), Element>(t: RTPKeyHashTable<Key, Element>, p: (Key, Element) -> bool)
    returns (ghost visited: seq<Node<Key, Element>>)
    requires t.Valid()
    modifies t, t.table, t.nodes
    ensures t.Valid() && t.curhashelem == null
    ensures visited == old(t.nodes)
    ensures t.nodes == Kept(old(t.nodes), p)
  {
    hide Swept, Kept, RTPKeyHashTable.Valid;
    ghost var s := t.nodes;
    visited := [];
    t.GotoFirstElement();
    SweepStart(s, p);
    var more := t.HasCurrentElement();
    while more
      invariant t.Valid() && more == (t.curhashelem != null)
      invariant Swept(s, p, |visited|, t.nodes, t.curhashelem) && visited <= s
      decreases |s| - |visited|
    {
      SweptStep(s, p, |visited|, t.nodes, t.curhashelem);
      visited := visited + [t.curhashelem];
      Visit(t, p, s, |visited| - 1);
      more := t.HasCurrentElement();
    }
    SweepEnd(s, p, |visited|, t.nodes);
  }

  method Visit<Key(==), Element>(t: RTPKeyHashTable<Key, Element>, p: (Key, Element) -> bool,
                                 ghost s: seq<Node<Key, Element>>, ghost v: nat)
    requires t.Valid() && t.curhashelem != null && Swept(s, p, v, t.nodes, t.curhashelem)
    modifies t, t.table, s
    ensures t.Valid() && Swept(s, p, v + 1, t.nodes, t.curhashelem)
  {
    hide Swept, Kept, RTPKeyHashTable.Valid;
    SweptStep(s, p, v, t.nodes, t.curhashelem);
    SweptWithin(s, p, v, t.nodes, t.curhashelem);
    var key := t.GetCurrentKey();
    var elem := t.GetCurrentElement();
    if p(key, elem) {
      var _ := t.DeleteCurrentElement();
    } else {
      t.GotoNextElement();
    }
  }

  lemma {:induction false} KeptWithin<Key, Element>(s: seq<Node<Key, Element>>, p: (Key, Element) -> bool)
    ensures forall x :: x in Kept(s, p) ==> x in s
  {
    if s == [] {
    } else {
      KeptWithin(s[..|s| - 1], p);
    }
  }

  lemma {:induction false} SweptWithin<Key, Element>(s: seq<Node<Key, Element>>, p: (Key, Element) -> bool, v: nat,
                                                     nodes: seq<Node<Key, Element>>, cur: HashElement?<Key, Element>)
    requires Swept(s, p, v, nodes, cur)
    ensures forall i :: 0 <= i < |nodes| ==> nodes[i] in s
    ensures cur != null ==> cur in s
  {
    var a := Kept(s[..v], p);
    KeptWithin(s[..v], p);
    forall i | 0 <= i < |nodes| ensures nodes[i] in s {
      if i < |a| {
        assert a[i] in s[..v];
      } else {
        assert nodes[i] == s[v..][i - |a|];
      }
    }
  }

  lemma {:induction false} SweepStart<Key, Element>(s: seq<Node<Key, Element>>, p: (Key, Element) -> bool)
    ensures Swept(s, p, 0, s, At(s, 0))
  {
    assert s[..0] == [];
  }

  lemma {:induction false} SweepEnd<Key, Element>(s: seq<Node<Key, Element>>, p: (Key, Element) -> bool, v: nat,
                                                  nodes: seq<Node<Key, Element>>)
    requires Swept(s, p, v, nodes, null)
    ensures v == |s| && nodes == Kept(s, p)
  {
    assert s[..|s|] == s;
  }
}
