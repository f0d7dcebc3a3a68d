// `OrderedSet` of `common/tools.py`: a set that remembers insertion order, kept as a
// circular doubly-linked list through a sentinel node plus a map from each key to
// its node.

module Ordered {
  import opened Results

  /** A list cell `[key, prev, next]`; the sentinel's key is `None`. */
  class Node<K> {
    const key: Option<K>
    var prev: Node?<K>
    var next: Node?<K>

    constructor (key: Option<K>, prev: Node?<K>, next: Node?<K>)
      ensures this.key == key && this.prev == prev && this.next == next
    {
      this.key := key;
      this.prev := prev;
      this.next := next;
    }
  }

  /** The error `pop` raises on an empty set. */
  datatype KeyError = KeyError(message: string)

  /** What adding `key` does to the order: appended unless already present. */
  function AddTo<K(==)>(elems: seq<K>, key: K): (r: seq<K>)
    ensures key in r
    ensures key in elems ==> r == elems
  {
    if key in elems then elems else elems + [key]
  }

  /** `self |= iterable`: every key added in turn. */
  function AddAll<K(==)>(elems: seq<K>, keys: seq<K>): seq<K>
    decreases |keys|
  {
    if keys == [] then elems else AddAll(AddTo(elems, keys[0]), keys[1..])
  }

  /** No key occurs twice. */
  predicate Distinct<K(==)>(s: seq<K>)
  {
    forall i, j :: 0 <= i < j < |s| ==> s[i] != s[j]
  }

  /** `elems` with `key` taken out, the rest in their order. */
  function Without<K(==,!new)>(elems: seq<K>, key: K): (r: seq<K>)
    ensures key !in r
    ensures forall x :: x in r <==> x in elems && x != key
  {
    if elems == [] then []
    else if elems[0] == key then Without(elems[1..], key)
    else [elems[0]] + Without(elems[1..], key)
  }

  function Reverse<K>(s: seq<K>): (r: seq<K>)
    ensures |r| == |s| && forall i :: 0 <= i < |s| ==> r[i] == s[|s| - 1 - i]
  {
    if s == [] then [] else Reverse(s[1..]) + [s[0]]
  }

  /** Adding keys in turn keeps the order free of repeats and ends up holding exactly
      the keys had before and the keys added. */
  lemma {:induction false} AddAllDistinct<K>(elems: seq<K>, keys: seq<K>)
    requires Distinct(elems)
    ensures Distinct(AddAll(elems, keys))
    ensures forall x :: x in AddAll(elems, keys) <==> x in elems || x in keys
    ensures elems <= AddAll(elems, keys)
    decreases |keys|
  {
    if keys != [] {
      var e := AddTo(elems, keys[0]);
      assert Distinct(e);
      AddAllDistinct(e, keys[1..]);
      assert forall x :: x in keys <==> x == keys[0] || x in keys[1..];
    }
  }

  /** Taking out the only occurrence of `key`, at position `i`, is cutting position `i`
      out: the rest keep their relative order. */
  lemma {:induction false} WithoutAt<K(!new)>(elems: seq<K>, key: K, i: nat)
    requires Distinct(elems) && i < |elems| && elems[i] == key
    ensures Without(elems, key) == elems[..i] + elems[i + 1..]
  {
    if i == 0 {
      WithoutAbsent(elems[1..], key);
    } else {
      WithoutAt(elems[1..], key, i - 1);
      assert elems[1..][..i - 1] == elems[1..i];
      assert elems[1..][i..] == elems[i + 1..];
      assert elems[..i] == [elems[0]] + elems[1..i];
    }
  }

  /** Taking out a key that is not there changes nothing. */
  lemma {:induction false} WithoutAbsent<K(!new)>(elems: seq<K>, key: K)
    requires key !in elems
    ensures Without(elems, key) == elems
  {
    if elems != [] {
      WithoutAbsent(elems[1..], key);
      assert elems == [elems[0]] + elems[1..];
    }
  }

  /** A sequence without repeats has as many elements as the set of its elements. */
  lemma {:induction false} DistinctCard<K>(s: seq<K>)
    requires Distinct(s)
    ensures |set x | x in s| == |s|
  {
    if s != [] {
      var rest := s[1..];
      DistinctCard(rest);
      assert (set x | x in s) == {s[0]} + (set x | x in rest);
      assert s[0] !in rest;
    }
  }

  /** `cells` sends each key of `elems` to the cell at the same position of `nodes`,
      whose key it is, and holds no other key. */
  ghost predicate Indexed<K(!new)>(cells: map<K, Node<K>>, elems: seq<K>, nodes: seq<Node<K>>)
  {
    && |nodes| == |elems|
    && (forall i :: 0 <= i < |nodes| ==> nodes[i].key == Some(elems[i]))
    && (forall k :: k in cells <==> k in elems)
    && (forall i :: 0 <= i < |elems| ==> cells[elems[i]] == nodes[i])
  }

  /** One cell per key means no key twice. */
  lemma IndexedDistinct<K(!new)>(cells: map<K, Node<K>>, elems: seq<K>, nodes: seq<Node<K>>)
    requires Indexed(cells, elems, nodes) && Distinct(nodes)
    ensures Distinct(elems)
  {
    forall i, j | 0 <= i < j < |elems|
      ensures elems[i] != elems[j]
    {
      assert cells[elems[i]] == nodes[i] && cells[elems[j]] == nodes[j];
    }
  }

  /** The index after a new key's cell is put last. */
  lemma IndexedAppend<K(!new)>(cells: map<K, Node<K>>, elems: seq<K>, nodes: seq<Node<K>>, key: K, n: Node<K>)
    requires Indexed(cells, elems, nodes) && Distinct(nodes)
    requires key !in cells && n !in nodes && n.key == Some(key)
    ensures Indexed(cells[key := n], elems + [key], nodes + [n]) && Distinct(nodes + [n])
    ensures (set x | x in nodes + [n]) == (set x | x in nodes) + {n}
  {
    var e, ns := elems + [key], nodes + [n];
    assert forall i :: 0 <= i < |elems| ==> e[i] == elems[i] && ns[i] == nodes[i];
    assert forall i :: 0 <= i < |elems| ==> elems[i] != key;
  }

  /** Cutting position `i` out of a sequence without repeats: the later elements
      move down by one, and exactly the element at `i` is gone. */
  lemma CutAt<T>(s: seq<T>, i: nat)
    requires Distinct(s) && i < |s|
    ensures var r := s[..i] + s[i + 1..];
      && |r| == |s| - 1
      && (forall j :: 0 <= j < |r| ==> r[j] == s[if j < i then j else j + 1])
      && (forall x :: x in r <==> x in s && x != s[i])
      && Distinct(r)
  {
    var r := s[..i] + s[i + 1..];
    assert forall j :: 0 <= j < |r| ==> r[j] == s[if j < i then j else j + 1];
    forall x | x in s && x != s[i]
      ensures x in r
    {
      var j :| 0 <= j < |s| && s[j] == x;
      assert r[if j < i then j else j - 1] == x;
    }
  }

  /** The index after the cell at `i` is taken out. */
  lemma IndexedRemove<K(!new)>(cells: map<K, Node<K>>, elems: seq<K>, nodes: seq<Node<K>>, i: nat)
    requires Indexed(cells, elems, nodes) && Distinct(nodes) && i < |elems|
    ensures var ns := nodes[..i] + nodes[i + 1..];
      && Indexed(cells - {elems[i]}, elems[..i] + elems[i + 1..], ns)
      && Distinct(ns)
      && (set x | x in ns) == (set x | x in nodes) - {nodes[i]}
  {
    IndexedDistinct(cells, elems, nodes);
    CutAt(elems, i);
    CutAt(nodes, i);
  }

  /** Dropping one cell from a footprint made of two fixed objects and the cells. */
  lemma ReprCut(r: set<object>, a: object, b: object, s: set<object>, t: set<object>, n: object)
    requires r == {a, b} + s && t == s - {n} && n != a && n != b
    ensures r - {n} == {a, b} + t
  {
  }

  /** The footprint `r` of a set object `self` with sentinel `end` is those two and
      the cells; the sentinel holds no key and is no cell; the cells are distinct and
      indexed by `cells`. */
  ghost predicate Shaped<K(!new)>(r: set<object>, self: OrderedSet<K>, end: Node<K>, cells: map<K, Node<K>>, elems: seq<K>, nodes: seq<Node<K>>)
  {
    && self in r && end in r
    && r == {self, end} + (set n | n in nodes)
    && end !in nodes
    && end.key == None
    && Distinct(nodes)
    && Indexed(cells, elems, nodes)
  }

  /** The shape after the cell at `i` is let go. */
  lemma ShapedRemove<K(!new)>(r: set<object>, self: OrderedSet<K>, end: Node<K>, cells: map<K, Node<K>>, elems: seq<K>, nodes: seq<Node<K>>, i: nat)
    requires Shaped(r, self, end, cells, elems, nodes) && i < |elems|
    ensures Shaped(r - {nodes[i]}, self, end, cells - {elems[i]}, elems[..i] + elems[i + 1..], nodes[..i] + nodes[i + 1..])
  {
    IndexedRemove(cells, elems, nodes, i);
    ghost var rest := nodes[..i] + nodes[i + 1..];
    ReprCut(r, self, end, (set x | x in nodes), (set x | x in rest), nodes[i]);
  }

  class OrderedSet<K(==,!new)> {
    /** The sentinel: `end.next` is the first node, `end.prev` the last. */
    const end: Node<K>
    /** `self.map`: each key to its node. */
    var cells: map<K, Node<K>>
    /** The keys in insertion order, and their nodes in the same order. */
    ghost var elems: seq<K>
    ghost var nodes: seq<Node<K>>
    ghost var Repr: set<object>

    ghost predicate Valid()
      reads this, Repr
    {
      Shape() && Chain(nodes)
    }

    /** Everything `Valid` says except the links: the footprint, the sentinel, and
        the map agreeing with the order. */
    ghost predicate Shape()
      reads this
    {
      Shaped(Repr, this, end, cells, elems, nodes)
    }

    /** The links `prev` and `next` run through `ns` in order and close the circle
        at the sentinel. */
    ghost predicate Chain(ns: seq<Node<K>>)
      reads end, ns
    {
      && end.next == (if ns == [] then end else ns[0])
      && end.prev == (if ns == [] then end else ns[|ns| - 1])
      && (forall i {:trigger ns[i].prev} :: 0 <= i < |ns| ==> ns[i].prev == (if i == 0 then end else ns[i - 1]))
      && (forall i {:trigger ns[i].next} :: 0 <= i < |ns| ==> ns[i].next == (if i == |ns| - 1 then end else ns[i + 1]))
    }

    /** The neighbours of the cell at `i`. */
    lemma Neighbours(i: nat)
      requires Valid() && i < |nodes|
      ensures nodes[i].prev == (if i == 0 then end else nodes[i - 1])
      ensures nodes[i].next == (if i == |nodes| - 1 then end else nodes[i + 1])
    {
      assert Chain(nodes);
    }

    constructor (iterable: seq<K>)
      ensures Valid() && fresh(Repr)
      ensures elems == AddAll([], iterable)
    {
      var e := new Node<K>(None, null, null);
      end := e;
      cells := map[];
      elems := [];
      nodes := [];
      new;
      e.prev := e;
      e.next := e;
      Repr := {this, e};
      UnionUpdate(iterable);
    }

    /** `self |= keys`: each key added in turn. */
    method UnionUpdate(keys: seq<K>)
      requires Valid()
      modifies Repr
      ensures Valid() && fresh(Repr - old(Repr))
      ensures elems == AddAll(old(elems), keys)
    {
      var k := 0;
      while k < |keys|
        invariant 0 <= k <= |keys|
        invariant Valid() && fresh(Repr - old(Repr))
        invariant AddAll(elems, keys[k..]) == AddAll(old(elems), keys)
      {
        ghost var e := elems;
        assert keys[k..][0] == keys[k] && keys[k..][1..] == keys[k + 1..];
        assert AddAll(e, keys[k..]) == AddAll(AddTo(e, keys[k]), keys[k + 1..]);
        Add(keys[k]);
        k := k + 1;
      }
    }

    /** `__len__`: the number of distinct keys. */
    function Len(): (n: nat)
      requires Valid()
      reads this, Repr
      ensures n == |elems|
    {
      DistinctKeys();
      KeyCount();
      |cells|
    }

    /** `__contains__`. */
    predicate Contains(key: K)
      requires Valid()
      reads this, Repr
      ensures Contains(key) <==> key in elems
    {
      key in cells
    }

    lemma DistinctKeys()
      requires Valid()
      ensures Distinct(elems)
    {
      IndexedDistinct(cells, elems, nodes);
    }

    lemma KeyCount()
      requires Valid() && Distinct(elems)
      ensures |cells| == |elems|
    {
      assert cells.Keys == set x | x in elems;
      DistinctCard(elems);
    }

    /** `add`: a new key is linked in before the sentinel, i.e. last; a present key
        changes nothing. */
    method Add(key: K)
      requires Valid()
      modifies Repr
      ensures Valid() && fresh(Repr - old(Repr))
      ensures elems == AddTo(old(elems), key)
      ensures key in old(elems) ==> cells == old(cells) && nodes == old(nodes)
    {
      if key !in cells {
        var curr := end.prev;
        var n := new Node<K>(Some(key), curr, end);
        LinkLast(curr, n);
        Remember(key, n);
      }
    }

    /** The bookkeeping of `add` once the new cell is linked: the map and the order
        take in the key and its cell. */
    method Remember(key: K, n: Node<K>)
      requires Shape() && key !in cells && n !in Repr && n.key == Some(key)
      requires Chain(nodes + [n])
      modifies this
      ensures Valid() && Repr == old(Repr) + {n}
      ensures cells == old(cells)[key := n]
      ensures elems == old(elems) + [key] && nodes == old(nodes) + [n]
    {
      IndexedAppend(cells, elems, nodes, key, n);
      cells := cells[key := n];
      elems := elems + [key];
      nodes := nodes + [n];
      Repr := Repr + {n};
    }

    /** The two link updates of `add`: the last cell (or the sentinel) and the
        sentinel now point at the new cell. */
    method LinkLast(curr: Node<K>, n: Node<K>)
      requires Valid() && curr == end.prev && n !in Repr
      requires n.prev == curr && n.next == end
      modifies curr, end
      ensures Chain(nodes + [n])
    {
      assert Chain(nodes);
      curr.next := n;
      end.prev := n;
      var ns := nodes + [n];
      forall j | 0 <= j < |ns|
        ensures ns[j].prev == (if j == 0 then end else ns[j - 1])
        ensures ns[j].next == (if j == |ns| - 1 then end else ns[j + 1])
      {
        if j < |nodes| {
          assert ns[j] == nodes[j] && ns[j] != end && ns[j] != n;
          if j < |nodes| - 1 {
            assert ns[j] != curr;
          }
        }
      }
    }

    /** `discard`: the key's cell is unlinked; the other keys keep their order. */
    method Discard(key: K)
      requires Valid()
      modifies Repr
      ensures Valid() && Repr <= old(Repr)
      ensures elems == Without(old(elems), key)
    {
      DistinctKeys();
      if key in cells {
        var n := cells[key];
        ghost var i :| 0 <= i < |elems| && elems[i] == key;
        WithoutAt(elems, key, i);
        Neighbours(i);
        Unlink(n.prev, n, n.next, i);
        Forget(key, i);
      } else {
        WithoutAbsent(elems, key);
      }
    }

    /** The bookkeeping of `discard` once the cell at `i` is unlinked: the map and
        the order let go of the key and its cell. */
    method Forget(key: K, ghost i: nat)
      requires Shape() && i < |elems| && elems[i] == key
      requires Chain(nodes[..i] + nodes[i + 1..])
      modifies this
      ensures Valid() && Repr == old(Repr) - {old(nodes[i])}
      ensures cells == old(cells) - {key}
      ensures elems == old(elems[..i] + elems[i + 1..])
    {
      ShapedRemove(Repr, this, end, cells, elems, nodes, i);
      cells := cells - {key};
      elems := elems[..i] + elems[i + 1..];
      nodes := nodes[..i] + nodes[i + 1..];
      Repr := Repr - {old(nodes[i])};
    }

    /** The two link updates of `discard`: the neighbours of the cell at `i` now point
        at each other. */
    method Unlink(prev: Node<K>, n: Node<K>, next: Node<K>, ghost i: nat)
      requires Valid() && i < |nodes| && n == nodes[i]
      requires prev == (if i == 0 then end else nodes[i - 1])
      requires next == (if i == |nodes| - 1 then end else nodes[i + 1])
      modifies prev, next
      ensures Chain(nodes[..i] + nodes[i + 1..])
    {
      assert Chain(nodes);
      prev.next := next;
      next.prev := prev;
      var rest := nodes[..i] + nodes[i + 1..];
      forall j | 0 <= j < |rest|
        ensures rest[j].prev == (if j == 0 then end else rest[j - 1])
        ensures rest[j].next == (if j == |rest| - 1 then end else rest[j + 1])
      {
        var k := if j < i then j else j + 1;
        assert rest[j] == nodes[k] && rest[j] != end;
        assert j > 0 ==> rest[j - 1] == nodes[if j - 1 < i then j - 1 else j];
        assert j < |rest| - 1 ==> rest[j + 1] == nodes[if j + 1 < i then j + 1 else j + 2];
      }
    }

    /** `__iter__`: the keys, first added first. */
    method Elements() returns (s: seq<K>)
      requires Valid()
      ensures s == elems
    {
      s := [];
      var curr := end.next;
      ghost var k := 0;
      assert Chain(nodes);
      while curr != end
        invariant 0 <= k <= |nodes| && s == elems[..k]
        invariant curr == (if k < |nodes| then nodes[k] else end)
        decreases |nodes| - k
      {
        s := s + [curr.key.value];
        curr := curr.next;
        k := k + 1;
      }
    }

    /** `__reversed__`: the keys, last added first. */
    method Reversed() returns (s: seq<K>)
      requires Valid()
      ensures s == Reverse(elems)
    {
      s := [];
      var curr := end.prev;
      ghost var k := |nodes|;
      assert Chain(nodes);
      while curr != end
        invariant 0 <= k <= |nodes| && s == Reverse(elems[k..])
        invariant curr == (if k > 0 then nodes[k - 1] else end)
        decreases k
      {
        assert elems[k - 1..] == [elems[k - 1]] + elems[k..];
        s := s + [curr.key.value];
        curr := curr.prev;
        k := k - 1;
      }
    }

    /** `pop`: the last key (the first with `last` false) is discarded and returned;
        an empty set raises `KeyError`. */
    method Pop(last: bool) returns (r: Result<K, KeyError>)
      requires Valid()
      modifies Repr
      ensures Valid() && Repr <= old(Repr)
      ensures old(elems) == [] ==> r == Err(KeyError("set is empty")) && elems == old(elems)
      ensures old(elems) != [] && last ==> r == Ok(old(elems)[|old(elems)| - 1]) && elems == old(elems)[..|old(elems)| - 1]
      ensures old(elems) != [] && !last ==> r == Ok(old(elems)[0]) && elems == old(elems)[1..]
    {
      if Len() == 0 {
        return Err(KeyError("set is empty"));
      }
      DistinctKeys();
      var key := if last then end.prev.key.value else end.next.key.value;
      ghost var i := if last then |elems| - 1 else 0;
      WithoutAt(elems, key, i);
      Discard(key);
      r := Ok(key);
    }

    /** `__eq__` against another `OrderedSet`: the same keys in the same order. */
    method Equals(other: OrderedSet<K>) returns (b: bool)
      requires Valid() && other.Valid()
      ensures b <==> elems == other.elems
    {
      if Len() != other.Len() {
        return false;
      }
      var mine := Elements();
      var theirs := other.Elements();
      b := mine == theirs;
    }

    /** `__eq__` against any other collection: the same keys, in any order. */
    method EqualsSet(other: set<K>) returns (b: bool)
      requires Valid()
      ensures b <==> (set x | x in elems) == other
    {
      var mine := Elements();
      b := (set x | x in mine) == other;
    }
  }
}
