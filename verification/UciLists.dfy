/** The circular doubly linked lists that hold sections, options and records. A ring is
    described by the sequence of its nodes, the list head first. */
module UciLists {
  import opened UciText
  import opened UciTree

  /** The nodes are the options of a section; the head of the list stands for the section. */
  class Node {
    var prev: Node
    var next: Node
    const name: string
    const value: Value

    /** A new node is a ring of its own. */
    constructor (name: string, value: Value)
      ensures this.name == name && this.value == value && Ring([this])
    {
      this.name, this.value := name, value;
      prev, next := this, this;
    }

    /** Makes the node a ring of its own, whatever it pointed at. */
    method Init()
      modifies this
      ensures Ring([this])
    {
      prev, next := this, this;
    }
  }

  predicate Distinct(s: seq<Node>) {
    forall i, j | 0 <= i < j < |s| :: s[i] != s[j]
  }

  predicate Linked(a: Node, b: Node)
    reads a, b
  {
    a.next == b && b.prev == a
  }

  ghost predicate Ring(s: seq<Node>)
    reads s
  {
    |s| > 0 && Distinct(s) &&
    (forall i | 0 <= i < |s| - 1 :: Linked(s[i], s[i + 1])) && Linked(s[|s| - 1], s[0])
  }

  /** Inserts `ptr` behind `list`, the node at position k of the ring. */
  method Insert(list: Node, ptr: Node, ghost s: seq<Node>, ghost k: nat)
    requires Ring(s) && k < |s| && s[k] == list && ptr !in s
    modifies list, list.next, ptr
    ensures Ring(s[..k + 1] + [ptr] + s[k + 1..])
  {
    ghost var after := s[if k + 1 == |s| then 0 else k + 1];
    assert list.next == after;
    list.next.prev := ptr;
    ptr.prev := list;
    ptr.next := list.next;
    list.next := ptr;
    ghost var t := s[..k + 1] + [ptr] + s[k + 1..];
    forall i | 0 <= i < |t| - 1 ensures Linked(t[i], t[i + 1]) {
      if i < k {
        assert Linked(s[i], s[i + 1]);
      } else if i > k + 1 {
        assert Linked(s[i - 1], s[i]);
      }
    }
  }

  /** Adds at the tail, which the head reaches through its back pointer. */
  method Add(head: Node, ptr: Node, ghost s: seq<Node>)
    requires Ring(s) && s[0] == head && ptr !in s
    modifies head, head.prev, ptr
    ensures Ring(s + [ptr])
  {
    Insert(head.prev, ptr, s, |s| - 1);
    assert s[..|s|] + [ptr] + s[|s|..] == s + [ptr];
  }

  /** Unlinks a node other than the head and leaves it a ring of its own. */
  method Del(ptr: Node, ghost s: seq<Node>, ghost k: nat)
    requires Ring(s) && 0 < k < |s| && s[k] == ptr
    modifies ptr, ptr.prev, ptr.next
    ensures Ring(s[..k] + s[k + 1..]) && Ring([ptr])
  {
    ghost var t := s[..k] + s[k + 1..];
    var next, prev := ptr.next, ptr.prev;
    assert prev == s[k - 1] && next == s[if k + 1 == |s| then 0 else k + 1] by {
      assert Linked(s[k - 1], s[k]);
    }
    prev.next := next;
    next.prev := prev;
    ptr.Init();
    forall i | 0 <= i < |t| - 1 ensures Linked(t[i], t[i + 1]) {
      if i < k - 1 {
        assert Linked(s[i], s[i + 1]);
      } else if i >= k {
        assert Linked(s[i + 1], s[i + 2]);
      }
    }
  }

  /** Position of the first node after the head with the name, or the length. */
  function Position(s: seq<Node>, name: string, from: nat): (k: nat)
    requires from <= |s|
    ensures from <= k <= |s| && (k < |s| ==> s[k].name == name)
    ensures forall i | from <= i < k :: s[i].name != name
    decreases |s| - from
  {
    if from == |s| || s[from].name == name then from else Position(s, name, from + 1)
  }

  /** Walks the ring from the head and returns the first node with the name, or the head. */
  method Lookup(head: Node, name: string, ghost s: seq<Node>) returns (e: Node)
    requires Ring(s) && s[0] == head
    ensures var k := Position(s, name, 1); e == if k == |s| then head else s[k]
  {
    e := head.next;
    ghost var k := 1;
    assert |s| > 1 ==> Linked(s[0], s[1]);
    while e != head
      invariant 1 <= k <= |s| && e == (if k == |s| then head else s[k])
      invariant Position(s, name, k) == Position(s, name, 1)
      decreases |s| - k
    {
      if e.name == name {
        return;
      }
      assert k + 1 < |s| ==> Linked(s[k], s[k + 1]);
      e := e.next;
      k := k + 1;
    }
  }

  /** The nodes of a sequence that do not have the name, in order. */
  function Unnamed(s: seq<Node>, name: string): (t: seq<Node>)
    ensures forall x | x in t :: x in s && x.name != name
  {
    if s == [] then [] else (if s[0].name == name then [] else [s[0]]) + Unnamed(s[1..], name)
  }

  lemma RingNext(s: seq<Node>, k: nat)
    requires Ring(s) && k < |s|
    ensures s[k].next == s[if k + 1 == |s| then 0 else k + 1]
    ensures k > 0 ==> s[k] != s[0] && s[k].prev == s[k - 1]
  {
    assert k + 1 < |s| ==> Linked(s[k], s[k + 1]);
    assert k > 0 ==> Linked(s[k - 1], s[k]);
  }

  function Drop(s: seq<Node>, k: nat): seq<Node>
    requires k < |s|
  {
    s[..k] + s[k + 1..]
  }

  lemma UnnamedFirst(s: seq<Node>, k: nat, name: string)
    requires k < |s|
    ensures Unnamed(s[k..], name) == (if s[k].name == name then [] else [s[k]]) + Unnamed(s[k + 1..], name)
  {
    assert s[k..][0] == s[k] && s[k..][1..] == s[k + 1..];
  }

  lemma UnnamedStep(s: seq<Node>, k: nat, name: string)
    requires k < |s|
    ensures s[k].name == name ==> s[..k] + Unnamed(s[k..], name) == Drop(s, k)[..k] + Unnamed(Drop(s, k)[k..], name)
    ensures s[k].name != name ==> s[..k] + Unnamed(s[k..], name) == s[..k + 1] + Unnamed(s[k + 1..], name)
  {
    hide Unnamed;
    var rest := Unnamed(s[k + 1..], name);
    UnnamedFirst(s, k, name);
    assert [] + rest == rest;
    if s[k].name == name {
      assert Drop(s, k)[..k] == s[..k] && Drop(s, k)[k..] == s[k + 1..];
    } else {
      assert s[..k + 1] == s[..k] + [s[k]];
      Assoc(s[..k], [s[k]], rest);
    }
  }

  /** The walk stands at position k of the ring, or at the head once k reaches the end;
      `tmp` is the node after it. */
  ghost predicate Walking(head: Node, e: Node, tmp: Node, ring: seq<Node>, k: nat)
    reads ring
  {
    && 1 <= k <= |ring| && Ring(ring) && ring[0] == head
    && if k == |ring| then e == head else e == ring[k] && tmp == ring[if k + 1 == |ring| then 0 else k + 1]
  }

  /** One turn: the successor was fetched before the node may be unlinked. */
  method DeleteStep(head: Node, name: string, e: Node, tmp: Node, ghost s: seq<Node>, ghost ring: seq<Node>,
                    ghost k: nat)
    returns (e': Node, tmp': Node, ghost ring': seq<Node>, ghost k': nat)
    requires Walking(head, e, tmp, ring, k) && k < |ring| && forall x | x in ring :: x in s
    modifies s
    ensures Walking(head, e', tmp', ring', k') && forall x | x in ring' :: x in s
    ensures ring' == (if e.name == name then Drop(ring, k) else ring)
    ensures k' == if e.name == name then k else k + 1
  {
    RingNext(ring, k);
    ring', k' := ring, k + 1;
    if e.name == name {
      assert e in s && e.prev in s && e.next in s;
      Del(e, ring, k);
      ring', k' := Drop(ring, k), k;
    }
    e' := tmp;
    if k' < |ring'| {
      RingNext(ring', k');
    }
    tmp' := e'.next;
  }

  /** Deletes every node with the name. */
  method DeleteNamed(head: Node, name: string, ghost s: seq<Node>)
    requires Ring(s) && s[0] == head
    modifies s
    ensures Ring([head] + Unnamed(s[1..], name))
  {
    ghost var ring, k := s, 1;
    RingNext(s, 0);
    var e := head.next;
    if e != head {
      RingNext(s, 1);
    }
    var tmp := e.next;
    assert ring[..1] == [head];
    while e != head
      invariant Walking(head, e, tmp, ring, k) && forall x | x in ring :: x in s
      invariant ring[..k] + Unnamed(ring[k..], name) == [head] + Unnamed(s[1..], name)
      decreases |ring| - k
    {
      UnnamedStep(ring, k, name);
      e, tmp, ring, k := DeleteStep(head, name, e, tmp, s, ring, k);
    }
    assert ring[..k] + Unnamed(ring[k..], name) == ring;
  }

  // ---------- an option set on the list ----------

  /** The options a ring without its head holds. */
  function OptionsOf(s: seq<Node>): (options: seq<Option>)
    ensures |options| == |s|
    ensures forall i | 0 <= i < |s| :: options[i] == Option(s[i].name, s[i].value)
  {
    if s == [] then [] else OptionsOf(s[..|s| - 1]) + [Option(s[|s| - 1].name, s[|s| - 1].value)]
  }

  /** The walk over the ring and the search in the sequence find the same place. */
  lemma SamePlace(s: seq<Node>, name: string)
    requires s != []
    ensures Position(s, name, 1) == FindOption(OptionsOf(s[1..]), name) + 1
  {
    var j := FindOption(OptionsOf(s[1..]), name);
    forall i | 1 <= i < j + 1 ensures s[i].name != name {
      assert OptionsOf(s[1..])[i - 1].name == s[1..][i - 1].name;
    }
    assert j < |s| - 1 ==> OptionsOf(s[1..])[j].name == s[1..][j].name;
  }

  lemma OptionsDropped(s: seq<Node>, k: nat)
    requires 0 < k < |s|
    ensures OptionsOf(Drop(s, k)[1..]) == Without(OptionsOf(s[1..]), k - 1)
  {
  }

  lemma OptionsAdded(s: seq<Node>, o: Node)
    requires s != []
    ensures OptionsOf((s + [o])[1..]) == OptionsOf(s[1..]) + [Option(o.name, o.value)]
  {
    assert (s + [o])[1..] == s[1..] + [o];
  }

  lemma DropKeeps(s: seq<Node>, k: nat)
    requires k < |s| && Distinct(s)
    ensures forall x | x in Drop(s, k) :: x in s && x != s[k]
    ensures k > 0 ==> Drop(s, k) != [] && Drop(s, k)[0] == s[0]
  {
  }

  /** A new option at the tail. */
  method Append(head: Node, name: string, value: string, ghost s: seq<Node>) returns (ghost t: seq<Node>)
    requires Ring(s) && s[0] == head
    modifies head, head.prev
    ensures Ring(t) && t[0] == head && OptionsOf(t[1..]) == OptionsOf(s[1..]) + [Option(name, Str(value))]
  {
    hide *;
    FirstOfRing(s);
    var o := new Node(name, Str(value));
    Add(head, o, s);
    OptionsAdded(s, o);
    t := s + [o];
  }

  method Unlink(head: Node, e: Node, ghost s: seq<Node>, ghost k: nat) returns (ghost t: seq<Node>)
    requires Ring(s) && s[0] == head && 0 < k < |s| && s[k] == e
    modifies s
    ensures Ring(t) && t[0] == head && OptionsOf(t[1..]) == Without(OptionsOf(s[1..]), k - 1)
    ensures forall x | x in t :: x in s
  {
    hide *;
    FirstOfRing(s);
    RingNext(s, k);
    Del(e, s, k);
    t := Drop(s, k);
    DropKeeps(s, k);
    OptionsDropped(s, k);
    DropIsCut(s, k);
  }

  lemma DropIsCut(s: seq<Node>, k: nat)
    requires k < |s|
    ensures Drop(s, k) == s[..k] + s[k + 1..]
  {
  }

  /** Setting a string on the list: a different value unlinks the old node and adds a new one
      at the tail, so the list holds what the edit of the tree says. */
  method SetOnList(head: Node, name: string, value: string, ghost s: seq<Node>) returns (ghost t: seq<Node>)
    requires Ring(s) && s[0] == head
    modifies s
    ensures Ring(t) && t[0] == head && OptionsOf(t[1..]) == SetOption(OptionsOf(s[1..]), name, value)
  {
    hide Ring, Drop, Position, Without, OptionsOf, FindOption;
    var e := Lookup(head, name, s);
    ghost var k := Position(s, name, 1);
    SamePlace(s, name);
    FirstOfRing(s);
    t := s;
    if e != head {
      if e.value == Str(value) {
        return;
      }
      t := Unlink(head, e, s, k);
    }
    FirstOfRing(t);
    t := Append(head, name, value, t);
  }

  lemma FirstOfRing(s: seq<Node>)
    requires Ring(s)
    ensures s != [] && Distinct(s) && s[0].prev in s && forall k | 0 < k < |s| :: s[k] != s[0]
  {
    assert Linked(s[|s| - 1], s[0]);
  }
}
