/** The heap list of project/linklist.c: a dummy head and nodes linked by next. */
module LinkList {
  import opened Wrappers
  import opened Presence

  class Node {
    var entry: Entry
    var next: Node?

    constructor (entry: Entry, next: Node?)
      ensures this.entry == entry && this.next == next
    {
      this.entry, this.next := entry, next;
    }
  }

  class OnlineList {
    var head: Node
    ghost var spine: seq<Node>        // head and the nodes after it, in order
    ghost var contents: seq<Entry>    // the entries after head
    ghost var Repr: set<object>

    ghost predicate Valid()
      reads this, Repr
    {
      && this in Repr
      && |spine| == |contents| + 1 && spine[0] == head
      && (forall i :: 0 <= i < |spine| ==> spine[i] in Repr)
      && (forall i, j :: 0 <= i < j < |spine| ==> spine[i] != spine[j])
      && (forall i :: 0 <= i < |contents| ==> spine[i].next == spine[i + 1])
      && spine[|contents|].next == null
      && (forall i :: 0 <= i < |contents| ==> contents[i] == spine[i + 1].entry)
    }

    /** What a walk finds at the i-th step. */
    lemma Links(i: nat)
      requires Valid() && i <= |contents|
      ensures spine[i].next == if i < |contents| then spine[i + 1] else null
      ensures 0 < i ==> spine[i].entry == contents[i - 1]
    {
      if 0 < i { assert contents[i - 1] == spine[i - 1 + 1].entry; }
    }

    constructor ()
      ensures Valid() && fresh(Repr) && contents == []
    {
      var dummy := new Node(Entry(0, 0, 0), null);
      head := dummy;
      spine, contents := [dummy], [];
      Repr := {this, dummy};
    }

    /** Prepends a copy of e. */
    method AddList(e: Entry)
      requires Valid()
      modifies this, head
      ensures Valid() && fresh(Repr - old(Repr)) && old(Repr) <= Repr
      ensures contents == [e] + old(contents)
    {
      var node := new Node(e, head.next);
      head.next := node;
      spine := [head, node] + spine[1..];
      contents := [e] + contents;
      Repr := Repr + {node};
    }

    /** Unlinks the node after p, the i-th of the spine. */
    method Unlink(p: Node, ghost i: nat)
      requires Valid() && i < |contents| && p == spine[i]
      modifies this, p
      ensures Valid() && Repr == old(Repr)
      ensures contents == old(contents)[..i] + old(contents)[i + 1..]
    {
      assert spine[i].next == spine[i + 1];
      assert i + 1 < |contents| ==> spine[i + 1].next == spine[i + 2];
      p.next := p.next.next;
      spine := spine[..i + 1] + spine[i + 2..];
      contents := contents[..i] + contents[i + 1..];
    }

    /** Unlinks the first node whose chosen field is v, if there is one. */
    method DelList(v: int, k: Key)
      requires Valid()
      modifies Repr
      ensures Valid() && Repr == old(Repr)
      ensures contents == Remove(old(contents), v, k)
    {
      var p := head;
      ghost var i := 0;
      while p.next != null
        invariant Valid() && Repr == old(Repr) && contents == old(contents)
        invariant 0 <= i <= |contents| && p == spine[i]
        invariant i < |contents| ==> p.next == spine[i + 1]
        invariant forall j :: 0 <= j < i ==> KeyOf(contents[j], k) != v
        decreases |contents| - i
      {
        if KeyOf(p.next.entry, k) == v {
          RemoveAt(contents, v, k, i);
          Unlink(p, i);
          return;
        }
        assert spine[i].next == spine[i + 1];
        p := p.next;
        i := i + 1;
      }
      RemoveAbsent(contents, v, k);
    }

    /** The first node whose chosen field is v, or null. */
    method SearchList(v: int, k: Key) returns (p: Node?)
      requires Valid()
      ensures p == null <==> Find(contents, v, k) == None
      ensures p != null ==> p in spine[1..] && Find(contents, v, k) == Some(p.entry)
    {
      var q := head;
      ghost var i := 0;
      while q.next != null
        invariant 0 <= i <= |contents| && q == spine[i]
        invariant i < |contents| ==> q.next == spine[i + 1]
        invariant forall j :: 0 <= j < i ==> KeyOf(contents[j], k) != v
        decreases |contents| - i
      {
        if KeyOf(q.next.entry, k) == v {
          FindAt(contents, v, k, i);
          assert spine[1..][i] == q.next;
          return q.next;
        }
        assert spine[i].next == spine[i + 1];
        q := q.next;
        i := i + 1;
      }
      FindAbsent(contents, v, k);
      return null;
    }

    /** Walks the nodes, freeing each, and leaves the dummy alone. */
    method DestroyList()
      requires Valid()
      modifies this, head
      ensures Valid() && Repr == old(Repr) && contents == []
    {
      Links(0);
      var p := head.next;
      ghost var i := 0;
      while p != null
        invariant 0 <= i <= |contents|
        invariant p == if i < |contents| then spine[i + 1] else null
        decreases |contents| - i
        modifies {}
      {
        Links(i + 1);
        p := p.next;
        i := i + 1;
      }
      head.next := null;
      spine, contents := [head], [];
    }

    /** Any run of operations, each under the list's lock. */
    method Perform(ops: seq<Op>)
      requires Valid()
      modifies Repr
      ensures Valid() && fresh(Repr - old(Repr))
      ensures contents == Replay(old(contents), ops)
    {
      for i := 0 to |ops|
        invariant Valid() && fresh(Repr - old(Repr))
        invariant Replay(contents, ops[i..]) == Replay(old(contents), ops)
      {
        match ops[i] {
          case Add(e) => AddList(e);
          case Del(v, k) => DelList(v, k);
        }
      }
    }
  }

  datatype Op = Add(e: Entry) | Del(v: int, k: Key)

  function Replay(l: seq<Entry>, ops: seq<Op>): seq<Entry>
    decreases |ops|
  {
    if ops == [] then l
    else
      var l1 := match ops[0] case Add(e) => [e] + l case Del(v, k) => Remove(l, v, k);
      Replay(l1, ops[1..])
  }

  function Adds(ops: seq<Op>): nat {
    if ops == [] then 0 else (if ops[0].Add? then 1 else 0) + Adds(ops[1..])
  }

  /** The deletions of the run that find something to delete. */
  function Hits(l: seq<Entry>, ops: seq<Op>): nat
    decreases |ops|
  {
    if ops == [] then 0
    else match ops[0]
      case Add(e) => Hits([e] + l, ops[1..])
      case Del(v, k) => (if Find(l, v, k).Some? then 1 else 0) + Hits(Remove(l, v, k), ops[1..])
  }

  /** The length of the list is what was added minus what was found and deleted. */
  lemma {:induction false} LengthIsCounted(l: seq<Entry>, ops: seq<Op>)
    ensures |Replay(l, ops)| + Hits(l, ops) == |l| + Adds(ops)
    decreases |ops|
  {
    if ops != [] {
      match ops[0]
      case Add(e) => LengthIsCounted([e] + l, ops[1..]);
      case Del(v, k) =>
        LengthIsCounted(Remove(l, v, k), ops[1..]);
        if Find(l, v, k).Some? {
          var e := Find(l, v, k).value;
          assert e in l && KeyOf(e, k) == v;
        }
    }
  }

  lemma {:induction false} RemoveAt(l: seq<Entry>, v: int, k: Key, i: nat)
    requires i < |l| && KeyOf(l[i], k) == v
    requires forall j :: 0 <= j < i ==> KeyOf(l[j], k) != v
    ensures Remove(l, v, k) == l[..i] + l[i + 1..]
  {
    if i > 0 {
      RemoveAt(l[1..], v, k, i - 1);
      assert l[..i] + l[i + 1..] == [l[0]] + (l[1..][..i - 1] + l[1..][i..]);
    }
  }

  lemma {:induction false} RemoveAbsent(l: seq<Entry>, v: int, k: Key)
    requires forall j :: 0 <= j < |l| ==> KeyOf(l[j], k) != v
    ensures Remove(l, v, k) == l
  {
    if l != [] {
      RemoveAbsent(l[1..], v, k);
    }
  }

  lemma {:induction false} FindAt(l: seq<Entry>, v: int, k: Key, i: nat)
    requires i < |l| && KeyOf(l[i], k) == v
    requires forall j :: 0 <= j < i ==> KeyOf(l[j], k) != v
    ensures Find(l, v, k) == Some(l[i])
  {
    if i > 0 {
      FindAt(l[1..], v, k, i - 1);
    }
  }

  lemma {:induction false} FindAbsent(l: seq<Entry>, v: int, k: Key)
    requires forall j :: 0 <= j < |l| ==> KeyOf(l[j], k) != v
    ensures Find(l, v, k) == None
  {
    if l != [] {
      FindAbsent(l[1..], v, k);
    }
  }
}
