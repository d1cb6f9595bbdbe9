/** Online entries and the functions on sequences of them that specify the
    list operations of project/linklist.c. */
module Presence {
  import opened Wrappers

  /** A socket address; only its identity matters. */
  type Addr = int

  /** The data fields of an Online_node (project/comtype.h). */
  datatype Entry = Entry(id: int, fd: int, addr: Addr)

  /** BY_ID and BY_SOCKFD: the field a search compares. */
  datatype Key = ById | ByFd

  function KeyOf(e: Entry, k: Key): int {
    match k
    case ById => e.id
    case ByFd => e.fd
  }

  /** The first entry whose key is v. */
  function Find(l: seq<Entry>, v: int, k: Key): (r: Option<Entry>)
    ensures r.Some? ==> r.value in l && KeyOf(r.value, k) == v
    ensures r.None? ==> forall e :: e in l ==> KeyOf(e, k) != v
  {
    if l == [] then None
    else if KeyOf(l[0], k) == v then Some(l[0])
    else Find(l[1..], v, k)
  }

  /** l without its first entry whose key is v. */
  function Remove(l: seq<Entry>, v: int, k: Key): (r: seq<Entry>)
    ensures |r| == if exists e :: e in l && KeyOf(e, k) == v then |l| - 1 else |l|
    ensures forall e :: e in r ==> e in l
  {
    if l == [] then []
    else if KeyOf(l[0], k) == v then l[1..]
    else [l[0]] + Remove(l[1..], v, k)
  }

  /** l without every entry whose id is in ids. */
  function Without(l: seq<Entry>, ids: set<int>): (r: seq<Entry>)
    ensures forall e :: e in r <==> e in l && e.id !in ids
    ensures |r| <= |l|
  {
    if l == [] then []
    else if l[0].id in ids then Without(l[1..], ids)
    else [l[0]] + Without(l[1..], ids)
  }

  function Reverse(l: seq<Entry>): (r: seq<Entry>)
    ensures |r| == |l| && forall i :: 0 <= i < |l| ==> r[i] == l[|l| - 1 - i]
  {
    seq(|l|, i requires 0 <= i < |l| => l[|l| - 1 - i])
  }

  function Ids(l: seq<Entry>): set<int> {
    set e | e in l :: e.id
  }

  function Fds(l: seq<Entry>): set<int> {
    set e | e in l :: e.fd
  }

  ghost predicate Distinct(l: seq<Entry>, k: Key) {
    forall i, j :: 0 <= i < j < |l| ==> KeyOf(l[i], k) != KeyOf(l[j], k)
  }

  lemma DistinctUnique(l: seq<Entry>, k: Key)
    requires Distinct(l, k)
    ensures forall x, y :: x in l && y in l && KeyOf(x, k) == KeyOf(y, k) ==> x == y
  {
  }

  lemma DistinctTail(l: seq<Entry>, k: Key)
    requires l != [] && Distinct(l, k)
    ensures Distinct(l[1..], k)
    ensures forall e :: e in l[1..] ==> KeyOf(e, k) != KeyOf(l[0], k)
  {
  }

  lemma {:induction false} DistinctPrepend(e: Entry, l: seq<Entry>, k: Key)
    requires Distinct(l, k)
    requires forall x :: x in l ==> KeyOf(x, k) != KeyOf(e, k)
    ensures Distinct([e] + l, k)
  {
    var r := [e] + l;
    forall i, j | 0 <= i < j < |r| ensures KeyOf(r[i], k) != KeyOf(r[j], k) {
      assert r[j] == l[j - 1];
      assert r[j] in l;
      if i > 0 { assert r[i] == l[i - 1]; }
    }
  }

  lemma {:induction false} DistinctWithout(l: seq<Entry>, ids: set<int>, k: Key)
    requires Distinct(l, k)
    ensures Distinct(Without(l, ids), k)
  {
    if l != [] {
      DistinctTail(l, k);
      DistinctWithout(l[1..], ids, k);
      if l[0].id !in ids {
        DistinctPrepend(l[0], Without(l[1..], ids), k);
      }
    }
  }

  /** On a list of distinct ids, del_list removes exactly that id. */
  lemma {:induction false} RemoveIsWithout(l: seq<Entry>, v: int)
    requires Distinct(l, ById)
    ensures Remove(l, v, ById) == Without(l, {v})
  {
    if l != [] {
      DistinctTail(l, ById);
      if l[0].id == v {
        WithoutNone(l[1..], {v});
      } else {
        RemoveIsWithout(l[1..], v);
      }
    }
  }

  lemma {:induction false} WithoutNone(l: seq<Entry>, ids: set<int>)
    requires forall e :: e in l ==> e.id !in ids
    ensures Without(l, ids) == l
  {
    if l != [] {
      assert l[0] in l;
      WithoutNone(l[1..], ids);
    }
  }

  lemma {:induction false} WithoutTwice(l: seq<Entry>, a: set<int>, b: set<int>)
    ensures Without(Without(l, a), b) == Without(l, a + b)
  {
    if l != [] {
      WithoutTwice(l[1..], a, b);
      if l[0].id !in a {
        assert ([l[0]] + Without(l[1..], a))[1..] == Without(l[1..], a);
      }
    }
  }

  lemma RemoveAfterWithout(l: seq<Entry>, ids: set<int>, v: int)
    requires Distinct(l, ById)
    ensures Remove(Without(l, ids), v, ById) == Without(l, ids + {v})
  {
    DistinctWithout(l, ids, ById);
    RemoveIsWithout(Without(l, ids), v);
    WithoutTwice(l, ids, {v});
  }

  /** Two removals agree when the sets agree on the ids that occur. */
  lemma {:induction false} WithoutSame(l: seq<Entry>, a: set<int>, b: set<int>)
    requires forall e :: e in l ==> (e.id in a <==> e.id in b)
    ensures Without(l, a) == Without(l, b)
  {
    if l != [] {
      assert l[0] in l;
      WithoutSame(l[1..], a, b);
    }
  }
}
