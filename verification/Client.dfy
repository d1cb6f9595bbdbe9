/** The client of project/client.c: its own heap list of online friends, updated
    packet by packet, and whom a chat message is sent to. */
module Client {
  import opened Wrappers
  import opened Presence
  import opened Packets
  import opened LinkList
  import ServerSpec
  import Database
  import Agreement

  /** The entries of l that the ids name, in order; absent ids are skipped. */
  function Named(l: seq<Entry>, ids: seq<int>): seq<Entry> {
    if ids == [] then []
    else
      var last := Find(l, ids[|ids| - 1], ById);
      Named(l, ids[..|ids| - 1]) + if last.None? then [] else [last.value]
  }

  /** Under replica agreement a message to several ids goes to exactly those
      that are online friends, at the address the server knows. */
  lemma {:induction false} NamedAreOnlineFriends(s: ServerSpec.Srv, e: Entry, ids: seq<int>)
    requires Agreement.Agree(s) && e in s.online
    ensures var l := View(s.Trace(e.fd));
            forall x :: x in Named(l, ids) <==>
              x in s.online && x.id in ids && x.id in Database.Rows(s.db, e.id)
  {
    var l := View(s.Trace(e.fd));
    if ids != [] {
      var n := |ids| - 1;
      NamedAreOnlineFriends(s, e, ids[..n]);
      assert ids == ids[..n] + [ids[n]];
      DistinctUnique(l, ById);
    }
  }

  /** The ids are taken one by one, in order. */
  lemma {:induction false} NamedInOrder(l: seq<Entry>, a: seq<int>, b: seq<int>)
    ensures Named(l, a + b) == Named(l, a) + Named(l, b)
    decreases |b|
  {
    if b == [] {
      assert a + b == a;
    } else {
      assert (a + b)[..|a + b| - 1] == a + b[..|b| - 1];
      NamedInOrder(l, a, b[..|b| - 1]);
    }
  }

  /** Under replica agreement each id stands for one receiver, if it is an online
      friend's, and else for none. */
  lemma NamedOne(s: ServerSpec.Srv, e: Entry, id: int)
    requires Agreement.Agree(s) && e in s.online
    ensures var to := Named(View(s.Trace(e.fd)), [id]);
            if exists x :: x in s.online && x.id == id && id in Database.Rows(s.db, e.id)
            then |to| == 1 && to[0] in s.online && to[0].id == id
            else to == []
  {
    var l := View(s.Trace(e.fd));
    assert Named(l, [id]) == Named(l, []) + if Find(l, id, ById).None? then [] else [Find(l, id, ById).value];
  }

  class FriendList {
    const online: OnlineList

    ghost predicate Valid()
      reads this, online, online.Repr
    {
      online.Valid() && this !in online.Repr
    }

    constructor ()
      ensures Valid() && fresh(online.Repr) && online.contents == []
    {
      online := new OnlineList();
    }

    /** analysis_receive, as far as it concerns the list. */
    method Receive(p: Packet)
      requires Valid()
      modifies online.Repr
      ensures Valid() && fresh(online.Repr - old(online.Repr))
      ensures online.contents == Apply(old(online.contents), p)
    {
      match p {
        case OnlineNote(e) => online.AddList(e);
        case OfflineNote(id) => online.DelList(id, ById);
        case _ =>
      }
    }

    /** Draining a connection from its first packet on. */
    method Drain(t: seq<Packet>)
      requires Valid() && online.contents == []
      modifies online.Repr
      ensures Valid() && online.contents == View(t)
    {
      for i := 0 to |t|
        invariant Valid() && fresh(online.Repr - old(online.Repr))
        invariant online.contents == View(t[..i])
      {
        assert t[..i + 1] == t[..i] + [t[i]];
        ViewSnoc(t[..i], t[i]);
        Receive(t[i]);
      }
      assert t[..|t|] == t;
    }

    /** The multi-receiver loop of send_message_mgmt: whom sendto is called for.
        A failed sendto does not stop it. */
    method SendToMany(ids: seq<int>) returns (to: seq<Entry>)
      requires Valid()
      ensures to == Named(online.contents, ids)
    {
      to := [];
      for i := 0 to |ids|
        invariant to == Named(online.contents, ids[..i])
      {
        assert ids[..i + 1][..i] == ids[..i];
        var p := online.SearchList(ids[i], ById);
        if p != null {
          to := to + [p.entry];
        }
      }
      assert ids[..|ids|] == ids;
    }

    /** The loop that sends to everybody on the list; works(k) says whether the
        k-th sendto does, and the first that does not ends it. */
    method SendToAll(works: nat -> bool) returns (to: seq<Entry>)
      requires Valid()
      ensures to <= online.contents
      ensures forall k :: 0 <= k < |to| - 1 ==> works(k)
      ensures |to| < |online.contents| ==> to != [] && !works(|to| - 1)
    {
      online.Links(0);
      var p := online.head.next;
      to := [];
      while p != null
        invariant |to| <= |online.contents| && to == online.contents[..|to|]
        invariant p == if |to| < |online.contents| then online.spine[|to| + 1] else null
        invariant forall k :: 0 <= k < |to| ==> works(k)
        decreases |online.contents| - |to|
      {
        online.Links(|to| + 1);
        to := to + [p.entry];
        if !works(|to| - 1) {
          return;
        }
        p := p.next;
      }
    }
  }
}
