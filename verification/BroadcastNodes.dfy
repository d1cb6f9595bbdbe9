/** The processes of UNIX-8-11/TCP_UDP over heap lists: the server's nested
    broadcast loops and the client's rebuilding of its list. */
module BroadcastNodes {
  import opened Wrappers
  import opened Presence
  import opened LinkList
  import B = Broadcast

  class BroadcastServer {
    const list: OnlineList
    var out: map<int, seq<B.Rec>>
    ghost var sent: map<int, seq<seq<Entry>>>
    ghost var accepts: nat

    ghost predicate Valid()
      reads this, list, list.Repr
    {
      list.Valid() && this !in list.Repr
    }

    ghost function State(): B.State
      reads this, list
    {
      B.State(list.contents, out, sent, accepts)
    }

    constructor ()
      ensures Valid() && fresh(list.Repr) && State() == B.EMPTY
    {
      list := new OnlineList();
      out, sent, accepts := map[], map[], 0;
    }

    /** write(2) of one node, pointer included. */
    method WriteNode(fd: int, node: Node)
      modifies `out
      ensures out == old(out)[fd := (if fd in old(out) then old(out)[fd] else []) + [B.Rec(node.entry, node.next == null)]]
    {
      out := out[fd := (if fd in out then out[fd] else []) + [B.Rec(node.entry, node.next == null)]];
    }

    /** The inner loop of write_cli: every node to one client. */
    method WriteList(fd: int)
      requires Valid() && list.contents != []
      modifies `out
      ensures out == old(out)[fd := (if fd in old(out) then old(out)[fd] else []) + B.Snapshot(list.contents)]
    {
      ghost var l := list.contents;
      ghost var before := if fd in out then out[fd] else [];
      var head := list.head.next;
      ghost var j := 0;
      list.Links(0);
      while head != null
        invariant 0 <= j <= |l|
        invariant head == if j < |l| then list.spine[j + 1] else null
        invariant out == if j == 0 then old(out) else old(out)[fd := before + B.Snapshot(l)[..j]]
        decreases |l| - j
      {
        list.Links(j + 1);
        assert B.Snapshot(l)[..j + 1] == B.Snapshot(l)[..j] + [B.Rec(head.entry, head.next == null)];
        assert before + B.Snapshot(l)[..0] == before;
        assert (before + B.Snapshot(l)[..j]) + [B.Rec(head.entry, head.next == null)] == before + B.Snapshot(l)[..j + 1];
        WriteNode(fd, head);
        assert out == old(out)[fd := before + B.Snapshot(l)[..j + 1]];
        head := head.next;
        j := j + 1;
      }
      assert B.Snapshot(l)[..|l|] == B.Snapshot(l);
    }

    /** The outer loop: the whole list to every client on it. */
    method WriteCli()
      requires Valid()
      modifies `out, `sent
      ensures State() == B.WriteCli(old(State()))
    {
      ghost var l := list.contents;
      var head2 := list.head.next;
      ghost var i := 0;
      list.Links(0);
      while head2 != null
        invariant 0 <= i <= |l|
        invariant head2 == if i < |l| then list.spine[i + 1] else null
        invariant B.WriteAll(out, l, l[i..]) == B.WriteAll(old(out), l, l) && sent == old(sent)
        decreases |l| - i
      {
        list.Links(i + 1);
        assert l[i..][0] == head2.entry && l[i..][1..] == l[i + 1..];
        WriteList(head2.entry.fd);
        head2 := head2.next;
        i := i + 1;
      }
      assert l[|l|..] == [];
      sent := B.NoteSent(sent, l);
    }

    /** add_list: the newest client comes first, its id one above the previous first. */
    method AddList(fd: int, addr: Addr)
      requires Valid()
      modifies list, list.head
      ensures Valid() && fresh(list.Repr - old(list.Repr))
      ensures list.contents == [Entry(B.NextId(old(list.contents)), fd, addr)] + old(list.contents)
    {
      list.Links(0);
      if list.contents != [] { list.Links(1); }
      var first := list.head.next;
      var id := if first == null then 1001 else first.entry.id + 1;
      list.AddList(Entry(id, fd, addr));
    }

    /** The newest client is written its own node first. */
    method WriteOwn(fd: int)
      requires Valid() && list.contents != [] && fd !in out
      modifies `out
      ensures out == old(out)[fd := [B.Rec(list.contents[0], |list.contents| == 1)]]
    {
      list.Links(0);
      list.Links(1);
      assert [] + [B.Rec(list.contents[0], |list.contents| == 1)] == [B.Rec(list.contents[0], |list.contents| == 1)];
      WriteNode(fd, list.head.next);
    }

    /** A new client is added and written its own node. */
    method Welcome(fd: int, addr: Addr)
      requires Valid() && fd !in out
      modifies this, list, list.head
      ensures Valid() && fresh(list.Repr - old(list.Repr))
      ensures State() == B.Added(old(State()), fd, addr)
    {
      AddList(fd, addr);
      WriteOwn(fd);
      sent, accepts := sent[fd := []], accepts + 1;
    }

    /** The event loop's branch for a new connection. */
    method Connect(fd: int, addr: Addr)
      requires Valid() && fd !in out
      modifies this, list, list.Repr
      ensures Valid() && fresh(list.Repr - old(list.Repr))
      ensures State() == B.Connect(old(State()), fd, addr)
    {
      Welcome(fd, addr);
      WriteCli();
    }

    /** The event loop's branches for a failed or empty read. */
    method Disconnect(fd: int)
      requires Valid()
      modifies this, list.Repr
      ensures Valid() && fresh(list.Repr - old(list.Repr))
      ensures State() == B.Disconnect(old(State()), fd)
    {
      list.DelList(fd, ByFd);
      WriteCli();
    }

    /** One round of the event loop. */
    method Handle(ev: B.Event)
      requires Valid() && (ev.Join? ==> ev.fd !in out)
      modifies this, list, list.Repr
      ensures Valid() && fresh(list.Repr - old(list.Repr))
      ensures State() == B.Step(old(State()), ev)
    {
      match ev {
        case Join(fd, addr) => Connect(fd, addr);
        case Leave(fd) => Disconnect(fd);
      }
    }

    /** A whole run of the event loop. */
    method Serve(evs: seq<B.Event>)
      requires Valid() && State() == B.EMPTY && B.Run(State(), evs)
      modifies this, list, list.Repr
      ensures Valid() && State() == B.After(B.EMPTY, evs)
      ensures B.Descending(list.contents, accepts) && Distinct(list.contents, ById)
    {
      for i := 0 to |evs|
        invariant Valid() && fresh(list.Repr - old(list.Repr))
        invariant B.Run(State(), evs[i..])
        invariant B.After(State(), evs[i..]) == B.After(B.EMPTY, evs)
      {
        assert evs[i..][0] == evs[i] && evs[i..][1..] == evs[i + 1..];
        Handle(evs[i]);
      }
      assert B.Descending(list.contents, accepts) && Distinct(list.contents, ById) by { B.IdsThroughout(evs); }
    }
  }

  class BroadcastClient {
    const list: OnlineList

    ghost predicate Valid()
      reads this, list, list.Repr
    {
      list.Valid() && this !in list.Repr
    }

    constructor ()
      ensures Valid() && fresh(list.Repr) && list.contents == []
    {
      list := new OnlineList();
    }

    /** receive_from_server: reads records of t from position i up to the end of
        a snapshot, or of the stream. */
    method ReceiveFromServer(t: seq<B.Rec>, i: nat) returns (j: nat)
      requires Valid() && i < |t|
      modifies list, list.Repr
      ensures Valid() && fresh(list.Repr - old(list.Repr))
      ensures i < j <= |t| && (j < |t| ==> t[j - 1].last)
      ensures B.Consume(B.Copy(old(list.contents), true), t[i..j]) == B.Copy(list.contents, t[j - 1].last)
    {
      var flag := true;
      j := i;
      ghost var c := B.Copy(list.contents, true);
      while j < |t|
        invariant Valid() && fresh(list.Repr - old(list.Repr))
        invariant i <= j <= |t| && (flag <==> j == i)
        invariant B.Consume(c, t[i..j]) == B.Copy(list.contents, flag)
      {
        B.ConsumeOneMore(c, t, i, j);
        if flag {
          flag := false;
          list.DestroyList();
        }
        list.AddList(t[j].entry);
        assert B.Consume(c, t[i..j + 1]) == B.Copy(list.contents, t[j].last);
        j := j + 1;
        if t[j - 1].last {
          break;
        }
      }
    }

    /** The receiving thread, until the stream is used up. */
    method ServerCon(t: seq<B.Rec>)
      requires Valid()
      modifies list, list.Repr
      ensures Valid()
      ensures list.contents == B.Consume(B.Copy(old(list.contents), true), t).list
    {
      var i := 0;
      ghost var c := B.Copy(list.contents, true);
      while i < |t|
        invariant Valid() && fresh(list.Repr - old(list.Repr))
        invariant i <= |t|
        invariant B.Consume(c, t[..i]).list == list.contents
        invariant i < |t| ==> B.Consume(c, t[..i]).flag
      {
        ghost var k := i;
        ghost var before := list.contents;
        i := ReceiveFromServer(t, i);
        assert t[..i] == t[..k] + t[k..i];
        B.ConsumeConcat(c, t[..k], t[k..i]);
      }
      assert t[..|t|] == t;
    }

    /** search: the node a message to `id` is addressed from. */
    method Search(id: int) returns (p: Node?)
      requires Valid()
      ensures p == null <==> Find(list.contents, id, ById) == None
      ensures p != null ==> Find(list.contents, id, ById) == Some(p.entry)
    {
      p := list.SearchList(id, ById);
    }
  }
}
