/** The list-broadcast server of UNIX-8-11/TCP_UDP and its clients' copies of
    the list, as functions; the classes are in BroadcastNodes.dfy. */
module Broadcast {
  import opened Presence

  /** A C_node as written to a socket: its data, and whether its next was NULL. */
  datatype Rec = Rec(entry: Entry, last: bool)

  /** list is the server's list, out what was written to each descriptor, sent
      the lists broadcast to each descriptor so far, accepts how many clients
      were accepted. */
  datatype State = State(list: seq<Entry>, out: map<int, seq<Rec>>, sent: map<int, seq<seq<Entry>>>, accepts: nat)

  /** All records of a list, as write_cli sends them to one client. */
  function Snapshot(l: seq<Entry>): (r: seq<Rec>)
    ensures |r| == |l|
    ensures forall i :: 0 <= i < |l| ==> r[i] == Rec(l[i], i == |l| - 1)
  {
    seq(|l|, i requires 0 <= i < |l| => Rec(l[i], i == |l| - 1))
  }

  function NextId(l: seq<Entry>): int {
    if l == [] then 1001 else l[0].id + 1
  }

  /** out after every client in `targets` has been sent all of l. */
  function WriteAll(out: map<int, seq<Rec>>, l: seq<Entry>, targets: seq<Entry>): map<int, seq<Rec>>
    decreases |targets|
  {
    if targets == [] then out
    else
      var fd := targets[0].fd;
      var before := if fd in out then out[fd] else [];
      WriteAll(out[fd := before + Snapshot(l)], l, targets[1..])
  }

  function NoteSent(sent: map<int, seq<seq<Entry>>>, l: seq<Entry>): (r: map<int, seq<seq<Entry>>>)
    ensures r.Keys == sent.Keys
    ensures forall fd :: fd in sent ==> r[fd] == if fd in Fds(l) then sent[fd] + [l] else sent[fd]
  {
    map fd | fd in sent.Keys :: if fd in Fds(l) then sent[fd] + [l] else sent[fd]
  }

  /** write_cli, with its record of who was sent what. */
  function WriteCli(s: State): State {
    s.(out := WriteAll(s.out, s.list, s.list), sent := NoteSent(s.sent, s.list))
  }

  /** The server between add_list and write_cli. */
  function Added(s: State, fd: int, addr: Addr): State {
    var l := [Entry(NextId(s.list), fd, addr)] + s.list;
    State(l, s.out[fd := [Rec(l[0], |l| == 1)]], s.sent[fd := []], s.accepts + 1)
  }

  /** A client is accepted on fd: it is added, written its own node, and then
      everybody is written the list. */
  function Connect(s: State, fd: int, addr: Addr): State {
    WriteCli(Added(s, fd, addr))
  }

  /** A read on fd fails or finds the connection closed. */
  function Disconnect(s: State, fd: int): State {
    WriteCli(s.(list := Remove(s.list, fd, ByFd)))
  }

  datatype Event = Join(fd: int, addr: Addr) | Leave(fd: int)

  /** accept returns a descriptor not in use (the server closes none), and only
      a connected client can leave. */
  ghost predicate Legal(s: State, ev: Event) {
    match ev
    case Join(fd, _) => fd !in s.out
    case Leave(fd) => fd in Fds(s.list)
  }

  function Step(s: State, ev: Event): State {
    match ev
    case Join(fd, addr) => Connect(s, fd, addr)
    case Leave(fd) => Disconnect(s, fd)
  }

  ghost predicate Run(s: State, evs: seq<Event>)
    decreases |evs|
  {
    evs == [] || (Legal(s, evs[0]) && Run(Step(s, evs[0]), evs[1..]))
  }

  /** The states of a run: before its first event, and after each. */
  ghost function States(s: State, evs: seq<Event>): (ss: seq<State>)
    requires Run(s, evs)
    ensures |ss| == |evs| + 1 && ss[0] == s
    decreases |evs|
  {
    if evs == [] then [s] else [s] + States(Step(s, evs[0]), evs[1..])
  }

  ghost function After(s: State, evs: seq<Event>): State
    requires Run(s, evs)
  {
    States(s, evs)[|evs|]
  }

  const EMPTY := State([], map[], map[], 0)

  /** Ids strictly descend along the list and lie in 1001..1000 + accepts. */
  ghost predicate Descending(l: seq<Entry>, accepts: nat) {
    && (forall i, j :: 0 <= i < j < |l| ==> l[i].id > l[j].id)
    && (forall i :: 0 <= i < |l| ==> 1001 <= l[i].id <= 1000 + accepts)
  }

  /** The records of several snapshots, one after the other. */
  function Flat(ls: seq<seq<Entry>>): seq<Rec> {
    if ls == [] then [] else Flat(ls[..|ls| - 1]) + Snapshot(ls[|ls| - 1])
  }

  lemma FlatSnoc(ls: seq<seq<Entry>>, l: seq<Entry>)
    ensures Flat(ls + [l]) == Flat(ls) + Snapshot(l)
  {
    assert (ls + [l])[..|ls|] == ls;
  }

  /** What one client was written: its own node, then whole snapshots of lists
      that contain it, each strictly descending. */
  ghost predicate Stream(t: seq<Rec>, ls: seq<seq<Entry>>, fd: int, accepts: nat) {
    && t != [] && t[0].entry.fd == fd && t[1..] == Flat(ls)
    && forall k :: 0 <= k < |ls| ==> Descending(ls[k], accepts) && t[0].entry in ls[k]
  }

  ghost predicate Inv(s: State) {
    && Distinct(s.list, ByFd) && Descending(s.list, s.accepts)
    && s.out.Keys == s.sent.Keys && Fds(s.list) <= s.out.Keys
    && (forall fd :: fd in s.out ==> Stream(s.out[fd], s.sent[fd], fd, s.accepts))
    && (forall e :: e in s.list ==> s.out[e.fd][0].entry == e)
  }

  /** With distinct descriptors, every target is written l exactly once. */
  lemma {:induction false} WriteAllEffect(out: map<int, seq<Rec>>, l: seq<Entry>, targets: seq<Entry>)
    requires Distinct(targets, ByFd) && Fds(targets) <= out.Keys
    ensures WriteAll(out, l, targets).Keys == out.Keys
    ensures forall fd :: fd in out ==>
      WriteAll(out, l, targets)[fd] == if fd in Fds(targets) then out[fd] + Snapshot(l) else out[fd]
    decreases |targets|
  {
    if targets != [] {
      var fd := targets[0].fd;
      assert fd in Fds(targets);
      DistinctTail(targets, ByFd);
      assert Fds(targets) == {fd} + Fds(targets[1..]) by { assert targets == [targets[0]] + targets[1..]; }
      assert fd !in Fds(targets[1..]);
      WriteAllEffect(out[fd := out[fd] + Snapshot(l)], l, targets[1..]);
    }
  }

  lemma StreamGrows(t: seq<Rec>, ls: seq<seq<Entry>>, fd: int, accepts: nat, l: seq<Entry>)
    requires Stream(t, ls, fd, accepts) && Descending(l, accepts) && t[0].entry in l
    ensures Stream(t + Snapshot(l), ls + [l], fd, accepts)
  {
    FlatSnoc(ls, l);
    assert (t + Snapshot(l))[1..] == t[1..] + Snapshot(l) && (t + Snapshot(l))[0] == t[0];
    var more := ls + [l];
    forall k | 0 <= k < |more| ensures Descending(more[k], accepts) && t[0].entry in more[k] {
      if k < |ls| { assert more[k] == ls[k]; }
    }
  }

  lemma ClientWritten(s: State, fd: int, out': seq<Rec>)
    requires Inv(s) && fd in s.out
    requires out' == if fd in Fds(s.list) then s.out[fd] + Snapshot(s.list) else s.out[fd]
    ensures Stream(out', WriteCli(s).sent[fd], fd, s.accepts) && out'[0] == s.out[fd][0]
  {
    if fd in Fds(s.list) {
      var e :| e in s.list && e.fd == fd;
      assert s.out[e.fd][0].entry == e;
      StreamGrows(s.out[fd], s.sent[fd], fd, s.accepts, s.list);
    }
  }

  lemma StreamsWritten(s: State)
    requires Inv(s)
    ensures var s' := WriteCli(s);
            && s'.out.Keys == s.out.Keys
            && forall fd :: fd in s'.out ==>
                 Stream(s'.out[fd], s'.sent[fd], fd, s.accepts) && s'.out[fd][0] == s.out[fd][0]
  {
    var s' := WriteCli(s);
    WriteAllEffect(s.out, s.list, s.list);
    forall fd | fd in s'.out
      ensures Stream(s'.out[fd], s'.sent[fd], fd, s.accepts) && s'.out[fd][0] == s.out[fd][0]
    {
      ClientWritten(s, fd, s'.out[fd]);
    }
  }

  lemma WriteCliKeeps(s: State)
    requires Inv(s)
    ensures Inv(WriteCli(s))
  {
    StreamsWritten(s);
    assert forall e :: e in s.list ==> e.fd in Fds(s.list);
  }

  lemma StreamLater(t: seq<Rec>, ls: seq<seq<Entry>>, fd: int, accepts: nat)
    requires Stream(t, ls, fd, accepts)
    ensures Stream(t, ls, fd, accepts + 1)
  {
    forall k | 0 <= k < |ls| ensures Descending(ls[k], accepts + 1) {
      assert Descending(ls[k], accepts);
    }
  }

  lemma AddedList(l: seq<Entry>, e: Entry, accepts: nat)
    requires Distinct(l, ByFd) && Descending(l, accepts) && e.fd !in Fds(l) && e.id == NextId(l)
    ensures Distinct([e] + l, ByFd) && Descending([e] + l, accepts + 1) && Fds([e] + l) == {e.fd} + Fds(l)
  {
    assert forall x :: x in l ==> x.fd in Fds(l);
    DistinctPrepend(e, l, ByFd);
  }

  lemma AddedKeeps(s: State, fd: int, addr: Addr)
    requires Inv(s) && fd !in s.out
    ensures Inv(Added(s, fd, addr))
  {
    var s1 := Added(s, fd, addr);
    AddedList(s.list, s1.list[0], s.accepts);
    forall g | g in s1.out ensures Stream(s1.out[g], s1.sent[g], g, s1.accepts) {
      if g == fd {
        assert s1.out[g][1..] == [] && s1.sent[g] == [];
      } else {
        StreamLater(s.out[g], s.sent[g], g, s.accepts);
      }
    }
    forall e | e in s1.list ensures s1.out[e.fd][0].entry == e {
      assert e == s1.list[0] || (e in s.list && e.fd in Fds(s.list));
    }
  }

  lemma ConnectKeeps(s: State, fd: int, addr: Addr)
    requires Inv(s) && fd !in s.out
    ensures Inv(Connect(s, fd, addr))
  {
    AddedKeeps(s, fd, addr);
    WriteCliKeeps(Added(s, fd, addr));
  }

  lemma {:induction false} RemoveMembers(l: seq<Entry>, v: int)
    requires Distinct(l, ByFd)
    ensures forall e :: e in Remove(l, v, ByFd) <==> e in l && e.fd != v
    ensures Distinct(Remove(l, v, ByFd), ByFd)
  {
    if l != [] {
      DistinctTail(l, ByFd);
      assert l == [l[0]] + l[1..];
      if l[0].fd != v {
        RemoveMembers(l[1..], v);
        DistinctPrepend(l[0], Remove(l[1..], v, ByFd), ByFd);
      }
    }
  }

  lemma {:induction false} RemoveDescends(l: seq<Entry>, v: int, accepts: nat)
    requires Descending(l, accepts)
    ensures Descending(Remove(l, v, ByFd), accepts)
  {
    if l != [] && l[0].fd != v {
      RemoveDescends(l[1..], v, accepts);
      var r := Remove(l[1..], v, ByFd);
      forall j | 0 <= j < |r| ensures l[0].id > r[j].id {
        assert r[j] in l[1..];
      }
    }
  }

  lemma DisconnectKeeps(s: State, fd: int)
    requires Inv(s)
    ensures Inv(Disconnect(s, fd))
  {
    RemovedKeeps(s, fd);
    WriteCliKeeps(s.(list := Remove(s.list, fd, ByFd)));
  }

  lemma StepKeeps(s: State, ev: Event)
    requires Inv(s) && Legal(s, ev)
    ensures Inv(Step(s, ev))
  {
    match ev
    case Join(fd, addr) => ConnectKeeps(s, fd, addr);
    case Leave(fd) => DisconnectKeeps(s, fd);
  }

  /** ss goes on from its n-th state by the n-th event. */
  ghost predicate Moves(evs: seq<Event>, ss: seq<State>, n: int)
    requires 0 <= n < |evs| && |evs| < |ss|
  {
    Legal(ss[n], evs[n]) && ss[n + 1] == Step(ss[n], evs[n])
  }

  lemma {:induction false} StatesMove(s: State, evs: seq<Event>, n: nat)
    requires Run(s, evs) && n < |evs|
    ensures Moves(evs, States(s, evs), n)
    decreases n
  {
    var s1, rest := Step(s, evs[0]), evs[1..];
    assert States(s1, rest)[0] == s1;
    if n > 0 {
      StatesMove(s1, rest, n - 1);
      MovesShift(evs, s, States(s1, rest), n);
    }
  }

  lemma MovesShift(evs: seq<Event>, s: State, tail: seq<State>, n: int)
    requires 0 < n < |evs| && |tail| == |evs| && Moves(evs[1..], tail, n - 1)
    ensures Moves(evs, [s] + tail, n)
  {
  }

  /** States that go on from each other. */
  ghost predicate Path(evs: seq<Event>, ss: seq<State>) {
    |ss| == |evs| + 1 && forall n :: 0 <= n < |evs| ==> Moves(evs, ss, n)
  }

  /** The states of a run are a path. */
  lemma RunHasPath(s: State, evs: seq<Event>)
    requires Run(s, evs)
    ensures Path(evs, States(s, evs))
  {
    forall n | 0 <= n < |evs| ensures Moves(evs, States(s, evs), n) {
      StatesMove(s, evs, n);
    }
  }

  lemma {:induction false} PathInv(evs: seq<Event>, ss: seq<State>, n: nat)
    requires Path(evs, ss) && Inv(ss[0]) && n <= |evs|
    ensures Inv(ss[n])
  {
    if n > 0 {
      PathInv(evs, ss, n - 1);
      assert Moves(evs, ss, n - 1);
      StepKeeps(ss[n - 1], evs[n - 1]);
    }
  }

  lemma RunKeeps(s: State, evs: seq<Event>)
    requires Inv(s) && Run(s, evs)
    ensures Inv(After(s, evs))
  {
    RunHasPath(s, evs);
    PathInv(evs, States(s, evs), |evs|);
  }

  /** Over any run, ids are unique among online nodes and in range. */
  lemma IdsThroughout(evs: seq<Event>)
    requires Run(EMPTY, evs)
    ensures var s := After(EMPTY, evs);
            Descending(s.list, s.accepts) && Distinct(s.list, ById) && Distinct(s.list, ByFd)
  {
    RunKeeps(EMPTY, evs);
  }

  /** Freed ids are given again: if the newest client leaves and its id was
      the next after its successor's, the next client gets the same id. */
  lemma FreedIdIsReused(s: State)
    requires Inv(s) && s.list != []
    requires s.list[0].id == NextId(s.list[1..])
    ensures NextId(Disconnect(s, s.list[0].fd).list) == s.list[0].id
  {
  }

  /** A client's copy of the list, and whether the next record starts a new one. */
  datatype Copy = Copy(list: seq<Entry>, flag: bool)

  /** One record read by receive_from_server: the first of a snapshot destroys
      the old list, each is prepended, and next == NULL ends the snapshot. */
  function Accept(c: Copy, r: Rec): Copy {
    Copy([r.entry] + if c.flag then [] else c.list, r.last)
  }

  function Consume(c: Copy, t: seq<Rec>): Copy {
    if t == [] then c else Accept(Consume(c, t[..|t| - 1]), t[|t| - 1])
  }

  lemma ConsumeOneMore(c: Copy, t: seq<Rec>, i: nat, j: nat)
    requires i <= j < |t|
    ensures Consume(c, t[i..j + 1]) == Accept(Consume(c, t[i..j]), t[j])
  {
    assert t[i..j + 1][..j - i] == t[i..j];
  }

  lemma {:induction false} ConsumeConcat(c: Copy, t: seq<Rec>, u: seq<Rec>)
    ensures Consume(c, t + u) == Consume(Consume(c, t), u)
    decreases |u|
  {
    if u == [] {
      assert t + u == t;
    } else {
      assert (t + u)[..|t + u| - 1] == t + u[..|u| - 1];
      ConsumeConcat(c, t, u[..|u| - 1]);
    }
  }

  lemma {:induction false} ConsumePart(c: Copy, l: seq<Entry>, n: nat)
    requires c.flag && 0 < n <= |l|
    ensures Consume(c, Snapshot(l)[..n]) == Copy(Reverse(l[..n]), n == |l|)
    decreases n
  {
    var t := Snapshot(l)[..n];
    assert t[..n - 1] == Snapshot(l)[..n - 1];
    if n > 1 {
      ConsumePart(c, l, n - 1);
    } else {
      assert Consume(c, t[..0]) == c;
    }
    assert Reverse(l[..n]) == [l[n - 1]] + Reverse(l[..n - 1]);
  }

  /** A whole snapshot replaces the copy by the reverse of the server's list. */
  lemma ConsumeSnapshot(c: Copy, l: seq<Entry>)
    requires c.flag && l != []
    ensures Consume(c, Snapshot(l)) == Copy(Reverse(l), true)
  {
    ConsumePart(c, l, |l|);
    assert Snapshot(l)[..|l|] == Snapshot(l) && l[..|l|] == l;
  }

  lemma {:induction false} ConsumeFlat(c: Copy, ls: seq<seq<Entry>>)
    requires c.flag && forall k :: 0 <= k < |ls| ==> ls[k] != []
    ensures Consume(c, Flat(ls)) == if ls == [] then c else Copy(Reverse(ls[|ls| - 1]), true)
    decreases |ls|
  {
    if ls != [] {
      var n := |ls| - 1;
      ConsumeFlat(c, ls[..n]);
      ConsumeConcat(c, Flat(ls[..n]), Snapshot(ls[n]));
      ConsumeSnapshot(Consume(c, Flat(ls[..n])), ls[n]);
    }
  }

  ghost predicate Ascending(l: seq<Entry>) {
    forall i, j :: 0 <= i < j < |l| ==> l[i].id < l[j].id
  }

  lemma {:induction false} FlatPrefix(ls: seq<seq<Entry>>, k: nat)
    requires k <= |ls|
    ensures Flat(ls[..k]) <= Flat(ls)
    decreases |ls| - k
  {
    if k < |ls| {
      FlatPrefix(ls, k + 1);
      assert ls[..k + 1][..k] == ls[..k];
    } else {
      assert ls[..k] == ls;
    }
  }

  lemma ReverseAscends(l: seq<Entry>, accepts: nat)
    requires Descending(l, accepts)
    ensures Ascending(Reverse(l)) && forall e :: e in l ==> e in Reverse(l)
  {
    forall e | e in l ensures e in Reverse(l) {
      var i :| 0 <= i < |l| && l[i] == e;
      assert Reverse(l)[|l| - 1 - i] == e;
    }
  }

  /** The copy after the first k+1 snapshots of a stream. */
  ghost predicate Agrees(t: seq<Rec>, ls: seq<seq<Entry>>, k: nat)
    requires k < |ls|
  {
    && t != [] && [t[0]] + Flat(ls[..k + 1]) <= t
    && Consume(Copy([], true), Flat(ls[..k + 1])) == Copy(Reverse(ls[k]), true)
    && Ascending(Reverse(ls[k])) && t[0].entry in Reverse(ls[k])
  }

  lemma StreamAgrees(t: seq<Rec>, ls: seq<seq<Entry>>, fd: int, accepts: nat, k: nat)
    requires Stream(t, ls, fd, accepts) && k < |ls|
    ensures Agrees(t, ls, k)
  {
    FlatPrefix(ls, k + 1);
    assert t == [t[0]] + t[1..];
    ConsumeFlat(Copy([], true), ls[..k + 1]);
    ReverseAscends(ls[k], accepts);
  }

  /** Replica agreement over all runs. A client's first record is its own node.
      After its k-th complete snapshot, however many follow, its copy is the
      reverse of the server's list at that broadcast, strictly ascending in id,
      and contains the client itself. */
  lemma ReplicaAgreement(evs: seq<Event>, fd: int, k: nat)
    requires Run(EMPTY, evs)
    requires fd in After(EMPTY, evs).sent && k < |After(EMPTY, evs).sent[fd]|
    ensures var s := After(EMPTY, evs);
            fd in s.out && s.out[fd] != [] && s.out[fd][0].entry.fd == fd && Agrees(s.out[fd], s.sent[fd], k)
  {
    RunKeeps(EMPTY, evs);
    var s := After(EMPTY, evs);
    StreamAgrees(s.out[fd], s.sent[fd], fd, s.accepts, k);
  }

  lemma LatestSent(s0: State, ev: Event, fd: int)
    requires Inv(s0) && Legal(s0, ev) && fd in Fds(Step(s0, ev).list)
    ensures var s := Step(s0, ev);
            fd in s.sent && s.sent[fd] != [] && s.sent[fd][|s.sent[fd]| - 1] == s.list
  {
    StepKeeps(s0, ev);
  }

  lemma StreamDrained(t: seq<Rec>, ls: seq<seq<Entry>>, fd: int, accepts: nat)
    requires Stream(t, ls, fd, accepts) && ls != []
    ensures Consume(Copy([], true), t[1..]) == Copy(Reverse(ls[|ls| - 1]), true)
  {
    ConsumeFlat(Copy([], true), ls);
  }

  lemma LatestDrained(s0: State, ev: Event, fd: int)
    requires Inv(s0) && Legal(s0, ev) && fd in Fds(Step(s0, ev).list)
    ensures var s := Step(s0, ev);
            fd in s.out && s.out[fd] != [] && Consume(Copy([], true), s.out[fd][1..]) == Copy(Reverse(s.list), true)
  {
    StepKeeps(s0, ev);
    LatestSent(s0, ev, fd);
    var s := Step(s0, ev);
    StreamDrained(s.out[fd], s.sent[fd], fd, s.accepts);
  }

  /** Whoever is connected was part of the latest broadcast: its copy, once
      drained, is the reverse of the present list. */
  lemma DrainedCopyIsCurrent(evs: seq<Event>, ev: Event, fd: int)
    requires Run(EMPTY, evs) && Legal(After(EMPTY, evs), ev)
    requires fd in Fds(Step(After(EMPTY, evs), ev).list)
    ensures var s := Step(After(EMPTY, evs), ev);
            fd in s.out && s.out[fd] != [] && Consume(Copy([], true), s.out[fd][1..]) == Copy(Reverse(s.list), true)
  {
    RunKeeps(EMPTY, evs);
    LatestDrained(After(EMPTY, evs), ev, fd);
  }

  /** What one event does to the list: a client joins in front, with the next id,
      or exactly the client on the descriptor leaves. */
  lemma StepList(s: State, ev: Event)
    requires Inv(s) && Legal(s, ev)
    ensures var id := if s.list == [] then 1001 else s.list[0].id + 1;
            ev.Join? ==> Step(s, ev).list == [Entry(id, ev.fd, ev.addr)] + s.list
    ensures ev.Leave? ==> forall e :: e in Step(s, ev).list <==> e in s.list && e.fd != ev.fd
  {
    if ev.Leave? { RemoveMembers(s.list, ev.fd); }
  }

  /** write_cli: whoever is on the list is sent it once, after what there was. */
  lemma WriteCliSends(s: State, fd: int)
    requires Inv(s) && fd in s.out
    ensures var s' := WriteCli(s);
            var more := if fd in Fds(s.list) then [s.list] else [];
            && fd in s'.out && fd in s'.sent && s'.list == s.list && s'.out.Keys == s.out.Keys
            && s'.out[fd] != [] && s'.out[fd][0] == s.out[fd][0] && s'.sent[fd] == s.sent[fd] + more
  {
    StreamsWritten(s);
  }

  /** What one event sends on a connection there was before. */
  lemma StepSends(s: State, ev: Event, fd: int)
    requires Inv(s) && Legal(s, ev) && fd in s.out
    ensures var s' := Step(s, ev);
            var more := if fd in Fds(s'.list) then [s'.list] else [];
            && fd in s'.out && fd in s'.sent && s'.out[fd] != [] && s'.out[fd][0] == s.out[fd][0]
            && s'.sent[fd] == s.sent[fd] + more
  {
    match ev
    case Join(g, addr) =>
      AddedKeeps(s, g, addr);
      WriteCliSends(Added(s, g, addr), fd);
    case Leave(g) =>
      RemovedKeeps(s, g);
      WriteCliSends(s.(list := Remove(s.list, g, ByFd)), fd);
  }

  lemma RemovedKeeps(s: State, fd: int)
    requires Inv(s)
    ensures Inv(s.(list := Remove(s.list, fd, ByFd)))
  {
    RemoveMembers(s.list, fd);
    RemoveDescends(s.list, fd, s.accepts);
  }

  /** And on the connection of a client that joins: its own record, and the list. */
  lemma JoinSends(s: State, fd: int, addr: Addr)
    requires Inv(s) && fd !in s.out
    ensures var s' := Connect(s, fd, addr);
            && s'.out.Keys == s.out.Keys + {fd} && fd in s'.sent && s'.list != []
            && s'.out[fd] != [] && s'.out[fd][0] == Rec(s'.list[0], |s'.list| == 1) && s'.sent[fd] == [s'.list]
  {
    var s1 := Added(s, fd, addr);
    AddedKeeps(s, fd, addr);
    assert s1.list[0] in s1.list && fd in Fds(s1.list);
    WriteCliSends(s1, fd);
  }

  lemma LeaveSends(s: State, fd: int)
    requires Inv(s)
    ensures Disconnect(s, fd).out.Keys == s.out.Keys
  {
    RemovedKeeps(s, fd);
    StreamsWritten(s.(list := Remove(s.list, fd, ByFd)));
  }
}
