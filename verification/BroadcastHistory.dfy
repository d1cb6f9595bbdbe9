/** Who is on the list of UNIX-8-11/TCP_UDP and what each client has been sent,
    in terms of the events alone. */
module BroadcastHistory {
  import opened Presence
  import opened Broadcast

  /** The client that joined with event i has not left before event m. */
  ghost predicate Stays(evs: seq<Event>, i: int, m: int) {
    0 <= i < m <= |evs| && evs[i].Join? && forall j :: i < j < m ==> evs[j] != Leave(evs[i].fd)
  }

  /** e joined with event i and is still there. */
  ghost predicate JoinedAt(evs: seq<Event>, i: int, e: Entry) {
    Stays(evs, i, |evs|) && evs[i] == Join(e.fd, e.addr)
  }

  ghost predicate Listed(l: seq<Entry>, ev: Event) {
    ev.Join? && exists e :: e in l && e.fd == ev.fd && e.addr == ev.addr
  }

  /** On the list are exactly those that have joined and not left. */
  ghost predicate Members(evs: seq<Event>, l: seq<Entry>) {
    && (forall e :: e in l ==> exists i :: JoinedAt(evs, i, e))
    && (forall i :: Stays(evs, i, |evs|) ==> Listed(l, evs[i]))
  }

  /** No descriptor joins twice, as the server closes none. */
  ghost predicate NoRejoin(evs: seq<Event>) {
    forall i, j :: 0 <= i < j < |evs| && evs[i].Join? && evs[j].Join? ==> evs[i].fd != evs[j].fd
  }

  /** Of two clients on the list the later has the larger id. */
  ghost predicate InJoinOrder(evs: seq<Event>, l: seq<Entry>) {
    forall e, f, i, j :: e in l && f in l && JoinedAt(evs, i, e) && JoinedAt(evs, j, f) && i < j ==> e.id < f.id
  }

  lemma StaysOneMore(evs: seq<Event>, ev: Event, i: int)
    requires 0 <= i < |evs|
    ensures (evs + [ev])[i] == evs[i]
    ensures Stays(evs + [ev], i, |evs| + 1) <==> Stays(evs, i, |evs|) && ev != Leave(evs[i].fd)
  {
    var all := evs + [ev];
    assert all[|evs|] == ev;
    assert forall j :: 0 <= j < |evs| ==> all[j] == evs[j];
  }

  lemma MembersJoin(evs: seq<Event>, l: seq<Entry>, ev: Event, e: Entry)
    requires Members(evs, l) && ev == Join(e.fd, e.addr)
    ensures Members(evs + [ev], [e] + l)
  {
    var all := evs + [ev];
    assert all[|evs|] == ev && ([e] + l)[0] == e;
    forall x | x in [e] + l ensures exists i :: JoinedAt(all, i, x) {
      if x in l {
        var i :| JoinedAt(evs, i, x);
        StaysOneMore(evs, ev, i);
        assert JoinedAt(all, i, x);
      } else {
        assert JoinedAt(all, |evs|, x);
      }
    }
    forall i | Stays(all, i, |all|) ensures Listed([e] + l, all[i]) {
      if i < |evs| {
        StaysOneMore(evs, ev, i);
        assert Listed(l, evs[i]);
      }
    }
  }

  lemma MembersLeave(evs: seq<Event>, l: seq<Entry>, ev: Event, l': seq<Entry>)
    requires Members(evs, l) && ev.Leave?
    requires forall e :: e in l' <==> e in l && e.fd != ev.fd
    ensures Members(evs + [ev], l')
  {
    var all := evs + [ev];
    assert all[|evs|] == ev;
    forall x | x in l' ensures exists i :: JoinedAt(all, i, x) {
      var i :| JoinedAt(evs, i, x);
      StaysOneMore(evs, ev, i);
      assert JoinedAt(all, i, x);
    }
    forall i | Stays(all, i, |all|) ensures Listed(l', all[i]) {
      StaysOneMore(evs, ev, i);
      assert Listed(l, evs[i]);
    }
  }

  /** Who was on the list before the event joined before it. */
  lemma JoinedBefore(evs: seq<Event>, ev: Event, i: int, e: Entry)
    requires NoRejoin(evs + [ev]) && JoinedAt(evs + [ev], i, e) && exists k :: JoinedAt(evs, k, e)
    ensures JoinedAt(evs, i, e)
  {
    var all := evs + [ev];
    var k :| JoinedAt(evs, k, e);
    assert all[k] == evs[k];
    assert i == k;
  }

  lemma OrderJoin(evs: seq<Event>, l: seq<Entry>, ev: Event, e0: Entry)
    requires Members(evs, l) && InJoinOrder(evs, l) && NoRejoin(evs + [ev]) && ev == Join(e0.fd, e0.addr)
    requires forall e :: e in l ==> e.id < e0.id
    ensures InJoinOrder(evs + [ev], [e0] + l)
  {
    var all := evs + [ev];
    assert all[|evs|] == ev;
    forall e, f, i, j | e in [e0] + l && f in [e0] + l && JoinedAt(all, i, e) && JoinedAt(all, j, f) && i < j
      ensures e.id < f.id
    {
      assert all[i] == evs[i] && e != e0;
      JoinedBefore(evs, ev, i, e);
      if f in l {
        JoinedBefore(evs, ev, j, f);
      }
    }
  }

  lemma OrderLeave(evs: seq<Event>, l: seq<Entry>, ev: Event, l': seq<Entry>)
    requires Members(evs, l) && InJoinOrder(evs, l) && NoRejoin(evs + [ev])
    requires forall e :: e in l' ==> e in l
    ensures InJoinOrder(evs + [ev], l')
  {
    var all := evs + [ev];
    forall e, f, i, j | e in l' && f in l' && JoinedAt(all, i, e) && JoinedAt(all, j, f) && i < j
      ensures e.id < f.id
    {
      JoinedBefore(evs, ev, i, e);
      JoinedBefore(evs, ev, j, f);
    }
  }

  ghost predicate JoinsWithin(evs: seq<Event>, fds: set<int>) {
    forall i :: 0 <= i < |evs| && evs[i].Join? ==> evs[i].fd in fds
  }

  lemma NoRejoinMore(evs: seq<Event>, ev: Event, fds: set<int>)
    requires NoRejoin(evs) && JoinsWithin(evs, fds) && (ev.Join? ==> ev.fd !in fds)
    ensures NoRejoin(evs + [ev]) && JoinsWithin(evs + [ev], if ev.Join? then fds + {ev.fd} else fds)
  {
    var all := evs + [ev];
    assert all[|evs|] == ev && forall i :: 0 <= i < |evs| ==> all[i] == evs[i];
  }

  lemma OutGrows(s: State, ev: Event)
    requires Inv(s) && Legal(s, ev)
    ensures Step(s, ev).out.Keys == if ev.Join? then s.out.Keys + {ev.fd} else s.out.Keys
  {
    match ev
    case Join(fd, addr) => JoinSends(s, fd, addr);
    case Leave(fd) => LeaveSends(s, fd);
  }

  /** What an event does to the list, and to the descriptors written to. */
  ghost predicate Changes(l: seq<Entry>, fds: set<int>, ev: Event, l': seq<Entry>, fds': set<int>) {
    match ev
    case Join(fd, addr) =>
      && fd !in fds && fds' == fds + {fd}
      && l' != [] && l'[1..] == l && l'[0].fd == fd && l'[0].addr == addr && forall e :: e in l ==> e.id < l'[0].id
    case Leave(fd) => fds' == fds && forall e :: e in l' <==> e in l && e.fd != fd
  }

  lemma StepChanges(s: State, ev: Event)
    requires Inv(s) && Legal(s, ev)
    ensures Changes(s.list, s.out.Keys, ev, Step(s, ev).list, Step(s, ev).out.Keys)
  {
    StepList(s, ev);
    OutGrows(s, ev);
  }

  lemma ChangedRejoins(evs: seq<Event>, l: seq<Entry>, fds: set<int>, ev: Event, l': seq<Entry>, fds': set<int>)
    requires NoRejoin(evs) && JoinsWithin(evs, fds) && Changes(l, fds, ev, l', fds')
    ensures NoRejoin(evs + [ev]) && JoinsWithin(evs + [ev], fds')
  {
    NoRejoinMore(evs, ev, fds);
  }

  lemma ChangedMembers(evs: seq<Event>, l: seq<Entry>, fds: set<int>, ev: Event, l': seq<Entry>, fds': set<int>)
    requires Members(evs, l) && InJoinOrder(evs, l) && NoRejoin(evs + [ev]) && Changes(l, fds, ev, l', fds')
    ensures Members(evs + [ev], l') && InJoinOrder(evs + [ev], l')
  {
    if ev.Join? {
      assert l' == [l'[0]] + l;
      MembersJoin(evs, l, ev, l'[0]);
      OrderJoin(evs, l, ev, l'[0]);
    } else {
      MembersLeave(evs, l, ev, l');
      OrderLeave(evs, l, ev, l');
    }
  }

  lemma PathChanges(evs: seq<Event>, ss: seq<State>, n: nat)
    requires Path(evs, ss) && ss[0] == EMPTY && n < |evs|
    ensures Changes(ss[n].list, ss[n].out.Keys, evs[n], ss[n + 1].list, ss[n + 1].out.Keys)
  {
    PathInv(evs, ss, n);
    assert Moves(evs, ss, n);
    StepChanges(ss[n], evs[n]);
  }

  lemma {:induction false} PathRejoins(evs: seq<Event>, ss: seq<State>, n: nat)
    requires Path(evs, ss) && ss[0] == EMPTY && n <= |evs|
    ensures NoRejoin(evs[..n]) && JoinsWithin(evs[..n], ss[n].out.Keys)
  {
    if n > 0 {
      var k := n - 1;
      PathRejoins(evs, ss, k);
      PathChanges(evs, ss, k);
      ChangedRejoins(evs[..k], ss[k].list, ss[k].out.Keys, evs[k], ss[n].list, ss[n].out.Keys);
      assert evs[..n] == evs[..k] + [evs[k]];
    }
  }

  lemma {:induction false} PathMembers(evs: seq<Event>, ss: seq<State>, n: nat)
    requires Path(evs, ss) && ss[0] == EMPTY && n <= |evs|
    ensures Members(evs[..n], ss[n].list) && InJoinOrder(evs[..n], ss[n].list)
  {
    if n > 0 {
      var k := n - 1;
      PathMembers(evs, ss, k);
      PathRejoins(evs, ss, n);
      PathChanges(evs, ss, k);
      assert evs[..n] == evs[..k] + [evs[k]];
      ChangedMembers(evs[..k], ss[k].list, ss[k].out.Keys, evs[k], ss[n].list, ss[n].out.Keys);
    }
  }

  /** Over every run the list holds exactly the clients that have joined and not
      left since, each with the address it joined from, and the later of two has
      the larger id, so stands further in front. */
  lemma PresentThroughout(evs: seq<Event>)
    requires Run(EMPTY, evs)
    ensures Members(evs, After(EMPTY, evs).list) && InJoinOrder(evs, After(EMPTY, evs).list)
  {
    RunHasPath(EMPTY, evs);
    PathMembers(evs, States(EMPTY, evs), |evs|);
    assert evs[..|evs|] == evs;
  }

  lemma {:induction false} RunSnoc(s: State, evs: seq<Event>, ev: Event)
    requires Run(s, evs) && Legal(After(s, evs), ev)
    ensures Run(s, evs + [ev])
    decreases |evs|
  {
    var all := evs + [ev];
    if evs == [] {
      assert all[0] == ev && all[1..] == [];
    } else {
      assert all[0] == evs[0] && all[1..] == evs[1..] + [ev];
      RunSnoc(Step(s, evs[0]), evs[1..], ev);
    }
  }

  /** Every run can go on: with a join on any descriptor not used before, and
      with anybody on the list leaving. */
  lemma RunGoesOn(evs: seq<Event>, fd: int, addr: Addr)
    requires Run(EMPTY, evs)
    ensures fd !in After(EMPTY, evs).out ==> Run(EMPTY, evs + [Join(fd, addr)])
    ensures (exists e :: e in After(EMPTY, evs).list && e.fd == fd) ==> Run(EMPTY, evs + [Leave(fd)])
  {
    var s := After(EMPTY, evs);
    if fd !in s.out { RunSnoc(EMPTY, evs, Join(fd, addr)); }
    if exists e :: e in s.list && e.fd == fd { RunSnoc(EMPTY, evs, Leave(fd)); }
  }

  /** What a descriptor has been sent in a run through ss: its client joined with
      event j and was there until event m, or still is; first its own record as
      it stood in front of the list, then the list after each event from j on. */
  ghost predicate Served(evs: seq<Event>, ss: seq<State>, fd: int, j: int, m: int, own: Rec, sent: seq<seq<Entry>>)
    requires |evs| < |ss|
  {
    && Stays(evs, j, m) && evs[j].fd == fd && (m < |evs| ==> evs[m] == Leave(fd))
    && ss[j + 1].list != [] && own == Rec(ss[j + 1].list[0], |ss[j + 1].list| == 1)
    && |sent| == m - j && forall k :: 0 <= k < |sent| ==> sent[k] == ss[j + 1 + k].list
  }

  lemma StaysLonger(evs: seq<Event>, ev: Event, j: int, m: int)
    requires Stays(evs, j, m)
    ensures Stays(evs + [ev], j, m) && (evs + [ev])[j] == evs[j]
    ensures m < |evs| ==> (evs + [ev])[m] == evs[m]
    ensures m == |evs| && ev != Leave(evs[j].fd) ==> Stays(evs + [ev], j, m + 1)
    ensures (evs + [ev])[|evs|] == ev
  {
    var all := evs + [ev];
    assert forall i :: 0 <= i < |evs| ==> all[i] == evs[i];
  }

  lemma ServedStill(evs: seq<Event>, ev: Event, ss: seq<State>, fd: int, j: int, m: int, own: Rec, sent: seq<seq<Entry>>)
    requires |evs| + 1 < |ss| && Served(evs, ss, fd, j, m, own, sent) && (m == |evs| ==> ev == Leave(fd))
    ensures Served(evs + [ev], ss, fd, j, m, own, sent)
  {
    StaysLonger(evs, ev, j, m);
  }

  lemma ServedMore(evs: seq<Event>, ev: Event, ss: seq<State>, fd: int, j: int, own: Rec, sent: seq<seq<Entry>>)
    requires |evs| + 1 < |ss| && Served(evs, ss, fd, j, |evs|, own, sent) && ev != Leave(fd)
    ensures Served(evs + [ev], ss, fd, j, |evs| + 1, own, sent + [ss[|evs| + 1].list])
  {
    StaysLonger(evs, ev, j, |evs|);
  }

  /** Whoever has been served up to now is on the list unless it leaves. */
  lemma ListedIff(evs: seq<Event>, ev: Event, l: seq<Entry>, fd: int, j: int, m: int)
    requires Members(evs + [ev], l) && NoRejoin(evs + [ev])
    requires Stays(evs, j, m) && evs[j].fd == fd && (m < |evs| ==> evs[m] == Leave(fd))
    ensures fd in Fds(l) <==> m == |evs| && ev != Leave(fd)
  {
    var all := evs + [ev];
    StaysLonger(evs, ev, j, m);
    if fd in Fds(l) {
      var e :| e in l && e.fd == fd;
      var i :| JoinedAt(all, i, e);
      assert i == j;
    }
    if m == |evs| && ev != Leave(fd) {
      assert Listed(l, all[j]);
    }
  }

  ghost predicate IsServed(evs: seq<Event>, ss: seq<State>, s: State, fd: int)
    requires |evs| < |ss|
  {
    && fd in s.out && s.out[fd] != [] && fd in s.sent
    && exists j, m :: Served(evs, ss, fd, j, m, s.out[fd][0], s.sent[fd])
  }

  lemma OneServed(evs: seq<Event>, ev: Event, ss: seq<State>, s: State, fd: int)
    requires Inv(s) && Legal(s, ev) && fd in s.out && |evs| + 1 < |ss| && IsServed(evs, ss, s, fd)
    requires Members(evs + [ev], Step(s, ev).list) && NoRejoin(evs + [ev])
    requires ss[|evs| + 1] == Step(s, ev)
    ensures IsServed(evs + [ev], ss, Step(s, ev), fd)
  {
    var s', own := Step(s, ev), s.out[fd][0];
    var j, m :| Served(evs, ss, fd, j, m, own, s.sent[fd]);
    StepSends(s, ev, fd);
    ListedIff(evs, ev, s'.list, fd, j, m);
    if m == |evs| && ev != Leave(fd) {
      ServedMore(evs, ev, ss, fd, j, own, s.sent[fd]);
    } else {
      assert s.sent[fd] + [] == s.sent[fd];
      ServedStill(evs, ev, ss, fd, j, m, own, s.sent[fd]);
    }
  }

  lemma JoinerServed(evs: seq<Event>, ev: Event, ss: seq<State>, s: State)
    requires Inv(s) && Legal(s, ev) && ev.Join? && |evs| + 1 < |ss| && ss[|evs| + 1] == Step(s, ev)
    ensures IsServed(evs + [ev], ss, Step(s, ev), ev.fd)
  {
    var s', all := Step(s, ev), evs + [ev];
    JoinSends(s, ev.fd, ev.addr);
    assert all[|evs|] == ev;
    assert Served(all, ss, ev.fd, |evs|, |evs| + 1, s'.out[ev.fd][0], s'.sent[ev.fd]);
  }

  lemma StepServes(evs: seq<Event>, ev: Event, ss: seq<State>, s: State, fd: int)
    requires Inv(s) && Legal(s, ev) && |evs| + 1 < |ss| && ss[|evs| + 1] == Step(s, ev)
    requires Members(evs + [ev], Step(s, ev).list) && NoRejoin(evs + [ev])
    requires fd in Step(s, ev).out && (fd in s.out ==> IsServed(evs, ss, s, fd))
    ensures IsServed(evs + [ev], ss, Step(s, ev), fd)
  {
    OutGrows(s, ev);
    if fd in s.out { OneServed(evs, ev, ss, s, fd); } else { JoinerServed(evs, ev, ss, s); }
  }

  lemma {:induction false} PathServes(evs: seq<Event>, ss: seq<State>, n: nat, fd: int)
    requires Path(evs, ss) && ss[0] == EMPTY && n <= |evs| && fd in ss[n].out
    ensures IsServed(evs[..n], ss, ss[n], fd)
  {
    if n > 0 {
      var before, ev, s := evs[..n - 1], evs[n - 1], ss[n - 1];
      assert evs[..n] == before + [ev] && Moves(evs, ss, n - 1);
      PathInv(evs, ss, n - 1);
      PathRejoins(evs, ss, n);
      PathMembers(evs, ss, n);
      if fd in s.out {
        PathServes(evs, ss, n - 1, fd);
      }
      StepServes(before, ev, ss, s, fd);
    }
  }

  lemma PathStreams(evs: seq<Event>, ss: seq<State>, fd: int)
    requires Path(evs, ss) && ss[0] == EMPTY && fd in ss[|evs|].out
    ensures IsServed(evs, ss, ss[|evs|], fd) && ss[|evs|].out[fd][1..] == Flat(ss[|evs|].sent[fd])
  {
    PathServes(evs, ss, |evs|, fd);
    assert evs[..|evs|] == evs;
    PathInv(evs, ss, |evs|);
    StreamIsFlat(ss[|evs|], fd);
  }

  /** The whole stream of every client of every run: its own record as it stood
      when it joined, and then the server's list after each event from its join
      up to its leaving, once each, and nothing more. */
  lemma StreamThroughout(evs: seq<Event>, fd: int)
    requires Run(EMPTY, evs) && fd in After(EMPTY, evs).out
    ensures var s := After(EMPTY, evs);
            IsServed(evs, States(EMPTY, evs), s, fd) && s.out[fd][1..] == Flat(s.sent[fd])
  {
    RunHasPath(EMPTY, evs);
    PathStreams(evs, States(EMPTY, evs), fd);
  }

  lemma StreamIsFlat(s: State, fd: int)
    requires Inv(s) && fd in s.out
    ensures s.out[fd] != [] && fd in s.sent && s.out[fd][1..] == Flat(s.sent[fd])
  {
    assert Stream(s.out[fd], s.sent[fd], fd, s.accepts);
  }
}
