/** Replica agreement: every logged-in client that has drained its connection
    lists exactly its online friends. */
module Agreement {
  import opened Wrappers
  import opened Presence
  import opened Packets
  import opened Database
  import opened ServerSpec
  import opened Cascade
  import opened Sessions

  /** Each session's list holds each online friend once, with the server's own
      entry for it, and nobody else. */
  ghost predicate Agree(s: Srv) {
    forall e :: e in s.online ==>
      && Distinct(View(s.Trace(e.fd)), ById)
      && forall x :: x in View(s.Trace(e.fd)) <==> x in s.online && x.id in Rows(s.db, e.id)
  }

  /** While id n is being introduced: the friends rf have not yet been told
      of n, and n has not yet been told of the friends rn. */
  ghost predicate Hidden(n: int, rf: seq<int>, rn: seq<int>, reader: int, about: int) {
    (about == n && reader in rf) || (reader == n && about in rn)
  }

  ghost predicate Shows(s: Srv, e: Entry, n: int, rf: seq<int>, rn: seq<int>) {
    && Distinct(View(s.Trace(e.fd)), ById)
    && forall x :: x in View(s.Trace(e.fd)) <==>
         x in s.online && x.id in Rows(s.db, e.id) && !Hidden(n, rf, rn, e.id, x.id)
  }

  /** Agreement but for the introductions still to come. */
  ghost predicate AgreeBut(s: Srv, n: int, rf: seq<int>, rn: seq<int>) {
    forall e :: e in s.online ==> Shows(s, e, n, rf, rn)
  }

  lemma NothingPending(s: Srv, n: int)
    ensures AgreeBut(s, n, [], []) <==> Agree(s)
  {
    forall e | e in s.online
      ensures Shows(s, e, n, [], []) <==>
        (Distinct(View(s.Trace(e.fd)), ById) &&
         forall x :: x in View(s.Trace(e.fd)) <==> x in s.online && x.id in Rows(s.db, e.id))
    {
    }
  }

  /** Introductions of an id that is not online need not happen. */
  lemma PendingGone(s: Srv, n: int, rf: seq<int>, rn: seq<int>)
    requires n !in Ids(s.online) && AgreeBut(s, n, rf, rn)
    ensures Agree(s)
  {
    forall e | e in s.online ensures Shows(s, e, n, [], []) {
      assert Shows(s, e, n, rf, rn);
      assert e.id in Ids(s.online);
      forall x | x in s.online ensures Hidden(n, rf, rn, e.id, x.id) <==> Hidden(n, [], [], e.id, x.id) {
        assert x.id in Ids(s.online);
      }
    }
    NothingPending(s, n);
  }

  /** Nor do introductions to a friend that is not online. */
  lemma SkipRow(s: Srv, n: int, rows: seq<int>)
    requires rows != [] && rows[0] !in Ids(s.online) && AgreeBut(s, n, rows, rows)
    ensures AgreeBut(s, n, rows[1..], rows[1..])
  {
    forall e | e in s.online ensures Shows(s, e, n, rows[1..], rows[1..]) {
      assert Shows(s, e, n, rows, rows);
      assert e.id in Ids(s.online);
      forall x | x in s.online
        ensures Hidden(n, rows, rows, e.id, x.id) <==> Hidden(n, rows[1..], rows[1..], e.id, x.id)
      {
        assert x.id in Ids(s.online);
        assert forall y :: y in rows <==> y == rows[0] || y in rows[1..];
      }
    }
  }

  lemma SurvivorShows(s: Srv, s': Srv, e: Entry, id: int, n: int, rf: seq<int>, rn: seq<int>)
    requires s'.db == s.db && s'.online == Without(s.online, Lost(s, s'))
    requires Shows(s, e, n, rf, rn)
    requires Told(s.Trace(e.fd), s'.Trace(e.fd), News(s.db, e.id, Lost(s, s'), [], id))
    ensures Shows(s', e, n, rf, rn)
  {
    ViewTold(s.Trace(e.fd), s'.Trace(e.fd), News(s.db, e.id, Lost(s, s'), [], id));
  }

  /** A cascade in the middle of introductions keeps what agreement there is. */
  lemma ExactKeepsAgreement(net: Net, s: Srv, s': Srv, id: int, closed: set<int>,
                            n: int, rf: seq<int>, rn: seq<int>)
    requires Exact(net, s, s', [], id, closed) && AgreeBut(s, n, rf, rn)
    ensures AgreeBut(s', n, rf, rn)
  {
    forall e | e in s'.online ensures Shows(s', e, n, rf, rn) {
      SurvivorShows(s, s', e, id, n, rf, rn);
    }
  }

  /** The list of a reader that is not written to does not change, and neither
      does that of one that gets a packet about nobody. */
  lemma PutKeepsAgreement(s: Srv, s1: Srv, fd: int, p: Packet, n: int, rf: seq<int>, rn: seq<int>)
    requires Put(s, s1, fd, p) && !p.OnlineNote? && !p.OfflineNote?
    requires AgreeBut(s, n, rf, rn)
    ensures AgreeBut(s1, n, rf, rn)
  {
    PutGrows(s, s1, fd, p);
    ViewSnoc(s.Trace(fd), p);
    forall e | e in s1.online ensures Shows(s1, e, n, rf, rn) {
      assert Shows(s, e, n, rf, rn);
      assert View(s1.Trace(e.fd)) == View(s.Trace(e.fd));
    }
  }

  /** Writing a packet about nobody keeps agreement whatever its outcome. */
  lemma WriteKeepsAgreement(net: Net, s: Srv, fd: int, p: Packet, n: int, rf: seq<int>, rn: seq<int>)
    requires Sane(s) && !p.OnlineNote? && !p.OfflineNote? && AgreeBut(s, n, rf, rn)
    ensures AgreeBut(WriteServer(net, s, fd, p).0, n, rf, rn)
  {
    WriteEffect(net, s, fd, p);
    var (s1, ok) := WriteServer(net, s, fd, p);
    if ok {
      PutKeepsAgreement(s, s1, fd, p, n, rf, rn);
    } else {
      ExactKeepsAgreement(net, s, s1, SessionOf(s.online, fd), {fd}, n, rf, rn);
    }
  }

  lemma IntroducedShows(s: Srv, s1: Srv, to: Entry, about: Entry,
                        n: int, rf: seq<int>, rn: seq<int>, rf': seq<int>, rn': seq<int>)
    requires Put(s, s1, to.fd, OnlineNote(about)) && Shows(s, to, n, rf, rn)
    requires about in s.online && about.id in Rows(s.db, to.id) && Hidden(n, rf, rn, to.id, about.id)
    requires forall x :: x in s.online && x.id == about.id ==> x == about
    requires forall b :: Hidden(n, rf', rn', to.id, b) <==> Hidden(n, rf, rn, to.id, b) && b != about.id
    ensures Shows(s1, to, n, rf', rn')
  {
    var l := View(s.Trace(to.fd));
    ViewSnoc(s.Trace(to.fd), OnlineNote(about));
    assert View(s1.Trace(to.fd)) == [about] + l;
    assert forall x :: x in l ==> x.id != about.id;
    DistinctPrepend(about, l, ById);
  }

  /** A delivered introduction of `about` to `to` settles exactly that pair. */
  lemma Introduce(s: Srv, s1: Srv, to: Entry, about: Entry,
                  n: int, rf: seq<int>, rn: seq<int>, rf': seq<int>, rn': seq<int>)
    requires Sane(s) && to in s.online && about in s.online
    requires Put(s, s1, to.fd, OnlineNote(about))
    requires AgreeBut(s, n, rf, rn) && about.id in Rows(s.db, to.id)
    requires Hidden(n, rf, rn, to.id, about.id)
    requires forall a, b :: Hidden(n, rf', rn', a, b) <==> Hidden(n, rf, rn, a, b) && !(a == to.id && b == about.id)
    ensures AgreeBut(s1, n, rf', rn')
  {
    DistinctUnique(s.online, ById);
    DistinctUnique(s.online, ByFd);
    forall e | e in s1.online ensures Shows(s1, e, n, rf', rn') {
      assert Shows(s, e, n, rf, rn);
      if e == to {
        IntroducedShows(s, s1, to, about, n, rf, rn, rf', rn');
      } else {
        assert s1.Trace(e.fd) == s.Trace(e.fd);
      }
    }
  }

  /** Only writes to fd can fail. */
  ghost predicate OnlyTo(net: Net, fd: int) {
    forall k: nat, g, p :: g != fd ==> !net(k, g, p)
  }

  /** In the loop of login_action, a session that must be kept is: either it
      hears whatever it is told, or nobody else can be dropped. */
  ghost predicate KeepsNewcomer(net: Net, fd: int) {
    Hears(net, fd) || OnlyTo(net, fd)
  }

  lemma RowsSplit(n: int, rows: seq<int>, f: int)
    requires NoDup(rows) && rows != [] && rows[0] == f && f != n
    ensures forall a, b :: Hidden(n, rows[1..], rows, a, b) <==> Hidden(n, rows, rows, a, b) && !(a == f && b == n)
    ensures forall a, b :: Hidden(n, rows[1..], rows[1..], a, b) <==>
      Hidden(n, rows[1..], rows, a, b) && !(a == n && b == f)
    ensures Hidden(n, rows, rows, f, n) && Hidden(n, rows[1..], rows, n, f)
  {
    assert rows == [f] + rows[1..];
    assert forall x :: x in rows <==> x == f || x in rows[1..];
  }

  /** The two outcomes of writing p to the descriptor of the session e. */
  lemma SessionWrite(net: Net, s: Srv, e: Entry, p: Packet)
    requires Sane(s) && e in s.online
    ensures var (s1, ok) := WriteServer(net, s, e.fd, p);
            && Sane(s1) && Shed(s, s1)
            && (ok ==> Put(s, s1, e.fd, p))
            && (!ok ==> Exact(net, s, s1, [], e.id, {e.fd}) && e.id !in Ids(s1.online))
            && (ok <==> !net(s.clock, e.fd, p))
  {
    DistinctUnique(s.online, ByFd);
    NoFdNoSession(s, e.fd);
    WriteEffect(net, s, e.fd, p);
    var (s1, ok) := WriteServer(net, s, e.fd, p);
    if !ok {
      ExactSheds(net, s, s1, e.id, {e.fd});
    }
  }

  /** A write to a session that does not fail. */
  lemma SessionPut(net: Net, s: Srv, e: Entry, p: Packet)
    requires Sane(s) && e in s.online && !net(s.clock, e.fd, p)
    ensures Put(s, WriteServer(net, s, e.fd, p).0, e.fd, p) && WriteServer(net, s, e.fd, p).1
    ensures Sane(WriteServer(net, s, e.fd, p).0)
  {
  }

  /** A friend of the loop that could be told of the newcomer. */
  lemma FriendTold(s: Srv, s1: Srv, rows: seq<int>, me: Entry, friend: Entry)
    requires Sane(s) && me in s.online && NoDup(rows) && rows != []
    requires friend in s.online && friend.id == rows[0] && friend.id in Rows(s.db, me.id)
    requires AgreeBut(s, me.id, rows, rows) && Put(s, s1, friend.fd, OnlineNote(me))
    ensures AgreeBut(s1, me.id, rows[1..], rows)
  {
    RowsSplit(me.id, rows, friend.id);
    Introduce(s, s1, friend, me, me.id, rows, rows, rows[1..], rows);
  }

  /** A session whose write fails is dropped, with what agreement there was. */
  lemma SessionDrop(net: Net, s: Srv, e: Entry, p: Packet, n: int, rf: seq<int>, rn: seq<int>)
    requires Sane(s) && e in s.online && AgreeBut(s, n, rf, rn)
    requires !WriteServer(net, s, e.fd, p).1
    ensures var s1 := WriteServer(net, s, e.fd, p).0;
            && Sane(s1) && s1.db == s.db && e.id !in Ids(s1.online)
            && AgreeBut(s1, n, rf, rn) && net(s.clock, e.fd, p)
            && (forall x :: x in s.online && x.id != e.id && Hears(net, x.fd) ==> x in s1.online)
  {
    SessionWrite(net, s, e, p);
    ExactKeepsAgreement(net, s, WriteServer(net, s, e.fd, p).0, e.id, {e.fd}, n, rf, rn);
  }

  /** The friend just told, introduced to the newcomer in turn. */
  lemma NewcomerTold(s: Srv, s1: Srv, rows: seq<int>, me: Entry, friend: Entry)
    requires Sane(s) && me in s.online && NoDup(rows) && rows != []
    requires friend in s.online && friend.id == rows[0] && friend.id in Rows(s.db, me.id)
    requires AgreeBut(s, me.id, rows[1..], rows) && Put(s, s1, me.fd, OnlineNote(friend))
    ensures AgreeBut(s1, me.id, rows[1..], rows[1..])
  {
    RowsSplit(me.id, rows, friend.id);
    Introduce(s, s1, me, friend, me.id, rows[1..], rows, rows[1..], rows[1..]);
  }

  lemma KeptHears(net: Net, s: Srv, me: Entry, f: Entry, p: Packet)
    requires Distinct(s.online, ByFd) && me in s.online && f in s.online && me != f
    requires KeepsNewcomer(net, me.fd) && net(s.clock, f.fd, p)
    ensures Hears(net, me.fd)
  {
    DistinctUnique(s.online, ByFd);
  }

  /** The first write of a round, delivered. */
  lemma FriendAccepts(net: Net, s: Srv, rows: seq<int>, me: Entry, f: Entry)
    requires Sane(s) && me in s.online && NoDup(rows) && rows != []
    requires f in s.online && f.id == rows[0] && f.id in Rows(s.db, me.id)
    requires AgreeBut(s, me.id, rows, rows) && WriteServer(net, s, f.fd, OnlineNote(me)).1
    ensures var s1 := WriteServer(net, s, f.fd, OnlineNote(me)).0;
            Sane(s1) && s1.db == s.db && s1.online == s.online && AgreeBut(s1, me.id, rows[1..], rows)
  {
    SessionWrite(net, s, f, OnlineNote(me));
    FriendTold(s, WriteServer(net, s, f.fd, OnlineNote(me)).0, rows, me, f);
  }

  /** The first write of a round, failed. */
  lemma FriendRefuses(net: Net, s: Srv, rows: seq<int>, me: Entry, f: Entry)
    requires Sane(s) && me in s.online && NoDup(rows) && rows != []
    requires f in s.online && f.id == rows[0] && f.id in Rows(s.db, me.id)
    requires AgreeBut(s, me.id, rows, rows) && KeepsNewcomer(net, me.fd)
    requires !WriteServer(net, s, f.fd, OnlineNote(me)).1
    ensures var s1 := WriteServer(net, s, f.fd, OnlineNote(me)).0;
            Sane(s1) && s1.db == s.db && me in s1.online && AgreeBut(s1, me.id, rows[1..], rows[1..])
  {
    SessionDrop(net, s, f, OnlineNote(me), me.id, rows, rows);
    KeptHears(net, s, me, f, OnlineNote(me));
    SkipRow(WriteServer(net, s, f.fd, OnlineNote(me)).0, me.id, rows);
  }

  /** One round of the loop: either the loop goes on with one introduction
      fewer to make, or the newcomer has been dropped and none is left. */
  lemma GreetOneAgrees(net: Net, s: Srv, rows: seq<int>, me: Entry)
    requires Sane(s) && me in s.online && NoDup(rows) && rows != []
    requires rows[0] in Rows(s.db, me.id)
    requires AgreeBut(s, me.id, rows, rows) && KeepsNewcomer(net, me.fd)
    ensures var (s1, on) := GreetOne(net, s, rows[0], me);
            && Sane(s1) && s1.db == s.db
            && (on ==> me in s1.online && AgreeBut(s1, me.id, rows[1..], rows[1..]))
            && (!on ==> Agree(s1))
  {
    var friend := Find(s.online, rows[0], ById);
    if friend.None? {
      SkipRow(s, me.id, rows);
    } else if !WriteServer(net, s, friend.value.fd, OnlineNote(me)).1 {
      FriendRefuses(net, s, rows, me, friend.value);
    } else {
      FriendAccepts(net, s, rows, me, friend.value);
      GreetBackAgrees(net, WriteServer(net, s, friend.value.fd, OnlineNote(me)).0, rows, me, friend.value);
    }
  }

  lemma GreetBackAgrees(net: Net, s: Srv, rows: seq<int>, me: Entry, f: Entry)
    requires Sane(s) && me in s.online && NoDup(rows) && rows != []
    requires f in s.online && f.id == rows[0] && f.id in Rows(s.db, me.id)
    requires AgreeBut(s, me.id, rows[1..], rows)
    ensures var (s1, heard) := WriteServer(net, s, me.fd, OnlineNote(f));
            && Sane(s1) && s1.db == s.db
            && (heard ==> me in s1.online && AgreeBut(s1, me.id, rows[1..], rows[1..]))
            && (!heard ==> Agree(s1))
  {
    var (s1, heard) := WriteServer(net, s, me.fd, OnlineNote(f));
    SessionWrite(net, s, me, OnlineNote(f));
    if heard {
      NewcomerTold(s, s1, rows, me, f);
    } else {
      SessionDrop(net, s, me, OnlineNote(f), me.id, rows[1..], rows);
      PendingGone(s1, me.id, rows[1..], rows);
    }
  }

  lemma {:induction false} GreetAgrees(net: Net, s: Srv, rows: seq<int>, me: Entry)
    requires Sane(s) && me in s.online && NoDup(rows)
    requires forall f :: f in rows ==> f in Rows(s.db, me.id)
    requires AgreeBut(s, me.id, rows, rows) && KeepsNewcomer(net, me.fd)
    ensures Agree(Greet(net, s, rows, me))
    decreases |rows|
  {
    if rows == [] {
      NothingPending(s, me.id);
    } else {
      assert rows[0] in rows;
      GreetOneAgrees(net, s, rows, me);
      var (s1, on) := GreetOne(net, s, rows[0], me);
      if on {
        assert NoDup(rows[1..]);
        GreetAgrees(net, s1, rows[1..], me);
      }
    }
  }

  /** The newcomer has been dropped, and its connection is closed. */
  ghost predicate Gone(s: Srv, me: Entry) {
    me.id !in Ids(s.online) && me.fd !in s.open
  }

  /** A round that begins without the newcomer and yet delivers its announcement. */
  ghost predicate GhostRound(net: Net, s: Srv, row: int, me: Entry) {
    var friend := Find(s.online, row, ById);
    me.id !in Ids(s.online) && friend.Some? && !net(s.clock, friend.value.fd, OnlineNote(me))
  }

  /** Some round of the loop does. */
  ghost predicate AnnouncesGhost(net: Net, s: Srv, rows: seq<int>, me: Entry)
    decreases |rows|
  {
    rows != [] &&
    (GhostRound(net, s, rows[0], me) ||
     var (s1, on) := GreetOne(net, s, rows[0], me);
     on && AnnouncesGhost(net, s1, rows[1..], me))
  }

  /** A write to a closed descriptor that holds no session changes no list and
      no trace. */
  lemma ClosedWrite(net: Net, s: Srv, fd: int, p: Packet)
    requires fd !in s.open && fd !in Fds(s.online)
    ensures var (s1, ok) := WriteServer(net, s, fd, p);
            !ok && s1.online == s.online && s1.out == s.out
  {
    assert SessionOf(s.online, fd) == -1 by {
      assert forall e :: e in s.online ==> e.fd in Fds(s.online);
    }
  }

  lemma GhostRoundDisagrees(net: Net, s: Srv, row: int, me: Entry)
    requires Sane(s) && Gone(s, me) && GhostRound(net, s, row, me)
    ensures var (s1, on) := GreetOne(net, s, row, me); !on && !Agree(s1)
  {
    var f := Find(s.online, row, ById).value;
    SessionPut(net, s, f, OnlineNote(me));
    var s1 := WriteServer(net, s, f.fd, OnlineNote(me)).0;
    ViewSnoc(s.Trace(f.fd), OnlineNote(me));
    assert me.fd !in Fds(s1.online);
    ClosedWrite(net, s1, me.fd, OnlineNote(f));
    var s2 := GreetOne(net, s, row, me).0;
    assert me in View(s2.Trace(f.fd)) && f in s2.online;
    assert forall e :: e in s.online ==> e.id in Ids(s.online);
  }

  lemma GoneRoundAgrees(net: Net, s: Srv, row: int, me: Entry)
    requires Sane(s) && Agree(s) && Gone(s, me) && !GhostRound(net, s, row, me)
    ensures var (s1, on) := GreetOne(net, s, row, me); on && Sane(s1) && Agree(s1) && Gone(s1, me)
  {
    var friend := Find(s.online, row, ById);
    if friend.Some? {
      var f := friend.value;
      var s1 := WriteServer(net, s, f.fd, OnlineNote(me)).0;
      SessionWrite(net, s, f, OnlineNote(me));
      NothingPending(s, me.id);
      SessionDrop(net, s, f, OnlineNote(me), me.id, [], []);
      NothingPending(s1, me.id);
      assert forall e :: e in s.online ==> e.id in Ids(s.online);
    }
  }

  lemma {:induction false} GoneGreetAgreesIff(net: Net, s: Srv, rows: seq<int>, me: Entry)
    requires Sane(s) && Agree(s) && Gone(s, me)
    ensures Agree(Greet(net, s, rows, me)) <==> !AnnouncesGhost(net, s, rows, me)
    decreases |rows|
  {
    if rows != [] {
      if GhostRound(net, s, rows[0], me) {
        GhostRoundDisagrees(net, s, rows[0], me);
      } else {
        GoneRoundAgrees(net, s, rows[0], me);
        GoneGreetAgreesIff(net, GreetOne(net, s, rows[0], me).0, rows[1..], me);
      }
    }
  }

  /** The first write of a round, failed: the friend is dropped, and the
      newcomer may be dropped with it. */
  lemma FriendLost(net: Net, s: Srv, rows: seq<int>, me: Entry, f: Entry)
    requires Sane(s) && me in s.online && rows != [] && f in s.online && f.id == rows[0]
    requires AgreeBut(s, me.id, rows, rows) && !WriteServer(net, s, f.fd, OnlineNote(me)).1
    ensures var s1 := WriteServer(net, s, f.fd, OnlineNote(me)).0;
            && Sane(s1) && s1.db == s.db
            && (if me in s1.online then AgreeBut(s1, me.id, rows[1..], rows[1..]) else Agree(s1) && Gone(s1, me))
  {
    var s1 := WriteServer(net, s, f.fd, OnlineNote(me)).0;
    SessionWrite(net, s, f, OnlineNote(me));
    SessionDrop(net, s, f, OnlineNote(me), me.id, rows, rows);
    if me in s1.online {
      SkipRow(s1, me.id, rows);
    } else {
      DistinctUnique(s.online, ById);
      PendingGone(s1, me.id, rows, rows);
    }
  }

  /** One round that begins with the newcomer online, whatever writes fail. */
  lemma PresentRound(net: Net, s: Srv, rows: seq<int>, me: Entry)
    requires Sane(s) && me in s.online && NoDup(rows) && rows != []
    requires rows[0] in Rows(s.db, me.id) && AgreeBut(s, me.id, rows, rows)
    ensures var (s1, on) := GreetOne(net, s, rows[0], me);
            && Sane(s1) && s1.db == s.db
            && (on ==> if me in s1.online then AgreeBut(s1, me.id, rows[1..], rows[1..]) else Agree(s1) && Gone(s1, me))
            && (!on ==> Agree(s1))
  {
    var friend := Find(s.online, rows[0], ById);
    if friend.None? {
      SkipRow(s, me.id, rows);
    } else if !WriteServer(net, s, friend.value.fd, OnlineNote(me)).1 {
      FriendLost(net, s, rows, me, friend.value);
    } else {
      FriendAccepts(net, s, rows, me, friend.value);
      GreetBackAgrees(net, WriteServer(net, s, friend.value.fd, OnlineNote(me)).0, rows, me, friend.value);
    }
  }

  lemma {:induction false} GreetAgreesIff(net: Net, s: Srv, rows: seq<int>, me: Entry)
    requires Sane(s) && me in s.online && NoDup(rows) && AgreeBut(s, me.id, rows, rows)
    requires forall f :: f in rows ==> f in Rows(s.db, me.id)
    ensures Agree(Greet(net, s, rows, me)) <==> !AnnouncesGhost(net, s, rows, me)
    decreases |rows|
  {
    if rows == [] {
      NothingPending(s, me.id);
    } else {
      assert rows[0] in rows && me.id in Ids(s.online);
      assert rows[0] in Rows(s.db, me.id);
      PresentRound(net, s, rows, me);
      var (s1, on) := GreetOne(net, s, rows[0], me);
      if on && me in s1.online {
        assert NoDup(rows[1..]);
        GreetAgreesIff(net, s1, rows[1..], me);
      } else if on {
        GoneGreetAgreesIff(net, s1, rows[1..], me);
      }
    }
  }

  /** A newcomer nobody has heard of, and who has heard of nobody. */
  lemma NewcomerPending(s: Srv, s1: Srv, me: Entry)
    requires Consistent(s) && Agree(s)
    requires me.fd in s.open && me.fd !in Fds(s.online) && me.id !in Ids(s.online)
    requires s1 == s.(online := [me] + s.online)
    ensures AgreeBut(s1, me.id, Rows(s.db, me.id), Rows(s.db, me.id))
  {
    var rows := Rows(s.db, me.id);
    assert Unaware(s.Trace(me.fd));
    forall e | e in s1.online ensures Shows(s1, e, me.id, rows, rows) {
      if e != me {
        assert e in s.online && e.id in Ids(s.online);
        assert me.id in Rows(s.db, e.id) ==> e.id in rows;
        forall x | x in s.online ensures x.id != me.id {
          assert x.id in Ids(s.online);
        }
      }
    }
  }

  /** Login restores agreement if the feedback reaches the newcomer and the
      newcomer is not dropped while its friends are being told. */
  lemma AdmitAgrees(net: Net, s: Srv, me: Entry)
    requires Consistent(s) && Agree(s) && 0 < me.id && me.fd in s.watched
    requires me.fd !in Fds(s.online) && me.id !in Ids(s.online)
    requires KeepsNewcomer(net, me.fd) && !net(s.clock, me.fd, LoginFeedback(0))
    ensures Agree(Admit(net, s, me))
  {
    var s1, rows := s.(online := [me] + s.online), Rows(s.db, me.id);
    var s2 := WriteServer(net, s1, me.fd, LoginFeedback(0)).0;
    NewcomerConsistent(s, s1, me);
    NewcomerPending(s, s1, me);
    SessionPut(net, s1, me, LoginFeedback(0));
    WriteConsistent(net, s1, me.fd, LoginFeedback(0));
    PutKeepsAgreement(s1, s2, me.fd, LoginFeedback(0), me.id, rows, rows);
    if me.id in s2.db.tables {
      GreetAgrees(net, s2, rows, me);
    } else {
      DistinctUnique(s2.online, ById);
      DistinctUnique(s2.online, ByFd);
      assert me.id in Ids(s2.online);
      OfflineConsistent(net, s2, me.fd, me.id);
      ExactKeepsAgreement(net, s2, Admit(net, s, me), me.id, {me.fd}, me.id, rows, rows);
      PendingGone(Admit(net, s, me), me.id, rows, rows);
    }
  }

  /** The state in which login_action's loop begins. */
  ghost function Seated(net: Net, s: Srv, me: Entry): Srv {
    WriteServer(net, s.(online := [me] + s.online), me.fd, LoginFeedback(0)).0
  }

  /** The feedback, and the newcomer stays or is dropped again. */
  lemma SeatedFits(net: Net, s: Srv, me: Entry)
    requires Consistent(s) && Agree(s) && 0 < me.id && me.fd in s.watched
    requires me.fd !in Fds(s.online) && me.id !in Ids(s.online)
    ensures var s2, rows := Seated(net, s, me), Rows(s.db, me.id);
            && Consistent(s2) && s2.db == s.db
            && (if me in s2.online then AgreeBut(s2, me.id, rows, rows) else Agree(s2) && Gone(s2, me))
  {
    var s1, s2, rows := s.(online := [me] + s.online), Seated(net, s, me), Rows(s.db, me.id);
    NewcomerConsistent(s, s1, me);
    NewcomerPending(s, s1, me);
    WriteConsistent(net, s1, me.fd, LoginFeedback(0));
    WriteKeepsAgreement(net, s1, me.fd, LoginFeedback(0), me.id, rows, rows);
    if me !in s2.online {
      SessionWrite(net, s1, me, LoginFeedback(0));
      PendingGone(s2, me.id, rows, rows);
    }
  }

  lemma OwnDescriptor(s: Srv, me: Entry)
    requires Sane(s) && (me in s.online || Gone(s, me))
    ensures forall e :: e in s.online ==> (e.id == me.id <==> e.fd == me.fd)
  {
    DistinctUnique(s.online, ById);
    DistinctUnique(s.online, ByFd);
    assert forall e :: e in s.online ==> e.id in Ids(s.online);
  }

  /** Dropping the newcomer for want of a friend table restores agreement. */
  lemma StrangerAgrees(net: Net, s: Srv, me: Entry)
    requires Consistent(s) && me.id !in s.db.tables && 0 < me.id
    requires if me in s.online then AgreeBut(s, me.id, [], []) else Agree(s) && Gone(s, me)
    ensures Agree(OfflineAction(net, s, me.fd, me.id))
  {
    NothingPending(s, me.id);
    OwnDescriptor(s, me);
    OfflineConsistent(net, s, me.fd, me.id);
    ExactKeepsAgreement(net, s, OfflineAction(net, s, me.fd, me.id), me.id, {me.fd}, me.id, [], []);
    NothingPending(OfflineAction(net, s, me.fd, me.id), me.id);
  }

  /** For every pattern of write failures: admitting a newcomer keeps agreement
      if and only if no round of the loop announces it after it was dropped. */
  lemma AdmitAgreesIff(net: Net, s: Srv, me: Entry)
    requires Consistent(s) && Agree(s) && 0 < me.id && me.fd in s.watched
    requires me.fd !in Fds(s.online) && me.id !in Ids(s.online)
    ensures Agree(Admit(net, s, me)) <==> !AnnouncesGhost(net, Seated(net, s, me), Rows(s.db, me.id), me)
  {
    var s2, rows := Seated(net, s, me), Rows(s.db, me.id);
    SeatedFits(net, s, me);
    if me.id !in s2.db.tables {
      StrangerAgrees(net, s2, me);
    } else if me in s2.online {
      GreetAgreesIff(net, s2, rows, me);
    } else {
      GoneGreetAgreesIff(net, s2, rows, me);
    }
  }

  lemma WriteAgrees(net: Net, s: Srv, fd: int, p: Packet)
    requires Sane(s) && !p.OnlineNote? && !p.OfflineNote? && Agree(s)
    ensures Agree(WriteServer(net, s, fd, p).0)
  {
    NothingPending(s, 0);
    WriteKeepsAgreement(net, s, fd, p, 0, [], []);
    NothingPending(WriteServer(net, s, fd, p).0, 0);
  }

  /** Dropping a session, by request or by a failed read or write, restores
      agreement whatever further writes fail. */
  lemma DropAgrees(net: Net, s: Srv, fd: int, id: int)
    requires Consistent(s) && Agree(s) && id == SessionOf(s.online, fd)
    ensures Agree(OfflineAction(net, s, fd, id))
  {
    HangupConsistent(net, s, fd);
    NothingPending(s, 0);
    ExactKeepsAgreement(net, s, OfflineAction(net, s, fd, id), id, {fd}, 0, [], []);
    NothingPending(OfflineAction(net, s, fd, id), 0);
  }

  /** Two friends more, neither told of the other. */
  lemma PairPending(s: Srv, src: int, dst: int)
    requires Sane(s) && Agree(s) && src != dst && dst !in Rows(s.db, src)
    requires src in s.db.tables && dst in s.db.tables
    ensures var s1 := s.(db := InsertPair(s.db, src, dst).0);
            InsertPair(s.db, src, dst).1 && Sane(s1) && AgreeBut(s1, dst, [src], [src])
  {
    InsertPairEffect(s.db, src, dst);
    var s1 := s.(db := InsertPair(s.db, src, dst).0);
    assert src !in Rows(s.db, dst);
    forall e | e in s1.online ensures Shows(s1, e, dst, [src], [src]) {
      assert s1.Trace(e.fd) == s.Trace(e.fd);
      forall x: int
        ensures x in Rows(s.db, e.id) <==> x in Rows(s1.db, e.id) && !Hidden(dst, [src], [src], e.id, x)
      {
      }
    }
  }

  /** The introductions after an acceptance: the asker must hear, the asked
      need not. */
  lemma AnnounceAgrees(net: Net, s: Srv, psrc: Entry, pdst: Entry)
    requires Sane(s) && psrc in s.online && pdst in s.online && psrc.id != pdst.id
    requires pdst.id in Rows(s.db, psrc.id)
    requires AgreeBut(s, pdst.id, [psrc.id], [psrc.id])
    requires !net(s.clock, psrc.fd, OnlineNote(pdst))
    ensures var s1 := WriteServer(net, s, psrc.fd, OnlineNote(pdst)).0;
            Agree(WriteServer(net, s1, pdst.fd, OnlineNote(psrc)).0)
  {
    var s1 := WriteServer(net, s, psrc.fd, OnlineNote(pdst)).0;
    var rows := [psrc.id];
    RowsSplit(pdst.id, rows, psrc.id);
    IntroduceWrite(net, s, psrc, pdst, pdst.id, rows, rows, [], rows);
    var (s2, heard) := WriteServer(net, s1, pdst.fd, OnlineNote(psrc));
    if heard {
      IntroduceWrite(net, s1, pdst, psrc, pdst.id, [], rows, [], []);
      NothingPending(s2, pdst.id);
    } else {
      SessionDrop(net, s1, pdst, OnlineNote(psrc), pdst.id, [], rows);
      PendingGone(s2, pdst.id, [], rows);
    }
  }

  lemma IntroduceWrite(net: Net, s: Srv, to: Entry, about: Entry,
                       n: int, rf: seq<int>, rn: seq<int>, rf': seq<int>, rn': seq<int>)
    requires Sane(s) && to in s.online && about in s.online
    requires WriteServer(net, s, to.fd, OnlineNote(about)).1 || !net(s.clock, to.fd, OnlineNote(about))
    requires AgreeBut(s, n, rf, rn) && about.id in Rows(s.db, to.id)
    requires Hidden(n, rf, rn, to.id, about.id)
    requires forall a, b :: Hidden(n, rf', rn', a, b) <==> Hidden(n, rf, rn, a, b) && !(a == to.id && b == about.id)
    ensures var s1 := WriteServer(net, s, to.fd, OnlineNote(about)).0;
            Sane(s1) && s1.db == s.db && s1.online == s.online && AgreeBut(s1, n, rf', rn')
  {
    SessionWrite(net, s, to, OnlineNote(about));
    Introduce(s, WriteServer(net, s, to.fd, OnlineNote(about)).0, to, about, n, rf, rn, rf', rn');
  }

  /** What an acceptance between two online clients needs of the network: the
      asker gets its answer and its new friend. */
  ghost predicate AskerHears(net: Net, s: Srv, src: int, dst: int) {
    forall e, f, k: nat :: e in s.online && f in s.online && e.id == src && f.id == dst ==>
      !net(k, e.fd, AllowAddf(src, dst, 1)) && !net(k, e.fd, OnlineNote(f))
  }

  /** The answer when the asked is no longer online: any write may fail. */
  lemma AnswerAloneAgrees(net: Net, s: Srv, psrc: Entry, src: int, dst: int)
    requires Sane(s) && psrc in s.online && dst !in Ids(s.online) && AgreeBut(s, dst, [src], [src])
    ensures Agree(WriteServer(net, s, psrc.fd, AllowAddf(src, dst, 1)).0)
  {
    var s1 := WriteServer(net, s, psrc.fd, AllowAddf(src, dst, 1)).0;
    WriteKeepsAgreement(net, s, psrc.fd, AllowAddf(src, dst, 1), dst, [src], [src]);
    SessionWrite(net, s, psrc, AllowAddf(src, dst, 1));
    assert forall e :: e in s.online ==> e.id in Ids(s.online);
    PendingGone(s1, dst, [src], [src]);
  }

  /** The answer and the introductions when both are online. */
  lemma AnswerBothAgrees(net: Net, s: Srv, psrc: Entry, pdst: Entry)
    requires Sane(s) && psrc in s.online && pdst in s.online && psrc.id != pdst.id
    requires pdst.id in Rows(s.db, psrc.id) && AgreeBut(s, pdst.id, [psrc.id], [psrc.id])
    requires forall k: nat :: !net(k, psrc.fd, AllowAddf(psrc.id, pdst.id, 1)) && !net(k, psrc.fd, OnlineNote(pdst))
    ensures Agree(AnnouncePair(net, s, Some(psrc), Some(pdst), psrc.id, pdst.id))
  {
    var answer := AllowAddf(psrc.id, pdst.id, 1);
    SessionPut(net, s, psrc, answer);
    PutKeepsAgreement(s, WriteServer(net, s, psrc.fd, answer).0, psrc.fd, answer, pdst.id, [psrc.id], [psrc.id]);
    AnnounceAgrees(net, WriteServer(net, s, psrc.fd, answer).0, psrc, pdst);
  }

  lemma AnswerAgrees(net: Net, s: Srv, src: int, dst: int)
    requires Sane(s) && src != dst && dst in Rows(s.db, src) && AskerHears(net, s, src, dst)
    requires AgreeBut(s, dst, [src], [src])
    ensures Agree(AnnouncePair(net, s, Find(s.online, src, ById), Find(s.online, dst, ById), src, dst))
  {
    var psrc, pdst := Find(s.online, src, ById), Find(s.online, dst, ById);
    if psrc.None? {
      SkipRow(s, dst, [src]);
      NothingPending(s, dst);
    } else if pdst.None? {
      AnswerAloneAgrees(net, s, psrc.value, src, dst);
    } else {
      AnswerBothAgrees(net, s, psrc.value, pdst.value);
    }
  }

  lemma AcceptedAgrees(net: Net, s: Srv, src: int, dst: int)
    requires Consistent(s) && Agree(s) && AskerHears(net, s, src, dst)
    requires src != dst && src in s.db.tables && dst in s.db.tables
    ensures Agree(AllowAddfAction(net, s, src, dst, 1))
  {
    InsertPairEffect(s.db, src, dst);
    if dst in Rows(s.db, src) {
      var psrc := Find(s.online, src, ById);
      if psrc.Some? { WriteAgrees(net, s, psrc.value.fd, AllowAddf(src, dst, 3)); }
    } else {
      var s1 := s.(db := InsertPair(s.db, src, dst).0);
      PairPending(s, src, dst);
      AnswerAgrees(net, s1, src, dst);
    }
  }

  /** A login announces nobody who has already been dropped. */
  ghost predicate NoGhost(net: Net, s: Srv, fd: int, id: int, password: string, env: LoginEnv) {
    Admits(s, id, password, env) ==>
      var me := Entry(id, fd, env.peer.value);
      !AnnouncesGhost(net, Seated(net, s, me), Rows(s.db, id), me)
  }

  /** What a handler needs to keep agreement. Only a login and an acceptance
      need anything. */
  ghost predicate Dependable(net: Net, s: Srv, ev: Event) {
    match ev
    case Receive(fd, Login(id, password, env)) => NoGhost(net, s, fd, id, password, env)
    case Receive(_, AnswerFriend(src, dst, answer)) => answer == 1 ==> AskerHears(net, s, src, dst)
    case _ => true
  }

  /** A login keeps agreement if and only if it announces no ghost, for every
      pattern of write failures. */
  lemma LoginAgreesIff(net: Net, s: Srv, fd: int, id: int, password: string, env: LoginEnv)
    requires Consistent(s) && Agree(s) && fd in s.watched && fd !in Fds(s.online)
    ensures Agree(LoginAction(net, s, fd, id, password, env)) <==> NoGhost(net, s, fd, id, password, env)
  {
    var row := FindUser(s.db.users, id);
    FindUserIff(s.db.users, id, password);
    assert Find(s.online, id, ById).Some? <==> id in Ids(s.online);
    if !env.dbUp {
      WriteAgrees(net, s, fd, LoginFeedback(-2));
    } else if row.None? || row.value.password != password {
      WriteAgrees(net, s, fd, LoginFeedback(-1));
    } else if Find(s.online, id, ById).Some? {
      WriteAgrees(net, s, fd, LoginFeedback(-3));
    } else if env.peer.None? {
      NoFdNoSession(s, fd);
      DropAgrees(net, s, fd, -1);
    } else {
      assert row.value == User(id, password);
      AdmitAgreesIff(net, s, Entry(id, fd, env.peer.value));
    }
  }

  lemma AskAgrees(net: Net, s: Srv, fd: int, src: int, dst: int)
    requires Consistent(s) && Agree(s)
    ensures Agree(AddFriendAction(net, s, fd, src, dst))
  {
    var pdst := Find(s.online, dst, ById);
    if src !in s.db.tables {
      WriteAgrees(net, s, fd, AllowAddf(src, dst, 3));
    } else if dst in s.db.tables[src] {
      WriteAgrees(net, s, fd, AllowAddf(src, dst, 4));
    } else if pdst.None? {
      WriteAgrees(net, s, fd, AllowAddf(src, dst, 2));
    } else {
      WriteAgrees(net, s, pdst.value.fd, AddFriend(src, dst));
    }
  }

  lemma RegisterAgrees(net: Net, s: Srv, fd: int, password: string, env: RegisterEnv)
    requires Consistent(s) && Agree(s) && HasNewest(s.db, env)
    ensures Agree(RegisterAction(net, s, fd, password, env))
  {
    var (db, id) := RegisterUser(s.db, password, env);
    RegisterEffect(s.db, password, env);
    NewDb(s, db);
    assert forall g :: s.(db := db).Trace(g) == s.Trace(g);
    WriteAgrees(net, s.(db := db), fd, RegisterReply(id));
  }

  /** Every handler keeps agreement. */
  lemma StepAgrees(net: Net, s: Srv, ev: Event)
    requires Consistent(s) && Tabled(s) && Agree(s) && Legal(s, ev) && Dependable(net, s, ev)
    ensures Agree(Step(net, s, ev))
  {
    match ev
    case Accept(fd) =>
      assert forall e :: e in s.online ==> Step(net, s, ev).Trace(e.fd) == s.Trace(e.fd);
    case Hangup(fd) => DropAgrees(net, s, fd, SessionOf(s.online, fd));
    case Receive(fd, req) =>
      match req
      case Register(password, env) => RegisterAgrees(net, s, fd, password, env);
      case Login(id, password, env) => LoginAgreesIff(net, s, fd, id, password, env);
      case Heartbeat =>
      case Offline(id) =>
        DistinctUnique(s.online, ByFd);
        DropAgrees(net, s, fd, id);
      case AskFriend(src, dst) => AskAgrees(net, s, fd, src, dst);
      case AnswerFriend(src, dst, answer) =>
        AnswerIsProper(s, fd, src, dst);
        if answer == 1 {
          AcceptedAgrees(net, s, src, dst);
        } else if answer == 0 && Find(s.online, src, ById).Some? {
          WriteAgrees(net, s, Find(s.online, src, ById).value.fd, AllowAddf(src, dst, 0));
        }
  }

  /** One handler run: what arrives, and how the network treats its writes. */
  datatype Round = Round(ev: Event, net: Net)

  /** A run that the kernel and clients as coded can produce. */
  ghost predicate LegalRun(s: Srv, run: seq<Round>)
    decreases |run|
  {
    run == [] ||
    (Legal(s, run[0].ev) && LegalRun(Step(run[0].net, s, run[0].ev), run[1..]))
  }

  ghost predicate DependableRun(s: Srv, run: seq<Round>)
    requires LegalRun(s, run)
    decreases |run|
  {
    run == [] ||
    (Dependable(run[0].net, s, run[0].ev) && DependableRun(Step(run[0].net, s, run[0].ev), run[1..]))
  }

  ghost function Final(s: Srv, run: seq<Round>): Srv
    requires LegalRun(s, run)
    decreases |run|
  {
    if run == [] then s else Final(Step(run[0].net, s, run[0].ev), run[1..])
  }

  /** Nobody connected; any users, and any symmetric friendships. */
  ghost predicate Initial(s: Srv) {
    s.online == [] && s.open == {} && s.watched == {} && s.out == map[] && DbSane(s.db)
  }

  lemma {:induction false} RunKeeps(s: Srv, run: seq<Round>)
    requires Consistent(s) && Tabled(s) && LegalRun(s, run)
    ensures Consistent(Final(s, run)) && Tabled(Final(s, run))
    ensures Agree(s) && DependableRun(s, run) ==> Agree(Final(s, run))
    decreases |run|
  {
    if run != [] {
      var s1 := Step(run[0].net, s, run[0].ev);
      StepConsistent(run[0].net, s, run[0].ev);
      if Agree(s) && DependableRun(s, run) {
        StepAgrees(run[0].net, s, run[0].ev);
      }
      RunKeeps(s1, run[1..]);
    }
  }

  /** Session consistency over whole runs, with any write failures at all. */
  lemma ConsistentThroughout(s: Srv, run: seq<Round>)
    requires Initial(s) && LegalRun(s, run)
    ensures Consistent(Final(s, run)) && Tabled(Final(s, run))
  {
    RunKeeps(s, run);
  }

  /** Replica agreement over whole runs in which no login announces a ghost and
      each online asker hears that an online client accepts. Any other writes may
      fail. */
  lemma AgreementThroughout(s: Srv, run: seq<Round>)
    requires Initial(s) && LegalRun(s, run) && DependableRun(s, run)
    ensures Agree(Final(s, run))
  {
    RunKeeps(s, run);
  }
}
