/** login_action ignores the outcome of its feedback write
    (project/server_action.c:114): exactly when a login keeps agreement. */
module LoginDelivery {
  import opened Wrappers
  import opened Presence
  import opened Packets
  import opened Database
  import opened ServerSpec
  import opened Cascade
  import opened Sessions
  import opened Agreement

  /** If no write but those to the newcomer can fail, a loop that begins without
      the newcomer announces it if and only if a friend is online. */
  lemma {:induction false} GhostIffFriendOnline(net: Net, s: Srv, rows: seq<int>, me: Entry)
    requires Sane(s) && Gone(s, me) && OnlyTo(net, me.fd)
    ensures AnnouncesGhost(net, s, rows, me) <==> exists f :: f in rows && f in Ids(s.online)
    decreases |rows|
  {
    if rows != [] {
      var friend := Find(s.online, rows[0], ById);
      if friend.None? {
        GhostIffFriendOnline(net, s, rows[1..], me);
        assert rows[0] !in Ids(s.online);
      } else {
        assert rows[0] in rows && rows[0] in Ids(s.online);
        assert friend.value.fd in s.open;
      }
    }
  }

  /** If the feedback fails and no other descriptor does, exactly the newcomer
      is dropped again. */
  lemma FeedbackLost(net: Net, s: Srv, me: Entry)
    requires Consistent(s) && Agree(s) && 0 < me.id && me.fd in s.watched
    requires me.fd !in Fds(s.online) && me.id !in Ids(s.online)
    requires OnlyTo(net, me.fd) && net(s.clock, me.fd, LoginFeedback(0))
    ensures var s2 := WriteServer(net, s.(online := [me] + s.online), me.fd, LoginFeedback(0)).0;
            && Consistent(s2) && s2.online == s.online && s2.db == s.db && me.fd !in s2.open
            && AgreeBut(s2, me.id, Rows(s.db, me.id), Rows(s.db, me.id))
  {
    var s1, rows := s.(online := [me] + s.online), Rows(s.db, me.id);
    var s2 := WriteServer(net, s1, me.fd, LoginFeedback(0)).0;
    NewcomerConsistent(s, s1, me);
    NewcomerPending(s, s1, me);
    SessionDrop(net, s1, me, LoginFeedback(0), me.id, rows, rows);
    WriteConsistent(net, s1, me.fd, LoginFeedback(0));
    OnlyNewcomerLost(net, s, s1, s2, me);
  }

  lemma DropShape(net: Net, s: Srv, e: Entry, p: Packet)
    requires Sane(s) && e in s.online && e.id !in Ids(WriteServer(net, s, e.fd, p).0.online)
    ensures var s1 := WriteServer(net, s, e.fd, p).0;
            && s1.online == Without(s.online, Lost(s, s1))
            && (forall x :: x in s.online && x.id != e.id && Hears(net, x.fd) ==> x in s1.online)
  {
    SessionWrite(net, s, e, p);
    assert e.id in Ids(s.online);
  }

  lemma OnlyNewcomerLost(net: Net, s: Srv, s1: Srv, s2: Srv, me: Entry)
    requires Consistent(s1) && OnlyTo(net, me.fd) && me.id !in Ids(s.online) && me.fd !in Fds(s.online)
    requires s1 == s.(online := [me] + s.online)
    requires s2 == WriteServer(net, s1, me.fd, LoginFeedback(0)).0 && me.id !in Ids(s2.online)
    requires Shed(s1, s2)
    ensures s2.online == s.online && me.fd !in s2.open
  {
    assert me in s1.online;
    DropShape(net, s1, me, LoginFeedback(0));
    var lost := Lost(s1, s2);
    forall e | e in s.online ensures e.id !in lost {
      assert e in s1.online && e.fd in Fds(s.online) && e.id in Ids(s.online);
      assert Hears(net, e.fd);
      assert e in s2.online;
    }
    assert me.id in lost by { assert me.id in Ids(s1.online); }
    assert s1.online[1..] == s.online;
    WithoutNone(s.online, lost);
  }

  /** The condition in terms of what is known before the call, when only the
      newcomer's descriptor can fail: its feedback is delivered, or no friend of
      the newcomer is online. */
  lemma OwnFailureAgreesIff(net: Net, s: Srv, fd: int, id: int, password: string, env: LoginEnv)
    requires Consistent(s) && Agree(s) && fd in s.watched && fd !in Fds(s.online)
    requires Admits(s, id, password, env) && OnlyTo(net, fd)
    ensures Agree(LoginAction(net, s, fd, id, password, env)) <==>
      (!net(s.clock, fd, LoginFeedback(0)) || forall f :: f in Rows(s.db, id) ==> f !in Ids(s.online))
  {
    var me := Entry(id, fd, env.peer.value);
    LoginAgreesIff(net, s, fd, id, password, env);
    if !net(s.clock, fd, LoginFeedback(0)) {
      AdmitAgrees(net, s, me);
      AdmitAgreesIff(net, s, me);
    } else {
      FeedbackLost(net, s, me);
      GhostIffFriendOnline(net, Seated(net, s, me), Rows(s.db, id), me);
    }
  }

  /** Ids 1 and 2 are friends; 1 is online on descriptor 5, and descriptor 6 is
      connected. */
  function TwoFriends(): Srv {
    Srv([Entry(1, 5, 100)], {5, 6}, {5, 6},
        Db([User(1, "pw"), User(2, "pw")], 3, map[1 := [2], 2 := [1]]),
        map[5 := [], 6 := []], 0)
  }

  lemma TwoFriendsFit()
    ensures var s := TwoFriends();
            Consistent(s) && Tabled(s) && Agree(s) && 1 in Rows(s.db, 2) && Ids(s.online) == {1} && Fds(s.online) == {5}
  {
    var s := TwoFriends();
    assert forall a, b :: b in Rows(s.db, a) <==> (a == 1 && b == 2) || (a == 2 && b == 1);
    assert forall e :: e in s.online <==> e == Entry(1, 5, 100);
  }

  /** A concrete such login: 2 logs in on descriptor 6 and no write to 6 gets
      through. The client of 1 then lists 2, who is not online. */
  lemma GhostLogin()
    ensures var net: Net, ev := (k, fd, p) => fd == 6, Receive(6, Login(2, "pw", LoginEnv(true, Some(200))));
            && Consistent(TwoFriends()) && Tabled(TwoFriends()) && Agree(TwoFriends()) && Legal(TwoFriends(), ev)
            && !Agree(Step(net, TwoFriends(), ev))
  {
    var net: Net := (k, fd, p) => fd == 6;
    var s, env := TwoFriends(), LoginEnv(true, Some(200));
    TwoFriendsFit();
    assert s.db.users[1] == User(2, "pw");
    OwnFailureAgreesIff(net, s, 6, 2, "pw", env);
  }

  /** Id 3 is a friend of 1 and of 2, who are online on descriptors 5 and 6;
      descriptor 7 is connected. */
  function TwoAwait(): Srv {
    Srv([Entry(2, 6, 200), Entry(1, 5, 100)], {5, 6, 7}, {5, 6, 7},
        Db([User(3, "pw")], 4, map[1 := [3], 2 := [3], 3 := [1, 2]]),
        map[5 := [], 6 := [], 7 := []], 0)
  }

  /** Announcements to 5 and news of departures to 7 fail. */
  function TwoWritesFail(): Net {
    (k: nat, fd: int, p: Packet) => (fd == 5 && p.OnlineNote?) || (fd == 7 && p.OfflineNote?)
  }

  lemma AwaitedDb()
    ensures DbSane(TwoAwait().db)
  {
    var db := TwoAwait().db;
    assert Rows(db, 1) == [3] && Rows(db, 2) == [3] && Rows(db, 3) == [1, 2];
    assert forall a :: a !in {1, 2, 3} ==> Rows(db, a) == [];
    forall a, b | b in Rows(db, a) ensures a in Rows(db, b) && a != b {
      assert a in {1, 2, 3};
    }
  }

  lemma TwoAwaitFit()
    ensures Consistent(TwoAwait()) && Tabled(TwoAwait())
    ensures Ids(TwoAwait().online) == {1, 2} && Fds(TwoAwait().online) == {5, 6}
  {
    AwaitedDb();
    var s := TwoAwait();
    assert s.online[0] == Entry(2, 6, 200) && s.online[1] == Entry(1, 5, 100);
    assert forall e :: e in s.online <==> e == Entry(2, 6, 200) || e == Entry(1, 5, 100);
    assert Sane(s);
    forall fd ensures s.Trace(fd) == [] && Unaware([]) {
    }
  }

  lemma TwoAwaitAgree()
    ensures Agree(TwoAwait())
  {
    var s := TwoAwait();
    forall e | e in s.online
      ensures View(s.Trace(e.fd)) == [] && forall x :: x in s.online ==> x.id !in Rows(s.db, e.id)
    {
      assert e == Entry(2, 6, 200) || e == Entry(1, 5, 100);
      assert Rows(s.db, e.id) == [3] && s.Trace(e.fd) == [];
    }
  }

  /** A loop of one row takes a friend along that cannot be told. */
  lemma TellTakesFriend(net: Net, s: Srv, friend: Entry, id: int)
    requires Sane(s) && friend in s.online && forall k: nat :: net(k, friend.fd, OfflineNote(id))
    ensures var s1 := TellOffline(net, s, [friend.id], id);
            friend.id !in Ids(s1.online) && Fds(s1.online) <= Fds(s.online) && s1.watched <= s.watched
  {
    SessionWrite(net, s, friend, OfflineNote(id));
    assert Find(s.online, friend.id, ById) == Some(friend) by { DistinctUnique(s.online, ById); }
    var s1 := TellOne(net, s, friend.id, id);
    assert [friend.id][1..] == [];
    assert TellOffline(net, s, [friend.id], id) == TellOffline(net, s1, [], id) == s1;
  }

  lemma DropTakesFriend(net: Net, s: Srv, e: Entry, friend: Entry)
    requires Sane(s) && e in s.online && friend in s.online && Rows(s.db, e.id) == [friend.id]
    requires forall k: nat :: net(k, friend.fd, OfflineNote(e.id))
    ensures friend.id !in Ids(OfflineAction(net, s, e.fd, e.id).online)
  {
    var s2 := s.(watched := s.watched - {e.fd}, online := Remove(s.online, e.id, ById));
    assert forall x :: x in s.online ==> (x.id == e.id <==> x.fd == e.fd) by {
      DistinctUnique(s.online, ById);
      DistinctUnique(s.online, ByFd);
    }
    RemoveIsWithout(s.online, e.id);
    DropSane(s, s2, e.fd, e.id);
    assert friend in s2.online by { assert friend.id in Rows(s.db, e.id); }
    TellTakesFriend(net, s2, friend, e.id);
    FarewellCloses(net, TellOffline(net, s2, [friend.id], e.id), e.fd);
  }

  /** So does a failed write to the session. */
  lemma FailedWriteTakesFriend(net: Net, s: Srv, e: Entry, friend: Entry, p: Packet)
    requires Sane(s) && e in s.online && friend in s.online && Rows(s.db, e.id) == [friend.id]
    requires net(s.clock, e.fd, p) && forall k: nat :: net(k, friend.fd, OfflineNote(e.id))
    ensures friend.id !in Ids(WriteServer(net, s, e.fd, p).0.online)
  {
    DistinctUnique(s.online, ByFd);
    DropTakesFriend(net, Write(net, s, e.fd, p).0, e, friend);
  }

  /** The loop begins with 3 online. */
  lemma SeatedAmongTwo()
    ensures var s, me := TwoAwait(), Entry(3, 7, 300);
            var s2 := Seated(TwoWritesFail(), s, me);
            Sane(s2) && s2.online == [me] + s.online && s2.db == s.db
  {
    var s, me := TwoAwait(), Entry(3, 7, 300);
    TwoAwaitFit();
    var s1 := s.(online := [me] + s.online);
    NewcomerConsistent(s, s1, me);
    SessionPut(TwoWritesFail(), s1, me, LoginFeedback(0));
  }

  lemma HearerStays(net: Net, s: Srv, e: Entry, p: Packet, x: Entry)
    requires Sane(s) && e in s.online && x in s.online && x.id != e.id && Hears(net, x.fd)
    requires net(s.clock, e.fd, p)
    ensures var s1 := WriteServer(net, s, e.fd, p).0;
            Sane(s1) && Find(s1.online, x.id, ById) == Some(x)
  {
    SessionWrite(net, s, e, p);
    DistinctUnique(WriteServer(net, s, e.fd, p).0.online, ById);
  }

  /** Its first round drops 1 and with it 3, and keeps 2. */
  lemma FirstRoundDropsBoth(s: Srv)
    requires Sane(s) && s.online == [Entry(3, 7, 300), Entry(2, 6, 200), Entry(1, 5, 100)] && s.db == TwoAwait().db
    ensures var (s1, on) := GreetOne(TwoWritesFail(), s, 1, Entry(3, 7, 300));
            on && 3 !in Ids(s1.online) && Find(s1.online, 2, ById) == Some(Entry(2, 6, 200))
  {
    var net, one, two, me := TwoWritesFail(), Entry(1, 5, 100), Entry(2, 6, 200), Entry(3, 7, 300);
    assert s.online[2] == one && s.online[1] == two && s.online[0] == me;
    assert Find(s.online, 1, ById) == Some(one) by { DistinctUnique(s.online, ById); }
    assert Rows(s.db, 1) == [3];
    assert !WriteServer(net, s, 5, OnlineNote(me)).1;
    HearerStays(net, s, one, OnlineNote(me), two);
    FailedWriteTakesFriend(net, s, one, me, OnlineNote(me));
  }

  /** So its second announces 3, who is gone. */
  lemma SecondRoundIsGhost(s: Srv)
    requires Sane(s) && s.online == [Entry(3, 7, 300), Entry(2, 6, 200), Entry(1, 5, 100)] && s.db == TwoAwait().db
    ensures AnnouncesGhost(TwoWritesFail(), s, [1, 2], Entry(3, 7, 300))
  {
    var net, me := TwoWritesFail(), Entry(3, 7, 300);
    FirstRoundDropsBoth(s);
    var s1 := GreetOne(net, s, 1, me).0;
    assert GhostRound(net, s1, 2, me);
    assert [1, 2][0] == 1 && [1, 2][1..] == [2] && [2][0] == 2;
    assert AnnouncesGhost(net, s1, [2], me);
  }

  lemma ThreeLogsIn()
    ensures Admits(TwoAwait(), 3, "pw", LoginEnv(true, Some(300))) && Rows(TwoAwait().db, 3) == [1, 2]
  {
    TwoAwaitFit();
    assert TwoAwait().db.users[0] == User(3, "pw");
  }

  lemma ThreeIsGhost()
    ensures !NoGhost(TwoWritesFail(), TwoAwait(), 7, 3, "pw", LoginEnv(true, Some(300)))
  {
    SeatedAmongTwo();
    SecondRoundIsGhost(Seated(TwoWritesFail(), TwoAwait(), Entry(3, 7, 300)));
    ThreeLogsIn();
  }

  /** The newcomer's feedback is delivered, and yet: the announcement to 1
      fails, so 1 is dropped; the news of it to 3 fails, so 3 is dropped; and the
      loop goes on to announce 3 to 2. */
  lemma GhostAfterCascade()
    ensures var net, ev := TwoWritesFail(), Receive(7, Login(3, "pw", LoginEnv(true, Some(300))));
            && Consistent(TwoAwait()) && Tabled(TwoAwait()) && Agree(TwoAwait()) && Legal(TwoAwait(), ev)
            && (forall k: nat :: !net(k, 7, LoginFeedback(0)))
            && !Agree(Step(net, TwoAwait(), ev))
  {
    TwoAwaitFit();
    TwoAwaitAgree();
    ThreeIsGhost();
    LoginAgreesIff(TwoWritesFail(), TwoAwait(), 7, 3, "pw", LoginEnv(true, Some(300)));
  }
}
