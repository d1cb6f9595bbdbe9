/** Session consistency: what every handler keeps, whatever writes fail. */
module Sessions {
  import opened Wrappers
  import opened Presence
  import opened Packets
  import opened Database
  import opened ServerSpec
  import opened Cascade

  ghost predicate Session(s: Srv, fd: int, id: int) {
    exists e :: e in s.online && e.fd == fd && e.id == id
  }

  /** What the kernel and a client as coded can do next: a new descriptor is not
      an open one, only watched descriptors report, a client registers and logs
      in before its session and once, sends its own id, never asks itself, and
      answers only requests it has received. */
  ghost predicate Legal(s: Srv, ev: Event) {
    match ev
    case Accept(fd) => fd !in s.open
    case Hangup(fd) => fd in s.watched
    case Receive(fd, req) =>
      fd in s.watched &&
      match req
      case Register(_, env) => fd !in Fds(s.online) && HasNewest(s.db, env)
      case Login(_, _, _) => fd !in Fds(s.online)
      case Heartbeat => true
      case Offline(id) => Session(s, fd, id)
      case AskFriend(src, dst) => Session(s, fd, src) && src != dst
      case AnswerFriend(src, dst, _) => AddFriend(src, dst) in s.Trace(fd)
  }

  /** The friend requests in a trace are for its reader, from another id that
      has a friend table. */
  ghost predicate AsksFor(db: Db, id: int, t: seq<Packet>) {
    forall a, b :: AddFriend(a, b) in t ==> b == id && a != b && a in db.tables
  }

  /** A connection without a session has been told nothing about anybody. */
  ghost predicate Unaware(t: seq<Packet>) {
    View(t) == [] && forall a, b :: AddFriend(a, b) !in t
  }

  ghost predicate TracesFit(s: Srv) {
    && (forall e :: e in s.online ==> AsksFor(s.db, e.id, s.Trace(e.fd)))
    && (forall fd :: fd in s.open && fd !in Fds(s.online) ==> Unaware(s.Trace(fd)))
  }

  ghost predicate Tabled(s: Srv) {
    forall e :: e in s.online ==> e.id in s.db.tables
  }

  ghost predicate Consistent(s: Srv) {
    Sane(s) && TracesFit(s)
  }

  /** Sessions only end, and the descriptor of an ended one is in no set. */
  ghost predicate Shed(s: Srv, s': Srv) {
    && s'.db == s.db
    && s'.open <= s.open && s'.watched <= s.watched
    && (forall e :: e in s'.online ==> e in s.online)
    && (forall e :: e in s.online ==> e in s'.online || (e.fd !in s'.open && e.fd !in s'.watched))
  }

  /** s1 is s after a successful write of p to fd. */
  ghost predicate Put(s: Srv, s1: Srv, fd: int, p: Packet) {
    s1 == s.(clock := s.clock + 1, out := s.out[fd := s.Trace(fd) + [p]])
  }

  /** The two outcomes of Write_server. */
  lemma WriteEffect(net: Net, s: Srv, fd: int, p: Packet)
    requires Sane(s)
    ensures var (s1, ok) := WriteServer(net, s, fd, p);
            && (ok ==> Put(s, s1, fd, p) && fd in s.open)
            && (!ok ==> Exact(net, s, s1, [], SessionOf(s.online, fd), {fd}))
            && (!ok ==> fd !in Fds(s1.online) && SessionOf(s.online, fd) !in Ids(s1.online))
            && (ok <==> fd in s.open && !net(s.clock, fd, p))
  {
    var (s1, ok) := WriteServer(net, s, fd, p);
    if !ok {
      WriteFailExact(net, s, fd, p);
      DistinctUnique(s.online, ByFd);
      forall e | e in s1.online ensures e.fd != fd {
        assert e in s.online && e.id in Ids(s1.online);
      }
    }
  }

  lemma ExactSheds(net: Net, s: Srv, s': Srv, id: int, closed: set<int>)
    requires Sane(s) && Exact(net, s, s', [], id, closed) && closed !! Fds(s'.online)
    ensures Sane(s') && Shed(s, s')
  {
    ShrinksSane(s, s', closed);
    forall e | e in s.online && e !in s'.online ensures e.fd !in s'.open && e.fd !in s'.watched {
      assert e.id in Lost(s, s');
      assert e.fd in FdsOf(s.online, Lost(s, s'));
    }
  }

  lemma {:induction false} ToldKeepsAsks(t: seq<Packet>, u: seq<Packet>, ids: set<int>)
    requires Told(t, u, ids)
    ensures forall a, b :: AddFriend(a, b) in u <==> AddFriend(a, b) in t
    decreases |u|
  {
    if |u| > |t| {
      ToldKeepsAsks(t, u[..|u| - 1], ids - {u[|u| - 1].gone});
      assert u == u[..|u| - 1] + [u[|u| - 1]];
    }
  }

  lemma ExactKeepsTraces(net: Net, s: Srv, s': Srv, id: int, closed: set<int>)
    requires Consistent(s) && Exact(net, s, s', [], id, closed) && closed !! Fds(s'.online)
    ensures Consistent(s')
  {
    ExactSheds(net, s, s', id, closed);
    forall e | e in s'.online ensures AsksFor(s'.db, e.id, s'.Trace(e.fd)) {
      ToldKeepsAsks(s.Trace(e.fd), s'.Trace(e.fd), News(s.db, e.id, Lost(s, s'), [], id));
      assert AsksFor(s.db, e.id, s.Trace(e.fd));
    }
    assert forall fd :: fd in s'.open && fd !in Fds(s'.online) ==> fd !in Fds(s.online);
  }

  /** One more packet in the trace of fd, and nothing else. */
  ghost predicate Grown(s: Srv, s1: Srv, fd: int, p: Packet) {
    && s1.online == s.online && s1.open == s.open && s1.watched == s.watched && s1.db == s.db
    && s1.Trace(fd) == s.Trace(fd) + [p]
    && forall g :: g != fd ==> s1.Trace(g) == s.Trace(g)
  }

  lemma PutGrows(s: Srv, s1: Srv, fd: int, p: Packet)
    requires Put(s, s1, fd, p)
    ensures Grown(s, s1, fd, p)
  {
  }

  lemma GrownAsks(s: Srv, s1: Srv, fd: int, p: Packet, e: Entry)
    requires Consistent(s) && Grown(s, s1, fd, p) && e in s.online
    requires p.AddFriend? ==> p.src != p.dst && p.src in s.db.tables
    requires p.AddFriend? ==> exists e :: e in s.online && e.fd == fd && e.id == p.dst
    ensures AsksFor(s1.db, e.id, s1.Trace(e.fd))
  {
    DistinctUnique(s.online, ByFd);
    assert AsksFor(s.db, e.id, s.Trace(e.fd));
  }

  lemma GrownUnaware(s: Srv, s1: Srv, fd: int, p: Packet)
    requires Grown(s, s1, fd, p) && Unaware(s.Trace(fd)) && !p.AddFriend? && !p.OnlineNote?
    ensures Unaware(s1.Trace(fd))
  {
    ViewSnoc(s.Trace(fd), p);
  }

  /** A written packet leaves a session consistent if it is no friend request,
      or a proper one; outside a session, if it also announces nobody. */
  lemma PutKeepsTraces(s: Srv, s1: Srv, fd: int, p: Packet)
    requires Consistent(s) && Put(s, s1, fd, p)
    requires p.AddFriend? ==> p.src != p.dst && p.src in s.db.tables
    requires p.AddFriend? ==> exists e :: e in s.online && e.fd == fd && e.id == p.dst
    requires p.OnlineNote? ==> fd in Fds(s.online)
    ensures Consistent(s1)
  {
    PutGrows(s, s1, fd, p);
    GrownConsistent(s, s1, fd, p);
  }

  lemma GrownConsistent(s: Srv, s1: Srv, fd: int, p: Packet)
    requires Consistent(s) && Grown(s, s1, fd, p)
    requires p.AddFriend? ==> p.src != p.dst && p.src in s.db.tables
    requires p.AddFriend? ==> exists e :: e in s.online && e.fd == fd && e.id == p.dst
    requires p.OnlineNote? ==> fd in Fds(s.online)
    ensures Consistent(s1)
  {
    forall e | e in s1.online ensures AsksFor(s1.db, e.id, s1.Trace(e.fd)) {
      GrownAsks(s, s1, fd, p, e);
    }
    forall g | g in s1.open && g !in Fds(s1.online) ensures Unaware(s1.Trace(g)) {
      assert Unaware(s.Trace(g));
      if g == fd { GrownUnaware(s, s1, fd, p); }
    }
  }

  /** A write, whatever its outcome, keeps consistency and only ends sessions. */
  lemma WriteConsistent(net: Net, s: Srv, fd: int, p: Packet)
    requires Consistent(s) && !p.AddFriend?
    requires p.OnlineNote? ==> fd in Fds(s.online) || fd !in s.open
    ensures var s1 := WriteServer(net, s, fd, p).0; Consistent(s1) && Shed(s, s1)
  {
    WriteEffect(net, s, fd, p);
    var (s1, ok) := WriteServer(net, s, fd, p);
    if ok {
      PutKeepsTraces(s, s1, fd, p);
    } else {
      ExactKeepsTraces(net, s, s1, SessionOf(s.online, fd), {fd});
      ExactSheds(net, s, s1, SessionOf(s.online, fd), {fd});
    }
  }

  /** Offline_action on a descriptor's own session, or on an id with no table. */
  lemma OfflineConsistent(net: Net, s: Srv, fd: int, id: int)
    requires Consistent(s)
    requires (id == -1 && fd !in Fds(s.online))
      || (0 <= id && forall e :: e in s.online ==> (e.id == id <==> e.fd == fd))
    requires 0 <= id ==> id in Ids(s.online) || id !in s.db.tables
    ensures var s' := OfflineAction(net, s, fd, id);
            && Consistent(s') && Shed(s, s') && Exact(net, s, s', [], id, {fd})
            && fd !in Fds(s'.online) && id !in Ids(s'.online)
            && fd !in s'.open && fd !in s'.watched
  {
    var s' := OfflineAction(net, s, fd, id);
    if id == -1 {
      NothingLost(s, s');
      QuietExact(net, s, s', -1, {fd});
    } else {
      OfflineExact(net, s, fd, id);
      if id in Ids(s.online) {
        AbsorbRows(net, s, s', id, {fd});
      }
    }
    forall e | e in s'.online ensures e.fd != fd && e.id != id {
      assert e in s.online && e.id in Ids(s'.online);
    }
    ExactSheds(net, s, s', id, {fd});
    ExactKeepsTraces(net, s, s', id, {fd});
  }

  lemma ShedTwice(s: Srv, s1: Srv, s2: Srv)
    requires Shed(s, s1) && Shed(s1, s2)
    ensures Shed(s, s2)
  {
  }

  lemma GreetOneConsistent(net: Net, s: Srv, row: int, me: Entry)
    requires Consistent(s) && (me in s.online || me.fd !in s.open)
    ensures var s1 := GreetOne(net, s, row, me).0; Consistent(s1) && Shed(s, s1)
  {
    var friend := Find(s.online, row, ById);
    if friend.Some? {
      var (s1, told) := WriteServer(net, s, friend.value.fd, OnlineNote(me));
      WriteConsistent(net, s, friend.value.fd, OnlineNote(me));
      if told {
        WriteConsistent(net, s1, me.fd, OnlineNote(friend.value));
        ShedTwice(s, s1, GreetOne(net, s, row, me).0);
      }
    }
  }

  lemma {:induction false} GreetConsistent(net: Net, s: Srv, rows: seq<int>, me: Entry)
    requires Consistent(s) && (me in s.online || me.fd !in s.open)
    ensures Consistent(Greet(net, s, rows, me)) && Shed(s, Greet(net, s, rows, me))
    decreases |rows|
  {
    if rows != [] {
      var (s1, on) := GreetOne(net, s, rows[0], me);
      GreetOneConsistent(net, s, rows[0], me);
      if on {
        GreetConsistent(net, s1, rows[1..], me);
        ShedTwice(s, s1, Greet(net, s, rows, me));
      }
    }
  }

  lemma NewcomerConsistent(s: Srv, s1: Srv, me: Entry)
    requires Consistent(s) && 0 < me.id && me.fd in s.watched
    requires me.fd !in Fds(s.online) && me.id !in Ids(s.online)
    requires s1 == s.(online := [me] + s.online)
    ensures Consistent(s1)
  {
    DistinctPrepend(me, s.online, ById);
    DistinctPrepend(me, s.online, ByFd);
    assert Unaware(s.Trace(me.fd));
    forall e | e in s1.online ensures AsksFor(s1.db, e.id, s1.Trace(e.fd)) {
      assert e == me || AsksFor(s.db, e.id, s.Trace(e.fd));
    }
    forall fd | fd in s1.open && fd !in Fds(s1.online) ensures Unaware(s1.Trace(fd)) {
      assert forall e :: e in s.online ==> e in s1.online;
    }
  }

  lemma AdmitConsistent(net: Net, s: Srv, me: Entry)
    requires Consistent(s) && 0 < me.id && me.fd in s.watched
    requires me.fd !in Fds(s.online) && me.id !in Ids(s.online)
    ensures var s1, s' := s.(online := [me] + s.online), Admit(net, s, me);
            Consistent(s1) && Consistent(s') && Shed(s1, s') && (me in s'.online ==> me.id in s.db.tables)
  {
    var s1 := s.(online := [me] + s.online);
    NewcomerConsistent(s, s1, me);
    var s2 := WriteServer(net, s1, me.fd, LoginFeedback(0)).0;
    WriteConsistent(net, s1, me.fd, LoginFeedback(0));
    if me.id in s.db.tables {
      GreetConsistent(net, s2, s2.db.tables[me.id], me);
      ShedTwice(s1, s2, Admit(net, s, me));
    } else {
      DistinctUnique(s1.online, ById);
      DistinctUnique(s1.online, ByFd);
      assert me in s1.online;
      OfflineConsistent(net, s2, me.fd, me.id);
      ShedTwice(s1, s2, Admit(net, s, me));
    }
  }

  /** Both inserts of an acceptance between two ids with tables work, or the two
      were friends already and neither does. */
  lemma InsertPairEffect(db: Db, src: int, dst: int)
    requires DbSane(db) && src != dst && src in db.tables && dst in db.tables
    ensures var (db2, inserted) := InsertPair(db, src, dst);
            && DbSane(db2) && db2.tables.Keys == db.tables.Keys && db2.users == db.users
            && (inserted <==> dst !in Rows(db, src)) && (inserted <==> src !in Rows(db, dst))
            && (!inserted ==> db2 == db)
            && (inserted ==> Rows(db2, src) == Rows(db, src) + [dst] && Rows(db2, dst) == Rows(db, dst) + [src])
            && (forall x :: x != src && x != dst ==> Rows(db2, x) == Rows(db, x))
  {
    assert dst in Rows(db, src) ==> src in Rows(db, dst);
    assert src in Rows(db, dst) ==> dst in Rows(db, src);
    var (db2, inserted) := InsertPair(db, src, dst);
    if inserted {
      assert db2.tables == db.tables[src := Rows(db, src) + [dst]][dst := Rows(db, dst) + [src]];
      forall a, b | b in Rows(db2, a) ensures a in Rows(db2, b) && a != b {
        if b in Rows(db, a) {
          assert a in Rows(db, b);
        } else {
          assert (a == src && b == dst) || (a == dst && b == src);
        }
      }
    }
  }

  /** A new user, and a new friend table. */
  lemma InsertUserEffect(db: Db, password: string)
    requires DbSane(db)
    ensures DbSane(InsertUser(db, password)) && InsertUser(db, password).tables == db.tables
  {
    assert forall a :: Rows(InsertUser(db, password), a) == Rows(db, a);
  }

  lemma CreateTableEffect(db: Db, id: int)
    requires DbSane(db) && 0 < id < db.nextId && id !in db.tables
    ensures var db2 := db.(tables := db.tables[id := []]);
            DbSane(db2) && forall x :: Rows(db2, x) == Rows(db, x)
  {
    var db2 := db.(tables := db.tables[id := []]);
    assert forall x :: Rows(db2, x) == Rows(db, x);
  }

  lemma RegisterEffect(db: Db, password: string, env: RegisterEnv)
    requires DbSane(db) && HasNewest(db, env)
    ensures var db2 := RegisterUser(db, password, env).0;
            && DbSane(db2) && db.tables.Keys <= db2.tables.Keys
            && (forall x :: Rows(db2, x) == Rows(db, x))
  {
    InsertUserEffect(db, password);
    if env.dbUp {
      NewestTableEffect(if env.stored then InsertUser(db, password) else db);
    }
  }

  lemma NewestTableEffect(db: Db)
    requires DbSane(db) && db.users != []
    ensures var db2 := CreateTable(db, MaxId(db.users));
            db2.Some? ==> DbSane(db2.value) && db.tables.Keys <= db2.value.tables.Keys &&
                          forall x :: Rows(db2.value, x) == Rows(db, x)
  {
    var id := MaxId(db.users);
    var u :| u in db.users && u.id == id;
    if id !in db.tables { CreateTableEffect(db, id); }
  }

  lemma NewDb(s: Srv, db: Db)
    requires Consistent(s) && DbSane(db) && s.db.tables.Keys <= db.tables.Keys
    ensures Consistent(s.(db := db)) && (Tabled(s) ==> Tabled(s.(db := db)))
  {
    var s1 := s.(db := db);
    forall e | e in s1.online ensures AsksFor(db, e.id, s1.Trace(e.fd)) {
      assert AsksFor(s.db, e.id, s.Trace(e.fd));
    }
    assert forall fd :: s1.Trace(fd) == s.Trace(fd);
  }

  /** Of the sessions there were and those begun, each is there afterwards or
      has given up its descriptor; there are no others. Tables are never dropped. */
  ghost predicate Ends(s: Srv, s': Srv, begun: set<Entry>) {
    && s.db.tables.Keys <= s'.db.tables.Keys
    && (forall e :: e in s.online || e in begun ==> e in s'.online || (e.fd !in s'.open && e.fd !in s'.watched))
    && (forall e :: e in s'.online ==> e in s.online || e in begun)
  }

  /** login_action gets past its checks. */
  ghost predicate Admits(s: Srv, id: int, password: string, env: LoginEnv) {
    env.dbUp && env.peer.Some? && User(id, password) in s.db.users && id !in Ids(s.online)
  }

  /** The sessions an event begins. */
  ghost function Newcomers(s: Srv, ev: Event): set<Entry> {
    match ev
    case Receive(fd, Login(id, password, env)) =>
      if Admits(s, id, password, env) then {Entry(id, fd, env.peer.value)} else {}
    case _ => {}
  }

  lemma AnnounceConsistent(net: Net, s: Srv, psrc: Option<Entry>, pdst: Option<Entry>, src: int, dst: int)
    requires Consistent(s)
    requires psrc.Some? ==> psrc.value in s.online
    requires pdst.Some? ==> pdst.value in s.online
    ensures var s' := AnnouncePair(net, s, psrc, pdst, src, dst); Consistent(s') && Shed(s, s')
  {
    if psrc.Some? {
      var fd := psrc.value.fd;
      var s1 := WriteServer(net, s, fd, AllowAddf(src, dst, 1)).0;
      WriteConsistent(net, s, fd, AllowAddf(src, dst, 1));
      if pdst.Some? {
        var s2 := WriteServer(net, s1, fd, OnlineNote(pdst.value)).0;
        WriteConsistent(net, s1, fd, OnlineNote(pdst.value));
        ShedTwice(s, s1, s2);
        WriteConsistent(net, s2, pdst.value.fd, OnlineNote(psrc.value));
        ShedTwice(s, s2, WriteServer(net, s2, pdst.value.fd, OnlineNote(psrc.value)).0);
      }
    }
  }

  lemma LoginConsistent(net: Net, s: Srv, fd: int, id: int, password: string, env: LoginEnv)
    requires Consistent(s) && Tabled(s) && fd in s.watched && fd !in Fds(s.online)
    ensures var s' := LoginAction(net, s, fd, id, password, env);
            Consistent(s') && Tabled(s') && Ends(s, s', Newcomers(s, Receive(fd, Login(id, password, env))))
  {
    var row := FindUser(s.db.users, id);
    FindUserIff(s.db.users, id, password);
    assert Find(s.online, id, ById).Some? <==> id in Ids(s.online);
    if !env.dbUp {
      WriteConsistent(net, s, fd, LoginFeedback(-2));
    } else if row.None? || row.value.password != password {
      WriteConsistent(net, s, fd, LoginFeedback(-1));
    } else if Find(s.online, id, ById).Some? {
      WriteConsistent(net, s, fd, LoginFeedback(-3));
    } else if env.peer.None? {
      OfflineConsistent(net, s, fd, -1);
    } else {
      AdmitConsistent(net, s, Entry(id, fd, env.peer.value));
    }
  }

  lemma AskConsistent(net: Net, s: Srv, fd: int, src: int, dst: int)
    requires Consistent(s) && Tabled(s) && Session(s, fd, src) && src != dst
    ensures var s' := AddFriendAction(net, s, fd, src, dst);
            Consistent(s') && Tabled(s') && Ends(s, s', {})
  {
    var pdst := Find(s.online, dst, ById);
    if src in s.db.tables && dst !in s.db.tables[src] && pdst.Some? {
      var to := pdst.value.fd;
      WriteEffect(net, s, to, AddFriend(src, dst));
      var (s1, ok) := WriteServer(net, s, to, AddFriend(src, dst));
      if ok {
        PutKeepsTraces(s, s1, to, AddFriend(src, dst));
      } else {
        ExactKeepsTraces(net, s, s1, SessionOf(s.online, to), {to});
        ExactSheds(net, s, s1, SessionOf(s.online, to), {to});
      }
    } else {
      WriteConsistent(net, s, fd, AllowAddf(src, dst, 3));
      WriteConsistent(net, s, fd, AllowAddf(src, dst, 2));
      WriteConsistent(net, s, fd, AllowAddf(src, dst, 4));
    }
  }

  /** An answered request was for the answering session. */
  lemma AnswerIsProper(s: Srv, fd: int, src: int, dst: int)
    requires Consistent(s) && Tabled(s) && fd in s.watched && AddFriend(src, dst) in s.Trace(fd)
    ensures Session(s, fd, dst) && src != dst && src in s.db.tables && dst in s.db.tables
  {
    assert fd in Fds(s.online) || Unaware(s.Trace(fd));
    var e :| e in s.online && e.fd == fd;
    assert AsksFor(s.db, e.id, s.Trace(e.fd));
  }

  lemma AnswerConsistent(net: Net, s: Srv, fd: int, src: int, dst: int, answer: int)
    requires Consistent(s) && Tabled(s) && fd in s.watched && AddFriend(src, dst) in s.Trace(fd)
    ensures var s' := AllowAddfAction(net, s, src, dst, answer);
            Consistent(s') && Tabled(s') && Ends(s, s', {})
  {
    AnswerIsProper(s, fd, src, dst);
    if answer == 1 {
      AcceptedConsistent(net, s, src, dst);
    } else if answer == 0 && Find(s.online, src, ById).Some? {
      WriteConsistent(net, s, Find(s.online, src, ById).value.fd, AllowAddf(src, dst, 0));
    }
  }

  lemma AcceptedConsistent(net: Net, s: Srv, src: int, dst: int)
    requires Consistent(s) && Tabled(s)
    requires src != dst && src in s.db.tables && dst in s.db.tables
    ensures var s' := AllowAddfAction(net, s, src, dst, 1);
            Consistent(s') && Tabled(s') && Ends(s, s', {})
  {
    var (db, inserted) := InsertPair(s.db, src, dst);
    var s1 := s.(db := db);
    InsertPairEffect(s.db, src, dst);
    NewDb(s, db);
    var psrc, pdst := Find(s.online, src, ById), Find(s.online, dst, ById);
    if inserted {
      AnnounceConsistent(net, s1, psrc, pdst, src, dst);
    } else if psrc.Some? {
      WriteConsistent(net, s1, psrc.value.fd, AllowAddf(src, dst, 3));
    }
  }

  /** Session consistency after every handler, for any write failures: ids and
      descriptors stay pairwise distinct, every online descriptor stays watched
      and open, every online id has a friend table, a session that ended is gone
      from the watched and the open descriptors, and none begins but that of a
      login that gets past its checks. */
  lemma StepConsistent(net: Net, s: Srv, ev: Event)
    requires Consistent(s) && Tabled(s) && Legal(s, ev)
    ensures Consistent(Step(net, s, ev)) && Tabled(Step(net, s, ev))
    ensures Ends(s, Step(net, s, ev), Newcomers(s, ev))
  {
    match ev
    case Accept(fd) => AcceptConsistent(s, fd, Step(net, s, ev));
    case Hangup(fd) => HangupConsistent(net, s, fd);
    case Receive(fd, req) =>
      match req
      case Register(password, env) =>
        RegisterEffect(s.db, password, env);
        var (db, id) := RegisterUser(s.db, password, env);
        NewDb(s, db);
        WriteConsistent(net, s.(db := db), fd, RegisterReply(id));
      case Login(id, password, env) => LoginConsistent(net, s, fd, id, password, env);
      case Heartbeat =>
      case Offline(id) =>
        DistinctUnique(s.online, ById);
        DistinctUnique(s.online, ByFd);
        OfflineConsistent(net, s, fd, id);
      case AskFriend(src, dst) => AskConsistent(net, s, fd, src, dst);
      case AnswerFriend(src, dst, answer) => AnswerConsistent(net, s, fd, src, dst, answer);
  }

  lemma AcceptConsistent(s: Srv, fd: int, s': Srv)
    requires Consistent(s) && fd !in s.open
    requires s' == s.(watched := s.watched + {fd}, open := s.open + {fd}, out := s.out[fd := []])
    ensures Consistent(s')
  {
    assert fd !in Fds(s.online);
    forall e | e in s'.online ensures AsksFor(s'.db, e.id, s'.Trace(e.fd)) {
      assert e.fd != fd && AsksFor(s.db, e.id, s.Trace(e.fd));
    }
    forall g | g in s'.open && g !in Fds(s'.online) ensures Unaware(s'.Trace(g)) {
      assert g == fd || Unaware(s.Trace(g));
    }
  }

  /** A failed read ends exactly the session that holds the descriptor, if any. */
  lemma HangupConsistent(net: Net, s: Srv, fd: int)
    requires Consistent(s)
    ensures var s' := OfflineAction(net, s, fd, SessionOf(s.online, fd));
            && Consistent(s') && Shed(s, s')
            && Exact(net, s, s', [], SessionOf(s.online, fd), {fd})
            && fd !in Fds(s'.online) && fd !in s'.open && fd !in s'.watched
  {
    DistinctUnique(s.online, ById);
    DistinctUnique(s.online, ByFd);
    NoFdNoSession(s, fd);
    OfflineConsistent(net, s, fd, SessionOf(s.online, fd));
  }
}
