/** What every event does: for any write failures, what it stores, ends and
    keeps; and when no write fails, the whole of the new state. */
module Effects {
  import opened Wrappers
  import opened Presence
  import opened Packets
  import opened Database
  import opened ServerSpec
  import opened Cascade
  import opened Sessions
  import opened Agreement
  import opened Grammar
  import opened Replies

  /** src and dst have become friends, if they were not, and nobody else has. */
  ghost predicate Befriended(db: Db, db2: Db, src: int, dst: int) {
    && db2.users == db.users && db2.nextId == db.nextId && db2.tables.Keys == db.tables.Keys
    && Rows(db2, src) == Rows(db, src) + (if dst in Rows(db, src) then [] else [dst])
    && Rows(db2, dst) == Rows(db, dst) + (if src in Rows(db, dst) then [] else [src])
    && forall x :: x != src && x != dst ==> Rows(db2, x) == Rows(db, x)
  }

  /** What an event stores: a registration its row and table, an accepted
      request the friendship, whoever is online, and nothing else anything. */
  ghost predicate Stored(db: Db, ev: Event, db2: Db) {
    match ev
    case Receive(_, Register(password, env)) => HasNewest(db, env) && db2 == RegisterUser(db, password, env).0
    case Receive(_, AnswerFriend(src, dst, answer)) => if answer == 1 then Befriended(db, db2, src, dst) else db2 == db
    case _ => db2 == db
  }

  lemma PairStored(db: Db, src: int, dst: int)
    requires DbSane(db) && src != dst && src in db.tables && dst in db.tables
    ensures Befriended(db, InsertPair(db, src, dst).0, src, dst)
  {
    InsertPairEffect(db, src, dst);
  }

  lemma AcceptedStores(net: Net, s: Srv, src: int, dst: int)
    requires Consistent(s) && src != dst && src in s.db.tables && dst in s.db.tables
    ensures Befriended(s.db, AllowAddfAction(net, s, src, dst, 1).db, src, dst)
  {
    var (db, inserted) := InsertPair(s.db, src, dst);
    PairStored(s.db, src, dst);
    InsertPairEffect(s.db, src, dst);
    NewDb(s, db);
    var psrc := Find(s.online, src, ById);
    if inserted {
      AnnounceConsistent(net, s.(db := db), psrc, Find(s.online, dst, ById), src, dst);
    } else if psrc.Some? {
      WriteEffect(net, s.(db := db), psrc.value.fd, AllowAddf(src, dst, 3));
    }
  }

  lemma LoginStores(net: Net, s: Srv, fd: int, id: int, password: string, env: LoginEnv)
    requires Consistent(s) && fd in s.watched && fd !in Fds(s.online)
    ensures LoginAction(net, s, fd, id, password, env).db == s.db
  {
    FindUserIff(s.db.users, id, password);
    FdIsFound(s, id);
    var flag := Flag(s, id, password, env);
    if flag != 0 {
      WriteEffect(net, s, fd, LoginFeedback(flag));
    } else if env.peer.Some? {
      AdmitConsistent(net, s, Entry(id, fd, env.peer.value));
    }
  }

  /** For any write failures: what an event stores. */
  lemma StepStores(net: Net, s: Srv, ev: Event)
    requires Consistent(s) && Tabled(s) && Legal(s, ev)
    ensures Stored(s.db, ev, Step(net, s, ev).db)
  {
    match ev
    case Accept(_) =>
    case Hangup(fd) => HangupConsistent(net, s, fd);
    case Receive(fd, req) =>
      match req
      case Register(password, env) =>
        var (db, id) := RegisterUser(s.db, password, env);
        RegisterEffect(s.db, password, env);
        NewDb(s, db);
        WriteEffect(net, s.(db := db), fd, RegisterReply(id));
      case Login(id, password, env) => LoginStores(net, s, fd, id, password, env);
      case Heartbeat =>
      case Offline(id) =>
        DistinctUnique(s.online, ByFd);
        HangupConsistent(net, s, fd);
      case AskFriend(src, dst) => AskStores(net, s, fd, src, dst);
      case AnswerFriend(src, dst, answer) =>
        AnswerIsProper(s, fd, src, dst);
        if answer == 1 {
          AcceptedStores(net, s, src, dst);
        } else if answer == 0 && Find(s.online, src, ById).Some? {
          WriteEffect(net, s, Find(s.online, src, ById).value.fd, AllowAddf(src, dst, 0));
        }
  }

  lemma AskStores(net: Net, s: Srv, fd: int, src: int, dst: int)
    requires Consistent(s)
    ensures AddFriendAction(net, s, fd, src, dst).db == s.db
  {
    WriteEffect(net, s, fd, AllowAddf(src, dst, 2));
    WriteEffect(net, s, fd, AllowAddf(src, dst, 3));
    WriteEffect(net, s, fd, AllowAddf(src, dst, 4));
    var pdst := Find(s.online, dst, ById);
    if pdst.Some? { WriteEffect(net, s, pdst.value.fd, AddFriend(src, dst)); }
  }

  /** p has been added to the trace of fd, perhaps with other packets. */
  ghost predicate Heard(s: Srv, s': Srv, fd: int, p: Packet) {
    s.Trace(fd) <= s'.Trace(fd) && p in s'.Trace(fd)[|s.Trace(fd)|..]
  }

  /** For any write failures: a connection that an event closes by itself is
      closed, its session is over, and each friend of that session who is still
      online has been told of it. */
  lemma StepCloses(net: Net, s: Srv, ev: Event, fd: int)
    requires Consistent(s) && Tabled(s) && Legal(s, ev) && fd in Closing(s, ev)
    ensures var s' := Step(net, s, ev);
            && fd !in Fds(s'.online) && fd !in s'.open && fd !in s'.watched
            && forall e, x :: e in s.online && e.fd == fd && x in s'.online && x.id in Rows(s.db, e.id) ==>
                 Heard(s, s', x.fd, OfflineNote(e.id))
  {
    if ev.Receive? && ev.req.Login? {
      assert fd !in Fds(s.online);
      LoginCloses(net, s, fd, ev.req.id, ev.req.password, ev.req.env);
    } else {
      DistinctUnique(s.online, ByFd);
      DropCloses(net, s, fd);
    }
  }

  lemma DropCloses(net: Net, s: Srv, fd: int)
    requires Consistent(s)
    ensures var s' := OfflineAction(net, s, fd, SessionOf(s.online, fd));
            && fd !in Fds(s'.online) && fd !in s'.open && fd !in s'.watched
            && forall e, x :: e in s.online && e.fd == fd && x in s'.online && x.id in Rows(s.db, e.id) ==>
                 Heard(s, s', x.fd, OfflineNote(e.id))
  {
    var s', id := OfflineAction(net, s, fd, SessionOf(s.online, fd)), SessionOf(s.online, fd);
    HangupConsistent(net, s, fd);
    forall e, x | e in s.online && e.fd == fd && x in s'.online && x.id in Rows(s.db, e.id)
      ensures Heard(s, s', x.fd, OfflineNote(e.id))
    {
      LeaverIsLost(s, s', e);
      SurvivorHeard(s, s', id, e.id, x);
    }
  }

  lemma SurvivorHeard(s: Srv, s': Srv, id: int, gone: int, x: Entry)
    requires DbSane(s.db) && SurvivorsTold(s, s', [], id) && x in s'.online
    requires gone in Lost(s, s') && x.id in Rows(s.db, gone)
    ensures Heard(s, s', x.fd, OfflineNote(gone))
  {
    assert gone in News(s.db, x.id, Lost(s, s'), [], id);
    ToldHas(s.Trace(x.fd), s'.Trace(x.fd), News(s.db, x.id, Lost(s, s'), [], id), gone);
  }

  lemma LeaverIsLost(s: Srv, s': Srv, e: Entry)
    requires Sane(s) && Shed(s, s') && e in s.online && e.fd !in Fds(s'.online)
    ensures e.id in Lost(s, s')
  {
    DistinctUnique(s.online, ById);
    assert e.id in Ids(s.online);
  }

  lemma {:induction false} ToldExtends(t: seq<Packet>, u: seq<Packet>, ids: set<int>)
    requires Told(t, u, ids)
    ensures t <= u
    decreases |u|
  {
    if |u| > |t| { ToldExtends(t, u[..|u| - 1], ids - {u[|u| - 1].gone}); }
  }

  lemma {:induction false} ToldHas(t: seq<Packet>, u: seq<Packet>, ids: set<int>, d: int)
    requires Told(t, u, ids) && d in ids
    ensures t <= u && OfflineNote(d) in u[|t|..]
    decreases |u|
  {
    if |u| > |t| {
      var p := u[|u| - 1];
      assert u[|t|..][|u| - 1 - |t|] == p;
      ToldExtends(t, u, ids);
      if p.gone != d {
        ToldHas(t, u[..|u| - 1], ids - {p.gone}, d);
        assert u[|t|..] == u[..|u| - 1][|t|..] + [p];
      }
    }
  }

  lemma LoginCloses(net: Net, s: Srv, fd: int, id: int, password: string, env: LoginEnv)
    requires Consistent(s) && fd in s.watched && fd !in Fds(s.online)
    requires Flag(s, id, password, env) == 0 && (env.peer.None? || id !in s.db.tables)
    ensures var s' := LoginAction(net, s, fd, id, password, env);
            fd !in Fds(s'.online) && fd !in s'.open && fd !in s'.watched
  {
    FindUserIff(s.db.users, id, password);
    FdIsFound(s, id);
    if env.peer.None? {
      OfflineConsistent(net, s, fd, -1);
    } else {
      var me := Entry(id, fd, env.peer.value);
      var s1, s2 := s.(online := [me] + s.online), Seated(net, s, me);
      NewcomerConsistent(s, s1, me);
      WriteConsistent(net, s1, fd, LoginFeedback(0));
      assert me in s1.online;
      StrangerCloses(net, s1, s2, me);
    }
  }

  lemma StrangerCloses(net: Net, s1: Srv, s2: Srv, me: Entry)
    requires Consistent(s1) && me in s1.online && Consistent(s2) && Shed(s1, s2) && me.id !in s2.db.tables
    ensures var s' := OfflineAction(net, s2, me.fd, me.id);
            me.fd !in Fds(s'.online) && me.fd !in s'.open && me.fd !in s'.watched
  {
    DistinctUnique(s1.online, ById);
    DistinctUnique(s1.online, ByFd);
    OfflineConsistent(net, s2, me.fd, me.id);
  }

  /** For any write failures: a connection to which no write fails, and which
      the event does not close by itself, stays open and watched, keeps its
      session, and has been sent the answer if that is due on it. */
  lemma StepKeeps(net: Net, s: Srv, ev: Event, fd: int)
    requires Consistent(s) && Tabled(s) && Legal(s, ev) && !ev.Accept?
    requires fd in s.open && Reliable(net, fd) && fd !in Closing(s, ev)
    ensures var s' := Step(net, s, ev);
            && fd in s'.open && (fd in s.watched ==> fd in s'.watched)
            && (forall e :: e in s.online && e.fd == fd ==> e in s'.online)
            && Answers(s'.Trace(fd)) == Answers(s.Trace(fd)) +
                 if Answer(s, ev).Some? && Answer(s, ev).value.0 == fd then [Answer(s, ev).value.1] else []
  {
    StepConsistent(net, s, ev);
    StepAnswers(net, s, ev);
  }

  /** The entries of online that rows name, announced one by one. */
  function Introductions(online: seq<Entry>, rows: seq<int>): seq<Packet> {
    if rows == [] then []
    else
      var friend := Find(online, rows[0], ById);
      (if friend.Some? then [OnlineNote(friend.value)] else []) + Introductions(online, rows[1..])
  }

  /** The news of a departure from fd that reaches g: a goodbye, or the id that
      is gone. */
  ghost function PartingNews(s: Srv, fd: int, g: int): seq<Packet> {
    var id := SessionOf(s.online, fd);
    if id == -1 then []
    else if g == fd then [AllowDisconnect]
    else if SessionOf(s.online, g) in Rows(s.db, id) then [OfflineNote(id)]
    else []
  }

  /** The news of a successful login on fd that reaches g. */
  ghost function LoginNews(s: Srv, me: Entry, g: int): seq<Packet> {
    if me.id !in s.db.tables then (if g == me.fd then [AllowDisconnect] else [])
    else if g == me.fd then Introductions(s.online, Rows(s.db, me.id))
    else if SessionOf(s.online, g) in Rows(s.db, me.id) then [OnlineNote(me)]
    else []
  }

  /** The news of a new friendship that reaches g: if both are online, each is
      introduced to the other. */
  ghost function FriendNews(s: Srv, src: int, dst: int, g: int): seq<Packet> {
    var psrc, pdst := Find(s.online, src, ById), Find(s.online, dst, ById);
    if dst in Rows(s.db, src) || psrc.None? || pdst.None? then []
    else if g == psrc.value.fd then [OnlineNote(pdst.value)]
    else if g == pdst.value.fd then [OnlineNote(psrc.value)]
    else []
  }

  /** The news of an event that reaches g when no write fails. */
  ghost function NewsOf(s: Srv, ev: Event, g: int): seq<Packet> {
    match ev
    case Hangup(fd) => PartingNews(s, fd, g)
    case Receive(fd, Offline(_)) => PartingNews(s, fd, g)
    case Receive(fd, Login(id, password, env)) =>
      if Admits(s, id, password, env) then LoginNews(s, Entry(id, fd, env.peer.value), g) else []
    case Receive(fd, AnswerFriend(src, dst, answer)) => if answer == 1 then FriendNews(s, src, dst, g) else []
    case _ => []
  }

  /** The answer to an event, if it is due on g. */
  ghost function AnswerOn(s: Srv, ev: Event, g: int): seq<Packet>
    requires Legal(s, ev)
  {
    var answer := Answer(s, ev);
    if answer.Some? && answer.value.0 == g && !NoPeer(s, ev) then [answer.value.1] else []
  }

  /** A login that would succeed but has no peer address: it is not answered. */
  ghost predicate NoPeer(s: Srv, ev: Event) {
    ev.Receive? && ev.req.Login? && ev.req.env.peer.None? && Flag(s, ev.req.id, ev.req.password, ev.req.env) == 0
  }

  /** The sessions after an event when no write fails. */
  ghost function OnlineAfter(s: Srv, ev: Event): seq<Entry> {
    match ev
    case Hangup(fd) => Without(s.online, {SessionOf(s.online, fd)})
    case Receive(fd, Offline(_)) => Without(s.online, {SessionOf(s.online, fd)})
    case Receive(fd, Login(id, password, env)) =>
      if Admits(s, id, password, env) && id in s.db.tables then [Entry(id, fd, env.peer.value)] + s.online else s.online
    case _ => s.online
  }

  /** What an event does to the sessions, the descriptors and the tables. */
  ghost predicate Changed(s: Srv, ev: Event, s': Srv) {
    var begun := if ev.Accept? then {ev.fd} else {};
    && s'.online == OnlineAfter(s, ev)
    && s'.open == s.open + begun - Closing(s, ev) && s'.watched == s.watched + begun - Closing(s, ev)
    && Stored(s.db, ev, s'.db)
  }

  /** The whole effect of an event: that, and what every connection is sent,
      the answer first and then the news. */
  ghost predicate Effect(s: Srv, ev: Event, s': Srv)
    requires Legal(s, ev)
  {
    && Changed(s, ev, s')
    && forall g :: s'.Trace(g) == if ev == Accept(g) then [] else s.Trace(g) + (AnswerOn(s, ev, g) + NewsOf(s, ev, g))
  }

  /** s' is s after one or more packets to fd, and nothing else. */
  ghost predicate Spoken(s: Srv, s': Srv, fd: int, ps: seq<Packet>) {
    && s'.online == s.online && s'.open == s.open && s'.watched == s.watched && s'.db == s.db
    && forall g :: s'.Trace(g) == s.Trace(g) + if g == fd then ps else []
  }

  lemma CalmWrite(net: Net, s: Srv, fd: int, p: Packet)
    requires Calm(net) && fd in s.open
    ensures var (s1, ok) := WriteServer(net, s, fd, p);
            ok && Spoken(s, s1, fd, [p])
  {
  }

  /** An acceptance between two clients that are online: strangers become
      friends, the asker hears of the answer and then of its new friend, the
      asked of the asker, and nobody else of anything; friends stay as they are
      and the asker is told of an error. */
  lemma AcceptanceReply(net: Net, s: Srv, psrc: Entry, pdst: Entry)
    requires Consistent(s) && Tabled(s) && Calm(net)
    requires psrc in s.online && pdst in s.online && psrc != pdst
    ensures var s' := AllowAddfAction(net, s, psrc.id, pdst.id, 1);
            && s'.online == s.online
            && pdst.id in Rows(s'.db, psrc.id) && psrc.id in Rows(s'.db, pdst.id)
            && (forall fd :: fd != psrc.fd && fd != pdst.fd ==> s'.Trace(fd) == s.Trace(fd))
            && (if pdst.id in Rows(s.db, psrc.id) then
                  s'.Trace(psrc.fd) == s.Trace(psrc.fd) + [AllowAddf(psrc.id, pdst.id, 3)] &&
                  s'.Trace(pdst.fd) == s.Trace(pdst.fd)
                else
                  s'.Trace(psrc.fd) == s.Trace(psrc.fd) + [AllowAddf(psrc.id, pdst.id, 1), OnlineNote(pdst)] &&
                  s'.Trace(pdst.fd) == s.Trace(pdst.fd) + [OnlineNote(psrc)])
  {
    DistinctUnique(s.online, ById);
    DistinctUnique(s.online, ByFd);
    assert Find(s.online, psrc.id, ById) == Some(psrc) && Find(s.online, pdst.id, ById) == Some(pdst);
    InsertPairEffect(s.db, psrc.id, pdst.id);
    var s1 := s.(db := InsertPair(s.db, psrc.id, pdst.id).0);
    if pdst.id in Rows(s.db, psrc.id) {
      CalmWrite(net, s1, psrc.fd, AllowAddf(psrc.id, pdst.id, 3));
    } else {
      AnnounceReply(net, s1, psrc, pdst);
    }
  }

  lemma AnnounceReply(net: Net, s: Srv, psrc: Entry, pdst: Entry)
    requires Calm(net) && psrc.fd in s.open && pdst.fd in s.open && psrc.fd != pdst.fd
    ensures var s' := AnnouncePair(net, s, Some(psrc), Some(pdst), psrc.id, pdst.id);
            && s'.online == s.online && s'.db == s.db
            && (forall fd :: fd != psrc.fd && fd != pdst.fd ==> s'.Trace(fd) == s.Trace(fd))
            && s'.Trace(psrc.fd) == s.Trace(psrc.fd) + [AllowAddf(psrc.id, pdst.id, 1), OnlineNote(pdst)]
            && s'.Trace(pdst.fd) == s.Trace(pdst.fd) + [OnlineNote(psrc)]
  {
    var answer := AllowAddf(psrc.id, pdst.id, 1);
    CalmWrite(net, s, psrc.fd, answer);
    var s1 := WriteServer(net, s, psrc.fd, answer).0;
    CalmWrite(net, s1, psrc.fd, OnlineNote(pdst));
    var s2 := WriteServer(net, s1, psrc.fd, OnlineNote(pdst)).0;
    CalmWrite(net, s2, pdst.fd, OnlineNote(psrc));
    assert (s.Trace(psrc.fd) + [answer]) + [OnlineNote(pdst)] == s.Trace(psrc.fd) + [answer, OnlineNote(pdst)];
  }

  lemma OnlyLeaverLost(net: Net, s: Srv, s': Srv, me: Entry)
    requires Calm(net) && me in s.online && Exact(net, s, s', Rows(s.db, me.id), me.id, {me.fd})
    requires me.id !in Ids(s'.online)
    ensures Lost(s, s') == {me.id}
  {
    assert me.id in Ids(s.online);
    forall x | x in Lost(s, s') ensures x == me.id {
      var e :| e in s.online && e.id == x;
      assert e.id != me.id ==> Hears(net, e.fd) && e in s'.online;
    }
  }

  /** A session's end: every online friend is told once, by exactly one packet,
      nobody else is told anything, and the leaver gets its goodbye. */
  lemma OfflineReply(net: Net, s: Srv, me: Entry)
    requires Consistent(s) && Calm(net) && me in s.online
    ensures var s' := OfflineAction(net, s, me.fd, me.id);
            && s'.online == Without(s.online, {me.id})
            && s'.Trace(me.fd) == s.Trace(me.fd) + [AllowDisconnect]
            && (forall e :: e in s'.online ==>
                  s'.Trace(e.fd) == s.Trace(e.fd) + if e.id in Rows(s.db, me.id) then [OfflineNote(me.id)] else [])
  {
    var s', rows := OfflineAction(net, s, me.fd, me.id), Rows(s.db, me.id);
    OwnDescriptor(s, me);
    OfflineExact(net, s, me.fd, me.id);
    OnlyLeaverLost(net, s, s', me);
    forall e | e in s'.online
      ensures s'.Trace(e.fd) == s.Trace(e.fd) + if e.id in rows then [OfflineNote(me.id)] else []
    {
      LeaverIsNews(s.db, e.id, me.id);
      ToldAtMostOne(s.Trace(e.fd), s'.Trace(e.fd), me.id, e.id in rows);
    }
  }

  lemma LeaverIsNews(db: Db, x: int, id: int)
    requires DbSane(db)
    ensures News(db, x, {id}, Rows(db, id), id) == if x in Rows(db, id) then {id} else {}
  {
  }

  lemma ToldAtMostOne(t: seq<Packet>, u: seq<Packet>, id: int, told: bool)
    requires Told(t, u, if told then {id} else {})
    ensures u == t + if told then [OfflineNote(id)] else []
  {
    if |u| > |t| {
      assert {id} - {id} == {};
      assert u[..|u| - 1] == t by {
        if |u| - 1 > |t| { assert Told(t, u[..|u| - 1], {}); }
      }
      assert u == u[..|u| - 1] + [u[|u| - 1]];
    }
  }

  /** The sessions of Sane states: their ids by descriptor. */
  lemma SessionAt(s: Srv, e: Entry)
    requires Sane(s) && e in s.online
    ensures SessionOf(s.online, e.fd) == e.id
  {
    DistinctUnique(s.online, ByFd);
  }

  lemma NoSessionNoRow(s: Srv, g: int, id: int)
    requires Sane(s) && g !in Fds(s.online)
    ensures SessionOf(s.online, g) == -1 && -1 !in Rows(s.db, id)
  {
    NoFdNoSession(s, g);
    RowsPositive(s, id);
  }

  lemma DropEffect(net: Net, s: Srv, fd: int)
    requires Consistent(s) && Calm(net)
    ensures var s' := OfflineAction(net, s, fd, SessionOf(s.online, fd));
            && s'.online == Without(s.online, {SessionOf(s.online, fd)}) && s'.db == s.db
            && s'.open == s.open - {fd} && s'.watched == s.watched - {fd}
            && forall g :: s'.Trace(g) == s.Trace(g) + PartingNews(s, fd, g)
  {
    var id := SessionOf(s.online, fd);
    if id == -1 {
      WithoutNone(s.online, {-1});
    } else {
      var me := Find(s.online, fd, ByFd).value;
      OfflineReply(net, s, me);
      LeaverShape(net, s, me);
      forall g ensures OfflineAction(net, s, fd, id).Trace(g) == s.Trace(g) + PartingNews(s, fd, g) {
        PartingHeard(net, s, me, g);
      }
    }
  }

  lemma LeaverShape(net: Net, s: Srv, me: Entry)
    requires Consistent(s) && Calm(net) && me in s.online
    ensures var s' := OfflineAction(net, s, me.fd, me.id);
            && s'.db == s.db && s'.open == s.open - {me.fd} && s'.watched == s.watched - {me.fd}
            && forall g :: g !in Fds(s.online) ==> s'.Trace(g) == s.Trace(g)
  {
    var s' := OfflineAction(net, s, me.fd, me.id);
    OwnDescriptor(s, me);
    OfflineExact(net, s, me.fd, me.id);
    OnlyLeaverLost(net, s, s', me);
    assert FdsOf(s.online, {me.id}) == {me.fd};
    assert me.fd in Fds(s.online);
  }

  lemma PartingHeard(net: Net, s: Srv, me: Entry, g: int)
    requires Consistent(s) && Calm(net) && me in s.online
    ensures OfflineAction(net, s, me.fd, me.id).Trace(g) == s.Trace(g) + PartingNews(s, me.fd, g)
  {
    var s' := OfflineAction(net, s, me.fd, me.id);
    OfflineReply(net, s, me);
    LeaverShape(net, s, me);
    SessionAt(s, me);
    if g !in Fds(s.online) {
      assert me.fd in Fds(s.online);
      NoSessionNoRow(s, g, me.id);
    } else if g != me.fd {
      OtherOnline(s, me, g);
    }
  }

  lemma OtherOnline(s: Srv, me: Entry, g: int)
    requires Sane(s) && me in s.online && g in Fds(s.online) && g != me.fd
    ensures exists e :: e in Without(s.online, {me.id}) && e.fd == g && e.id == SessionOf(s.online, g)
  {
    var e :| e in s.online && e.fd == g;
    SessionAt(s, e);
    OwnDescriptor(s, me);
    assert e in Without(s.online, {me.id});
  }

  /** s' is s after the listed friends who are online and me were introduced. */
  ghost predicate Greeted(s: Srv, s': Srv, rows: seq<int>, me: Entry) {
    && s'.online == s.online && s'.open == s.open && s'.watched == s.watched && s'.db == s.db
    && s'.Trace(me.fd) == s.Trace(me.fd) + Introductions(s.online, rows)
    && forall g :: g != me.fd ==>
         s'.Trace(g) == s.Trace(g) + if SessionOf(s.online, g) in rows then [OnlineNote(me)] else []
  }

  lemma ToldOnce(t: seq<Packet>, x: int, row: int, rest: seq<int>, p: Packet)
    requires row !in rest
    ensures (t + if x in [row] then [p] else []) + (if x in rest then [p] else [])
         == t + if x in [row] + rest then [p] else []
  {
  }

  lemma IntroductionsSplit(online: seq<Entry>, row: int, rest: seq<int>)
    ensures Introductions(online, [row] + rest) == Introductions(online, [row]) + Introductions(online, rest)
  {
    assert ([row] + rest)[1..] == rest && [row][1..] == [];
    assert Introductions(online, []) == [];
  }

  lemma GreetedCompose(s: Srv, s1: Srv, s2: Srv, row: int, rest: seq<int>, me: Entry)
    requires Greeted(s, s1, [row], me) && Greeted(s1, s2, rest, me) && row !in rest
    ensures Greeted(s, s2, [row] + rest, me)
  {
    IntroductionsSplit(s.online, row, rest);
    forall g | g != me.fd
      ensures s2.Trace(g) == s.Trace(g) + if SessionOf(s.online, g) in [row] + rest then [OnlineNote(me)] else []
    {
      ToldOnce(s.Trace(g), SessionOf(s.online, g), row, rest, OnlineNote(me));
    }
  }

  /** The loop of login_action when no write fails. */
  lemma {:induction false} GreetEffect(net: Net, s: Srv, rows: seq<int>, me: Entry)
    requires Sane(s) && Calm(net) && me in s.online && NoDup(rows)
    requires forall f :: f in rows ==> 0 < f && f != me.id
    ensures Greeted(s, Greet(net, s, rows, me), rows, me)
    decreases |rows|
  {
    if rows != [] {
      var row, rest := rows[0], rows[1..];
      assert rows == [row] + rest && row !in rest && row in rows;
      var s1 := GreetOne(net, s, row, me).0;
      GreetOneEffect(net, s, row, me);
      GreetRest(rows, me);
      GreetEffect(net, s1, rest, me);
      GreetedCompose(s, s1, Greet(net, s1, rest, me), row, rest, me);
    }
  }

  lemma GreetRest(rows: seq<int>, me: Entry)
    requires rows != [] && NoDup(rows) && forall f :: f in rows ==> 0 < f && f != me.id
    ensures NoDup(rows[1..]) && forall f :: f in rows[1..] ==> 0 < f && f != me.id
  {
    assert forall f :: f in rows[1..] ==> f in rows;
  }

  lemma GreetOneEffect(net: Net, s: Srv, row: int, me: Entry)
    requires Sane(s) && Calm(net) && me in s.online && 0 < row && row != me.id
    ensures var (s1, on) := GreetOne(net, s, row, me); on && Sane(s1) && Greeted(s, s1, [row], me)
  {
    var friend := Find(s.online, row, ById);
    assert [row][1..] == [];
    RowAt(s, row);
    if friend.Some? {
      var f := friend.value;
      CalmWrite(net, s, f.fd, OnlineNote(me));
      CalmWrite(net, WriteServer(net, s, f.fd, OnlineNote(me)).0, me.fd, OnlineNote(f));
      assert f.fd != me.fd by { DistinctUnique(s.online, ByFd); }
    }
  }

  /** The descriptor of an online id, and of none other. */
  lemma RowAt(s: Srv, row: int)
    requires Sane(s) && 0 < row
    ensures var friend := Find(s.online, row, ById);
            forall g :: SessionOf(s.online, g) == row <==> friend.Some? && g == friend.value.fd
  {
    DistinctUnique(s.online, ById);
    DistinctUnique(s.online, ByFd);
    forall g ensures SessionOf(s.online, g) == row ==> exists e :: e in s.online && e.fd == g && e.id == row {
      var e := Find(s.online, g, ByFd);
    }
  }

  lemma RowsPositive(s: Srv, id: int)
    requires Sane(s)
    ensures NoDup(Rows(s.db, id)) && forall f :: f in Rows(s.db, id) ==> 0 < f && f != id
  {
    forall f | f in Rows(s.db, id) ensures 0 < f && f != id {
      assert id in Rows(s.db, f);
    }
  }

  /** A newcomer of another id and descriptor changes nobody else's. */
  lemma SessionsBeside(online: seq<Entry>, me: Entry, g: int)
    requires g != me.fd
    ensures SessionOf([me] + online, g) == SessionOf(online, g)
  {
    assert ([me] + online)[1..] == online;
  }

  lemma {:induction false} IntroductionsBeside(online: seq<Entry>, me: Entry, rows: seq<int>)
    requires forall f :: f in rows ==> f != me.id
    ensures Introductions([me] + online, rows) == Introductions(online, rows)
  {
    if rows != [] {
      assert ([me] + online)[1..] == online && rows[0] in rows;
      assert forall f :: f in rows[1..] ==> f in rows;
      IntroductionsBeside(online, me, rows[1..]);
    }
  }

  lemma SeatedEffect(net: Net, s: Srv, me: Entry)
    requires Consistent(s) && Calm(net) && 0 < me.id && me.fd in s.watched
    requires me.fd !in Fds(s.online) && me.id !in Ids(s.online)
    ensures Consistent(Seated(net, s, me))
    ensures Spoken(s.(online := [me] + s.online), Seated(net, s, me), me.fd, [LoginFeedback(0)])
  {
    var s1 := s.(online := [me] + s.online);
    NewcomerConsistent(s, s1, me);
    CalmWrite(net, s1, me.fd, LoginFeedback(0));
    WriteConsistent(net, s1, me.fd, LoginFeedback(0));
  }

  lemma GreetedAfterSeat(net: Net, s: Srv, me: Entry)
    requires Consistent(s) && Calm(net) && 0 < me.id && me.fd in s.watched && me.id in s.db.tables
    requires me.fd !in Fds(s.online) && me.id !in Ids(s.online)
    ensures Greeted(Seated(net, s, me), Admit(net, s, me), Rows(s.db, me.id), me)
  {
    SeatedEffect(net, s, me);
    RowsPositive(s, me.id);
    GreetEffect(net, Seated(net, s, me), Rows(s.db, me.id), me);
  }

  /** What login_action's success branch sends on g. */
  ghost predicate Welcome(s: Srv, me: Entry, s': Srv, g: int) {
    s'.Trace(g) == s.Trace(g) + ((if g == me.fd then [LoginFeedback(0)] else []) + LoginNews(s, me, g))
  }

  lemma NewcomerHears(s: Srv, s2: Srv, s': Srv, me: Entry)
    requires Sane(s) && Spoken(s.(online := [me] + s.online), s2, me.fd, [LoginFeedback(0)])
    requires Greeted(s2, s', Rows(s.db, me.id), me) && me.id in s.db.tables
    ensures Welcome(s, me, s', me.fd)
  {
    RowsPositive(s, me.id);
    IntroductionsBeside(s.online, me, Rows(s.db, me.id));
    assert s.(online := [me] + s.online).Trace(me.fd) == s.Trace(me.fd);
    assert s'.Trace(me.fd) == s2.Trace(me.fd) + LoginNews(s, me, me.fd);
    FeedbackFirst(s.Trace(me.fd), LoginNews(s, me, me.fd));
  }

  lemma FeedbackFirst(t: seq<Packet>, news: seq<Packet>)
    ensures (t + [LoginFeedback(0)]) + news == t + ([LoginFeedback(0)] + news)
  {
  }

  lemma OthersHear(s: Srv, s2: Srv, s': Srv, me: Entry, g: int)
    requires Spoken(s.(online := [me] + s.online), s2, me.fd, [LoginFeedback(0)]) && g != me.fd
    requires Greeted(s2, s', Rows(s.db, me.id), me) && me.id in s.db.tables
    ensures Welcome(s, me, s', g)
  {
    SessionsBeside(s.online, me, g);
    assert s2.Trace(g) == s.Trace(g);
    assert [] + LoginNews(s, me, g) == LoginNews(s, me, g);
  }

  /** Without a friend table: the feedback, and the goodbye at once. */
  lemma StrangerDrops(net: Net, s: Srv, me: Entry)
    requires Consistent(s) && Calm(net) && 0 < me.id && me.fd in s.watched && me.id !in s.db.tables
    requires me.fd !in Fds(s.online) && me.id !in Ids(s.online)
    ensures var s2, s' := Seated(net, s, me), Admit(net, s, me);
            && s'.online == Without(s2.online, {me.id}) && s'.db == s2.db
            && s'.open == s2.open - {me.fd} && s'.watched == s2.watched - {me.fd}
            && forall g :: s'.Trace(g) == s2.Trace(g) + if g == me.fd then [AllowDisconnect] else []
  {
    var s2 := Seated(net, s, me);
    SeatedEffect(net, s, me);
    assert me in s2.online;
    SessionAt(s2, me);
    DropEffect(net, s2, me.fd);
  }

  lemma StrangerEffect(net: Net, s: Srv, me: Entry)
    requires Consistent(s) && Calm(net) && 0 < me.id && me.fd in s.watched && me.id !in s.db.tables
    requires me.fd !in Fds(s.online) && me.id !in Ids(s.online)
    ensures var s' := Admit(net, s, me);
            && s'.online == s.online && s'.open == s.open - {me.fd} && s'.watched == s.watched - {me.fd} && s'.db == s.db
            && forall g :: Welcome(s, me, s', g)
  {
    SeatedEffect(net, s, me);
    StrangerDrops(net, s, me);
    NewcomerGone(s.online, me);
    forall g ensures Welcome(s, me, Admit(net, s, me), g) {
      StrangerHears(s, Seated(net, s, me), Admit(net, s, me), me, g);
    }
  }

  lemma StrangerHears(s: Srv, s2: Srv, s': Srv, me: Entry, g: int)
    requires Spoken(s.(online := [me] + s.online), s2, me.fd, [LoginFeedback(0)]) && me.id !in s.db.tables
    requires s'.Trace(g) == s2.Trace(g) + if g == me.fd then [AllowDisconnect] else []
    ensures Welcome(s, me, s', g)
  {
    assert s.(online := [me] + s.online).Trace(g) == s.Trace(g);
    assert (s.Trace(g) + [LoginFeedback(0)]) + [AllowDisconnect] == s.Trace(g) + ([LoginFeedback(0)] + [AllowDisconnect]);
  }

  lemma NewcomerGone(online: seq<Entry>, me: Entry)
    requires me.id !in Ids(online)
    ensures Without([me] + online, {me.id}) == online
  {
    assert ([me] + online)[1..] == online;
    assert forall e :: e in online ==> e.id in Ids(online);
    WithoutNone(online, {me.id});
  }

  lemma AdmitEffect(net: Net, s: Srv, me: Entry)
    requires Consistent(s) && Calm(net) && 0 < me.id && me.fd in s.watched && me.id in s.db.tables
    requires me.fd !in Fds(s.online) && me.id !in Ids(s.online)
    ensures var s' := Admit(net, s, me);
            && s'.online == [me] + s.online && s'.open == s.open && s'.watched == s.watched && s'.db == s.db
            && forall g :: Welcome(s, me, s', g)
  {
    SeatedEffect(net, s, me);
    GreetedAfterSeat(net, s, me);
    forall g ensures Welcome(s, me, Admit(net, s, me), g) {
      if g == me.fd {
        NewcomerHears(s, Seated(net, s, me), Admit(net, s, me), me);
      } else {
        OthersHear(s, Seated(net, s, me), Admit(net, s, me), me, g);
      }
    }
  }

  /** An event whose one packet is its answer. */
  lemma OnlyAnswerEffect(s: Srv, ev: Event, s': Srv, fd: int, p: Packet)
    requires Legal(s, ev) && Answer(s, ev) == Some((fd, p)) && !NoPeer(s, ev) && !ev.Accept?
    requires Spoken(s, s', fd, [p]) && Changed(s, ev, s')
    requires forall g :: NewsOf(s, ev, g) == []
    ensures Effect(s, ev, s')
  {
    forall g ensures s'.Trace(g) == s.Trace(g) + (AnswerOn(s, ev, g) + NewsOf(s, ev, g)) {
    }
  }

  lemma LoginRefusedEffect(net: Net, s: Srv, fd: int, id: int, password: string, env: LoginEnv)
    requires Consistent(s) && Calm(net) && Legal(s, Receive(fd, Login(id, password, env)))
    requires Flag(s, id, password, env) != 0
    ensures Effect(s, Receive(fd, Login(id, password, env)), LoginAction(net, s, fd, id, password, env))
  {
    var ev, flag := Receive(fd, Login(id, password, env)), Flag(s, id, password, env);
    FindUserIff(s.db.users, id, password);
    FdIsFound(s, id);
    CalmWrite(net, s, fd, LoginFeedback(flag));
    OnlyAnswerEffect(s, ev, LoginAction(net, s, fd, id, password, env), fd, LoginFeedback(flag));
  }

  lemma LoginAdmittedEffect(s: Srv, fd: int, id: int, password: string, env: LoginEnv, s': Srv)
    requires Legal(s, Receive(fd, Login(id, password, env))) && Admits(s, id, password, env)
    requires Changed(s, Receive(fd, Login(id, password, env)), s')
    requires forall g :: Welcome(s, Entry(id, fd, env.peer.value), s', g)
    ensures Effect(s, Receive(fd, Login(id, password, env)), s')
  {
    var ev, me := Receive(fd, Login(id, password, env)), Entry(id, fd, env.peer.value);
    forall g ensures s'.Trace(g) == s.Trace(g) + (AnswerOn(s, ev, g) + NewsOf(s, ev, g)) {
      assert Welcome(s, me, s', g);
    }
  }

  lemma LoginEffect(net: Net, s: Srv, fd: int, id: int, password: string, env: LoginEnv)
    requires Consistent(s) && Calm(net) && Legal(s, Receive(fd, Login(id, password, env)))
    ensures Effect(s, Receive(fd, Login(id, password, env)), LoginAction(net, s, fd, id, password, env))
  {
    if Flag(s, id, password, env) != 0 {
      LoginRefusedEffect(net, s, fd, id, password, env);
    } else {
      FindUserIff(s.db.users, id, password);
      FdIsFound(s, id);
      if env.peer.Some? {
        var me := Entry(id, fd, env.peer.value);
        if id in s.db.tables { AdmitEffect(net, s, me); } else { StrangerEffect(net, s, me); }
        LoginAdmittedEffect(s, fd, id, password, env, LoginAction(net, s, fd, id, password, env));
      }
    }
  }

  lemma AskEffect(net: Net, s: Srv, fd: int, src: int, dst: int)
    requires Consistent(s) && Tabled(s) && Calm(net) && Legal(s, Receive(fd, AskFriend(src, dst)))
    ensures Effect(s, Receive(fd, AskFriend(src, dst)), AddFriendAction(net, s, fd, src, dst))
  {
    var ev := Receive(fd, AskFriend(src, dst));
    FdIsFound(s, dst);
    assert src in s.db.tables;
    var answer := Answer(s, ev).value;
    assert answer.0 in s.open;
    CalmWrite(net, s, answer.0, answer.1);
    OnlyAnswerEffect(s, ev, AddFriendAction(net, s, fd, src, dst), answer.0, answer.1);
  }

  lemma RegisterCalm(net: Net, s: Srv, fd: int, password: string, env: RegisterEnv)
    requires Calm(net) && Legal(s, Receive(fd, Register(password, env))) && Sane(s)
    ensures Effect(s, Receive(fd, Register(password, env)), RegisterAction(net, s, fd, password, env))
  {
    var (db, id) := RegisterUser(s.db, password, env);
    CalmWrite(net, s.(db := db), fd, RegisterReply(id));
    assert forall g :: s.(db := db).Trace(g) == s.Trace(g);
  }

  /** An acceptance when the asker, the asked or both are offline, or the two
      were friends already. */
  lemma QuietAcceptance(net: Net, s: Srv, src: int, dst: int)
    requires Consistent(s) && Calm(net) && src != dst && src in s.db.tables && dst in s.db.tables
    requires var psrc, pdst := Find(s.online, src, ById), Find(s.online, dst, ById);
             psrc.None? || pdst.None? || dst in Rows(s.db, src)
    ensures var s', psrc := AllowAddfAction(net, s, src, dst, 1), Find(s.online, src, ById);
            && s'.online == s.online && s'.open == s.open && s'.watched == s.watched
            && forall g :: s'.Trace(g) == s.Trace(g) +
                 if psrc.Some? && g == psrc.value.fd then [AllowAddf(src, dst, if dst in Rows(s.db, src) then 3 else 1)] else []
  {
    InsertPairEffect(s.db, src, dst);
    var psrc, s1 := Find(s.online, src, ById), s.(db := InsertPair(s.db, src, dst).0);
    assert forall g :: s1.Trace(g) == s.Trace(g);
    if psrc.Some? {
      CalmWrite(net, s1, psrc.value.fd, AllowAddf(src, dst, if dst in Rows(s.db, src) then 3 else 1));
    }
  }

  lemma AcceptedEffect(net: Net, s: Srv, fd: int, src: int, dst: int)
    requires Consistent(s) && Tabled(s) && Calm(net) && Legal(s, Receive(fd, AnswerFriend(src, dst, 1)))
    ensures Effect(s, Receive(fd, AnswerFriend(src, dst, 1)), AllowAddfAction(net, s, src, dst, 1))
  {
    AnswerIsProper(s, fd, src, dst);
    AcceptedStores(net, s, src, dst);
    var psrc, pdst := Find(s.online, src, ById), Find(s.online, dst, ById);
    if psrc.Some? && pdst.Some? && dst !in Rows(s.db, src) {
      BothAcceptedEffect(net, s, fd, psrc.value, pdst.value);
    } else {
      QuietAcceptedEffect(net, s, fd, src, dst);
    }
  }

  lemma QuietAcceptedEffect(net: Net, s: Srv, fd: int, src: int, dst: int)
    requires Consistent(s) && Calm(net) && Legal(s, Receive(fd, AnswerFriend(src, dst, 1)))
    requires src != dst && src in s.db.tables && dst in s.db.tables
    requires Find(s.online, src, ById).None? || Find(s.online, dst, ById).None? || dst in Rows(s.db, src)
    requires Befriended(s.db, AllowAddfAction(net, s, src, dst, 1).db, src, dst)
    ensures Effect(s, Receive(fd, AnswerFriend(src, dst, 1)), AllowAddfAction(net, s, src, dst, 1))
  {
    QuietAcceptance(net, s, src, dst);
    QuietEffect(s, fd, src, dst, AllowAddfAction(net, s, src, dst, 1));
  }

  lemma BothAcceptedEffect(net: Net, s: Srv, fd: int, psrc: Entry, pdst: Entry)
    requires Consistent(s) && Tabled(s) && Calm(net) && Legal(s, Receive(fd, AnswerFriend(psrc.id, pdst.id, 1)))
    requires psrc.id != pdst.id && pdst.id !in Rows(s.db, psrc.id)
    requires Find(s.online, psrc.id, ById) == Some(psrc) && Find(s.online, pdst.id, ById) == Some(pdst)
    requires Befriended(s.db, AllowAddfAction(net, s, psrc.id, pdst.id, 1).db, psrc.id, pdst.id)
    ensures Effect(s, Receive(fd, AnswerFriend(psrc.id, pdst.id, 1)), AllowAddfAction(net, s, psrc.id, pdst.id, 1))
  {
    AcceptanceReply(net, s, psrc, pdst);
    AcceptanceShape(net, s, psrc, pdst);
    DistinctUnique(s.online, ByFd);
    IntroducedEffect(s, fd, psrc, pdst, AllowAddfAction(net, s, psrc.id, pdst.id, 1));
  }

  lemma QuietEffect(s: Srv, fd: int, src: int, dst: int, s': Srv)
    requires Sane(s) && Legal(s, Receive(fd, AnswerFriend(src, dst, 1)))
    requires Changed(s, Receive(fd, AnswerFriend(src, dst, 1)), s')
    requires var psrc, pdst := Find(s.online, src, ById), Find(s.online, dst, ById);
             && (psrc.None? || pdst.None? || dst in Rows(s.db, src))
             && forall g :: s'.Trace(g) == s.Trace(g) +
                  if psrc.Some? && g == psrc.value.fd then [AllowAddf(src, dst, if dst in Rows(s.db, src) then 3 else 1)] else []
    ensures Effect(s, Receive(fd, AnswerFriend(src, dst, 1)), s')
  {
    FdIsFound(s, src);
  }

  lemma IntroducedEffect(s: Srv, fd: int, psrc: Entry, pdst: Entry, s': Srv)
    requires Sane(s) && Legal(s, Receive(fd, AnswerFriend(psrc.id, pdst.id, 1))) && psrc.fd != pdst.fd
    requires Find(s.online, psrc.id, ById) == Some(psrc) && Find(s.online, pdst.id, ById) == Some(pdst)
    requires pdst.id !in Rows(s.db, psrc.id)
    requires Changed(s, Receive(fd, AnswerFriend(psrc.id, pdst.id, 1)), s')
    requires forall g :: g != psrc.fd && g != pdst.fd ==> s'.Trace(g) == s.Trace(g)
    requires s'.Trace(psrc.fd) == s.Trace(psrc.fd) + [AllowAddf(psrc.id, pdst.id, 1), OnlineNote(pdst)]
    requires s'.Trace(pdst.fd) == s.Trace(pdst.fd) + [OnlineNote(psrc)]
    ensures Effect(s, Receive(fd, AnswerFriend(psrc.id, pdst.id, 1)), s')
  {
    var ev := Receive(fd, AnswerFriend(psrc.id, pdst.id, 1));
    FdIsFound(s, psrc.id);
    forall g ensures s'.Trace(g) == s.Trace(g) + (AnswerOn(s, ev, g) + NewsOf(s, ev, g)) {
      assert [AllowAddf(psrc.id, pdst.id, 1)] + [OnlineNote(pdst)] == [AllowAddf(psrc.id, pdst.id, 1), OnlineNote(pdst)];
    }
  }

  lemma AcceptanceShape(net: Net, s: Srv, psrc: Entry, pdst: Entry)
    requires Consistent(s) && Calm(net) && psrc in s.online && pdst in s.online
    requires Find(s.online, psrc.id, ById) == Some(psrc) && Find(s.online, pdst.id, ById) == Some(pdst)
    ensures var s' := AllowAddfAction(net, s, psrc.id, pdst.id, 1); s'.open == s.open && s'.watched == s.watched
  {
    var src, dst := psrc.id, pdst.id;
    var s1 := s.(db := InsertPair(s.db, src, dst).0);
    CalmWrite(net, s1, psrc.fd, AllowAddf(src, dst, 3));
    CalmWrite(net, s1, psrc.fd, AllowAddf(src, dst, 1));
    var s2 := WriteServer(net, s1, psrc.fd, AllowAddf(src, dst, 1)).0;
    CalmWrite(net, s2, psrc.fd, OnlineNote(pdst));
    CalmWrite(net, WriteServer(net, s2, psrc.fd, OnlineNote(pdst)).0, pdst.fd, OnlineNote(psrc));
  }

  /** An event that changes nothing. */
  lemma NothingEffect(s: Srv, ev: Event)
    requires Legal(s, ev) && Answer(s, ev).None? && !ev.Accept? && Changed(s, ev, s)
    requires forall g :: NewsOf(s, ev, g) == []
    ensures Effect(s, ev, s)
  {
  }

  lemma RefusedEffect(net: Net, s: Srv, fd: int, src: int, dst: int, answer: int)
    requires Consistent(s) && Calm(net) && Legal(s, Receive(fd, AnswerFriend(src, dst, answer))) && answer != 1
    ensures Effect(s, Receive(fd, AnswerFriend(src, dst, answer)), AllowAddfAction(net, s, src, dst, answer))
  {
    var ev, psrc := Receive(fd, AnswerFriend(src, dst, answer)), Find(s.online, src, ById);
    FdIsFound(s, src);
    if answer == 0 && psrc.Some? {
      CalmWrite(net, s, psrc.value.fd, AllowAddf(src, dst, 0));
      OnlyAnswerEffect(s, ev, AllowAddfAction(net, s, src, dst, 0), psrc.value.fd, AllowAddf(src, dst, 0));
    } else {
      NothingEffect(s, ev);
    }
  }

  lemma AcceptEffect(net: Net, s: Srv, fd: int)
    requires Legal(s, Accept(fd))
    ensures Effect(s, Accept(fd), Step(net, s, Accept(fd)))
  {
    assert forall g :: g != fd ==> Step(net, s, Accept(fd)).Trace(g) == s.Trace(g);
  }

  lemma HangupEffect(net: Net, s: Srv, ev: Event)
    requires Consistent(s) && Legal(s, ev) && Calm(net)
    requires ev.Hangup? || (ev.Receive? && ev.req.Offline?)
    ensures Effect(s, ev, Step(net, s, ev))
  {
    DropEffect(net, s, ev.fd);
    if ev.Receive? { DistinctUnique(s.online, ByFd); }
    assert Step(net, s, ev) == OfflineAction(net, s, ev.fd, SessionOf(s.online, ev.fd));
    PartingEffect(s, ev, OfflineAction(net, s, ev.fd, SessionOf(s.online, ev.fd)));
  }

  lemma PartingEffect(s: Srv, ev: Event, s': Srv)
    requires Legal(s, ev) && (ev.Hangup? || (ev.Receive? && ev.req.Offline?))
    requires s'.online == Without(s.online, {SessionOf(s.online, ev.fd)}) && s'.db == s.db
    requires s'.open == s.open - {ev.fd} && s'.watched == s.watched - {ev.fd}
    requires forall g :: s'.Trace(g) == s.Trace(g) + PartingNews(s, ev.fd, g)
    ensures Effect(s, ev, s')
  {
    forall g ensures AnswerOn(s, ev, g) + NewsOf(s, ev, g) == PartingNews(s, ev.fd, g) {
    }
  }

  /** When no write fails, an event has exactly its effect: what happens to the
      sessions, the descriptors, the tables, and what every single connection
      is sent. */
  lemma StepEffect(net: Net, s: Srv, ev: Event)
    requires Consistent(s) && Tabled(s) && Legal(s, ev) && Calm(net)
    ensures Effect(s, ev, Step(net, s, ev))
  {
    match ev
    case Accept(fd) => AcceptEffect(net, s, fd);
    case Hangup(fd) => HangupEffect(net, s, ev);
    case Receive(fd, req) =>
      match req
      case Register(password, env) => RegisterCalm(net, s, fd, password, env);
      case Login(id, password, env) => LoginEffect(net, s, fd, id, password, env);
      case Heartbeat =>
      case Offline(_) => HangupEffect(net, s, ev);
      case AskFriend(src, dst) => AskEffect(net, s, fd, src, dst);
      case AnswerFriend(src, dst, answer) =>
        if answer == 1 {
          AcceptedEffect(net, s, fd, src, dst);
        } else {
          RefusedEffect(net, s, fd, src, dst, answer);
        }
  }

  /** A friend request from an id without a table, which no session has, is
      refused with code 3. */
  lemma TablelessRefused(net: Net, s: Srv, fd: int, src: int, dst: int)
    requires Calm(net) && fd in s.open && src !in s.db.tables
    ensures Spoken(s, AddFriendAction(net, s, fd, src, dst), fd, [AllowAddf(src, dst, 3)])
  {
    CalmWrite(net, s, fd, AllowAddf(src, dst, 3));
  }

  /** Any descriptor not in use may be accepted, and then register and log in. */
  lemma AcceptedMayLogIn(net: Net, s: Srv, fd: int, id: int, password: string, env: LoginEnv, sql: RegisterEnv)
    requires Consistent(s) && Tabled(s) && fd !in s.open && Calm(net)
    ensures var s' := Step(net, s, Accept(fd));
            && Legal(s, Accept(fd)) && Legal(s', Receive(fd, Login(id, password, env))) && Legal(s', Hangup(fd))
            && (HasNewest(s.db, sql) ==> Legal(s', Receive(fd, Register(password, sql))))
  {
    StepEffect(net, s, Accept(fd));
    assert fd !in Fds(s.online);
  }

  /** Who has logged in may ask for a friend and leave. */
  lemma LoggedInMayAsk(net: Net, s: Srv, fd: int, id: int, password: string, env: LoginEnv, dst: int)
    requires Consistent(s) && Tabled(s) && Calm(net) && Legal(s, Receive(fd, Login(id, password, env)))
    requires Admits(s, id, password, env) && id in s.db.tables
    ensures var s' := Step(net, s, Receive(fd, Login(id, password, env)));
            Legal(s', Receive(fd, Offline(id))) && (dst != id ==> Legal(s', Receive(fd, AskFriend(id, dst))))
  {
    StepEffect(net, s, Receive(fd, Login(id, password, env)));
    var s' := Step(net, s, Receive(fd, Login(id, password, env)));
    var me := Entry(id, fd, env.peer.value);
    assert s'.online[0] == me;
    assert Session(s', fd, id);
  }

  /** Who has been asked may answer. */
  lemma AskedMayAnswer(net: Net, s: Srv, fd: int, src: int, dst: int, answer: int)
    requires Consistent(s) && Tabled(s) && Calm(net) && Legal(s, Receive(fd, AskFriend(src, dst)))
    requires dst in Ids(s.online) && dst !in Rows(s.db, src)
    ensures var s' := Step(net, s, Receive(fd, AskFriend(src, dst)));
            Legal(s', Receive(FdOf(s, dst), AnswerFriend(src, dst, answer)))
  {
    var ev := Receive(fd, AskFriend(src, dst));
    StepEffect(net, s, ev);
    var g := FdOf(s, dst);
    var s' := Step(net, s, ev);
    assert s'.Trace(g) == s.Trace(g) + (AnswerOn(s, ev, g) + NewsOf(s, ev, g));
    assert AnswerOn(s, ev, g) == [AddFriend(src, dst)];
  }
}
