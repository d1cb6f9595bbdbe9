/** What each request is answered: over whole runs, whatever writes fail, and
    what else is told when none does. */
module Replies {
  import opened Wrappers
  import opened Presence
  import opened Packets
  import opened Database
  import opened ServerSpec
  import opened Cascade
  import opened Sessions
  import opened Agreement
  import opened Grammar

  /** Packets that answer or forward a request; the others are about presence. */
  predicate IsAnswer(p: Packet) {
    p.RegisterReply? || p.LoginFeedback? || p.AddFriend? || p.AllowAddf?
  }

  /** The answers in a trace, in order. */
  function Answers(t: seq<Packet>): seq<Packet> {
    if t == [] then []
    else Answers(t[..|t| - 1]) + if IsAnswer(t[|t| - 1]) then [t[|t| - 1]] else []
  }

  lemma AnswersSnoc(t: seq<Packet>, p: Packet)
    ensures Answers(t + [p]) == Answers(t) + if IsAnswer(p) then [p] else []
  {
    assert (t + [p])[..|t|] == t;
  }

  lemma {:induction false} AnswersTold(t: seq<Packet>, u: seq<Packet>, ids: set<int>)
    requires Told(t, u, ids)
    ensures Answers(u) == Answers(t)
    decreases |u|
  {
    if |u| > |t| { AnswersTold(t, u[..|u| - 1], ids - {u[|u| - 1].gone}); }
  }

  /** No write to fd fails. */
  ghost predicate Reliable(net: Net, fd: int) {
    forall k: nat, p :: !net(k, fd, p)
  }

  /** But for those in `closed`, a connection to which no write fails stays open
      and watched. */
  ghost predicate Kept(net: Net, s: Srv, s': Srv, closed: set<int>) {
    forall fd :: fd in s.open && Reliable(net, fd) && fd !in closed ==>
      fd in s'.open && (fd in s.watched ==> fd in s'.watched)
  }

  /** No open connection is new, and none has been sent a further answer. */
  ghost predicate Silent(net: Net, s: Srv, s': Srv, closed: set<int>) {
    && (forall fd :: fd in s'.open ==> fd in s.open && Answers(s'.Trace(fd)) == Answers(s.Trace(fd)))
    && Kept(net, s, s', closed)
  }

  /** A session that is lost to a cascade of the session id was not reliable. */
  lemma ExactKeeps(net: Net, s: Srv, s': Srv, id: int, closed: set<int>)
    requires Exact(net, s, s', [], id, closed)
    requires forall e :: e in s.online && e.id == id ==> e.fd in closed
    ensures Kept(net, s, s', closed)
  {
    forall fd | fd in s.open && Reliable(net, fd) && fd !in closed ensures fd !in FdsOf(s.online, Lost(s, s')) {
      forall e | e in s.online && e.fd == fd ensures e.id !in Lost(s, s') {
        assert Hears(net, e.fd) && e in s'.online;
      }
    }
  }

  /** A cascade answers nobody who is left, whatever fails in it. */
  lemma ExactSilent(net: Net, s: Srv, s': Srv, id: int, closed: set<int>)
    requires Exact(net, s, s', [], id, closed)
    requires forall e :: e in s.online && e.id == id ==> e.fd in closed
    ensures Silent(net, s, s', closed)
  {
    ExactKeeps(net, s, s', id, closed);
    forall fd | fd in s'.open ensures Answers(s'.Trace(fd)) == Answers(s.Trace(fd)) {
      if fd in Fds(s.online) {
        var e :| e in s.online && e.fd == fd;
        assert e in s'.online by { assert e.id in Lost(s, s') ==> fd in FdsOf(s.online, Lost(s, s')); }
        AnswersTold(s.Trace(fd), s'.Trace(fd), News(s.db, e.id, Lost(s, s'), [], id));
      }
    }
  }

  /** One answer p has been sent to fd, if that is still open; to no other
      open connection any. */
  ghost predicate AnsweredOnly(net: Net, s: Srv, s': Srv, fd: int, p: Packet, closed: set<int>) {
    && (forall g :: g in s'.open ==>
          g in s.open && Answers(s'.Trace(g)) == Answers(s.Trace(g)) + if g == fd then [p] else [])
    && Kept(net, s, s', closed)
  }

  /** What is closed by a failed write to fd was not reliable. */
  lemma FailedWriteSilent(net: Net, s: Srv, fd: int, p: Packet)
    requires Sane(s) && !WriteServer(net, s, fd, p).1 && fd in s.open
    ensures Silent(net, s, WriteServer(net, s, fd, p).0, {})
  {
    WriteEffect(net, s, fd, p);
    DistinctUnique(s.online, ById);
    NoFdNoSession(s, fd);
    ExactSilent(net, s, WriteServer(net, s, fd, p).0, SessionOf(s.online, fd), {fd});
    assert !Reliable(net, fd);
  }

  /** A write to a connection that is closed already changes no open one. */
  lemma ClosedWriteSilent(net: Net, s: Srv, fd: int, p: Packet)
    requires Sane(s) && fd !in s.open
    ensures Silent(net, s, WriteServer(net, s, fd, p).0, {})
  {
    assert fd !in Fds(s.online);
    ClosedWrite(net, s, fd, p);
  }

  lemma WriteAnswers(net: Net, s: Srv, fd: int, p: Packet)
    requires Sane(s) && IsAnswer(p)
    ensures AnsweredOnly(net, s, WriteServer(net, s, fd, p).0, fd, p, {})
  {
    WriteEffect(net, s, fd, p);
    var (s1, ok) := WriteServer(net, s, fd, p);
    if ok {
      PutGrows(s, s1, fd, p);
      AnswersSnoc(s.Trace(fd), p);
    } else {
      WriteSilentIfFailed(net, s, fd, p);
    }
  }

  lemma WriteSilentIfFailed(net: Net, s: Srv, fd: int, p: Packet)
    requires Sane(s) && !WriteServer(net, s, fd, p).1
    ensures Silent(net, s, WriteServer(net, s, fd, p).0, {}) && fd !in WriteServer(net, s, fd, p).0.open
  {
    WriteEffect(net, s, fd, p);
    if fd in s.open { FailedWriteSilent(net, s, fd, p); } else { ClosedWriteSilent(net, s, fd, p); }
  }

  lemma WriteSilent(net: Net, s: Srv, fd: int, p: Packet)
    requires Sane(s) && !IsAnswer(p)
    ensures Silent(net, s, WriteServer(net, s, fd, p).0, {})
  {
    WriteEffect(net, s, fd, p);
    var (s1, ok) := WriteServer(net, s, fd, p);
    if ok {
      PutGrows(s, s1, fd, p);
      AnswersSnoc(s.Trace(fd), p);
    } else {
      WriteSilentIfFailed(net, s, fd, p);
    }
  }

  lemma AnsweredThenSilent(net: Net, s: Srv, s1: Srv, s2: Srv, fd: int, p: Packet, closed: set<int>)
    requires AnsweredOnly(net, s, s1, fd, p, {}) && Silent(net, s1, s2, closed)
    ensures AnsweredOnly(net, s, s2, fd, p, closed)
  {
  }

  lemma GreetOneSilent(net: Net, s: Srv, row: int, me: Entry)
    requires Consistent(s) && (me in s.online || me.fd !in s.open)
    ensures Silent(net, s, GreetOne(net, s, row, me).0, {})
  {
    var friend := Find(s.online, row, ById);
    if friend.Some? {
      var s1 := WriteServer(net, s, friend.value.fd, OnlineNote(me)).0;
      WriteConsistent(net, s, friend.value.fd, OnlineNote(me));
      WriteSilent(net, s, friend.value.fd, OnlineNote(me));
      WriteSilent(net, s1, me.fd, OnlineNote(friend.value));
    }
  }

  lemma {:induction false} GreetSilent(net: Net, s: Srv, rows: seq<int>, me: Entry)
    requires Consistent(s) && (me in s.online || me.fd !in s.open)
    ensures Silent(net, s, Greet(net, s, rows, me), {})
    decreases |rows|
  {
    if rows != [] {
      var (s1, on) := GreetOne(net, s, rows[0], me);
      GreetOneConsistent(net, s, rows[0], me);
      GreetOneSilent(net, s, rows[0], me);
      if on {
        GreetSilent(net, s1, rows[1..], me);
      }
    }
  }

  lemma AdmitAnswers(net: Net, s: Srv, me: Entry)
    requires Consistent(s) && 0 < me.id && me.fd in s.watched
    requires me.fd !in Fds(s.online) && me.id !in Ids(s.online)
    ensures AnsweredOnly(net, s, Admit(net, s, me), me.fd, LoginFeedback(0), if me.id in s.db.tables then {} else {me.fd})
  {
    var s1, s2 := s.(online := [me] + s.online), Seated(net, s, me);
    NewcomerConsistent(s, s1, me);
    WriteConsistent(net, s1, me.fd, LoginFeedback(0));
    WriteAnswers(net, s1, me.fd, LoginFeedback(0));
    assert AnsweredOnly(net, s, s2, me.fd, LoginFeedback(0), {}) by {
      assert forall g :: s1.Trace(g) == s.Trace(g);
    }
    assert me in s1.online;
    if me.id in s2.db.tables {
      GreetSilent(net, s2, s2.db.tables[me.id], me);
    } else {
      StrangerDropped(net, s1, s2, me);
    }
    AnsweredThenSilent(net, s, s2, Admit(net, s, me), me.fd, LoginFeedback(0), if me.id in s.db.tables then {} else {me.fd});
  }

  lemma StrangerDropped(net: Net, s1: Srv, s2: Srv, me: Entry)
    requires Consistent(s1) && me in s1.online && Consistent(s2) && Shed(s1, s2) && me.id !in s2.db.tables
    ensures Silent(net, s2, OfflineAction(net, s2, me.fd, me.id), {me.fd})
  {
    DistinctUnique(s1.online, ById);
    DistinctUnique(s1.online, ByFd);
    OfflineConsistent(net, s2, me.fd, me.id);
    ExactSilent(net, s2, OfflineAction(net, s2, me.fd, me.id), me.id, {me.fd});
  }

  /** The flag of a login's feedback. */
  ghost function Flag(s: Srv, id: int, password: string, env: LoginEnv): int {
    if !env.dbUp then -2
    else if !Credentials(s, id, password) then -1
    else if id in Ids(s.online) then -3
    else 0
  }

  /** The answer an event calls for, and on which connection: a registration and
      a login are answered on their own, a friend request is forwarded to the
      other if it is an online stranger and is refused otherwise, and the answer
      to one goes to the asker if it is online. */
  ghost function Answer(s: Srv, ev: Event): Option<(int, Packet)>
    requires Legal(s, ev)
  {
    match ev
    case Receive(fd, Register(password, env)) => Some((fd, RegisterReply(RegisterUser(s.db, password, env).1)))
    case Receive(fd, Login(id, password, env)) => Some((fd, LoginFeedback(Flag(s, id, password, env))))
    case Receive(fd, AskFriend(src, dst)) =>
      if dst in Rows(s.db, src) then Some((fd, AllowAddf(src, dst, 4)))
      else if dst !in Ids(s.online) then Some((fd, AllowAddf(src, dst, 2)))
      else Some((FdOf(s, dst), AddFriend(src, dst)))
    case Receive(_, AnswerFriend(src, dst, answer)) =>
      if src !in Ids(s.online) || answer !in {0, 1} then None
      else Some((FdOf(s, src), AllowAddf(src, dst, if answer == 1 && dst in Rows(s.db, src) then 3 else answer)))
    case _ => None
  }

  ghost function FdOf(s: Srv, id: int): int
    requires id in Ids(s.online)
  {
    var e :| e in s.online && e.id == id; e.fd
  }

  lemma FdIsFound(s: Srv, id: int)
    requires Distinct(s.online, ById)
    ensures id in Ids(s.online) <==> Find(s.online, id, ById).Some?
    ensures id in Ids(s.online) ==> FdOf(s, id) == Find(s.online, id, ById).value.fd
  {
    DistinctUnique(s.online, ById);
  }

  /** One event: the answer it calls for is sent, and no other. */
  ghost predicate Answered(net: Net, s: Srv, s': Srv, answer: Option<(int, Packet)>, closed: set<int>) {
    if answer.None? then Silent(net, s, s', closed) else AnsweredOnly(net, s, s', answer.value.0, answer.value.1, closed)
  }

  /** The connections an event ends by itself: that of a failed read, of a
      departure, and of a login that gets past its checks but has no peer address
      or no friend table. */
  ghost function Closing(s: Srv, ev: Event): set<int> {
    match ev
    case Hangup(fd) => {fd}
    case Receive(fd, Offline(_)) => {fd}
    case Receive(fd, Login(id, password, env)) =>
      if Flag(s, id, password, env) == 0 && (env.peer.None? || id !in s.db.tables) then {fd} else {}
    case _ => {}
  }

  lemma RegisterAnswers(net: Net, s: Srv, fd: int, password: string, env: RegisterEnv)
    requires Consistent(s) && HasNewest(s.db, env)
    ensures AnsweredOnly(net, s, RegisterAction(net, s, fd, password, env), fd, RegisterReply(RegisterUser(s.db, password, env).1), {})
  {
    var (db, id) := RegisterUser(s.db, password, env);
    RegisterEffect(s.db, password, env);
    NewDb(s, db);
    WriteAnswers(net, s.(db := db), fd, RegisterReply(id));
    assert forall g :: s.(db := db).Trace(g) == s.Trace(g);
  }

  lemma LoginAnswers(net: Net, s: Srv, fd: int, id: int, password: string, env: LoginEnv)
    requires Consistent(s) && fd in s.watched && fd !in Fds(s.online)
    ensures AnsweredOnly(net, s, LoginAction(net, s, fd, id, password, env), fd, LoginFeedback(Flag(s, id, password, env)),
                         Closing(s, Receive(fd, Login(id, password, env))))
    ensures Flag(s, id, password, env) == 0 && !Admits(s, id, password, env) ==>
      fd !in LoginAction(net, s, fd, id, password, env).open
  {
    var row, flag := FindUser(s.db.users, id), Flag(s, id, password, env);
    FindUserIff(s.db.users, id, password);
    FdIsFound(s, id);
    if flag != 0 {
      WriteAnswers(net, s, fd, LoginFeedback(flag));
    } else if env.peer.None? {
      NoFdNoSession(s, fd);
      HangupConsistent(net, s, fd);
      ExactSilent(net, s, OfflineAction(net, s, fd, -1), -1, {fd});
    } else {
      AdmitAnswers(net, s, Entry(id, fd, env.peer.value));
    }
  }

  lemma AskAnswers(net: Net, s: Srv, fd: int, src: int, dst: int)
    requires Consistent(s) && Tabled(s) && Legal(s, Receive(fd, AskFriend(src, dst)))
    ensures Answered(net, s, AddFriendAction(net, s, fd, src, dst), Answer(s, Receive(fd, AskFriend(src, dst))), {})
  {
    FdIsFound(s, dst);
    assert src in s.db.tables;
    if dst in Rows(s.db, src) {
      WriteAnswers(net, s, fd, AllowAddf(src, dst, 4));
    } else if dst !in Ids(s.online) {
      WriteAnswers(net, s, fd, AllowAddf(src, dst, 2));
    } else {
      WriteAnswers(net, s, FdOf(s, dst), AddFriend(src, dst));
    }
  }

  lemma AnnounceAnswers(net: Net, s: Srv, psrc: Entry, pdst: Option<Entry>, src: int, dst: int)
    requires Consistent(s) && psrc in s.online && (pdst.Some? ==> pdst.value in s.online)
    ensures AnsweredOnly(net, s, AnnouncePair(net, s, Some(psrc), pdst, src, dst), psrc.fd, AllowAddf(src, dst, 1), {})
  {
    var s1 := WriteServer(net, s, psrc.fd, AllowAddf(src, dst, 1)).0;
    WriteSane(net, s, psrc.fd, AllowAddf(src, dst, 1));
    WriteAnswers(net, s, psrc.fd, AllowAddf(src, dst, 1));
    if pdst.Some? {
      IntroductionsSilent(net, s1, psrc, pdst.value);
      AnsweredThenSilent(net, s, s1, AnnouncePair(net, s, Some(psrc), pdst, src, dst), psrc.fd, AllowAddf(src, dst, 1), {});
    }
  }

  /** The two introductions after an acceptance are no answers. */
  lemma IntroductionsSilent(net: Net, s: Srv, psrc: Entry, pdst: Entry)
    requires Sane(s)
    ensures var s1 := WriteServer(net, s, psrc.fd, OnlineNote(pdst)).0;
            Silent(net, s, WriteServer(net, s1, pdst.fd, OnlineNote(psrc)).0, {})
  {
    var s1 := WriteServer(net, s, psrc.fd, OnlineNote(pdst)).0;
    WriteSane(net, s, psrc.fd, OnlineNote(pdst));
    WriteSilent(net, s, psrc.fd, OnlineNote(pdst));
    WriteSilent(net, s1, pdst.fd, OnlineNote(psrc));
    SilentTwice(net, s, s1, WriteServer(net, s1, pdst.fd, OnlineNote(psrc)).0);
  }

  lemma WriteSane(net: Net, s: Srv, fd: int, p: Packet)
    requires Sane(s)
    ensures Sane(WriteServer(net, s, fd, p).0)
  {
    WriteEffect(net, s, fd, p);
    var (s1, ok) := WriteServer(net, s, fd, p);
    if !ok { ExactSheds(net, s, s1, SessionOf(s.online, fd), {fd}); }
  }

  lemma SilentTwice(net: Net, s: Srv, s1: Srv, s2: Srv)
    requires Silent(net, s, s1, {}) && Silent(net, s1, s2, {})
    ensures Silent(net, s, s2, {})
  {
  }

  lemma AcceptedAnswers(net: Net, s: Srv, src: int, dst: int)
    requires Consistent(s) && src != dst && src in s.db.tables && dst in s.db.tables && src in Ids(s.online)
    ensures AnsweredOnly(net, s, AllowAddfAction(net, s, src, dst, 1), FdOf(s, src),
                         AllowAddf(src, dst, if dst in Rows(s.db, src) then 3 else 1), {})
  {
    var (db, inserted) := InsertPair(s.db, src, dst);
    var s1 := s.(db := db);
    InsertPairEffect(s.db, src, dst);
    NewDb(s, db);
    FdIsFound(s, src);
    var psrc := Find(s.online, src, ById).value;
    if inserted {
      AnnounceAnswers(net, s1, psrc, Find(s.online, dst, ById), src, dst);
    } else {
      WriteAnswers(net, s1, psrc.fd, AllowAddf(src, dst, 3));
    }
    assert forall g :: s1.Trace(g) == s.Trace(g);
  }

  lemma AnswerAnswers(net: Net, s: Srv, fd: int, src: int, dst: int, answer: int)
    requires Consistent(s) && Tabled(s) && Legal(s, Receive(fd, AnswerFriend(src, dst, answer)))
    ensures Answered(net, s, AllowAddfAction(net, s, src, dst, answer), Answer(s, Receive(fd, AnswerFriend(src, dst, answer))), {})
  {
    AnswerIsProper(s, fd, src, dst);
    FdIsFound(s, src);
    if src !in Ids(s.online) {
      var s' := AllowAddfAction(net, s, src, dst, answer);
      assert s'.open == s.open && forall g :: s'.Trace(g) == s.Trace(g);
    } else if answer == 1 {
      AcceptedAnswers(net, s, src, dst);
    } else if answer == 0 {
      WriteAnswers(net, s, FdOf(s, src), AllowAddf(src, dst, 0));
    }
  }

  /** A login that is told 0. */
  ghost predicate Welcomes(s: Srv, ev: Event)
    requires Legal(s, ev)
  {
    ev.Receive? && Answer(s, ev) == Some((ev.fd, LoginFeedback(0)))
  }

  /** Every handler answers exactly as its event calls for, whatever writes fail. */
  lemma StepAnswers(net: Net, s: Srv, ev: Event)
    requires Consistent(s) && Tabled(s) && Legal(s, ev) && !ev.Accept?
    ensures Answered(net, s, Step(net, s, ev), Answer(s, ev), Closing(s, ev))
    ensures Welcomes(s, ev) && Newcomers(s, ev) == {} ==> ev.fd !in Step(net, s, ev).open
  {
    match ev
    case Hangup(fd) => DropSilent(net, s, fd);
    case Receive(fd, req) =>
      match req
      case Register(password, env) => RegisterAnswers(net, s, fd, password, env);
      case Login(id, password, env) => LoginAnswers(net, s, fd, id, password, env);
      case Heartbeat =>
      case Offline(id) =>
        DistinctUnique(s.online, ByFd);
        DropSilent(net, s, fd);
      case AskFriend(src, dst) => AskAnswers(net, s, fd, src, dst);
      case AnswerFriend(src, dst, answer) => AnswerAnswers(net, s, fd, src, dst, answer);
  }

  lemma DropSilent(net: Net, s: Srv, fd: int)
    requires Consistent(s)
    ensures Silent(net, s, OfflineAction(net, s, fd, SessionOf(s.online, fd)), {fd})
  {
    HangupConsistent(net, s, fd);
    DistinctUnique(s.online, ById);
    NoFdNoSession(s, fd);
    ExactSilent(net, s, OfflineAction(net, s, fd, SessionOf(s.online, fd)), SessionOf(s.online, fd), {fd});
  }

  /** The answers due on the present connection of fd after one more event. */
  ghost function DueAfter(s: Srv, ev: Event, fd: int, due: seq<Packet>): seq<Packet>
    requires Legal(s, ev)
  {
    var answer := Answer(s, ev);
    if ev == Accept(fd) then []
    else if answer.Some? && answer.value.0 == fd then due + [answer.value.1]
    else due
  }

  /** The answers a run has called for on the present connection of fd, given
      those it had called for before. */
  ghost function Due(s: Srv, run: seq<Round>, fd: int, due: seq<Packet>): seq<Packet>
    requires LegalRun(s, run)
    decreases |run|
  {
    if run == [] then due
    else Due(Step(run[0].net, s, run[0].ev), run[1..], fd, DueAfter(s, run[0].ev, fd, due))
  }

  lemma {:induction false} RunAnswers(s: Srv, run: seq<Round>, fd: int, due: seq<Packet>)
    requires Consistent(s) && Tabled(s) && LegalRun(s, run) && fd in Final(s, run).open
    requires fd in s.open ==> Answers(s.Trace(fd)) == due
    ensures Answers(Final(s, run).Trace(fd)) == Due(s, run, fd, due)
    decreases |run|
  {
    if run != [] {
      var r := run[0];
      StepConsistent(r.net, s, r.ev);
      if !r.ev.Accept? {
        StepAnswers(r.net, s, r.ev);
      }
      RunAnswers(Step(r.net, s, r.ev), run[1..], fd, DueAfter(s, r.ev, fd, due));
    }
  }

  /** Over every run, whatever writes fail: every open connection has been sent
      exactly the answers that the requests since its beginning called for, in
      their order, and nothing else but presence. */
  lemma AnswersThroughout(s: Srv, run: seq<Round>, fd: int)
    requires Initial(s) && LegalRun(s, run) && fd in Final(s, run).open
    ensures Answers(Final(s, run).Trace(fd)) == Due(s, run, fd, [])
  {
    RunAnswers(s, run, fd, []);
  }

  ghost predicate Welcomed(s: Srv, fd: int) {
    LoginFeedback(0) in Answers(s.Trace(fd))
  }

  /** Whoever has been told 0 has a session, and nobody else. */
  ghost predicate WelcomedAreOnline(s: Srv) {
    forall fd :: fd in s.open ==> (fd in Fds(s.online) <==> Welcomed(s, fd))
  }

  lemma StepWelcomes(net: Net, s: Srv, ev: Event)
    requires Consistent(s) && Tabled(s) && Legal(s, ev) && WelcomedAreOnline(s)
    ensures WelcomedAreOnline(Step(net, s, ev))
  {
    var s' := Step(net, s, ev);
    if ev.Accept? {
      AcceptWelcomes(s, s', ev.fd);
    } else {
      StepConsistent(net, s, ev);
      StepAnswers(net, s, ev);
      forall fd | fd in s'.open ensures fd in Fds(s'.online) <==> Welcomed(s', fd) {
        OneWelcomed(net, s, s', ev, fd);
      }
    }
  }

  lemma AcceptWelcomes(s: Srv, s': Srv, fd: int)
    requires Sane(s) && WelcomedAreOnline(s) && fd !in s.open
    requires s' == s.(watched := s.watched + {fd}, open := s.open + {fd}, out := s.out[fd := []])
    ensures WelcomedAreOnline(s')
  {
    assert fd !in Fds(s.online);
    assert forall g :: g != fd ==> s'.Trace(g) == s.Trace(g);
  }

  lemma OneWelcomed(net: Net, s: Srv, s': Srv, ev: Event, fd: int)
    requires Legal(s, ev) && WelcomedAreOnline(s) && Ends(s, s', Newcomers(s, ev)) && fd in s'.open
    requires Answered(net, s, s', Answer(s, ev), Closing(s, ev))
    requires Welcomes(s, ev) && Newcomers(s, ev) == {} ==> ev.fd !in s'.open
    ensures fd in Fds(s'.online) <==> Welcomed(s', fd)
  {
    var answer := Answer(s, ev);
    assert Welcomed(s', fd) <==> Welcomed(s, fd) || answer == Some((fd, LoginFeedback(0)));
    if e :| e in s'.online && e.fd == fd {
      if e in Newcomers(s, ev) {
        assert answer == Some((fd, LoginFeedback(0)));
      } else {
        assert fd in Fds(s.online);
      }
    }
    if fd in Fds(s.online) {
      var e :| e in s.online && e.fd == fd;
      assert e in s'.online;
    }
    if answer == Some((fd, LoginFeedback(0))) {
      assert Welcomes(s, ev);
      var me :| me in Newcomers(s, ev);
      assert me.fd == fd && me in s'.online;
    }
  }

  lemma {:induction false} RunWelcomes(s: Srv, run: seq<Round>)
    requires Consistent(s) && Tabled(s) && LegalRun(s, run) && WelcomedAreOnline(s)
    ensures WelcomedAreOnline(Final(s, run))
    decreases |run|
  {
    if run != [] {
      StepConsistent(run[0].net, s, run[0].ev);
      StepWelcomes(run[0].net, s, run[0].ev);
      RunWelcomes(Step(run[0].net, s, run[0].ev), run[1..]);
    }
  }

  lemma {:induction false} AnswersAreSent(t: seq<Packet>, p: Packet)
    requires IsAnswer(p)
    ensures p in Answers(t) <==> p in t
  {
    if t != [] {
      AnswersAreSent(t[..|t| - 1], p);
      assert t == t[..|t| - 1] + [t[|t| - 1]];
    }
  }

  /** Client and server agree on who is logged in: over every run and whatever
      writes fail, an open connection has a session if and only if it has been
      sent the feedback on which its client takes itself to be logged in. */
  lemma SessionsThroughout(s: Srv, run: seq<Round>, fd: int)
    requires Initial(s) && LegalRun(s, run) && fd in Final(s, run).open
    ensures fd in Fds(Final(s, run).online) <==> LoginFeedback(0) in Final(s, run).Trace(fd)
  {
    RunWelcomes(s, run);
    AnswersAreSent(Final(s, run).Trace(fd), LoginFeedback(0));
  }

  /** What a client sends and then blocks for. */
  datatype Kind = Registering | LoggingIn

  function KindOf(p: Packet): seq<Kind> {
    if p.RegisterReply? then [Registering] else if p.LoginFeedback? then [LoggingIn] else []
  }

  /** The handshake answers in a trace, by kind. */
  function Replied(t: seq<Packet>): seq<Kind> {
    if t == [] then [] else Replied(t[..|t| - 1]) + KindOf(t[|t| - 1])
  }

  function RequestedAfter(ev: Event, fd: int, before: seq<Kind>): seq<Kind> {
    match ev
    case Accept(g) => if g == fd then [] else before
    case Receive(g, req) =>
      before +
      if g != fd then [] else if req.Register? then [Registering] else if req.Login? then [LoggingIn] else []
    case Hangup(_) => before
  }

  /** The handshake requests received on the present connection of fd, given
      those received before the run. */
  function Requested(run: seq<Round>, fd: int, before: seq<Kind>): seq<Kind> {
    if run == [] then before else Requested(run[1..], fd, RequestedAfter(run[0].ev, fd, before))
  }

  lemma RepliedSnoc(t: seq<Packet>, p: Packet)
    ensures Replied(t + [p]) == Replied(t) + KindOf(p)
  {
    assert (t + [p])[..|t|] == t;
  }

  lemma {:induction false} RepliedIsAnswered(t: seq<Packet>)
    ensures Replied(t) == Replied(Answers(t))
  {
    if t != [] {
      var t0, p := t[..|t| - 1], t[|t| - 1];
      RepliedIsAnswered(t0);
      RepliedSnoc(Answers(t0), p);
      assert Answers(t0) + [] == Answers(t0);
    }
  }

  lemma DueOneMore(s: Srv, ev: Event, fd: int, due: seq<Packet>)
    requires Legal(s, ev)
    ensures Replied(DueAfter(s, ev, fd, due)) == RequestedAfter(ev, fd, Replied(due))
  {
    var answer := Answer(s, ev);
    if answer.Some? {
      RepliedSnoc(due, answer.value.1);
    }
    assert Replied(due) + [] == Replied(due);
  }

  lemma {:induction false} DueReplies(s: Srv, run: seq<Round>, fd: int, due: seq<Packet>)
    requires LegalRun(s, run)
    ensures Replied(Due(s, run, fd, due)) == Requested(run, fd, Replied(due))
    decreases |run|
  {
    if run != [] {
      DueOneMore(s, run[0].ev, fd, due);
      DueReplies(Step(run[0].net, s, run[0].ev), run[1..], fd, DueAfter(s, run[0].ev, fd, due));
    }
  }

  /** So the client's blocking reads find what they wait for: on every open
      connection of every run, registrations and logins have been answered one
      for one, each by a packet of its own kind, in order, and nothing else has. */
  lemma HandshakesThroughout(s: Srv, run: seq<Round>, fd: int)
    requires Initial(s) && LegalRun(s, run) && fd in Final(s, run).open
    ensures Replied(Final(s, run).Trace(fd)) == Requested(run, fd, [])
  {
    AnswersThroughout(s, run, fd);
    RepliedIsAnswered(Final(s, run).Trace(fd));
    DueReplies(s, run, fd, []);
  }

  ghost predicate Credentials(s: Srv, id: int, password: string) {
    User(id, password) in s.db.users
  }
}
