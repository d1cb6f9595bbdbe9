/** The order of packets on one connection. */
module Grammar {
  import opened Wrappers
  import opened Presence
  import opened Packets
  import opened Database
  import opened ServerSpec
  import opened Cascade
  import opened Sessions
  import opened Agreement

  /** Where a connection stands: before its session, in it with the peers it
      was last told are online, or after the server's goodbye. */
  datatype Stage = Greeting | InSession(peers: set<int>) | Over | Broken

  function Advance(st: Stage, p: Packet): Stage {
    match st
    case Greeting =>
      (match p
       case RegisterReply(_) => Greeting
       case LoginFeedback(flag) => if flag == 0 then InSession({}) else Greeting
       case _ => Broken)
    case InSession(peers) =>
      (match p
       case OnlineNote(e) => if e.id in peers then Broken else InSession(peers + {e.id})
       case OfflineNote(id) => if id in peers then InSession(peers - {id}) else Broken
       case AddFriend(_, _) => st
       case AllowAddf(_, _, _) => st
       case AllowDisconnect => Over
       case _ => Broken)
    case _ => Broken
  }

  function StageOf(t: seq<Packet>): Stage {
    if t == [] then Greeting else Advance(StageOf(t[..|t| - 1]), t[|t| - 1])
  }

  lemma StageSnoc(t: seq<Packet>, p: Packet)
    ensures StageOf(t + [p]) == Advance(StageOf(t), p)
  {
    assert (t + [p])[..|t|] == t;
  }

  lemma {:induction false} PrefixesFit(t: seq<Packet>, i: nat)
    requires StageOf(t) != Broken && i <= |t|
    ensures StageOf(t[..i]) != Broken
    decreases |t|
  {
    if i < |t| {
      PrefixesFit(t[..|t| - 1], i);
      assert t[..|t| - 1][..i] == t[..i];
    } else {
      assert t[..i] == t;
    }
  }

  lemma PrefixStep(t: seq<Packet>, i: nat)
    requires StageOf(t) != Broken && i < |t|
    ensures StageOf(t[..i]) != Broken && StageOf(t[..i + 1]) != Broken
    ensures StageOf(t[..i + 1]) == Advance(StageOf(t[..i]), t[i])
  {
    PrefixesFit(t, i);
    PrefixesFit(t, i + 1);
    assert t[..i + 1] == t[..i] + [t[i]];
    StageSnoc(t[..i], t[i]);
  }

  /** After the goodbye nothing is sent. */
  lemma GoodbyeIsLast(t: seq<Packet>, i: nat)
    requires StageOf(t) != Broken && i < |t| && t[i] == AllowDisconnect
    ensures i == |t| - 1
  {
    PrefixStep(t, i);
    if i + 1 < |t| {
      PrefixStep(t, i + 1);
    }
  }

  ghost predicate About(p: Packet, d: int) {
    p == OfflineNote(d) || (p.OnlineNote? && p.entry.id == d)
  }

  ghost predicate Knows(st: Stage, d: int) {
    st.InSession? && d in st.peers
  }

  lemma {:induction false} KnowsUnchanged(t: seq<Packet>, i: nat, j: nat, d: int)
    requires StageOf(t) != Broken && i <= j <= |t| && StageOf(t[..j]) != Over
    requires forall k :: i <= k < j ==> !About(t[k], d)
    ensures Knows(StageOf(t[..i]), d) <==> Knows(StageOf(t[..j]), d)
    decreases j
  {
    if i < j {
      PrefixStep(t, j - 1);
      KnowsUnchanged(t, i, j - 1, d);
    }
  }

  /** For each peer, OP_ONLINE and OP_OFFLINE strictly alternate, beginning
      with OP_ONLINE: the first packet about d announces it, and of two
      consecutive packets about d one is of each kind. */
  lemma Alternates(t: seq<Packet>, i: int, j: nat, d: int)
    requires StageOf(t) != Broken && -1 <= i < j < |t|
    requires About(t[j], d) && (0 <= i ==> About(t[i], d))
    requires forall k :: i < k < j ==> !About(t[k], d)
    ensures t[j].OnlineNote? <==> i == -1 || t[i].OfflineNote?
  {
    PrefixStep(t, j);
    KnowsUnchanged(t, i + 1, j, d);
    if 0 <= i {
      PrefixStep(t, i);
    }
  }

  /** A login succeeds at most once, and everything about friends comes after. */
  lemma SessionBeginsOnce(t: seq<Packet>, i: nat, j: nat)
    requires StageOf(t) != Broken && i < j < |t| && t[i] == LoginFeedback(0)
    ensures !t[j].LoginFeedback? && !t[j].RegisterReply?
  {
    PrefixStep(t, i);
    SessionStays(t, i + 1, j);
    PrefixStep(t, j);
  }

  lemma {:induction false} SessionStays(t: seq<Packet>, i: nat, j: nat)
    requires StageOf(t) != Broken && i <= j <= |t| && StageOf(t[..i]).InSession?
    ensures StageOf(t[..j]).InSession? || StageOf(t[..j]).Over?
    decreases j
  {
    if i < j {
      PrefixStep(t, j - 1);
      SessionStays(t, i, j - 1);
    }
  }

  /** A session's stage and its client's list name the same peers. */
  ghost predicate Matches(t: seq<Packet>) {
    StageOf(t) == InSession(Ids(View(t)))
  }

  /** Every connection is inside the grammar: a session knows exactly the
      friends its client lists, and a connection without one is being greeted. */
  ghost predicate Grammatical(s: Srv) {
    && (forall fd :: StageOf(s.Trace(fd)) != Broken)
    && (forall e :: e in s.online ==> Matches(s.Trace(e.fd)))
    && (forall fd :: fd in s.open && fd !in Fds(s.online) ==> StageOf(s.Trace(fd)) == Greeting)
  }

  lemma {:induction false} StageTold(t: seq<Packet>, u: seq<Packet>, ids: set<int>, peers: set<int>)
    requires StageOf(t) == InSession(peers) && Told(t, u, ids) && ids <= peers
    ensures StageOf(u) == InSession(peers - ids)
    decreases |u|
  {
    if |u| > |t| {
      var d := u[|u| - 1].gone;
      StageTold(t, u[..|u| - 1], ids - {d}, peers);
      assert peers - ids == (peers - (ids - {d})) - {d};
    }
  }

  lemma {:induction false} StagePartlyTold(t: seq<Packet>, u: seq<Packet>, ids: set<int>, peers: set<int>)
    requires StageOf(t) == InSession(peers) && PartlyTold(t, u, ids) && ids <= peers
    ensures StageOf(u).InSession? && peers - ids <= StageOf(u).peers
    decreases |u|
  {
    if |u| > |t| {
      var d := u[|u| - 1].gone;
      StagePartlyTold(t, u[..|u| - 1], ids - {d}, peers);
      assert d in peers - (ids - {d});
    }
  }

  lemma IdsWithout(l: seq<Entry>, ids: set<int>)
    ensures Ids(Without(l, ids)) == Ids(l) - ids
  {
    forall x | x in Ids(l) - ids ensures x in Ids(Without(l, ids)) {
      var e :| e in l && e.id == x;
      assert e in Without(l, ids);
    }
  }

  lemma MatchesTold(t: seq<Packet>, u: seq<Packet>, ids: set<int>)
    requires Matches(t) && Distinct(View(t), ById) && Told(t, u, ids) && ids <= Ids(View(t))
    ensures Matches(u)
  {
    StageTold(t, u, ids, Ids(View(t)));
    ViewTold(t, u, ids);
    IdsWithout(View(t), ids);
  }

  lemma FarewellFits(t: seq<Packet>, u: seq<Packet>, ids: set<int>)
    requires Matches(t) && Farewell(t, u, ids) && ids <= Ids(View(t))
    ensures StageOf(u) != Broken
  {
    if PartlyTold(t, u, ids) {
      StagePartlyTold(t, u, ids, Ids(View(t)));
    } else {
      StagePartlyTold(t, u[..|u| - 1], ids, Ids(View(t)));
    }
  }

  /** What a client is told of, its list holds. */
  lemma NewsListed(s: Srv, e: Entry, lost: set<int>, id: int)
    requires Sane(s) && Agree(s) && e in s.online && lost <= Ids(s.online)
    ensures News(s.db, e.id, lost, [], id) <= Ids(View(s.Trace(e.fd)))
  {
    forall d | d in News(s.db, e.id, lost, [], id) ensures d in Ids(View(s.Trace(e.fd))) {
      assert d in Ids(s.online);
      var x :| x in s.online && x.id == d;
      assert x in View(s.Trace(e.fd));
    }
  }

  /** A cascade from agreement stays inside the grammar, whatever fails. */
  lemma ExactGrammatical(net: Net, s: Srv, s': Srv, id: int, fd: int)
    requires Sane(s) && Agree(s) && Grammatical(s)
    requires Exact(net, s, s', [], id, {fd})
    requires fd !in Fds(s.online) ==> s'.Trace(fd) == s.Trace(fd)
    ensures Grammatical(s')
  {
    var lost := Lost(s, s');
    forall e | e in s.online
      ensures StageOf(s'.Trace(e.fd)) != Broken && (e in s'.online ==> Matches(s'.Trace(e.fd)))
    {
      NewsListed(s, e, lost, id);
      if e.id in lost {
        FarewellFits(s.Trace(e.fd), s'.Trace(e.fd), News(s.db, e.id, lost, [], id));
      } else {
        MatchesTold(s.Trace(e.fd), s'.Trace(e.fd), News(s.db, e.id, lost, [], id));
      }
    }
    forall g ensures StageOf(s'.Trace(g)) != Broken {
      if g !in Fds(s.online) { assert s'.Trace(g) == s.Trace(g); }
    }
    forall g | g in s'.open && g !in Fds(s'.online) ensures StageOf(s'.Trace(g)) == Greeting {
      assert g !in Fds(s.online);
    }
  }

  /** A packet about nobody, in its place. */
  ghost predicate InPlace(s: Srv, fd: int, p: Packet) {
    match p
    case RegisterReply(_) => fd !in Fds(s.online)
    case LoginFeedback(flag) => fd !in Fds(s.online) && flag != 0
    case AddFriend(_, _) => fd in Fds(s.online)
    case AllowAddf(_, _, _) => fd in Fds(s.online)
    case _ => false
  }

  lemma OneTraceGrammatical(s: Srv, s1: Srv, to: Entry)
    requires Grammatical(s) && to in s.online && s1.online == s.online && s1.open == s.open
    requires forall g :: g != to.fd ==> s1.Trace(g) == s.Trace(g)
    requires Matches(s1.Trace(to.fd))
    ensures Grammatical(s1)
  {
    assert to.fd in Fds(s.online);
  }

  lemma OneGreetingGrammatical(s: Srv, s1: Srv, fd: int)
    requires Grammatical(s) && fd !in Fds(s.online) && s1.online == s.online && s1.open == s.open
    requires forall g :: g != fd ==> s1.Trace(g) == s.Trace(g)
    requires StageOf(s1.Trace(fd)) == Greeting
    ensures Grammatical(s1)
  {
    assert forall e :: e in s.online ==> e.fd in Fds(s.online);
  }

  lemma MatchesMore(t: seq<Packet>, p: Packet)
    requires Matches(t) && (p.AddFriend? || p.AllowAddf?)
    ensures Matches(t + [p])
  {
    StageSnoc(t, p);
    ViewSnoc(t, p);
  }

  lemma GreetingMore(t: seq<Packet>, p: Packet)
    requires StageOf(t) == Greeting && (p.RegisterReply? || (p.LoginFeedback? && p.flag != 0))
    ensures StageOf(t + [p]) == Greeting
  {
    StageSnoc(t, p);
  }

  lemma PutGrammatical(s: Srv, s1: Srv, fd: int, p: Packet)
    requires Grammatical(s) && Put(s, s1, fd, p) && fd in s.open && InPlace(s, fd, p)
    ensures Grammatical(s1)
  {
    PutGrows(s, s1, fd, p);
    GrownGrammatical(s, s1, fd, p);
  }

  lemma GrownGrammatical(s: Srv, s1: Srv, fd: int, p: Packet)
    requires Grammatical(s) && Grown(s, s1, fd, p) && fd in s.open && InPlace(s, fd, p)
    ensures Grammatical(s1)
  {
    if fd in Fds(s.online) {
      var e :| e in s.online && e.fd == fd;
      MatchesMore(s.Trace(fd), p);
      OneTraceGrammatical(s, s1, e);
    } else {
      GreetingMore(s.Trace(fd), p);
      OneGreetingGrammatical(s, s1, fd);
    }
  }

  lemma WriteGrammatical(net: Net, s: Srv, fd: int, p: Packet)
    requires Sane(s) && Agree(s) && Grammatical(s) && InPlace(s, fd, p)
    ensures Grammatical(WriteServer(net, s, fd, p).0)
  {
    WriteEffect(net, s, fd, p);
    var (s1, ok) := WriteServer(net, s, fd, p);
    if ok {
      PutGrammatical(s, s1, fd, p);
    } else {
      NoFdNoSession(s, fd);
      ExactGrammatical(net, s, s1, SessionOf(s.online, fd), fd);
    }
  }

  lemma DropGrammatical(net: Net, s: Srv, fd: int)
    requires Consistent(s) && Agree(s) && Grammatical(s)
    ensures Grammatical(OfflineAction(net, s, fd, SessionOf(s.online, fd)))
  {
    HangupConsistent(net, s, fd);
    NoFdNoSession(s, fd);
    ExactGrammatical(net, s, OfflineAction(net, s, fd, SessionOf(s.online, fd)), SessionOf(s.online, fd), fd);
  }

  /** No write fails. */
  ghost predicate Calm(net: Net) {
    forall k: nat, g, p :: !net(k, g, p)
  }

  lemma MatchesIntroduced(t: seq<Packet>, about: Entry)
    requires Matches(t) && about.id !in Ids(View(t))
    ensures Matches(t + [OnlineNote(about)])
  {
    StageSnoc(t, OnlineNote(about));
    ViewSnoc(t, OnlineNote(about));
    assert Ids([about] + View(t)) == {about.id} + Ids(View(t));
  }

  /** Who is still to be introduced is not listed. */
  lemma DueIsUnlisted(s: Srv, to: Entry, about: Entry, n: int, rf: seq<int>, rn: seq<int>)
    requires Distinct(s.online, ById) && about in s.online && Shows(s, to, n, rf, rn)
    requires Hidden(n, rf, rn, to.id, about.id)
    ensures about.id !in Ids(View(s.Trace(to.fd)))
  {
    DistinctUnique(s.online, ById);
  }

  /** An introduction that is due is in its place. */
  lemma IntroduceGrammatical(net: Net, s: Srv, to: Entry, about: Entry, n: int, rf: seq<int>, rn: seq<int>)
    requires Sane(s) && Grammatical(s) && Calm(net) && to in s.online && about in s.online
    requires AgreeBut(s, n, rf, rn) && Hidden(n, rf, rn, to.id, about.id)
    ensures Grammatical(WriteServer(net, s, to.fd, OnlineNote(about)).0)
  {
    SessionPut(net, s, to, OnlineNote(about));
    DueIsUnlisted(s, to, about, n, rf, rn);
    MatchesIntroduced(s.Trace(to.fd), about);
    OneTraceGrammatical(s, WriteServer(net, s, to.fd, OnlineNote(about)).0, to);
  }

  lemma {:induction false} GreetGrammatical(net: Net, s: Srv, rows: seq<int>, me: Entry)
    requires Sane(s) && Grammatical(s) && Calm(net) && me in s.online && NoDup(rows)
    requires forall f :: f in rows ==> f in Rows(s.db, me.id)
    requires AgreeBut(s, me.id, rows, rows)
    ensures Grammatical(Greet(net, s, rows, me))
    decreases |rows|
  {
    if rows != [] {
      assert rows[0] in rows;
      assert rows[0] in Rows(s.db, me.id) && NoDup(rows[1..]);
      GreetOneAgrees(net, s, rows, me);
      GreetOneGrammatical(net, s, rows, me);
      GreetGrammatical(net, GreetOne(net, s, rows[0], me).0, rows[1..], me);
    }
  }

  lemma GreetOneGrammatical(net: Net, s: Srv, rows: seq<int>, me: Entry)
    requires Sane(s) && Grammatical(s) && Calm(net) && me in s.online && NoDup(rows) && rows != []
    requires rows[0] in Rows(s.db, me.id) && AgreeBut(s, me.id, rows, rows)
    ensures Grammatical(GreetOne(net, s, rows[0], me).0) && GreetOne(net, s, rows[0], me).1
  {
    var friend := Find(s.online, rows[0], ById);
    if friend.Some? {
      var s1 := WriteServer(net, s, friend.value.fd, OnlineNote(me)).0;
      FriendToldGrammatical(net, s, rows, me, friend.value);
      NewcomerToldGrammatical(net, s1, rows, me, friend.value);
    }
  }

  lemma FriendToldGrammatical(net: Net, s: Srv, rows: seq<int>, me: Entry, f: Entry)
    requires Sane(s) && Grammatical(s) && Calm(net) && me in s.online && NoDup(rows) && rows != []
    requires f in s.online && f.id == rows[0] && f.id in Rows(s.db, me.id) && AgreeBut(s, me.id, rows, rows)
    ensures var (s1, told) := WriteServer(net, s, f.fd, OnlineNote(me));
            && told && Grammatical(s1) && Sane(s1) && s1.online == s.online && s1.db == s.db
            && AgreeBut(s1, me.id, rows[1..], rows)
  {
    RowsSplit(me.id, rows, f.id);
    SessionPut(net, s, f, OnlineNote(me));
    IntroduceGrammatical(net, s, f, me, me.id, rows, rows);
    FriendAccepts(net, s, rows, me, f);
  }

  lemma NewcomerToldGrammatical(net: Net, s: Srv, rows: seq<int>, me: Entry, f: Entry)
    requires Sane(s) && Grammatical(s) && Calm(net) && me in s.online && NoDup(rows) && rows != []
    requires f in s.online && f.id == rows[0] && f.id in Rows(s.db, me.id) && AgreeBut(s, me.id, rows[1..], rows)
    ensures var (s1, heard) := WriteServer(net, s, me.fd, OnlineNote(f)); heard && Grammatical(s1)
  {
    RowsSplit(me.id, rows, f.id);
    SessionPut(net, s, me, OnlineNote(f));
    IntroduceGrammatical(net, s, me, f, me.id, rows[1..], rows);
  }

  lemma WelcomeMatches(t: seq<Packet>)
    requires StageOf(t) == Greeting && View(t) == []
    ensures Matches(t + [LoginFeedback(0)])
  {
    StageSnoc(t, LoginFeedback(0));
    ViewSnoc(t, LoginFeedback(0));
    assert Ids([]) == {};
  }

  lemma SeatedGrammatical(s: Srv, s2: Srv, me: Entry)
    requires Grammatical(s) && s2.online == [me] + s.online && s2.open == s.open
    requires forall g :: g != me.fd ==> s2.Trace(g) == s.Trace(g)
    requires Matches(s2.Trace(me.fd)) && me.fd !in Fds(s.online)
    ensures Grammatical(s2)
  {
    forall e | e in s2.online ensures Matches(s2.Trace(e.fd)) {
      assert e == me || (e in s.online && e.fd in Fds(s.online));
    }
    forall g | g !in Fds(s2.online) ensures g != me.fd && g !in Fds(s.online) {
      assert me in s2.online && forall e :: e in s.online ==> e in s2.online;
    }
  }

  /** The feedback opens the session. */
  lemma FeedbackGrammatical(net: Net, s: Srv, me: Entry)
    requires Consistent(s) && Grammatical(s) && Calm(net)
    requires me.fd in s.watched && me.fd !in Fds(s.online)
    ensures Grammatical(WriteServer(net, s.(online := [me] + s.online), me.fd, LoginFeedback(0)).0)
  {
    assert Unaware(s.Trace(me.fd));
    WelcomeMatches(s.Trace(me.fd));
    SeatedGrammatical(s, WriteServer(net, s.(online := [me] + s.online), me.fd, LoginFeedback(0)).0, me);
  }

  lemma AdmitGrammatical(net: Net, s: Srv, me: Entry)
    requires Consistent(s) && Agree(s) && Grammatical(s) && Calm(net) && 0 < me.id && me.fd in s.watched
    requires me.fd !in Fds(s.online) && me.id !in Ids(s.online)
    ensures Grammatical(Admit(net, s, me))
  {
    var s1, rows := s.(online := [me] + s.online), Rows(s.db, me.id);
    var s2 := WriteServer(net, s1, me.fd, LoginFeedback(0)).0;
    NewcomerConsistent(s, s1, me);
    NewcomerPending(s, s1, me);
    SessionPut(net, s1, me, LoginFeedback(0));
    WriteConsistent(net, s1, me.fd, LoginFeedback(0));
    PutKeepsAgreement(s1, s2, me.fd, LoginFeedback(0), me.id, rows, rows);
    FeedbackGrammatical(net, s, me);
    if me.id in s2.db.tables {
      GreetGrammatical(net, s2, rows, me);
    } else {
      NothingPending(s2, me.id);
      DistinctUnique(s2.online, ByFd);
      assert SessionOf(s2.online, me.fd) == me.id;
      DropGrammatical(net, s2, me.fd);
    }
  }

  lemma LoginGrammatical(net: Net, s: Srv, fd: int, id: int, password: string, env: LoginEnv)
    requires Consistent(s) && Agree(s) && Grammatical(s) && Calm(net) && fd in s.watched && fd !in Fds(s.online)
    ensures Grammatical(LoginAction(net, s, fd, id, password, env))
  {
    var row := FindUser(s.db.users, id);
    if !env.dbUp {
      WriteGrammatical(net, s, fd, LoginFeedback(-2));
    } else if row.None? || row.value.password != password {
      WriteGrammatical(net, s, fd, LoginFeedback(-1));
    } else if Find(s.online, id, ById).Some? {
      WriteGrammatical(net, s, fd, LoginFeedback(-3));
    } else if env.peer.None? {
      NoFdNoSession(s, fd);
      DropGrammatical(net, s, fd);
    } else {
      AdmitGrammatical(net, s, Entry(id, fd, env.peer.value));
    }
  }

  lemma AnnounceGrammatical(net: Net, s: Srv, psrc: Entry, pdst: Entry)
    requires Sane(s) && Grammatical(s) && Calm(net)
    requires psrc in s.online && pdst in s.online && psrc.id != pdst.id
    requires pdst.id in Rows(s.db, psrc.id)
    requires AgreeBut(s, pdst.id, [psrc.id], [psrc.id])
    ensures var s1 := WriteServer(net, s, psrc.fd, OnlineNote(pdst)).0;
            Grammatical(WriteServer(net, s1, pdst.fd, OnlineNote(psrc)).0)
  {
    var rows := [psrc.id];
    var s1 := WriteServer(net, s, psrc.fd, OnlineNote(pdst)).0;
    RowsSplit(pdst.id, rows, psrc.id);
    IntroduceGrammatical(net, s, psrc, pdst, pdst.id, rows, rows);
    IntroduceWrite(net, s, psrc, pdst, pdst.id, rows, rows, [], rows);
    IntroduceGrammatical(net, s1, pdst, psrc, pdst.id, [], rows);
  }

  /** Strangers become friends, and hear of it if they are online. */
  lemma StrangersGrammatical(net: Net, s: Srv, psrc: Entry, src: int, dst: int)
    requires Consistent(s) && Agree(s) && Grammatical(s) && Calm(net)
    requires src != dst && src in s.db.tables && dst in s.db.tables && dst !in Rows(s.db, src)
    requires Find(s.online, src, ById) == Some(psrc)
    ensures Grammatical(AnnouncePair(net, s.(db := InsertPair(s.db, src, dst).0), Some(psrc), Find(s.online, dst, ById), src, dst))
  {
    var s1, answer := s.(db := InsertPair(s.db, src, dst).0), AllowAddf(src, dst, 1);
    var pdst := Find(s.online, dst, ById);
    InsertPairEffect(s.db, src, dst);
    PairPending(s, src, dst);
    NewDbGrammatical(s, s1);
    var s2 := WriteServer(net, s1, psrc.fd, answer).0;
    assert psrc.fd in Fds(s1.online);
    SessionPut(net, s1, psrc, answer);
    PutGrammatical(s1, s2, psrc.fd, answer);
    PutKeepsAgreement(s1, s2, psrc.fd, answer, dst, [src], [src]);
    if pdst.Some? {
      AnnounceGrammatical(net, s2, psrc, pdst.value);
    }
  }

  lemma NewDbGrammatical(s: Srv, s1: Srv)
    requires Grammatical(s) && s1 == s.(db := s1.db)
    ensures Grammatical(s1)
  {
    assert forall g :: s1.Trace(g) == s.Trace(g);
  }

  lemma AcceptedGrammatical(net: Net, s: Srv, src: int, dst: int)
    requires Consistent(s) && Agree(s) && Grammatical(s) && Calm(net)
    requires src != dst && src in s.db.tables && dst in s.db.tables
    ensures Grammatical(AllowAddfAction(net, s, src, dst, 1))
  {
    var psrc := Find(s.online, src, ById);
    InsertPairEffect(s.db, src, dst);
    if psrc.None? {
      NewDbGrammatical(s, AllowAddfAction(net, s, src, dst, 1));
    } else if dst in Rows(s.db, src) {
      assert psrc.value.fd in Fds(s.online);
      WriteGrammatical(net, s, psrc.value.fd, AllowAddf(src, dst, 3));
    } else {
      StrangersGrammatical(net, s, psrc.value, src, dst);
    }
  }

  lemma RefusedGrammatical(net: Net, s: Srv, src: int, dst: int)
    requires Consistent(s) && Agree(s) && Grammatical(s)
    ensures Grammatical(AllowAddfAction(net, s, src, dst, 0))
  {
    var psrc := Find(s.online, src, ById);
    if psrc.Some? {
      assert psrc.value.fd in Fds(s.online);
      WriteGrammatical(net, s, psrc.value.fd, AllowAddf(src, dst, 0));
    }
  }

  lemma AskGrammatical(net: Net, s: Srv, fd: int, src: int, dst: int)
    requires Consistent(s) && Agree(s) && Grammatical(s) && fd in Fds(s.online)
    ensures Grammatical(AddFriendAction(net, s, fd, src, dst))
  {
    var pdst := Find(s.online, dst, ById);
    if src !in s.db.tables {
      WriteGrammatical(net, s, fd, AllowAddf(src, dst, 3));
    } else if dst in s.db.tables[src] {
      WriteGrammatical(net, s, fd, AllowAddf(src, dst, 4));
    } else if pdst.None? {
      WriteGrammatical(net, s, fd, AllowAddf(src, dst, 2));
    } else {
      assert pdst.value.fd in Fds(s.online);
      WriteGrammatical(net, s, pdst.value.fd, AddFriend(src, dst));
    }
  }

  /** Rounds whose writes must not fail: logins and acceptances. */
  ghost predicate Orderly(r: Round) {
    match r.ev
    case Receive(_, Login(_, _, _)) => Calm(r.net)
    case Receive(_, AnswerFriend(_, _, answer)) => answer == 1 ==> Calm(r.net)
    case _ => true
  }

  lemma OrderlyDepends(r: Round, s: Srv)
    requires Consistent(s) && Agree(s) && Legal(s, r.ev) && Orderly(r)
    ensures Dependable(r.net, s, r.ev)
  {
    if r.ev.Receive? && r.ev.req.Login? {
      CalmLogin(r.net, s, r.ev.fd, r.ev.req.id, r.ev.req.password, r.ev.req.env);
    }
  }

  /** With no write failing, no login announces a ghost. */
  lemma CalmLogin(net: Net, s: Srv, fd: int, id: int, password: string, env: LoginEnv)
    requires Consistent(s) && Agree(s) && Calm(net) && fd in s.watched && fd !in Fds(s.online)
    ensures NoGhost(net, s, fd, id, password, env)
  {
    if Admits(s, id, password, env) {
      AdmitAgrees(net, s, Entry(id, fd, env.peer.value));
      AdmitAgreesIff(net, s, Entry(id, fd, env.peer.value));
    }
  }

  lemma RegisterGrammatical(net: Net, s: Srv, fd: int, password: string, env: RegisterEnv)
    requires Consistent(s) && Agree(s) && Grammatical(s) && HasNewest(s.db, env)
    requires fd !in Fds(s.online)
    ensures Grammatical(RegisterAction(net, s, fd, password, env))
  {
    var (db, id) := RegisterUser(s.db, password, env);
    RegisterEffect(s.db, password, env);
    NewDb(s, db);
    assert forall g :: s.(db := db).Trace(g) == s.Trace(g);
    WriteGrammatical(net, s.(db := db), fd, RegisterReply(id));
  }

  lemma AcceptGrammatical(s: Srv, s1: Srv, fd: int)
    requires Sane(s) && Grammatical(s) && fd !in s.open
    requires s1 == s.(watched := s.watched + {fd}, open := s.open + {fd}, out := s.out[fd := []])
    ensures Grammatical(s1)
  {
    assert fd !in Fds(s.online);
    assert forall g :: g != fd ==> s1.Trace(g) == s.Trace(g);
  }

  lemma StepGrammatical(s: Srv, r: Round)
    requires Consistent(s) && Tabled(s) && Agree(s) && Grammatical(s) && Legal(s, r.ev) && Orderly(r)
    ensures Grammatical(Step(r.net, s, r.ev))
  {
    match r.ev
    case Accept(fd) =>
      AcceptGrammatical(s, Step(r.net, s, r.ev), fd);
    case Hangup(fd) => DropGrammatical(r.net, s, fd);
    case Receive(fd, req) =>
      match req
      case Register(password, env) => RegisterGrammatical(r.net, s, fd, password, env);
      case Login(id, password, env) => LoginGrammatical(r.net, s, fd, id, password, env);
      case Heartbeat =>
      case Offline(id) =>
        DistinctUnique(s.online, ByFd);
        DropGrammatical(r.net, s, fd);
      case AskFriend(src, dst) => AskGrammatical(r.net, s, fd, src, dst);
      case AnswerFriend(src, dst, answer) =>
        AnswerIsProper(s, fd, src, dst);
        if answer == 1 {
          AcceptedGrammatical(r.net, s, src, dst);
        } else if answer == 0 {
          RefusedGrammatical(r.net, s, src, dst);
        }
  }

  lemma {:induction false} RunGrammatical(s: Srv, run: seq<Round>)
    requires Consistent(s) && Tabled(s) && Agree(s) && Grammatical(s) && LegalRun(s, run)
    requires forall r :: r in run ==> Orderly(r)
    ensures Grammatical(Final(s, run))
    decreases |run|
  {
    if run != [] {
      var r := run[0];
      assert r in run;
      OrderlyDepends(r, s);
      StepConsistent(r.net, s, r.ev);
      StepAgrees(r.net, s, r.ev);
      StepGrammatical(s, r);
      RunGrammatical(Step(r.net, s, r.ev), run[1..]);
    }
  }

  /** Every connection of every run follows the grammar, at every moment: reads,
      requests, drops and their cascades may fail anywhere. */
  lemma GrammarThroughout(s: Srv, run: seq<Round>)
    requires Initial(s) && LegalRun(s, run)
    requires forall r :: r in run ==> Orderly(r)
    ensures Grammatical(Final(s, run))
  {
    RunGrammatical(s, run);
  }
}
