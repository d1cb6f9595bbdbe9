/** The server process: the heap list POnline and its other state, updated by
    the handlers of project/server_action.c and project/socket.c. Every method
    computes the function of the same name in ServerSpec. */
module Server {
  import opened Wrappers
  import opened Presence
  import opened Packets
  import opened Database
  import opened ServerSpec
  import opened LinkList
  import Sessions
  import Agreement
  import Grammar

  /** Deleting an id that is online shortens the list. */
  lemma DropShortens(l: seq<Entry>, id: int)
    ensures OfflineRank(l, id) == 0 && 0 <= id ==> |Remove(l, id, ById)| < |l|
  {
    if Find(l, id, ById).Some? {
      var e := Find(l, id, ById).value;
      assert e in l && KeyOf(e, ById) == id;
    }
  }

  class ChatServer {
    const online: OnlineList
    var watched: set<int>
    var open: set<int>
    var db: Db
    var out: map<int, seq<Packet>>
    var clock: nat

    ghost predicate Valid()
      reads this, online, online.Repr
    {
      online.Valid() && this !in online.Repr
    }

    ghost function State(): Srv
      reads this, online
    {
      Srv(online.contents, watched, open, db, out, clock)
    }

    constructor (db: Db)
      ensures Valid() && fresh(online.Repr)
      ensures State() == Srv([], {}, {}, db, map[], 0)
    {
      online := new OnlineList();
      watched, open, this.db, out, clock := {}, {}, db, map[], 0;
    }

    /** write(2) of one packet; net decides the outcome. */
    method Write(net: Net, fd: int, p: Packet) returns (ok: bool)
      requires Valid()
      modifies this
      ensures Valid()
      ensures (State(), ok) == ServerSpec.Write(net, old(State()), fd, p)
    {
      ok := fd in open && !net(clock, fd, p);
      if ok {
        out := out[fd := (if fd in out then out[fd] else []) + [p]];
      }
      clock := clock + 1;
    }

    method WriteServer(net: Net, fd: int, p: Packet) returns (ok: bool)
      requires Valid()
      modifies this, online.Repr
      ensures Valid() && fresh(online.Repr - old(online.Repr))
      ensures (State(), ok) == ServerSpec.WriteServer(net, old(State()), fd, p)
      decreases |online.contents|, 1, 0
    {
      ok := Write(net, fd, p);
      if !ok {
        var node := online.SearchList(fd, ByFd);
        var id := -1;
        if node != null {
          id := node.entry.id;
        }
        OfflineAction(net, fd, id);
      }
    }

    method OfflineAction(net: Net, fd: int, id: int)
      requires Valid()
      modifies this, online.Repr
      ensures Valid() && fresh(online.Repr - old(online.Repr))
      ensures State() == ServerSpec.OfflineAction(net, old(State()), fd, id)
      decreases |online.contents|, OfflineRank(online.contents, id), 0
    {
      watched := watched - {fd};
      if id < 0 {
        open := open - {fd};
      } else {
        DropShortens(online.contents, id);
        online.DelList(id, ById);
        NotifyAndClose(net, fd, id);
      }
    }

    /** The rest of offline_action, once the id is off the list. */
    method NotifyAndClose(net: Net, fd: int, id: int)
      requires Valid()
      modifies this, online.Repr
      ensures Valid() && fresh(online.Repr - old(online.Repr))
      ensures var s3 := ServerSpec.TellOffline(net, old(State()), Rows(old(db), id), id);
              var s4 := ServerSpec.WriteServer(net, s3, fd, AllowDisconnect).0;
              State() == s4.(open := s4.open - {fd})
      decreases |online.contents|, 2, 1
    {
      TellOffline(net, Rows(db, id), id);
      var _ := WriteServer(net, fd, AllowDisconnect);
      open := open - {fd};
    }

    /** offline_action's loop over the rows of the friend table. */
    method TellOffline(net: Net, rows: seq<int>, id: int)
      requires Valid()
      modifies this, online.Repr
      ensures Valid() && fresh(online.Repr - old(online.Repr))
      ensures State() == ServerSpec.TellOffline(net, old(State()), rows, id)
      decreases |online.contents|, 2, 0
    {
      ghost var s := State();
      for i := 0 to |rows|
        invariant Valid() && fresh(online.Repr - old(online.Repr))
        invariant |State().online| <= |s.online|
        invariant ServerSpec.TellOffline(net, State(), rows[i..], id) == ServerSpec.TellOffline(net, s, rows, id)
      {
        assert rows[i..][0] == rows[i] && rows[i..][1..] == rows[i + 1..];
        TellOne(net, rows[i], id);
      }
    }

    method TellOne(net: Net, row: int, id: int)
      requires Valid()
      modifies this, online.Repr
      ensures Valid() && fresh(online.Repr - old(online.Repr))
      ensures State() == ServerSpec.TellOne(net, old(State()), row, id)
      decreases |online.contents|, 1, 1
    {
      var friend := online.SearchList(row, ById);
      if friend != null {
        var _ := WriteServer(net, friend.entry.fd, OfflineNote(id));
      }
    }

    method RegisterAction(net: Net, fd: int, password: string, env: RegisterEnv)
      requires Valid() && HasNewest(db, env)
      modifies this, online.Repr
      ensures Valid() && fresh(online.Repr - old(online.Repr))
      ensures State() == ServerSpec.RegisterAction(net, old(State()), fd, password, env)
    {
      if env.stored {
        db := InsertUser(db, password);
      }
      var id := -1;
      if env.dbUp {
        id := MaxId(db.users);
        match CreateTable(db, id) {
          case None => id := -1;
          case Some(db2) => db := db2;
        }
      }
      var _ := WriteServer(net, fd, RegisterReply(id));
    }

    method GreetOne(net: Net, row: int, me: Entry) returns (on: bool)
      requires Valid()
      modifies this, online.Repr
      ensures Valid() && fresh(online.Repr - old(online.Repr))
      ensures (State(), on) == ServerSpec.GreetOne(net, old(State()), row, me)
    {
      var friend := online.SearchList(row, ById);
      on := true;
      if friend != null {
        var entry := friend.entry;
        var told := WriteServer(net, entry.fd, OnlineNote(me));
        if told {
          on := WriteServer(net, me.fd, OnlineNote(entry));
        }
      }
    }

    /** login_action's loop over the rows of the friend table. */
    method Greet(net: Net, rows: seq<int>, me: Entry)
      requires Valid()
      modifies this, online.Repr
      ensures Valid() && fresh(online.Repr - old(online.Repr))
      ensures State() == ServerSpec.Greet(net, old(State()), rows, me)
    {
      var i := 0;
      while i < |rows|
        invariant 0 <= i <= |rows|
        invariant Valid() && fresh(online.Repr - old(online.Repr))
        invariant ServerSpec.Greet(net, State(), rows[i..], me) == ServerSpec.Greet(net, old(State()), rows, me)
      {
        assert rows[i..][0] == rows[i] && rows[i..][1..] == rows[i + 1..];
        var on := GreetOne(net, rows[i], me);
        if !on {
          return;
        }
        i := i + 1;
      }
    }

    method Admit(net: Net, me: Entry)
      requires Valid()
      modifies this, online.Repr
      ensures Valid() && fresh(online.Repr - old(online.Repr))
      ensures State() == ServerSpec.Admit(net, old(State()), me)
    {
      online.AddList(me);
      assert State() == old(State()).(online := [me] + old(State()).online);
      var _ := WriteServer(net, me.fd, LoginFeedback(0));
      ghost var s2 := State();
      assert s2 == ServerSpec.WriteServer(net, old(State()).(online := [me] + old(State()).online), me.fd, LoginFeedback(0)).0;
      if me.id in db.tables {
        Greet(net, db.tables[me.id], me);
      } else {
        OfflineAction(net, me.fd, me.id);
      }
    }

    method LoginAction(net: Net, fd: int, id: int, password: string, env: LoginEnv)
      requires Valid()
      modifies this, online.Repr
      ensures Valid() && fresh(online.Repr - old(online.Repr))
      ensures State() == ServerSpec.LoginAction(net, old(State()), fd, id, password, env)
    {
      var flag := -2;
      if env.dbUp {
        var row := FindUser(db.users, id);
        if row.None? || row.value.password != password {
          flag := -1;
        } else {
          var node := online.SearchList(id, ById);
          if node == null {
            match env.peer {
              case None => OfflineAction(net, fd, -1);
              case Some(addr) => Admit(net, Entry(id, fd, addr));
            }
            return;
          }
          flag := -3;
        }
      }
      var _ := WriteServer(net, fd, LoginFeedback(flag));
    }

    method AddFriendAction(net: Net, fd: int, src: int, dst: int)
      requires Valid()
      modifies this, online.Repr
      ensures Valid() && fresh(online.Repr - old(online.Repr))
      ensures State() == ServerSpec.AddFriendAction(net, old(State()), fd, src, dst)
    {
      var pdst := online.SearchList(dst, ById);
      if src !in db.tables {
        var _ := WriteServer(net, fd, AllowAddf(src, dst, 3));
        return;
      }
      var found := dst in db.tables[src];
      if pdst == null && !found {
        var _ := WriteServer(net, fd, AllowAddf(src, dst, 2));
      } else if found {
        var _ := WriteServer(net, fd, AllowAddf(src, dst, 4));
      } else {
        var _ := WriteServer(net, pdst.entry.fd, AddFriend(src, dst));
      }
    }

    /** The packets of a successful acceptance; psrc and pdst are the entries
        found before the inserts. */
    method AnnouncePair(net: Net, psrc: Option<Entry>, pdst: Option<Entry>, src: int, dst: int)
      requires Valid()
      modifies this, online.Repr
      ensures Valid() && fresh(online.Repr - old(online.Repr))
      ensures State() == ServerSpec.AnnouncePair(net, old(State()), psrc, pdst, src, dst)
    {
      if psrc.Some? {
        var _ := WriteServer(net, psrc.value.fd, AllowAddf(src, dst, 1));
        if pdst.Some? {
          var _ := WriteServer(net, psrc.value.fd, OnlineNote(pdst.value));
          var _ := WriteServer(net, pdst.value.fd, OnlineNote(psrc.value));
        }
      }
    }

    /** The entry search_list points to, if any. */
    method LookUp(id: int) returns (r: Option<Entry>)
      requires Valid()
      ensures r == Find(online.contents, id, ById)
    {
      var node := online.SearchList(id, ById);
      r := if node == null then None else Some(node.entry);
    }

    method InsertPair(src: int, dst: int) returns (inserted: bool)
      modifies `db
      ensures (db, inserted) == ServerSpec.InsertPair(old(db), src, dst)
    {
      var first := InsertRow(db, src, dst);
      if first.Some? {
        db := first.value;
      }
      var second := InsertRow(db, dst, src);
      if second.Some? {
        db := second.value;
      }
      inserted := first.Some? && second.Some?;
    }

    method AllowAddfAction(net: Net, src: int, dst: int, answer: int)
      requires Valid()
      modifies this, online.Repr
      ensures Valid() && fresh(online.Repr - old(online.Repr))
      ensures State() == ServerSpec.AllowAddfAction(net, old(State()), src, dst, answer)
    {
      var psrc := LookUp(src);
      var pdst := LookUp(dst);
      if answer == 1 {
        var inserted := InsertPair(src, dst);
        if inserted {
          AnnouncePair(net, psrc, pdst, src, dst);
        } else if psrc.Some? {
          var _ := WriteServer(net, psrc.value.fd, AllowAddf(src, dst, 3));
        }
      } else if answer == 0 && psrc.Some? {
        var _ := WriteServer(net, psrc.value.fd, AllowAddf(src, dst, 0));
      }
    }

    method AnalysisReceive(net: Net, fd: int, req: Request)
      requires Valid() && (req.Register? ==> HasNewest(db, req.sql))
      modifies this, online.Repr
      ensures Valid() && fresh(online.Repr - old(online.Repr))
      ensures State() == ServerSpec.AnalysisReceive(net, old(State()), fd, req)
    {
      match req {
        case Register(password, env) => RegisterAction(net, fd, password, env);
        case Login(id, password, env) => LoginAction(net, fd, id, password, env);
        case Heartbeat =>
        case Offline(id) => OfflineAction(net, fd, id);
        case AskFriend(src, dst) => AddFriendAction(net, fd, src, dst);
        case AnswerFriend(src, dst, answer) => AllowAddfAction(net, src, dst, answer);
      }
    }

    /** One event of the epoll loop; a hangup is a failed Read_server. */
    method Handle(net: Net, ev: Event)
      requires Valid() && (ev.Receive? && ev.req.Register? ==> HasNewest(db, ev.req.sql))
      modifies this, online.Repr
      ensures Valid() && fresh(online.Repr - old(online.Repr))
      ensures State() == Step(net, old(State()), ev)
    {
      match ev {
        case Accept(fd) =>
          watched, open, out := watched + {fd}, open + {fd}, out[fd := []];
        case Hangup(fd) =>
          var node := online.SearchList(fd, ByFd);
          var id := -1;
          if node != null {
            id := node.entry.id;
          }
          OfflineAction(net, fd, id);
        case Receive(fd, req) => AnalysisReceive(net, fd, req);
      }
    }

    /** The server's main loop, for a run of atomic rounds: sessions stay
        consistent whatever writes fail; the clients' lists agree if the
        writes a handler depends on do not; and if logins and acceptances
        meet no failure, every connection also follows the packet grammar. */
    method Serve(run: seq<Agreement.Round>)
      requires Valid() && Agreement.Initial(State()) && Agreement.LegalRun(State(), run)
      modifies this, online.Repr
      ensures Valid() && State() == Agreement.Final(old(State()), run)
      ensures Sessions.Consistent(State()) && Sessions.Tabled(State())
      ensures Agreement.DependableRun(old(State()), run) ==> Agreement.Agree(State())
      ensures (forall r :: r in run ==> Grammar.Orderly(r)) ==> Grammar.Grammatical(State())
    {
      for i := 0 to |run|
        invariant Valid() && fresh(online.Repr - old(online.Repr))
        invariant Agreement.LegalRun(State(), run[i..])
        invariant Agreement.Final(State(), run[i..]) == Agreement.Final(old(State()), run)
      {
        assert run[i..][0] == run[i] && run[i..][1..] == run[i + 1..];
        Handle(run[i].net, run[i].ev);
      }
      Agreement.ConsistentThroughout(old(State()), run);
      if Agreement.DependableRun(old(State()), run) {
        Agreement.AgreementThroughout(old(State()), run);
      }
      if forall r :: r in run ==> Grammar.Orderly(r) {
        Grammar.GrammarThroughout(old(State()), run);
      }
    }
  }
}
