/** The chat server of project/ as functions from state to state. The class in
    Server.dfy refines them; the properties are proved about them. */
module ServerSpec {
  import opened Wrappers
  import opened Presence
  import opened Packets
  import opened Database

  /** The network's answers: net(k, fd, p) says that write call number k, of
      packet p to descriptor fd, fails. Any pattern of failures is one of these. */
  type Net = (nat, int, Packet) -> bool

  /** online is the list POnline; watched the epoll set; open the connected
      descriptors; out the packets delivered on each descriptor's present (or,
      if closed, last) connection; clock the number of write calls so far. */
  datatype Srv = Srv(online: seq<Entry>, watched: set<int>, open: set<int>,
                     db: Db, out: map<int, seq<Packet>>, clock: nat)
  {
    function Trace(fd: int): seq<Packet> {
      if fd in out then out[fd] else []
    }
  }

  /** The id the server associates with a failing descriptor, or -1. */
  function SessionOf(online: seq<Entry>, fd: int): (id: int)
    ensures id == -1 || Find(online, id, ById).Some?
  {
    var e := Find(online, fd, ByFd);
    if e.None? then -1 else e.value.id
  }

  function Write(net: Net, s: Srv, fd: int, p: Packet): (Srv, bool) {
    var ok := fd in s.open && !net(s.clock, fd, p);
    (s.(clock := s.clock + 1, out := if ok then s.out[fd := s.Trace(fd) + [p]] else s.out), ok)
  }

  function WriteServer(net: Net, s: Srv, fd: int, p: Packet): (r: (Srv, bool))
    ensures |r.0.online| <= |s.online|
    decreases |s.online|, 1, 0
  {
    var (s1, ok) := Write(net, s, fd, p);
    if ok then (s1, true) else (OfflineAction(net, s1, fd, SessionOf(s1.online, fd)), false)
  }

  /** One round of offline_action's row loop. */
  function TellOne(net: Net, s: Srv, row: int, id: int): (r: Srv)
    ensures |r.online| <= |s.online|
    decreases |s.online|, 1, 1
  {
    var friend := Find(s.online, row, ById);
    if friend.None? then s else WriteServer(net, s, friend.value.fd, OfflineNote(id)).0
  }

  /** The row loop of offline_action: tell each listed friend who is online. */
  function TellOffline(net: Net, s: Srv, rows: seq<int>, id: int): (r: Srv)
    ensures |r.online| <= |s.online|
    decreases |s.online|, 2, |rows|
  {
    if rows == [] then s else TellOffline(net, TellOne(net, s, rows[0], id), rows[1..], id)
  }

  /** The measure of offline_action: a call for an id that is not online does
      not shorten the list, but calls no such call itself. */
  function OfflineRank(online: seq<Entry>, id: int): nat {
    if id < 0 || Find(online, id, ById).Some? then 0 else 3
  }

  function OfflineAction(net: Net, s: Srv, fd: int, id: int): (r: Srv)
    ensures |r.online| <= |s.online|
    decreases |s.online|, OfflineRank(s.online, id), 0
  {
    var s1 := s.(watched := s.watched - {fd});
    if id < 0 then s1.(open := s1.open - {fd})
    else
      var s2 := s1.(online := Remove(s1.online, id, ById));
      var s3 := TellOffline(net, s2, Rows(s2.db, id), id);
      var s4 := WriteServer(net, s3, fd, AllowDisconnect).0;
      s4.(open := s4.open - {fd})
  }

  /** What register_action meets in the database: whether the row is stored, and
      whether the query for the newest row works. */
  datatype RegisterEnv = RegisterEnv(stored: bool, dbUp: bool)

  /** A query for the newest row that works finds one. */
  predicate HasNewest(db: Db, env: RegisterEnv) {
    env.dbUp ==> env.stored || db.users != []
  }

  /** register_action's database part: the reply is the largest id if it could
      be selected and its friend table created, and -1 otherwise. An insert that
      fails goes unnoticed. */
  function RegisterUser(db: Db, password: string, env: RegisterEnv): (Db, int)
    requires HasNewest(db, env)
  {
    var db1 := if env.stored then InsertUser(db, password) else db;
    if !env.dbUp then (db1, -1)
    else
      var id := MaxId(db1.users);
      match CreateTable(db1, id)
      case None => (db1, -1)
      case Some(db2) => (db2, id)
  }

  function RegisterAction(net: Net, s: Srv, fd: int, password: string, env: RegisterEnv): Srv
    requires HasNewest(s.db, env)
  {
    var (db, id) := RegisterUser(s.db, password, env);
    WriteServer(net, s.(db := db), fd, RegisterReply(id)).0
  }

  /** One round of login_action's row loop, and whether the loop goes on. */
  function GreetOne(net: Net, s: Srv, row: int, me: Entry): (Srv, bool) {
    var friend := Find(s.online, row, ById);
    if friend.None? then (s, true)
    else
      var (s1, told) := WriteServer(net, s, friend.value.fd, OnlineNote(me));
      if !told then (s1, true)
      else WriteServer(net, s1, me.fd, OnlineNote(friend.value))
  }

  /** The row loop of login_action: announce the newcomer to each listed friend
      who is online, and that friend to the newcomer. */
  function Greet(net: Net, s: Srv, rows: seq<int>, me: Entry): Srv
    decreases |rows|
  {
    if rows == [] then s
    else
      var (s1, on) := GreetOne(net, s, rows[0], me);
      if on then Greet(net, s1, rows[1..], me) else s1
  }

  /** The success branch of login_action. */
  function Admit(net: Net, s: Srv, me: Entry): Srv {
    var s1 := s.(online := [me] + s.online);
    var s2 := WriteServer(net, s1, me.fd, LoginFeedback(0)).0;
    if me.id in s2.db.tables then Greet(net, s2, s2.db.tables[me.id], me)
    else OfflineAction(net, s2, me.fd, me.id)
  }

  /** What login_action meets outside the program: whether its first query
      works, and what getpeername returns. */
  datatype LoginEnv = LoginEnv(dbUp: bool, peer: Option<Addr>)

  function LoginAction(net: Net, s: Srv, fd: int, id: int, password: string, env: LoginEnv): Srv {
    if !env.dbUp then WriteServer(net, s, fd, LoginFeedback(-2)).0
    else
      var row := FindUser(s.db.users, id);
      if row.None? || row.value.password != password then
        WriteServer(net, s, fd, LoginFeedback(-1)).0
      else if Find(s.online, id, ById).Some? then
        WriteServer(net, s, fd, LoginFeedback(-3)).0
      else if env.peer.None? then OfflineAction(net, s, fd, -1)
      else Admit(net, s, Entry(id, fd, env.peer.value))
  }

  function AddFriendAction(net: Net, s: Srv, fd: int, src: int, dst: int): Srv {
    var pdst := Find(s.online, dst, ById);
    if src !in s.db.tables then WriteServer(net, s, fd, AllowAddf(src, dst, 3)).0
    else
      var found := dst in s.db.tables[src];
      if pdst.None? && !found then WriteServer(net, s, fd, AllowAddf(src, dst, 2)).0
      else if found then WriteServer(net, s, fd, AllowAddf(src, dst, 4)).0
      else WriteServer(net, s, pdst.value.fd, AddFriend(src, dst)).0
  }

  /** The packets after both inserts worked. */
  function AnnouncePair(net: Net, s: Srv, psrc: Option<Entry>, pdst: Option<Entry>, src: int, dst: int): Srv {
    if psrc.None? then s
    else
      var s1 := WriteServer(net, s, psrc.value.fd, AllowAddf(src, dst, 1)).0;
      if pdst.None? then s1
      else
        var s2 := WriteServer(net, s1, psrc.value.fd, OnlineNote(pdst.value)).0;
        WriteServer(net, s2, pdst.value.fd, OnlineNote(psrc.value)).0
  }

  /** The two inserts of an acceptance; the second runs even if the first failed. */
  function InsertPair(db: Db, src: int, dst: int): (Db, bool) {
    var first := InsertRow(db, src, dst);
    var db1 := if first.None? then db else first.value;
    var second := InsertRow(db1, dst, src);
    (if second.None? then db1 else second.value, first.Some? && second.Some?)
  }

  function AllowAddfAction(net: Net, s: Srv, src: int, dst: int, answer: int): Srv {
    var psrc := Find(s.online, src, ById);
    var pdst := Find(s.online, dst, ById);
    if answer == 1 then
      var (db, inserted) := InsertPair(s.db, src, dst);
      var s1 := s.(db := db);
      if inserted then AnnouncePair(net, s1, psrc, pdst, src, dst)
      else if psrc.None? then s1
      else WriteServer(net, s1, psrc.value.fd, AllowAddf(src, dst, 3)).0
    else if answer == 0 && psrc.Some? then
      WriteServer(net, s, psrc.value.fd, AllowAddf(src, dst, 0)).0
    else s
  }

  /** What reaches the server on a connection. */
  datatype Request =
    | Register(password: string, sql: RegisterEnv)
    | Login(id: int, password: string, env: LoginEnv)
    | Heartbeat
    | Offline(id: int)
    | AskFriend(src: int, dst: int)
    | AnswerFriend(src: int, dst: int, answer: int)

  /** One round of the accept/dispatch loop: a new descriptor, a failed read,
      or a request read in full. */
  datatype Event = Accept(fd: int) | Hangup(fd: int) | Receive(fd: int, req: Request)

  function AnalysisReceive(net: Net, s: Srv, fd: int, req: Request): Srv
    requires req.Register? ==> HasNewest(s.db, req.sql)
  {
    match req
    case Register(password, env) => RegisterAction(net, s, fd, password, env)
    case Login(id, password, env) => LoginAction(net, s, fd, id, password, env)
    case Heartbeat => s
    case Offline(id) => OfflineAction(net, s, fd, id)
    case AskFriend(src, dst) => AddFriendAction(net, s, fd, src, dst)
    case AnswerFriend(src, dst, answer) => AllowAddfAction(net, s, src, dst, answer)
  }

  function Step(net: Net, s: Srv, ev: Event): Srv
    requires ev.Receive? && ev.req.Register? ==> HasNewest(s.db, ev.req.sql)
  {
    match ev
    case Accept(fd) => s.(watched := s.watched + {fd}, open := s.open + {fd}, out := s.out[fd := []])
    case Hangup(fd) => OfflineAction(net, s, fd, SessionOf(s.online, fd))
    case Receive(fd, req) => AnalysisReceive(net, s, fd, req)
  }
}
