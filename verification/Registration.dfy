/** register_action statement by statement, under every interleaving of any
    number of registrants, and run serially. */
module Registration {
  import opened Wrappers
  import opened Database
  import opened ServerSpec

  /** The statement a registrant's thread runs next. */
  datatype Pc = Inserting | Selecting | Creating | Done

  /** own is the id of the row the thread inserted, chosen the id it selected,
      reply what the client is told. */
  datatype Thread = Thread(pc: Pc, own: Option<int>, chosen: int, reply: int)

  datatype World = World(db: Db, threads: map<nat, Thread>)

  /** Insert says whether the row was stored, Select whether the query worked. */
  datatype Action = Begin(t: nat) | Insert(t: nat, password: string, stored: bool) | Select(t: nat, works: bool) | Create(t: nat)

  ghost predicate At(w: World, t: nat, pc: Pc) {
    t in w.threads && w.threads[t].pc == pc
  }

  /** Selecting from an empty user table ends the server and with it the run. */
  ghost predicate Enabled(w: World, a: Action) {
    match a
    case Begin(t) => t !in w.threads
    case Insert(t, _, _) => At(w, t, Inserting)
    case Select(t, works) => At(w, t, Selecting) && (works ==> w.db.users != [])
    case Create(t) => At(w, t, Creating)
  }

  function Act(w: World, a: Action): World
    requires Enabled(w, a)
  {
    match a
    case Begin(t) => w.(threads := w.threads[t := Thread(Inserting, None, 0, 0)])
    case Insert(t, password, stored) =>
      if stored then
        World(InsertUser(w.db, password), w.threads[t := Thread(Selecting, Some(w.db.nextId), 0, 0)])
      else w.(threads := w.threads[t := Thread(Selecting, None, 0, 0)])
    case Select(t, works) =>
      var th := w.threads[t];
      w.(threads := w.threads[t := if works then th.(pc := Creating, chosen := MaxId(w.db.users))
                                   else th.(pc := Done, reply := -1)])
    case Create(t) =>
      var th := w.threads[t];
      match CreateTable(w.db, th.chosen)
      case None => w.(threads := w.threads[t := th.(pc := Done, reply := -1)])
      case Some(db) => World(db, w.threads[t := th.(pc := Done, reply := th.chosen)])
  }

  ghost predicate Run(w: World, acts: seq<Action>)
    decreases |acts|
  {
    acts == [] || (Enabled(w, acts[0]) && Run(Act(w, acts[0]), acts[1..]))
  }

  ghost function After(w: World, acts: seq<Action>): World
    requires Run(w, acts)
    decreases |acts|
  {
    if acts == [] then w else After(Act(w, acts[0]), acts[1..])
  }

  /** Ids of users and of friend tables come from the auto-increment counter. */
  ghost predicate Numbered(db: Db) {
    && 0 < db.nextId
    && (forall u :: u in db.users ==> 0 < u.id < db.nextId)
    && (forall id :: id in db.tables ==> 0 < id < db.nextId)
  }

  ghost predicate HasUser(db: Db, id: int) {
    exists u :: u in db.users && u.id == id
  }

  /** Thread t has told its client a usable id. */
  ghost predicate IsTold(w: World, t: nat) {
    t in w.threads && w.threads[t].pc == Done && 0 <= w.threads[t].reply
  }

  ghost predicate ThreadFits(start: Db, db: Db, th: Thread) {
    && (th.own.Some? ==> HasUser(db, th.own.value) && th.own.value < db.nextId)
    && (th.pc == Creating ==> HasUser(db, th.chosen) && (th.own.Some? ==> th.own.value <= th.chosen))
    && (th.pc == Done ==> th.reply == -1 || 0 < th.reply)
    && (th.pc == Done && 0 <= th.reply ==>
          HasUser(db, th.reply) && th.reply in db.tables && th.reply !in start.tables &&
          (th.own.Some? ==> th.own.value <= th.reply))
  }

  ghost predicate Inv(start: Db, w: World) {
    && Numbered(w.db)
    && start.tables.Keys <= w.db.tables.Keys
    && (forall t :: t in w.threads ==> ThreadFits(start, w.db, w.threads[t]))
    && (forall t, u :: IsTold(w, t) && IsTold(w, u) && t != u ==> w.threads[t].reply != w.threads[u].reply)
  }

  /** The thread that acts, and the ones that do not, keep what they know. */
  lemma ThreadKeeps(start: Db, w: World, a: Action, t: nat)
    requires Inv(start, w) && Enabled(w, a) && t in Act(w, a).threads
    ensures ThreadFits(start, Act(w, a).db, Act(w, a).threads[t])
  {
    UsersStay(w, a);
    if t in w.threads {
      assert ThreadFits(start, w.db, w.threads[t]);
    }
  }

  lemma ActKeeps(start: Db, w: World, a: Action)
    requires Inv(start, w) && Enabled(w, a)
    ensures Inv(start, Act(w, a))
  {
    var w' := Act(w, a);
    forall t | t in w'.threads ensures ThreadFits(start, w'.db, w'.threads[t]) {
      ThreadKeeps(start, w, a, t);
    }
    forall t | IsTold(w', t) ensures IsTold(w, t) || (a == Create(t) && w'.threads[t].reply !in w.db.tables) {
    }
    forall t | IsTold(w, t) ensures w'.threads[t] == w.threads[t] && w.threads[t].reply in w.db.tables {
      assert ThreadFits(start, w.db, w.threads[t]);
    }
  }

  lemma UsersStay(w: World, a: Action)
    requires Enabled(w, a)
    ensures forall id :: HasUser(w.db, id) ==> HasUser(Act(w, a).db, id)
    ensures a.Insert? && a.stored ==> HasUser(Act(w, a).db, w.db.nextId)
  {
    var w' := Act(w, a);
    forall id | HasUser(w.db, id) ensures HasUser(w'.db, id) {
      var u :| u in w.db.users && u.id == id;
      assert u in w'.db.users;
    }
    if a.Insert? && a.stored {
      assert User(w.db.nextId, a.password) in w'.db.users;
    }
  }

  lemma {:induction false} RunKeeps(start: Db, w: World, acts: seq<Action>)
    requires Inv(start, w) && Run(w, acts)
    ensures Inv(start, After(w, acts))
    decreases |acts|
  {
    if acts != [] {
      ActKeeps(start, w, acts[0]);
      RunKeeps(start, Act(w, acts[0]), acts[1..]);
    }
  }

  ghost predicate Start(w: World) {
    w.threads == map[] && Numbered(w.db)
  }

  /** Under every interleaving no two registrants are told the same id: create
      table is a test-and-set. An id told is that of a user, has a table now and
      had none at the start, and is not older than the row the thread stored. */
  lemma RepliesAreDistinct(w: World, acts: seq<Action>, t: nat, u: nat)
    requires Start(w) && Run(w, acts)
    requires IsTold(After(w, acts), t) && IsTold(After(w, acts), u)
    ensures var w' := After(w, acts);
            && (w'.threads[t].reply == w'.threads[u].reply ==> t == u)
            && HasUser(w'.db, w'.threads[t].reply)
            && w'.threads[t].reply in w'.db.tables && w'.threads[t].reply !in w.db.tables
            && (w'.threads[t].own.Some? ==> w'.threads[t].own.value <= w'.threads[t].reply)
  {
    RunKeeps(w.db, w, acts);
  }

  predicate Stores(a: Action) {
    a.Insert? && a.stored
  }

  /** The threads that have selected the row in question, one action later. */
  function Join(a: Action, newest: bool, rivals: set<nat>): set<nat> {
    if newest && a.Select? && a.works then rivals + {a.t} else rivals
  }

  /** Once a row is stored, what the threads do next decides who is told its
      id: the first to create a table among those that selected while the row
      was the newest. Here `newest` says whether it still is, and rivals are the
      threads that have selected it so far. */
  function Winner(acts: seq<Action>, newest: bool, rivals: set<nat>): Option<nat> {
    if acts == [] then None
    else
      var a := acts[0];
      if a.Create? && a.t in rivals then Some(a.t)
      else Winner(acts[1..], newest && !Stores(a), Join(a, newest, rivals))
  }

  /** Before position m of the schedule, u has selected the row while it was the
      newest. */
  ghost predicate Selected(acts: seq<Action>, newest: bool, rivals: set<nat>, u: nat, m: nat)
    requires m <= |acts|
  {
    u in rivals ||
    (newest && exists i :: 0 <= i < m && acts[i] == Select(u, true) && forall j :: 0 <= j < i ==> !Stores(acts[j]))
  }

  /** At position k, t is the first to create a table among those. */
  ghost predicate FirstToCreate(acts: seq<Action>, newest: bool, rivals: set<nat>, t: nat, k: nat) {
    && k < |acts| && acts[k] == Create(t) && Selected(acts, newest, rivals, t, k)
    && forall m :: 0 <= m < k && acts[m].Create? ==> !Selected(acts, newest, rivals, acts[m].t, m)
  }

  /** What is left of newest and rivals after one action. */
  lemma SelectedShifts(acts: seq<Action>, newest: bool, rivals: set<nat>, u: nat, m: nat)
    requires m < |acts|
    ensures var a := acts[0];
            Selected(acts, newest, rivals, u, m + 1) <==>
            Selected(acts[1..], newest && !Stores(a), Join(a, newest, rivals), u, m)
  {
    var a, rest := acts[0], acts[1..];
    if newest {
      forall i | 0 <= i < m && rest[i] == Select(u, true) && !Stores(a) && forall j :: 0 <= j < i ==> !Stores(rest[j])
        ensures Selected(acts, newest, rivals, u, m + 1)
      {
        assert acts[i + 1] == Select(u, true);
        assert forall j :: 0 < j < i + 1 ==> acts[j] == rest[j - 1];
      }
      forall i | 0 <= i < m + 1 && acts[i] == Select(u, true) && forall j :: 0 <= j < i ==> !Stores(acts[j])
        ensures i == 0 || (!Stores(a) && rest[i - 1] == Select(u, true) && forall j :: 0 <= j < i - 1 ==> !Stores(rest[j]))
      {
        assert forall j :: 0 <= j < i - 1 ==> rest[j] == acts[j + 1];
      }
    }
  }

  /** Winner finds the first to create. */
  lemma {:induction false} WinnerIsFirst(acts: seq<Action>, newest: bool, rivals: set<nat>, t: nat)
    ensures Winner(acts, newest, rivals) == Some(t) <==> exists k :: FirstToCreate(acts, newest, rivals, t, k)
    decreases |acts|
  {
    if acts != [] {
      var a, rest := acts[0], acts[1..];
      var newest2, rivals2 := newest && !Stores(a), Join(a, newest, rivals);
      if a.Create? && a.t in rivals {
        assert Selected(acts, newest, rivals, a.t, 0);
        assert FirstToCreate(acts, newest, rivals, a.t, 0);
      } else {
        WinnerIsFirst(rest, newest2, rivals2, t);
        forall k | 0 <= k < |rest|
          ensures FirstToCreate(acts, newest, rivals, t, k + 1) <==> FirstToCreate(rest, newest2, rivals2, t, k)
        {
          FirstShifts(acts, newest, rivals, t, k);
        }
        forall k: nat | FirstToCreate(acts, newest, rivals, t, k)
          ensures exists i :: FirstToCreate(rest, newest2, rivals2, t, i) {
          assert k > 0;
          assert FirstToCreate(rest, newest2, rivals2, t, k - 1);
        }
      }
    }
  }

  lemma FirstShifts(acts: seq<Action>, newest: bool, rivals: set<nat>, t: nat, k: nat)
    requires k < |acts| - 1 && !(acts[0].Create? && acts[0].t in rivals)
    ensures var a := acts[0];
            FirstToCreate(acts, newest, rivals, t, k + 1) <==>
            FirstToCreate(acts[1..], newest && !Stores(a), Join(a, newest, rivals), t, k)
  {
    var a, rest := acts[0], acts[1..];
    var newest2, rivals2 := newest && !Stores(a), Join(a, newest, rivals);
    forall u, m | 0 <= m < |acts| - 1
      ensures Selected(acts, newest, rivals, u, m + 1) <==> Selected(rest, newest2, rivals2, u, m)
    {
      SelectedShifts(acts, newest, rivals, u, m);
    }
    assert a.Create? ==> !Selected(acts, newest, rivals, a.t, 0);
    if FirstToCreate(rest, newest2, rivals2, t, k) {
      forall m | 0 <= m < k + 1 && acts[m].Create? ensures !Selected(acts, newest, rivals, acts[m].t, m) {
        if m > 0 { assert rest[m - 1] == acts[m]; }
      }
    }
    if FirstToCreate(acts, newest, rivals, t, k + 1) {
      forall m | 0 <= m < k && rest[m].Create? ensures !Selected(rest, newest2, rivals2, rest[m].t, m) {
        assert rest[m] == acts[m + 1];
      }
    }
  }

  /** The row with id x has no table yet. */
  ghost predicate Contest(w: World, x: int, newest: bool, rivals: set<nat>) {
    && HasUser(w.db, x) && x !in w.db.tables
    && (newest <==> forall u :: u in w.db.users ==> u.id <= x)
    && (forall t :: t in rivals <==> At(w, t, Creating) && w.threads[t].chosen == x)
  }

  ghost predicate IsToldId(w: World, t: nat, x: int) {
    At(w, t, Done) && w.threads[t].reply == x
  }

  /** An action that does not create the row's table leaves it contested. */
  lemma ActContest(w: World, x: int, newest: bool, rivals: set<nat>, a: Action)
    requires Numbered(w.db) && Contest(w, x, newest, rivals) && Enabled(w, a)
    requires !(a.Create? && a.t in rivals)
    ensures Contest(Act(w, a), x, newest && !Stores(a), Join(a, newest, rivals))
  {
    var w' := Act(w, a);
    UsersStay(w, a);
    if Stores(a) {
      assert User(w.db.nextId, a.password) in w'.db.users;
    }
    if a.Select? && a.works {
      assert MaxId(w.db.users) == x <==> newest;
    }
    if a.Create? {
      assert w.threads[a.t].chosen != x;
    }
  }

  lemma {:induction false} ToldStays(start: Db, w: World, acts: seq<Action>, t: nat, x: int)
    requires Inv(start, w) && Run(w, acts) && IsToldId(w, t, x)
    ensures IsToldId(After(w, acts), t, x)
    decreases |acts|
  {
    if acts != [] {
      ActKeeps(start, w, acts[0]);
      ToldStays(start, Act(w, acts[0]), acts[1..], t, x);
    }
  }

  lemma {:induction false} WinnerIsTold(start: Db, w: World, x: int, newest: bool, rivals: set<nat>,
                                        acts: seq<Action>, t: nat)
    requires Inv(start, w) && Contest(w, x, newest, rivals) && Run(w, acts) && 0 < x
    ensures IsToldId(After(w, acts), t, x) <==> Winner(acts, newest, rivals) == Some(t)
    decreases |acts|
  {
    if acts == [] {
      assert t in w.threads ==> ThreadFits(start, w.db, w.threads[t]);
    } else {
      var w1, rest := Act(w, acts[0]), acts[1..];
      ActKeeps(start, w, acts[0]);
      if acts[0].Create? && acts[0].t in rivals {
        ToldStays(start, w1, rest, acts[0].t, x);
        RunKeeps(start, w1, rest);
        assert IsTold(After(w, acts), acts[0].t);
      } else {
        ActContest(w, x, newest, rivals, acts[0]);
        WinnerIsTold(start, w1, x, newest && !Stores(acts[0]), Join(acts[0], newest, rivals), rest, t);
      }
    }
  }

  /** A finished registrant is told an id or -1. */
  lemma ToldOrFailed(w: World, acts: seq<Action>, t: nat)
    requires Start(w) && Run(w, acts) && At(After(w, acts), t, Done)
    ensures IsTold(After(w, acts), t) || IsToldId(After(w, acts), t, -1)
  {
    RunKeeps(w.db, w, acts);
    assert ThreadFits(w.db, After(w, acts).db, After(w, acts).threads[t]);
  }

  /** From any reachable state and over any continuation: of the threads that
      select before a further row is stored, the first to create a table is told
      the id of the row just stored, and nobody else ever is. So a registrant is
      told its own id if and only if no row is stored between its insert and its
      select, and nobody who selected the same row creates its table first. */
  lemma ToldIff(w0: World, before: seq<Action>, owner: nat, password: string, acts: seq<Action>, t: nat)
    requires Start(w0) && Run(w0, before) && At(After(w0, before), owner, Inserting)
    requires Run(Act(After(w0, before), Insert(owner, password, true)), acts)
    ensures var w := Act(After(w0, before), Insert(owner, password, true));
            && w.threads[owner].own == Some(After(w0, before).db.nextId)
            && (IsToldId(After(w, acts), t, w.threads[owner].own.value) <==> exists k :: FirstToCreate(acts, true, {}, t, k))
  {
    RunKeeps(w0.db, w0, before);
    var v := After(w0, before);
    var w := Act(v, Insert(owner, password, true));
    ActKeeps(w0.db, v, Insert(owner, password, true));
    UsersStay(v, Insert(owner, password, true));
    NobodyChose(w0.db, v, owner, password);
    WinnerIsTold(w0.db, w, v.db.nextId, true, {}, acts, t);
    WinnerIsFirst(acts, true, {}, t);
  }

  /** A row just stored is the newest, has no table, and nobody has selected it. */
  lemma NobodyChose(start: Db, v: World, owner: nat, password: string)
    requires Inv(start, v) && At(v, owner, Inserting)
    ensures Contest(Act(v, Insert(owner, password, true)), v.db.nextId, true, {})
  {
    UsersStay(v, Insert(owner, password, true));
    forall t | At(v, t, Creating) ensures v.threads[t].chosen != v.db.nextId {
      assert ThreadFits(start, v.db, v.threads[t]);
    }
  }

  /** Two new rows, a's and then b's, and neither thread has selected yet. */
  ghost predicate BothStored(w: World, a: nat, b: nat, x: int) {
    && a != b && a in w.threads && b in w.threads
    && w.threads[a] == Thread(Selecting, Some(x), 0, 0)
    && w.threads[b] == Thread(Selecting, Some(x + 1), 0, 0)
    && w.db.users != [] && MaxId(w.db.users) == x + 1
    && x !in w.db.tables && x + 1 !in w.db.tables && 0 < x
  }

  /** From the start two registrations can get there. */
  lemma CanStoreBoth(w: World, a: nat, b: nat, p: string, q: string)
    requires Start(w) && a != b
    ensures var acts := [Begin(a), Begin(b), Insert(a, p, true), Insert(b, q, true)];
            Run(w, acts) && BothStored(After(w, acts), a, b, w.db.nextId)
  {
    var w1 := Act(w, Begin(a));
    var w2 := Act(w1, Begin(b));
    var w3 := Act(w2, Insert(a, p, true));
    var w4 := Act(w3, Insert(b, q, true));
    assert BothStored(w4, a, b, w.db.nextId) by { NewestIsMax(w3.db, q); }
    RunStep(w3, Insert(b, q, true), []);
    RunStep(w2, Insert(a, p, true), [Insert(b, q, true)]);
    RunStep(w1, Begin(b), [Insert(a, p, true), Insert(b, q, true)]);
    RunStep(w, Begin(a), [Begin(b), Insert(a, p, true), Insert(b, q, true)]);
    assert [Begin(a), Begin(b), Insert(a, p, true), Insert(b, q, true)]
        == [Begin(a)] + [Begin(b), Insert(a, p, true), Insert(b, q, true)];
  }

  /** Then the wrong id is told: a is told b's id, b is told -1, and a's own
      row has no table. */
  lemma IdsSwap(w: World, a: nat, b: nat, x: int)
    requires BothStored(w, a, b, x)
    ensures var acts := [Select(a, true), Create(a), Select(b, true), Create(b)];
            Run(w, acts) && a in After(w, acts).threads && b in After(w, acts).threads
    ensures var w' := After(w, [Select(a, true), Create(a), Select(b, true), Create(b)]);
            && w'.threads[a] == Thread(Done, Some(x), x + 1, x + 1)
            && w'.threads[b] == Thread(Done, Some(x + 1), x + 1, -1)
            && x !in w'.db.tables
  {
    var w1 := Act(w, Select(a, true));
    var w2 := Act(w1, Create(a));
    var w3 := Act(w2, Select(b, true));
    RunStep(w3, Create(b), []);
    RunStep(w2, Select(b, true), [Create(b)]);
    RunStep(w1, Create(a), [Select(b, true), Create(b)]);
    RunStep(w, Select(a, true), [Create(a), Select(b, true), Create(b)]);
    assert [Select(a, true), Create(a), Select(b, true), Create(b)]
        == [Select(a, true)] + [Create(a), Select(b, true), Create(b)];
  }

  lemma NewestIsMax(db: Db, password: string)
    requires forall u :: u in db.users ==> u.id < db.nextId
    ensures MaxId(InsertUser(db, password).users) == db.nextId
  {
    var users := InsertUser(db, password).users;
    assert User(db.nextId, password) in users;
  }

  lemma RunStep(w: World, a: Action, rest: seq<Action>)
    requires Enabled(w, a) && Run(Act(w, a), rest)
    ensures Run(w, [a] + rest) && After(w, [a] + rest) == After(Act(w, a), rest)
  {
    assert ([a] + rest)[1..] == rest;
  }

  lemma NewestInRange(db: Db)
    requires Numbered(db) && db.users != []
    ensures 0 < MaxId(db.users) < db.nextId
  {
    var id := MaxId(db.users);
    var u :| u in db.users && u.id == id;
  }

  /** Run without interference, a stored registration whose query works is told
      its own new id; one silently not stored is told -1 if the newest user has
      a table, and otherwise that user's id; one whose query fails is told -1. */
  lemma SerialRegister(db: Db, password: string, env: RegisterEnv)
    requires Numbered(db) && HasNewest(db, env)
    ensures var (db2, reply) := RegisterUser(db, password, env);
            && Numbered(db2)
            && db2.users == db.users + (if env.stored then [User(db.nextId, password)] else [])
            && db2.nextId == db.nextId + (if env.stored then 1 else 0)
            && (env.stored && env.dbUp ==> reply == db.nextId)
            && (!env.stored && env.dbUp ==> (reply == -1 <==> MaxId(db.users) in db.tables))
            && (!env.stored && reply != -1 ==> reply == MaxId(db.users))
            && (!env.dbUp ==> reply == -1)
            && db2.tables == if reply == -1 then db.tables else db.tables[reply := []]
  {
    var db1 := if env.stored then InsertUser(db, password) else db;
    if env.stored {
      NewestIsMax(db, password);
    }
    if env.dbUp {
      NewestInRange(db1);
    }
  }

  /** The statements of one registration run alone are register_action. */
  lemma AloneIsRegisterUser(w: World, t: nat, password: string, env: RegisterEnv)
    requires t !in w.threads && HasNewest(w.db, env)
    ensures var acts := [Begin(t), Insert(t, password, env.stored), Select(t, env.dbUp)] + if env.dbUp then [Create(t)] else [];
            && Run(w, acts) && IsToldId(After(w, acts), t, RegisterUser(w.db, password, env).1)
            && After(w, acts).db == RegisterUser(w.db, password, env).0
  {
    var w1 := Act(w, Begin(t));
    var w2 := Act(w1, Insert(t, password, env.stored));
    var w3 := Act(w2, Select(t, env.dbUp));
    var last := if env.dbUp then [Create(t)] else [];
    if env.dbUp { RunStep(w3, Create(t), []); }
    RunStep(w2, Select(t, env.dbUp), last);
    RunStep(w1, Insert(t, password, env.stored), [Select(t, env.dbUp)] + last);
    RunStep(w, Begin(t), [Insert(t, password, env.stored)] + ([Select(t, env.dbUp)] + last));
    assert [Begin(t), Insert(t, password, env.stored), Select(t, env.dbUp)] + last
        == [Begin(t)] + ([Insert(t, password, env.stored)] + ([Select(t, env.dbUp)] + last));
  }

  datatype Registrant = Registrant(password: string, env: RegisterEnv)

  function Stored(regs: seq<Registrant>): nat {
    if regs == [] then 0 else Stored(regs[..|regs| - 1]) + if regs[|regs| - 1].env.stored then 1 else 0
  }

  /** The newest user has a table after a serial run from such a database. */
  predicate NewestTabled(regs: seq<Registrant>) {
    if regs == [] then true
    else
      var env := regs[|regs| - 1].env;
      env.dbUp || (!env.stored && NewestTabled(regs[..|regs| - 1]))
  }

  /** The database after a serial run, and the replies given. */
  function Serially(db: Db, regs: seq<Registrant>): (Db, seq<int>)
    requires db.users != []
    ensures Serially(db, regs).0.users != []
  {
    if regs == [] then (db, [])
    else
      var (db1, replies) := Serially(db, regs[..|regs| - 1]);
      var last := regs[|regs| - 1];
      var (db2, reply) := RegisterUser(db1, last.password, last.env);
      (db2, replies + [reply])
  }

  /** The reply due to the i-th registration of a serial run: a stored one is
      told its own id, and one not stored takes the id of an earlier row that
      was left without a table, if there is one. */
  function Due(first: int, regs: seq<Registrant>, i: nat): int
    requires i < |regs|
  {
    var env := regs[i].env;
    if !env.dbUp then -1
    else if env.stored then first + Stored(regs[..i])
    else if NewestTabled(regs[..i]) then -1
    else first + Stored(regs[..i]) - 1
  }

  ghost predicate AllDue(replies: seq<int>, first: int, regs: seq<Registrant>) {
    |replies| == |regs| && forall i :: 0 <= i < |regs| ==> replies[i] == Due(first, regs, i)
  }

  lemma OneMoreDue(replies: seq<int>, reply: int, first: int, regs: seq<Registrant>)
    requires regs != [] && AllDue(replies, first, regs[..|regs| - 1])
    requires reply == Due(first, regs, |regs| - 1)
    ensures AllDue(replies + [reply], first, regs)
  {
    var n := |regs| - 1;
    forall i | 0 <= i < n ensures Due(first, regs[..n], i) == Due(first, regs, i) {
      assert regs[..n][..i] == regs[..i];
    }
  }

  /** The newest user has a table, or is the row last stored. */
  ghost predicate NewestFits(db: Db, tabled: bool) {
    && Numbered(db) && db.users != []
    && (tabled <==> MaxId(db.users) in db.tables)
    && (!tabled ==> MaxId(db.users) == db.nextId - 1)
  }

  lemma NewestKept(db: Db, password: string, env: RegisterEnv, tabled: bool)
    requires NewestFits(db, tabled)
    ensures var (db2, reply) := RegisterUser(db, password, env);
            && reply == (if !env.dbUp then -1 else if env.stored then db.nextId else if tabled then -1 else db.nextId - 1)
            && NewestFits(db2, env.dbUp || (!env.stored && tabled))
            && db2.nextId == db.nextId + if env.stored then 1 else 0
  {
    SerialRegister(db, password, env);
    if env.stored {
      NewestIsMax(db, password);
      assert db.nextId !in db.tables;
    }
  }

  lemma LastReply(db: Db, first: int, regs: seq<Registrant>)
    requires regs != [] && NewestFits(db, NewestTabled(regs[..|regs| - 1]))
    requires db.nextId == first + Stored(regs[..|regs| - 1])
    ensures var last := regs[|regs| - 1];
            var (db2, reply) := RegisterUser(db, last.password, last.env);
            && reply == Due(first, regs, |regs| - 1)
            && NewestFits(db2, NewestTabled(regs)) && db2.nextId == first + Stored(regs)
  {
    var last := regs[|regs| - 1];
    NewestKept(db, last.password, last.env, NewestTabled(regs[..|regs| - 1]));
  }

  /** The replies of a whole serial run from a database whose newest user has a
      table, whatever inserts and queries fail in it. */
  lemma {:induction false} SerialReplies(db: Db, regs: seq<Registrant>)
    requires Numbered(db) && db.users != [] && MaxId(db.users) in db.tables
    ensures AllDue(Serially(db, regs).1, db.nextId, regs)
    ensures var db2 := Serially(db, regs).0;
            NewestFits(db2, NewestTabled(regs)) && db2.nextId == db.nextId + Stored(regs)
  {
    if regs != [] {
      var last := regs[|regs| - 1];
      var (db1, replies) := Serially(db, regs[..|regs| - 1]);
      SerialReplies(db, regs[..|regs| - 1]);
      LastReply(db1, db.nextId, regs);
      OneMoreDue(replies, RegisterUser(db1, last.password, last.env).1, db.nextId, regs);
    }
  }
}
