/** allow_addf_action statement by statement, under every interleaving of any
    number of threads (project/server.c starts one per event). Each insert is
    one atomic step; the primary key makes it a test-and-set. */
module Acceptance {
  import opened Wrappers
  import opened Database
  import ServerSpec

  /** The statement a thread runs next. */
  datatype Pc = First | Second | Done

  /** One accepted request: asker src, asked dst, and how its inserts went. */
  datatype Thread = Thread(src: int, dst: int, pc: Pc, first: bool, second: bool) {
    /** The branch of the code that announces the new friends. */
    predicate Succeeded() {
      pc == Done && first && second
    }
  }

  datatype World = World(db: Db, threads: map<nat, Thread>)

  datatype Action = Begin(t: nat, src: int, dst: int) | Insert(t: nat) | NewTable(id: int)

  /** A client never asks itself, and both sides have logged in at some time, so
      their tables exist. */
  ghost predicate Enabled(w: World, a: Action) {
    match a
    case Begin(t, src, dst) =>
      t !in w.threads && src != dst && src in w.db.tables && dst in w.db.tables
    case Insert(t) => t in w.threads && w.threads[t].pc != Done
    case NewTable(_) => true
  }

  function Attempt(db: Db, id: int, v: int): (Db, bool) {
    match InsertRow(db, id, v)
    case None => (db, false)
    case Some(db2) => (db2, true)
  }

  function Act(w: World, a: Action): World
    requires Enabled(w, a)
  {
    match a
    case Begin(t, src, dst) => w.(threads := w.threads[t := Thread(src, dst, First, false, false)])
    case Insert(t) =>
      var th := w.threads[t];
      if th.pc == First then
        var (db, ok) := Attempt(w.db, th.src, th.dst);
        World(db, w.threads[t := th.(pc := Second, first := ok)])
      else
        var (db, ok) := Attempt(w.db, th.dst, th.src);
        World(db, w.threads[t := th.(pc := Done, second := ok)])
    case NewTable(id) =>
      (match CreateTable(w.db, id)
       case None => w
       case Some(db) => w.(db := db))
  }

  ghost predicate Run(w: World, acts: seq<Action>)
    decreases |acts|
  {
    acts == [] || (Enabled(w, acts[0]) && Run(Act(w, acts[0]), acts[1..]))
  }

  ghost function After(w: World, acts: seq<Action>): World
    requires Run(w, acts)
    decreases |acts|
  {
    if acts == [] then w else After(Act(w, acts[0]), acts[1..])
  }

  ghost predicate Friends(db: Db, a: int, b: int) {
    b in Rows(db, a)
  }

  ghost predicate Symmetric(db: Db) {
    forall a, b :: Friends(db, a, b) ==> Friends(db, b, a)
  }

  ghost predicate NobodyAlone(db: Db) {
    forall a :: !Friends(db, a, a)
  }

  /** The thread has inserted row b into table a. */
  ghost predicate Inserted(th: Thread, a: int, b: int) {
    (th.first && th.src == a && th.dst == b) || (th.second && th.dst == a && th.src == b)
  }

  /** Thread t still owes row a of table b. */
  ghost predicate Owes(w: World, t: nat, a: int, b: int) {
    t in w.threads && w.threads[t].pc == Second && w.threads[t].src == a && w.threads[t].dst == b
  }

  ghost predicate ThreadFits(db: Db, th: Thread) {
    && th.src != th.dst && th.src in db.tables && th.dst in db.tables
    && (th.first ==> th.pc != First) && (th.second ==> th.pc == Done)
    && (th.pc != First ==> Friends(db, th.src, th.dst))
    && (th.pc == Done ==> Friends(db, th.dst, th.src))
  }

  /** No two threads inserted the same row. */
  ghost predicate RowsWonOnce(w: World) {
    forall t, u, a, b :: t in w.threads && u in w.threads && t != u ==>
      !(Inserted(w.threads[t], a, b) && Inserted(w.threads[u], a, b))
  }

  ghost predicate Inv(w: World) {
    && NobodyAlone(w.db)
    && (forall t :: t in w.threads ==> ThreadFits(w.db, w.threads[t]))
    && RowsWonOnce(w)
    && (forall a, b :: Friends(w.db, a, b) && !Friends(w.db, b, a) ==> exists t :: Owes(w, t, a, b))
  }

  /** One attempted insert: the row is there afterwards, and nothing else changes. */
  lemma AttemptEffect(db: Db, id: int, v: int)
    requires id in db.tables
    ensures var (db2, ok) := Attempt(db, id, v);
            && db2.tables.Keys == db.tables.Keys
            && (ok <==> !Friends(db, id, v))
            && (forall a, b :: Friends(db2, a, b) <==> Friends(db, a, b) || (a == id && b == v))
  {
  }

  lemma BeginKeeps(w: World, t: nat, src: int, dst: int)
    requires Inv(w) && Enabled(w, Begin(t, src, dst))
    ensures Inv(Act(w, Begin(t, src, dst)))
  {
    var w' := Act(w, Begin(t, src, dst));
    forall a, b | Friends(w'.db, a, b) && !Friends(w'.db, b, a) ensures exists u :: Owes(w', u, a, b) {
      var u :| Owes(w, u, a, b);
      assert Owes(w', u, a, b);
    }
  }

  lemma FirstKeeps(w: World, t: nat)
    requires Inv(w) && t in w.threads && w.threads[t].pc == First
    ensures Inv(Act(w, Insert(t)))
  {
    var th, w' := w.threads[t], Act(w, Insert(t));
    AttemptEffect(w.db, th.src, th.dst);
    forall a, b | Friends(w'.db, a, b) && !Friends(w'.db, b, a) ensures exists u :: Owes(w', u, a, b) {
      if a == th.src && b == th.dst {
        assert Owes(w', t, a, b);
      } else {
        var u :| Owes(w, u, a, b);
        assert Owes(w', u, a, b);
      }
    }
  }

  lemma SecondKeeps(w: World, t: nat)
    requires Inv(w) && t in w.threads && w.threads[t].pc == Second
    ensures Inv(Act(w, Insert(t)))
  {
    var th, w' := w.threads[t], Act(w, Insert(t));
    AttemptEffect(w.db, th.dst, th.src);
    forall a, b | Friends(w'.db, a, b) && !Friends(w'.db, b, a) ensures exists u :: Owes(w', u, a, b) {
      assert Friends(w'.db, th.src, th.dst) && Friends(w'.db, th.dst, th.src);
      var u :| Owes(w, u, a, b);
      assert Owes(w', u, a, b);
    }
  }

  lemma NewTableKeeps(w: World, id: int)
    requires Inv(w)
    ensures Inv(Act(w, NewTable(id)))
  {
    var w' := Act(w, NewTable(id));
    assert forall a, b :: Friends(w'.db, a, b) <==> Friends(w.db, a, b);
    forall a, b | Friends(w'.db, a, b) && !Friends(w'.db, b, a) ensures exists u :: Owes(w', u, a, b) {
      var u :| Owes(w, u, a, b);
      assert Owes(w', u, a, b);
    }
  }

  lemma ActKeeps(w: World, a: Action)
    requires Inv(w) && Enabled(w, a)
    ensures Inv(Act(w, a))
    ensures forall x, y :: Friends(w.db, x, y) ==> Friends(Act(w, a).db, x, y)
    ensures forall t :: t in w.threads ==> t in Act(w, a).threads
  {
    match a
    case Begin(t, src, dst) => BeginKeeps(w, t, src, dst);
    case Insert(t) =>
      if w.threads[t].pc == First { FirstKeeps(w, t); } else { SecondKeeps(w, t); }
    case NewTable(id) => NewTableKeeps(w, id);
  }

  lemma {:induction false} RunKeeps(w: World, acts: seq<Action>)
    requires Inv(w) && Run(w, acts)
    ensures Inv(After(w, acts))
    ensures forall x, y :: Friends(w.db, x, y) ==> Friends(After(w, acts).db, x, y)
    decreases |acts|
  {
    if acts != [] {
      ActKeeps(w, acts[0]);
      RunKeeps(Act(w, acts[0]), acts[1..]);
    }
  }

  ghost predicate Start(w: World) {
    w.threads == map[] && Symmetric(w.db) && NobodyAlone(w.db)
  }

  /** Throughout any interleaving: friendships only grow, nobody is its own
      friend, a missing reverse row is owed by a thread between its inserts,
      and every finished acceptance leaves its pair friends both ways. */
  lemma FriendsThroughout(w: World, acts: seq<Action>)
    requires Start(w) && Run(w, acts)
    ensures var w' := After(w, acts);
            && (forall a, b :: Friends(w.db, a, b) ==> Friends(w'.db, a, b))
            && NobodyAlone(w'.db)
            && (forall a, b :: Friends(w'.db, a, b) && !Friends(w'.db, b, a) ==> exists t :: Owes(w', t, a, b))
            && (forall t :: t in w'.threads && w'.threads[t].pc == Done ==>
                  Friends(w'.db, w'.threads[t].src, w'.threads[t].dst) &&
                  Friends(w'.db, w'.threads[t].dst, w'.threads[t].src))
  {
    RunKeeps(w, acts);
  }

  /** Whenever no acceptance is between its inserts, friendship is symmetric. */
  lemma SymmetricAtRest(w: World, acts: seq<Action>)
    requires Start(w) && Run(w, acts)
    requires forall t :: t in After(w, acts).threads ==> After(w, acts).threads[t].pc != Second
    ensures Symmetric(After(w, acts).db)
  {
    RunKeeps(w, acts);
  }

  ghost predicate SamePair(x: Thread, y: Thread) {
    (x.src == y.src && x.dst == y.dst) || (x.src == y.dst && x.dst == y.src)
  }

  /** Of all acceptances of one pair, in either direction and however often
      repeated, at most one takes the success branch. */
  lemma AtMostOneSuccess(w: World, acts: seq<Action>, t: nat, u: nat)
    requires Start(w) && Run(w, acts)
    requires t in After(w, acts).threads && u in After(w, acts).threads
    requires SamePair(After(w, acts).threads[t], After(w, acts).threads[u])
    requires After(w, acts).threads[t].Succeeded() && After(w, acts).threads[u].Succeeded()
    ensures t == u
  {
    RunKeeps(w, acts);
    var x, y := After(w, acts).threads[t], After(w, acts).threads[u];
    assert Inserted(x, x.src, x.dst) && Inserted(y, x.src, x.dst);
  }

  lemma InsertedStays(w: World, a: Action, t: nat, x: int, y: int)
    requires Inv(w) && Enabled(w, a) && t in w.threads && Inserted(w.threads[t], x, y)
    ensures t in Act(w, a).threads && Inserted(Act(w, a).threads[t], x, y)
  {
  }

  /** The rows that were not there at `start` have each been won by a thread. */
  ghost predicate RowsWon(start: Db, w: World) {
    forall a, b :: Friends(w.db, a, b) && !Friends(start, a, b) ==>
      exists t :: t in w.threads && Inserted(w.threads[t], a, b)
  }

  lemma ActWins(start: Db, w: World, act: Action)
    requires Inv(w) && Enabled(w, act) && RowsWon(start, w)
    ensures RowsWon(start, Act(w, act))
  {
    var w' := Act(w, act);
    if act.Insert? {
      var th := w.threads[act.t];
      AttemptEffect(w.db, th.src, th.dst);
      AttemptEffect(w.db, th.dst, th.src);
    }
    forall a, b | Friends(w'.db, a, b) && !Friends(start, a, b)
      ensures exists t :: t in w'.threads && Inserted(w'.threads[t], a, b)
    {
      if Friends(w.db, a, b) {
        var t :| t in w.threads && Inserted(w.threads[t], a, b);
        InsertedStays(w, act, t, a, b);
      } else {
        assert act.Insert? && Inserted(w'.threads[act.t], a, b);
      }
    }
  }

  lemma {:induction false} RunWins(start: Db, w: World, acts: seq<Action>)
    requires Inv(w) && Run(w, acts) && RowsWon(start, w)
    ensures RowsWon(start, After(w, acts))
    decreases |acts|
  {
    if acts != [] {
      ActKeeps(w, acts[0]);
      ActWins(start, w, acts[0]);
      RunWins(start, Act(w, acts[0]), acts[1..]);
    }
  }

  ghost predicate Announced(w: World, a: int, b: int) {
    exists s :: s in w.threads && w.threads[s].Succeeded() &&
      ((w.threads[s].src == a && w.threads[s].dst == b) || (w.threads[s].src == b && w.threads[s].dst == a))
  }

  /** Every new friendship row was won by a thread. */
  lemma NewRowsAreWon(w: World, acts: seq<Action>)
    requires Start(w) && Run(w, acts)
    ensures RowsWon(w.db, After(w, acts))
  {
    RunWins(w.db, w, acts);
  }

  /** The statement of thread a.t that a runs inserts row v into table id. */
  ghost predicate Inserts(w: World, a: Action, id: int, v: int) {
    && a.Insert? && a.t in w.threads
    && var th := w.threads[a.t];
       (th.pc == First && th.src == id && th.dst == v) || (th.pc == Second && th.dst == id && th.src == v)
  }

  /** The thread whose statement, of all that insert row v into table id, runs
      first, whatever becomes of it. */
  ghost function FirstToInsert(w: World, acts: seq<Action>, id: int, v: int): Option<nat>
    requires Run(w, acts)
    decreases |acts|
  {
    if acts == [] then None
    else if Inserts(w, acts[0], id, v) then Some(acts[0].t)
    else FirstToInsert(Act(w, acts[0]), acts[1..], id, v)
  }

  lemma {:induction false} InsertedKept(w: World, acts: seq<Action>, t: nat, x: int, y: int)
    requires Inv(w) && Run(w, acts) && t in w.threads && Inserted(w.threads[t], x, y)
    ensures t in After(w, acts).threads && Inserted(After(w, acts).threads[t], x, y)
    decreases |acts|
  {
    if acts != [] {
      ActKeeps(w, acts[0]);
      InsertedStays(w, acts[0], t, x, y);
      InsertedKept(Act(w, acts[0]), acts[1..], t, x, y);
    }
  }

  /** A row that is not there appears exactly when it is first inserted. */
  lemma RowAppears(w: World, a: Action, id: int, v: int)
    requires Inv(w) && Enabled(w, a) && !Friends(w.db, id, v)
    ensures Friends(Act(w, a).db, id, v) <==> Inserts(w, a, id, v)
    ensures Inserts(w, a, id, v) ==> Inserted(Act(w, a).threads[a.t], id, v)
  {
    if a.Insert? {
      var th := w.threads[a.t];
      assert ThreadFits(w.db, th);
      AttemptEffect(w.db, th.src, th.dst);
      AttemptEffect(w.db, th.dst, th.src);
    }
  }

  /** The first to run the insert of a missing row wins it. */
  lemma {:induction false} FirstWins(w: World, acts: seq<Action>, id: int, v: int)
    requires Inv(w) && Run(w, acts) && !Friends(w.db, id, v)
    ensures var w', first := After(w, acts), FirstToInsert(w, acts, id, v);
            && (first.None? ==> !Friends(w'.db, id, v))
            && (first.Some? ==> first.value in w'.threads && Inserted(w'.threads[first.value], id, v))
    decreases |acts|
  {
    if acts != [] {
      var a, w1 := acts[0], Act(w, acts[0]);
      ActKeeps(w, a);
      RowAppears(w, a, id, v);
      if Inserts(w, a, id, v) {
        InsertedKept(w1, acts[1..], a.t, id, v);
      } else {
        FirstWins(w1, acts[1..], id, v);
      }
    }
  }

  /** From any reachable state in which a and b are strangers, and over any
      continuation: their friendship is announced if and only if one thread is
      the first to run the insert of either row. */
  lemma AnnouncedIff(w0: World, before: seq<Action>, acts: seq<Action>, a: int, b: int)
    requires Start(w0) && Run(w0, before) && Run(After(w0, before), acts)
    requires !Friends(After(w0, before).db, a, b) && !Friends(After(w0, before).db, b, a)
    ensures var w := After(w0, before);
            Announced(After(w, acts), a, b) <==>
            FirstToInsert(w, acts, a, b).Some? && FirstToInsert(w, acts, a, b) == FirstToInsert(w, acts, b, a)
  {
    RunKeeps(w0, before);
    var w := After(w0, before);
    var w' := After(w, acts);
    RunKeeps(w, acts);
    FirstWins(w, acts, a, b);
    FirstWins(w, acts, b, a);
    if Announced(w', a, b) {
      var s :| s in w'.threads && w'.threads[s].Succeeded() &&
        ((w'.threads[s].src == a && w'.threads[s].dst == b) || (w'.threads[s].src == b && w'.threads[s].dst == a));
      assert ThreadFits(w'.db, w'.threads[s]);
      assert Inserted(w'.threads[s], a, b) && Inserted(w'.threads[s], b, a);
    }
    var t := FirstToInsert(w, acts, a, b);
    if t.Some? && t == FirstToInsert(w, acts, b, a) {
      assert ThreadFits(w'.db, w'.threads[t.value]);
      assert w'.threads[t.value].Succeeded();
    }
  }

  /** The same once t is about to run its first insert: the pair is announced
      if and only if no other thread runs an insert of the reverse row before t
      runs its own. */
  lemma AnnouncedAfterFirst(w0: World, before: seq<Action>, t: nat, acts: seq<Action>)
    requires Start(w0) && Run(w0, before)
    requires var w := After(w0, before);
             && t in w.threads && w.threads[t].pc == First && Run(Act(w, Insert(t)), acts)
             && !Friends(w.db, w.threads[t].src, w.threads[t].dst) && !Friends(w.db, w.threads[t].dst, w.threads[t].src)
    ensures var w := After(w0, before);
            var src, dst := w.threads[t].src, w.threads[t].dst;
            Announced(After(Act(w, Insert(t)), acts), src, dst) <==>
            FirstToInsert(Act(w, Insert(t)), acts, dst, src) == Some(t)
  {
    var w := After(w0, before);
    var src, dst := w.threads[t].src, w.threads[t].dst;
    RunKeeps(w0, before);
    assert ThreadFits(w.db, w.threads[t]);
    RunStep(w, Insert(t), acts);
    AnnouncedIff(w0, before, [Insert(t)] + acts, src, dst);
    assert ([Insert(t)] + acts)[1..] == acts;
    assert Inserts(w, Insert(t), src, dst) && !Inserts(w, Insert(t), dst, src);
  }

  /** The guard of the success branch: a thread that won its first row succeeds
      if and only if the reverse row is missing when it gets there. */
  lemma SucceedsIff(w: World, t: nat)
    requires Inv(w) && t in w.threads && w.threads[t].pc == Second && w.threads[t].first
    ensures Act(w, Insert(t)).threads[t].Succeeded() <==> !Friends(w.db, w.threads[t].dst, w.threads[t].src)
  {
    assert ThreadFits(w.db, w.threads[t]);
    AttemptEffect(w.db, w.threads[t].dst, w.threads[t].src);
  }

  /** The statements of one acceptance run alone are allow_addf_action's. */
  lemma AloneIsInsertPair(w: World, t: nat, src: int, dst: int)
    requires t !in w.threads && src != dst && src in w.db.tables && dst in w.db.tables
    ensures var acts := [Begin(t, src, dst), Insert(t), Insert(t)];
            var (db, inserted) := ServerSpec.InsertPair(w.db, src, dst);
            && Run(w, acts) && t in After(w, acts).threads
            && After(w, acts).db == db && (After(w, acts).threads[t].Succeeded() <==> inserted)
  {
    var w1 := Act(w, Begin(t, src, dst));
    var w2 := Act(w1, Insert(t));
    RunStep(w2, Insert(t), []);
    RunStep(w1, Insert(t), [Insert(t)]);
    RunStep(w, Begin(t, src, dst), [Insert(t), Insert(t)]);
    assert [Begin(t, src, dst), Insert(t), Insert(t)] == [Begin(t, src, dst)] + [Insert(t), Insert(t)];
  }

  /** Two threads, each between its inserts and each having won its first. */
  ghost predicate Crossed(w: World, t: nat, u: nat, a: int, b: int) {
    && t != u && t in w.threads && u in w.threads
    && w.threads[t] == Thread(a, b, Second, true, false)
    && w.threads[u] == Thread(b, a, Second, true, false)
    && a in w.db.tables && b in w.db.tables && Friends(w.db, a, b) && Friends(w.db, b, a)
  }

  /** From anywhere, two opposite acceptances of strangers can cross. */
  lemma CanCross(w: World, t: nat, u: nat, a: int, b: int)
    requires t != u && t !in w.threads && u !in w.threads && a != b
    requires a in w.db.tables && b in w.db.tables && !Friends(w.db, a, b) && !Friends(w.db, b, a)
    ensures var acts := [Begin(t, a, b), Begin(u, b, a), Insert(t), Insert(u)];
            Run(w, acts) && Crossed(After(w, acts), t, u, a, b)
  {
    var w1 := Act(w, Begin(t, a, b));
    var w2 := Act(w1, Begin(u, b, a));
    var w3 := Act(w2, Insert(t));
    AttemptEffect(w2.db, a, b);
    var w4 := Act(w3, Insert(u));
    AttemptEffect(w3.db, b, a);
    RunStep(w3, Insert(u), []);
    RunStep(w2, Insert(t), [Insert(u)]);
    RunStep(w1, Begin(u, b, a), [Insert(t), Insert(u)]);
    RunStep(w, Begin(t, a, b), [Begin(u, b, a), Insert(t), Insert(u)]);
    assert [Begin(t, a, b), Begin(u, b, a), Insert(t), Insert(u)]
        == [Begin(t, a, b)] + [Begin(u, b, a), Insert(t), Insert(u)];
  }

  /** Acceptances that cross end with neither in the success branch, although
      the pair are now friends. */
  lemma CrossedFail(w: World, t: nat, u: nat, a: int, b: int)
    requires Crossed(w, t, u, a, b)
    ensures var acts := [Insert(t), Insert(u)];
            && Run(w, acts) && t in After(w, acts).threads && u in After(w, acts).threads
            && After(w, acts).threads[t] == Thread(a, b, Done, true, false)
            && After(w, acts).threads[u] == Thread(b, a, Done, true, false)
            && Friends(After(w, acts).db, a, b) && Friends(After(w, acts).db, b, a)
  {
    var w1 := Act(w, Insert(t));
    AttemptEffect(w.db, b, a);
    AttemptEffect(w1.db, a, b);
    RunStep(w1, Insert(u), []);
    RunStep(w, Insert(t), [Insert(u)]);
    assert [Insert(t), Insert(u)] == [Insert(t)] + [Insert(u)];
  }

  /** So do two acceptances of the same request, when the second runs both its
      inserts between those of the first. */
  lemma OvertakenFail(w: World, t: nat, u: nat, a: int, b: int)
    requires t != u && t in w.threads && u in w.threads && a != b
    requires w.threads[t] == w.threads[u] == Thread(a, b, First, false, false)
    requires a in w.db.tables && b in w.db.tables && !Friends(w.db, a, b) && !Friends(w.db, b, a)
    ensures var acts := [Insert(t), Insert(u), Insert(u), Insert(t)];
            && Run(w, acts) && t in After(w, acts).threads && u in After(w, acts).threads
            && After(w, acts).threads[t] == Thread(a, b, Done, true, false)
            && After(w, acts).threads[u] == Thread(a, b, Done, false, true)
            && Friends(After(w, acts).db, a, b) && Friends(After(w, acts).db, b, a)
  {
    var w1 := Act(w, Insert(t));
    AttemptEffect(w.db, a, b);
    var w2 := Act(w1, Insert(u));
    AttemptEffect(w1.db, a, b);
    var w3 := Act(w2, Insert(u));
    AttemptEffect(w2.db, b, a);
    AttemptEffect(w3.db, b, a);
    RunStep(w3, Insert(t), []);
    RunStep(w2, Insert(u), [Insert(t)]);
    RunStep(w1, Insert(u), [Insert(u), Insert(t)]);
    RunStep(w, Insert(t), [Insert(u), Insert(u), Insert(t)]);
    assert [Insert(t), Insert(u), Insert(u), Insert(t)] == [Insert(t)] + [Insert(u), Insert(u), Insert(t)];
  }

  lemma RunStep(w: World, a: Action, rest: seq<Action>)
    requires Enabled(w, a) && Run(Act(w, a), rest)
    ensures Run(w, [a] + rest) && After(w, [a] + rest) == After(Act(w, a), rest)
  {
    assert ([a] + rest)[1..] == rest;
  }
}
