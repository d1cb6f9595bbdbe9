/** What one call into the mutual recursion Write_server <-> offline_action does,
    for every friend graph and every pattern of write failures. */
module Cascade {
  import opened Wrappers
  import opened Presence
  import opened Packets
  import opened Database
  import opened ServerSpec

  ghost predicate DbSane(db: Db) {
    && (forall id :: id in db.tables ==> NoDup(db.tables[id]))
    && (forall a, b :: b in Rows(db, a) ==> a in Rows(db, b) && a != b)
    && (forall u :: u in db.users ==> 0 < u.id < db.nextId)
    && OneRowEach(db.users)
    && (forall id :: id in db.tables ==> 0 < id < db.nextId)
    && 0 < db.nextId
  }

  /** Session consistency: online ids and descriptors are pairwise distinct,
      every online descriptor is watched and open, friendship is symmetric. */
  ghost predicate Sane(s: Srv) {
    && Distinct(s.online, ById)
    && Distinct(s.online, ByFd)
    && (forall e :: e in s.online ==> 0 < e.id && e.fd in s.watched)
    && s.watched <= s.open
    && DbSane(s.db)
  }

  /** The ids that went offline between s and s'. */
  ghost function Lost(s: Srv, s': Srv): set<int> {
    Ids(s.online) - Ids(s'.online)
  }

  ghost function FdsOf(online: seq<Entry>, ids: set<int>): set<int> {
    set e | e in online && e.id in ids :: e.fd
  }

  /** The ids that client x is to be told about: its friends among the lost,
      and id if x is one of the rows being notified. */
  ghost function News(db: Db, x: int, lost: set<int>, rows: seq<int>, id: int): set<int> {
    (set d | d in lost && d in Rows(db, x)) + (if x in rows then {id} else {})
  }

  /** No OP_OFFLINE written to fd fails. */
  ghost predicate Hears(net: Net, fd: int) {
    forall k: nat, d :: !net(k, fd, OfflineNote(d))
  }

  /** The lists lose exactly the lost ids and their descriptors (and `closed`). */
  ghost predicate Shrinks(s: Srv, s': Srv, closed: set<int>) {
    var lost := Lost(s, s');
    && s'.db == s.db
    && s'.online == Without(s.online, lost)
    && s'.open == s.open - FdsOf(s.online, lost) - closed
    && s'.watched == s.watched - FdsOf(s.online, lost) - closed
  }

  /** Each survivor is told of exactly its news, each once. */
  ghost predicate SurvivorsTold(s: Srv, s': Srv, rows: seq<int>, id: int) {
    forall e :: e in s'.online ==>
      Told(s.Trace(e.fd), s'.Trace(e.fd), News(s.db, e.id, Lost(s, s'), rows, id))
  }

  /** Each dropped client got only some of its news and perhaps a farewell. */
  ghost predicate LostParted(s: Srv, s': Srv, rows: seq<int>, id: int) {
    forall e :: e in s.online && e.id in Lost(s, s') ==>
      Farewell(s.Trace(e.fd), s'.Trace(e.fd), News(s.db, e.id, Lost(s, s'), rows, id))
  }

  /** Nothing is written to anybody else, and whoever hears its news stays. */
  ghost predicate OthersKept(net: Net, s: Srv, s': Srv, id: int, closed: set<int>) {
    && (forall fd :: fd !in Fds(s.online) && fd !in closed ==> s'.Trace(fd) == s.Trace(fd))
    && (forall e :: e in s.online && e.id != id && Hears(net, e.fd) ==> e in s'.online)
  }

  /** The exact effect of a cascade that notifies `rows` of `id` and closes `closed`. */
  ghost predicate Exact(net: Net, s: Srv, s': Srv, rows: seq<int>, id: int, closed: set<int>) {
    && Shrinks(s, s', closed)
    && SurvivorsTold(s, s', rows, id)
    && LostParted(s, s', rows, id)
    && OthersKept(net, s, s', id, closed)
  }

  lemma ShrinksSane(s: Srv, s': Srv, closed: set<int>)
    requires Sane(s) && Shrinks(s, s', closed) && closed !! Fds(s'.online)
    ensures Sane(s')
  {
    var lost := Lost(s, s');
    DistinctWithout(s.online, lost, ById);
    DistinctWithout(s.online, lost, ByFd);
    DistinctUnique(s.online, ByFd);
    forall e | e in s'.online ensures e.fd in s'.watched {
      assert e in s.online && e.fd in Fds(s'.online);
    }
  }

  lemma NothingLost(s: Srv, s': Srv)
    requires s'.online == s.online
    ensures Lost(s, s') == {} && FdsOf(s.online, Lost(s, s')) == {}
    ensures Without(s.online, Lost(s, s')) == s.online
  {
    WithoutNone(s.online, {});
  }

  /** The cascade that does nothing. */
  lemma ExactNothing(net: Net, s: Srv, rows: seq<int>, id: int)
    requires forall e :: e in s.online ==> e.id !in rows
    ensures Exact(net, s, s, rows, id, {})
  {
    NothingLost(s, s);
    forall e | e in s.online
      ensures Told(s.Trace(e.fd), s.Trace(e.fd), News(s.db, e.id, Lost(s, s), rows, id))
    {
      ToldNothing(s.Trace(e.fd));
      assert News(s.db, e.id, {}, rows, id) == {};
    }
  }

  lemma LostSplits(s: Srv, s1: Srv, s2: Srv)
    requires Sane(s)
    requires s1.online == Without(s.online, Lost(s, s1))
    requires s2.online == Without(s1.online, Lost(s1, s2))
    ensures Lost(s, s2) == Lost(s, s1) + Lost(s1, s2)
    ensures Lost(s, s1) !! Lost(s1, s2)
    ensures forall e :: e in s.online && e.id in Lost(s, s1) ==> e !in s1.online
    ensures forall e :: e in s.online && e.id !in Lost(s, s1) ==> e in s1.online
  {
    forall x | x in Lost(s1, s2) ensures x in Lost(s, s2) {
      var e :| e in s1.online && e.id == x;
      assert e in s.online;
    }
    forall x | x in Lost(s, s2) ensures x in Lost(s, s1) + Lost(s1, s2) {
      var e :| e in s.online && e.id == x;
    }
  }

  lemma ComposeShrinks(s: Srv, s1: Srv, s2: Srv)
    requires Sane(s) && Shrinks(s, s1, {}) && Shrinks(s1, s2, {})
    ensures Shrinks(s, s2, {})
  {
    var a, b := Lost(s, s1), Lost(s1, s2);
    LostSplits(s, s1, s2);
    WithoutTwice(s.online, a, b);
    assert FdsOf(s.online, a + b) == FdsOf(s.online, a) + FdsOf(s1.online, b);
  }

  /** The news of two consecutive cascades about an offline id add up. */
  lemma NewsAddUp(db: Db, x: int, a: set<int>, b: set<int>, r1: seq<int>, r2: seq<int>, id: int)
    requires a !! b && id !in a && id !in b && NoDup(r1 + r2)
    ensures News(db, x, a, r1, id) !! News(db, x, b, r2, id)
    ensures News(db, x, a + b, r1 + r2, id) == News(db, x, a, r1, id) + News(db, x, b, r2, id)
  {
    forall i, j | 0 <= i < |r1| && 0 <= j < |r2| ensures r1[i] != r2[j] {
      assert (r1 + r2)[i] == r1[i] && (r1 + r2)[|r1| + j] == r2[j];
    }
  }

  lemma ComposeTold(s: Srv, s1: Srv, s2: Srv, r1: seq<int>, r2: seq<int>, id: int)
    requires Sane(s) && Shrinks(s, s1, {}) && Shrinks(s1, s2, {})
    requires id !in Ids(s.online) && NoDup(r1 + r2)
    requires SurvivorsTold(s, s1, r1, id) && SurvivorsTold(s1, s2, r2, id)
    ensures SurvivorsTold(s, s2, r1 + r2, id)
  {
    var a, b := Lost(s, s1), Lost(s1, s2);
    LostSplits(s, s1, s2);
    forall e | e in s2.online
      ensures Told(s.Trace(e.fd), s2.Trace(e.fd), News(s.db, e.id, Lost(s, s2), r1 + r2, id))
    {
      assert e in s1.online;
      NewsAddUp(s.db, e.id, a, b, r1, r2, id);
      ToldCompose(s.Trace(e.fd), s1.Trace(e.fd), s2.Trace(e.fd),
                  News(s.db, e.id, a, r1, id), News(s.db, e.id, b, r2, id));
    }
  }

  lemma PartedTwice(db: Db, x: int, t: seq<Packet>, u: seq<Packet>, v: seq<Packet>,
                    a: set<int>, b: set<int>, r1: seq<int>, r2: seq<int>, id: int)
    requires a !! b && id !in a && id !in b && NoDup(r1 + r2)
    requires (Told(t, u, News(db, x, a, r1, id)) && Farewell(u, v, News(db, x, b, r2, id)))
      || Farewell(t, v, News(db, x, a, r1, id))
    ensures Farewell(t, v, News(db, x, a + b, r1 + r2, id))
  {
    NewsAddUp(db, x, a, b, r1, r2, id);
    var n1, n2 := News(db, x, a, r1, id), News(db, x, b, r2, id);
    if Farewell(t, v, n1) {
      FarewellMore(t, v, n1, n1 + n2);
    } else {
      FarewellAfterTold(t, u, v, n1, n2);
    }
  }

  lemma GoneFd(s: Srv, s1: Srv, e: Entry)
    requires Distinct(s.online, ByFd) && e in s.online
    requires s1.online == Without(s.online, Lost(s, s1)) && e.id in Lost(s, s1)
    ensures e.fd !in Fds(s1.online)
  {
    DistinctUnique(s.online, ByFd);
  }

  /** What a client lost in the first of two cascades, or in the second, heard. */
  lemma PartedOne(s: Srv, s1: Srv, s2: Srv, e: Entry, r1: seq<int>, r2: seq<int>, id: int)
    requires Lost(s, s1) !! Lost(s1, s2) && Lost(s, s2) == Lost(s, s1) + Lost(s1, s2)
    requires id !in Lost(s, s2) && NoDup(r1 + r2) && e.id in Lost(s, s2)
    requires e.id in Lost(s, s1) ==>
      Farewell(s.Trace(e.fd), s1.Trace(e.fd), News(s.db, e.id, Lost(s, s1), r1, id)) && s2.Trace(e.fd) == s1.Trace(e.fd)
    requires e.id !in Lost(s, s1) ==>
      Told(s.Trace(e.fd), s1.Trace(e.fd), News(s.db, e.id, Lost(s, s1), r1, id)) &&
      Farewell(s1.Trace(e.fd), s2.Trace(e.fd), News(s.db, e.id, Lost(s1, s2), r2, id))
    ensures Farewell(s.Trace(e.fd), s2.Trace(e.fd), News(s.db, e.id, Lost(s, s2), r1 + r2, id))
  {
    PartedTwice(s.db, e.id, s.Trace(e.fd), s1.Trace(e.fd), s2.Trace(e.fd), Lost(s, s1), Lost(s1, s2), r1, r2, id);
  }

  lemma ComposeParted(net: Net, s: Srv, s1: Srv, s2: Srv, r1: seq<int>, r2: seq<int>, id: int)
    requires Sane(s) && Shrinks(s, s1, {}) && Shrinks(s1, s2, {})
    requires id !in Ids(s.online) && NoDup(r1 + r2)
    requires SurvivorsTold(s, s1, r1, id)
    requires LostParted(s, s1, r1, id) && LostParted(s1, s2, r2, id)
    requires OthersKept(net, s1, s2, id, {})
    ensures LostParted(s, s2, r1 + r2, id)
  {
    LostSplits(s, s1, s2);
    forall e | e in s.online && e.id in Lost(s, s2)
      ensures Farewell(s.Trace(e.fd), s2.Trace(e.fd), News(s.db, e.id, Lost(s, s2), r1 + r2, id))
    {
      if e.id in Lost(s, s1) {
        GoneFd(s, s1, e);
      }
      PartedOne(s, s1, s2, e, r1, r2, id);
    }
  }

  lemma ComposeKept(net: Net, s: Srv, s1: Srv, s2: Srv, id: int)
    requires Shrinks(s, s1, {}) && Shrinks(s1, s2, {})
    requires OthersKept(net, s, s1, id, {}) && OthersKept(net, s1, s2, id, {})
    ensures OthersKept(net, s, s2, id, {})
  {
    assert Fds(s1.online) <= Fds(s.online);
  }

  /** Two rounds of one notification loop make one. */
  lemma Compose(net: Net, s: Srv, s1: Srv, s2: Srv, r1: seq<int>, r2: seq<int>, id: int)
    requires Sane(s) && id !in Ids(s.online) && NoDup(r1 + r2)
    requires Exact(net, s, s1, r1, id, {}) && Exact(net, s1, s2, r2, id, {})
    ensures Exact(net, s, s2, r1 + r2, id, {})
  {
    ComposeShrinks(s, s1, s2);
    ComposeTold(s, s1, s2, r1, r2, id);
    ComposeParted(net, s, s1, s2, r1, r2, id);
    ComposeKept(net, s, s1, s2, id);
  }

  lemma ComposeRow(net: Net, s: Srv, s1: Srv, s2: Srv, rows: seq<int>, id: int)
    requires Sane(s) && id !in Ids(s.online) && NoDup(rows) && rows != []
    requires Exact(net, s, s1, [rows[0]], id, {}) && Exact(net, s1, s2, rows[1..], id, {})
    ensures Exact(net, s, s2, rows, id, {})
  {
    assert rows == [rows[0]] + rows[1..];
    Compose(net, s, s1, s2, [rows[0]], rows[1..], id);
  }

  lemma OneNoteTold(s: Srv, s1: Srv, friend: Entry, e: Entry, id: int)
    requires e.fd == friend.fd <==> e.id == friend.id
    requires s1.out == s.out[friend.fd := s.Trace(friend.fd) + [OfflineNote(id)]]
    ensures Told(s.Trace(e.fd), s1.Trace(e.fd), News(s.db, e.id, {}, [friend.id], id))
  {
    if e.fd == friend.fd {
      ToldOne(s.Trace(e.fd), id);
      assert News(s.db, e.id, {}, [friend.id], id) == {id};
    } else {
      ToldNothing(s.Trace(e.fd));
      assert News(s.db, e.id, {}, [friend.id], id) == {};
    }
  }

  /** A write of news that succeeds changes one trace. */
  lemma ExactOneNote(net: Net, s: Srv, s1: Srv, friend: Entry, id: int)
    requires Sane(s) && friend in s.online && id !in Ids(s.online)
    requires s1 == s.(clock := s.clock + 1, out := s.out[friend.fd := s.Trace(friend.fd) + [OfflineNote(id)]])
    ensures Exact(net, s, s1, [friend.id], id, {})
  {
    NothingLost(s, s1);
    DistinctUnique(s.online, ById);
    DistinctUnique(s.online, ByFd);
    forall e | e in s1.online
      ensures Told(s.Trace(e.fd), s1.Trace(e.fd), News(s.db, e.id, Lost(s, s1), [friend.id], id))
    {
      OneNoteTold(s, s1, friend, e, id);
    }
  }

  lemma DropSane(s: Srv, s2: Srv, fd: int, id: int)
    requires Sane(s)
    requires forall e :: e in s.online ==> (e.id == id <==> e.fd == fd)
    requires s2 == s.(watched := s.watched - {fd}, online := Without(s.online, {id}))
    ensures Sane(s2) && id !in Ids(s2.online) && fd !in Fds(s2.online)
  {
    DistinctWithout(s.online, {id}, ById);
    DistinctWithout(s.online, {id}, ByFd);
  }

  /** The end of offline_action: the farewell to a descriptor that is no longer
      online, and the close. A failing farewell drops nobody else. */
  ghost predicate Closed(s: Srv, s': Srv, fd: int) {
    && s'.db == s.db && s'.online == s.online
    && s'.open == s.open - {fd} && s'.watched == s.watched - {fd}
    && (forall g :: g != fd ==> s'.Trace(g) == s.Trace(g))
    && (s'.Trace(fd) == s.Trace(fd) || s'.Trace(fd) == s.Trace(fd) + [AllowDisconnect])
  }

  lemma FarewellCloses(net: Net, s: Srv, fd: int)
    requires fd !in Fds(s.online) && fd !in s.watched
    ensures var s' := WriteServer(net, s, fd, AllowDisconnect).0;
            Closed(s, s'.(open := s'.open - {fd}), fd)
    ensures fd in s.open && !net(s.clock, fd, AllowDisconnect) ==>
      WriteServer(net, s, fd, AllowDisconnect).0.Trace(fd) == s.Trace(fd) + [AllowDisconnect]
  {
    var s1 := Write(net, s, fd, AllowDisconnect).0;
    assert SessionOf(s1.online, fd) == -1 by {
      if Find(s1.online, fd, ByFd).Some? {
        assert Find(s1.online, fd, ByFd).value.fd in Fds(s.online);
      }
    }
  }

  lemma FinishIds(s: Srv, s2: Srv, s3: Srv, s': Srv, id: int)
    requires s2.online == Without(s.online, {id})
    requires s3.online == Without(s2.online, Lost(s2, s3)) && s'.online == s3.online
    ensures Lost(s, s') == Lost(s2, s3) + (Ids(s.online) * {id})
  {
    forall x | x in Ids(s.online) && x != id ensures x in Ids(s2.online) {
      var e :| e in s.online && e.id == x;
      assert e in s2.online;
    }
    forall x | x in Ids(s2.online) ensures x in Ids(s.online) && x != id {
      var e :| e in s2.online && e.id == x;
    }
  }

  lemma FinishLost(s: Srv, s2: Srv, s3: Srv, s': Srv, fd: int, id: int)
    requires forall e :: e in s.online ==> (e.id == id <==> e.fd == fd)
    requires s2.online == Without(s.online, {id})
    requires s3.online == Without(s2.online, Lost(s2, s3)) && s'.online == s3.online
    ensures Lost(s, s') == Lost(s2, s3) + (Ids(s.online) * {id})
    ensures s'.online == Without(s.online, Lost(s, s'))
    ensures FdsOf(s.online, Lost(s, s')) + {fd} == FdsOf(s2.online, Lost(s2, s3)) + {fd}
  {
    FinishIds(s, s2, s3, s', id);
    WithoutTwice(s.online, {id}, Lost(s2, s3));
    WithoutSame(s.online, {id} + Lost(s2, s3), Lost(s, s'));
  }

  /** Friends of id are in its rows, so the news about id can be counted as
      the loss of a friend or as a row of the loop. */
  lemma NewsById(db: Db, x: int, a: set<int>, b: set<int>, id: int)
    requires DbSane(db) && a <= b <= a + {id}
    ensures News(db, x, a, Rows(db, id), id) == News(db, x, b, Rows(db, id), id)
    ensures id in b ==> News(db, x, b, Rows(db, id), id) == News(db, x, b, [], id)
  {
  }

  lemma FinishTold(s: Srv, s2: Srv, s3: Srv, s': Srv, fd: int, id: int)
    requires DbSane(s.db) && s2.db == s.db && s2.out == s.out
    requires forall e :: e in s2.online ==> e.fd != fd
    requires Lost(s2, s3) <= Lost(s, s') <= Lost(s2, s3) + {id}
    requires SurvivorsTold(s2, s3, Rows(s.db, id), id) && Closed(s3, s', fd)
    requires forall e :: e in s3.online ==> e in s2.online
    ensures SurvivorsTold(s, s', Rows(s.db, id), id)
  {
    var rows, lost := Rows(s.db, id), Lost(s, s');
    forall e | e in s'.online
      ensures Told(s.Trace(e.fd), s'.Trace(e.fd), News(s.db, e.id, lost, rows, id))
    {
      NewsById(s.db, e.id, Lost(s2, s3), lost, id);
      assert s2.Trace(e.fd) == s.Trace(e.fd);
      assert Told(s2.Trace(e.fd), s3.Trace(e.fd), News(s.db, e.id, Lost(s2, s3), rows, id));
    }
  }

  lemma FinishParted(net: Net, s: Srv, s2: Srv, s3: Srv, s': Srv, fd: int, id: int)
    requires DbSane(s.db) && s2.db == s.db && s2.out == s.out
    requires forall e :: e in s2.online ==> e.fd != fd
    requires forall e :: e in s.online ==> (e.id == id <==> e.fd == fd) && (e.id != id ==> e in s2.online)
    requires Lost(s2, s3) <= Lost(s, s') <= Lost(s2, s3) + {id}
    requires LostParted(s2, s3, Rows(s.db, id), id) && Closed(s3, s', fd)
    requires OthersKept(net, s2, s3, id, {})
    ensures LostParted(s, s', Rows(s.db, id), id)
  {
    var rows, lost := Rows(s.db, id), Lost(s, s');
    assert s2.Trace(fd) == s.Trace(fd);
    assert s3.Trace(fd) == s2.Trace(fd);
    forall e | e in s.online && e.id in lost
      ensures Farewell(s.Trace(e.fd), s'.Trace(e.fd), News(s.db, e.id, lost, rows, id))
    {
      if e.id == id {
        FarewellNone(s.Trace(fd), s'.Trace(fd), News(s.db, e.id, lost, rows, id));
      } else {
        NewsById(s.db, e.id, Lost(s2, s3), lost, id);
        assert s2.Trace(e.fd) == s.Trace(e.fd);
        assert Farewell(s2.Trace(e.fd), s3.Trace(e.fd), News(s.db, e.id, Lost(s2, s3), rows, id));
      }
    }
  }

  lemma FinishShape(net: Net, s: Srv, s2: Srv, s3: Srv, s': Srv, fd: int, id: int)
    requires forall e :: e in s.online ==> (e.id == id <==> e.fd == fd)
    requires s2 == s.(watched := s.watched - {fd}, online := Without(s.online, {id}))
    requires Shrinks(s2, s3, {}) && OthersKept(net, s2, s3, id, {}) && Closed(s3, s', fd)
    ensures Shrinks(s, s', {fd}) && OthersKept(net, s, s', id, {fd})
  {
    FinishLost(s, s2, s3, s', fd, id);
    assert Fds(s2.online) <= Fds(s.online);
  }

  lemma FinishExact(net: Net, s: Srv, s2: Srv, s3: Srv, s': Srv, fd: int, id: int)
    requires Sane(s)
    requires forall e :: e in s.online ==> (e.id == id <==> e.fd == fd)
    requires s2 == s.(watched := s.watched - {fd}, online := Without(s.online, {id}))
    requires Exact(net, s2, s3, Rows(s.db, id), id, {}) && Closed(s3, s', fd)
    ensures Exact(net, s, s', Rows(s.db, id), id, {fd})
    ensures id !in Ids(s'.online)
  {
    FinishLost(s, s2, s3, s', fd, id);
    FinishShape(net, s, s2, s3, s', fd, id);
    FinishTold(s, s2, s3, s', fd, id);
    FinishParted(net, s, s2, s3, s', fd, id);
  }

  /** Offline_action for a known id: its friends are told, then its descriptor
      gets the farewell and is closed. */
  lemma OfflineExact(net: Net, s: Srv, fd: int, id: int)
    requires Sane(s) && 0 <= id
    requires forall e :: e in s.online ==> (e.id == id <==> e.fd == fd)
    ensures Exact(net, s, OfflineAction(net, s, fd, id), Rows(s.db, id), id, {fd})
    ensures id !in Ids(OfflineAction(net, s, fd, id).online)
    ensures fd in s.open && (forall k: nat :: !net(k, fd, AllowDisconnect)) ==>
      OfflineAction(net, s, fd, id).Trace(fd) == s.Trace(fd) + [AllowDisconnect]
    decreases |s.online|, OfflineRank(s.online, id), 0
  {
    var s2 := s.(watched := s.watched - {fd}, online := Remove(s.online, id, ById));
    var s3 := TellOffline(net, s2, Rows(s.db, id), id);
    RemoveIsWithout(s.online, id);
    DropSane(s, s2, fd, id);
    TellExact(net, s2, Rows(s.db, id), id);
    FarewellCloses(net, s3, fd);
    assert s3.Trace(fd) == s.Trace(fd);
    assert fd in s.open ==> fd in s3.open by { assert fd !in FdsOf(s2.online, Lost(s2, s3)); }
    FinishExact(net, s, s2, s3, OfflineAction(net, s, fd, id), fd, id);
  }

  /** When the id being dropped was online, its friends count as told of a
      lost friend. */
  lemma AbsorbRows(net: Net, s: Srv, s': Srv, id: int, closed: set<int>)
    requires Sane(s) && Exact(net, s, s', Rows(s.db, id), id, closed) && id in Lost(s, s')
    ensures Exact(net, s, s', [], id, closed)
  {
    forall x ensures News(s.db, x, Lost(s, s'), Rows(s.db, id), id) == News(s.db, x, Lost(s, s'), [], id) {
      NewsById(s.db, x, Lost(s, s'), Lost(s, s'), id);
    }
  }

  /** Write_server when the write fails: whoever holds fd is dropped. */
  lemma WriteFailExact(net: Net, s: Srv, fd: int, p: Packet)
    requires Sane(s) && !WriteServer(net, s, fd, p).1
    ensures var s1, id := WriteServer(net, s, fd, p).0, SessionOf(s.online, fd);
            Exact(net, s, s1, [], id, {fd}) && id !in Ids(s1.online)
    decreases |s.online|, 1, 0
  {
    var s1, id := Write(net, s, fd, p).0, SessionOf(s.online, fd);
    var s' := OfflineAction(net, s1, fd, id);
    if id == -1 {
      NothingLost(s, s');
      NoFdNoSession(s, fd);
      QuietExact(net, s, s', -1, {fd});
    } else {
      var e := Find(s.online, fd, ByFd).value;
      DistinctUnique(s.online, ById);
      DistinctUnique(s.online, ByFd);
      OfflineExact(net, s1, fd, id);
      SameButClock(net, s, s1, s', Rows(s.db, id), id, {fd});
      assert id in Ids(s.online);
      AbsorbRows(net, s, s', id, {fd});
    }
  }

  lemma NoFdNoSession(s: Srv, fd: int)
    requires forall e :: e in s.online ==> 0 < e.id
    ensures SessionOf(s.online, fd) == -1 <==> fd !in Fds(s.online)
  {
  }

  /** A step that loses nobody and writes nothing to those online. */
  lemma QuietExact(net: Net, s: Srv, s': Srv, id: int, closed: set<int>)
    requires s'.db == s.db && s'.online == s.online
    requires s'.open == s.open - closed && s'.watched == s.watched - closed
    requires forall fd :: fd !in closed ==> s'.Trace(fd) == s.Trace(fd)
    requires closed !! Fds(s.online)
    ensures Exact(net, s, s', [], id, closed)
  {
    NothingLost(s, s');
    forall e | e in s'.online
      ensures Told(s.Trace(e.fd), s'.Trace(e.fd), News(s.db, e.id, Lost(s, s'), [], id))
    {
      assert e.fd in Fds(s.online);
      ToldNothing(s.Trace(e.fd));
      assert News(s.db, e.id, {}, [], id) == {};
    }
  }

  lemma SameButClock(net: Net, s: Srv, s1: Srv, s': Srv, rows: seq<int>, id: int, closed: set<int>)
    requires s1 == s.(clock := s.clock + 1) && Exact(net, s1, s', rows, id, closed)
    ensures Exact(net, s, s', rows, id, closed)
  {
    assert Lost(s, s') == Lost(s1, s');
    assert forall fd :: s.Trace(fd) == s1.Trace(fd);
  }

  /** The notification loop, from its first remaining row on. */
  lemma TellExact(net: Net, s: Srv, rows: seq<int>, id: int)
    requires Sane(s) && id !in Ids(s.online) && NoDup(rows)
    ensures Exact(net, s, TellOffline(net, s, rows, id), rows, id, {})
    decreases |s.online|, 2, |rows|
  {
    if rows == [] {
      ExactNothing(net, s, [], id);
    } else {
      var s1 := TellOne(net, s, rows[0], id);
      var s2 := TellOffline(net, s1, rows[1..], id);
      assert TellOffline(net, s, rows, id) == s2;
      assert NoDup(rows[1..]);
      TellOneExact(net, s, rows[0], id);
      TellExact(net, s1, rows[1..], id);
      ComposeRow(net, s, s1, s2, rows, id);
    }
  }

  lemma RowGone(db: Db, x: int, lost: set<int>, row: int, id: int)
    ensures News(db, x, lost, [], row) <= News(db, x, lost, [row], id)
    ensures x != row ==> News(db, x, lost, [], row) == News(db, x, lost, [row], id)
  {
  }

  lemma RowGoneTold(s: Srv, s': Srv, row: int, id: int)
    requires row !in Ids(s'.online)
    requires SurvivorsTold(s, s', [], row) && LostParted(s, s', [], row)
    ensures SurvivorsTold(s, s', [row], id) && LostParted(s, s', [row], id)
  {
    var lost := Lost(s, s');
    forall e | e in s'.online
      ensures Told(s.Trace(e.fd), s'.Trace(e.fd), News(s.db, e.id, lost, [row], id))
    {
      assert e.id in Ids(s'.online);
      RowGone(s.db, e.id, lost, row, id);
    }
    forall e | e in s.online && e.id in lost
      ensures Farewell(s.Trace(e.fd), s'.Trace(e.fd), News(s.db, e.id, lost, [row], id))
    {
      RowGone(s.db, e.id, lost, row, id);
      FarewellMore(s.Trace(e.fd), s'.Trace(e.fd),
                   News(s.db, e.id, lost, [], row), News(s.db, e.id, lost, [row], id));
    }
  }

  /** Dropping a friend that could not be told is a round of the loop too. */
  lemma DropCountsAsRow(net: Net, s: Srv, s': Srv, friend: Entry, id: int)
    requires Sane(s) && friend in s.online
    requires Exact(net, s, s', [], friend.id, {friend.fd}) && friend.id !in Ids(s'.online)
    requires !Hears(net, friend.fd)
    ensures Exact(net, s, s', [friend.id], id, {})
  {
    RowGoneTold(s, s', friend.id, id);
    assert friend.fd in FdsOf(s.online, Lost(s, s'));
    DistinctUnique(s.online, ById);
  }

  /** One round of the notification loop. */
  lemma TellOneExact(net: Net, s: Srv, row: int, id: int)
    requires Sane(s) && id !in Ids(s.online)
    ensures Exact(net, s, TellOne(net, s, row, id), [row], id, {})
    ensures Sane(TellOne(net, s, row, id)) && id !in Ids(TellOne(net, s, row, id).online)
    decreases |s.online|, 1, 2
  {
    var s1 := TellOne(net, s, row, id);
    var friend := Find(s.online, row, ById);
    if friend.None? {
      ExactNothing(net, s, [row], id);
    } else if WriteServer(net, s, friend.value.fd, OfflineNote(id)).1 {
      ExactOneNote(net, s, s1, friend.value, id);
    } else {
      FriendDropExact(net, s, friend.value, id);
    }
    ShrinksSane(s, s1, {});
  }

  lemma FriendDropExact(net: Net, s: Srv, friend: Entry, id: int)
    requires Sane(s) && friend in s.online && !WriteServer(net, s, friend.fd, OfflineNote(id)).1
    ensures Exact(net, s, WriteServer(net, s, friend.fd, OfflineNote(id)).0, [friend.id], id, {})
    decreases |s.online|, 1, 1
  {
    var s1 := WriteServer(net, s, friend.fd, OfflineNote(id)).0;
    DistinctUnique(s.online, ByFd);
    WriteFailExact(net, s, friend.fd, OfflineNote(id));
    DropCountsAsRow(net, s, s1, friend, id);
  }

  /** At most as many users are dropped as were online: those that remain and
      those lost make up the old list. */
  lemma {:induction false} LossIsCounted(l: seq<Entry>, ids: set<int>)
    requires Distinct(l, ById) && ids <= Ids(l)
    ensures |l| == |Without(l, ids)| + |ids|
  {
    if l == [] {
      assert Ids(l) == {};
    } else {
      DistinctTail(l, ById);
      var x := l[0].id;
      assert Ids(l) == {x} + Ids(l[1..]) by { assert l == [l[0]] + l[1..]; }
      assert x !in Ids(l[1..]);
      if x in ids {
        WithoutSame(l[1..], ids, ids - {x});
        LossIsCounted(l[1..], ids - {x});
      } else {
        LossIsCounted(l[1..], ids);
      }
    }
  }

  lemma DropsAtMostAll(net: Net, s: Srv, s': Srv, rows: seq<int>, id: int, closed: set<int>)
    requires Sane(s) && Exact(net, s, s', rows, id, closed)
    ensures |s'.online| + |Lost(s, s')| == |s.online|
  {
    LossIsCounted(s.online, Lost(s, s'));
  }
}
