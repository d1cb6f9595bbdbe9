/** The packets a client can receive (project/comtype.h) and what they do to
    the client's own list of online friends (project/client.c). */
module Packets {
  import opened Presence

  datatype Packet =
    | RegisterReply(id: int)
    | LoginFeedback(flag: int)
    | OnlineNote(entry: Entry)
    | OfflineNote(gone: int)
    | AddFriend(src: int, dst: int)
    | AllowAddf(asker: int, asked: int, answer: int)
    | AllowDisconnect

  /** One dispatched packet: OP_ONLINE prepends, OP_OFFLINE deletes by id. */
  function Apply(l: seq<Entry>, p: Packet): seq<Entry> {
    match p
    case OnlineNote(e) => [e] + l
    case OfflineNote(id) => Remove(l, id, ById)
    case _ => l
  }

  /** The list of a client that has drained the trace t. */
  function View(t: seq<Packet>): seq<Entry> {
    if t == [] then [] else Apply(View(t[..|t| - 1]), t[|t| - 1])
  }

  lemma ViewSnoc(t: seq<Packet>, p: Packet)
    ensures View(t + [p]) == Apply(View(t), p)
  {
    assert (t + [p])[..|t|] == t;
  }

  ghost predicate NoDup(q: seq<int>) {
    forall i, j :: 0 <= i < j < |q| ==> q[i] != q[j]
  }

  /** u is t followed by exactly one OP_OFFLINE for each id in ids, in some order. */
  ghost predicate Told(t: seq<Packet>, u: seq<Packet>, ids: set<int>)
    decreases |u|
  {
    if |u| <= |t| then u == t && ids == {}
    else
      var p := u[|u| - 1];
      p.OfflineNote? && p.gone in ids && Told(t, u[..|u| - 1], ids - {p.gone})
  }

  /** u is t followed by OP_OFFLINEs for distinct ids among `ids`. */
  ghost predicate PartlyTold(t: seq<Packet>, u: seq<Packet>, ids: set<int>)
    decreases |u|
  {
    if |u| <= |t| then u == t
    else
      var p := u[|u| - 1];
      p.OfflineNote? && p.gone in ids && PartlyTold(t, u[..|u| - 1], ids - {p.gone})
  }

  /** The same, and then, perhaps, the OP_ALLOW_DISCONNECT that ends a connection. */
  ghost predicate Farewell(t: seq<Packet>, u: seq<Packet>, ids: set<int>) {
    PartlyTold(t, u, ids) ||
    (u != [] && u[|u| - 1] == AllowDisconnect && PartlyTold(t, u[..|u| - 1], ids))
  }

  lemma ToldNothing(t: seq<Packet>)
    ensures Told(t, t, {})
  {
  }

  lemma ToldOne(t: seq<Packet>, id: int)
    ensures Told(t, t + [OfflineNote(id)], {id})
  {
    assert (t + [OfflineNote(id)])[..|t|] == t;
    assert {id} - {id} == {};
  }

  lemma {:induction false} ToldCompose(t: seq<Packet>, u: seq<Packet>, v: seq<Packet>, a: set<int>, b: set<int>)
    requires Told(t, u, a) && Told(u, v, b)
    requires a !! b
    ensures Told(t, v, a + b) && |t| <= |u| <= |v|
    decreases |u| + |v|
  {
    ToldLonger(t, u, a);
    if |v| <= |u| {
      assert a + b == a;
    } else {
      var d := v[|v| - 1].gone;
      ToldCompose(t, u, v[..|v| - 1], a, b - {d});
      assert (a + b) - {d} == a + (b - {d});
    }
  }

  lemma {:induction false} ToldLonger(t: seq<Packet>, u: seq<Packet>, ids: set<int>)
    requires Told(t, u, ids)
    ensures |t| <= |u|
    decreases |u|
  {
    if |u| > |t| { ToldLonger(t, u[..|u| - 1], ids - {u[|u| - 1].gone}); }
  }

  lemma {:induction false} PartlyMore(t: seq<Packet>, u: seq<Packet>, a: set<int>, b: set<int>)
    requires PartlyTold(t, u, a) && a <= b
    ensures PartlyTold(t, u, b)
    decreases |u|
  {
    if |u| > |t| {
      var d := u[|u| - 1].gone;
      PartlyMore(t, u[..|u| - 1], a - {d}, b - {d});
    }
  }

  lemma {:induction false} ToldIsPartly(t: seq<Packet>, u: seq<Packet>, ids: set<int>)
    requires Told(t, u, ids)
    ensures PartlyTold(t, u, ids)
    decreases |u|
  {
    if |u| > |t| { ToldIsPartly(t, u[..|u| - 1], ids - {u[|u| - 1].gone}); }
  }

  lemma {:induction false} PartlyCompose(t: seq<Packet>, u: seq<Packet>, v: seq<Packet>, a: set<int>, b: set<int>)
    requires Told(t, u, a) && PartlyTold(u, v, b)
    requires a !! b
    ensures PartlyTold(t, v, a + b) && |t| <= |u|
    decreases |v|
  {
    ToldLonger(t, u, a);
    if |v| <= |u| {
      ToldIsPartly(t, u, a);
      PartlyMore(t, u, a, a + b);
    } else {
      var d := v[|v| - 1].gone;
      PartlyCompose(t, u, v[..|v| - 1], a, b - {d});
      assert (a + b) - {d} == a + (b - {d});
    }
  }

  lemma FarewellNone(t: seq<Packet>, u: seq<Packet>, ids: set<int>)
    requires u == t || u == t + [AllowDisconnect]
    ensures Farewell(t, u, ids)
  {
    if u != t { assert u[..|u| - 1] == t; }
  }

  lemma FarewellMore(t: seq<Packet>, u: seq<Packet>, a: set<int>, b: set<int>)
    requires Farewell(t, u, a) && a <= b
    ensures Farewell(t, u, b)
  {
    if PartlyTold(t, u, a) {
      PartlyMore(t, u, a, b);
    } else {
      PartlyMore(t, u[..|u| - 1], a, b);
    }
  }

  lemma FarewellAfterTold(t: seq<Packet>, u: seq<Packet>, v: seq<Packet>, a: set<int>, b: set<int>)
    requires Told(t, u, a) && Farewell(u, v, b)
    requires a !! b
    ensures Farewell(t, v, a + b)
  {
    if PartlyTold(u, v, b) {
      PartlyCompose(t, u, v, a, b);
    } else {
      PartlyCompose(t, u, v[..|v| - 1], a, b);
    }
  }

  lemma ViewLast(u: seq<Packet>, l: seq<Entry>, ids: set<int>)
    requires u != [] && u[|u| - 1].OfflineNote? && u[|u| - 1].gone in ids
    requires Distinct(l, ById) && View(u[..|u| - 1]) == Without(l, ids - {u[|u| - 1].gone})
    ensures View(u) == Without(l, ids)
  {
    var d := u[|u| - 1].gone;
    RemoveAfterWithout(l, ids - {d}, d);
    assert (ids - {d}) + {d} == ids;
  }

  /** A client told of `ids` ends with its old list minus exactly those ids,
      order kept, whatever the order of the news. */
  lemma {:induction false} ViewAfterNews(t: seq<Packet>, u: seq<Packet>, ids: set<int>, l: seq<Entry>)
    requires Told(t, u, ids) && Distinct(l, ById) && View(t) == l
    ensures View(u) == Without(l, ids)
    decreases |u|
  {
    if |u| <= |t| {
      WithoutNone(l, {});
    } else {
      ViewAfterNews(t, u[..|u| - 1], ids - {u[|u| - 1].gone}, l);
      ViewLast(u, l, ids);
    }
  }

  lemma ViewTold(t: seq<Packet>, u: seq<Packet>, ids: set<int>)
    requires Told(t, u, ids) && Distinct(View(t), ById)
    ensures View(u) == Without(View(t), ids) && Distinct(View(u), ById)
  {
    ViewAfterNews(t, u, ids, View(t));
    DistinctWithout(View(t), ids, ById);
  }
}
