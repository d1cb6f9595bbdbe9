/** The length-prefixed broadcast of UNIX-8-11/day05: a list that only grows at
    its end, resent whole to every node after each join. */
module Day05 {
  import opened Wrappers
  import opened Presence
  import opened LinkList

  /** One whole read or write: the client's own address, a list length, a node. */
  datatype Word = Own(addr: Addr) | Length(n: nat) | Record(entry: Entry)

  /** One connection: the words written to it, and the lists they carry. */
  datatype Conn = Conn(words: seq<Word>, sent: seq<seq<Entry>>)

  datatype State = State(list: seq<Entry>, conns: map<int, Conn>)

  function Records(l: seq<Entry>): (r: seq<Word>)
    ensures |r| == |l| && forall i :: 0 <= i < |l| ==> r[i] == Record(l[i])
  {
    seq(|l|, i requires 0 <= i < |l| => Record(l[i]))
  }

  lemma RecordsSnoc(before: seq<Word>, n: nat, l: seq<Entry>, e: Entry)
    ensures (before + ([Length(n)] + Records(l))) + [Record(e)] == before + ([Length(n)] + Records(l + [e]))
  {
    assert Records(l + [e]) == Records(l) + [Record(e)];
  }

  function Frame(l: seq<Entry>): seq<Word> {
    [Length(|l|)] + Records(l)
  }

  function ConnOf(conns: map<int, Conn>, fd: int): Conn {
    if fd in conns then conns[fd] else Conn([], [])
  }

  function Send(conns: map<int, Conn>, l: seq<Entry>, fd: int): map<int, Conn> {
    var c := ConnOf(conns, fd);
    conns[fd := Conn(c.words + Frame(l), c.sent + [l])]
  }

  /** write_to_client: a frame for each node. Nodes of clients that left stay on
      the list, so a reused descriptor gets one frame per node that has it. */
  function SendAll(conns: map<int, Conn>, l: seq<Entry>, targets: seq<Entry>): map<int, Conn>
    decreases |targets|
  {
    if targets == [] then conns else SendAll(Send(conns, l, targets[0].fd), l, targets[1..])
  }

  lemma SendAllStep(conns: map<int, Conn>, l: seq<Entry>, i: nat)
    requires i < |l|
    ensures SendAll(conns, l, l[i..]) == SendAll(Send(conns, l, l[i].fd), l, l[i + 1..])
  {
    assert l[i..][0] == l[i] && l[i..][1..] == l[i + 1..];
  }

  function NextId(l: seq<Entry>): int {
    if l == [] then 1001 else l[|l| - 1].id + 1
  }

  function Join(s: State, fd: int, addr: Addr): State {
    var l := s.list + [Entry(NextId(s.list), fd, addr)];
    State(l, SendAll(s.conns[fd := Conn([Own(addr)], [])], l, l))
  }

  const EMPTY := State([], map[])

  /** Any number of joins, on any descriptors. */
  function After(joins: seq<(int, Addr)>): State {
    if joins == [] then EMPTY
    else
      var last := joins[|joins| - 1];
      Join(After(joins[..|joins| - 1]), last.0, last.1)
  }

  lemma AfterOneMore(joins: seq<(int, Addr)>, i: nat)
    requires i < |joins|
    ensures After(joins[..i + 1]) == Join(After(joins[..i]), joins[i].0, joins[i].1)
  {
    assert joins[..i + 1][..i] == joins[..i];
  }

  /** read of a length and then that many nodes, each prepended; None when a
      read meets the wrong kind of record: the client has lost sync. */
  function Load(l: seq<Entry>, words: seq<Word>, n: nat): Option<(seq<Entry>, seq<Word>)>
    decreases n
  {
    if n == 0 then Some((l, words))
    else if words == [] || !words[0].Record? then None
    else Load([words[0].entry] + l, words[1..], n - 1)
  }

  function RecvFromServer(words: seq<Word>): Option<(seq<Entry>, seq<Word>)> {
    if words == [] || !words[0].Length? then None else Load([], words[1..], words[0].n)
  }

  lemma {:induction false} LoadLeaves(l: seq<Entry>, words: seq<Word>, n: nat)
    ensures Load(l, words, n).Some? ==> |Load(l, words, n).value.1| == |words| - n
    decreases n
  {
    if n > 0 && words != [] && words[0].Record? {
      LoadLeaves([words[0].entry] + l, words[1..], n - 1);
    }
  }

  /** The receiving thread on a whole stream, from the list l on. */
  function Follow(l: seq<Entry>, words: seq<Word>): Option<seq<Entry>>
    decreases |words|
  {
    if words == [] then Some(l)
    else
      var r := RecvFromServer(words);
      if r.None? then None
      else
        LoadLeaves([], words[1..], words[0].n);
        Follow(r.value.0, r.value.1)
  }

  function Frames(ls: seq<seq<Entry>>): seq<Word> {
    if ls == [] then [] else Frame(ls[0]) + Frames(ls[1..])
  }

  lemma {:induction false} FramesSnoc(ls: seq<seq<Entry>>, l: seq<Entry>)
    ensures Frames(ls + [l]) == Frames(ls) + Frame(l)
  {
    if ls != [] {
      FramesSnoc(ls[1..], l);
      assert (ls + [l])[1..] == ls[1..] + [l];
    } else {
      assert (ls + [l])[1..] == [];
    }
  }

  lemma {:induction false} LoadRecords(acc: seq<Entry>, l: seq<Entry>, rest: seq<Word>)
    ensures Load(acc, Records(l) + rest, |l|) == Some((Reverse(l) + acc, rest))
    decreases |l|
  {
    if l == [] {
      assert Records(l) + rest == rest && Reverse(l) + acc == acc;
    } else {
      assert (Records(l) + rest)[1..] == Records(l[1..]) + rest;
      LoadRecords([l[0]] + acc, l[1..], rest);
      assert Reverse(l[1..]) + ([l[0]] + acc) == Reverse(l) + acc;
    }
  }

  lemma RecvFrame(l: seq<Entry>, rest: seq<Word>)
    ensures RecvFromServer(Frame(l) + rest) == Some((Reverse(l), rest))
  {
    assert (Frame(l) + rest)[1..] == Records(l) + rest;
    LoadRecords([], l, rest);
    assert Reverse(l) + [] == Reverse(l);
  }

  /** Concatenated frames are followed without losing sync. */
  lemma {:induction false} FollowFrames(l: seq<Entry>, ls: seq<seq<Entry>>)
    ensures Follow(l, Frames(ls)) == Some(if ls == [] then l else Reverse(ls[|ls| - 1]))
    decreases |ls|
  {
    if ls != [] {
      RecvFrame(ls[0], Frames(ls[1..]));
      FollowFrames(Reverse(ls[0]), ls[1..]);
    }
  }

  ghost predicate Stream(c: Conn) {
    c.words != [] && c.words[0].Own? && c.words[1..] == Frames(c.sent)
  }

  ghost predicate Numbered(l: seq<Entry>) {
    forall i :: 0 <= i < |l| ==> l[i].id == 1001 + i
  }

  ghost predicate Inv(s: State) {
    && Numbered(s.list) && Fds(s.list) <= s.conns.Keys
    && (forall fd :: fd in s.conns ==> Stream(s.conns[fd]))
    && (forall e :: e in s.list ==> Latest(s.conns[e.fd], s.list))
  }

  /** The last list sent on the connection is l. */
  ghost predicate Latest(c: Conn, l: seq<Entry>) {
    c.sent != [] && c.sent[|c.sent| - 1] == l
  }

  lemma SendStreams(conns: map<int, Conn>, l: seq<Entry>, fd: int)
    requires fd in conns && Stream(conns[fd])
    ensures Stream(Send(conns, l, fd)[fd])
  {
    var c := conns[fd];
    FramesSnoc(c.sent, l);
    assert (c.words + Frame(l))[1..] == c.words[1..] + Frame(l);
  }

  lemma {:induction false} SendAllStreams(conns: map<int, Conn>, l: seq<Entry>, targets: seq<Entry>)
    requires Fds(targets) <= conns.Keys && forall fd :: fd in conns ==> Stream(conns[fd])
    ensures var r := SendAll(conns, l, targets);
            && r.Keys == conns.Keys && (forall fd :: fd in r ==> Stream(r[fd]))
            && (forall fd :: fd in conns && (fd in Fds(targets) || Latest(conns[fd], l)) ==> Latest(r[fd], l))
    decreases |targets|
  {
    if targets != [] {
      var fd := targets[0].fd;
      assert fd in Fds(targets);
      SendStreams(conns, l, fd);
      assert targets == [targets[0]] + targets[1..];
      assert Fds(targets) == {fd} + Fds(targets[1..]);
      SendAllStreams(Send(conns, l, fd), l, targets[1..]);
    }
  }

  lemma JoinKeeps(s: State, fd: int, addr: Addr)
    requires Inv(s)
    ensures Inv(Join(s, fd, addr))
  {
    var l := s.list + [Entry(NextId(s.list), fd, addr)];
    assert Fds(l) == Fds(s.list) + {fd};
    assert [Own(addr)][1..] == [];
    SendAllStreams(s.conns[fd := Conn([Own(addr)], [])], l, l);
    assert forall e :: e in l ==> e.fd in Fds(l);
  }

  lemma {:induction false} JoinsKeep(joins: seq<(int, Addr)>)
    ensures Inv(After(joins)) && |After(joins).list| == |joins|
  {
    if joins != [] {
      JoinsKeep(joins[..|joins| - 1]);
      var last := joins[|joins| - 1];
      JoinKeeps(After(joins[..|joins| - 1]), last.0, last.1);
    }
  }

  /** Over any number of joins ids are consecutive from 1001, no client loses
      sync, and whoever is on the list ends with the reverse of it. */
  lemma ReplicaAgreement(joins: seq<(int, Addr)>, e: Entry)
    requires e in After(joins).list
    ensures var s := After(joins);
            && Numbered(s.list) && |s.list| == |joins|
            && e.fd in s.conns && s.conns[e.fd].words != [] && s.conns[e.fd].words[0].Own?
            && Follow([], s.conns[e.fd].words[1..]) == Some(Reverse(s.list))
  {
    JoinsKeep(joins);
    var s := After(joins);
    assert e.fd in Fds(s.list) && Latest(s.conns[e.fd], s.list);
    FollowFrames([], s.conns[e.fd].sent);
  }

  /** The list of the joins alone: every client that ever joined, in order, with
      consecutive ids from 1001 and the address it joined from. */
  function Joined(joins: seq<(int, Addr)>): (l: seq<Entry>)
    ensures |l| == |joins|
    ensures forall i :: 0 <= i < |l| ==> l[i] == Entry(1001 + i, joins[i].0, joins[i].1)
  {
    seq(|joins|, i requires 0 <= i < |joins| => Entry(1001 + i, joins[i].0, joins[i].1))
  }

  function Copies(l: seq<Entry>, n: nat): (r: seq<seq<Entry>>)
    ensures |r| == n && forall i :: 0 <= i < n ==> r[i] == l
  {
    seq(n, _ => l)
  }

  /** How many nodes have descriptor fd. */
  function Nodes(l: seq<Entry>, fd: int): nat {
    if l == [] then 0 else Nodes(l[1..], fd) + if l[0].fd == fd then 1 else 0
  }

  /** The lists due on the present connection of fd: since the last join on it,
      after every join the whole list, once for each node that has fd. */
  function Due(joins: seq<(int, Addr)>, fd: int): seq<seq<Entry>> {
    if joins == [] then []
    else
      var n := |joins| - 1;
      (if joins[n].0 == fd then [] else Due(joins[..n], fd)) + Copies(Joined(joins), Nodes(Joined(joins), fd))
  }

  /** The address of the last client to join on fd. */
  function LastAddr(joins: seq<(int, Addr)>, fd: int): Option<Addr> {
    if joins == [] then None
    else
      var last := joins[|joins| - 1];
      if last.0 == fd then Some(last.1) else LastAddr(joins[..|joins| - 1], fd)
  }

  lemma {:induction false} FramesConcat(a: seq<seq<Entry>>, b: seq<seq<Entry>>)
    ensures Frames(a + b) == Frames(a) + Frames(b)
    decreases |b|
  {
    if b == [] {
      assert a + b == a;
    } else {
      var n := |b| - 1;
      FramesConcat(a, b[..n]);
      FramesSnoc(a + b[..n], b[n]);
      FramesSnoc(b[..n], b[n]);
      assert a + b == (a + b[..n]) + [b[n]] && b == b[..n] + [b[n]];
    }
  }

  /** A connection after n more copies of l. */
  function SentMore(c: Conn, l: seq<Entry>, n: nat): Conn {
    Conn(c.words + Frames(Copies(l, n)), c.sent + Copies(l, n))
  }

  lemma SentOneMore(c: Conn, l: seq<Entry>, n: nat)
    ensures SentMore(Conn(c.words + Frame(l), c.sent + [l]), l, n) == SentMore(c, l, n + 1)
  {
    assert Copies(l, n + 1) == [l] + Copies(l, n);
    assert ([l] + Copies(l, n))[1..] == Copies(l, n);
  }

  /** Each node is sent the list once, on its descriptor. */
  lemma {:induction false} SendAllCounts(conns: map<int, Conn>, l: seq<Entry>, targets: seq<Entry>, fd: int)
    ensures ConnOf(SendAll(conns, l, targets), fd) == SentMore(ConnOf(conns, fd), l, Nodes(targets, fd))
    ensures fd in SendAll(conns, l, targets) <==> fd in conns || 0 < Nodes(targets, fd)
    decreases |targets|
  {
    if targets == [] {
      var c := ConnOf(conns, fd);
      assert c.words + Frames([]) == c.words && c.sent + [] == c.sent && Copies(l, 0) == [];
    } else {
      SendAllCounts(Send(conns, l, targets[0].fd), l, targets[1..], fd);
      if targets[0].fd == fd {
        SentOneMore(ConnOf(conns, fd), l, Nodes(targets[1..], fd));
      }
    }
  }

  lemma {:induction false} NodesSnoc(l: seq<Entry>, e: Entry, fd: int)
    ensures Nodes(l + [e], fd) == Nodes(l, fd) + if e.fd == fd then 1 else 0
  {
    if l == [] {
      assert (l + [e])[1..] == [];
    } else {
      assert (l + [e])[1..] == l[1..] + [e];
      NodesSnoc(l[1..], e, fd);
    }
  }

  lemma JoinedMore(joins: seq<(int, Addr)>)
    requires joins != []
    ensures var n := |joins| - 1;
            Joined(joins) == Joined(joins[..n]) + [Entry(NextId(Joined(joins[..n])), joins[n].0, joins[n].1)]
  {
  }

  /** A connection: the client's own address and frames of these lists. */
  function Carrying(addr: Addr, due: seq<seq<Entry>>): Conn {
    Conn([Own(addr)] + Frames(due), due)
  }

  /** The connection on fd, if anybody joined on it. */
  ghost predicate Carries(joins: seq<(int, Addr)>, conns: map<int, Conn>, fd: int) {
    && (fd in conns <==> LastAddr(joins, fd).Some?)
    && (fd in conns ==>
          conns[fd] == Carrying(LastAddr(joins, fd).value, Due(joins, fd)))
    && (fd !in conns ==> Due(joins, fd) == [] && Nodes(Joined(joins), fd) == 0)
  }

  lemma CarryMore(addr: Addr, due: seq<seq<Entry>>, l: seq<Entry>, n: nat)
    ensures SentMore(Carrying(addr, due), l, n) == Carrying(addr, due + Copies(l, n))
  {
    FramesConcat(due, Copies(l, n));
    assert ([Own(addr)] + Frames(due)) + Frames(Copies(l, n)) == [Own(addr)] + (Frames(due) + Frames(Copies(l, n)));
  }

  lemma OneMoreNode(joins: seq<(int, Addr)>, fd: int)
    requires joins != []
    ensures var n := |joins| - 1;
            Nodes(Joined(joins), fd) == Nodes(Joined(joins[..n]), fd) + if joins[n].0 == fd then 1 else 0
  {
    JoinedMore(joins);
    var n := |joins| - 1;
    NodesSnoc(Joined(joins[..n]), Joined(joins)[n], fd);
  }

  lemma JoinCarries(joins: seq<(int, Addr)>, conns: map<int, Conn>, fd: int)
    requires joins != [] && Carries(joins[..|joins| - 1], conns, fd)
    ensures var (g, addr) := joins[|joins| - 1];
            Carries(joins, SendAll(conns[g := Conn([Own(addr)], [])], Joined(joins), Joined(joins)), fd)
  {
    var n, l := |joins| - 1, Joined(joins);
    var g, addr := joins[n].0, joins[n].1;
    var conns1, count := conns[g := Conn([Own(addr)], [])], Nodes(l, fd);
    OneMoreNode(joins, fd);
    SendAllCounts(conns1, l, l, fd);
    if g == fd {
      assert conns1[fd] == Carrying(addr, []) by { assert [Own(addr)] + Frames([]) == [Own(addr)]; }
      CarryMore(addr, [], l, count);
    } else if fd in conns {
      CarryMore(LastAddr(joins[..n], fd).value, Due(joins[..n], fd), l, count);
    } else {
      assert Copies(l, 0) == [];
    }
  }

  /** Every connection of every run of joins: first the address of the client
      that joined on it last, and then the whole list of those that ever joined,
      after that and every later join, once for each node with its descriptor. */
  lemma {:induction false} StreamThroughout(joins: seq<(int, Addr)>, fd: int)
    ensures After(joins).list == Joined(joins) && Carries(joins, After(joins).conns, fd)
  {
    if joins != [] {
      var n := |joins| - 1;
      StreamThroughout(joins[..n], fd);
      JoinedMore(joins);
      JoinCarries(joins, After(joins[..n]).conns, fd);
    }
  }

  /** A list of nodes without a dummy: the head of server.c and of client.c. */
  class Link {
    var head: Node?
    ghost var nodes: seq<Node>
    ghost var contents: seq<Entry>

    ghost predicate Valid()
      reads this, nodes
    {
      && |nodes| == |contents|
      && head == At(0)
      && (forall i, j :: 0 <= i < j < |nodes| ==> nodes[i] != nodes[j])
      && (forall i :: 0 <= i < |nodes| ==> nodes[i].entry == contents[i] && nodes[i].next == At(i + 1))
    }

    ghost function Repr(): set<Node>
      reads this
    {
      set n | n in nodes
    }

    /** The i-th node, or null past the end. */
    ghost function At(i: nat): Node?
      reads this
    {
      if i < |nodes| then nodes[i] else null
    }

    constructor ()
      ensures Valid() && contents == []
    {
      head, nodes, contents := null, [], [];
    }

    /** add_online_node: appends after `end`, the last node, and returns the new one. */
    method AddOnlineNode(end: Node?, fd: int, addr: Addr) returns (last: Node?)
      requires Valid() && end == if nodes == [] then null else nodes[|nodes| - 1]
      modifies this, nodes
      ensures Valid() && nodes != [] && last == nodes[|nodes| - 1]
      ensures contents == old(contents) + [Entry(NextId(old(contents)), fd, addr)]
      ensures |nodes| == |old(nodes)| + 1 && old(nodes) <= nodes && fresh(nodes[|nodes| - 1])
    {
      var id := if end == null then 1001 else end.entry.id + 1;
      var temp := new Node(Entry(id, fd, addr), null);
      if end == null {
        head := temp;
      } else {
        end.next := temp;
      }
      Appended(temp);
      last := temp;
    }

    /** Takes a node already linked at the end into the sequence. */
    ghost method Appended(temp: Node)
      requires |nodes| == |contents| && temp !in nodes && temp.next == null
      requires head == if nodes == [] then temp else nodes[0]
      requires forall i, j :: 0 <= i < j < |nodes| ==> nodes[i] != nodes[j]
      requires forall i :: 0 <= i < |nodes| ==> nodes[i].entry == contents[i]
      requires forall i :: 0 <= i < |nodes| - 1 ==> nodes[i].next == nodes[i + 1]
      requires nodes != [] ==> nodes[|nodes| - 1].next == temp
      modifies `nodes, `contents
      ensures Valid() && nodes == old(nodes) + [temp] && contents == old(contents) + [temp.entry]
    {
      nodes, contents := nodes + [temp], contents + [temp.entry];
    }

    method LinkLength() returns (len: nat)
      requires Valid()
      ensures len == |contents|
    {
      var p := head;
      len := 0;
      while p != null
        invariant 0 <= len <= |nodes| && p == At(len)
        decreases |nodes| - len
      {
        p := p.next;
        len := len + 1;
      }
    }

    /** free_link of client.c. */
    method FreeLink()
      requires Valid()
      modifies this
      ensures Valid() && contents == []
    {
      while head != null
        invariant Valid()
        decreases |nodes|
      {
        head, nodes, contents := head.next, nodes[1..], contents[1..];
      }
    }

    /** A node read from the server goes to the front. */
    method Prepend(e: Entry)
      requires Valid()
      modifies this
      ensures Valid() && contents == [e] + old(contents)
      ensures |nodes| == |old(nodes)| + 1 && nodes[1..] == old(nodes) && fresh(nodes[0])
    {
      var temp := new Node(e, head);
      head, nodes, contents := temp, [temp] + nodes, [e] + contents;
    }

    /** search_node. */
    method SearchNode(id: int) returns (p: Node?)
      requires Valid()
      ensures p == null <==> Find(contents, id, ById) == None
      ensures p != null ==> Find(contents, id, ById) == Some(p.entry)
    {
      p := head;
      ghost var i := 0;
      while p != null
        invariant 0 <= i <= |nodes| && p == At(i)
        invariant forall j :: 0 <= j < i ==> KeyOf(contents[j], ById) != id
        decreases |nodes| - i
      {
        if p.entry.id == id {
          FindAt(contents, id, ById, i);
          return;
        }
        p := p.next;
        i := i + 1;
      }
      FindAbsent(contents, id, ById);
    }
  }

  class JoinServer {
    const link: Link
    var end: Node?
    var conns: map<int, Conn>

    ghost predicate Valid()
      reads this, link, link.nodes
    {
      link.Valid() && end == if link.nodes == [] then null else link.nodes[|link.nodes| - 1]
    }

    ghost function Now(): State
      reads this, link
    {
      State(link.contents, conns)
    }

    constructor ()
      ensures Valid() && fresh(link) && Now() == EMPTY
    {
      link := new Link();
      end, conns := null, map[];
    }

    method WriteWord(fd: int, w: Word)
      modifies `conns
      ensures conns == old(conns)[fd := Conn(ConnOf(old(conns), fd).words + [w], ConnOf(old(conns), fd).sent)]
    {
      var c := ConnOf(conns, fd);
      conns := conns[fd := Conn(c.words + [w], c.sent)];
    }

    /** The length, and then every node, to one descriptor; `sent` is our own
        record of what that frame was. */
    method WriteFrame(fd: int, len: nat)
      requires link.Valid() && len == |link.contents|
      modifies `conns
      ensures conns == Send(old(conns), link.contents, fd)
    {
      ghost var l := link.contents;
      ghost var c := ConnOf(conns, fd);
      WriteWord(fd, Length(len));
      var q := link.head;
      var sent := [];
      assert [Length(len)] + Records([]) == [Length(len)];
      while q != null
        invariant |sent| <= |l| && q == link.At(|sent|) && sent == l[..|sent|]
        invariant conns == old(conns)[fd := Conn(c.words + ([Length(len)] + Records(sent)), c.sent)]
        decreases |l| - |sent|
      {
        RecordsSnoc(c.words, len, sent, q.entry);
        WriteWord(fd, Record(q.entry));
        sent := sent + [q.entry];
        q := q.next;
      }
      assert sent == l;
      conns := conns[fd := Conn(conns[fd].words, conns[fd].sent + [sent])];
      assert conns == Send(old(conns), link.contents, fd);
    }

    /** write_to_client: a frame to every node on the list. */
    method WriteToClient()
      requires link.Valid()
      modifies `conns
      ensures conns == SendAll(old(conns), link.contents, link.contents)
    {
      ghost var l := link.contents;
      var p := link.head;
      var len := link.LinkLength();
      ghost var i := 0;
      while p != null
        invariant i <= |l| && p == link.At(i)
        invariant SendAll(conns, l, l[i..]) == SendAll(old(conns), l, l)
        decreases |l| - i
      {
        SendAllStep(conns, l, i);
        WriteFrame(p.entry.fd, len);
        p := p.next;
        i := i + 1;
      }
      assert l[|l|..] == [];
    }

    /** The new client's node, and the new end. */
    method Extend(confd: int, addr: Addr)
      requires Valid()
      modifies `end, link, link.nodes
      ensures Valid() && fresh(link.Repr() - old(link.Repr()))
      ensures link.contents == old(link.contents) + [Entry(NextId(old(link.contents)), confd, addr)]
    {
      end := link.AddOnlineNode(end, confd, addr);
    }

    /** One round of the accept loop. */
    method Accept(confd: int, addr: Addr)
      requires Valid()
      modifies this, link, link.nodes
      ensures Valid() && fresh(link.Repr() - old(link.Repr()))
      ensures Now() == Join(old(Now()), confd, addr)
    {
      conns := conns[confd := Conn([Own(addr)], [])];
      Extend(confd, addr);
      ghost var l, before := link.contents, conns;
      WriteToClient();
      assert Now() == State(l, SendAll(before, l, l));
    }

    /** The server's loop over any number of clients. */
    method Serve(joins: seq<(int, Addr)>)
      requires Valid() && Now() == EMPTY
      modifies this, link, link.nodes
      ensures Valid() && Now() == After(joins)
      ensures Numbered(link.contents)
    {
      for i := 0 to |joins|
        invariant Valid() && Now() == After(joins[..i])
        invariant fresh(link.Repr() - old(link.Repr()))
      {
        AfterOneMore(joins, i);
        Accept(joins[i].0, joins[i].1);
      }
      assert joins[..|joins|] == joins;
      assert Numbered(link.contents) by { JoinsKeep(joins); }
    }
  }

  /** recv_from_server of client.c: one frame read from position i of the
      stream; ok is false if the client lost sync. */
  method ReceiveFrame(link: Link, words: seq<Word>, i: nat) returns (j: nat, ok: bool)
    requires link.Valid() && i < |words|
    modifies link
    ensures link.Valid() && j <= |words|
    ensures match RecvFromServer(words[i..])
            case None => !ok
            case Some(r) => ok && link.contents == r.0 && words[j..] == r.1
  {
    j, ok := i + 1, true;
    if !words[i].Length? {
      ok := false;
      return;
    }
    var len := words[i].n;
    link.FreeLink();
    assert words[i..][1..] == words[i + 1..];
    var k := 0;
    while k < len
      invariant link.Valid() && k <= len && j <= |words|
      invariant Load(link.contents, words[j..], len - k) == RecvFromServer(words[i..])
    {
      if j == |words| || !words[j].Record? {
        ok := false;
        return;
      }
      assert words[j..][1..] == words[j + 1..];
      link.Prepend(words[j].entry);
      j := j + 1;
      k := k + 1;
    }
  }

  /** The receiving thread on a whole stream. */
  method FollowStream(link: Link, words: seq<Word>) returns (ok: bool)
    requires link.Valid()
    modifies link
    ensures link.Valid()
    ensures Follow(old(link.contents), words) == if ok then Some(link.contents) else None
  {
    var i := 0;
    ok := true;
    while i < |words|
      invariant link.Valid() && i <= |words| && ok
      invariant Follow(link.contents, words[i..]) == Follow(old(link.contents), words)
      decreases |words| - i
    {
      LoadLeaves([], words[i..][1..], if words[i].Length? then words[i].n else 0);
      i, ok := ReceiveFrame(link, words, i);
      if !ok {
        return;
      }
    }
  }
}
