# Verified models of the chat programs

This project models the network programs of the repository in Dafny and proves
what their users rely on.

**The chat server and its clients (`project/`).** The server keeps an online
list, the epoll set, the open descriptors and the MySQL tables; clients keep
their own list of online friends by folding the `OP_ONLINE` and `OP_OFFLINE`
packets they receive. `ServerSpec.dfy` states every handler as a function from
state to state; the network is an arbitrary predicate over (number of the write,
descriptor, packet) that says which writes fail. `Server.dfy` is the server as a class over the
heap list of `LinkList.dfy`, and every method computes the function of the same
name. On the functions the following is proved.

- `Cascade.dfy`: what `Write_server` and `offline_action`, which call each other,
  do for every friend graph and every failure pattern, even in the middle of an
  outer notification loop. Their termination measure is the length of the online
  list and the kind of call; it is in the `decreases` clauses of `ServerSpec` and
  `Server`.
- `Sessions.dfy`: the session invariant after every handler, for any failures.
- `Agreement.dfy`: replica agreement, handler by handler and over whole runs;
  `Client.dfy`: the client's heap list, and whom a chat message therefore reaches.
- `LoginDelivery.dfy`: the two ways in which a login announces a client that is
  no longer there, each with a concrete login.
- `Grammar.dfy`: the order of packets on every connection.
- `Replies.dfy`: over whole runs and whatever writes fail, which answers a
  connection has been sent and who is logged in.
- `Effects.dfy`: what every event stores, ends and keeps, whatever writes fail,
  and its whole effect when none does.
- `Acceptance.dfy`, `Registration.dfy`: `allow_addf_action` and `register_action`
  one SQL statement at a time, any number of threads, every interleaving.

The handlers are atomic in all of these but the last two. Runs in
`Agreement.LegalRun` are those the kernel and the clients as coded can produce:
`accept` returns a descriptor that is not open, only watched descriptors report,
a client registers before it logs in and logs in once, sends its own id, does not
ask itself, and answers only requests it has received on that connection.

**The list broadcasters (`UNIX-8-11`).** `Broadcast.dfy`,
`BroadcastHistory.dfy` and `BroadcastNodes.dfy` model `TCP_UDP`, whose snapshots
end at a record with `next == NULL`; `Day05.dfy`
models `day05`, whose snapshots start with a length.

**Byte and screen level.** `Framing.dfy` (packets), `Config.dfy` (the
configuration scanner), `LineEditor.dfy` (the editors and their echo),
`ChatScreen.dfy` (the cursor arithmetic of the chat window, with CUU and CUD as
in sections 8.3.22 and 8.3.19 of ECMA-48).

Where code and comments differ the code is followed: the comment on
`OP_LOGIN_FEEDBACK` in `project/comtype.h` lists the flags 0, -1 and -2, and
`login_action` also sends -3 for an id that is already online.

Properties that are false of the code, with the condition under which they hold:

- A login keeps agreement if and only if it announces nobody who has been
  dropped meanwhile (`Agreement.LoginAgreesIff`). It can fail because the outcome
  of the feedback write is ignored (`LoginDelivery.GhostLogin`) or because a
  friend's drop takes the newcomer along (`LoginDelivery.GhostAfterCascade`).
- A new friendship is announced to its clients if and only if one thread is the
  first to insert each of its rows (`Acceptance.AnnouncedIff`); opposite and repeated
  acceptances can miss that (`Acceptance.CrossedFail`, `Acceptance.OvertakenFail`).
- A registrant is told its own id if and only if it is the first to create a
  table among those who selected before a further row was stored
  (`Registration.ToldIff`, `Registration.IdsSwap`).
- A packet reads back if and only if its payload is shorter than 2^31 bytes
  (`Framing.ReadsBackIff`, `Framing.HalfOfAllLengthsIsLost`).
- A chat message arrives as typed if and only if it holds no NUL
  (`LineEditor.MessageRoundTrip`, `LineEditor.NulCutsMessage`).
- A received chat message leaves the window in order if and only if it fits its
  row from the cursor's column on (`ChatScreen.Window.ShowReceived`,
  `ChatScreen.LongMessageOverflows`).

## Model

| member | source | states |
|---|---|---|
| Cascade.WriteFailExact | project/socket.c:221-238 | a failed write drops the session that held the descriptor and, besides it, only sessions to which a notification can fail: the list loses exactly the lost ids, order kept, their descriptors leave the watched and open sets, every survivor is told once of each lost friend and of nothing else, nobody else is written to |
| Cascade.OfflineExact | project/server_action.c:178-228 | the same for a drop by id, with the friends of the id told of it; and the goodbye reaches the dropped connection if that write does not fail |
| Cascade.TellExact | project/server_action.c:209-221 | the same for the notification loop from any of its rows on, so the contract holds while an outer loop is half done |
| Cascade.DropsAtMostAll | project/socket.c:221-238 | users dropped plus users left are the users that were online |
| Packets.ViewTold | project/client.c:426-436 | a client told of a set of ids, in any order, ends with its old list minus exactly those ids, order kept |
| Sessions.StepConsistent | project/server_action.c:16-313 | after every handler and whatever writes fail: ids and descriptors pairwise distinct, online descriptors watched and open, friendship symmetric, every online id tabled, an ended session's descriptor in none of the sets, and no session begun but that of a login that gets past its checks |
| Sessions.AnswerIsProper | project/client.c:445-504 | an answered request was meant for the answering session, from another registered id |
| Agreement.ConsistentThroughout | project/server.c:25-45 | the session invariant over every legal run with any write failures |
| Agreement.DropAgrees | project/server_action.c:178-228 | dropping a session restores "view = online friends" for everybody left, whatever further writes fail |
| Agreement.AdmitAgreesIff | project/server_action.c:110-157 | for every pattern of write failures: admitting a newcomer keeps agreement if and only if no round of the loop begins after the newcomer was dropped, finds its friend online, and delivers the announcement |
| Agreement.AdmitAgrees | project/server_action.c:90-157 | it does so if the feedback is delivered and either all news of lost friends reaches the newcomer or nobody else's writes fail; then announcements may fail in any way |
| Agreement.LoginAgreesIff | project/server_action.c:75-172 | the same for a whole login, its refusals included |
| Agreement.AcceptedAgrees | project/server_action.c:268-313 | an acceptance restores agreement if, when both are online, the asker gets its answer and its new friend; every other write may fail |
| Agreement.StepAgrees | project/server_action.c:16-41 | every handler keeps agreement, if a login announces nobody already dropped and an online asker hears that an online client accepts |
| Agreement.AgreementThroughout | project/server.c:25-70 | over every run whose logins and acceptances meet those conditions, each logged-in client that has drained its connection lists each online friend exactly once, with the server's entry, and nobody else; all other writes may fail |
| LoginDelivery.OwnFailureAgreesIff | project/server_action.c:114 | what that condition is when only the newcomer's descriptor can fail: the feedback is delivered or no friend is online |
| LoginDelivery.GhostLogin | project/server_action.c:110-143 | a concrete login whose feedback fails, after which a client lists an id that is not online |
| LoginDelivery.GhostAfterCascade | project/server_action.c:126-143 | a concrete login whose feedback is delivered, and which still announces an id that is not online: a friend that cannot be told is dropped and takes the newcomer along, and the loop goes on |
| Grammar.GrammarThroughout | project/server_action.c:43-313 | over every run in which no login or acceptance meets a failed write, every connection follows the grammar: replies and failed feedbacks, one feedback 0, then presence and friend packets about known peers only, then the goodbye; all other events, drops and their cascades included, may fail anywhere |
| Grammar.Alternates | project/server_action.c:132-137 | on a connection inside the grammar OP_ONLINE and OP_OFFLINE about one peer strictly alternate, beginning with OP_ONLINE |
| Grammar.GoodbyeIsLast | project/server_action.c:223-227 | nothing follows OP_ALLOW_DISCONNECT |
| Grammar.SessionBeginsOnce | project/menumgmt.c:70-79 | after a feedback 0 no further feedback or registration reply is sent |
| Grammar.ExactGrammatical | project/server_action.c:178-228 | a cascade from agreement keeps every connection inside the grammar, whatever fails in it |
| Replies.StepAnswers | project/server_action.c:16-41 | whatever writes fail, an event is answered on every connection still open by exactly the packet it calls for, on the connection it calls for, and by no other; and a connection to which no write fails stays open unless the event ends it by itself |
| Replies.AnswersThroughout | project/server_action.c:43-313 | over every run and whatever writes fail, an open connection has been sent exactly the answers called for since it began, in order, and besides them only presence packets and the goodbye |
| Replies.HandshakesThroughout | project/menumgmt.c:66-158 | so registrations and logins on an open connection have been answered one for one, each by a packet of its own kind, in order |
| Replies.SessionsThroughout | project/menumgmt.c:70-79 | over every run and whatever writes fail, an open connection has a session if and only if its client has been sent the feedback 0 that makes it take itself to be logged in |
| Effects.StepEffect | project/server_action.c:16-313 | when no write fails, the whole new state after every event, connection by connection: which sessions, descriptors and rows there are, and what exactly each connection is sent: its answer, then the introductions, the news of a departure or the goodbye |
| Effects.StepStores | project/server_action.c:280-283 | whatever writes fail: an accepted request stores both rows if they were missing, whoever is online, and no other; a registration its row and table; no other event anything |
| Effects.StepCloses | project/socket.c:260-277 | whatever writes fail: after a failed read, a departure, or a login without a peer address or a friend table, the connection is closed and unwatched, its session is over, and every friend still online has been told |
| Effects.StepKeeps | project/server_action.c:16-313 | whatever other writes fail: a connection to which none fails, and which the event does not end by itself, stays open and watched, keeps its session and has been sent the answer if that is due on it |
| Effects.TablelessRefused | project/server_action.c:242-250 | a request from an id without a friend table is refused with code 3 |
| Effects.AcceptedMayLogIn | project/server.c:30-37 | any descriptor not in use can be accepted, and can then register, log in and be lost |
| Effects.LoggedInMayAsk | project/menumgmt.c:70-79 | who has logged in can ask for a friend and leave |
| Effects.AskedMayAnswer | project/client.c:445-504 | who has been sent a request can answer it |
| Database.FindUserIff | project/server_action.c:82-90 | a login finds a user's row exactly if it is in the table, wherever it stands |
| Server.ChatServer.Write | project/socket.c:85-106 | one packet is appended to the connection's trace, or the call fails and nothing changes |
| Server.ChatServer.WriteServer | project/socket.c:221-238 | refines ServerSpec.WriteServer on the heap list, and terminates |
| Server.ChatServer.OfflineAction | project/server_action.c:178-228 | refines ServerSpec.OfflineAction on the heap list, and terminates |
| Server.ChatServer.TellOffline | project/server_action.c:209-221 | the row loop refines ServerSpec.TellOffline |
| Server.ChatServer.RegisterAction | project/server_action.c:43-73 | refines ServerSpec.RegisterAction |
| Server.ChatServer.LoginAction | project/server_action.c:75-172 | refines ServerSpec.LoginAction |
| Server.ChatServer.Greet | project/server_action.c:126-143 | the row loop refines ServerSpec.Greet |
| Server.ChatServer.AddFriendAction | project/server_action.c:230-266 | refines ServerSpec.AddFriendAction |
| Server.ChatServer.AllowAddfAction | project/server_action.c:268-313 | refines ServerSpec.AllowAddfAction |
| Server.ChatServer.AnalysisReceive | project/server_action.c:16-41 | refines ServerSpec.AnalysisReceive |
| Server.ChatServer.Handle | project/server.c:28-45 | one event refines ServerSpec.Step |
| Server.ChatServer.Serve | project/server.c:25-45 | the main loop, for every legal run, ends in a consistent state; agreement and grammar hold under their hypotheses |
| Client.FriendList.Receive | project/client.c:397-436 | one packet updates the client's heap list as Packets.Apply says |
| Client.FriendList.Drain | project/client.c:321-331 | a drained trace leaves the list Packets.View says |
| Client.NamedAreOnlineFriends | project/client.c:225-236 | under replica agreement a message to several ids goes to exactly those of them that are online friends, at the server's entry for them |
| Client.NamedInOrder | project/client.c:225-236 | the ids are taken one by one, in order |
| Client.NamedOne | project/client.c:225-236 | each id stands for one receiver if it is an online friend's, and else for none |
| Client.FriendList.SendToMany | project/client.c:225-236 | sendto is called for the listed entries the ids name, in order; absent ids are skipped |
| Client.FriendList.SendToAll | project/client.c:284-296 | everybody on the list is sent to, in order, up to and including the first failing sendto |
| LinkList.OnlineList.AddList | project/linklist.c:21-29 | prepends one entry, keeping the chain acyclic |
| LinkList.OnlineList.DelList | project/linklist.c:31-69 | removes exactly the first entry with the key, keeping the rest in order |
| LinkList.OnlineList.SearchList | project/linklist.c:71-105 | the first node with the key, or null if there is none |
| LinkList.OnlineList.Perform | project/linklist.c:21-69 | any run of locked operations is the replay of them on the sequence |
| LinkList.LengthIsCounted | project/linklist.c:21-69 | the length is the adds minus the deletes that found something |
| LinkList.OnlineList.DestroyList | UNIX-8-11/TCP_UDP/client.c:127-142 | leaves the dummy alone on an empty list |
| Acceptance.FriendsThroughout | project/server_action.c:274-284 | under every interleaving friendships only grow, nobody is its own friend, a missing reverse row is owed by a thread between its inserts, and a finished acceptance leaves both rows |
| Acceptance.SymmetricAtRest | project/server_action.c:280-283 | friendship is symmetric whenever no acceptance is between its inserts |
| Acceptance.AtMostOneSuccess | project/server_action.c:284-295 | of all acceptances of one unordered pair at most one takes the success branch |
| Acceptance.NewRowsAreWon | project/server_action.c:280-283 | every new row was inserted by a thread of the run |
| Acceptance.AnnouncedIff | project/server_action.c:284-303 | from any reachable state in which two ids are strangers and over any continuation, their friendship is announced if and only if one and the same thread is the first to run the insert of each of its rows |
| Acceptance.AnnouncedAfterFirst | project/server_action.c:280-295 | for a thread about to run its first insert: if and only if no other thread runs an insert of the reverse row before its second |
| Acceptance.SucceedsIff | project/server_action.c:284-295 | the guard behind it: a thread that won its first row takes the success branch if and only if the reverse row is missing when it gets there |
| Acceptance.CanCross | project/server_action.c:280-283 | two opposite acceptances of strangers can each win their first insert |
| Acceptance.CrossedFail | project/server_action.c:296-303 | they then end as friends and neither takes the success branch |
| Acceptance.OvertakenFail | project/server_action.c:296-303 | so do two acceptances of one request, the second of which runs both its inserts between those of the first |
| Acceptance.AloneIsInsertPair | project/server_action.c:280-284 | the statements of one acceptance run alone store and report what allow_addf_action does |
| Registration.RepliesAreDistinct | project/server_action.c:50-69 | under every interleaving no two registrants are told the same id; an id told is a user's, new, tabled and not older than the caller's row |
| Registration.ToldIff | project/server_action.c:50-69 | from any reachable state in which a row has just been stored and over any continuation, a thread is told that row's id if and only if it is the first to create a table among the threads that selected before a further row was stored; so a registrant is told its own id if and only if that thread is its own |
| Registration.CanStoreBoth | project/mmsql.c:53-65 | two registrants can both store a row before either selects |
| Registration.IdsSwap | project/server_action.c:51-69 | then the first is told the second's id, the second -1, and the first id has no table |
| Registration.ToldOrFailed | project/server_action.c:50-69 | a finished registrant is told a usable id or -1 |
| Registration.AloneIsRegisterUser | project/server_action.c:50-68 | the statements of one registration run alone store and tell what register_action does |
| Registration.SerialRegister | project/server_action.c:43-73 | alone, a stored registration is told its own new id; one not stored is told -1 if the newest user has a table and that user's id otherwise; one whose query for the newest id fails is told -1 |
| Registration.SerialReplies | project/server_action.c:43-73 | the replies of a whole serial run, whatever inserts and queries fail in it: consecutive new ids for stored rows, -1 for failed queries, and for a row not stored the id of an earlier row left without a table, if the newest is one, else -1 |
| Broadcast.IdsThroughout | UNIX-8-11/TCP_UDP/server.c:116-148 | over any run ids strictly descend along the list, lie in 1001..1000 + accepts, and are unique |
| Broadcast.StepList | UNIX-8-11/TCP_UDP/server.c:116-148 | a join puts one client in front with the next id and its own address; a leave takes off exactly the client on that descriptor |
| BroadcastHistory.PresentThroughout | UNIX-8-11/TCP_UDP/server.c:64-99 | over every run the list holds exactly the clients that joined and have not left, with the addresses they joined from, later joins with larger ids |
| BroadcastHistory.StreamThroughout | UNIX-8-11/TCP_UDP/server.c:150-164 | over every run a client has been sent its own record as it stood when it joined, and then the whole list after each event from its join up to its leaving, once each, and nothing more |
| BroadcastHistory.RunGoesOn | UNIX-8-11/TCP_UDP/server.c:48-103 | every run can go on, with a join on any unused descriptor and with anybody on the list leaving |
| Broadcast.FreedIdIsReused | UNIX-8-11/TCP_UDP/server.c:120-127 | a newest client's id is given again after it leaves, if it was the next after its successor's on the list |
| Broadcast.ReplicaAgreement | UNIX-8-11/TCP_UDP/client.c:187-217 | a client's first record is its own node; after its k-th complete snapshot its list is the reverse of the server's at that broadcast, strictly ascending, itself included |
| Broadcast.DrainedCopyIsCurrent | UNIX-8-11/TCP_UDP/server.c:64-99 | after every event a connected client that has read everything holds the reverse of the present list |
| BroadcastNodes.BroadcastServer.AddList | UNIX-8-11/TCP_UDP/server.c:116-130 | the newest node comes first with the next id |
| BroadcastNodes.BroadcastServer.WriteCli | UNIX-8-11/TCP_UDP/server.c:150-164 | the nested loops send the whole list to every node's descriptor |
| BroadcastNodes.BroadcastServer.Connect | UNIX-8-11/TCP_UDP/server.c:64-75 | refines Broadcast.Connect |
| BroadcastNodes.BroadcastServer.Disconnect | UNIX-8-11/TCP_UDP/server.c:76-99 | refines Broadcast.Disconnect |
| BroadcastNodes.BroadcastServer.Serve | UNIX-8-11/TCP_UDP/server.c:48-103 | a whole run of the event loop refines Broadcast.After |
| BroadcastNodes.BroadcastClient.ReceiveFromServer | UNIX-8-11/TCP_UDP/client.c:187-217 | reads to the end of a snapshot and rebuilds the list as Broadcast.Consume says |
| BroadcastNodes.BroadcastClient.ServerCon | UNIX-8-11/TCP_UDP/client.c:174-185 | the receiving thread folds the whole stream |
| BroadcastNodes.BroadcastClient.Search | UNIX-8-11/TCP_UDP/client.c:144-154 | the first node with the id, or null |
| Day05.ReplicaAgreement | UNIX-8-11/day05/server.c:131-145 | for any joins on any descriptors ids are consecutive from 1001, no client loses sync, and each ends with the reverse of the list |
| Day05.StreamThroughout | UNIX-8-11/day05/server.c:51-69 | for any joins, the list holds every client that ever joined with its address; a connection carries the address of the last client to join on its descriptor, and then the whole list after that and every later join, once for each node that has the descriptor |
| Day05.FollowFrames | UNIX-8-11/day05/client.c:28-43 | concatenated frames are followed without losing sync |
| Day05.Link.AddOnlineNode | UNIX-8-11/day05/server.c:17-35 | appends after end with the next id and returns the new end |
| Day05.Link.LinkLength | UNIX-8-11/day05/server.c:71-81 | counts the nodes |
| Day05.Link.FreeLink | UNIX-8-11/day05/client.c:18-27 | empties the list |
| Day05.Link.SearchNode | UNIX-8-11/day05/client.c:68-80 | the first node with the id, or null |
| Day05.JoinServer.WriteToClient | UNIX-8-11/day05/server.c:51-69 | one frame per node to that node's descriptor |
| Day05.JoinServer.Accept | UNIX-8-11/day05/server.c:132-144 | one round refines Day05.Join |
| Day05.JoinServer.Serve | UNIX-8-11/day05/server.c:130-145 | any number of rounds refines Day05.After |
| Day05.ReceiveFrame | UNIX-8-11/day05/client.c:28-43 | one frame read replaces the list, or sync is lost, as Day05.RecvFromServer says |
| Day05.FollowStream | UNIX-8-11/day05/client.c:58-66 | the receiving thread refines Day05.Follow |
| Framing.Write | project/socket.c:85-106 | the bytes written are the frame of operation and payload |
| Framing.WriteFile | project/socket.c:108-131 | the bytes are those of Write for OP_FILE with the file header and the data |
| Framing.ReadsBackIff | project/socket.c:133-162 | a packet reads back as written if and only if its length is below 2^31 |
| Framing.HalfOfAllLengthsIsLost | project/socket.c:133-162 | a payload of 2^31 bytes reads back as none, and the next read begins in its middle |
| Framing.StreamRoundTrip | project/socket.c:85-162 | a concatenation of packets, empty ones included, reads back as the same packets |
| Framing.SmallFrame | project/socket.c:85-106 | a concrete packet, its low bytes first |
| Framing.FilePacketRoundTrip | project/comtype.h:51-58 | every field of a file packet can be recovered from its frame |
| Config.ConfFileAnalysis | project/init.c:25-77 | on any buffer the loops compute Config.Scan and leave its ip as a C string, within ip[16], port[6] and buf |
| Config.LayoutRoundTrip | project/init.c:30-75 | any printed layout scans to its last ip and last port, without an error or a read past buf |
| Config.ConfigRoundTrip | project/server.conf:1-4 | one ip of at most 15 characters and one port of 16 bits among any comments and blanks scan to exactly that ip and port |
| Config.StrayFails | project/init.c:70-74 | after any printed items, a character that begins no item fails the scan |
| Config.OpenCommentOverruns | project/init.c:32-38 | a comment without its newline makes the scan read past buf |
| Config.MisspeltPortIsZero | project/init.c:55-69 | a word that begins as a port but is misspelt sets the port to 0 |
| Config.LongIpIsCut | project/init.c:41-54 | an ip of more than 15 characters is cut after them |
| Config.PortReadsBack | project/init.c:59-68 | a printed port fits the five characters taken and atoi returns it |
| LineEditor.PasswordInput | project/pwdmgmt.c:28-52 | the buffer is the bounded stack of the keys up to the terminator, within len; the row is the echo in stars |
| LineEditor.DataInput | project/pwdmgmt.c:53-78 | the same, echoing the keys |
| LineEditor.DataInputMsg | project/pwdmgmt.c:80-108 | the same, with -1 on escape |
| LineEditor.EchoShowsBuffer | project/pwdmgmt.c:31-48 | after every key the row shows the buffer, or as many stars, and nothing outside its field changes |
| LineEditor.EraseUndoes | project/pwdmgmt.c:58-67 | an erase undoes the last key taken |
| LineEditor.FirstKeysTaken | project/pwdmgmt.c:45-49 | of keys without an erase exactly the first that fit are taken, in order |
| LineEditor.EraseOrFull | project/pwdmgmt.c:35-49 | an erase takes off the last character if there is one, and a full buffer takes no key |
| LineEditor.MessageRoundTrip | project/client.c:144-162 | an accepted message fits the 256-byte receive buffer and gives back id and text; the text is all that was typed if and only if it holds no NUL |
| LineEditor.NulCutsMessage | project/client.c:144-162 | of a message with a typed NUL only the part before it arrives |
| ChatScreen.Window.SendMessageIface | project/menushow.c:24-37 | clears the screen, draws the separator in row 15, leaves the cursor on row 16 |
| ChatScreen.Window.ShowSent | project/client.c:167-183 | the message takes the next free row, earlier message rows, the separator and the free rows stay, the input row is wiped and the cursor returns to it; when none is free the screen restarts |
| ChatScreen.Window.ShowReceived | project/client.c:376-392 | the same for a received message of any length, also behind a half-typed line, if and only if it fits its row from the cursor's column on; otherwise the cursor is left below the input row |
| ChatScreen.LongMessageOverflows | project/client.c:376-392 | a message of 75 characters from id 100000 does not fit |
| ChatScreen.Chat | project/client.c:128-185 | any mix of typing, sending and receiving messages that fit keeps the window's invariant, and the window shows exactly the lines, the count and the typed text of ChatScreen.After |
| ChatScreen.ScreenShowsLast | project/client.c:168-174 | no message is lost before the next clear: over any events the lines shown are exactly the last messages in order, as many as came since that clear, and the count of free rows is the rest |

## Left out

- Server.ChatServer.AllowAddfAction: entries are copied when found, where the C code keeps pointers to nodes that a failed write may free.
- Agreement.AcceptedAgrees: says nothing of an acceptance between two online clients in which a write to the asker fails, because the C code then goes on with a freed node.
- Interleavings inside `login_action` and `offline_action`: the search for a duplicate login and the insertion are one step, as are whole notification loops.
- MySQL itself: SQL text, connections and results; a query fails only where a parameter says so, an insert exactly on a duplicate row or a missing table, `create table` exactly on an existing one. Rows come in insertion order; no result depends on the order.
- A failing query in `add_friend_action` reads an uninitialised result; the model takes the branch for a failed query.
- Registering when the insert fails on an empty user table and the query works: the C code dereferences a null row, and the model excludes it.
- Sockets: partial reads and writes, edge-triggered wakeups and signals; each event delivers one whole packet.
- Broadcast writes of `UNIX-8-11` are taken to succeed, as those programs ignore their outcome.
- `ONLINE` is declared in a header `fun.h` that the repository lacks; that header is not part of this model.
- `heartbeat_action` does nothing; `OP_FILE` has no receiver.
- Locks: each locked operation is one step. The early return in the loop that sends to everybody keeps the list's mutex locked (`project/client.c:292-293`), which is not modelled.
- Menus, terminal modes, `show_list`, and the second terminal and FIFOs that ask Y/N; the answer is an input.
- Framing.WriteFile: assumes a file name shorter than its 20-byte field, as strcpy has no bound; the bytes of the field after the NUL are arbitrary.
- Config.ConfFileAnalysis: models one chunk of the file; a file longer than 1024 bytes restarts the scan in mid-item, which is not modelled.
- ChatScreen.Chat: each send or receive is one step, and runs end with the first message that does not fit its row.
- LineEditor.EchoShowsBuffer: with keys echoed as typed it assumes printable keys, since a control character does not show as itself.
- The other exercises of the repository, which are short demonstrations of single system calls.
