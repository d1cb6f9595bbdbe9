/** The tables behind the server: `user`, and one friend table `id<n>` per id.
    An insert fails exactly on a duplicate row or a missing table, and
    `create table` fails exactly on an existing one. */
module Database {
  import opened Wrappers

  datatype User = User(id: int, password: string)

  /** nextId is the auto-increment counter of table user. */
  datatype Db = Db(users: seq<User>, nextId: int, tables: map<int, seq<int>>)

  /** select * from user where id=..., and its first row. */
  function FindUser(users: seq<User>, id: int): (r: Option<User>)
    ensures r.Some? ==> r.value in users && r.value.id == id
    ensures r.None? ==> forall u :: u in users ==> u.id != id
  {
    if users == [] then None
    else if users[0].id == id then Some(users[0])
    else FindUser(users[1..], id)
  }

  /** The primary key of table user. */
  ghost predicate OneRowEach(users: seq<User>) {
    forall i, j :: 0 <= i < j < |users| ==> users[i].id != users[j].id
  }

  /** A row is found exactly if it is in the table, wherever it stands. */
  lemma FindUserIff(users: seq<User>, id: int, password: string)
    requires OneRowEach(users)
    ensures FindUser(users, id) == Some(User(id, password)) <==> User(id, password) in users
    ensures FindUser(users, id).None? <==> (forall u :: u in users ==> u.id != id)
  {
  }

  /** select max(id) from user. */
  function MaxId(users: seq<User>): (m: int)
    requires users != []
    ensures exists u :: u in users && u.id == m
    ensures forall u :: u in users ==> u.id <= m
  {
    if |users| == 1 then users[0].id
    else
      var m := MaxId(users[1..]);
      if m < users[0].id then users[0].id else m
  }

  function InsertUser(db: Db, password: string): Db {
    db.(users := db.users + [User(db.nextId, password)], nextId := db.nextId + 1)
  }

  function CreateTable(db: Db, id: int): Option<Db> {
    if id in db.tables then None else Some(db.(tables := db.tables[id := []]))
  }

  function Rows(db: Db, id: int): seq<int> {
    if id in db.tables then db.tables[id] else []
  }

  /** insert into id<id> values(v). */
  function InsertRow(db: Db, id: int, v: int): Option<Db> {
    if id !in db.tables || v in db.tables[id] then None
    else Some(db.(tables := db.tables[id := db.tables[id] + [v]]))
  }
}
