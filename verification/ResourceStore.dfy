/** The resources table of db/schema.sql and the statements src/dao/resource_dao.cpp runs on it. */
module ResourceStore {
  import opened Runs
  import opened Text

  datatype Row = Row(user: int, title: string, content: string, isFile: bool)
  datatype Item = Item(id: int, title: string, content: string, isFile: bool)

  /** Rows by identity id; `nextId` is above every id handed out, and ids are never reused. */
  datatype Db = Db(rows: map<int, Row>, nextId: int) {
    ghost predicate Valid() { forall id :: id in rows ==> id < nextId }

    predicate Has(user: int, id: int) { id in rows && rows[id].user == user }
  }

  /** Service answers. A list has no order, since its query has none. */
  datatype Answer =
    | Error(message: string) | Status(text: string) | Single(item: Item) | Many(items: multiset<Item>)
    | FileAt(url: string)

  /** What can be cached: one resource of a user, or the user's list. */
  datatype Key = One(user: int, id: int) | All(user: int)

  function ItemOf(id: int, row: Row): Item { Item(id, row.title, row.content, row.isFile) }

  function ItemSet(rows: map<int, Row>, ids: set<int>): set<Item> {
    set id | id in ids && id in rows :: ItemOf(id, rows[id])
  }

  function IdsOf(db: Db, user: int): set<int> { set id | id in db.rows && db.rows[id].user == user }

  /** What the database answers for a key. */
  function Lookup(db: Db, key: Key): Answer {
    match key
    case One(user, id) =>
      if db.Has(user, id) then Single(ItemOf(id, db.rows[id])) else Error("Resource not found.")
    case All(user) => Many(multiset(ItemSet(db.rows, IdsOf(db, user))))
  }

  /** A read result that may be cached: misses and errors never are. */
  predicate Found(a: Answer) { a.Single? || a.Many? }

  datatype Op =
    | Create(user: int, title: string, content: string, isFile: bool)
    | List(user: int)
    | Get(user: int, id: int)
    | Download(user: int, id: int)
    | Update(user: int, id: int, title: string, content: string)
    | Delete(user: int, id: int, storageError: Option<string>)  // why a file's object could not be deleted

  predicate IsWrite(op: Op) { op.Create? || op.Update? || op.Delete? }

  /** Whether a write commits: the row is there, and for a file its object is gone. */
  predicate Commits(db: Db, op: Op) {
    match op
    case Create(_, _, _, _) => true
    case Update(user, id, _, _) => db.Has(user, id)
    case Delete(user, id, storageError) => db.Has(user, id) && (db.rows[id].isFile ==> storageError.None?)
    case _ => false
  }

  /** The table after an operation. Texts are bound as C strings, so they end at their first NUL. */
  function Apply(db: Db, op: Op): Db {
    if !Commits(db, op) then db
    else match op
      case Create(user, title, content, isFile) =>
        Db(db.rows[db.nextId := Row(user, UpToNul(title), UpToNul(content), isFile)], db.nextId + 1)
      case Update(user, id, title, content) =>
        db.(rows := db.rows[id := db.rows[id].(title := UpToNul(title), content := UpToNul(content))])
      case Delete(_, id, _) => db.(rows := db.rows - {id})
      case _ => db
  }

  /** The keys a committed write invalidates, in the order of the deletes. */
  function Invalidated(op: Op): seq<Key> {
    match op
    case Create(user, _, _, _) => [All(user)]
    case Update(user, id, _, _) => [One(user, id), All(user)]
    case Delete(user, id, _) => [One(user, id), All(user)]
    case _ => []
  }

  /** The service without a cache. */
  function Uncached(db: Db, op: Op): Answer {
    match op
    case Create(_, _, _, _) => Status("created")
    case List(user) => Lookup(db, All(user))
    case Get(user, id) => Lookup(db, One(user, id))
    case Download(user, id) =>
      if !db.Has(user, id) then Error("Resource not found.")
      else if !db.rows[id].isFile then Error("resource is not file")
      else FileAt(db.rows[id].content)
    case Update(_, _, _, _) => if Commits(db, op) then Status("updated") else Error("No change proceeded.")
    case Delete(user, id, storageError) =>
      if !db.Has(user, id) then Error("Resource not found.")
      else if db.rows[id].isFile && storageError.Some? then Error(storageError.value)
      else Status("deleted")
  }

  lemma ApplyValid(db: Db, op: Op)
    requires db.Valid()
    ensures Apply(db, op).Valid()
  {}

  /** A write changes the answer only for the keys it invalidates. Create needs no resource key: its
      id is new, and what is not there is never cached. */
  lemma UntouchedKeys(db: Db, op: Op, key: Key)
    requires db.Valid() && key !in Invalidated(op)
    ensures Found(Lookup(db, key)) ==> Lookup(Apply(db, op), key) == Lookup(db, key)
  {
    if key.All? && Commits(db, op) {
      var next := Apply(db, op);
      assert op.user != key.user;
      assert IdsOf(next, key.user) == IdsOf(db, key.user);
      assert ItemSet(next.rows, IdsOf(next, key.user)) == ItemSet(db.rows, IdsOf(db, key.user));
    }
  }

  lemma ItemSetGrows(rows: map<int, Row>, done: set<int>, id: int)
    requires id in rows && id !in done
    ensures multiset(ItemSet(rows, done + {id})) == multiset(ItemSet(rows, done)) + multiset{ItemOf(id, rows[id])}
  {
    var item := ItemOf(id, rows[id]);
    assert item !in ItemSet(rows, done);
    assert ItemSet(rows, done + {id}) == ItemSet(rows, done) + {item};
  }

  /** A user's item with this id, if there is one. */
  function Mine(db: Db, user: int, id: int): multiset<Item> {
    if db.Has(user, id) then multiset{ItemOf(id, db.rows[id])} else multiset{}
  }

  /** A user's list is the item with this id, if any, and the others. */
  lemma ListSplits(db: Db, user: int, id: int)
    ensures Lookup(db, All(user)) == Many(multiset(ItemSet(db.rows, IdsOf(db, user) - {id})) + Mine(db, user, id))
  {
    var ids := IdsOf(db, user);
    if db.Has(user, id) {
      ItemSetGrows(db.rows, ids - {id}, id);
      assert ids - {id} + {id} == ids;
    } else {
      assert ids - {id} == ids;
    }
  }

  /** The id a write is about: a new one for a create. */
  function TargetId(db: Db, op: Op): int
    requires IsWrite(op)
  {
    if op.Create? then db.nextId else op.id
  }

  /** What a committed write does: its own item becomes what was written, or disappears, and no other
      item of anybody changes. */
  lemma WriteEffect(db: Db, op: Op, key: Key)
    requires db.Valid() && IsWrite(op) && Commits(db, op)
    ensures var next, id := Apply(db, op), TargetId(db, op);
            && Lookup(next, One(op.user, id)) == (match op
               case Create(_, title, content, isFile) => Single(Item(id, UpToNul(title), UpToNul(content), isFile))
               case Update(_, _, title, content) => Single(Item(id, UpToNul(title), UpToNul(content), db.rows[id].isFile))
               case Delete(_, _, _) => Error("Resource not found."))
            && (key.One? && key.id != id ==> Lookup(next, key) == Lookup(db, key))
  {}

  lemma OthersStay(db: Db, op: Op)
    requires db.Valid() && IsWrite(op) && Commits(db, op)
    ensures var next, id := Apply(db, op), TargetId(db, op);
            ItemSet(next.rows, IdsOf(next, op.user) - {id}) == ItemSet(db.rows, IdsOf(db, op.user) - {id})
  {
    var next, id := Apply(db, op), TargetId(db, op);
    assert IdsOf(next, op.user) - {id} == IdsOf(db, op.user) - {id};
  }

  /** And the user's list trades the old item for the new one: nothing else enters or leaves it. */
  lemma ListEffect(db: Db, op: Op)
    requires db.Valid() && IsWrite(op) && Commits(db, op)
    ensures var next, id := Apply(db, op), TargetId(db, op);
            Lookup(next, All(op.user)).items + Mine(db, op.user, id)
            == Lookup(db, All(op.user)).items + Mine(next, op.user, id)
  {
    hide Apply, Commits, ItemSet, IdsOf, Mine;
    var id := TargetId(db, op);
    ListSplits(db, op.user, id);
    ListSplits(Apply(db, op), op.user, id);
    OthersStay(db, op);
  }
}
