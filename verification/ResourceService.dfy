/** The cache-aside service of src/service/resource_service.cpp over src/cache/resource_cache.cpp and the
    database, for calls that do not overlap. */
module ResourceService {
  import opened Runs
  import opened Text
  import opened ResourceStore

  /** What surrounds one call: the entries that expired before it, whether Redis answers reads and
      takes fills, and a database failure. Deletes from the cache succeed. */
  datatype Env = Env(expired: set<Key>, readOk: bool, fillOk: bool, fault: Option<string>)

  datatype Service = Service(db: Db, cache: map<Key, Answer>)
  datatype Served = Served(service: Service, answer: Answer)

  /** A read through the cache: a hit answers, a miss asks the database and caches what it finds. */
  function Read(s: Service, key: Key, env: Env): Served {
    if env.readOk && key in s.cache then Served(s, s.cache[key])
    else if env.fault.Some? then Served(s, Error(env.fault.value))
    else
      var a := Lookup(s.db, key);
      Served(if Found(a) && env.fillOk then s.(cache := s.cache[key := a]) else s, a)
  }

  /** A write: commit, then delete the keys it invalidates. */
  function Write(s: Service, op: Op, env: Env): Served {
    if env.fault.Some? then Served(s, Error(env.fault.value))
    else if !Commits(s.db, op) then Served(s, Uncached(s.db, op))
    else Served(Service(Apply(s.db, op), s.cache - set k | k in Invalidated(op)), Uncached(s.db, op))
  }

  function Serve(s0: Service, op: Op, env: Env): Served {
    var s := s0.(cache := s0.cache - env.expired);
    match op
    case Get(user, id) => Read(s, One(user, id), env)
    case List(user) => Read(s, All(user), env)
    case Download(_, _) => Served(s, Reference(s.db, op, env))
    case _ => Write(s, op, env)
  }

  /** The answer of the same service without a cache. */
  function Reference(db: Db, op: Op, env: Env): Answer {
    if env.fault.Some? then Error(env.fault.value) else Uncached(db, op)
  }

  function ReferenceDb(db: Db, op: Op, env: Env): Db {
    if env.fault.Some? then db else Apply(db, op)
  }

  /** Every cached entry is what the database would answer now. */
  ghost predicate Coherent(s: Service) {
    s.db.Valid() && forall k :: k in s.cache ==> s.cache[k] == Lookup(s.db, k) && Found(s.cache[k])
  }

  lemma WriteKeepsCoherent(s: Service, op: Op, env: Env)
    requires Coherent(s)
    ensures Coherent(Write(s, op, env).service)
  {
    var t := Write(s, op, env).service;
    ApplyValid(s.db, op);
    forall k | k in t.cache ensures t.cache[k] == Lookup(t.db, k) && Found(t.cache[k]) {
      if t != s {
        UntouchedKeys(s.db, op, k);
      }
    }
  }

  /** One call: coherence is kept, the database moves as it would without a cache, and the answer is
      the uncached one - except that a read can still be answered, correctly, while the database fails. */
  lemma ServeRefines(s: Service, op: Op, env: Env)
    requires Coherent(s)
    ensures var r := Serve(s, op, env);
            && Coherent(r.service)
            && r.service.db == ReferenceDb(s.db, op, env)
            && (r.answer == Reference(s.db, op, env) ||
                ((op.Get? || op.List?) && env.fault.Some? && r.answer == Uncached(s.db, op)))
  {
    var fresh_cache := s.(cache := s.cache - env.expired);
    assert Coherent(fresh_cache);
    if IsWrite(op) {
      WriteKeepsCoherent(fresh_cache, op, env);
    }
  }

  datatype Call = Call(op: Op, env: Env)

  function RunCached(s: Service, calls: seq<Call>): seq<Answer>
    decreases |calls|
  {
    if calls == [] then []
    else
      var r := Serve(s, calls[0].op, calls[0].env);
      [r.answer] + RunCached(r.service, calls[1..])
  }

  function RunUncached(db: Db, calls: seq<Call>): seq<Answer>
    decreases |calls|
  {
    if calls == [] then []
    else [Reference(db, calls[0].op, calls[0].env)]
         + RunUncached(ReferenceDb(db, calls[0].op, calls[0].env), calls[1..])
  }

  /** Serial refinement: for every sequence of calls by any users, with entries expiring at any
      moment, Redis refusing reads and fills at any moment and writes failing at any moment, the
      cached service answers exactly as the uncached one. */
  lemma {:induction false} SerialRefinement(s: Service, calls: seq<Call>)
    requires Coherent(s)
    requires forall c :: c in calls && (c.op.Get? || c.op.List?) ==> c.env.fault.None?
    ensures RunCached(s, calls) == RunUncached(s.db, calls)
    decreases |calls|
  {
    if calls != [] {
      assert calls[0] in calls;
      ServeRefines(s, calls[0].op, calls[0].env);
      SerialRefinement(Serve(s, calls[0].op, calls[0].env).service, calls[1..]);
    }
  }

  /** A write answers with a status exactly when there is no fault and, but for a create, the row is there
      and its object, if it has one, is gone; and then it has committed. */
  lemma StatusIff(s: Service, op: Op, env: Env)
    requires IsWrite(op)
    ensures Serve(s, op, env).answer.Status? <==>
              && env.fault.None?
              && (op.Create? || s.db.Has(op.user, op.id))
              && (op.Delete? && s.db.rows[op.id].isFile ==> op.storageError.None?)
    ensures Serve(s, op, env).answer.Status? ==> Commits(s.db, op)
  {}

  /** A read that follows a successful write, whatever expired or was refused in between, sees it. */
  lemma ReadYourWrites(s: Service, op: Op, writing: Env, reading: Env)
    requires Coherent(s) && IsWrite(op) && Serve(s, op, writing).answer.Status? && reading.fault.None?
    ensures op.Create? || s.db.Has(op.user, op.id)
    ensures var after, id := Serve(s, op, writing).service, TargetId(s.db, op);
            Serve(after, Get(op.user, id), reading).answer == (match op
              case Create(_, title, content, isFile) => Single(Item(id, UpToNul(title), UpToNul(content), isFile))
              case Update(_, _, title, content) => Single(Item(id, UpToNul(title), UpToNul(content), s.db.rows[id].isFile))
              case Delete(_, _, _) => Error("Resource not found."))
  {
    StatusIff(s, op, writing);
    hide Serve, Lookup, Apply, Commits, Coherent;
    var id := TargetId(s.db, op);
    ServeRefines(s, op, writing);
    ServeRefines(Serve(s, op, writing).service, Get(op.user, id), reading);
    CoherentMeansValid(s);
    WriteEffect(s.db, op, All(op.user));
  }

  lemma CoherentMeansValid(s: Service)
    requires Coherent(s)
    ensures s.db.Valid()
  {}

  /** The cache is of use: what a read filled in answers the next read even while the database fails, unless
      it expired or Redis does not answer. */
  lemma FilledThenHit(s: Service, op: Op, first: Env, second: Env)
    requires Coherent(s) && (op.Get? || op.List?) && first.fault.None? && first.fillOk
    requires Found(Serve(s, op, first).answer) && second.readOk && second.expired == {}
    ensures Serve(Serve(s, op, first).service, op, second).answer == Serve(s, op, first).answer
  {
    hide Lookup, Apply;
    var t := Serve(s, op, first).service;
    assert t.cache - {} == t.cache;
  }

  /** And a write deletes no more than it must: every other entry stays. */
  lemma OtherEntriesStay(s: Service, op: Op, env: Env, key: Key)
    requires IsWrite(op) && key in s.cache && key !in env.expired
    requires key.user != op.user || (key.One? && (op.Create? || key.id != op.id))
    ensures key in Serve(s, op, env).service.cache && Serve(s, op, env).service.cache[key] == s.cache[key]
  {
    hide Apply, Uncached;
  }

  // ---- the object ----

  /** A cached JSON text, read back as what it was dumped from; a list keeps the order it was built in. */
  datatype Json = OneItem(item: Item) | ItemList(items: seq<Item>)

  function Meaning(j: Json): Answer {
    match j
    case OneItem(item) => Single(item)
    case ItemList(items) => Many(multiset(items))
  }

  /** An order in which the database may return the rows of `ids`. */
  ghost predicate Enumerates(order: seq<int>, ids: set<int>) {
    && (forall id :: id in order <==> id in ids)
    && (forall i, j :: 0 <= i < j < |order| ==> order[i] != order[j])
  }

  class Backend {
    var rows: map<int, Row>
    var nextId: int
    var cache: map<Key, Json>

    ghost function Abs(): Service
      reads this
    {
      Service(Db(rows, nextId), map k | k in cache :: Meaning(cache[k]))
    }

    constructor ()
      ensures Abs() == Service(Db(map[], 1), map[]) && Coherent(Abs())
    {
      rows, nextId, cache := map[], 1, map[];
    }

    /** The row loop of ResourceDAO::get_resources; its query names no order, so any will do. */
    method FetchRows(user: int, order: seq<int>) returns (vec: seq<Item>)
      requires Enumerates(order, IdsOf(Db(rows, nextId), user))
      ensures Lookup(Db(rows, nextId), All(user)) == Many(multiset(vec))
    {
      vec := [];
      ghost var done: set<int> := {};
      for row := 0 to |order|
        invariant multiset(vec) == multiset(ItemSet(rows, done))
        invariant forall id :: id in done <==> id in order[..row]
      {
        var id := order[row];
        assert id in order && order[..row + 1] == order[..row] + [id];
        ItemSetGrows(rows, done, id);
        vec := vec + [ItemOf(id, rows[id])];
        done := done + {id};
      }
      assert order[..|order|] == order;
      ghost var ids := IdsOf(Db(rows, nextId), user);
      assert forall id :: id in done <==> id in ids;
      assert done == ids;
    }

    /** What the cached texts mean, key by key. */
    lemma CacheMeaning()
      ensures forall k :: k in cache <==> k in Abs().cache
      ensures forall k :: k in cache ==> Abs().cache[k] == Meaning(cache[k])
      ensures Abs().cache - {} == Abs().cache
    {}

    /** The list that get_resources() builds from the rows. */
    method BuildList(user: int, order: seq<int>) returns (items: seq<Item>)
      requires Enumerates(order, IdsOf(Db(rows, nextId), user))
      ensures Lookup(Db(rows, nextId), All(user)) == Many(multiset(items))
    {
      var vec := FetchRows(user, order);
      items := [];
      for i := 0 to |vec|
        invariant items == vec[..i]
      {
        items := items + [Item(vec[i].id, vec[i].title, vec[i].content, vec[i].isFile)];
      }
      assert items == vec;
    }

    /** get_resources() */
    method GetResources(user: int, order: seq<int>, env: Env) returns (items: seq<Item>, error: Option<string>)
      requires Coherent(Abs()) && Enumerates(order, IdsOf(Db(rows, nextId), user)) && env.expired == {}
      modifies this`cache
      ensures Served(Abs(), if error.Some? then Error(error.value) else Many(multiset(items)))
              == Serve(old(Abs()), List(user), env)
    {
      hide UpToNul, Write, Apply, Uncached, Enumerates;
      items, error := [], None;
      CacheMeaning();
      if env.readOk && All(user) in cache {
        assert Abs().cache[All(user)] == Lookup(Abs().db, All(user));
        items := cache[All(user)].items;
        return;
      }
      if env.fault.Some? {
        error := env.fault;
        return;
      }
      items := BuildList(user, order);
      if env.fillOk {
        cache := cache[All(user) := ItemList(items)];
      }
      assert Abs().cache == if env.fillOk then old(Abs().cache)[All(user) := Many(multiset(items))] else old(Abs().cache);
    }

    /** get_resource() */
    method GetResource(user: int, id: int, env: Env) returns (a: Answer)
      requires Coherent(Abs()) && env.expired == {}
      modifies this`cache
      ensures Served(Abs(), a) == Serve(old(Abs()), Get(user, id), env)
      ensures var owned, hit := id in rows && rows[id].user == user, env.readOk && One(user, id) in old(cache);
              && (a.Single? ==> owned && a.item == Item(id, rows[id].title, rows[id].content, rows[id].isFile))
              && (a.Single? <==> hit || (env.fault.None? && owned))
              && (!a.Single? ==> a == Error(if env.fault.Some? then env.fault.value else "Resource not found."))
    {
      CacheMeaning();
      var key := One(user, id);
      if env.readOk && key in cache {
        assert Abs().cache[key] == Lookup(Abs().db, key);
        return Single(cache[key].item);
      }
      if env.fault.Some? {
        return Error(env.fault.value);
      }
      if !(id in rows && rows[id].user == user) {
        return Error("Resource not found.");
      }
      var item := ItemOf(id, rows[id]);
      if env.fillOk {
        cache := cache[key := OneItem(item)];
      }
      assert Abs().cache == if env.fillOk then old(Abs().cache)[key := Single(item)] else old(Abs().cache);
      return Single(item);
    }

    /** get_file_download_url(), up to the signing of the URL */
    method GetFileDownloadUrl(user: int, id: int, env: Env) returns (a: Answer)
      requires env.expired == {}
      ensures Served(Abs(), a) == Serve(Abs(), Download(user, id), env)
      ensures a == if env.fault.Some? then Error(env.fault.value)
                   else if !(id in rows && rows[id].user == user) then Error("Resource not found.")
                   else if !rows[id].isFile then Error("resource is not file")
                   else FileAt(rows[id].content)
    {
      CacheMeaning();
      if env.fault.Some? {
        return Error(env.fault.value);
      }
      if !(id in rows && rows[id].user == user) {
        return Error("Resource not found.");
      }
      if !rows[id].isFile {
        return Error("resource is not file");
      }
      return FileAt(rows[id].content);
    }

    /** create_resource() */
    method CreateResource(user: int, title: string, content: string, isFile: bool, env: Env) returns (a: Answer)
      requires env.expired == {}
      modifies this
      ensures Served(Abs(), a) == Serve(old(Abs()), Create(user, title, content, isFile), env)
      ensures if env.fault.Some? then a == Error(env.fault.value) && unchanged(this)
              else
                && a == Status("created") && nextId == old(nextId) + 1 && cache == old(cache) - {All(user)}
                && rows == old(rows)[old(nextId) := Row(user, UpToNul(title), UpToNul(content), isFile)]
    {
      hide UpToNul, Lookup, Read, Meaning;
      CacheMeaning();
      if env.fault.Some? {
        return Error(env.fault.value);
      }
      rows := rows[nextId := Row(user, UpToNul(title), UpToNul(content), isFile)];
      nextId := nextId + 1;
      cache := cache - {All(user)};
      assert Abs().cache == old(Abs().cache) - set k | k in [All(user)];
      return Status("created");
    }

    /** update_resource() */
    method UpdateResource(user: int, id: int, title: string, content: string, env: Env) returns (a: Answer)
      requires env.expired == {}
      modifies this
      ensures Served(Abs(), a) == Serve(old(Abs()), Update(user, id, title, content), env)
      ensures nextId == old(nextId)
      ensures var owned := id in old(rows) && old(rows)[id].user == user;
              if env.fault.Some? then a == Error(env.fault.value) && unchanged(this)
              else if !owned then a == Error("No change proceeded.") && unchanged(this)
              else
                && a == Status("updated") && cache == old(cache) - {One(user, id), All(user)}
                && rows == old(rows)[id := Row(user, UpToNul(title), UpToNul(content), old(rows)[id].isFile)]
    {
      hide UpToNul, Lookup, Read, Meaning;
      CacheMeaning();
      if env.fault.Some? {
        return Error(env.fault.value);
      }
      if !(id in rows && rows[id].user == user) {
        return Error("No change proceeded.");
      }
      rows := rows[id := rows[id].(title := UpToNul(title), content := UpToNul(content))];
      cache := cache - {One(user, id)};
      cache := cache - {All(user)};
      assert Abs().cache == old(Abs().cache) - set k | k in [One(user, id), All(user)];
      return Status("updated");
    }

    /** delete_resource(); `storageError` tells why a file's object could not be deleted. */
    method DeleteResource(user: int, id: int, storageError: Option<string>, env: Env) returns (a: Answer)
      requires env.expired == {}
      modifies this
      ensures Served(Abs(), a) == Serve(old(Abs()), Delete(user, id, storageError), env)
      ensures nextId == old(nextId)
      ensures var owned := id in old(rows) && old(rows)[id].user == user;
              if env.fault.Some? then a == Error(env.fault.value) && unchanged(this)
              else if !owned then a == Error("Resource not found.") && unchanged(this)
              else if old(rows)[id].isFile && storageError.Some? then a == Error(storageError.value) && unchanged(this)
              else
                && a == Status("deleted") && cache == old(cache) - {One(user, id), All(user)}
                && rows == old(rows) - {id}
    {
      hide UpToNul, Lookup, Read, Meaning;
      CacheMeaning();
      if env.fault.Some? {
        return Error(env.fault.value);
      }
      if !(id in rows && rows[id].user == user) {
        return Error("Resource not found.");
      }
      if rows[id].isFile && storageError.Some? {
        return Error(storageError.value);
      }
      rows := rows - {id};
      cache := cache - {One(user, id)};
      cache := cache - {All(user)};
      assert Abs().cache == old(Abs().cache) - set k | k in [One(user, id), All(user)];
      return Status("deleted");
    }
  }
}
