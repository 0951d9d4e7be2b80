/** The cache-aside service under concurrency: any number of request threads, of any number of backends,
    over one database and one cache. Reading the cache, reading the database, filling, committing
    and each delete are separate steps. */
module CacheRaces {
  import opened Runs
  import opened ResourceStore

  const RESOURCE_CACHE_TTL_SECONDS: nat := 300
  const RESOURCE_LIST_CACHE_TTL_SECONDS: nat := 120

  function Ttl(key: Key): nat { if key.One? then RESOURCE_CACHE_TTL_SECONDS else RESOURCE_LIST_CACHE_TTL_SECONDS }

  /** A cached answer; `version` is the database version the filling read saw, `setAt` the clock and
      `stamp` the step of the fill. */
  datatype Entry = Entry(answer: Answer, version: nat, setAt: nat, stamp: nat)

  /** What became of one delete: the writer has yet to make it, it failed, or it was done at a step. */
  datatype Delete = Pending(t: nat) | Failed | Done(stamp: nat)
  datatype Mark = Mark(version: nat, key: Key)

  /** A request thread: outside, after a cache miss, with a database answer to fill in, or after a
      commit with deletes to make. */
  datatype Thread =
    | Idle | Missed(key: Key) | Read(key: Key, answer: Answer, version: nat) | Deleting(version: nat, todo: seq<Key>)

  /** `history` is every version of the database; version j + 1 was committed by `writes[j]`. */
  datatype State = State(
    history: seq<Db>, writes: seq<Op>, cache: map<Key, Entry>, threads: seq<Thread>,
    deletes: map<Mark, Delete>, clock: nat, stamp: nat)
  {
    function Now(): Db
      requires history != []
    {
      history[|history| - 1]
    }
  }

  datatype Action =
    | Miss(t: nat, key: Key) | ReadDb(t: nat) | Fill(t: nat, ok: bool)
    | Commit(t: nat, op: Op) | Del(t: nat, ok: bool) | Tick(seconds: nat) | Evict(key: Key)

  function Init(db: Db, threads: nat): State {
    State([db], [], map[], seq(threads, _ => Idle), map[], 0, 0)
  }

  function Move(s: State, t: nat, pc: Thread): State
    requires t < |s.threads|
  {
    s.(threads := s.threads[t := pc], stamp := s.stamp + 1)
  }

  /** The pending deletes of a commit. */
  function Marks(version: nat, keys: seq<Key>, t: nat): map<Mark, Delete> {
    map k | k in keys :: Mark(version, k) := Pending(t)
  }

  /** Entries still alive at a given clock. */
  function Alive(cache: map<Key, Entry>, clock: nat): map<Key, Entry> {
    map k | k in cache && clock < cache[k].setAt + Ttl(k) :: cache[k]
  }

  /** A write commits, and owes its deletes. */
  function Committed(s: State, t: nat, op: Op): State
    requires t < |s.threads| && s.history != []
  {
    var version := |s.history|;
    Move(s.(history := s.history + [Apply(s.Now(), op)], writes := s.writes + [op],
            deletes := s.deletes + Marks(version, Invalidated(op), t)),
         t, Deleting(version, Invalidated(op)))
  }

  /** The next delete of a writer is made, or fails. */
  function Deleted(s: State, t: nat, ok: bool): State
    requires t < |s.threads| && s.threads[t].Deleting? && s.threads[t].todo != []
  {
    var pc := s.threads[t];
    var key := pc.todo[0];
    var next := if |pc.todo| == 1 then Idle else Deleting(pc.version, pc.todo[1..]);
    var mark := Mark(pc.version, key);
    Move(if ok then s.(cache := s.cache - {key}, deletes := s.deletes[mark := Done(s.stamp)])
         else s.(deletes := s.deletes[mark := Failed]),
         t, next)
  }

  function Step(s: State, a: Action): Option<State> {
    if s.history == [] then None
    else match a
      case Miss(t, key) =>
        if t < |s.threads| && s.threads[t].Idle? then Some(Move(s, t, Missed(key))) else None
      case ReadDb(t) =>
        if !(t < |s.threads| && s.threads[t].Missed?) then None
        else
          var key := s.threads[t].key;
          var a := Lookup(s.Now(), key);
          Some(Move(s, t, if Found(a) then Read(key, a, |s.history| - 1) else Idle))
      case Fill(t, ok) =>
        if !(t < |s.threads| && s.threads[t].Read?) then None
        else if !ok then Some(Move(s, t, Idle))
        else
          var pc := s.threads[t];
          Some(Move(s.(cache := s.cache[pc.key := Entry(pc.answer, pc.version, s.clock, s.stamp)]), t, Idle))
      case Commit(t, op) =>
        if !(t < |s.threads| && s.threads[t].Idle? && Commits(s.Now(), op)) then None
        else Some(Committed(s, t, op))
      case Del(t, ok) =>
        if !(t < |s.threads| && s.threads[t].Deleting? && s.threads[t].todo != []) then None
        else Some(Deleted(s, t, ok))
      case Tick(seconds) =>
        Some(s.(clock := s.clock + seconds, cache := Alive(s.cache, s.clock + seconds), stamp := s.stamp + 1))
      case Evict(key) =>
        Some(s.(cache := s.cache - {key}, stamp := s.stamp + 1))
  }

  // ---- invariant ----

  ghost predicate HistoryOk(s: State) {
    && |s.history| == |s.writes| + 1
    && (forall j :: 0 <= j < |s.history| ==> s.history[j].Valid())
    && (forall j :: 0 <= j < |s.writes| ==>
          Commits(s.history[j], s.writes[j]) && s.history[j + 1] == Apply(s.history[j], s.writes[j]))
  }

  /** `a` is what some version of the database answered for `key`. */
  ghost predicate Genuine(s: State, key: Key, a: Answer, version: nat) {
    version < |s.history| && a == Lookup(s.history[version], key) && Found(a)
  }

  ghost predicate ThreadOk(s: State, t: nat)
    requires t < |s.threads|
  {
    match s.threads[t]
    case Read(key, a, version) => Genuine(s, key, a, version)
    case Deleting(version, todo) =>
      && 1 <= |todo| <= 2 && (|todo| == 2 ==> todo[0] != todo[1]) && 1 <= version < |s.history|
      && forall k :: k in todo ==> Mark(version, k) in s.deletes && s.deletes[Mark(version, k)] == Pending(t)
    case _ => true
  }

  /** Every delete a commit owes is accounted for; a pending one is on its writer's list. */
  ghost predicate DeletesOk(s: State) {
    && (forall j, k :: 0 <= j < |s.writes| && k in Invalidated(s.writes[j]) ==> Mark(j + 1, k) in s.deletes)
    && (forall m :: m in s.deletes ==> m.version < |s.history|)
    && (forall m :: m in s.deletes && s.deletes[m].Done? ==> s.deletes[m].stamp < s.stamp)
    && (forall m :: m in s.deletes && s.deletes[m].Pending? ==>
          var t := s.deletes[m].t;
          t < |s.threads| && s.threads[t].Deleting? && s.threads[t].version == m.version && m.key in s.threads[t].todo)
  }

  /** Why commit `j + 1` may have left entry `e` of `key` behind: its delete is still to come, it
      failed, or it was made before the fill, whose read had come before the commit. */
  ghost predicate Excused(s: State, key: Key, e: Entry, j: nat) {
    var m := Mark(j + 1, key);
    m in s.deletes &&
    match s.deletes[m]
    case Pending(_) => true
    case Failed => true
    case Done(stamp) => stamp < e.stamp
  }

  ghost predicate EntryOk(s: State, key: Key)
    requires key in s.cache
  {
    var e := s.cache[key];
    && Genuine(s, key, e.answer, e.version)
    && e.setAt <= s.clock < e.setAt + Ttl(key) && e.stamp < s.stamp
    && forall j :: e.version <= j < |s.writes| && key in Invalidated(s.writes[j]) ==> Excused(s, key, e, j)
  }

  ghost predicate Inv(s: State) {
    && HistoryOk(s) && DeletesOk(s)
    && (forall t :: 0 <= t < |s.threads| ==> ThreadOk(s, t))
    && (forall key :: key in s.cache ==> EntryOk(s, key))
  }

  // ---- every step keeps it ----

  /** Steps that neither commit nor delete leave everything said about an entry in place. */
  lemma EntryFrame(s: State, u: State, key: Key)
    requires key in s.cache && EntryOk(s, key) && key in u.cache && u.cache[key] == s.cache[key]
    requires u.history == s.history && u.writes == s.writes && u.deletes == s.deletes
    requires s.clock <= u.clock < s.cache[key].setAt + Ttl(key) && s.stamp <= u.stamp
    ensures EntryOk(u, key)
  {
    forall j | s.cache[key].version <= j < |u.writes| && key in Invalidated(u.writes[j])
      ensures Excused(u, key, u.cache[key], j)
    {
      assert Excused(s, key, s.cache[key], j);
    }
  }

  /** A step of one reading thread. */
  lemma ReaderKeeps(s: State, a: Action)
    requires Inv(s) && (a.Miss? || a.ReadDb? || (a.Fill? && !a.ok)) && Step(s, a).Some?
    ensures Inv(Step(s, a).value)
  {
    var u := Step(s, a).value;
    forall t: nat | t < |u.threads| ensures ThreadOk(u, t) {
      assert ThreadOk(s, t);
    }
    forall key | key in u.cache ensures EntryOk(u, key) {
      EntryFrame(s, u, key);
    }
  }

  lemma FillKeeps(s: State, t: nat)
    requires Inv(s) && Step(s, Fill(t, true)).Some?
    ensures Inv(Step(s, Fill(t, true)).value)
  {
    var u := Step(s, Fill(t, true)).value;
    var pc := s.threads[t];
    assert ThreadOk(s, t);
    forall w: nat | w < |u.threads| ensures ThreadOk(u, w) {
      assert ThreadOk(s, w);
    }
    forall key | key in u.cache ensures EntryOk(u, key) {
      if key != pc.key {
        EntryFrame(s, u, key);
      } else {
        forall j | u.cache[key].version <= j < |u.writes| && key in Invalidated(u.writes[j])
          ensures Excused(u, key, u.cache[key], j)
        {
          assert Mark(j + 1, key) in s.deletes;
        }
      }
    }
  }

  lemma ExpiryKeeps(s: State, a: Action)
    requires Inv(s) && (a.Tick? || a.Evict?) && Step(s, a).Some?
    ensures Inv(Step(s, a).value)
  {
    var u := Step(s, a).value;
    forall t: nat | t < |u.threads| ensures ThreadOk(u, t) {
      assert ThreadOk(s, t);
    }
    forall key | key in u.cache ensures EntryOk(u, key) {
      EntryFrame(s, u, key);
    }
  }

  /** A commit adds its own pending deletes and leaves the others as they were. */
  lemma CommittedMarks(s: State, t: nat, op: Op)
    requires DeletesOk(s) && t < |s.threads| && s.history != []
    ensures var d := Committed(s, t, op).deletes;
            && (forall m :: m in s.deletes ==> m in d && d[m] == s.deletes[m])
            && (forall k :: k in Invalidated(op) ==> Mark(|s.history|, k) in d && d[Mark(|s.history|, k)] == Pending(t))
            && (forall m :: m in d ==> m in s.deletes || (m.version == |s.history| && m.key in Invalidated(op) && d[m] == Pending(t)))
  {
    hide Apply, Invalidated;
  }

  lemma CommitEntry(s: State, t: nat, op: Op, key: Key)
    requires Inv(s) && t < |s.threads| && key in s.cache
    ensures EntryOk(Committed(s, t, op), key)
  {
    hide Lookup, Apply, ThreadOk, Invalidated, Marks;
    CommittedMarks(s, t, op);
    var u := Committed(s, t, op);
    var e := s.cache[key];
    assert EntryOk(s, key);
    forall j | e.version <= j < |u.writes| && key in Invalidated(u.writes[j]) ensures Excused(u, key, e, j) {
      if j < |s.writes| {
        assert Excused(s, key, e, j);
      }
    }
  }

  lemma CommitThread(s: State, t: nat, op: Op, w: nat)
    requires Inv(s) && t < |s.threads| && w < |s.threads| && IsWrite(op)
    ensures ThreadOk(Committed(s, t, op), w)
  {
    hide Lookup, Apply, Marks;
    CommittedMarks(s, t, op);
    assert ThreadOk(s, w);
  }

  lemma CommitDeletes(s: State, t: nat, op: Op)
    requires HistoryOk(s) && DeletesOk(s) && t < |s.threads| && s.threads[t].Idle?
    ensures DeletesOk(Committed(s, t, op))
  {
    hide Apply, HistoryOk, Invalidated, Marks;
    HistoryLength(s);
    CommittedMarks(s, t, op);
    var u := Committed(s, t, op);
    forall j, k | 0 <= j < |u.writes| && k in Invalidated(u.writes[j]) ensures Mark(j + 1, k) in u.deletes {
      if j < |s.writes| {
        assert Mark(j + 1, k) in s.deletes;
      }
    }
  }

  lemma HistoryLength(s: State)
    requires HistoryOk(s)
    ensures |s.history| == |s.writes| + 1
  {}

  lemma CommitKeeps(s: State, t: nat, op: Op)
    requires Inv(s) && Step(s, Commit(t, op)).Some?
    ensures Inv(Step(s, Commit(t, op)).value)
  {
    hide Lookup, Apply, DeletesOk, EntryOk, ThreadOk;
    var u := Committed(s, t, op);
    assert Step(s, Commit(t, op)) == Some(u);
    ApplyValid(s.Now(), op);
    assert HistoryOk(u);
    CommitDeletes(s, t, op);
    forall w: nat | w < |u.threads| ensures ThreadOk(u, w) {
      CommitThread(s, t, op, w);
    }
    forall key | key in u.cache ensures EntryOk(u, key) {
      CommitEntry(s, t, op, key);
    }
  }

  lemma DelEntry(s: State, t: nat, ok: bool, key: Key)
    requires Inv(s) && t < |s.threads| && s.threads[t].Deleting? && s.threads[t].todo != []
    requires key in Deleted(s, t, ok).cache
    ensures EntryOk(Deleted(s, t, ok), key)
  {
    hide Lookup, HistoryOk, DeletesOk, ThreadOk;
    var u, e := Deleted(s, t, ok), s.cache[key];
    assert EntryOk(s, key);
    forall j | e.version <= j < |u.writes| && key in Invalidated(u.writes[j]) ensures Excused(u, key, e, j) {
      assert Excused(s, key, e, j);
    }
  }

  lemma DelDeletes(s: State, t: nat, ok: bool)
    requires DeletesOk(s) && t < |s.threads| && ThreadOk(s, t) && s.threads[t].Deleting? && s.threads[t].todo != []
    ensures DeletesOk(Deleted(s, t, ok))
  {}

  lemma DelThread(s: State, t: nat, ok: bool, w: nat)
    requires t < |s.threads| && ThreadOk(s, t) && s.threads[t].Deleting? && s.threads[t].todo != []
    requires w < |s.threads| && ThreadOk(s, w)
    ensures ThreadOk(Deleted(s, t, ok), w)
  {}

  lemma DelKeeps(s: State, t: nat, ok: bool)
    requires Inv(s) && Step(s, Del(t, ok)).Some?
    ensures Inv(Step(s, Del(t, ok)).value)
  {
    hide DeletesOk, EntryOk, ThreadOk, Lookup;
    var u := Deleted(s, t, ok);
    assert Step(s, Del(t, ok)) == Some(u);
    assert ThreadOk(s, t);
    DelDeletes(s, t, ok);
    forall w: nat | w < |u.threads| ensures ThreadOk(u, w) {
      DelThread(s, t, ok, w);
    }
    forall key | key in u.cache ensures EntryOk(u, key) {
      DelEntry(s, t, ok, key);
    }
  }

  lemma InvStep(s: State, a: Action)
    requires Inv(s) && Step(s, a).Some?
    ensures Inv(Step(s, a).value)
  {
    match a
    case Commit(t, op) => CommitKeeps(s, t, op);
    case Del(t, ok) => DelKeeps(s, t, ok);
    case Tick(_) => ExpiryKeeps(s, a);
    case Evict(_) => ExpiryKeeps(s, a);
    case Fill(t, ok) => if ok { FillKeeps(s, t); } else { ReaderKeeps(s, a); }
    case _ => ReaderKeeps(s, a);
  }

  lemma ReachableInv(db: Db, threads: nat, run: seq<Action>)
    requires db.Valid() && Exec(Step, Init(db, threads), run).Some?
    ensures Inv(Exec(Step, Init(db, threads), run).value)
  {
    forall s: State, a: Action | Inv(s) && Step(s, a).Some? ensures Inv(Step(s, a).value) {
      InvStep(s, a);
    }
    InvariantHolds(Step, Inv, Init(db, threads), run);
  }

  // ---- the theorems ----

  /** Between two versions the answer for a found key changes only through a commit that owes a
      delete of that key. */
  lemma {:induction false} ChangeHasCommit(s: State, key: Key, from: nat) returns (j: nat)
    requires HistoryOk(s) && from < |s.history| && Found(Lookup(s.history[from], key))
    requires Lookup(s.history[from], key) != Lookup(s.Now(), key)
    ensures from <= j < |s.writes| && key in Invalidated(s.writes[j])
    decreases |s.history| - from
  {
    if key in Invalidated(s.writes[from]) {
      j := from;
    } else {
      UntouchedKeys(s.history[from], s.writes[from], key);
      j := ChangeHasCommit(s, key, from + 1);
    }
  }

  /** Staleness in every interleaving. A cached entry is an answer the database really gave, and is
      younger than its time to live. If it is not the current answer, then a later commit owed a
      delete of its key, and that delete is still pending in its writer, or failed, or was made
      before the entry was filled from a read that preceded the commit. */
  lemma StaleOnlyFor(db: Db, threads: nat, run: seq<Action>, key: Key)
    requires db.Valid() && Exec(Step, Init(db, threads), run).Some?
    requires key in Exec(Step, Init(db, threads), run).value.cache
    ensures var s := Exec(Step, Init(db, threads), run).value;
            var e := s.cache[key];
            && s.history != []
            && e.version < |s.history| && e.answer == Lookup(s.history[e.version], key)
            && (key.One? ==> s.clock - e.setAt < 300) && (key.All? ==> s.clock - e.setAt < 120)
            && (e.answer != Lookup(s.Now(), key) ==>
                  exists j: nat :: e.version <= j < |s.writes| && key in Invalidated(s.writes[j]) && Excused(s, key, e, j))
  {
    ReachableInv(db, threads, run);
    var s := Exec(Step, Init(db, threads), run).value;
    var e := s.cache[key];
    assert EntryOk(s, key);
    if e.answer != Lookup(s.Now(), key) {
      var j := ChangeHasCommit(s, key, e.version);
      assert Excused(s, key, e, j);
    }
  }

  /** And an entry lives that long unless it is deleted or evicted: time alone takes it only then. */
  lemma LivesItsTime(s: State, seconds: nat, key: Key)
    requires s.history != [] && key in s.cache
    requires s.clock + seconds < s.cache[key].setAt + if key.One? then 300 else 120
    ensures Step(s, Tick(seconds)).Some? && key in Step(s, Tick(seconds)).value.cache
    ensures Step(s, Tick(seconds)).value.cache[key] == s.cache[key]
  {}

  /** So an entry is exact as soon as every delete its key is owed by a later commit has been made,
      none of them before the entry was filled; what happens to other keys does not matter. */
  lemma QuietCacheIsExact(db: Db, threads: nat, run: seq<Action>, key: Key)
    requires db.Valid() && Exec(Step, Init(db, threads), run).Some?
    requires var s := Exec(Step, Init(db, threads), run).value;
             && key in s.cache
             && (forall m :: m in s.deletes && m.key == key && s.cache[key].version < m.version ==>
                   s.deletes[m].Done? && s.cache[key].stamp <= s.deletes[m].stamp)
    ensures var s := Exec(Step, Init(db, threads), run).value;
            s.history != [] && s.cache[key].answer == Lookup(s.Now(), key)
  {
    hide Step;
    StaleOnlyFor(db, threads, run, key);
  }

  // ---- each cause does occur ----

  ghost predicate Stale(s: State, key: Key) {
    s.history != [] && key in s.cache && s.cache[key].answer != Lookup(s.Now(), key)
  }

  datatype Cause = DeletePending | DeleteFailed | DeleteBeforeFill

  predicate Shows(d: Delete, cause: Cause) {
    match cause
    case DeletePending => d.Pending?
    case DeleteFailed => d.Failed?
    case DeleteBeforeFill => d.Done?
  }

  /** A run of two threads that ends with a stale entry, its commit's delete in the given state. */
  ghost predicate StaleBy(db: Db, run: seq<Action>, key: Key, cause: Cause) {
    var end := Exec(Step, Init(db, 2), run);
    end.Some? && Stale(end.value, key) && Mark(1, key) in end.value.deletes && Shows(end.value.deletes[Mark(1, key)], cause)
  }

  /** Thread 1 works off its deletes after its commit. */
  lemma {:induction false} WorkOff(s: State, ok: bool) returns (run: seq<Action>, u: State)
    requires s.history != [] && |s.threads| == 2 && s.threads[1].Deleting? && s.threads[1].todo != []
    requires |s.threads[1].todo| <= 2 && (|s.threads[1].todo| == 2 ==> s.threads[1].todo[0] != s.threads[1].todo[1])
    ensures Exec(Step, s, run) == Some(u)
    ensures u.history == s.history && |u.threads| == 2 && u.threads[0] == s.threads[0] && u.clock == s.clock
    ensures forall k :: k in s.threads[1].todo ==>
              var m := Mark(s.threads[1].version, k);
              m in u.deletes && if ok then u.deletes[m].Done? && u.deletes[m].stamp < u.stamp else u.deletes[m].Failed?
    ensures !ok ==> u.cache == s.cache
    decreases |s.threads[1].todo|
  {
    var t := Step(s, Del(1, ok)).value;
    if |s.threads[1].todo| == 1 {
      run, u := [Del(1, ok)], t;
      ExecChain(Step, [s, t], run);
    } else {
      var v := Step(t, Del(1, ok)).value;
      run, u := [Del(1, ok), Del(1, ok)], v;
      ExecChain(Step, [s, t, v], run);
    }
  }

  /** Fill by thread 0, then commit by thread 1. */
  lemma FillThenCommit(db: Db, op: Op, key: Key) returns (run: seq<Action>, s: State)
    requires Commits(db, op) && Found(Lookup(db, key)) && key in Invalidated(op)
    ensures Exec(Step, Init(db, 2), run) == Some(s)
    ensures s.history == [db, Apply(db, op)] && |s.threads| == 2 && s.threads[1] == Deleting(1, Invalidated(op))
    ensures key in s.cache && s.cache[key].answer == Lookup(db, key)
    ensures Mark(1, key) in s.deletes && s.deletes[Mark(1, key)] == Pending(1)
  {
    hide Lookup, Apply, Commits;
    var s0 := Init(db, 2);
    var s1 := Step(s0, Miss(0, key)).value;
    var s2 := Step(s1, ReadDb(0)).value;
    var s3 := Step(s2, Fill(0, true)).value;
    s := Step(s3, Commit(1, op)).value;
    run := [Miss(0, key), ReadDb(0), Fill(0, true), Commit(1, op)];
    ExecChain(Step, [s0, s1, s2, s3, s], run);
  }

  /** Read by thread 0, then commit by thread 1, with the fill still to come. */
  lemma ReadThenCommit(db: Db, op: Op, key: Key) returns (run: seq<Action>, s: State)
    requires Commits(db, op) && Found(Lookup(db, key)) && key in Invalidated(op)
    ensures Exec(Step, Init(db, 2), run) == Some(s)
    ensures s.history == [db, Apply(db, op)] && |s.threads| == 2 && s.threads[1] == Deleting(1, Invalidated(op))
    ensures s.threads[0] == Read(key, Lookup(db, key), 0)
  {
    hide Lookup, Apply, Commits;
    var s0 := Init(db, 2);
    var s1 := Step(s0, Miss(0, key)).value;
    var s2 := Step(s1, ReadDb(0)).value;
    s := Step(s2, Commit(1, op)).value;
    run := [Miss(0, key), ReadDb(0), Commit(1, op)];
    ExecChain(Step, [s0, s1, s2, s], run);
  }

  /** None of the three causes can be dropped: for every database and every committing write that
      changes the answer for a cached key, each of them alone leaves a stale entry in some run. */
  lemma EveryCauseOccurs(db: Db, op: Op, key: Key)
    requires Commits(db, op) && key in Invalidated(op)
    requires Found(Lookup(db, key)) && Lookup(Apply(db, op), key) != Lookup(db, key)
    ensures exists run :: StaleBy(db, run, key, DeletePending)
    ensures exists run :: StaleBy(db, run, key, DeleteFailed)
    ensures exists run :: StaleBy(db, run, key, DeleteBeforeFill)
  {
    hide Lookup, Apply, Commits, Found, Step;
    var run, s := FillThenCommit(db, op, key);
    assert StaleBy(db, run, key, DeletePending);
    var fails, u := WorkOff(s, false);
    ExecConcat(Step, Init(db, 2), run, fails);
    assert StaleBy(db, run + fails, key, DeleteFailed);
    RaceOccurs(db, op, key);
  }

  lemma RaceOccurs(db: Db, op: Op, key: Key)
    requires Commits(db, op) && key in Invalidated(op)
    requires Found(Lookup(db, key)) && Lookup(Apply(db, op), key) != Lookup(db, key)
    ensures exists run :: StaleBy(db, run, key, DeleteBeforeFill)
  {
    hide Lookup, Apply, Commits, Found;
    var run, s := ReadThenCommit(db, op, key);
    var dels, u := WorkOff(s, true);
    ExecConcat(Step, Init(db, 2), run, dels);
    var v := Step(u, Fill(0, true)).value;
    ExecChain(Step, [u, v], [Fill(0, true)]);
    ExecConcat(Step, Init(db, 2), run + dels, [Fill(0, true)]);
    assert StaleBy(db, run + dels + [Fill(0, true)], key, DeleteBeforeFill);
  }
}
