/**
 * The chat store (companion/database.py): a `chat_threads` table and a
 * `messages` table, modelled as sequences of rows in insertion order, with
 * SQLite's AUTOINCREMENT counters.  Clock readings (`CURRENT_TIMESTAMP`) are
 * parameters.  The foreign key from messages to threads is not enforced, as
 * in SQLite with foreign keys off, and a message's thread id may be NULL.
 */
module CompanionDatabase {
  import opened Wrappers

  /** A row of `chat_threads`. */
  datatype Thread = Thread(id: int, title: string, createdAt: int)

  /** A row of `messages`; `threadId` is `None` for a NULL thread id. */
  datatype Message = Message(id: int, threadId: Option<int>, role: string, content: string, timestamp: int)

  /** The title reported for a thread id with no row. */
  const DefaultTitle := "New Chat"

  // ---------------------------------------------------------------------------
  // Column projections and sorting (SELECT columns ... ORDER BY)
  // ---------------------------------------------------------------------------

  function Map<T, U>(s: seq<T>, f: T -> U): (r: seq<U>)
    ensures |r| == |s|
    ensures forall k :: 0 <= k < |s| ==> r[k] == f(s[k])
  {
    if s == [] then [] else [f(s[0])] + Map(s[1..], f)
  }

  lemma MapConcat<T, U>(a: seq<T>, b: seq<T>, f: T -> U)
    ensures Map(a + b, f) == Map(a, f) + Map(b, f)
  {
    assert forall k :: 0 <= k < |a| + |b| ==> Map(a + b, f)[k] == (Map(a, f) + Map(b, f))[k];
  }

  /** Projecting the rows of two permutations gives two permutations. */
  lemma {:induction false} MapPermutation<T, U>(a: seq<T>, b: seq<T>, f: T -> U)
    requires multiset(a) == multiset(b)
    ensures multiset(Map(a, f)) == multiset(Map(b, f))
    decreases |a|
  {
    if a == [] {
      assert |b| == |multiset(b)| == 0;
    } else {
      var x := a[0];
      assert x in multiset(b);
      var k :| 0 <= k < |b| && b[k] == x;
      var rest := b[..k] + b[k + 1..];
      assert b == b[..k] + [x] + b[k + 1..];
      assert a == [x] + a[1..];
      assert multiset(b) == multiset(b[..k]) + multiset{x} + multiset(b[k + 1..]);
      assert multiset(rest) == multiset(b[..k]) + multiset(b[k + 1..]);
      assert multiset(a) == multiset{x} + multiset(a[1..]);
      assert multiset(a[1..]) == multiset(a) - multiset{x};
      assert multiset(rest) == multiset(b) - multiset{x};
      MapPermutation(a[1..], rest, f);
      MapConcat(b[..k] + [x], b[k + 1..], f);
      MapConcat(b[..k], [x], f);
      MapConcat(b[..k], b[k + 1..], f);
      MapConcat([x], a[1..], f);
    }
  }

  ghost predicate SortedBy<T>(s: seq<T>, key: T -> int)
  {
    forall a, b :: 0 <= a < b < |s| ==> key(s[a]) <= key(s[b])
  }

  /** A sorted sequence stays sorted under a new first element no larger than its head. */
  lemma ConsSorted<T>(y: T, r: seq<T>, key: T -> int)
    requires SortedBy(r, key)
    requires r != [] ==> key(y) <= key(r[0])
    ensures SortedBy([y] + r, key)
  {
  }

  function Insert<T>(x: T, s: seq<T>, key: T -> int): (r: seq<T>)
    requires SortedBy(s, key)
    ensures SortedBy(r, key)
    ensures multiset(r) == multiset{x} + multiset(s)
    ensures r[0] == x || (s != [] && r[0] == s[0])
    decreases |s|
  {
    if s == [] || key(x) <= key(s[0]) then
      ConsSorted(x, s, key);
      [x] + s
    else
      var rest := Insert(x, s[1..], key);
      assert s == [s[0]] + s[1..];
      ConsSorted(s[0], rest, key);
      [s[0]] + rest
  }

  /** A stable insertion sort: the result is ordered by `key` and a permutation of `s`. */
  function SortBy<T>(s: seq<T>, key: T -> int): (r: seq<T>)
    ensures SortedBy(r, key)
    ensures multiset(r) == multiset(s)
    decreases |s|
  {
    if s == [] then []
    else
      assert s == [s[0]] + s[1..];
      Insert(s[0], SortBy(s[1..], key), key)
  }

  /** `ORDER BY created_at DESC` as an ascending key. */
  function NewestFirst(t: Thread): int
  {
    -t.createdAt
  }

  /** `ORDER BY timestamp`. */
  function Timestamp(m: Message): int
  {
    m.timestamp
  }

  /** `SELECT id, title`. */
  function Row(t: Thread): (int, string)
  {
    (t.id, t.title)
  }

  /** `SELECT role, content`. */
  function Pair(m: Message): (string, string)
  {
    (m.role, m.content)
  }

  // ---------------------------------------------------------------------------
  // Keys and lookups
  // ---------------------------------------------------------------------------

  /** AUTOINCREMENT ids never go down, so the table in insertion order has strictly increasing ids. */
  ghost predicate ThreadIdsIncreasing(ts: seq<Thread>)
  {
    forall a, b :: 0 <= a < b < |ts| ==> ts[a].id < ts[b].id
  }

  ghost predicate MessageIdsIncreasing(ms: seq<Message>)
  {
    forall a, b :: 0 <= a < b < |ms| ==> ms[a].id < ms[b].id
  }

  /**
   * What SQLite guarantees of a stored database: primary keys issued in
   * increasing order and never above the table's `sqlite_sequence` entry.
   */
  ghost predicate TablesWellFormed(ts: seq<Thread>, ms: seq<Message>, threadSeq: nat, messageSeq: nat)
  {
    && ThreadIdsIncreasing(ts) && (forall t :: t in ts ==> 0 < t.id <= threadSeq)
    && MessageIdsIncreasing(ms) && (forall m :: m in ms ==> 0 < m.id <= messageSeq)
  }

  /** `SELECT ... FROM chat_threads WHERE id = ?`, first row. */
  function FindThread(ts: seq<Thread>, id: int): (r: Option<Thread>)
    ensures r.Some? ==> r.value in ts && r.value.id == id
    ensures r.None? <==> forall k :: 0 <= k < |ts| ==> ts[k].id != id
  {
    if ts == [] then None
    else if ts[0].id == id then Some(ts[0])
    else FindThread(ts[1..], id)
  }

  /** With unique ids the lookup finds the one row carrying the id. */
  lemma FindMember(ts: seq<Thread>, t: Thread)
    requires ThreadIdsIncreasing(ts) && t in ts
    ensures FindThread(ts, t.id) == Some(t)
  {
    var j :| 0 <= j < |ts| && ts[j] == t;
    var u := FindThread(ts, t.id).value;
    var i :| 0 <= i < |ts| && ts[i] == u;
    assert i == j;
  }

  /** The creation time of the thread with id `id` (0 when there is none). */
  function CreatedAtOf(ts: seq<Thread>, id: int): int
  {
    match FindThread(ts, id)
    case Some(t) => t.createdAt
    case None => 0
  }

  lemma ListedNewestFirst(ts: seq<Thread>, rows: seq<(int, string)>)
    requires ThreadIdsIncreasing(ts)
    requires rows == Map(SortBy(ts, NewestFirst), Row)
    ensures forall a, b :: 0 <= a < b < |rows| ==> CreatedAtOf(ts, rows[a].0) >= CreatedAtOf(ts, rows[b].0)
  {
    var s := SortBy(ts, NewestFirst);
    forall a, b | 0 <= a < b < |rows|
      ensures CreatedAtOf(ts, rows[a].0) >= CreatedAtOf(ts, rows[b].0)
    {
      assert rows[a].0 == s[a].id && rows[b].0 == s[b].id;
      assert s[a] in multiset(s) && s[b] in multiset(s);
      FindMember(ts, s[a]);
      FindMember(ts, s[b]);
      assert NewestFirst(s[a]) <= NewestFirst(s[b]);
    }
  }

  // ---------------------------------------------------------------------------
  // WHERE thread_id = ?
  // ---------------------------------------------------------------------------

  /** SQL `thread_id = t`: never true when either side is NULL. */
  predicate Matches(m: Message, t: Option<int>)
  {
    t.Some? && m.threadId == t
  }

  /** The messages of `ms` that belong to thread `t`, in table order. */
  function Where(ms: seq<Message>, t: Option<int>): seq<Message>
  {
    if ms == [] then []
    else (if Matches(ms[0], t) then [ms[0]] else []) + Where(ms[1..], t)
  }

  /** The selection holds exactly the messages of thread `t`. */
  lemma {:induction false} WhereMembers(ms: seq<Message>, t: Option<int>, m: Message)
    ensures m in Where(ms, t) <==> m in ms && Matches(m, t)
  {
    if ms != [] {
      WhereMembers(ms[1..], t, m);
      assert ms == [ms[0]] + ms[1..];
    }
  }

  /** Appending a message extends the selection of its own thread only. */
  lemma {:induction false} WhereAppend(ms: seq<Message>, m: Message, t: Option<int>)
    ensures Where(ms + [m], t) == Where(ms, t) + (if Matches(m, t) then [m] else [])
  {
    if ms != [] {
      assert (ms + [m])[0] == ms[0];
      assert (ms + [m])[1..] == ms[1..] + [m];
      WhereAppend(ms[1..], m, t);
    } else {
      assert [m][1..] == [];
    }
  }

  lemma MapMember<T, U>(s: seq<T>, x: T, f: T -> U)
    requires x in s
    ensures f(x) in Map(s, f)
  {
    var k :| 0 <= k < |s| && s[k] == x;
    assert Map(s, f)[k] == f(x);
  }

  /** A message appended to thread `t` shows up in that thread's ordered selection. */
  lemma SavedMessageListed(ms: seq<Message>, m: Message, t: Option<int>)
    requires Matches(m, t)
    ensures Pair(m) in Map(SortBy(Where(ms + [m], t), Timestamp), Pair)
  {
    var w := Where(ms + [m], t);
    WhereAppend(ms, m, t);
    assert w[|w| - 1] == m;
    var sel := SortBy(w, Timestamp);
    assert m in multiset(w);
    assert m in multiset(sel);
    MapMember(sel, m, Pair);
  }

  // ---------------------------------------------------------------------------
  // UPDATE chat_threads SET title = ? WHERE id = ?
  // ---------------------------------------------------------------------------

  function Retitle(ts: seq<Thread>, id: int, title: string): (r: seq<Thread>)
    ensures |r| == |ts|
    ensures forall k :: 0 <= k < |ts| ==>
      r[k] == if ts[k].id == id then ts[k].(title := title) else ts[k]
  {
    if ts == [] then []
    else [if ts[0].id == id then ts[0].(title := title) else ts[0]] + Retitle(ts[1..], id, title)
  }

  /** Running the same UPDATE twice leaves the table as running it once. */
  lemma {:induction false} RetitleIdempotent(ts: seq<Thread>, id: int, title: string)
    ensures Retitle(Retitle(ts, id, title), id, title) == Retitle(ts, id, title)
  {
    if ts != [] {
      RetitleIdempotent(ts[1..], id, title);
      assert Retitle(ts, id, title)[1..] == Retitle(ts[1..], id, title);
    }
  }

  /** An UPDATE for an id no row carries changes nothing. */
  lemma {:induction false} RetitleUnknownIsNoop(ts: seq<Thread>, id: int, title: string)
    requires forall k :: 0 <= k < |ts| ==> ts[k].id != id
    ensures Retitle(ts, id, title) == ts
  {
    if ts != [] {
      RetitleUnknownIsNoop(ts[1..], id, title);
    }
  }

  // ---------------------------------------------------------------------------
  // SELECT id FROM chat_threads WHERE id NOT IN (SELECT DISTINCT thread_id FROM messages)
  // ---------------------------------------------------------------------------

  /** SQL's three truth values. */
  datatype SqlBool = SqlTrue | SqlFalse | SqlNull

  function SqlAnd(a: SqlBool, b: SqlBool): SqlBool
  {
    if a == SqlFalse || b == SqlFalse then SqlFalse
    else if a == SqlNull || b == SqlNull then SqlNull
    else SqlTrue
  }

  /** `x <> v`, NULL when `v` is NULL. */
  function SqlNotEqual(x: int, v: Option<int>): SqlBool
  {
    match v
    case None => SqlNull
    case Some(y) => if x != y then SqlTrue else SqlFalse
  }

  /** `x NOT IN (v1, ..., vn)`, which SQL defines as `x <> v1 AND ... AND x <> vn`. */
  function NotIn(x: int, vs: seq<Option<int>>): SqlBool
  {
    if vs == [] then SqlTrue else SqlAnd(SqlNotEqual(x, vs[0]), NotIn(x, vs[1..]))
  }

  /** `NOT IN` holds exactly when the value is absent and no NULL is present. */
  lemma {:induction false} NotInTrue(x: int, vs: seq<Option<int>>)
    ensures NotIn(x, vs) == SqlTrue <==> Some(x) !in vs && None !in vs
  {
    if vs != [] {
      NotInTrue(x, vs[1..]);
      assert vs == [vs[0]] + vs[1..];
    }
  }

  /** `SELECT thread_id FROM messages`; DISTINCT does not change what NOT IN decides. */
  function ThreadIdColumn(ms: seq<Message>): seq<Option<int>>
  {
    Map(ms, (m: Message) => m.threadId)
  }

  /** The ids of the rows of `ts` that the NOT IN condition selects, in table order. */
  function EmptyThreadIds(ts: seq<Thread>, column: seq<Option<int>>): seq<int>
  {
    if ts == [] then []
    else
      (if NotIn(ts[0].id, column) == SqlTrue then [ts[0].id] else []) + EmptyThreadIds(ts[1..], column)
  }

  /** An id is selected exactly when it is the id of a row and NOT IN holds for it. */
  lemma {:induction false} EmptyThreadIdsMembers(ts: seq<Thread>, column: seq<Option<int>>, id: int)
    ensures id in EmptyThreadIds(ts, column)
      <==> (exists k :: 0 <= k < |ts| && ts[k].id == id) && NotIn(id, column) == SqlTrue
  {
    if ts != [] {
      EmptyThreadIdsMembers(ts[1..], column, id);
      if exists k :: 0 <= k < |ts[1..]| && ts[1..][k].id == id {
        var k :| 0 <= k < |ts[1..]| && ts[1..][k].id == id;
        assert ts[k + 1].id == id;
      }
      if exists k :: 0 <= k < |ts| && ts[k].id == id {
        var k :| 0 <= k < |ts| && ts[k].id == id;
        if k > 0 {
          assert ts[1..][k - 1].id == id;
        }
      }
    }
  }

  // ---------------------------------------------------------------------------
  // DELETE FROM chat_threads WHERE id = ?
  // ---------------------------------------------------------------------------

  /** The rows of `ts` whose id is not in `ids`, in table order. */
  function WithoutIds(ts: seq<Thread>, ids: seq<int>): seq<Thread>
  {
    if ts == [] then []
    else (if ts[0].id in ids then [] else [ts[0]]) + WithoutIds(ts[1..], ids)
  }

  /** A row survives exactly when its id is not among the deleted ones. */
  lemma {:induction false} WithoutIdsMembers(ts: seq<Thread>, ids: seq<int>, t: Thread)
    ensures t in WithoutIds(ts, ids) <==> t in ts && t.id !in ids
  {
    if ts != [] {
      WithoutIdsMembers(ts[1..], ids, t);
      assert ts == [ts[0]] + ts[1..];
    }
  }

  /** Deleting one more id after a batch is the same as deleting the longer batch. */
  lemma {:induction false} WithoutIdsStep(ts: seq<Thread>, ids: seq<int>, x: int)
    ensures WithoutIds(WithoutIds(ts, ids), [x]) == WithoutIds(ts, ids + [x])
  {
    if ts != [] {
      WithoutIdsStep(ts[1..], ids, x);
      var head := if ts[0].id in ids then [] else [ts[0]];
      assert WithoutIds(ts, ids) == head + WithoutIds(ts[1..], ids);
      WithoutIdsConcat(head, WithoutIds(ts[1..], ids), [x]);
    }
  }

  lemma {:induction false} WithoutIdsConcat(a: seq<Thread>, b: seq<Thread>, ids: seq<int>)
    ensures WithoutIds(a + b, ids) == WithoutIds(a, ids) + WithoutIds(b, ids)
  {
    if a != [] {
      assert (a + b)[0] == a[0];
      assert (a + b)[1..] == a[1..] + b;
      WithoutIdsConcat(a[1..], b, ids);
    } else {
      assert a + b == b;
    }
  }

  /** Deleting ids no row carries leaves the table as it was. */
  lemma {:induction false} WithoutIdsNoop(ts: seq<Thread>, ids: seq<int>)
    requires forall k :: 0 <= k < |ts| ==> ts[k].id !in ids
    ensures WithoutIds(ts, ids) == ts
  {
    if ts != [] {
      WithoutIdsNoop(ts[1..], ids);
    }
  }

  /** Deleting rows keeps the survivors in their order. */
  lemma {:induction false} WithoutIdsKeepsOrder(ts: seq<Thread>, ids: seq<int>)
    requires ThreadIdsIncreasing(ts)
    ensures ThreadIdsIncreasing(WithoutIds(ts, ids))
  {
    if ts != [] {
      WithoutIdsKeepsOrder(ts[1..], ids);
      var rest := WithoutIds(ts[1..], ids);
      forall k | 0 <= k < |rest|
        ensures ts[0].id < rest[k].id
      {
        assert rest[k] in rest;
        WithoutIdsMembers(ts[1..], ids, rest[k]);
        var j :| 0 <= j < |ts[1..]| && ts[1..][j] == rest[k];
        assert ts[j + 1] == rest[k];
      }
    }
  }

  /** The cleanup pass as one function: select the empty ids, then delete each. */
  function DeleteEmptyThreads(ts: seq<Thread>, ms: seq<Message>): seq<Thread>
  {
    WithoutIds(ts, EmptyThreadIds(ts, ThreadIdColumn(ms)))
  }

  /**
   * The cleanup keeps a thread exactly when some message refers to it or some
   * message has a NULL thread id.
   */
  lemma DeleteEmptyThreadsKeeps(ts: seq<Thread>, ms: seq<Message>, t: Thread)
    ensures t in DeleteEmptyThreads(ts, ms)
      <==> t in ts && (Some(t.id) in ThreadIdColumn(ms) || None in ThreadIdColumn(ms))
  {
    var column := ThreadIdColumn(ms);
    NotInTrue(t.id, column);
    WithoutIdsMembers(ts, EmptyThreadIds(ts, column), t);
    EmptyThreadIdsMembers(ts, column, t.id);
    if t in ts {
      var k :| 0 <= k < |ts| && ts[k] == t;
    }
  }

  /** A single message with a NULL thread id makes the NOT IN never true: nothing is deleted. */
  lemma NullThreadIdBlocksCleanup(ts: seq<Thread>, ms: seq<Message>)
    requires None in ThreadIdColumn(ms)
    ensures DeleteEmptyThreads(ts, ms) == ts
  {
    var column := ThreadIdColumn(ms);
    forall k | 0 <= k < |ts|
      ensures ts[k].id !in EmptyThreadIds(ts, column)
    {
      NotInTrue(ts[k].id, column);
      EmptyThreadIdsMembers(ts, column, ts[k].id);
    }
    WithoutIdsNoop(ts, EmptyThreadIds(ts, column));
  }

  /** Running the cleanup twice over the same messages deletes nothing more. */
  lemma DeleteEmptyThreadsIdempotent(ts: seq<Thread>, ms: seq<Message>)
    ensures DeleteEmptyThreads(DeleteEmptyThreads(ts, ms), ms) == DeleteEmptyThreads(ts, ms)
  {
    var column := ThreadIdColumn(ms);
    var kept := DeleteEmptyThreads(ts, ms);
    var again := EmptyThreadIds(kept, column);
    forall k | 0 <= k < |kept|
      ensures kept[k].id !in again
    {
      assert kept[k] in kept;
      WithoutIdsMembers(ts, EmptyThreadIds(ts, column), kept[k]);
      var j :| 0 <= j < |ts| && ts[j] == kept[k];
      EmptyThreadIdsMembers(ts, column, kept[k].id);
      EmptyThreadIdsMembers(kept, column, kept[k].id);
    }
    WithoutIdsNoop(kept, again);
  }

  lemma AppendMessageKeepsTablesWellFormed(ts: seq<Thread>, ms: seq<Message>, threadSeq: nat, messageSeq: nat, m: Message)
    requires TablesWellFormed(ts, ms, threadSeq, messageSeq) && m.id == messageSeq + 1
    ensures TablesWellFormed(ts, ms + [m], threadSeq, messageSeq + 1)
  {
    forall a | 0 <= a < |ms|
      ensures ms[a].id < m.id
    {
      assert ms[a] in ms;
    }
  }

  lemma AppendThreadKeepsTablesWellFormed(ts: seq<Thread>, ms: seq<Message>, threadSeq: nat, messageSeq: nat, t: Thread)
    requires TablesWellFormed(ts, ms, threadSeq, messageSeq) && t.id == threadSeq + 1
    ensures TablesWellFormed(ts + [t], ms, threadSeq + 1, messageSeq)
  {
    forall a | 0 <= a < |ts|
      ensures ts[a].id < t.id
    {
      assert ts[a] in ts;
    }
  }

  lemma RetitleKeepsTablesWellFormed(ts: seq<Thread>, ms: seq<Message>, threadSeq: nat, messageSeq: nat,
                                      id: int, title: string)
    requires TablesWellFormed(ts, ms, threadSeq, messageSeq)
    ensures TablesWellFormed(Retitle(ts, id, title), ms, threadSeq, messageSeq)
  {
    var r := Retitle(ts, id, title);
    forall t | t in r
      ensures 0 < t.id <= threadSeq
    {
      var k :| 0 <= k < |r| && r[k] == t;
      assert ts[k] in ts;
    }
  }

  lemma DeleteKeepsTablesWellFormed(ts: seq<Thread>, ms: seq<Message>, threadSeq: nat, messageSeq: nat,
                                     ids: seq<int>)
    requires TablesWellFormed(ts, ms, threadSeq, messageSeq)
    ensures TablesWellFormed(WithoutIds(ts, ids), ms, threadSeq, messageSeq)
  {
    WithoutIdsKeepsOrder(ts, ids);
    forall t | t in WithoutIds(ts, ids)
      ensures 0 < t.id <= threadSeq
    {
      WithoutIdsMembers(ts, ids, t);
    }
  }

  // ---------------------------------------------------------------------------
  // The database object
  // ---------------------------------------------------------------------------

  class Database {
    var threads: seq<Thread>
    var messages: seq<Message>
    /** The `sqlite_sequence` entries: the largest id ever issued in each table. */
    var threadSeq: nat
    var messageSeq: nat

    ghost predicate Valid()
      reads this
    {
      TablesWellFormed(threads, messages, threadSeq, messageSeq)
    }

    /**
     * Opening the database file (empty tables for a new file) and the
     * cleanup pass that every construction runs.
     */
    constructor Open(storedThreads: seq<Thread>, storedMessages: seq<Message>,
                     storedThreadSeq: nat, storedMessageSeq: nat)
      requires TablesWellFormed(storedThreads, storedMessages, storedThreadSeq, storedMessageSeq)
      ensures Valid()
      ensures threads == DeleteEmptyThreads(storedThreads, storedMessages)
      ensures messages == storedMessages
      ensures threadSeq == storedThreadSeq && messageSeq == storedMessageSeq
    {
      threads := storedThreads;
      messages := storedMessages;
      threadSeq := storedThreadSeq;
      messageSeq := storedMessageSeq;
      new;
      DeleteEmptyChats();
    }

    /** `create_thread`: insert a row with the next AUTOINCREMENT id and return that id. */
    method CreateThread(title: string, now: int) returns (id: int)
      requires Valid()
      modifies this`threads, this`threadSeq
      ensures Valid()
      ensures id == old(threadSeq) + 1 && threadSeq == id
      ensures forall t :: t in old(threads) ==> t.id < id
      ensures threads == old(threads) + [Thread(id, title, now)]
      ensures GetThreadTitle(id) == title
    {
      id := threadSeq + 1;
      AppendThreadKeepsTablesWellFormed(threads, messages, threadSeq, messageSeq, Thread(id, title, now));
      threads := threads + [Thread(id, title, now)];
      threadSeq := id;
      assert threads[|threads| - 1].id == id;
    }

    /** `get_threads`: every thread once as `(id, title)`, newest first. */
    function GetThreads(): (rows: seq<(int, string)>)
      reads this
      requires Valid()
      ensures multiset(rows) == multiset(Map(threads, Row))
      ensures forall a, b :: 0 <= a < b < |rows| ==>
        CreatedAtOf(threads, rows[a].0) >= CreatedAtOf(threads, rows[b].0)
    {
      var rows := Map(SortBy(threads, NewestFirst), Row);
      MapPermutation(SortBy(threads, NewestFirst), threads, Row);
      ListedNewestFirst(threads, rows);
      rows
    }

    /** `save_message`: insert one message row; the thread is not checked. */
    method SaveMessage(threadId: Option<int>, role: string, content: string, now: int)
      requires Valid()
      modifies this`messages, this`messageSeq
      ensures Valid()
      ensures messageSeq == old(messageSeq) + 1
      ensures messages == old(messages) + [Message(messageSeq, threadId, role, content, now)]
      ensures threadId.Some? ==> (role, content) in GetMessages(threadId)
    {
      var m := Message(messageSeq + 1, threadId, role, content, now);
      AppendMessageKeepsTablesWellFormed(threads, messages, threadSeq, messageSeq, m);
      messages := messages + [m];
      messageSeq := messageSeq + 1;
      if threadId.Some? {
        SavedMessageListed(old(messages), m, threadId);
      }
    }

    /** The message rows of thread `t`, ordered by timestamp. */
    function SelectMessages(t: Option<int>): (sel: seq<Message>)
      reads this
      ensures multiset(sel) == multiset(Where(messages, t))
      ensures SortedBy(sel, Timestamp)
    {
      SortBy(Where(messages, t), Timestamp)
    }

    /** `get_messages`: the `(role, content)` of every message of thread `t`, oldest first. */
    function GetMessages(t: Option<int>): (pairs: seq<(string, string)>)
      reads this
      ensures multiset(pairs) == multiset(Map(Where(messages, t), Pair))
      ensures |pairs| == |SelectMessages(t)|
      ensures forall k :: 0 <= k < |pairs| ==> pairs[k] == Pair(SelectMessages(t)[k])
    {
      MapPermutation(SelectMessages(t), Where(messages, t), Pair);
      Map(SelectMessages(t), Pair)
    }

    /** `get_thread_title`: the thread's title, or "New Chat" when no row has the id. */
    function GetThreadTitle(id: int): (title: string)
      reads this
      requires Valid()
      ensures forall k :: 0 <= k < |threads| && threads[k].id == id ==> title == threads[k].title
      ensures (forall k :: 0 <= k < |threads| ==> threads[k].id != id) ==> title == DefaultTitle
    {
      match FindThread(threads, id)
      case Some(t) =>
        assert forall k :: 0 <= k < |threads| && threads[k].id == id ==> threads[k] == t by {
          forall k | 0 <= k < |threads| && threads[k].id == id
            ensures threads[k] == t
          {
            FindMember(threads, threads[k]);
          }
        }
        t.title
      case None => DefaultTitle
    }

    /** `update_thread_title`: retitle the row with that id, if any. */
    method UpdateThreadTitle(id: int, newTitle: string)
      requires Valid()
      modifies this`threads
      ensures Valid()
      ensures threads == Retitle(old(threads), id, newTitle)
      ensures forall k :: 0 <= k < |threads| && threads[k].id == id ==> GetThreadTitle(id) == newTitle
    {
      RetitleKeepsTablesWellFormed(threads, messages, threadSeq, messageSeq, id, newTitle);
      threads := Retitle(threads, id, newTitle);
    }

    /** `delete_empty_chats`: select the ids NOT IN the messages' thread ids, then delete them one by one. */
    method DeleteEmptyChats()
      requires Valid()
      modifies this`threads
      ensures Valid()
      ensures threads == DeleteEmptyThreads(old(threads), messages)
    {
      var emptyThreadIds := EmptyThreadIds(threads, ThreadIdColumn(messages));
      if emptyThreadIds != [] {
        var k := 0;
        WithoutIdsNoop(threads, []);
        while k < |emptyThreadIds|
          invariant 0 <= k <= |emptyThreadIds|
          invariant threads == WithoutIds(old(threads), emptyThreadIds[..k])
        {
          WithoutIdsStep(old(threads), emptyThreadIds[..k], emptyThreadIds[k]);
          assert emptyThreadIds[..k + 1] == emptyThreadIds[..k] + [emptyThreadIds[k]];
          threads := WithoutIds(threads, [emptyThreadIds[k]]);
          k := k + 1;
        }
        assert emptyThreadIds[..|emptyThreadIds|] == emptyThreadIds;
      } else {
        WithoutIdsNoop(threads, emptyThreadIds);
      }
      DeleteKeepsTablesWellFormed(old(threads), messages, threadSeq, messageSeq, emptyThreadIds);
    }
  }
}
