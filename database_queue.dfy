/**
 * The table-backed queue driver (`DatabaseQueue` in src/helpers/queue.ts).
 *
 * Jobs are rows `{ id, queue, item, formerQueue? }` of one table. The driver
 * remembers an active queue name and issues one query per step: an insert for
 * `add`, a "newest row of this queue" select for `peek`, that select followed by
 * a delete of the row for `pop`, a count for `length` and `isEmpty`. Because the
 * select orders by `id` descending, this driver is last-in first-out.
 *
 * The table is modelled as its rows in insertion order together with the
 * counter the database draws ids from; the queries are the functions below.
 */
module DatabaseQueues {
  import opened Optional
  import opened QueueValues

  /** One row of the jobs table; `formerQueue` is set on dead-letter rows only. */
  datatype Row<T> = Row(id: nat, queue: string, item: Value<T>, formerQueue: Option<string>)

  /** The jobs table: its rows in insertion order and the id the next insert receives. */
  datatype Table<T> = Table(rows: seq<Row<T>>, nextId: nat)

  /** Ids come from an increasing counter: they rise along the rows and stay below the counter. */
  predicate IdsIncreasing<T>(rows: seq<Row<T>>) {
    forall i, j :: 0 <= i < j < |rows| ==> rows[i].id < rows[j].id
  }

  predicate WellFormed<T>(t: Table<T>) {
    IdsIncreasing(t.rows) && forall i :: 0 <= i < |t.rows| ==> t.rows[i].id < t.nextId
  }

  /** `create({ queue, item, formerQueue })`: a new row under the next id. */
  function Inserted<T>(t: Table<T>, queue: string, item: Value<T>, formerQueue: Option<string>): (r: Table<T>)
    ensures WellFormed(t) ==> WellFormed(r)
    ensures |r.rows| == |t.rows| + 1 && r.rows[..|t.rows|] == t.rows
    ensures r.rows[|t.rows|] == Row(t.nextId, queue, item, formerQueue)
  {
    Table(t.rows + [Row(t.nextId, queue, item, formerQueue)], t.nextId + 1)
  }

  /** `where('queue', queue).count()`: the number of rows tagged `queue`. */
  function Count<T>(rows: seq<Row<T>>, queue: string): nat
  {
    if rows == [] then 0
    else Count(rows[..|rows| - 1], queue) + (if rows[|rows| - 1].queue == queue then 1 else 0)
  }

  /**
   * `where('queue', queue).orderBy('id', 'DESC').find()`: the row tagged `queue`
   * with the largest id, if there is one.
   */
  function Newest<T>(rows: seq<Row<T>>, queue: string): (r: Option<Row<T>>)
    ensures r.None? <==> forall row :: row in rows ==> row.queue != queue
    ensures r.Some? ==> r.value in rows && r.value.queue == queue
    ensures r.Some? ==> forall row :: row in rows && row.queue == queue ==> row.id <= r.value.id
  {
    if rows == [] then None
    else
      var last := rows[|rows| - 1];
      var rest := Newest(rows[..|rows| - 1], queue);
      assert rows == rows[..|rows| - 1] + [last];
      if last.queue != queue then rest
      else if rest.Some? && rest.value.id > last.id then rest
      else Some(last)
  }

  /** `where('id', id).where('queue', queue).delete()`: drop the rows carrying both. */
  function Deleted<T>(rows: seq<Row<T>>, id: nat, queue: string): (r: seq<Row<T>>)
    ensures |r| <= |rows|
  {
    if rows == [] then []
    else
      var last := rows[|rows| - 1];
      assert rows == rows[..|rows| - 1] + [last];
      Deleted(rows[..|rows| - 1], id, queue) + (if last.id == id && last.queue == queue then [] else [last])
  }

  /** `truncate()`: every row is gone, whatever its queue. */
  function Truncated<T>(t: Table<T>): Table<T> {
    t.(rows := [])
  }

  /** `add(item)`: insert a row tagged with the active queue. */
  function Added<T>(t: Table<T>, queue: string, item: Value<T>): Table<T> {
    Inserted(t, queue, item, None)
  }

  /** `pop()`: `undefined` when no row is tagged `queue`, otherwise the newest such row's item, deleted. */
  function Popped<T>(rows: seq<Row<T>>, queue: string): (Value<T>, seq<Row<T>>) {
    match Newest(rows, queue)
    case None => (Undefined, rows)
    case Some(row) => (row.item, Deleted(rows, row.id, queue))
  }

  /** `peek()`: `null` when no row is tagged `queue`, otherwise the newest such row's item. */
  function Peeked<T>(rows: seq<Row<T>>, queue: string): Value<T> {
    match Newest(rows, queue)
    case None => Null
    case Some(row) => row.item
  }

  /**
   * `process(processor)`: pop once, hand the popped value (possibly `undefined`)
   * to the processor and, if it throws, insert a row into the dead-letter queue
   * that remembers the queue it came from.
   */
  function Processed<T>(t: Table<T>, queue: string, deadLetter: string, processor: Processor<T>): Table<T> {
    var (data, rows) := Popped(t.rows, queue);
    if processor(data) then t.(rows := rows)
    else Inserted(t.(rows := rows), deadLetter, data, Some(queue))
  }

  /** A run of `add` calls on `queue`, one per element of `items`, in order. */
  function AddedAll<T>(t: Table<T>, queue: string, items: seq<Value<T>>): (r: Table<T>)
    ensures WellFormed(t) ==> WellFormed(r)
    ensures t.nextId <= r.nextId
  {
    if items == [] then t
    else Added(AddedAll(t, queue, items[..|items| - 1]), queue, items[|items| - 1])
  }

  /** A run of `n` calls of `pop` on `queue`, with the values they return, in order. */
  function PoppedMany<T>(rows: seq<Row<T>>, queue: string, n: nat): (seq<Value<T>>, seq<Row<T>>)
    decreases n
  {
    if n == 0 then ([], rows)
    else
      var (x, next) := Popped(rows, queue);
      var (rest, last) := PoppedMany(next, queue, n - 1);
      ([x] + rest, last)
  }

  function Reversed<T>(s: seq<T>): (r: seq<T>)
    ensures |r| == |s|
  {
    if s == [] then [] else [s[|s| - 1]] + Reversed(s[..|s| - 1])
  }

  /** The `k`-th element of the reversal is the `k`-th from the end: newest first. */
  lemma {:induction false} ReversedIndex<T>(s: seq<T>, k: nat)
    requires k < |s|
    ensures Reversed(s)[k] == s[|s| - 1 - k]
    decreases |s|
  {
    if k > 0 {
      ReversedIndex(s[..|s| - 1], k - 1);
    }
  }

  lemma {:induction false} CountAppend<T>(a: seq<Row<T>>, b: seq<Row<T>>, queue: string)
    ensures Count(a + b, queue) == Count(a, queue) + Count(b, queue)
    decreases |b|
  {
    if b == [] {
      assert a + b == a;
    } else {
      var b' := b[..|b| - 1];
      assert (a + b)[..|a + b| - 1] == a + b';
      CountAppend(a, b', queue);
    }
  }

  /** Deleting by an id no row carries leaves the rows as they were. */
  lemma {:induction false} DeleteAbsentId<T>(rows: seq<Row<T>>, id: nat, queue: string)
    requires forall i :: 0 <= i < |rows| ==> rows[i].id != id
    ensures Deleted(rows, id, queue) == rows
  {
    if rows != [] {
      DeleteAbsentId(rows[..|rows| - 1], id, queue);
      assert rows == rows[..|rows| - 1] + [rows[|rows| - 1]];
    }
  }

  /** With unique ids, deleting by the id and queue of row `i` removes that row and only it, in place. */
  lemma {:induction false} DeleteRemovesOneRow<T>(rows: seq<Row<T>>, i: nat, queue: string)
    requires IdsIncreasing(rows) && i < |rows| && rows[i].queue == queue
    ensures Deleted(rows, rows[i].id, queue) == rows[..i] + rows[i + 1..]
    decreases |rows|
  {
    var prefix := rows[..|rows| - 1];
    var last := rows[|rows| - 1];
    assert rows == prefix + [last];
    if i == |rows| - 1 {
      forall k | 0 <= k < |prefix| ensures prefix[k].id != rows[i].id {
        assert prefix[k] == rows[k];
      }
      DeleteAbsentId(prefix, rows[i].id, queue);
      assert rows[..i] + rows[i + 1..] == prefix;
    } else {
      assert IdsIncreasing(prefix) by {
        forall a, b | 0 <= a < b < |prefix| ensures prefix[a].id < prefix[b].id {
          assert prefix[a] == rows[a] && prefix[b] == rows[b];
        }
      }
      assert last.id != rows[i].id;
      DeleteRemovesOneRow(prefix, i, queue);
      assert Deleted(rows, rows[i].id, queue) == Deleted(prefix, rows[i].id, queue) + [last];
      assert prefix[..i] + prefix[i + 1..] + [last] == rows[..i] + rows[i + 1..];
    }
  }

  /**
   * The database driver's `pop` removes exactly the row with the largest id
   * among those tagged with the active queue, returns its item, and leaves every
   * other row where it was; `peek` returns the same item and deletes nothing.
   * When no row is tagged with the queue, `pop` returns `undefined`, `peek`
   * returns `null`, and the table is unchanged.
   */
  lemma PopRemovesNewestRow<T>(t: Table<T>, queue: string)
    requires WellFormed(t)
    ensures Count(t.rows, queue) == 0 ==> Popped(t.rows, queue) == (Undefined, t.rows)
    ensures Count(t.rows, queue) == 0 ==> Peeked(t.rows, queue) == Null
    ensures Count(t.rows, queue) > 0 ==>
              exists i :: 0 <= i < |t.rows| && t.rows[i].queue == queue &&
                (forall j :: 0 <= j < |t.rows| && t.rows[j].queue == queue ==> t.rows[j].id <= t.rows[i].id) &&
                Popped(t.rows, queue) == (t.rows[i].item, t.rows[..i] + t.rows[i + 1..]) &&
                Peeked(t.rows, queue) == t.rows[i].item
  {
    var newest := Newest(t.rows, queue);
    CountZeroIff(t.rows, queue);
    if newest.Some? {
      var row := newest.value;
      var i :| 0 <= i < |t.rows| && t.rows[i] == row;
      DeleteRemovesOneRow(t.rows, i, queue);
      assert forall j :: 0 <= j < |t.rows| && t.rows[j].queue == queue ==> t.rows[j].id <= t.rows[i].id by {
        forall j | 0 <= j < |t.rows| && t.rows[j].queue == queue
          ensures t.rows[j].id <= t.rows[i].id
        {
          assert t.rows[j] in t.rows;
        }
      }
    }
  }

  /** A queue's count is zero exactly when no row is tagged with it. */
  lemma {:induction false} CountZeroIff<T>(rows: seq<Row<T>>, queue: string)
    ensures Count(rows, queue) == 0 <==> forall row :: row in rows ==> row.queue != queue
    decreases |rows|
  {
    if rows != [] {
      var prefix := rows[..|rows| - 1];
      assert rows == prefix + [rows[|rows| - 1]];
      CountZeroIff(prefix, queue);
    }
  }

  /**
   * `length` counts the rows of the active queue, so `pop` on a non-empty queue
   * lowers its length by one and leaves the length of every other queue alone.
   */
  lemma PopLowersLengthByOne<T>(t: Table<T>, queue: string, other: string)
    requires WellFormed(t) && Count(t.rows, queue) > 0 && other != queue
    ensures Count(Popped(t.rows, queue).1, queue) == Count(t.rows, queue) - 1
    ensures Count(Popped(t.rows, queue).1, other) == Count(t.rows, other)
  {
    var rows := t.rows;
    CountZeroIff(rows, queue);
    var newest := Newest(rows, queue);
    var i :| 0 <= i < |rows| && rows[i] == newest.value;
    DeleteRemovesOneRow(rows, i, queue);
    var before, after := rows[..i], rows[i + 1..];
    assert rows == before + [rows[i]] + after;
    assert Popped(rows, queue).1 == before + after;
    assert [rows[i]][..0] == [];
    CountAppend(before + [rows[i]], after, queue);
    CountAppend(before, [rows[i]], queue);
    CountAppend(before, after, queue);
    CountAppend(before + [rows[i]], after, other);
    CountAppend(before, [rows[i]], other);
    CountAppend(before, after, other);
  }

  /**
   * `add` inserts one row tagged with the active queue, whose item is the next
   * thing `pop` returns there; no other queue's length changes.
   */
  lemma AddBecomesNewest<T>(t: Table<T>, queue: string, item: Value<T>, other: string)
    requires WellFormed(t) && other != queue
    ensures Popped(Added(t, queue, item).rows, queue) == (item, t.rows)
    ensures Count(Added(t, queue, item).rows, queue) == Count(t.rows, queue) + 1
    ensures Count(Added(t, queue, item).rows, other) == Count(t.rows, other)
  {
    var rows := Added(t, queue, item).rows;
    var row := Row(t.nextId, queue, item, None);
    assert rows == t.rows + [row];
    assert rows[..|rows| - 1] == t.rows;
    var rest := Newest(t.rows, queue);
    if rest.Some? {
      var j :| 0 <= j < |t.rows| && t.rows[j] == rest.value;
      assert rest.value.id < row.id;
    }
    assert Newest(rows, queue) == Some(row);
    DeleteAbsentId(t.rows, row.id, queue);
    assert Deleted(rows, row.id, queue) == Deleted(t.rows, row.id, queue);
  }

  /** One pop followed by `n` more. */
  lemma PoppedManyStep<T>(rows: seq<Row<T>>, queue: string, n: nat, x: Value<T>, next: seq<Row<T>>)
    requires Popped(rows, queue) == (x, next)
    ensures PoppedMany(rows, queue, n + 1) == ([x] + PoppedMany(next, queue, n).0, PoppedMany(next, queue, n).1)
  {
  }

  /**
   * The database driver is last-in first-out: after adding `items` to a queue,
   * as many pops return them newest first and leave exactly the rows that were
   * there before, whatever rows the table already held.
   */
  lemma {:induction false} LifoOrder<T>(t: Table<T>, queue: string, items: seq<Value<T>>)
    requires WellFormed(t)
    ensures PoppedMany(AddedAll(t, queue, items).rows, queue, |items|) == (Reversed(items), t.rows)
    decreases |items|
  {
    if items != [] {
      var init, x := items[..|items| - 1], items[|items| - 1];
      var u := AddedAll(t, queue, init);
      var rows := AddedAll(t, queue, items).rows;
      assert rows == Added(u, queue, x).rows;
      AddBecomesNewest(u, queue, x, queue + "'");
      assert Popped(rows, queue) == (x, u.rows);
      LifoOrder(t, queue, init);
      PoppedManyStep(rows, queue, |init|, x, u.rows);
      assert Reversed(items) == [x] + Reversed(init);
    }
  }

  /**
   * `process` pops exactly once and never re-raises: if the processor returns,
   * the table is as that pop left it; if it throws, exactly one row is added,
   * tagged with the dead-letter queue, remembering the queue it came from and
   * carrying the popped value.
   */
  lemma ProcessRoutesFailureToDeadLetter<T>(t: Table<T>, queue: string, deadLetter: string, processor: Processor<T>)
    requires WellFormed(t)
    ensures WellFormed(Processed(t, queue, deadLetter, processor))
    ensures var (data, rows) := Popped(t.rows, queue);
      Processed(t, queue, deadLetter, processor).rows ==
        rows + (if processor(data) then [] else [Row(t.nextId, deadLetter, data, Some(queue))])
    ensures var (data, rows) := Popped(t.rows, queue);
      Count(Processed(t, queue, deadLetter, processor).rows, deadLetter) ==
        Count(rows, deadLetter) + (if processor(data) then 0 else 1)
  {
    var newest := Newest(t.rows, queue);
    if newest.Some? {
      DeleteKeepsWellFormed(t, newest.value.id, queue);
    }
    var (data, rows) := Popped(t.rows, queue);
    assert WellFormed(t.(rows := rows));
    if !processor(data) {
      var r := Processed(t, queue, deadLetter, processor).rows;
      assert r == rows + [Row(t.nextId, deadLetter, data, Some(queue))];
      assert r[..|r| - 1] == rows;
    }
  }

  /** On a queue with no rows the processor still runs, and is handed `undefined`. */
  lemma ProcessOnEmptyQueue<T>(t: Table<T>, queue: string, deadLetter: string, processor: Processor<T>)
    requires WellFormed(t) && Count(t.rows, queue) == 0
    ensures Processed(t, queue, deadLetter, processor) ==
              if processor(Undefined) then t else Inserted(t, deadLetter, Undefined, Some(queue))
  {
    PopRemovesNewestRow(t, queue);
  }

  /** `truncate` removes every row regardless of its queue. */
  lemma TruncateEmptiesEveryQueue<T>(t: Table<T>, queue: string)
    ensures Count(Truncated(t).rows, queue) == 0
    ensures Popped(Truncated(t).rows, queue) == (Undefined, [])
  {
  }

  /** The jobs table of the database connection, shared by every driver built over it. */
  class JobsTable<T> {
    var rows: seq<Row<T>>
    var nextId: nat

    ghost function Model(): Table<T>
      reads this
    {
      Table(rows, nextId)
    }

    ghost predicate Valid()
      reads this
    {
      WellFormed(Model())
    }

    constructor ()
      ensures Valid() && rows == []
    {
      rows := [];
      nextId := 1;
    }

    method Create(queue: string, item: Value<T>, formerQueue: Option<string>)
      requires Valid()
      modifies this
      ensures Valid() && Model() == Inserted(old(Model()), queue, item, formerQueue)
    {
      rows := rows + [Row(nextId, queue, item, formerQueue)];
      nextId := nextId + 1;
    }

    method FindNewest(queue: string) returns (row: Option<Row<T>>)
      ensures row == Newest(rows, queue)
    {
      row := Newest(rows, queue);
    }

    method Delete(id: nat, queue: string)
      requires Valid()
      modifies this
      ensures Valid() && rows == Deleted(old(rows), id, queue) && nextId == old(nextId)
    {
      DeleteKeepsWellFormed(Model(), id, queue);
      rows := Deleted(rows, id, queue);
    }

    method CountWhere(queue: string) returns (n: nat)
      ensures n == Count(rows, queue)
    {
      n := Count(rows, queue);
    }

    method Truncate()
      requires Valid()
      modifies this
      ensures Valid() && Model() == Truncated(old(Model()))
    {
      rows := [];
    }
  }

  /** Deleting keeps a subsequence of the rows, so ids stay increasing and below the counter. */
  lemma {:induction false} DeleteKeepsWellFormed<T>(t: Table<T>, id: nat, queue: string)
    requires WellFormed(t)
    ensures WellFormed(t.(rows := Deleted(t.rows, id, queue)))
    ensures forall k :: 0 <= k < |Deleted(t.rows, id, queue)| ==> Deleted(t.rows, id, queue)[k] in t.rows
    decreases |t.rows|
  {
    if t.rows != [] {
      var prefix := t.rows[..|t.rows| - 1];
      var last := t.rows[|t.rows| - 1];
      assert t.rows == prefix + [last];
      assert WellFormed(t.(rows := prefix)) by {
        forall a, b | 0 <= a < b < |prefix| ensures prefix[a].id < prefix[b].id {
          assert prefix[a] == t.rows[a] && prefix[b] == t.rows[b];
        }
        forall a | 0 <= a < |prefix| ensures prefix[a].id < t.nextId {
          assert prefix[a] == t.rows[a];
        }
      }
      DeleteKeepsWellFormed(t.(rows := prefix), id, queue);
      var d := Deleted(prefix, id, queue);
      forall k | 0 <= k < |d| ensures d[k].id < last.id {
        var j :| 0 <= j < |prefix| && prefix[j] == d[k];
        assert prefix[j] == t.rows[j];
      }
    }
  }

  /** The driver object: it remembers the active queue and issues queries against the table. */
  class DatabaseQueue<T> {
    const table: JobsTable<T>
    const connection: string
    const deadLetterQueueName: string
    var queueName: string

    ghost predicate Valid()
      reads this, table
    {
      table.Valid()
    }

    /** `queue` and `deadletter` come from the connection's configuration. */
    constructor (table: JobsTable<T>, connection: string, queue: string, deadletter: string)
      ensures this.table == table && this.connection == connection
      ensures queueName == queue && deadLetterQueueName == deadletter
    {
      this.table := table;
      this.connection := connection;
      queueName := queue;
      deadLetterQueueName := deadletter;
    }

    method Truncate()
      requires Valid()
      modifies table
      ensures Valid() && table.Model() == Truncated(old(table.Model()))
    {
      table.Truncate();
    }

    method Queue(name: string)
      modifies this
      ensures queueName == name
    {
      queueName := name;
    }

    method Add(item: Value<T>)
      requires Valid()
      modifies table
      ensures Valid() && table.Model() == Added(old(table.Model()), queueName, item)
    {
      table.Create(queueName, item, None);
    }

    /** A select of the newest row of the active queue, then a delete of that row. */
    method Pop() returns (item: Value<T>)
      requires Valid()
      modifies table
      ensures Valid() && (item, table.rows) == Popped(old(table.rows), queueName)
      ensures table.nextId == old(table.nextId)
    {
      var data := table.FindNewest(queueName);
      if data.None? {
        return Undefined;
      }
      table.Delete(data.value.id, queueName);
      item := data.value.item;
    }

    method Peek() returns (item: Value<T>)
      requires Valid()
      ensures Count(table.rows, queueName) == 0 ==> item == Null
      ensures Count(table.rows, queueName) > 0 ==> item == Popped(table.rows, queueName).0
    {
      PopRemovesNewestRow(table.Model(), queueName);
      var data := table.FindNewest(queueName);
      if data.None? {
        return Null;
      }
      item := data.value.item;
    }

    method Length() returns (n: nat)
      ensures n == Count(table.rows, queueName)
    {
      n := table.CountWhere(queueName);
    }

    /** Pops once, runs the processor and inserts a dead-letter row if it fails. */
    method Process(processor: Processor<T>)
      requires Valid()
      modifies table
      ensures Valid() && table.Model() == Processed(old(table.Model()), queueName, deadLetterQueueName, processor)
    {
      var data := Pop();
      if !processor(data) {
        table.Create(deadLetterQueueName, data, Some(queueName));
      }
    }

    method IsEmpty() returns (empty: bool)
      ensures empty <==> Count(table.rows, queueName) == 0
    {
      var count := table.CountWhere(queueName);
      empty := count == 0;
    }
  }
}
