/**
 * The in-memory queue driver (`VanillaQueue` in src/helpers/queue.ts).
 *
 * The driver keeps one list per queue name and an "active" name that every
 * operation works on. Lists are first-in first-out: `add` pushes at the tail
 * and `pop` shifts the head. The first half of this module states each
 * operation as a function on the abstract state `Memory` and proves what the
 * driver promises; the class at the end is the driver itself, whose methods
 * update its fields in place and are proved to follow those functions.
 */
module VanillaQueues {
  import opened QueueValues

  /** What an in-memory driver holds: the active queue name and every named list. */
  datatype Memory<T> = Memory(active: string, queues: map<string, seq<Value<T>>>)

  /**
   * The driver's invariant: `default` and `deadletter` exist from the start and
   * are never removed, and the active name always names an existing list.
   */
  predicate WellFormed<T>(m: Memory<T>) {
    m.active in m.queues && DefaultQueue in m.queues && DeadLetterQueue in m.queues
  }

  /** The list of the active queue. */
  function ActiveList<T>(m: Memory<T>): seq<Value<T>>
    requires m.active in m.queues
  {
    m.queues[m.active]
  }

  /** A freshly constructed driver: on `default`, with `default` and `deadletter` empty. */
  function Initial<T>(): Memory<T> {
    Memory(DefaultQueue, map[DefaultQueue := [], DeadLetterQueue := []])
  }

  /** `truncate`: every existing list becomes empty. */
  function Truncated<T>(m: Memory<T>): Memory<T> {
    Memory(m.active, map k | k in m.queues :: [])
  }

  /** `queue(name)`: make `name` active, creating its list only when it is missing. */
  function Selected<T>(m: Memory<T>, name: string): Memory<T> {
    Memory(name, if name in m.queues then m.queues else m.queues[name := []])
  }

  /** `add(item)`: push onto the tail of the active list. */
  function Added<T>(m: Memory<T>, item: Value<T>): Memory<T>
    requires m.active in m.queues
  {
    m.(queues := m.queues[m.active := m.queues[m.active] + [item]])
  }

  /** `pop()`: `null` on an empty active list, otherwise its head, shifted off. */
  function Popped<T>(m: Memory<T>): (Value<T>, Memory<T>)
    requires m.active in m.queues
  {
    var list := m.queues[m.active];
    if |list| == 0 then (Null, m)
    else (list[0], m.(queues := m.queues[m.active := list[1..]]))
  }

  /** `peek()`: `null` on an empty active list, otherwise its head. */
  function Peeked<T>(m: Memory<T>): Value<T>
    requires m.active in m.queues
  {
    var list := m.queues[m.active];
    if |list| == 0 then Null else list[0]
  }

  /**
   * `process(processor)`: pop once, hand the popped value (possibly `null`) to
   * the processor and, if it throws, append `{ queue, data }` to `deadletter`.
   */
  function Processed<T>(m: Memory<T>, processor: Processor<T>): Memory<T>
    requires WellFormed(m)
  {
    var (data, popped) := Popped(m);
    if processor(data) then popped
    else popped.(queues := popped.queues[DeadLetterQueue :=
                   popped.queues[DeadLetterQueue] + [DeadLetterRecord(m.active, data)]])
  }

  /** A run of `add` calls, one per element of `items`, in order. */
  function AddedAll<T>(m: Memory<T>, items: seq<Value<T>>): (r: Memory<T>)
    requires m.active in m.queues
    ensures r.active == m.active && r.queues.Keys == m.queues.Keys
    decreases |items|
  {
    if items == [] then m else AddedAll(Added(m, items[0]), items[1..])
  }

  /** A run of `n` calls of `pop`, with the values they return, in order. */
  function PoppedMany<T>(m: Memory<T>, n: nat): (r: (seq<Value<T>>, Memory<T>))
    requires m.active in m.queues
    ensures |r.0| == n
    ensures r.1.active == m.active && r.1.queues.Keys == m.queues.Keys
    decreases n
  {
    if n == 0 then ([], m)
    else
      var (x, next) := Popped(m);
      var (rest, last) := PoppedMany(next, n - 1);
      ([x] + rest, last)
  }

  /** Every operation keeps the driver's invariant. */
  lemma OperationsKeepWellFormed<T>(m: Memory<T>, name: string, item: Value<T>, processor: Processor<T>)
    requires WellFormed(m)
    ensures WellFormed(Initial<T>())
    ensures WellFormed(Truncated(m)) && WellFormed(Selected(m, name))
    ensures WellFormed(Added(m, item)) && WellFormed(Popped(m).1)
    ensures WellFormed(Processed(m, processor))
  {
  }

  /**
   * `queue(name)` only moves the active pointer and adds an empty list for a
   * new name; it never touches an existing list, and calling it twice is the
   * same as calling it once.
   */
  lemma SelectIsIdempotentAndLocal<T>(m: Memory<T>, name: string)
    ensures Selected(Selected(m, name), name) == Selected(m, name)
    ensures Selected(m, name).active == name
    ensures Selected(m, name).queues.Keys == m.queues.Keys + {name}
    ensures forall k :: k in m.queues ==> Selected(m, name).queues[k] == m.queues[k]
    ensures name !in m.queues ==> Selected(m, name).queues[name] == []
  {
  }

  /** `add` and `pop` change the active list only; every other queue is left as it was. */
  lemma AddAndPopAreLocal<T>(m: Memory<T>, item: Value<T>)
    requires m.active in m.queues
    ensures Added(m, item).active == m.active && Popped(m).1.active == m.active
    ensures Added(m, item).queues.Keys == m.queues.Keys && Popped(m).1.queues.Keys == m.queues.Keys
    ensures forall k :: k in m.queues && k != m.active ==>
              Added(m, item).queues[k] == m.queues[k] && Popped(m).1.queues[k] == m.queues[k]
  {
  }

  /**
   * On an empty active list `pop` and `peek` return `null` and change nothing;
   * otherwise `peek` returns exactly what the next `pop` removes.
   */
  lemma PeekIsNextPop<T>(m: Memory<T>)
    requires m.active in m.queues
    ensures Peeked(m) == Popped(m).0
    ensures ActiveList(m) == [] ==> Popped(m) == (Null, m)
    ensures ActiveList(m) != [] ==>
              Popped(m).0 == ActiveList(m)[0] && ActiveList(Popped(m).1) == ActiveList(m)[1..]
  {
  }

  /** `truncate` keeps every name and the active name, and leaves every queue empty. */
  lemma TruncateEmptiesEveryQueue<T>(m: Memory<T>, name: string)
    ensures Truncated(m).active == m.active && Truncated(m).queues.Keys == m.queues.Keys
    ensures ActiveList(Selected(Truncated(m), name)) == []
  {
  }

  /** A run of adds appends the items, in order, to the tail of the active list. */
  lemma {:induction false} AddedAllAppends<T>(m: Memory<T>, items: seq<Value<T>>)
    requires m.active in m.queues
    ensures AddedAll(m, items) == m.(queues := m.queues[m.active := m.queues[m.active] + items])
    decreases |items|
  {
    if items != [] {
      var next := Added(m, items[0]);
      AddedAllAppends(next, items[1..]);
      assert m.queues[m.active] + [items[0]] + items[1..] == m.queues[m.active] + items;
    } else {
      assert m.queues[m.active] + items == m.queues[m.active];
    }
  }

  /** A run of `n` pops on a list at least `n` long returns its first `n` items, oldest first. */
  lemma {:induction false} PoppedManyTakesPrefix<T>(m: Memory<T>, n: nat)
    requires m.active in m.queues && n <= |m.queues[m.active]|
    ensures PoppedMany(m, n) ==
              (m.queues[m.active][..n], m.(queues := m.queues[m.active := m.queues[m.active][n..]]))
    decreases n
  {
    var list := m.queues[m.active];
    if n == 0 {
      assert list[n..] == list;
      assert m.queues[m.active := list] == m.queues;
    } else {
      var next := m.(queues := m.queues[m.active := list[1..]]);
      assert Popped(m) == (list[0], next);
      PoppedManyTakesPrefix(next, n - 1);
      assert list[1..][..n - 1] == list[1..n];
      assert [list[0]] + list[1..n] == list[..n];
      assert list[1..][n - 1..] == list[n..];
      assert next.queues[m.active := list[n..]] == m.queues[m.active := list[n..]];
    }
  }

  /**
   * The in-memory driver is first-in first-out: after adding `items` to a queue,
   * popping as many times as the queue holds returns its earlier contents and
   * then `items`, in insertion order, and leaves it empty. On a queue that was
   * empty, `n` adds followed by `n` pops give back the items and the very same state.
   */
  lemma {:induction false} FifoOrder<T>(m: Memory<T>, items: seq<Value<T>>)
    requires m.active in m.queues
    ensures PoppedMany(AddedAll(m, items), |ActiveList(m)| + |items|) ==
              (ActiveList(m) + items, m.(queues := m.queues[m.active := []]))
    ensures ActiveList(m) == [] ==> PoppedMany(AddedAll(m, items), |items|) == (items, m)
  {
    var list := m.queues[m.active];
    AddedAllAppends(m, items);
    var full := AddedAll(m, items);
    PoppedManyTakesPrefix(full, |list| + |items|);
    assert (list + items)[..|list| + |items|] == list + items;
    assert (list + items)[|list| + |items|..] == [];
    assert full.queues[m.active := []] == m.queues[m.active := []];
    if list == [] {
      assert list + items == items;
      assert m.queues[m.active := []] == m.queues;
      assert m.(queues := m.queues) == m;
    }
  }

  /**
   * `process` pops exactly once and never re-raises: every queue but
   * `deadletter` ends as that single pop left it, and `deadletter` gains exactly
   * one `{ queue, data }` record, carrying the active name and the popped value,
   * precisely when the processor threw.
   */
  lemma ProcessRoutesFailureToDeadLetter<T>(m: Memory<T>, processor: Processor<T>)
    requires WellFormed(m)
    ensures Processed(m, processor).active == m.active
    ensures Processed(m, processor).queues.Keys == m.queues.Keys
    ensures forall k :: k in m.queues && k != DeadLetterQueue ==>
              Processed(m, processor).queues[k] == Popped(m).1.queues[k]
    ensures Processed(m, processor).queues[DeadLetterQueue] ==
              Popped(m).1.queues[DeadLetterQueue] +
              (if processor(Popped(m).0) then [] else [DeadLetterRecord(m.active, Popped(m).0)])
    ensures processor(Popped(m).0) ==> Processed(m, processor) == Popped(m).1
  {
  }

  /** On an empty active queue the processor still runs, and is handed `null`. */
  lemma ProcessOnEmptyQueue<T>(m: Memory<T>, processor: Processor<T>)
    requires WellFormed(m) && ActiveList(m) == []
    ensures Processed(m, processor) ==
              if processor(Null) then m
              else m.(queues := m.queues[DeadLetterQueue :=
                        m.queues[DeadLetterQueue] + [DeadLetterRecord(m.active, Null)]])
  {
  }

  /** The driver object: its fields are updated in place, as the source does. */
  class VanillaQueue<T> {
    const connection: string
    var queueName: string
    var queues: map<string, seq<Value<T>>>

    /** The abstract state the methods are specified against. */
    ghost function Model(): Memory<T>
      reads this
    {
      Memory(queueName, queues)
    }

    ghost predicate Valid()
      reads this
    {
      WellFormed(Model())
    }

    constructor (connection: string)
      ensures Valid() && this.connection == connection
      ensures Model() == Initial()
    {
      this.connection := connection;
      queueName := DefaultQueue;
      queues := map[DefaultQueue := [], DeadLetterQueue := []];
    }

    /** Empties every list, key by key, keeping the names and the active name. */
    method Truncate()
      requires Valid()
      modifies this
      ensures Valid() && Model() == Truncated(old(Model()))
    {
      var keys := queues.Keys;
      while keys != {}
        invariant queueName == old(queueName)
        invariant queues.Keys == old(queues).Keys && keys <= queues.Keys
        invariant forall k :: k in queues ==> queues[k] == if k in keys then old(queues)[k] else []
        decreases keys
      {
        var k :| k in keys;
        queues := queues[k := []];
        keys := keys - {k};
      }
    }

    method Queue(name: string)
      requires Valid()
      modifies this
      ensures Valid() && Model() == Selected(old(Model()), name)
    {
      queueName := name;
      if name !in queues {
        queues := queues[name := []];
      }
    }

    method Add(item: Value<T>)
      requires Valid()
      modifies this
      ensures Valid() && Model() == Added(old(Model()), item)
    {
      queues := queues[queueName := queues[queueName] + [item]];
    }

    method Pop() returns (item: Value<T>)
      requires Valid()
      modifies this
      ensures Valid() && (item, Model()) == Popped(old(Model()))
    {
      if |queues[queueName]| == 0 {
        return Null;
      }
      item := queues[queueName][0];
      queues := queues[queueName := queues[queueName][1..]];
    }

    /** Returns what the next `Pop` would return, without removing it. */
    method Peek() returns (item: Value<T>)
      requires Valid()
      ensures item == Popped(Model()).0
      ensures |queues[queueName]| == 0 ==> item == Null
    {
      if |queues[queueName]| == 0 {
        return Null;
      }
      item := queues[queueName][0];
    }

    method Length() returns (n: nat)
      requires Valid()
      ensures n == |ActiveList(Model())|
    {
      n := |queues[queueName]|;
    }

    method IsEmpty() returns (empty: bool)
      requires Valid()
      ensures empty <==> ActiveList(Model()) == []
    {
      empty := |queues[queueName]| == 0;
    }

    /** Pops once, runs the processor and dead-letters the popped value if it fails. */
    method Process(processor: Processor<T>)
      requires Valid()
      modifies this
      ensures Valid() && Model() == Processed(old(Model()), processor)
    {
      var data := Pop();
      if !processor(data) {
        queues := queues[DeadLetterQueue := queues[DeadLetterQueue] + [DeadLetterRecord(queueName, data)]];
      }
    }
  }
}
