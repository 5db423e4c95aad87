/**
 * The values that travel through the job queues of src/helpers/queue.ts.
 *
 * Queue items are untyped JavaScript values. The model keeps the distinctions
 * the queue code itself makes: a payload supplied by a producer, the `null` that
 * the in-memory driver returns for an empty queue, the `undefined` that the
 * database driver returns for one, and the `{ queue, data }` record that the
 * in-memory driver appends to its dead-letter list.
 */
module QueueValues {

  datatype Value<T> =
    | Null
    | Undefined
    | Item(payload: T)
    | DeadLetterRecord(queue: string, data: Value<T>)

  /** The queue every driver starts on (the `queue` key of the queue connections). */
  const DefaultQueue: string := "default"

  /** The queue failed jobs are routed to (the `deadletter` key of the queue connections). */
  const DeadLetterQueue: string := "deadletter"

  /** The processor's report: true when it returned, false when it threw or rejected. */
  type Processor<!T> = Value<T> -> bool

}
