/**
 * The queue facade (`QueueImpl` in src/helpers/queue.ts): a process-wide
 * object holding one driver. `connection(name)` replaces the driver and every
 * other method forwards to the driver's method of the same name.
 *
 * The database the table-backed driver works over lives outside the facade: it
 * is the `JobsTable` given to the facade when it is built, so a new
 * table-backed driver sees the rows earlier ones left, while a new in-memory
 * driver starts empty.
 */
module QueueFacade {
  import opened Optional
  import opened QueueValues
  import VanillaQueues
  import DatabaseQueues

  /** The driver the facade currently holds. */
  datatype Driver<T> =
    | Vanilla(vanilla: VanillaQueues.VanillaQueue<T>)
    | Database(database: DatabaseQueues.DatabaseQueue<T>)

  /** The connection names the in-memory driver answers to. */
  predicate SelectsVanilla(name: string) {
    name == "vanilla" || name == "default"
  }

  /** The connection name the table-backed driver answers to. */
  predicate SelectsDatabase(name: string) {
    name == "database"
  }

  class QueueImpl<T> {
    var driver: Driver<T>
    const db: DatabaseQueues.JobsTable<T>

    /** The objects a forwarded call may change: the driver and the jobs table. */
    ghost function Footprint(): set<object>
      reads this
    {
      match driver
      case Vanilla(v) => {v, db}
      case Database(d) => {d, db}
    }

    ghost predicate Valid()
      reads this, Footprint()
    {
      db.Valid() &&
      match driver
      case Vanilla(v) => v.Valid() && v.connection == "vanilla"
      case Database(d) =>
        d.table == db && d.connection == "queue" && d.deadLetterQueueName == DeadLetterQueue
    }

    /** The facade starts on a fresh in-memory driver. */
    constructor (db: DatabaseQueues.JobsTable<T>)
      requires db.Valid()
      ensures Valid() && this.db == db && driver.Vanilla? && fresh(driver.vanilla)
      ensures driver.vanilla.Model() == VanillaQueues.Initial()
    {
      this.db := db;
      var v := new VanillaQueues.VanillaQueue("vanilla");
      driver := Vanilla(v);
    }

    /**
     * `vanilla` and `default` install a fresh, empty in-memory driver; `database`
     * installs a table-backed driver over the same jobs table, on the configured
     * default queue; any other name keeps the current driver and its contents.
     */
    method Connection(name: string)
      requires Valid()
      modifies this
      ensures Valid()
      ensures SelectsVanilla(name) ==>
                driver.Vanilla? && fresh(driver.vanilla) &&
                driver.vanilla.Model() == VanillaQueues.Initial()
      ensures SelectsDatabase(name) ==>
                driver.Database? && fresh(driver.database) &&
                driver.database.queueName == DefaultQueue && db.rows == old(db.rows)
      ensures !SelectsVanilla(name) && !SelectsDatabase(name) ==> driver == old(driver)
    {
      if name == "vanilla" || name == "default" {
        var v := new VanillaQueues.VanillaQueue("vanilla");
        driver := Vanilla(v);
      }
      if name == "database" {
        var d := new DatabaseQueues.DatabaseQueue(db, "queue", DefaultQueue, DeadLetterQueue);
        driver := Database(d);
      }
    }

    method Truncate()
      requires Valid()
      modifies Footprint()
      ensures Valid() && driver == old(driver)
      ensures driver.Vanilla? ==>
                driver.vanilla.Model() == VanillaQueues.Truncated(old(driver.vanilla.Model())) &&
                unchanged(db)
      ensures driver.Database? ==>
                driver.database.queueName == old(driver.database.queueName) &&
                db.Model() == DatabaseQueues.Truncated(old(db.Model()))
    {
      match driver
      case Vanilla(v) => v.Truncate();
      case Database(d) => d.Truncate();
    }

    method Queue(name: string)
      requires Valid()
      modifies Footprint()
      ensures Valid() && driver == old(driver)
      ensures driver.Vanilla? ==>
                driver.vanilla.Model() == VanillaQueues.Selected(old(driver.vanilla.Model()), name) &&
                unchanged(db)
      ensures driver.Database? ==> driver.database.queueName == name && unchanged(db)
    {
      match driver
      case Vanilla(v) => v.Queue(name);
      case Database(d) => d.Queue(name);
    }

    method Add(item: Value<T>)
      requires Valid()
      modifies Footprint()
      ensures Valid() && driver == old(driver)
      ensures driver.Vanilla? ==>
                driver.vanilla.Model() == VanillaQueues.Added(old(driver.vanilla.Model()), item) &&
                unchanged(db)
      ensures driver.Database? ==>
                driver.database.queueName == old(driver.database.queueName) &&
                db.Model() == DatabaseQueues.Added(old(db.Model()), driver.database.queueName, item)
    {
      match driver
      case Vanilla(v) => v.Add(item);
      case Database(d) => d.Add(item);
    }

    method Pop() returns (item: Value<T>)
      requires Valid()
      modifies Footprint()
      ensures Valid() && driver == old(driver)
      ensures driver.Vanilla? ==>
                (item, driver.vanilla.Model()) == VanillaQueues.Popped(old(driver.vanilla.Model())) &&
                unchanged(db)
      ensures driver.Database? ==>
                driver.database.queueName == old(driver.database.queueName) &&
                (item, db.rows) == DatabaseQueues.Popped(old(db.rows), driver.database.queueName) &&
                db.nextId == old(db.nextId)
    {
      match driver
      case Vanilla(v) => item := v.Pop();
      case Database(d) => item := d.Pop();
    }

    method Peek() returns (item: Value<T>)
      requires Valid()
      ensures driver.Vanilla? ==> item == VanillaQueues.Peeked(driver.vanilla.Model())
      ensures driver.Database? ==> item == DatabaseQueues.Peeked(db.rows, driver.database.queueName)
    {
      match driver
      case Vanilla(v) =>
        item := v.Peek();
        VanillaQueues.PeekIsNextPop(v.Model());
      case Database(d) =>
        item := d.Peek();
        DatabaseQueues.CountZeroIff(db.rows, d.queueName);
    }

    method Length() returns (n: nat)
      requires Valid()
      ensures driver.Vanilla? ==> n == |VanillaQueues.ActiveList(driver.vanilla.Model())|
      ensures driver.Database? ==> n == DatabaseQueues.Count(db.rows, driver.database.queueName)
    {
      match driver
      case Vanilla(v) => n := v.Length();
      case Database(d) => n := d.Length();
    }

    method Process(processor: Processor<T>)
      requires Valid()
      modifies Footprint()
      ensures Valid() && driver == old(driver)
      ensures driver.Vanilla? ==>
                driver.vanilla.Model() == VanillaQueues.Processed(old(driver.vanilla.Model()), processor) &&
                unchanged(db)
      ensures driver.Database? ==>
                driver.database.queueName == old(driver.database.queueName) &&
                db.Model() == DatabaseQueues.Processed(old(db.Model()), driver.database.queueName,
                                                       DeadLetterQueue, processor)
    {
      match driver
      case Vanilla(v) => v.Process(processor);
      case Database(d) => d.Process(processor);
    }

    method IsEmpty() returns (empty: bool)
      requires Valid()
      ensures driver.Vanilla? ==> (empty <==> VanillaQueues.ActiveList(driver.vanilla.Model()) == [])
      ensures driver.Database? ==> (empty <==> DatabaseQueues.Count(db.rows, driver.database.queueName) == 0)
    {
      match driver
      case Vanilla(v) => empty := v.IsEmpty();
      case Database(d) => empty := d.IsEmpty();
    }
  }

  /**
   * `BaseJob.queue()` (src/jobs/base.job.ts): a job fetches its queue with
   * `connection(...)` followed by `queue(...)`, every time it needs it.
   */
  method Fetch<T>(facade: QueueImpl<T>, connection: string, queue: string)
    requires facade.Valid()
    modifies facade, facade.Footprint()
    ensures facade.Valid() && unchanged(facade.db)
    ensures SelectsVanilla(connection) ==>
              facade.driver.Vanilla? && fresh(facade.driver.vanilla) &&
              facade.driver.vanilla.Model() == VanillaQueues.Selected(VanillaQueues.Initial(), queue)
    ensures SelectsDatabase(connection) ==>
              facade.driver.Database? && fresh(facade.driver.database) &&
              facade.driver.database.queueName == queue
    ensures !SelectsVanilla(connection) && !SelectsDatabase(connection) ==>
              facade.driver == old(facade.driver) &&
              (facade.driver.Vanilla? ==>
                 facade.driver.vanilla.Model() ==
                 VanillaQueues.Selected(old(facade.driver.vanilla.Model()), queue)) &&
              (facade.driver.Database? ==> facade.driver.database.queueName == queue)
  {
    facade.Connection(connection);
    facade.Queue(queue);
  }

  /**
   * On the `default` connection each fetch installs a fresh in-memory driver,
   * so a job added through one fetch is no longer there at the next: the
   * worker's fetch sees an empty queue.
   */
  method DefaultConnectionRefetchDropsJobs<T>(item: Value<T>)
    returns (lengthAfterAdd: nat, lengthAtNextFetch: nat)
    ensures lengthAfterAdd == 1 && lengthAtNextFetch == 0
  {
    var db := new DatabaseQueues.JobsTable<T>();
    var facade := new QueueImpl(db);
    Fetch(facade, "default", "mail");
    facade.Add(item);
    lengthAfterAdd := facade.Length();
    Fetch(facade, "default", "mail");
    lengthAtNextFetch := facade.Length();
  }

  /**
   * On the `database` connection the same refetch keeps the job: the new driver
   * works over the same table, and its `pop` hands the job back.
   */
  method DatabaseConnectionRefetchKeepsJobs<T>(item: Value<T>)
    returns (lengthAtNextFetch: nat, popped: Value<T>)
    ensures lengthAtNextFetch == 1 && popped == item
  {
    var db := new DatabaseQueues.JobsTable<T>();
    var facade := new QueueImpl(db);
    Fetch(facade, "database", "mail");
    ghost var before := db.Model();
    facade.Add(item);
    DatabaseQueues.AddBecomesNewest(before, "mail", item, "mail'");
    Fetch(facade, "database", "mail");
    lengthAtNextFetch := facade.Length();
    popped := facade.Pop();
  }
}
