/**
 * The worker side (PHPJQ_Worker): register the slot, then claim jobs one by
 * one inside exclusive transactions, run the registered handler on each and
 * write its result back, until no job is claimable; then free the slot and
 * stop. Each `BEGIN EXCLUSIVE ... COMMIT` block is one atomic method.
 *
 * User handlers are functions from the decoded payload to the result;
 * `encode` / `decode` stand for `json_encode` / `json_decode`, `isLive` for
 * the `ps` liveness test and `pid` for `getmypid()`. Each `die` becomes a
 * returned Halt.
 */
module QueueWorker {
  import opened Wrappers
  import opened PhpValues
  import opened JobRecord
  import opened QueueStore
  import opened QueueServer

  /** How a worker process ends. */
  datatype Halt =
    | Finished          // no claimable job was left; the slot was freed
    | JobFailed(id: int) // the claimed job's method has no handler
    | RegisterFailed    // the slot is held by a live process

  /** The row after `after` is what running the registered handler on `before` and writing it back gives. */
  ghost predicate HandledBy(before: Row, after: Row, w: int, methods: map<string, Value -> Value>,
                            encode: Value -> string, decode: string -> Value)
  {
    && before.methodName in methods
    && after == CompleteRow(before, w, encode(methods[before.methodName](decode(before.data))))
  }

  /** The options table a server object finds once it has opened the file, installing it if needed. */
  function Seeded(installed: bool, reg: seq<Entry>): seq<Entry> {
    if installed then reg else InitialRegistry()
  }

  class Worker {
    /** The slot id, cast to int from the command-line argument. */
    const workerId: int
    /** The database file the worker was pointed at. */
    const db: Database
    var server: Server?
    /** The handler table: method name to callback. */
    var methods: map<string, Value -> Value>

    /** The worker has opened its server object on its database. */
    ghost predicate Ready()
      reads this, server, db
    {
      server != null && server.store == db && server.Valid()
    }

    constructor (workerId: Value, db: Database)
      ensures this.workerId == ToInt(workerId) && this.db == db
      ensures server == null && methods == map[]
    {
      this.workerId := ToInt(workerId);
      this.db := db;
      server := null;
      methods := map[];
    }

    /** `register`: set the handler for a method name, replacing any earlier one. */
    method Register(fn: string, cb: Value -> Value)
      modifies this`methods
      ensures methods == old(methods)[fn := cb]
    {
      methods := methods[fn := cb];
    }

    /**
     * `get_unallocated_job_or_free`: claim any claimable row for this slot and
     * return it as a job record holding the still-encoded payload; when there
     * is none, free the slot and return `false` (None). The query has no
     * ORDER BY, so which claimable row is taken is not determined.
     */
    method Claim() returns (job: Option<Job>)
      requires Ready()
      modifies db
      ensures Ready()
      ensures job.None? <==> EligibleIds(old(db.jobs)) == {}
      ensures job.None? ==> db.jobs == old(db.jobs)
      ensures job.None? ==> db.registry == RemoveKey(old(db.registry), WorkerKey(workerId))
      ensures job.Some? ==>
                && job.value.id.Int?
                && var k := job.value.id.i;
                && k in old(db.jobs) && Eligible(old(db.jobs)[k])
                && db.jobs == old(db.jobs)[k := ClaimRow(old(db.jobs)[k], workerId)]
                && job.value == NewJob(old(db.jobs)[k].methodName, Str(old(db.jobs)[k].data), Int(k))
                && db.registry == old(db.registry)
      ensures db.nextId == old(db.nextId)
    {
      var ids := EligibleIds(db.jobs);
      if !exists k :: k in ids {
        assert ids == {};
        var _ := server.FreeWorker(Int(workerId));
        return None;
      }
      var k :| k in ids;
      var row := db.jobs[k];
      db.jobs := db.jobs[k := ClaimRow(row, workerId)];
      job := Some(NewJob(row.methodName, Str(row.data), Int(k)));
    }

    /** `job_success`: write the encoded result back and mark the row done by this slot. */
    method JobSuccess(job: Job, result: Value, encode: Value -> string)
      requires Ready()
      modifies db
      ensures Ready()
      ensures job.id.Int? && job.id.i in old(db.jobs) ==>
                db.jobs == old(db.jobs)[job.id.i := CompleteRow(old(db.jobs)[job.id.i], workerId, encode(result))]
      ensures !(job.id.Int? && job.id.i in old(db.jobs)) ==> db.jobs == old(db.jobs)
      ensures workerId != Unclaimed && job.id.Int? && job.id.i in old(db.jobs) ==> Completed(db.jobs[job.id.i])
      ensures db.registry == old(db.registry) && db.nextId == old(db.nextId)
    {
      if job.id.Int? && job.id.i in db.jobs {
        var k := job.id.i;
        db.jobs := db.jobs[k := CompleteRow(db.jobs[k], workerId, encode(result))];
      }
    }

    /**
     * `consume`: claim and handle jobs until none is claimable (the slot is
     * then freed) or a claimed job has no handler (the worker stops with that
     * job left running and owned by this slot).
     */
    method Consume(encode: Value -> string, decode: string -> Value) returns (halt: Halt)
      requires Ready() && workerId != Unclaimed
      modifies db
      ensures Ready()
      ensures halt.Finished? || halt.JobFailed?
      ensures db.jobs.Keys == old(db.jobs).Keys && db.nextId == old(db.nextId)
      ensures forall k :: k in old(db.jobs) && !Eligible(old(db.jobs)[k]) ==> db.jobs[k] == old(db.jobs)[k]
      ensures halt.Finished? ==> EligibleIds(db.jobs) == {}
      ensures halt.Finished? ==> db.registry == RemoveKey(old(db.registry), WorkerKey(workerId))
      ensures halt.Finished? ==>
                forall k :: k in old(db.jobs) && Eligible(old(db.jobs)[k]) ==>
                  HandledBy(old(db.jobs)[k], db.jobs[k], workerId, methods, encode, decode)
      ensures halt.JobFailed? ==>
                && db.registry == old(db.registry)
                && halt.id in old(db.jobs) && Eligible(old(db.jobs)[halt.id])
                && old(db.jobs)[halt.id].methodName !in methods
                && db.jobs[halt.id] == ClaimRow(old(db.jobs)[halt.id], workerId)
      ensures halt.JobFailed? ==>
                forall k :: k in old(db.jobs) && Eligible(old(db.jobs)[k]) && k != halt.id ==>
                  db.jobs[k] == old(db.jobs)[k] || HandledBy(old(db.jobs)[k], db.jobs[k], workerId, methods, encode, decode)
    {
      while true
        invariant Ready()
        invariant db.jobs.Keys == old(db.jobs).Keys && db.nextId == old(db.nextId)
        invariant db.registry == old(db.registry)
        invariant forall k :: k in old(db.jobs) ==>
                    db.jobs[k] == old(db.jobs)[k] ||
                    (Eligible(old(db.jobs)[k]) && HandledBy(old(db.jobs)[k], db.jobs[k], workerId, methods, encode, decode))
        decreases |EligibleIds(db.jobs)|
      {
        ghost var before := db.jobs;
        var claimed := Claim();
        if claimed.None? {
          return Finished;
        }
        var job := claimed.value;
        var k := job.id.i;
        ClaimRemovesFromEligible(before, k, workerId);
        if job.methodName !in methods {
          return JobFailed(k);
        }
        var result := methods[job.methodName](decode(job.data.s));
        ghost var claimedJobs := db.jobs;
        JobSuccess(job, result, encode);
        CompletionKeepsEligible(claimedJobs, k, workerId, encode(result));
      }
    }

    /**
     * `start`: open a server object on the database, register this process
     * for the slot (stopping at once if that fails), then consume.
     */
    method Start(isLive: string -> bool, pid: nat, encode: Value -> string, decode: string -> Value)
      returns (halt: Halt)
      requires db.Valid() && workerId != Unclaimed
      modifies this`server, db
      ensures Ready() && fresh(server)
      ensures halt.RegisterFailed? <==> old(db.installed) && SlotIsLive(old(db.registry), workerId, isLive)
      ensures halt.RegisterFailed? ==> db.jobs == old(db.jobs)
      ensures db.jobs.Keys == old(db.jobs).Keys && db.nextId == old(db.nextId)
      ensures halt.Finished? ==> EligibleIds(db.jobs) == {} && Lookup(db.registry, WorkerKey(workerId)) == None
      ensures halt.Finished? ==>
                forall k :: k in old(db.jobs) && Eligible(old(db.jobs)[k]) ==>
                  HandledBy(old(db.jobs)[k], db.jobs[k], workerId, methods, encode, decode)
      ensures forall k :: k in old(db.jobs) && !Eligible(old(db.jobs)[k]) ==> db.jobs[k] == old(db.jobs)[k]
      ensures halt.JobFailed? ==>
                && halt.id in old(db.jobs) && Eligible(old(db.jobs)[halt.id])
                && old(db.jobs)[halt.id].methodName !in methods
                && db.jobs[halt.id] == ClaimRow(old(db.jobs)[halt.id], workerId)
      ensures halt.JobFailed? ==>
                forall k :: k in old(db.jobs) && Eligible(old(db.jobs)[k]) && k != halt.id ==>
                  db.jobs[k] == old(db.jobs)[k] || HandledBy(old(db.jobs)[k], db.jobs[k], workerId, methods, encode, decode)
      ensures halt.RegisterFailed? ==> db.registry == Seeded(old(db.installed), old(db.registry))
      ensures halt.JobFailed? ==> db.registry == Put(Seeded(old(db.installed), old(db.registry)), WorkerKey(workerId), IntToDecimal(pid))
      ensures halt.Finished? ==>
                db.registry == RemoveKey(Put(Seeded(old(db.installed), old(db.registry)), WorkerKey(workerId), IntToDecimal(pid)), WorkerKey(workerId))
    {
      server := new Server(db, Bool(false), 0);
      var registered := server.RegisterWorker(Int(workerId), isLive, pid);
      if !registered {
        return RegisterFailed;
      }
      halt := Consume(encode, decode);
    }
  }

  /** Two claims, by the same or different workers on one database, never hand out the same job. */
  method ClaimsAreExclusive(a: Worker, b: Worker) returns (first: Option<Job>, second: Option<Job>)
    requires a.Ready() && b.Ready() && a.db == b.db
    modifies a.db
    ensures first.Some? && second.Some? ==> first.value.id != second.value.id
  {
    first := a.Claim();
    second := b.Claim();
  }

  /**
   * The example worker script: slot 0 with the "test" handler that echoes its
   * parameters, started on a file whose only claimable job is job 1.
   */
  method RunEchoWorker(db: Database, encode: Value -> string, decode: string -> Value, isLive: string -> bool, pid: nat)
    returns (halt: Halt)
    requires db.Valid() && db.installed && Lookup(db.registry, WorkerKey(0)) == None
    requires EligibleIds(db.jobs) == {1} && db.jobs[1].methodName == "test"
    modifies db
    ensures halt == Finished
    ensures db.Valid() && db.installed && db.nextId == old(db.nextId)
    ensures 1 in db.jobs && db.jobs[1] == CompleteRow(old(db.jobs)[1], 0, encode(decode(old(db.jobs)[1].data)))
  {
    var worker := new Worker(Str("0"), db);
    assert worker.workerId == 0 by {
      assert DigitPrefix("0") == "0";
    }
    worker.Register("test", (params: Value) => params);
    ghost var before := db.jobs;
    assert 1 in EligibleIds(before);
    halt := worker.Start(isLive, pid, encode, decode);
    assert HandledBy(before[1], db.jobs[1], 0, worker.methods, encode, decode);
  }

  /**
   * The round trip of a job through a fresh database: dispatch a "test" job,
   * run the example worker, receive the result, and receive again.
   */
  method EchoRoundTrip(db: Database, payload: Value, encode: Value -> string, decode: string -> Value,
                       isLive: string -> bool, fileExists: Value -> bool, pid: nat)
    returns (id: int, halt: Halt, received: Option<Job>, again: Option<Job>)
    requires db.Valid() && !db.installed
    modifies db
    ensures id == 1 && halt == Finished
    ensures received.Some? && again.None?
    ensures var echoed := decode(encode(payload));
            received.value == NewJob("test", decode(StripSlashes(encode(payload))), Int(1), decode(StripSlashes(encode(echoed))))
  {
    var dispatcher := new Server(db, Str("worker-example.php"), 0);
    id := dispatcher.Dispatch(NewJob("test", payload), encode, isLive, fileExists);
    assert EligibleIds(db.jobs) == {1};
    assert Lookup(db.registry, WorkerKey(0)) == None;
    halt := RunEchoWorker(db, encode, decode, isLive, pid);
    received := dispatcher.Receive(id, decode);
    again := dispatcher.Receive(id, decode);
  }
}
