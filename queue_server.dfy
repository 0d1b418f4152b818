/**
 * The dispatcher side (PHPJQ_Server): enqueue a job, poll and receive its
 * result, make sure worker slot 0 is alive, and the registry bookkeeping the
 * worker calls back into. Each PHP method is one atomic step on the shared
 * Database, even where the source runs several SQL statements in it.
 *
 * The operating system is reached through parameters: `isLive` answers
 * whether `ps <pid>` finds the process whose id the registry holds,
 * `fileExists` stands for `file_exists`, `pid` for `getmypid()`, and
 * `encode` / `decode` for `json_encode` / `json_decode`. Launching a worker
 * process is recorded in `launched`, the slots spawned so far, in order.
 */
module QueueServer {
  import opened Wrappers
  import opened PhpValues
  import opened JobRecord
  import opened QueueStore

  /** The worker count `set_worker_count` stores: counts below 1 become 1. */
  function ClampedCount(count: int): (c: int)
    ensures c >= 1
    ensures count >= 1 ==> c == count
    ensures count < 1 ==> c == 1
  {
    if count < 1 then 1 else count
  }

  /** After `set_worker_count`, the `worker_count` entry holds the clamped count and other keys are untouched. */
  lemma StoredCount(reg: seq<Entry>, count: int)
    ensures Lookup(Put(reg, WorkerCountKey, IntToDecimal(ClampedCount(count))), WorkerCountKey) == Some(IntToDecimal(ClampedCount(count)))
    ensures forall slot :: Lookup(Put(reg, WorkerCountKey, IntToDecimal(ClampedCount(count))), WorkerKey(slot)) == Lookup(reg, WorkerKey(slot))
  {
    forall slot ensures WorkerKey(slot) != WorkerCountKey {
      WorkerKeysSeparate(slot, slot);
    }
  }

  /** Whether slot `slot` holds a registration whose process is alive (`is_running`). */
  function SlotIsLive(reg: seq<Entry>, slot: int, isLive: string -> bool): bool {
    match Lookup(reg, WorkerKey(slot))
    case None => false
    case Some(pid) => isLive(pid)
  }

  /** With distinct keys, a slot is live iff some entry for it holds a live process id. */
  lemma SlotIsLiveMeansLiveEntry(reg: seq<Entry>, slot: int, isLive: string -> bool)
    requires KeysDistinct(reg)
    ensures SlotIsLive(reg, slot, isLive) <==>
              exists i :: 0 <= i < |reg| && reg[i].key == WorkerKey(slot) && isLive(reg[i].value)
  {
    if exists i :: 0 <= i < |reg| && reg[i].key == WorkerKey(slot) && isLive(reg[i].value) {
      var i :| 0 <= i < |reg| && reg[i].key == WorkerKey(slot) && isLive(reg[i].value);
      LookupFindsEntry(reg, i);
    }
    if SlotIsLive(reg, slot, isLive) {
      var pid := Lookup(reg, WorkerKey(slot)).value;
      var i :| 0 <= i < |reg| && reg[i] == Entry(WorkerKey(slot), pid);
      assert reg[i].key == WorkerKey(slot) && isLive(reg[i].value);
    }
  }

  /** One slot's registration does not affect whether another slot is live. */
  lemma OtherSlotsUnaffected(reg: seq<Entry>, slot: int, other: int, pid: string, isLive: string -> bool)
    requires other != slot
    ensures SlotIsLive(Put(reg, WorkerKey(slot), pid), other, isLive) == SlotIsLive(reg, other, isLive)
    ensures SlotIsLive(RemoveKey(reg, WorkerKey(slot)), other, isLive) == SlotIsLive(reg, other, isLive)
  {
    WorkerKeysSeparate(slot, other);
  }

  class Server {
    const store: Database
    /** Path of the worker script; `false` when none was given. */
    const workerPath: Value
    /** The `worker_count` field: null until `set_worker_count` runs. */
    var workerCount: Option<int>
    /** The worker slots a process was launched for, oldest first. */
    var launched: seq<int>

    ghost predicate Valid()
      reads this, store
    {
      store.Valid() && store.installed
    }

    /**
     * Open the file, install the tables if the options table is missing, and
     * store the worker count when a truthy one is given.
     */
    constructor (db: Database, workerPath: Value, workerCount: int)
      requires db.Valid()
      modifies db
      ensures Valid() && store == db
      ensures this.workerPath == workerPath && launched == []
      ensures this.workerCount == if workerCount != 0 then Some(ClampedCount(workerCount)) else None
      ensures db.jobs == old(db.jobs) && db.nextId == old(db.nextId)
      ensures var seeded := if old(db.installed) then old(db.registry) else InitialRegistry();
              db.registry == if workerCount != 0 then Put(seeded, WorkerCountKey, IntToDecimal(ClampedCount(workerCount))) else seeded
    {
      store := db;
      this.workerPath := workerPath;
      this.workerCount := None;
      launched := [];
      new;
      if !db.installed {
        db.Install();
      }
      if workerCount != 0 {
        SetWorkerCount(workerCount);
      }
    }

    /** `set_worker_count`: clamp, remember, and replace the stored count. */
    method SetWorkerCount(count: int)
      requires Valid()
      modifies this`workerCount, store
      ensures Valid()
      ensures workerCount == Some(ClampedCount(count))
      ensures store.registry == Put(old(store.registry), WorkerCountKey, IntToDecimal(ClampedCount(count)))
      ensures store.jobs == old(store.jobs) && store.nextId == old(store.nextId)
    {
      var c := if count < 1 then 1 else count;
      workerCount := Some(c);
      store.registry := Put(store.registry, WorkerCountKey, IntToDecimal(c));
    }

    /**
     * `dispatch`: insert an unclaimed row holding the encoded payload, make
     * sure slot 0 runs, and return the id of the inserted row.
     */
    method Dispatch(job: Job, encode: Value -> string, isLive: string -> bool, fileExists: Value -> bool)
      returns (id: int)
      requires Valid()
      modifies store, this`launched
      ensures Valid()
      ensures id !in old(store.jobs) && id >= 1
      ensures store.jobs == old(store.jobs)[id := Row(job.methodName, encode(job.data), None, 0, Unclaimed)]
      ensures Eligible(store.jobs[id])
      ensures store.nextId == id + 1 && id == old(store.nextId)
      ensures store.registry == old(store.registry)
      ensures launched == old(launched) + if SlotIsLive(store.registry, 0, isLive) || !CanSpawn(fileExists) then [] else [0]
    {
      id := store.nextId;
      store.jobs := store.jobs[id := Row(job.methodName, encode(job.data), None, 0, Unclaimed)];
      store.nextId := id + 1;
      EnsureRunning(isLive, fileExists);
    }

    /** `is_complete`: the row exists and its result has been written back. */
    method IsComplete(id: int) returns (complete: bool)
      requires Valid()
      ensures complete <==> id in store.jobs && Completed(store.jobs[id])
      ensures complete ==> !Eligible(store.jobs[id])
    {
      if id !in store.jobs {
        return false;
      }
      var row := store.jobs[id];
      complete := row.worker != -1 && row.running != 1;
    }

    /**
     * `receive`: a consuming read. A complete row is deleted and returned as a
     * job record built from its decoded payload and result; otherwise nothing
     * changes and the answer is `false` (None).
     */
    method Receive(id: int, decode: string -> Value) returns (job: Option<Job>)
      requires Valid()
      modifies store
      ensures Valid()
      ensures job.Some? <==> id in old(store.jobs) && Completed(old(store.jobs)[id])
      ensures job.None? ==> store.jobs == old(store.jobs)
      ensures job.Some? ==> store.jobs == old(store.jobs) - {id} && id !in store.jobs
      ensures job.Some? ==>
                var row := old(store.jobs)[id];
                job.value == NewJob(row.methodName, decode(StripSlashes(row.data)), Int(id), decode(StripSlashes(row.ret.GetOr(""))))
      ensures job.Some? ==> job.value.id == Int(id)
      ensures store.registry == old(store.registry) && store.nextId == old(store.nextId)
    {
      if id !in store.jobs {
        return None;
      }
      var row := store.jobs[id];
      if row.worker == -1 || row.running == 1 {
        return None;
      }
      store.jobs := store.jobs - {id};
      job := Some(NewJob(row.methodName, decode(StripSlashes(row.data)), Int(id), decode(StripSlashes(row.ret.GetOr("")))));
    }

    /** The guard of `spawn_worker`: a worker path is set and the file exists. */
    predicate CanSpawn(fileExists: Value -> bool)
      reads this
    {
      Truthy(workerPath) && fileExists(workerPath)
    }

    /** `ensure_running`: spawn slot 0 unless slot 0 holds a live registration. */
    method EnsureRunning(isLive: string -> bool, fileExists: Value -> bool)
      requires Valid()
      modifies this`launched
      ensures launched == old(launched) + if SlotIsLive(store.registry, 0, isLive) || !CanSpawn(fileExists) then [] else [0]
    {
      var running := IsRunning(0, isLive);
      if !running {
        var _ := SpawnWorker(0, fileExists);
      }
    }

    /** `is_running`: the slot's registered process id names a live process. */
    method IsRunning(slot: int, isLive: string -> bool) returns (running: bool)
      requires Valid()
      ensures running == SlotIsLive(store.registry, slot, isLive)
      ensures running <==> exists i :: 0 <= i < |store.registry| && store.registry[i].key == WorkerKey(slot) && isLive(store.registry[i].value)
    {
      SlotIsLiveMeansLiveEntry(store.registry, slot, isLive);
      var found := Lookup(store.registry, "worker_pid_" + IntToDecimal(slot));
      if found.None? {
        return false;
      }
      running := isLive(found.value);
    }

    /** `spawn_worker`: launch a worker for the slot when the worker script is there. */
    method SpawnWorker(slot: int, fileExists: Value -> bool) returns (spawned: bool)
      modifies this`launched
      ensures spawned == CanSpawn(fileExists)
      ensures launched == old(launched) + if spawned then [slot] else []
    {
      if !Truthy(workerPath) || !fileExists(workerPath) {
        return false;
      }
      launched := launched + [slot];
      spawned := true;
    }

    /**
     * `register_worker`: refuse a non-int slot id or a slot held by a live
     * process; otherwise replace the slot's registration with `pid`.
     */
    method RegisterWorker(workerId: Value, isLive: string -> bool, pid: nat) returns (registered: bool)
      requires Valid()
      modifies store
      ensures Valid()
      ensures registered <==> workerId.Int? && !SlotIsLive(old(store.registry), workerId.i, isLive)
      ensures registered ==> store.registry == Put(old(store.registry), WorkerKey(workerId.i), IntToDecimal(pid))
      ensures !registered ==> store.registry == old(store.registry)
      ensures store.jobs == old(store.jobs) && store.nextId == old(store.nextId)
    {
      if !workerId.Int? {
        return false;
      }
      var running := IsRunning(workerId.i, isLive);
      if running {
        return false;
      }
      store.registry := Put(store.registry, WorkerKey(workerId.i), IntToDecimal(pid));
      registered := true;
    }

    /** `free_worker`: refuse a non-numeric slot id; otherwise delete the slot's registration. */
    method FreeWorker(workerId: Value) returns (freed: bool)
      requires Valid()
      modifies store
      ensures Valid()
      ensures freed == IsNumeric(workerId)
      ensures store.registry == if freed then RemoveKey(old(store.registry), WorkerKey(ToInt(workerId))) else old(store.registry)
      ensures store.jobs == old(store.jobs) && store.nextId == old(store.nextId)
    {
      if !IsNumeric(workerId) {
        return false;
      }
      var slot := ToInt(workerId);
      store.registry := RemoveKey(store.registry, WorkerKey(slot));
      freed := true;
    }
  }

  /** A job received right after it was dispatched, before any claim, is not ready. */
  method DispatchThenReceive(s: Server, job: Job, encode: Value -> string, decode: string -> Value,
                             isLive: string -> bool, fileExists: Value -> bool)
    returns (id: int, received: Option<Job>)
    requires s.Valid()
    modifies s.store, s`launched
    ensures received.None? && id in s.store.jobs && Eligible(s.store.jobs[id])
  {
    id := s.Dispatch(job, encode, isLive, fileExists);
    received := s.Receive(id, decode);
  }

  /** Receiving is consuming: a second receive of the same id answers `false`. */
  method ReceiveTwice(s: Server, id: int, decode: string -> Value) returns (first: Option<Job>, second: Option<Job>)
    requires s.Valid()
    modifies s.store
    ensures first.Some? <==> id in old(s.store.jobs) && Completed(old(s.store.jobs)[id])
    ensures first.Some? ==> id !in s.store.jobs
    ensures second.None?
  {
    first := s.Receive(id, decode);
    second := s.Receive(id, decode);
  }

  /** Freeing a slot twice leaves the registry as freeing it once. */
  method FreeTwice(s: Server, workerId: Value) returns (once: seq<Entry>, twice: seq<Entry>)
    requires s.Valid()
    modifies s.store
    ensures once == twice
  {
    var _ := s.FreeWorker(workerId);
    once := s.store.registry;
    var _ := s.FreeWorker(workerId);
    twice := s.store.registry;
    if IsNumeric(workerId) {
      RemoveKeyIdempotent(old(s.store.registry), WorkerKey(ToInt(workerId)));
    }
  }
}
