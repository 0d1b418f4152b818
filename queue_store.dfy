/**
 * The SQLite file both sides share: the jobs table (`phpjq_jobs`), its
 * auto-increment counter, and the options table (`phpjq_options`), here
 * called the registry. A job row moves through unclaimed (worker -1, not
 * running), running and owned (worker w, running 1), completed (worker w,
 * running 0), and is deleted when received. The options table has no unique
 * key, so it is a sequence of entries; every writer deletes a key before it
 * inserts it, which keeps the keys distinct as long as no two writers
 * interleave.
 */
module QueueStore {
  import opened Wrappers
  import opened PhpValues

  /** The owner value of a job no worker has claimed. */
  const Unclaimed: int := -1

  /** A row of the jobs table; `data` and `ret` hold the encoded payload and result. */
  datatype Row = Row(methodName: string, data: string, ret: Option<string>, running: int, worker: int)

  /** A row a worker may claim. */
  predicate Eligible(r: Row) {
    r.running == 0 && r.worker == Unclaimed
  }

  /** A row whose result has been written back and may be received. */
  predicate Completed(r: Row) {
    r.worker != Unclaimed && r.running == 0
  }

  /** The ids of the claimable rows. */
  function EligibleIds(jobs: map<int, Row>): (ids: set<int>)
    ensures forall k :: k in ids <==> k in jobs && Eligible(jobs[k])
  {
    set k | k in jobs && Eligible(jobs[k])
  }

  /** The row after `UPDATE ... SET running = 1, worker = w`. */
  function ClaimRow(r: Row, w: int): Row {
    r.(running := 1, worker := w)
  }

  /** The row after `UPDATE ... SET running = 0, worker = w, return = ret`. */
  function CompleteRow(r: Row, w: int, ret: string): Row {
    r.(running := 0, worker := w, ret := Some(ret))
  }

  /** Claiming an eligible row takes exactly that row out of the claimable set. */
  lemma ClaimRemovesFromEligible(jobs: map<int, Row>, k: int, w: int)
    requires k in jobs && Eligible(jobs[k])
    ensures EligibleIds(jobs[k := ClaimRow(jobs[k], w)]) == EligibleIds(jobs) - {k}
    ensures |EligibleIds(jobs[k := ClaimRow(jobs[k], w)])| == |EligibleIds(jobs)| - 1
  {
    var after := EligibleIds(jobs[k := ClaimRow(jobs[k], w)]);
    assert after == EligibleIds(jobs) - {k};
  }

  /** Writing back a claimed row under a real worker slot leaves the claimable set as it was. */
  lemma CompletionKeepsEligible(jobs: map<int, Row>, k: int, w: int, ret: string)
    requires k in jobs && !Eligible(jobs[k]) && w != Unclaimed
    ensures EligibleIds(jobs[k := CompleteRow(jobs[k], w, ret)]) == EligibleIds(jobs)
  {
  }

  /** A row claimed and written back by a real worker slot is complete and not claimable again. */
  lemma ClaimThenCompleteIsCompleted(r: Row, w: int, ret: string)
    requires Eligible(r) && w != Unclaimed
    ensures Completed(CompleteRow(ClaimRow(r, w), w, ret))
    ensures !Eligible(CompleteRow(ClaimRow(r, w), w, ret))
    ensures CompleteRow(ClaimRow(r, w), w, ret).ret == Some(ret)
  {
  }

  /**
   * Slot -1 coincides with the unclaimed marker: a row it claims and writes
   * back is claimable again, and never counts as completed.
   */
  lemma SentinelSlotReopensJob(r: Row, ret: string)
    requires Eligible(r)
    ensures Eligible(CompleteRow(ClaimRow(r, Unclaimed), Unclaimed, ret))
    ensures !Completed(CompleteRow(ClaimRow(r, Unclaimed), Unclaimed, ret))
  {
  }

  /** A row of the options table. */
  datatype Entry = Entry(key: string, value: string)

  predicate HasKey(reg: seq<Entry>, key: string) {
    exists i :: 0 <= i < |reg| && reg[i].key == key
  }

  predicate KeysDistinct(reg: seq<Entry>) {
    forall i, j :: 0 <= i < j < |reg| ==> reg[i].key != reg[j].key
  }

  /** `SELECT value FROM phpjq_options WHERE key = :key`, first row in table order. */
  function Lookup(reg: seq<Entry>, key: string): (r: Option<string>)
    ensures r.None? <==> !HasKey(reg, key)
    ensures r.Some? ==> Entry(key, r.value) in reg
  {
    if reg == [] then None
    else if reg[0].key == key then Some(reg[0].value)
    else
      var rest := Lookup(reg[1..], key);
      assert forall i :: 1 <= i < |reg| ==> reg[i] == reg[1..][i - 1];
      rest
  }

  /** With distinct keys, the entry for a key is the one a lookup finds. */
  lemma {:induction false} LookupFindsEntry(reg: seq<Entry>, i: int)
    requires KeysDistinct(reg) && 0 <= i < |reg|
    ensures Lookup(reg, reg[i].key) == Some(reg[i].value)
  {
    if i > 0 {
      assert reg[1..][i - 1] == reg[i];
      LookupFindsEntry(reg[1..], i - 1);
    }
  }

  /** `DELETE FROM phpjq_options WHERE key = :key`: the other entries stay, in their order. */
  function RemoveKey(reg: seq<Entry>, key: string): (r: seq<Entry>)
    ensures forall e :: e in r <==> e in reg && e.key != key
    ensures !HasKey(r, key)
    ensures forall k :: k != key ==> Lookup(r, k) == Lookup(reg, k)
    ensures KeysDistinct(reg) ==> KeysDistinct(r)
  {
    if reg == [] then []
    else
      var rest := RemoveKey(reg[1..], key);
      assert forall e :: e in reg <==> e == reg[0] || e in reg[1..];
      if reg[0].key == key then rest
      else
        var r := [reg[0]] + rest;
        assert forall i :: 1 <= i < |r| ==> r[i] == rest[i - 1];
        assert KeysDistinct(reg) ==> forall e :: e in rest ==> e.key != reg[0].key;
        r
  }

  /** Deleting a key twice is deleting it once. */
  lemma {:induction false} RemoveKeyIdempotent(reg: seq<Entry>, key: string)
    ensures RemoveKey(RemoveKey(reg, key), key) == RemoveKey(reg, key)
  {
    if reg != [] {
      RemoveKeyIdempotent(reg[1..], key);
      if reg[0].key != key {
        var r := RemoveKey(reg, key);
        assert r[0] == reg[0] && r[1..] == RemoveKey(reg[1..], key);
      }
    }
  }

  /**
   * The delete-then-insert write of a key: afterwards exactly one entry, the
   * last one, has that key and holds the new value; every other key reads as before.
   */
  function Put(reg: seq<Entry>, key: string, value: string): (r: seq<Entry>)
    ensures |r| >= 1 && r[|r| - 1] == Entry(key, value)
    ensures forall i :: 0 <= i < |r| - 1 ==> r[i].key != key
    ensures Lookup(r, key) == Some(value)
    ensures forall k :: k != key ==> Lookup(r, k) == Lookup(reg, k)
    ensures forall e :: e in r <==> e == Entry(key, value) || (e in reg && e.key != key)
    ensures KeysDistinct(reg) ==> KeysDistinct(r)
  {
    var kept := RemoveKey(reg, key);
    var r := kept + [Entry(key, value)];
    assert forall i :: 0 <= i < |r| - 1 ==> r[i] == kept[i];
    LookupAppend(kept, Entry(key, value), key);
    forall k | k != key
      ensures Lookup(r, k) == Lookup(reg, k)
    {
      LookupAppend(kept, Entry(key, value), k);
    }
    r
  }

  /** Appending an entry changes a lookup only where no earlier entry has the key. */
  lemma {:induction false} LookupAppend(reg: seq<Entry>, e: Entry, key: string)
    ensures Lookup(reg + [e], key) == if HasKey(reg, key) then Lookup(reg, key) else Lookup([e], key)
  {
    if reg != [] {
      assert (reg + [e])[1..] == reg[1..] + [e];
      LookupAppend(reg[1..], e, key);
      assert HasKey(reg, key) <==> reg[0].key == key || HasKey(reg[1..], key) by {
        if HasKey(reg, key) && reg[0].key != key {
          var i :| 0 <= i < |reg| && reg[i].key == key;
          assert reg[1..][i - 1].key == key;
        }
        if HasKey(reg[1..], key) {
          var i :| 0 <= i < |reg[1..]| && reg[1..][i].key == key;
          assert reg[i + 1].key == key;
        }
      }
    }
  }

  /** Writing the same value for a key a second time changes nothing. */
  lemma PutIdempotent(reg: seq<Entry>, key: string, value: string)
    ensures Put(Put(reg, key, value), key, value) == Put(reg, key, value)
  {
    var once := Put(reg, key, value);
    var kept := RemoveKey(reg, key);
    assert once == kept + [Entry(key, value)];
    RemoveKeyAppend(kept, Entry(key, value), key);
    RemoveKeyIdempotent(reg, key);
  }

  lemma {:induction false} RemoveKeyAppend(reg: seq<Entry>, e: Entry, key: string)
    requires e.key == key
    ensures RemoveKey(reg + [e], key) == RemoveKey(reg, key)
  {
    if reg == [] {
      assert [e][1..] == [];
    } else {
      assert (reg + [e])[1..] == reg[1..] + [e];
      RemoveKeyAppend(reg[1..], e, key);
    }
  }

  /** The registry key of the configured worker count. */
  const WorkerCountKey: string := "worker_count"

  /** The registry key under which worker slot `slot` records its process id. */
  function WorkerKey(slot: int): string {
    "worker_pid_" + IntToDecimal(slot)
  }

  /** Distinct slots have distinct keys, and no slot's key is the worker-count key. */
  lemma WorkerKeysSeparate(a: int, b: int)
    ensures WorkerKey(a) == WorkerKey(b) ==> a == b
    ensures WorkerKey(a) != WorkerCountKey
  {
    if WorkerKey(a) == WorkerKey(b) {
      assert IntToDecimal(a) == WorkerKey(a)[11..];
      assert IntToDecimal(b) == WorkerKey(b)[11..];
      IntToDecimalInjective(a, b);
    }
    assert WorkerKey(a)[7] != WorkerCountKey[7];
  }

  /** The options table as `install` seeds it. */
  function InitialRegistry(): (reg: seq<Entry>)
    ensures KeysDistinct(reg)
    ensures Lookup(reg, WorkerCountKey) == Some("1")
    ensures forall slot :: Lookup(reg, WorkerKey(slot)) == None
  {
    var reg := [Entry(WorkerCountKey, "1")];
    forall slot
      ensures Lookup(reg, WorkerKey(slot)) == None
    {
      WorkerKeysSeparate(slot, slot);
    }
    reg
  }

  /** The SQLite file. */
  class Database {
    /** Whether the options and jobs tables exist. */
    var installed: bool
    var jobs: map<int, Row>
    /** The next id AUTOINCREMENT hands out; ids are never reused. */
    var nextId: int
    var registry: seq<Entry>

    ghost predicate Valid()
      reads this
    {
      && nextId >= 1
      && (forall k :: k in jobs ==> 1 <= k < nextId)
      && (forall k :: k in jobs ==> jobs[k].running == 0 || jobs[k].running == 1)
      && KeysDistinct(registry)
      && (!installed ==> jobs == map[] && registry == [] && nextId == 1)
    }

    /** A file with no tables yet. */
    constructor ()
      ensures Valid() && !installed
    {
      installed := false;
      jobs := map[];
      nextId := 1;
      registry := [];
    }

    /** `install`: create both tables and seed `worker_count = "1"`. */
    method Install()
      requires Valid() && !installed
      modifies this
      ensures Valid() && installed
      ensures jobs == map[] && nextId == 1 && registry == InitialRegistry()
    {
      installed := true;
      registry := InitialRegistry();
    }
  }
}
