/** The in-memory bundle store: compare-and-set transitions, retry schedule, duplicate index. */
module RelayStore {
  import opened Options
  import opened Collections
  import opened Lifecycle

  /** A bundle is named by the hash of its content and the request number; the source writes them as one string. */
  datatype BundleId = BundleId(hash: string, request: int)

  datatype Record = Record(
    id: BundleId, state: BundleState, retryCount: int, terminal: Option<BundleState>,
    version: int, sequence: nat, createdAt: int)

  datatype StoreError = NoError | Closed | Duplicate | StaleAuthority | IllegalTransition | NotFound | Mismatch

  function NewRecord(id: BundleId, createdAt: int): Record
  {
    Record(id, Received, 0, None, 1, 1, createdAt)
  }

  /** The record a successful transition writes. */
  function Transitioned(rec: Record, to: BundleState): Record
  {
    rec.(state := to, version := rec.version + 1, sequence := rec.sequence + 1,
         terminal := if IsOutcome(to) then Some(to) else rec.terminal)
  }

  function Recounted(rec: Record, count: int): Record
  {
    rec.(retryCount := count, version := rec.version + 1)
  }

  /** Every record is found under its hash, and the index names nothing else. */
  ghost predicate Indexed(records: map<BundleId, Record>, index: map<string, BundleId>)
  {
    && (forall id :: id in records ==> records[id].id == id && id.hash in index && index[id.hash] == id)
    && (forall h :: h in index ==> index[h] in records && index[h].hash == h)
  }

  const LIMIT: nat := 256

  /** One record is gone, and none was created before it. */
  ghost predicate Pruned(before: map<BundleId, Record>, after: map<BundleId, Record>)
  {
    exists oldest ::
      && oldest in before && after == before - {oldest}
      && forall id :: id in before ==> before[oldest].createdAt <= before[id].createdAt
  }

  /** One entry is gone, and none was due before it. */
  ghost predicate RetryPruned(before: map<BundleId, int>, after: map<BundleId, int>)
  {
    exists first ::
      first in before && after == before - {first} && forall id :: id in before ==> before[first] <= before[id]
  }

  class Store {
    var records: map<BundleId, Record>
    var index: map<string, BundleId>
    var retries: map<BundleId, int>
    var closed: bool

    ghost predicate Valid()
      reads this
    {
      Indexed(records, index)
    }

    constructor ()
      ensures Valid() && records == map[] && retries == map[] && !closed
    {
      records, index, retries, closed := map[], map[], map[], false;
    }

    /** Creates a record for a hash not seen before; over the limit, the oldest record makes room. */
    method CreateBundle(id: BundleId, createdAt: int, authorityOk: bool) returns (rec: Record, err: StoreError)
      requires Valid()
      modifies this
      ensures Valid() && retries == old(retries) && closed == old(closed)
      ensures err == if old(closed) then Closed
                     else if id.hash in old(index) then Duplicate
                     else if !authorityOk then StaleAuthority
                     else NoError
      ensures err != NoError ==> records == old(records)
      ensures err == Duplicate ==> rec == records[index[id.hash]]
      ensures err == NoError && |old(records)| < 256 ==> records == old(records)[id := NewRecord(id, createdAt)]
      ensures err == NoError && |old(records)| >= 256 ==>
                Pruned(old(records)[id := NewRecord(id, createdAt)], records)
      ensures err == NoError ==> id !in old(records)
      ensures err == NoError ==> rec == Record(id, Received, 0, None, 1, 1, createdAt)
    {
      rec := NewRecord(id, createdAt);
      if closed {
        return rec, Closed;
      }
      if id.hash in index {
        return records[index[id.hash]], Duplicate;
      }
      if !authorityOk {
        return rec, StaleAuthority;
      }
      InsertLocked(id, rec);
      PruneLocked();
      err := NoError;
    }

    method InsertLocked(id: BundleId, rec: Record)
      requires Valid() && id.hash !in index && rec.id == id
      modifies this`records, this`index
      ensures Valid() && id !in old(records)
      ensures records == old(records)[id := rec] && |records| == |old(records)| + 1
    {
      assert id !in records;
      ghost var before := records;
      records := records[id := rec];
      index := index[id.hash := id];
      assert records.Keys == before.Keys + {id};
    }

    /** Drops the oldest record, and its index entry, when there are too many. */
    method PruneLocked()
      requires Valid()
      modifies this
      ensures Valid() && retries == old(retries) && closed == old(closed)
      ensures |old(records)| <= 256 ==> records == old(records)
      ensures |old(records)| > 256 ==> Pruned(old(records), records)
    {
      if |records| <= LIMIT {
        return;
      }
      assert records.Keys != {};
      var oldest :| oldest in records;
      var todo := records.Keys - {oldest};
      while todo != {}
        invariant todo <= records.Keys && oldest in records && oldest !in todo
        invariant forall id :: id in records && id !in todo ==> records[oldest].createdAt <= records[id].createdAt
        decreases todo
      {
        var id :| id in todo;
        todo := todo - {id};
        if records[id].createdAt < records[oldest].createdAt {
          oldest := id;
        }
      }
      index := index - {oldest.hash};
      records := records - {oldest};
    }

    /** Moves a bundle only when it is where the caller thinks it is. */
    method TransitionBundle(id: BundleId, from: BundleState, to: BundleState, authorityOk: bool)
      returns (rec: Record, err: StoreError)
      requires Valid()
      modifies this`records
      ensures Valid()
      ensures err == if !CanTransition(from, to) then IllegalTransition
                     else if id !in old(records) then NotFound
                     else if old(records)[id].state != from then Mismatch
                     else if !authorityOk then StaleAuthority
                     else NoError
      ensures err != NoError ==> records == old(records)
      ensures err == NoError ==> records == old(records)[id := Transitioned(old(records)[id], to)] && rec == records[id]
      ensures err == NoError ==>
                var was := old(records)[id];
                && rec.state == to && rec.version == was.version + 1 && rec.sequence == was.sequence + 1
                && rec.terminal ==
                   (if to == Forwarded || to == Rejected || to == DeadLetter then Some(to) else was.terminal)
                && rec.id == was.id && rec.retryCount == was.retryCount && rec.createdAt == was.createdAt
    {
      rec := NewRecord(id, 0);
      if !CanTransition(from, to) {
        return rec, IllegalTransition;
      }
      if id !in records {
        return rec, NotFound;
      }
      if records[id].state != from {
        return rec, Mismatch;
      }
      if !authorityOk {
        return rec, StaleAuthority;
      }
      rec := Transitioned(records[id], to);
      records := records[id := rec];
      err := NoError;
    }

    /** Overwrites the count, whatever state the bundle is in. */
    method UpdateRetryCount(id: BundleId, count: int, authorityOk: bool) returns (rec: Record, err: StoreError)
      requires Valid()
      modifies this`records
      ensures Valid()
      ensures err == if id !in old(records) then NotFound else if !authorityOk then StaleAuthority else NoError
      ensures err != NoError ==> records == old(records)
      ensures err == NoError ==> records == old(records)[id := Recounted(old(records)[id], count)] && rec == records[id]
      ensures err == NoError ==>
                rec == old(records)[id].(retryCount := count, version := old(records)[id].version + 1)
    {
      rec := NewRecord(id, 0);
      if id !in records {
        return rec, NotFound;
      }
      if !authorityOk {
        return rec, StaleAuthority;
      }
      rec := Recounted(records[id], count);
      records := records[id := rec];
      err := NoError;
    }

    /** Sets the due time; over the limit, the entry that is due first is dropped. */
    method ScheduleRetry(id: BundleId, due: int) returns (err: StoreError)
      requires Valid()
      modifies this`retries
      ensures Valid() && err == if closed then Closed else NoError
      ensures err != NoError ==> retries == old(retries)
      ensures err == NoError ==>
                var entries := old(retries)[id := due];
                if |entries| <= 256 then retries == entries else RetryPruned(entries, retries)
    {
      if closed {
        return Closed;
      }
      retries := retries[id := due];
      PruneRetriesLocked();
      err := NoError;
    }

    method PruneRetriesLocked()
      requires Valid()
      modifies this`retries
      ensures Valid()
      ensures if |old(retries)| <= 256 then retries == old(retries) else RetryPruned(old(retries), retries)
    {
      if |retries| <= LIMIT {
        return;
      }
      assert retries.Keys != {};
      var first :| first in retries;
      var todo := retries.Keys - {first};
      while todo != {}
        invariant todo <= retries.Keys && first in retries && first !in todo
        invariant forall id :: id in retries && id !in todo ==> retries[first] <= retries[id]
        decreases todo
      {
        var id :| id in todo;
        todo := todo - {id};
        if retries[id] < retries[first] {
          first := id;
        }
      }
      retries := retries - {first};
    }

    /** Hands out due entries, in any order, up to the limit; each entry is handed out once. */
    method ClaimDueRetries(now: int, limit: nat) returns (out: seq<BundleId>, err: StoreError)
      requires Valid()
      modifies this`retries
      ensures err == if closed then Closed else NoError
      ensures err != NoError ==> out == [] && retries == old(retries)
      ensures |out| <= limit && Distinct(out)
      ensures forall id :: id in out ==> id in old(retries) && old(retries)[id] <= now
      ensures retries == old(retries) - Members(out)
      ensures err == NoError && |out| < limit ==> forall id :: id in retries ==> retries[id] > now
    {
      out := [];
      assert retries == old(retries) - Members(out);
      if closed {
        return [], Closed;
      }
      err := NoError;
      var todo := retries.Keys;
      while todo != {} && |out| < limit
        invariant todo <= old(retries).Keys && |out| <= limit && Distinct(out) && Members(out) !! todo
        invariant forall id :: id in out ==> id in old(retries) && old(retries)[id] <= now
        invariant retries == old(retries) - Members(out)
        invariant forall id :: id in retries && id !in todo ==> retries[id] > now
        decreases todo
      {
        var id :| id in todo;
        todo := todo - {id};
        assert id in retries;
        if retries[id] <= now {
          assert Members(out + [id]) == Members(out) + {id};
          out := out + [id];
          retries := retries - {id};
        }
      }
    }
  }
}
