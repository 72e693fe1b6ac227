/** The lock-guarded counter store of pages/api/v1/lineage/index.js: a
    counter kept as decimal text in `counter.txt`, created as "0" when
    missing, and advanced by one inside each critical section of
    `incrementCounter`. Acquiring the file lock is an input (whether
    `lockfile.lock` succeeded); a run of serialised critical sections is a
    fold over those inputs. */
module CounterStore {
  import opened Wrappers
  import opened Decimal
  import opened Naming
  import opened Sequences

  /** A directory: file name to file text. */
  type Dir = map<string, string>

  const InitialCounterText := "0"

  /** Module load: create the counter file holding "0" when it is missing. */
  function Initialise(dir: Dir): (d: Dir)
    ensures CounterFile in d
    ensures CounterFile in dir ==> d[CounterFile] == dir[CounterFile]
    ensures CounterFile !in dir ==> ParseInt(d[CounterFile]) == Some(0)
    ensures d.Keys == dir.Keys + {CounterFile}
    ensures forall name :: name in dir && name != CounterFile ==> d[name] == dir[name]
  {
    ParseDecimal(0);
    if CounterFile in dir then dir else dir[CounterFile := InitialCounterText]
  }

  /** The counter file, when present, reads as a number: `parseInt` does not
      give NaN. The model does not follow the source into NaN counters. */
  predicate WellFormed(dir: Dir) {
    CounterFile in dir ==> ParseInt(dir[CounterFile]).Some?
  }

  predicate Readable(dir: Dir) {
    CounterFile in dir && ParseInt(dir[CounterFile]).Some?
  }

  /** The counter value the next critical section reads. */
  function Counter(dir: Dir): nat
    requires Readable(dir)
  {
    ParseInt(dir[CounterFile]).value
  }

  /** The directory after a critical section, and the value handed to the
      callback (`None` when the callback never ran). */
  datatype Allocation = Allocation(dir: Dir, value: Option<nat>)

  /** One call of `incrementCounter`. When the lock is not acquired, or the
      counter file cannot be read, the `.catch` swallows the error: nothing
      changes and the callback never runs. Otherwise the counter is read,
      increased by one, written back as decimal text, and the new value is
      handed to the callback. */
  function Increment(dir: Dir, lockAcquired: bool): (a: Allocation)
    requires WellFormed(dir)
    ensures WellFormed(a.dir)
    ensures a.value.Some? <==> lockAcquired && CounterFile in dir
    ensures a.value.None? ==> a.dir == dir
    ensures a.value.Some? ==>
              && Readable(dir) && Readable(a.dir)
              && Counter(a.dir) == Counter(dir) + 1
              && a.value.value == Counter(a.dir)
              && a.dir[CounterFile] == ToDecimal(a.value.value)
    ensures a.dir.Keys == dir.Keys
    ensures forall name :: name in dir && name != CounterFile ==> a.dir[name] == dir[name]
  {
    if !lockAcquired || CounterFile !in dir then Allocation(dir, None)
    else
      var next := ParseInt(dir[CounterFile]).value + 1;
      ParseDecimal(next);
      Allocation(dir[CounterFile := ToDecimal(next)], Some(next))
  }

  /** A lock attempt that succeeded. */
  predicate Acquired(lock: bool) {
    lock
  }

  /** A run of serialised critical sections: the final directory and the
      values handed to callbacks, in execution order. */
  datatype Run = Run(dir: Dir, values: seq<nat>)

  function AllocateAll(dir: Dir, locks: seq<bool>): (r: Run)
    requires WellFormed(dir)
    ensures WellFormed(r.dir)
    decreases |locks|
  {
    if |locks| == 0 then Run(dir, [])
    else
      var a := Increment(dir, locks[0]);
      var rest := AllocateAll(a.dir, locks[1..]);
      Run(rest.dir, (if a.value.Some? then [a.value.value] else []) + rest.values)
  }

  /** Serialised allocations hand out consecutive values just above the
      stored counter, one per acquired lock, and leave the counter at the
      last value handed out. */
  lemma {:induction false} SerialAllocations(dir: Dir, locks: seq<bool>)
    requires Readable(dir)
    ensures var r := AllocateAll(dir, locks);
            && Readable(r.dir)
            && |r.values| == Count(locks, Acquired)
            && Consecutive(r.values, Counter(dir) + 1)
            && Counter(r.dir) == Counter(dir) + |r.values|
    decreases |locks|
  {
    if |locks| > 0 {
      var a := Increment(dir, locks[0]);
      SerialAllocations(a.dir, locks[1..]);
    }
  }

  /** From a fresh store, N acquired locks hand out exactly 1..N: strictly
      increasing in execution order, so pairwise distinct. */
  lemma FreshStoreAllocations(dir: Dir, locks: seq<bool>)
    requires CounterFile !in dir
    ensures var r := AllocateAll(Initialise(dir), locks);
            && Consecutive(r.values, 1)
            && (forall i, j :: 0 <= i < j < |r.values| ==> r.values[i] < r.values[j])
            && (forall k: nat :: k in Elements(r.values) <==> 1 <= k <= Count(locks, Acquired))
  {
    var r := AllocateAll(Initialise(dir), locks);
    SerialAllocations(Initialise(dir), locks);
    ConsecutiveRun(r.values, 1);
  }

  /** `n` allocations that all acquire the lock, one after another. */
  method AllocateSerially(dir: Dir, n: nat) returns (final: Dir, values: seq<nat>)
    requires Readable(dir)
    ensures Readable(final)
    ensures |values| == n
    ensures forall i :: 0 <= i < n ==> values[i] == Counter(dir) + 1 + i
    ensures Counter(final) == Counter(dir) + n
  {
    final, values := dir, [];
    var i := 0;
    while i < n
      invariant 0 <= i <= n
      invariant Readable(final)
      invariant |values| == i
      invariant forall j :: 0 <= j < i ==> values[j] == Counter(dir) + 1 + j
      invariant Counter(final) == Counter(dir) + i
    {
      var a := Increment(final, true);
      final, values := a.dir, values + [a.value.value];
      i := i + 1;
    }
  }
}
