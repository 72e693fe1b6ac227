/** The request handler of pages/api/v1/lineage/index.js: allocate a counter
    value inside the lock, then write the payload to
    `<padded>_lineage_data_<uuid>.json` next to the counter file. The UUID,
    the serialised payload (`JSON.stringify(data, null, 2)`), whether the
    lock was acquired and how `fs.writeFile` ended are inputs. */
module FileSink {
  import opened Wrappers
  import opened Decimal
  import opened Naming
  import opened Sequences
  import opened CounterStore

  /** How `fs.writeFile` ends. It opens the target with flag `'w'`, which
      creates or truncates it, and then writes; so a failure after the open
      leaves a file holding the first `kept` characters of the payload (at
      most all of them), possibly none. */
  datatype WriteOutcome =
    | Written
    | NotOpened
    | Interrupted(kept: nat)

  datatype Request = Request(uuid: string, payload: string, lockAcquired: bool, write: WriteOutcome)

  datatype Reply = Reply(status: nat, text: string)

  /** The directory afterwards, and the reply (`None`: no reply is ever sent). */
  datatype Served = Served(dir: Dir, reply: Option<Reply>)

  const SavedPrefix := "Payload saved successfully to "
  const WriteErrorText := "Error writing to file"

  /** The name the next event will be stored under. */
  function NextName(dir: Dir, uuid: string): string
    requires Readable(dir)
  {
    LineageFileName(Counter(dir) + 1, uuid)
  }

  /** What an interrupted write leaves in the file: a prefix of the payload. */
  function Partial(payload: string, kept: nat): (p: string)
    ensures p <= payload
    ensures |p| == if kept < |payload| then kept else |payload|
  {
    payload[..if kept < |payload| then kept else |payload|]
  }

  /** The request took a counter value. */
  predicate Allocates(req: Request) {
    req.lockAcquired
  }

  /** The request took a counter value and its file exists afterwards,
      complete or not. */
  predicate LeavesFile(req: Request) {
    req.lockAcquired && !req.write.NotOpened?
  }

  /** The request took a counter value and stored its whole payload. */
  predicate Completes(req: Request) {
    req.lockAcquired && req.write.Written?
  }

  /** The request took a counter value and left an empty or partial file. */
  predicate LeavesPartial(req: Request) {
    req.lockAcquired && req.write.Interrupted?
  }

  /** The request took a counter value and left no file: a sequence gap. */
  predicate LeavesGap(req: Request) {
    req.lockAcquired && req.write.NotOpened?
  }

  /** One request. Without the lock nothing happens and no reply is sent.
      With it, the counter advances by one whatever the write does. A
      complete write stores the payload under the new name and replies 200;
      a failed one replies 500, leaving no file when the open failed and a
      truncated one when the write failed after it. */
  function Serve(dir: Dir, req: Request): (s: Served)
    requires WellFormed(dir)
    ensures WellFormed(s.dir)
    ensures s.reply.None? <==> !req.lockAcquired || CounterFile !in dir
    ensures s.reply.None? ==> s.dir == dir
    ensures s.reply.Some? ==> Readable(dir) && Readable(s.dir) && Counter(s.dir) == Counter(dir) + 1
    ensures s.reply.Some? && req.write.Written? ==>
              && s.reply.value == Reply(200, SavedPrefix + NextName(dir, req.uuid))
              && s.dir.Keys == dir.Keys + {NextName(dir, req.uuid)}
              && s.dir[NextName(dir, req.uuid)] == req.payload
    ensures s.reply.Some? && !req.write.Written? ==> s.reply.value == Reply(500, WriteErrorText)
    ensures s.reply.Some? && req.write.NotOpened? ==> s.dir.Keys == dir.Keys
    ensures s.reply.Some? && req.write.Interrupted? ==>
              && s.dir.Keys == dir.Keys + {NextName(dir, req.uuid)}
              && s.dir[NextName(dir, req.uuid)] <= req.payload
              && |s.dir[NextName(dir, req.uuid)]| <= req.write.kept
  {
    var a := Increment(dir, req.lockAcquired);
    match a.value
    case None => Served(a.dir, None)
    case Some(counter) =>
      var fileName := LineageFileName(counter, req.uuid);
      CounterFileIsNotJson();
      match req.write
      case Written =>
        Served(a.dir[fileName := req.payload], Some(Reply(200, SavedPrefix + fileName)))
      case NotOpened =>
        Served(a.dir, Some(Reply(500, WriteErrorText)))
      case Interrupted(kept) =>
        Served(a.dir[fileName := Partial(req.payload, kept)], Some(Reply(500, WriteErrorText)))
  }

  /** Serving a request touches no file other than the counter and the
      new event file. */
  lemma ServeFrame(dir: Dir, req: Request, f: string)
    requires WellFormed(dir)
    requires f in dir && f != CounterFile
    requires var s := Serve(dir, req); s.reply.None? || !LeavesFile(req) || f != NextName(dir, req.uuid)
    ensures f in Serve(dir, req).dir && Serve(dir, req).dir[f] == dir[f]
  {
  }

  /** Every stored event file carries a counter value already handed out:
      parseInt of its name lies between 1 and the stored counter. */
  predicate Consistent(dir: Dir) {
    && Readable(dir)
    && forall f :: f in dir && IsJsonName(f) ==>
         ParseInt(f).Some? && 1 <= ParseInt(f).value <= Counter(dir)
  }

  /** A fresh directory, initialised, is consistent. */
  lemma FreshIsConsistent(dir: Dir)
    requires CounterFile !in dir && JsonNames(dir.Keys) == {}
    ensures Consistent(Initialise(dir))
    ensures Counter(Initialise(dir)) == 0
  {
    var d := Initialise(dir);
    CounterFileIsNotJson();
    assert forall f :: f in d && IsJsonName(f) ==> f in JsonNames(dir.Keys);
  }

  /** Under consistency the next name is not yet taken: its counter is
      above every stored one. */
  lemma NextNameIsFresh(dir: Dir, uuid: string)
    requires Consistent(dir)
    ensures NextName(dir, uuid) !in dir
  {
    var name := NextName(dir, uuid);
    FileNameCarriesCounter(Counter(dir) + 1, uuid);
    assert IsJsonName(name) && ParseInt(name).value > Counter(dir);
  }

  /** Serving a request keeps every stored file within the counter. */
  lemma ServeStaysConsistent(dir: Dir, req: Request)
    requires Consistent(dir)
    ensures Consistent(Serve(dir, req).dir)
  {
    var s := Serve(dir, req);
    if s.reply.Some? {
      var name := NextName(dir, req.uuid);
      var n := Counter(s.dir);
      assert n == Counter(dir) + 1;
      FileNameCarriesCounter(n, req.uuid);
      CounterFileIsNotJson();
      forall f | f in s.dir && IsJsonName(f)
        ensures ParseInt(f).Some? && 1 <= ParseInt(f).value <= n
      {
        if f == name {
          assert ParseInt(f) == Some(n);
        } else {
          assert f in dir.Keys;
          assert ParseInt(f).Some? && ParseInt(f).value <= Counter(dir);
        }
      }
    }
  }

  /** The number of `.json` files grows by one exactly when the request
      leaves a file behind, complete or partial. */
  lemma ServeJsonCount(dir: Dir, req: Request)
    requires Consistent(dir)
    ensures |JsonNames(Serve(dir, req).dir.Keys)| ==
              |JsonNames(dir.Keys)| + (if LeavesFile(req) then 1 else 0)
  {
    var s := Serve(dir, req);
    if LeavesFile(req) {
      var name := NextName(dir, req.uuid);
      NextNameIsFresh(dir, req.uuid);
      FileNameCarriesCounter(Counter(dir) + 1, req.uuid);
      assert JsonNames(s.dir.Keys) == JsonNames(dir.Keys) + {name};
    } else {
      assert s.dir.Keys == dir.Keys;
    }
  }

  /** Serving a request keeps the directory consistent, a new file never
      lands on an existing one, and the number of `.json` files grows by
      one exactly when the request leaves a file behind. */
  lemma ServeKeepsConsistent(dir: Dir, req: Request)
    requires Consistent(dir)
    ensures var s := Serve(dir, req);
            && Consistent(s.dir)
            && (s.reply.Some? && LeavesFile(req) ==> NextName(dir, req.uuid) !in dir)
            && |JsonNames(s.dir.Keys)| == |JsonNames(dir.Keys)| + (if LeavesFile(req) then 1 else 0)
  {
    ServeStaysConsistent(dir, req);
    NextNameIsFresh(dir, req.uuid);
    ServeJsonCount(dir, req);
  }

  /** A run of serialised requests: the final directory and every reply. */
  datatype Trace = Trace(dir: Dir, replies: seq<Option<Reply>>)

  function ServeAll(dir: Dir, reqs: seq<Request>): (t: Trace)
    requires WellFormed(dir)
    ensures WellFormed(t.dir)
    ensures |t.replies| == |reqs|
    decreases |reqs|
  {
    if |reqs| == 0 then Trace(dir, [])
    else
      var s := Serve(dir, reqs[0]);
      var rest := ServeAll(s.dir, reqs[1..]);
      Trace(rest.dir, [s.reply] + rest.replies)
  }

  /** Every request that takes a counter value ends in exactly one of a
      complete file, a partial file or a gap. */
  lemma {:induction false} Outcomes(reqs: seq<Request>)
    ensures Count(reqs, Allocates) == Count(reqs, Completes) + Count(reqs, LeavesPartial) + Count(reqs, LeavesGap)
    ensures Count(reqs, LeavesFile) == Count(reqs, Completes) + Count(reqs, LeavesPartial)
    decreases |reqs|
  {
    if |reqs| > 0 {
      Outcomes(reqs[1..]);
    }
  }

  /** Over a run, the counter advances once per acquired lock and the
      number of `.json` files once per request that left a file. */
  lemma {:induction false} Accounting(dir: Dir, reqs: seq<Request>)
    requires Consistent(dir)
    ensures var t := ServeAll(dir, reqs);
            && Consistent(t.dir)
            && Counter(t.dir) == Counter(dir) + Count(reqs, Allocates)
            && |JsonNames(t.dir.Keys)| == |JsonNames(dir.Keys)| + Count(reqs, LeavesFile)
    decreases |reqs|
  {
    if |reqs| > 0 {
      ServeKeepsConsistent(dir, reqs[0]);
      Accounting(Serve(dir, reqs[0]).dir, reqs[1..]);
    }
  }

  /** From a fresh directory the counter equals the number of requests that
      acquired the lock, and the `.json` file count is the complete plus
      the partial files, which is the counter minus the sequence gaps. */
  lemma FreshRunAccounting(dir: Dir, reqs: seq<Request>)
    requires CounterFile !in dir && JsonNames(dir.Keys) == {}
    ensures var t := ServeAll(Initialise(dir), reqs);
            && Readable(t.dir)
            && Counter(t.dir) == Count(reqs, Allocates)
            && |JsonNames(t.dir.Keys)| == Count(reqs, Completes) + Count(reqs, LeavesPartial)
            && |JsonNames(t.dir.Keys)| == Counter(t.dir) - Count(reqs, LeavesGap)
  {
    FreshIsConsistent(dir);
    Accounting(Initialise(dir), reqs);
    Outcomes(reqs);
  }
}
