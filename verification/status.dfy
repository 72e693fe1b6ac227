/** The two status readers: pages/api/status.js and app/api/status/route.ts.
    Both read the counter file back with `parseInt(text, 10) || 0` and count
    the `.json` entries of the lineage directory. They return a response
    and no new directory: neither can change the counter or the files.
    Whether the directory exists, its listing (`readdirSync`) and whether
    the reads throw are inputs. */
module Status {
  import opened Wrappers
  import opened Decimal
  import opened Naming
  import opened Sequences
  import opened CounterStore
  import FileSink

  datatype Stats = Stats(totalEventsReceived: nat, filesStored: nat)

  datatype Body =
    | Healthy(stats: Stats)   // status 'healthy', with the statistics
    | Failed                  // status 'error'
    | MethodNotAllowed
    | NoBody

  datatype Response = Response(status: nat, body: Body)

  /** The listing enumerates the directory, when there is one. */
  predicate Listed(lineageDir: Option<Dir>, listing: seq<string>) {
    lineageDir.Some? ==> IsListing(listing, lineageDir.value.Keys)
  }

  /** Some read inside the `try` throws: reads only happen when the
      directory exists. */
  predicate Throws(lineageDir: Option<Dir>, readsSucceed: bool) {
    lineageDir.Some? && !readsSucceed
  }

  /** What a reader is to report about the lineage directory, stated on
      the directory itself rather than on a listing of it: nothing when it
      is missing; otherwise the number the counter file starts with (0 when
      the file is missing or reads as NaN) and the number of `.json` names. */
  predicate Reports(lineageDir: Option<Dir>, st: Stats) {
    match lineageDir
    case None => st == Stats(0, 0)
    case Some(dir) =>
      && st.filesStored == |JsonNames(dir.Keys)|
      && (CounterFile !in dir ==> st.totalEventsReceived == 0)
      && (CounterFile in dir && ParseInt(dir[CounterFile]).None? ==> st.totalEventsReceived == 0)
      && (CounterFile in dir && ParseInt(dir[CounterFile]).Some? ==>
            st.totalEventsReceived == ParseInt(dir[CounterFile]).value)
  }

  /** The statistics both readers compute. */
  function ReadStats(lineageDir: Option<Dir>, listing: seq<string>): (st: Stats)
    requires Listed(lineageDir, listing)
    ensures Reports(lineageDir, st)
  {
    match lineageDir
    case None => Stats(0, 0)
    case Some(dir) =>
      var total := if CounterFile in dir then ParseIntOrZero(dir[CounterFile]) else 0;
      CountJsonIsCardinality(listing, dir.Keys);
      Stats(total, CountJson(listing))
  }

  /** pages/api/status.js: GET and HEAD only; HEAD still performs the reads
      and then answers 200 with no body; any thrown error answers 500. */
  function PagesStatus(verb: string, lineageDir: Option<Dir>, listing: seq<string>, readsSucceed: bool): (r: Response)
    requires Listed(lineageDir, listing)
    ensures verb != "GET" && verb != "HEAD" ==> r == Response(405, MethodNotAllowed)
    ensures (verb == "GET" || verb == "HEAD") && Throws(lineageDir, readsSucceed) ==>
              r == Response(500, Failed)
    ensures verb == "HEAD" && !Throws(lineageDir, readsSucceed) ==> r == Response(200, NoBody)
    ensures verb == "GET" && !Throws(lineageDir, readsSucceed) ==>
              r.status == 200 && r.body.Healthy? && Reports(lineageDir, r.body.stats)
  {
    if verb != "GET" && verb != "HEAD" then Response(405, MethodNotAllowed)
    else if Throws(lineageDir, readsSucceed) then Response(500, Failed)
    else
      var stats := ReadStats(lineageDir, listing);
      if verb == "HEAD" then Response(200, NoBody) else Response(200, Healthy(stats))
  }

  /** app/api/status/route.ts, GET. */
  function AppGet(lineageDir: Option<Dir>, listing: seq<string>, readsSucceed: bool): (r: Response)
    requires Listed(lineageDir, listing)
    ensures Throws(lineageDir, readsSucceed) ==> r == Response(500, Failed)
    ensures !Throws(lineageDir, readsSucceed) ==>
              r.status == 200 && r.body.Healthy? && Reports(lineageDir, r.body.stats)
  {
    if Throws(lineageDir, readsSucceed) then Response(500, Failed)
    else Response(200, Healthy(ReadStats(lineageDir, listing)))
  }

  /** app/api/status/route.ts, HEAD: answers 200 without reading anything. */
  function AppHead(): (r: Response)
    ensures r.status == 200 && r.body == NoBody
  {
    Response(200, NoBody)
  }

  // ---------------------------------------------------------------------

  /** The two readers answer GET identically. */
  lemma ReadersAgreeOnGet(lineageDir: Option<Dir>, listing: seq<string>, readsSucceed: bool)
    requires Listed(lineageDir, listing)
    ensures PagesStatus("GET", lineageDir, listing, readsSucceed) == AppGet(lineageDir, listing, readsSucceed)
  {
  }

  /** They differ on HEAD: the pages reader reads first and can fail, the
      app reader never reads. */
  lemma ReadersDifferOnHead(dir: Dir, listing: seq<string>)
    requires IsListing(listing, dir.Keys)
    ensures PagesStatus("HEAD", Some(dir), listing, false).status == 500
    ensures AppHead().status == 200
  {
  }

  /** Reading back the decimal text the allocator writes reports the same
      number. */
  lemma ReportsWrittenCounter(dir: Dir, listing: seq<string>, n: nat)
    requires IsListing(listing, dir.Keys)
    requires CounterFile in dir && dir[CounterFile] == ToDecimal(n)
    ensures ReadStats(Some(dir), listing).totalEventsReceived == n
  {
    ParseDecimal(n);
  }

  /** After any run of the file sink from a fresh directory, the status
      page reports every acquired allocation as an event received and every
      file left behind, complete or partial, as a stored file; the
      difference is the gaps. */
  lemma StatusAfterRun(dir: Dir, reqs: seq<FileSink.Request>, listing: seq<string>)
    requires CounterFile !in dir && JsonNames(dir.Keys) == {}
    requires IsListing(listing, FileSink.ServeAll(Initialise(dir), reqs).dir.Keys)
    ensures var t := FileSink.ServeAll(Initialise(dir), reqs);
            var n := Count(reqs, FileSink.Allocates);
            var files := Count(reqs, FileSink.Completes) + Count(reqs, FileSink.LeavesPartial);
            && PagesStatus("GET", Some(t.dir), listing, true) == Response(200, Healthy(Stats(n, files)))
            && n == files + Count(reqs, FileSink.LeavesGap)
            && AppGet(Some(t.dir), listing, true) == PagesStatus("GET", Some(t.dir), listing, true)
  {
    var t := FileSink.ServeAll(Initialise(dir), reqs);
    FileSink.FreshRunAccounting(dir, reqs);
    var st := ReadStats(Some(t.dir), listing);
    assert st.filesStored == Count(reqs, FileSink.Completes) + Count(reqs, FileSink.LeavesPartial);
    assert ParseIntOrZero(t.dir[CounterFile]) == Counter(t.dir);
  }
}
