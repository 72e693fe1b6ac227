/** pages/api/v1/lineage/blob-version.js: the counter is a key-value store
    `INCR` of `openlineage-counter`, falling back to the clock reading when
    the store fails; the payload is `put` into blob storage under the
    lineage file name. The key-value store and the blob store are maps; the
    clock, the random token, the store failures and the blob URL are
    inputs. */
module BlobSink {
  import opened Wrappers
  import opened Decimal
  import opened Naming

  const CounterKey := "openlineage-counter"
  /** INCR fails on a value that would leave the signed 64-bit range. */
  const KvIntegerMax: nat := 9223372036854775807

  const MethodNotAllowedText := "Method not allowed"
  const SaveFailedText := "Failed to save event"

  /** Key-value store; the counter key is only ever written by INCR. */
  type Kv = map<string, nat>
  /** Blob store: path name to content. */
  type Blobs = map<string, string>

  /** The counter the key-value store holds (INCR treats a missing key as 0). */
  function Current(kv: Kv): nat {
    if CounterKey in kv then kv[CounterKey] else 0
  }

  datatype Counted = Counted(kv: Kv, counter: nat)

  /** `getNextCounter`: INCR when the store answers, else `Date.now()`. */
  function NextCounter(kv: Kv, kvAvailable: bool, now: nat): (c: Counted)
    ensures kvAvailable && Current(kv) < KvIntegerMax ==>
              && c.counter == Current(kv) + 1
              && Current(c.kv) == c.counter
              && c.kv.Keys == kv.Keys + {CounterKey}
              && forall k :: k in kv && k != CounterKey ==> c.kv[k] == kv[k]
    ensures !(kvAvailable && Current(kv) < KvIntegerMax) ==> c == Counted(kv, now)
  {
    if kvAvailable && Current(kv) < KvIntegerMax then
      var next := Current(kv) + 1;
      Counted(kv[CounterKey := next], next)
    else
      Counted(kv, now)
  }

  datatype Request = Request(
    verb: string,
    payload: string,       // JSON.stringify(payload, null, 2)
    stamp: nat,            // Date.now() for the event id
    token: string,         // the random part of the event id
    kvAvailable: bool,
    fallbackNow: nat,      // Date.now() inside the counter fallback
    putSucceeds: bool,
    url: string)           // the URL blob storage answers with

  datatype Body =
    | Saved(filename: string, counter: nat, url: string)
    | Error(message: string)

  datatype Response = Response(status: nat, body: Body)

  datatype Store = Store(kv: Kv, blobs: Blobs)

  datatype Handled = Handled(store: Store, response: Response)

  /** The file name a request is stored under, given its counter. */
  function BlobName(counter: nat, req: Request): string {
    LineageFileName(counter, EventId(req.stamp, req.token))
  }

  /** `handler`. A non-POST request is refused with 405 before anything is
      allocated. Otherwise a counter is taken (INCR or the clock), and the
      payload is put under the lineage file name: success answers 200 with
      that same name and counter, failure answers 500 and stores nothing,
      while the counter stays consumed. */
  function Handle(st: Store, req: Request): (h: Handled)
    ensures req.verb != "POST" ==>
              h == Handled(st, Response(405, Error(MethodNotAllowedText)))
    ensures req.verb == "POST" ==>
              var c := NextCounter(st.kv, req.kvAvailable, req.fallbackNow);
              var name := BlobName(c.counter, req);
              && h.store.kv == c.kv
              && (req.putSucceeds ==>
                    && h.store.blobs.Keys == st.blobs.Keys + {name}
                    && h.store.blobs[name] == req.payload
                    && h.response == Response(200, Saved(name, c.counter, req.url)))
              && (!req.putSucceeds ==>
                    && h.store.blobs == st.blobs
                    && h.response == Response(500, Error(SaveFailedText)))
    ensures h.response.status == 200 <==> h.response.body.Saved?
    ensures forall k :: k in st.blobs && (h.response.status != 200 || k != h.response.body.filename) ==>
              k in h.store.blobs && h.store.blobs[k] == st.blobs[k]
  {
    if req.verb != "POST" then Handled(st, Response(405, Error(MethodNotAllowedText)))
    else
      var c := NextCounter(st.kv, req.kvAvailable, req.fallbackNow);
      var fileName := BlobName(c.counter, req);
      if req.putSucceeds then
        Handled(Store(c.kv, st.blobs[fileName := req.payload]), Response(200, Saved(fileName, c.counter, req.url)))
      else
        Handled(Store(c.kv, st.blobs), Response(500, Error(SaveFailedText)))
  }

  /** A run of requests handled one after another. */
  datatype Trace = Trace(store: Store, responses: seq<Response>)

  function HandleAll(st: Store, reqs: seq<Request>): (t: Trace)
    ensures |t.responses| == |reqs|
    decreases |reqs|
  {
    if |reqs| == 0 then Trace(st, [])
    else
      var h := Handle(st, reqs[0]);
      var rest := HandleAll(h.store, reqs[1..]);
      Trace(rest.store, [h.response] + rest.responses)
  }

  /** With the key-value store answering every time, successive POSTs take
      successive increments of the counter key, whether or not their put
      succeeds; the saved ones report those counters, so their file names
      are pairwise distinct. */
  lemma {:induction false} SuccessiveIncrements(st: Store, reqs: seq<Request>)
    requires forall i :: 0 <= i < |reqs| ==> reqs[i].verb == "POST" && reqs[i].kvAvailable
    requires Current(st.kv) + |reqs| <= KvIntegerMax
    ensures var t := HandleAll(st, reqs);
            && Current(t.store.kv) == Current(st.kv) + |reqs|
            && (forall i :: 0 <= i < |reqs| ==>
                  (t.responses[i].body.Saved? <==> reqs[i].putSucceeds))
            && (forall i :: 0 <= i < |reqs| && t.responses[i].body.Saved? ==>
                  t.responses[i].body.counter == Current(st.kv) + 1 + i)
    decreases |reqs|
  {
    if |reqs| > 0 {
      var h := Handle(st, reqs[0]);
      SuccessiveIncrements(h.store, reqs[1..]);
      var t := HandleAll(st, reqs);
      var rest := HandleAll(h.store, reqs[1..]);
      assert t.responses == [h.response] + rest.responses;
      forall i | 0 < i < |reqs|
        ensures t.responses[i] == rest.responses[i - 1]
      {
      }
    }
  }

  /** Saved responses of such a run name pairwise distinct files. */
  lemma SavedNamesDistinct(st: Store, reqs: seq<Request>, i: nat, j: nat)
    requires forall k :: 0 <= k < |reqs| ==> reqs[k].verb == "POST" && reqs[k].kvAvailable
    requires Current(st.kv) + |reqs| <= KvIntegerMax
    requires i < j < |reqs|
    requires HandleAll(st, reqs).responses[i].body.Saved?
    requires HandleAll(st, reqs).responses[j].body.Saved?
    ensures HandleAll(st, reqs).responses[i].body.filename != HandleAll(st, reqs).responses[j].body.filename
  {
    var t := HandleAll(st, reqs);
    SuccessiveIncrements(st, reqs);
    var ci, cj := t.responses[i].body.counter, t.responses[j].body.counter;
    assert t.responses[i].body.filename == BlobName(ci, reqs[i]) by {
      HandledResponseNamesCounter(st, reqs, i);
    }
    assert t.responses[j].body.filename == BlobName(cj, reqs[j]) by {
      HandledResponseNamesCounter(st, reqs, j);
    }
    DistinctCountersDistinctNames(ci, cj, EventId(reqs[i].stamp, reqs[i].token), EventId(reqs[j].stamp, reqs[j].token));
  }

  /** A saved response in a run reports the name built from its own counter. */
  lemma {:induction false} HandledResponseNamesCounter(st: Store, reqs: seq<Request>, i: nat)
    requires i < |reqs|
    requires HandleAll(st, reqs).responses[i].body.Saved?
    ensures var r := HandleAll(st, reqs).responses[i];
            r.body.filename == BlobName(r.body.counter, reqs[i])
    decreases i
  {
    var h := Handle(st, reqs[0]);
    if i > 0 {
      HandledResponseNamesCounter(h.store, reqs[1..], i - 1);
      assert HandleAll(st, reqs).responses[i] == HandleAll(h.store, reqs[1..]).responses[i - 1];
      assert reqs[1..][i - 1] == reqs[i];
    }
  }
}
