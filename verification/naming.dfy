/** The file-naming scheme: `<padded counter>_lineage_data_<id>.json`
    (pages/api/v1/lineage/index.js:84-89, blob-version.js:36-43,
    database-version.js:78, 111), and how the status readers recognise the
    stored files (pages/api/status.js:35-36). */
module Naming {
  import opened Wrappers
  import opened Strings
  import opened Decimal
  import opened Padding

  const Separator := "_lineage_data_"
  const JsonExtension := ".json"
  /** The counter's file, kept in the same directory as the event files. */
  const CounterFile := "counter.txt"

  /** The name an event is stored under, for counter `counter` and
      disambiguator `id` (a UUID, or a serverless event id). */
  function LineageFileName(counter: nat, id: string): (name: string)
    ensures IsJsonName(name)
    ensures (forall i :: 0 <= i < |id| ==> id[i] != '/') ==>
              forall i :: 0 <= i < |name| ==> name[i] != '/'
  {
    var name := PadCounter(counter) + Separator + id + JsonExtension;
    EndsWithAppend(PadCounter(counter) + Separator + id, JsonExtension);
    name
  }

  /** The serverless event id `${Date.now()}-${random}`: the clock reading
      and the random token are inputs. */
  function EventId(stamp: nat, token: string): (id: string)
    ensures |id| > 0 && IsDigit(id[0])
  {
    ToDecimal(stamp) + "-" + token
  }

  predicate IsJsonName(name: string) {
    EndsWith(name, JsonExtension)
  }

  /** The names among `keys` that the status readers count. */
  function JsonNames(keys: set<string>): set<string> {
    set name | name in keys && IsJsonName(name)
  }

  /** `files.filter(file => file.endsWith('.json')).length`. */
  function CountJson(listing: seq<string>): (n: nat)
    ensures n <= |listing|
    ensures n == 0 <==> forall i :: 0 <= i < |listing| ==> !IsJsonName(listing[i])
  {
    if |listing| == 0 then 0
    else (if IsJsonName(listing[0]) then 1 else 0) + CountJson(listing[1..])
  }

  /** `listing` is what `readdirSync` returns for a directory whose entries
      are `keys`: each entry once, in some order. */
  predicate IsListing(listing: seq<string>, keys: set<string>) {
    && (forall i :: 0 <= i < |listing| ==> listing[i] in keys)
    && (forall k :: k in keys ==> k in listing)
    && (forall i, j :: 0 <= i < j < |listing| ==> listing[i] != listing[j])
  }

  // ---------------------------------------------------------------------

  /** parseInt on a file name reads back its counter: the padded counter is
      all digits and the separator starts with '_'. */
  lemma FileNameCarriesCounter(counter: nat, id: string)
    ensures ParseInt(LineageFileName(counter, id)) == Some(counter)
  {
    var p := PadCounter(counter);
    var rest := Separator + id + JsonExtension;
    assert LineageFileName(counter, id) == p + rest;
    assert rest[0] == '_';
    PadCounterDenotes(counter);
    ParseIntOfConcat(p, rest);
  }

  /** Distinct counters give distinct file names, whatever the ids. */
  lemma DistinctCountersDistinctNames(c1: nat, c2: nat, id1: string, id2: string)
    requires c1 != c2
    ensures LineageFileName(c1, id1) != LineageFileName(c2, id2)
  {
    FileNameCarriesCounter(c1, id1);
    FileNameCarriesCounter(c2, id2);
  }

  /** The counter file is never counted as a stored event. */
  lemma CounterFileIsNotJson()
    ensures !IsJsonName(CounterFile)
  {
    assert CounterFile[|CounterFile| - |JsonExtension|] != JsonExtension[0];
  }

  /** A serverless event id never collides with the database's placeholder
      id `temp`. */
  lemma EventIdIsNotTemp(stamp: nat, token: string)
    ensures EventId(stamp, token) != "temp"
  {
  }

  /** Counting `.json` entries of a listing gives the number of `.json`
      names in the directory, whatever order the listing has. */
  lemma {:induction false} CountJsonIsCardinality(listing: seq<string>, keys: set<string>)
    requires IsListing(listing, keys)
    ensures CountJson(listing) == |JsonNames(keys)|
    decreases |listing|
  {
    if |listing| == 0 {
      assert keys == {};
    } else {
      var x := listing[0];
      var rest := keys - {x};
      assert IsListing(listing[1..], rest) by {
        forall k | k in rest ensures k in listing[1..] {
          var i :| 0 <= i < |listing| && listing[i] == k;
          assert i != 0;
          assert listing[1..][i - 1] == k;
        }
        forall i | 0 <= i < |listing[1..]| ensures listing[1..][i] in rest {
          assert listing[1..][i] == listing[i + 1] != listing[0];
        }
      }
      CountJsonIsCardinality(listing[1..], rest);
      if IsJsonName(x) {
        assert JsonNames(keys) == JsonNames(rest) + {x};
      } else {
        assert JsonNames(keys) == JsonNames(rest);
      }
    }
  }
}
