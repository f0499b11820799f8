/** An endpoint is a malware repository client seen only through what the
    download worker asks of it: its name and what `getSample(hash)` does. The
    HTTP clients themselves are not part of this model. */
module Endpoints {

  newtype byte = x: int | 0 <= x < 256

  /** The outcome of one `getSample` call: the returned bytes, a
      `SampleNotFoundException`, or any other exception (including the
      `NullPointerException` a `null` array causes when its length is read). */
  datatype Fetch = Bytes(data: seq<byte>) | NotFound | Failed

  datatype Endpoint = Endpoint(name: string, getSample: string -> Fetch)

  /** An answer after which the worker moves on to the next endpoint: not
      found, or zero bytes. */
  predicate Miss(f: Fetch) {
    f.NotFound? || (f.Bytes? && |f.data| == 0)
  }

  /** What becomes of one hash: downloaded from the named endpoint, missing
      everywhere, or abandoned because an exception escaped the loop. */
  datatype Disposition = Downloaded(source: string, data: seq<byte>) | Missing | Errored

  /** The index of the first endpoint whose answer is not a miss (`|endpoints|`
      when there is none). */
  function FirstNonMiss(endpoints: seq<Endpoint>, hash: string): (k: nat)
    ensures k <= |endpoints|
    ensures forall j :: 0 <= j < k ==> Miss(endpoints[j].getSample(hash))
    ensures k < |endpoints| ==> !Miss(endpoints[k].getSample(hash))
  {
    if endpoints == [] then 0
    else if Miss(endpoints[0].getSample(hash)) then 1 + FirstNonMiss(endpoints[1..], hash)
    else 0
  }

  /** The fallback rule: endpoints are asked in list order and the first answer
      that is not a miss decides. */
  function Resolve(endpoints: seq<Endpoint>, hash: string): Disposition
  {
    var k := FirstNonMiss(endpoints, hash);
    if k == |endpoints| then Missing
    else match endpoints[k].getSample(hash)
      case Bytes(data) => Downloaded(endpoints[k].name, data)
      case _ => Errored
  }

  /** How many `getSample` calls the worker makes: all endpoints when every one
      misses, otherwise up to and including the deciding one. */
  function Calls(endpoints: seq<Endpoint>, hash: string): (c: nat)
    ensures c <= |endpoints|
    ensures forall j :: 0 <= j < c - 1 ==> Miss(endpoints[j].getSample(hash))
    ensures c < |endpoints| ==> 0 < c && !Miss(endpoints[c - 1].getSample(hash))
  {
    var k := FirstNonMiss(endpoints, hash);
    if k == |endpoints| then k else k + 1
  }

  lemma FirstNonMissUnique(endpoints: seq<Endpoint>, hash: string, k: nat)
    requires k <= |endpoints|
    requires forall j :: 0 <= j < k ==> Miss(endpoints[j].getSample(hash))
    requires k < |endpoints| ==> !Miss(endpoints[k].getSample(hash))
    ensures FirstNonMiss(endpoints, hash) == k
  {
  }

  /** First match wins: a hash is downloaded from `name` with `data` exactly
      when some endpoint called `name` returns non-empty `data` and every
      endpoint before it misses. */
  lemma ResolveDownloadedIff(endpoints: seq<Endpoint>, hash: string, name: string, data: seq<byte>)
    ensures Resolve(endpoints, hash) == Downloaded(name, data) <==>
      exists i :: 0 <= i < |endpoints| && endpoints[i].getSample(hash) == Bytes(data) && |data| > 0
                  && endpoints[i].name == name
                  && forall j :: 0 <= j < i ==> Miss(endpoints[j].getSample(hash))
  {
    if exists i :: 0 <= i < |endpoints| && endpoints[i].getSample(hash) == Bytes(data) && |data| > 0
                   && endpoints[i].name == name
                   && forall j :: 0 <= j < i ==> Miss(endpoints[j].getSample(hash)) {
      var i :| 0 <= i < |endpoints| && endpoints[i].getSample(hash) == Bytes(data) && |data| > 0
               && endpoints[i].name == name
               && forall j :: 0 <= j < i ==> Miss(endpoints[j].getSample(hash));
      FirstNonMissUnique(endpoints, hash, i);
    }
  }

  /** A hash is missing exactly when every endpoint misses it. */
  lemma ResolveMissingIff(endpoints: seq<Endpoint>, hash: string)
    ensures Resolve(endpoints, hash) == Missing <==>
      forall j :: 0 <= j < |endpoints| ==> Miss(endpoints[j].getSample(hash))
  {
    if forall j :: 0 <= j < |endpoints| ==> Miss(endpoints[j].getSample(hash)) {
      FirstNonMissUnique(endpoints, hash, |endpoints|);
    }
  }

  /** A hash is abandoned exactly when some endpoint throws something other
      than `SampleNotFoundException` before any endpoint delivered it. */
  lemma ResolveErroredIff(endpoints: seq<Endpoint>, hash: string)
    ensures Resolve(endpoints, hash) == Errored <==>
      exists i :: 0 <= i < |endpoints| && endpoints[i].getSample(hash) == Failed
                  && forall j :: 0 <= j < i ==> Miss(endpoints[j].getSample(hash))
  {
    if exists i :: 0 <= i < |endpoints| && endpoints[i].getSample(hash) == Failed
                   && forall j :: 0 <= j < i ==> Miss(endpoints[j].getSample(hash)) {
      var i :| 0 <= i < |endpoints| && endpoints[i].getSample(hash) == Failed
               && forall j :: 0 <= j < i ==> Miss(endpoints[j].getSample(hash));
      FirstNonMissUnique(endpoints, hash, i);
    }
  }

  /** Once an endpoint decides, endpoints after it are never called and cannot
      change the outcome. */
  lemma ResolveIgnoresLaterEndpoints(endpoints: seq<Endpoint>, later: seq<Endpoint>, hash: string)
    requires Resolve(endpoints, hash) != Missing
    ensures Resolve(endpoints + later, hash) == Resolve(endpoints, hash)
    ensures Calls(endpoints + later, hash) == Calls(endpoints, hash)
  {
    var k := FirstNonMiss(endpoints, hash);
    var all := endpoints + later;
    assert forall j :: 0 <= j <= k ==> all[j] == endpoints[j];
    FirstNonMissUnique(all, hash, k);
  }

  /** When every endpoint misses, the list behaves as if it were not there:
      the fallback continues with whatever follows. */
  lemma ResolveAfterAllMiss(endpoints: seq<Endpoint>, later: seq<Endpoint>, hash: string)
    requires Resolve(endpoints, hash) == Missing
    ensures Resolve(endpoints + later, hash) == Resolve(later, hash)
    ensures Calls(endpoints + later, hash) == |endpoints| + Calls(later, hash)
  {
    var all := endpoints + later;
    var k := FirstNonMiss(later, hash);
    assert forall j :: 0 <= j < |endpoints| ==> all[j] == endpoints[j];
    assert forall j :: 0 <= j < |later| ==> all[|endpoints| + j] == later[j];
    FirstNonMissUnique(all, hash, |endpoints| + k);
  }
}
