/** The orchestration in `MalPull.java`: one endpoint list and one download
    worker per hash, the summary afterwards, and the `hh:mm:ss` duration. The
    thread pool is modelled as running the workers one after another, in the
    (unspecified) iteration order of the hash set. */
module Orchestrator {
  import opened Wrappers
  import opened JavaStrings
  import opened ArgumentsModel
  import opened Endpoints
  import opened Aggregate
  import opened Worker

  // ---------------------------------------------------------------------------
  // The endpoint list

  /** The endpoint clients `main` can construct, with the key each is given
      (the MalwareBazaar client takes none). */
  datatype Client = MalwareBazaarClient | MalShareClient(key: string) | KoodousClient(key: string)
                  | VirusTotalClient(key: string) | TriageClient(key: string)

  /** The position of each client in the list `main` builds. */
  function ClientRank(c: Client): (r: nat)
    ensures r < 5
  {
    match c
    case MalwareBazaarClient => 0
    case MalShareClient(_) => 1
    case KoodousClient(_) => 2
    case VirusTotalClient(_) => 3
    case TriageClient(_) => 4
  }

  /** `c` is the client `main` constructs from the arguments' keys. */
  predicate Configured(a: Arguments, c: Client) {
    match c
    case MalwareBazaarClient => a.malwareBazaarKey.Some?
    case MalShareClient(k) => a.malShareKey == Some(k)
    case KoodousClient(k) => a.koodousKey == Some(k)
    case VirusTotalClient(k) => a.virusTotalKey == Some(k)
    case TriageClient(k) => a.triageKey == Some(k)
  }

  /** The `if (key != null)` test of rank `r`, and the client it constructs. */
  function ClientAt(a: Arguments, r: nat): Option<Client> {
    if r == 0 then (if a.malwareBazaarKey.Some? then Some(MalwareBazaarClient) else None)
    else if r == 1 then (if a.malShareKey.Some? then Some(MalShareClient(a.malShareKey.value)) else None)
    else if r == 2 then (if a.koodousKey.Some? then Some(KoodousClient(a.koodousKey.value)) else None)
    else if r == 3 then (if a.virusTotalKey.Some? then Some(VirusTotalClient(a.virusTotalKey.value)) else None)
    else if r == 4 then (if a.triageKey.Some? then Some(TriageClient(a.triageKey.value)) else None)
    else None
  }

  function Append(cs: seq<Client>, c: Option<Client>): seq<Client> {
    if c.Some? then cs + [c.value] else cs
  }

  predicate ClientsInOrder(cs: seq<Client>) {
    forall i, j :: 0 <= i < j < |cs| ==> ClientRank(cs[i]) < ClientRank(cs[j])
  }

  /** After the tests of ranks below `r`: exactly the configured clients of
      those ranks, in rank order. */
  ghost predicate ClientsBelow(a: Arguments, cs: seq<Client>, r: nat) {
    ClientsInOrder(cs) && forall c :: c in cs <==> ClientRank(c) < r && Configured(a, c)
  }

  lemma {:induction false} AppendStep(a: Arguments, cs: seq<Client>, r: nat)
    requires r < 5 && ClientsBelow(a, cs, r)
    ensures ClientsBelow(a, Append(cs, ClientAt(a, r)), r + 1)
  {
    var ds := Append(cs, ClientAt(a, r));
    forall c ensures c in ds <==> ClientRank(c) < r + 1 && Configured(a, c) {
      if ClientRank(c) == r && Configured(a, c) {
        assert ClientAt(a, r) == Some(c);
      }
    }
  }

  /** The clients of one hash's endpoint list: exactly those whose key is set,
      each with its key, in the order MalwareBazaar, MalShare, Koodous,
      VirusTotal, Triage. */
  function EnabledClients(a: Arguments): (cs: seq<Client>)
    ensures forall c :: c in cs <==> Configured(a, c)
    ensures ClientsInOrder(cs)
  {
    var cs0 := Append([], ClientAt(a, 0));
    var cs1 := Append(cs0, ClientAt(a, 1));
    var cs2 := Append(cs1, ClientAt(a, 2));
    var cs3 := Append(cs2, ClientAt(a, 3));
    AppendStep(a, [], 0);
    AppendStep(a, cs0, 1);
    AppendStep(a, cs1, 2);
    AppendStep(a, cs2, 3);
    AppendStep(a, cs3, 4);
    Append(cs3, ClientAt(a, 4))
  }

  /** This list has no VirusShare client: arguments whose only key is the
      VirusShare one pass validation, yet every hash gets an empty endpoint list. */
  lemma VirusShareOnlyGivesNoEndpoints(a: Arguments)
    requires a.virusShareKey.Some?
    requires a.koodousKey.None? && a.malwareBazaarKey.None? && a.malShareKey.None?
    requires a.virusTotalKey.None? && a.triageKey.None?
    ensures AnyServiceSet(a)
    ensures EnabledClients(a) == []
  {
  }

  /** `endpoints` are the endpoints of the clients `cs`, position by position;
      `connect` gives each client's name and `getSample` behaviour. */
  ghost predicate EndpointsOf(endpoints: seq<Endpoint>, connect: Client -> Endpoint, cs: seq<Client>) {
    |endpoints| == |cs| && forall i :: 0 <= i < |cs| ==> endpoints[i] == connect(cs[i])
  }

  /** The endpoint list every worker is given. */
  function EndpointsFor(a: Arguments, connect: Client -> Endpoint): (endpoints: seq<Endpoint>)
    ensures EndpointsOf(endpoints, connect, EnabledClients(a))
  {
    var cs := EnabledClients(a);
    seq(|cs|, i requires 0 <= i < |cs| => connect(cs[i]))
  }

  lemma EndpointsOfStep(connect: Client -> Endpoint, endpoints: seq<Endpoint>, cs: seq<Client>, c: Option<Client>)
    requires EndpointsOf(endpoints, connect, cs)
    ensures EndpointsOf(if c.Some? then endpoints + [connect(c.value)] else endpoints, connect, Append(cs, c))
  {
  }

  lemma EndpointsOfUnique(e1: seq<Endpoint>, e2: seq<Endpoint>, connect: Client -> Endpoint, cs: seq<Client>)
    requires EndpointsOf(e1, connect, cs) && EndpointsOf(e2, connect, cs)
    ensures e1 == e2
  {
  }

  /** The body of `main`'s loop that builds one hash's endpoint list. */
  method BuildEndpoints(a: Arguments, connect: Client -> Endpoint) returns (endpoints: seq<Endpoint>)
    ensures endpoints == EndpointsFor(a, connect)
    ensures EndpointsOf(endpoints, connect, EnabledClients(a))
  {
    ghost var cs: seq<Client> := [];
    endpoints := [];
    EndpointsOfStep(connect, endpoints, cs, ClientAt(a, 0));
    if a.malwareBazaarKey.Some? {
      endpoints := endpoints + [connect(MalwareBazaarClient)];
    }
    cs := Append(cs, ClientAt(a, 0));
    EndpointsOfStep(connect, endpoints, cs, ClientAt(a, 1));
    if a.malShareKey.Some? {
      endpoints := endpoints + [connect(MalShareClient(a.malShareKey.value))];
    }
    cs := Append(cs, ClientAt(a, 1));
    EndpointsOfStep(connect, endpoints, cs, ClientAt(a, 2));
    if a.koodousKey.Some? {
      endpoints := endpoints + [connect(KoodousClient(a.koodousKey.value))];
    }
    cs := Append(cs, ClientAt(a, 2));
    EndpointsOfStep(connect, endpoints, cs, ClientAt(a, 3));
    if a.virusTotalKey.Some? {
      endpoints := endpoints + [connect(VirusTotalClient(a.virusTotalKey.value))];
    }
    cs := Append(cs, ClientAt(a, 3));
    EndpointsOfStep(connect, endpoints, cs, ClientAt(a, 4));
    if a.triageKey.Some? {
      endpoints := endpoints + [connect(TriageClient(a.triageKey.value))];
    }
    cs := Append(cs, ClientAt(a, 4));
    assert cs == EnabledClients(a);
    EndpointsOfUnique(endpoints, EndpointsFor(a, connect), connect, cs);
  }

  // ---------------------------------------------------------------------------
  // What a run produces

  /** The hash and progress numbers one worker is created with. */
  datatype Job = Job(hash: string, count: int, total: int)

  function DownloadedSamples(hashes: set<string>, endpoints: seq<Endpoint>): map<string, string> {
    map h | h in hashes && Resolve(endpoints, h).Downloaded? :: Resolve(endpoints, h).source
  }

  function MissingHashes(hashes: set<string>, endpoints: seq<Endpoint>): set<string> {
    set h | h in hashes && Resolve(endpoints, h).Missing?
  }

  function ErroredHashes(hashes: set<string>, endpoints: seq<Endpoint>): set<string> {
    set h | h in hashes && Resolve(endpoints, h).Errored?
  }

  lemma DisjointCard(all: set<string>, d: set<string>, m: set<string>, e: set<string>)
    requires all == d + m + e && d * m == {} && d * e == {} && m * e == {}
    ensures |all| == |d| + |m| + |e|
  {
    assert (d + m) * e == {};
  }

  /** Which of the three outcome sets a hash belongs to is what `Resolve`
      decides for it. */
  lemma OutcomeOf(hashes: set<string>, endpoints: seq<Endpoint>, h: string)
    ensures h in DownloadedSamples(hashes, endpoints) <==> h in hashes && Resolve(endpoints, h).Downloaded?
    ensures h in MissingHashes(hashes, endpoints) <==> h in hashes && Resolve(endpoints, h).Missing?
    ensures h in ErroredHashes(hashes, endpoints) <==> h in hashes && Resolve(endpoints, h).Errored?
  {
  }

  /** Sorting a set by a three-way outcome splits it into three disjoint parts
      whose sizes add up. */
  lemma PartitionCard(all: set<string>, f: string -> Disposition, d: set<string>, m: set<string>, e: set<string>)
    requires forall h :: h in d <==> h in all && f(h).Downloaded?
    requires forall h :: h in m <==> h in all && f(h).Missing?
    requires forall h :: h in e <==> h in all && f(h).Errored?
    ensures forall h :: h in all ==> !(h in d && h in m) && (h in e <==> h !in d && h !in m)
    ensures |all| == |d| + |m| + |e|
  {
    assert all == d + m + e;
    DisjointCard(all, d, m, e);
  }

  /** Every hash ends up in exactly one of: the downloaded samples, the missing
      hashes, the hashes whose worker failed; so the three counts add up. */
  lemma OutcomePartition(hashes: set<string>, endpoints: seq<Endpoint>)
    ensures forall h :: h in hashes ==>
      !(h in DownloadedSamples(hashes, endpoints) && h in MissingHashes(hashes, endpoints))
    ensures forall h :: h in hashes ==>
      (h in ErroredHashes(hashes, endpoints) <==>
       h !in DownloadedSamples(hashes, endpoints) && h !in MissingHashes(hashes, endpoints))
    ensures |hashes| == |DownloadedSamples(hashes, endpoints)| + |MissingHashes(hashes, endpoints)|
                        + |ErroredHashes(hashes, endpoints)|
  {
    var d := DownloadedSamples(hashes, endpoints).Keys;
    var m := MissingHashes(hashes, endpoints);
    var e := ErroredHashes(hashes, endpoints);
    var f := h => Resolve(endpoints, h);
    forall h
      ensures (h in d <==> h in hashes && f(h).Downloaded?) && (h in m <==> h in hashes && f(h).Missing?)
              && (h in e <==> h in hashes && f(h).Errored?)
    {
      OutcomeOf(hashes, endpoints, h);
    }
    PartitionCard(hashes, f, d, m, e);
  }

  /** The count `main` prints as "Downloaded N samples" is the number of hashes
      minus the number of missing ones; it therefore also counts every hash
      whose worker was stopped by an exception. */
  lemma ReportedCountIncludesFailedTasks(hashes: set<string>, endpoints: seq<Endpoint>)
    ensures |hashes| - |MissingHashes(hashes, endpoints)|
         == |DownloadedSamples(hashes, endpoints)| + |ErroredHashes(hashes, endpoints)|
  {
    OutcomePartition(hashes, endpoints);
  }

  /** The two counts agree exactly when no worker failed. */
  lemma ReportedCountExactIffNoFailures(hashes: set<string>, endpoints: seq<Endpoint>)
    ensures |hashes| - |MissingHashes(hashes, endpoints)| == |DownloadedSamples(hashes, endpoints)|
        <==> ErroredHashes(hashes, endpoints) == {}
  {
    ReportedCountIncludesFailedTasks(hashes, endpoints);
  }

  /** One hash, one endpoint that throws: nothing is downloaded, yet one
      sample is reported as downloaded. */
  lemma ReportedCountCounterexample()
    ensures var endpoints := [Endpoint("A", (h: string) => Failed)];
      |{"h"}| - |MissingHashes({"h"}, endpoints)| == 1
      && DownloadedSamples({"h"}, endpoints) == map[]
  {
    var endpoints := [Endpoint("A", (h: string) => Failed)];
    assert Resolve(endpoints, "h") == Errored;
    assert MissingHashes({"h"}, endpoints) == {};
    assert DownloadedSamples({"h"}, endpoints) == map[];
  }

  predicate NoDuplicates(s: seq<string>) {
    forall i, j :: 0 <= i < j < |s| ==> s[i] != s[j]
  }

  lemma {:induction false} NoDuplicatesCard(s: seq<string>)
    requires NoDuplicates(s)
    ensures |set x | x in s| == |s|
  {
    if s != [] {
      var init := s[..|s| - 1];
      NoDuplicatesCard(init);
      assert (set x | x in s) == (set x | x in init) + {s[|s| - 1]};
      assert s[|s| - 1] !in init;
    }
  }

  lemma TargetPathInjective(folder: string, h1: string, h2: string)
    requires TargetPath(folder, h1) == TargetPath(folder, h2)
    ensures h1 == h2
  {
    var n := |folder| + 1;
    assert h1 == TargetPath(folder, h1)[n..];
    assert h2 == TargetPath(folder, h2)[n..];
  }

  lemma DownloadedSamplesStep(done: set<string>, h: string, endpoints: seq<Endpoint>)
    requires h !in done
    ensures var d := Resolve(endpoints, h);
      DownloadedSamples(done + {h}, endpoints)
      == if d.Downloaded? then DownloadedSamples(done, endpoints)[h := d.source]
         else DownloadedSamples(done, endpoints)
  {
  }

  lemma MissingHashesStep(done: set<string>, h: string, endpoints: seq<Endpoint>)
    ensures MissingHashes(done + {h}, endpoints)
         == if Resolve(endpoints, h).Missing? then MissingHashes(done, endpoints) + {h}
            else MissingHashes(done, endpoints)
  {
  }

  /** `p` is the target path of a hash of `done` that was downloaded and whose
      file could be opened. */
  ghost predicate Written(p: string, unwritable: set<string>, folder: string, done: set<string>,
                          endpoints: seq<Endpoint>)
  {
    && |p| > |folder| && p[..|folder| + 1] == folder + [Separator] && p !in unwritable
    && var h := p[|folder| + 1..]; h in done && Resolve(endpoints, h).Downloaded?
  }

  /** A path is the target path of exactly one hash: the text after the
      folder and its separator. */
  lemma TargetPathSplit(folder: string, p: string, h: string)
    ensures p == TargetPath(folder, h) <==>
      |p| > |folder| && p[..|folder| + 1] == folder + [Separator] && p[|folder| + 1..] == h
  {
    if p == TargetPath(folder, h) {
      assert p[..|folder| + 1] == folder + [Separator];
      assert p[|folder| + 1..] == h;
    }
  }

  /** The files of the output folder once the workers of the hashes in `done`
      have run, starting from `files0`: each downloaded sample whose file
      could be opened is stored under its target path, and every other path
      keeps what it held before. */
  ghost function StoredFiles(files0: map<string, seq<byte>>, unwritable: set<string>, folder: string,
                             done: set<string>, endpoints: seq<Endpoint>): map<string, seq<byte>>
  {
    var written := set h | h in done && Resolve(endpoints, h).Downloaded? && TargetPath(folder, h) !in unwritable
                         :: TargetPath(folder, h);
    assert forall h :: TargetPath(folder, h) in written ==> Written(TargetPath(folder, h), unwritable, folder, done, endpoints) by {
      forall h | TargetPath(folder, h) in written
        ensures Written(TargetPath(folder, h), unwritable, folder, done, endpoints)
      {
        var g :| g in done && Resolve(endpoints, g).Downloaded? && TargetPath(folder, g) !in unwritable
                 && TargetPath(folder, g) == TargetPath(folder, h);
        TargetPathSplit(folder, TargetPath(folder, g), g);
      }
    }
    WrittenIsTarget(unwritable, folder, done, endpoints, written);
    map p | p in files0.Keys + written ::
      if Written(p, unwritable, folder, done, endpoints) then Resolve(endpoints, p[|folder| + 1..]).data
      else files0[p]
  }

  lemma WrittenIsTarget(unwritable: set<string>, folder: string, done: set<string>, endpoints: seq<Endpoint>,
                        written: set<string>)
    requires written == set h | h in done && Resolve(endpoints, h).Downloaded? && TargetPath(folder, h) !in unwritable
                              :: TargetPath(folder, h)
    ensures forall p :: p in written <==> Written(p, unwritable, folder, done, endpoints)
  {
    forall p | p in written
      ensures Written(p, unwritable, folder, done, endpoints)
    {
      var h :| h in done && Resolve(endpoints, h).Downloaded? && TargetPath(folder, h) !in unwritable
               && TargetPath(folder, h) == p;
      TargetPathSplit(folder, p, h);
    }
    forall p | Written(p, unwritable, folder, done, endpoints)
      ensures p in written
    {
      var h := p[|folder| + 1..];
      TargetPathSplit(folder, p, h);
    }
  }

  /** The stored files at one path. */
  lemma StoredFilesAt(files0: map<string, seq<byte>>, unwritable: set<string>, folder: string,
                      done: set<string>, endpoints: seq<Endpoint>, p: string)
    ensures var files := StoredFiles(files0, unwritable, folder, done, endpoints);
      && (p in files <==> p in files0 || Written(p, unwritable, folder, done, endpoints))
      && (p in files ==> files[p] == if Written(p, unwritable, folder, done, endpoints)
                                     then Resolve(endpoints, p[|folder| + 1..]).data else files0[p])
  {
    var written := set h | h in done && Resolve(endpoints, h).Downloaded? && TargetPath(folder, h) !in unwritable
                         :: TargetPath(folder, h);
    WrittenIsTarget(unwritable, folder, done, endpoints, written);
  }

  /** The stored files hold every downloaded sample whose file could be
      opened under its target path, and nothing else differs from `files0`. */
  lemma StoredFilesContents(files0: map<string, seq<byte>>, unwritable: set<string>, folder: string,
                            done: set<string>, endpoints: seq<Endpoint>)
    ensures var files := StoredFiles(files0, unwritable, folder, done, endpoints);
      forall h :: h in done && Resolve(endpoints, h).Downloaded? && TargetPath(folder, h) !in unwritable ==>
        TargetPath(folder, h) in files && files[TargetPath(folder, h)] == Resolve(endpoints, h).data
    ensures var files := StoredFiles(files0, unwritable, folder, done, endpoints);
      forall p :: !Written(p, unwritable, folder, done, endpoints) ==>
        (p in files <==> p in files0) && (p in files ==> files[p] == files0[p])
  {
    forall h | h in done && Resolve(endpoints, h).Downloaded? && TargetPath(folder, h) !in unwritable
      ensures var files := StoredFiles(files0, unwritable, folder, done, endpoints);
        TargetPath(folder, h) in files && files[TargetPath(folder, h)] == Resolve(endpoints, h).data
    {
      var p := TargetPath(folder, h);
      TargetPathSplit(folder, p, h);
      StoredFilesAt(files0, unwritable, folder, done, endpoints, p);
    }
    forall p | !Written(p, unwritable, folder, done, endpoints)
      ensures var files := StoredFiles(files0, unwritable, folder, done, endpoints);
        (p in files <==> p in files0) && (p in files ==> files[p] == files0[p])
    {
      StoredFilesAt(files0, unwritable, folder, done, endpoints, p);
    }
  }

  /** Before any worker has run, the stored files are the initial files. */
  lemma StoredFilesNone(files0: map<string, seq<byte>>, unwritable: set<string>, folder: string,
                        endpoints: seq<Endpoint>)
    ensures StoredFiles(files0, unwritable, folder, {}, endpoints) == files0
  {
    var files := StoredFiles(files0, unwritable, folder, {}, endpoints);
    forall p
      ensures (p in files <==> p in files0) && (p in files ==> files[p] == files0[p])
    {
      StoredFilesAt(files0, unwritable, folder, {}, endpoints, p);
    }
  }

  /** One more hash's worker changes the stored files exactly as its
      `writeToDisk` call does. */
  lemma StoredFilesStep(files0: map<string, seq<byte>>, unwritable: set<string>, folder: string,
                        done: set<string>, h: string, endpoints: seq<Endpoint>)
    requires h !in done
    ensures var d := Resolve(endpoints, h);
      var before := StoredFiles(files0, unwritable, folder, done, endpoints);
      StoredFiles(files0, unwritable, folder, done + {h}, endpoints)
      == if d.Downloaded? && TargetPath(folder, h) !in unwritable then before[TargetPath(folder, h) := d.data]
         else before
  {
    var d := Resolve(endpoints, h);
    var before := StoredFiles(files0, unwritable, folder, done, endpoints);
    var after := StoredFiles(files0, unwritable, folder, done + {h}, endpoints);
    var expected := if d.Downloaded? && TargetPath(folder, h) !in unwritable then before[TargetPath(folder, h) := d.data]
                    else before;
    forall p
      ensures (p in after <==> p in expected) && (p in after ==> after[p] == expected[p])
    {
      StoredFilesStepAt(files0, unwritable, folder, done, h, endpoints, p);
    }
    MapExtensional(after, expected);
  }

  lemma StoredFilesStepAt(files0: map<string, seq<byte>>, unwritable: set<string>, folder: string,
                          done: set<string>, h: string, endpoints: seq<Endpoint>, p: string)
    requires h !in done
    ensures var d := Resolve(endpoints, h);
      var before := StoredFiles(files0, unwritable, folder, done, endpoints);
      var after := StoredFiles(files0, unwritable, folder, done + {h}, endpoints);
      var expected := if d.Downloaded? && TargetPath(folder, h) !in unwritable then before[TargetPath(folder, h) := d.data]
                      else before;
      (p in after <==> p in expected) && (p in after ==> after[p] == expected[p])
  {
    StoredFilesAt(files0, unwritable, folder, done, endpoints, p);
    StoredFilesAt(files0, unwritable, folder, done + {h}, endpoints, p);
    WrittenStep(unwritable, folder, done, h, endpoints, p);
    if p == TargetPath(folder, h) {
      assert p[|folder| + 1..] == h;
    }
  }

  lemma MapExtensional(m1: map<string, seq<byte>>, m2: map<string, seq<byte>>)
    requires forall p :: (p in m1 <==> p in m2) && (p in m1 ==> m1[p] == m2[p])
    ensures m1 == m2
  {
  }

  lemma WrittenStep(unwritable: set<string>, folder: string, done: set<string>, h: string,
                    endpoints: seq<Endpoint>, p: string)
    requires h !in done
    ensures Written(p, unwritable, folder, done + {h}, endpoints) <==>
      Written(p, unwritable, folder, done, endpoints)
      || (p == TargetPath(folder, h) && Resolve(endpoints, h).Downloaded? && p !in unwritable)
    ensures p == TargetPath(folder, h) ==>
      !Written(p, unwritable, folder, done, endpoints) && p[|folder| + 1..] == h
  {
    TargetPathSplit(folder, p, h);
  }

  /** The log after one more worker. */
  lemma LoggedStep(log0: seq<LogLine>, log: seq<LogLine>, log': seq<LogLine>, jobs: seq<Job>, job: Job,
                   endpoints: seq<Endpoint>, folder: string, unwritable: set<string>)
    requires log == log0 + Reports(jobs, endpoints, folder, unwritable)
    requires log' == log + Reports([job], endpoints, folder, unwritable)
    ensures log' == log0 + Reports(jobs + [job], endpoints, folder, unwritable)
  {
    assert (jobs + [job])[..|jobs|] == jobs;
    assert [job][..0] == [];
  }

  /** A duplicate-free list holding exactly the missing hashes has their number
      as its length. */
  lemma SummaryCounts(missing: seq<string>, hashes: set<string>, endpoints: seq<Endpoint>)
    requires NoDuplicates(missing)
    requires forall h :: h in missing <==> h in MissingHashes(hashes, endpoints)
    ensures |missing| == |MissingHashes(hashes, endpoints)|
    ensures |hashes| - |missing| == |DownloadedSamples(hashes, endpoints)| + |ErroredHashes(hashes, endpoints)|
  {
    assert (set x | x in missing) == MissingHashes(hashes, endpoints);
    NoDuplicatesCard(missing);
    ReportedCountIncludesFailedTasks(hashes, endpoints);
  }

  /** The aggregator and the disk once the workers of the hashes in `done` have
      run, starting from the files `files0`: the downloaded samples and the
      missing hashes (each listed once) are as the fallback rule decides, and
      the files are the stored files. */
  ghost predicate Finished(downloaded: map<string, string>, missing: seq<string>,
                           files: map<string, seq<byte>>, files0: map<string, seq<byte>>,
                           unwritable: set<string>, folder: string,
                           done: set<string>, endpoints: seq<Endpoint>)
  {
    && downloaded == DownloadedSamples(done, endpoints)
    && NoDuplicates(missing)
    && (forall h :: h in missing <==> h in MissingHashes(done, endpoints))
    && files == StoredFiles(files0, unwritable, folder, done, endpoints)
  }

  /** The log lines the workers of `jobs` add, one worker after another. */
  function Reports(jobs: seq<Job>, endpoints: seq<Endpoint>, folder: string, unwritable: set<string>): seq<LogLine> {
    if jobs == [] then []
    else
      var j := jobs[|jobs| - 1];
      Reports(jobs[..|jobs| - 1], endpoints, folder, unwritable)
        + Report(Resolve(endpoints, j.hash), j.count, j.total, TargetPath(folder, j.hash), j.hash,
                 TargetPath(folder, j.hash) in unwritable)
  }

  /** The workers created so far: numbered 1, 2, ... with the same total, one
      per hash of `done` and no hash twice. */
  ghost predicate Numbered(jobs: seq<Job>, done: set<string>, total: int) {
    && (forall i :: 0 <= i < |jobs| ==> jobs[i].count == i + 1 && jobs[i].total == total)
    && (forall h :: h in done <==> exists i :: 0 <= i < |jobs| && jobs[i].hash == h)
    && (forall i, j :: 0 <= i < j < |jobs| ==> jobs[i].hash != jobs[j].hash)
  }

  lemma NumberedStep(jobs: seq<Job>, done: set<string>, total: int, hash: string)
    requires Numbered(jobs, done, total) && hash !in done
    ensures Numbered(jobs + [Job(hash, |jobs| + 1, total)], done + {hash}, total)
  {
    var after := jobs + [Job(hash, |jobs| + 1, total)];
    forall h
      ensures h in done + {hash} <==> exists i :: 0 <= i < |after| && after[i].hash == h
    {
      if h in done {
        var i :| 0 <= i < |jobs| && jobs[i].hash == h;
        assert after[i].hash == h;
      } else if h == hash {
        assert after[|jobs|].hash == h;
      }
    }
  }

  lemma NumberedCard(jobs: seq<Job>, done: set<string>, total: int)
    requires Numbered(jobs, done, total)
    ensures |jobs| == |done|
  {
    var hashes := seq(|jobs|, i requires 0 <= i < |jobs| => jobs[i].hash);
    NoDuplicatesCard(hashes);
    forall x
      ensures x in hashes <==> x in done
    {
      if x in done {
        var i :| 0 <= i < |jobs| && jobs[i].hash == x;
        assert hashes[i] == x;
      }
    }
    assert (set x | x in hashes) == done;
  }

  /** The state after the workers of `jobs` have run one after another,
      starting from the files `files0` and the log `log0`: the workers are
      numbered and cover `done`, the aggregator and the disk are as `Finished`
      says, and the log grew by the workers' lines in order. */
  ghost predicate Progress(downloaded: map<string, string>, missing: seq<string>, files: map<string, seq<byte>>,
                           log: seq<LogLine>, files0: map<string, seq<byte>>, log0: seq<LogLine>,
                           unwritable: set<string>, folder: string, endpoints: seq<Endpoint>,
                           jobs: seq<Job>, done: set<string>, total: int)
  {
    && Numbered(jobs, done, total)
    && Finished(downloaded, missing, files, files0, unwritable, folder, done, endpoints)
    && log == log0 + Reports(jobs, endpoints, folder, unwritable)
  }

  /** Before the first worker. */
  lemma ProgressStart(files0: map<string, seq<byte>>, log0: seq<LogLine>, unwritable: set<string>, folder: string,
                      endpoints: seq<Endpoint>, total: int)
    ensures Progress(map[], [], files0, log0, files0, log0, unwritable, folder, endpoints, [], {}, total)
  {
    StoredFilesNone(files0, unwritable, folder, endpoints);
    assert DownloadedSamples({}, endpoints) == map[];
  }

  /** The body of `main`'s loop for one hash: build the endpoint list, create
      the worker with its number and the total, and run it. */
  method DownloadOne(malPull: MalPull, disk: Disk, a: Arguments, connect: Client -> Endpoint,
                     hash: string, count: int, total: int, ghost log0: seq<LogLine>,
                     ghost files0: map<string, seq<byte>>, ghost jobs: seq<Job>, ghost done: set<string>)
    requires hash !in done && count == |jobs| + 1
    requires Progress(malPull.downloaded, malPull.missing, disk.files, malPull.log, files0, log0, disk.unwritable,
                      a.outputPath, EndpointsFor(a, connect), jobs, done, total)
    modifies malPull, disk
    ensures Progress(malPull.downloaded, malPull.missing, disk.files, malPull.log, files0, log0, disk.unwritable,
                     a.outputPath, EndpointsFor(a, connect), jobs + [Job(hash, count, total)], done + {hash}, total)
  {
    var endpoints := BuildEndpoints(a, connect);
    var worker := new DownloadWorker(malPull, endpoints, a.outputPath, hash, count, total);
    ghost var downloaded, missing, files, log := malPull.downloaded, malPull.missing, disk.files, malPull.log;
    var _ := worker.Run(disk);
    ProgressStep(downloaded, missing, files, log, malPull.downloaded, malPull.missing, disk.files, malPull.log,
                 files0, log0, disk.unwritable, a.outputPath, endpoints, jobs, done, total, hash, count);
  }

  /** One more worker, as `run` leaves the aggregator, the disk and the log,
      keeps `Progress`. */
  lemma ProgressStep(downloaded: map<string, string>, missing: seq<string>, files: map<string, seq<byte>>,
                     log: seq<LogLine>, downloaded': map<string, string>, missing': seq<string>,
                     files': map<string, seq<byte>>, log': seq<LogLine>,
                     files0: map<string, seq<byte>>, log0: seq<LogLine>, unwritable: set<string>, folder: string,
                     endpoints: seq<Endpoint>, jobs: seq<Job>, done: set<string>, total: int, hash: string, count: int)
    requires hash !in done && count == |jobs| + 1
    requires Progress(downloaded, missing, files, log, files0, log0, unwritable, folder, endpoints, jobs, done, total)
    requires var d := Resolve(endpoints, hash);
      && downloaded' == (if d.Downloaded? then downloaded[hash := d.source] else downloaded)
      && missing' == (if d.Missing? then missing + [hash] else missing)
      && files' == (if d.Downloaded? && TargetPath(folder, hash) !in unwritable
                    then files[TargetPath(folder, hash) := d.data] else files)
      && log' == log + Report(d, count, total, TargetPath(folder, hash), hash, TargetPath(folder, hash) in unwritable)
    ensures Progress(downloaded', missing', files', log', files0, log0, unwritable, folder, endpoints,
                     jobs + [Job(hash, count, total)], done + {hash}, total)
  {
    FinishedStep(downloaded, missing, files, downloaded', missing', files', files0, unwritable, folder,
                 endpoints, done, hash);
    NumberedStep(jobs, done, total, hash);
    LoggedStep(log0, log, log', jobs, Job(hash, count, total), endpoints, folder, unwritable);
  }

  lemma FinishedStep(downloaded: map<string, string>, missing: seq<string>, files: map<string, seq<byte>>,
                     downloaded': map<string, string>, missing': seq<string>, files': map<string, seq<byte>>,
                     files0: map<string, seq<byte>>, unwritable: set<string>, folder: string,
                     endpoints: seq<Endpoint>, done: set<string>, hash: string)
    requires hash !in done
    requires Finished(downloaded, missing, files, files0, unwritable, folder, done, endpoints)
    requires var d := Resolve(endpoints, hash);
      && downloaded' == (if d.Downloaded? then downloaded[hash := d.source] else downloaded)
      && missing' == (if d.Missing? then missing + [hash] else missing)
      && files' == (if d.Downloaded? && TargetPath(folder, hash) !in unwritable
                    then files[TargetPath(folder, hash) := d.data] else files)
    ensures Finished(downloaded', missing', files', files0, unwritable, folder, done + {hash}, endpoints)
  {
    DownloadedSamplesStep(done, hash, endpoints);
    MissingHashesStep(done, hash, endpoints);
    StoredFilesStep(files0, unwritable, folder, done, hash, endpoints);
    forall i | 0 <= i < |missing|
      ensures missing[i] != hash
    {
      assert missing[i] in MissingHashes(done, endpoints);
    }
  }

  /** `main`'s loop over the hash set: every hash gets exactly one worker,
      numbered 1 to |hashes| with the total |hashes|, and the same endpoint
      list. Afterwards the downloaded samples, the missing hashes (each once)
      and the files on disk are as the fallback rule decides, and the log
      holds the workers' lines in the order they ran. */
  method RunWorkers(malPull: MalPull, disk: Disk, a: Arguments, connect: Client -> Endpoint)
    returns (jobs: seq<Job>)
    requires malPull.downloaded == map[] && malPull.missing == []
    modifies malPull, disk
    ensures |jobs| == |a.hashes| && Numbered(jobs, a.hashes, |a.hashes|)
    ensures Finished(malPull.downloaded, malPull.missing, disk.files, old(disk.files), disk.unwritable,
                     a.outputPath, a.hashes, EndpointsFor(a, connect))
    ensures malPull.log == old(malPull.log) + Reports(jobs, EndpointsFor(a, connect), a.outputPath, disk.unwritable)
  {
    ghost var eps := EndpointsFor(a, connect);
    ghost var files0 := disk.files;
    ghost var log0 := malPull.log;
    var total := |a.hashes|;
    var remaining := a.hashes;
    ghost var done: set<string> := {};
    var count := 0;
    jobs := [];
    ProgressStart(files0, log0, disk.unwritable, a.outputPath, eps, total);
    while remaining != {}
      invariant done == a.hashes - remaining && remaining <= a.hashes
      invariant count == |jobs|
      invariant Progress(malPull.downloaded, malPull.missing, disk.files, malPull.log, files0, log0,
                         disk.unwritable, a.outputPath, eps, jobs, done, total)
      decreases |remaining|
    {
      var hash :| hash in remaining;
      count := count + 1;
      DownloadOne(malPull, disk, a, connect, hash, count, total, log0, files0, jobs, done);
      jobs := jobs + [Job(hash, count, total)];
      remaining := remaining - {hash};
      done := done + {hash};
    }
    assert done == a.hashes;
    NumberedCard(jobs, a.hashes, |a.hashes|);
  }

  /** `main` after argument handling: run the workers, then summarise. The
      printed count `reported` is |hashes| - |missing|, which exceeds the number
      of downloaded samples by the number of failed workers; `downloaded` is
      the number of entries in the result's map, the count the newer
      command-line front end prints. */
  method DownloadAll(malPull: MalPull, disk: Disk, a: Arguments, connect: Client -> Endpoint,
                     start: int, end: int)
    returns (jobs: seq<Job>, result: MalPullResult, reported: int, downloaded: int)
    requires malPull.downloaded == map[] && malPull.missing == []
    modifies malPull, disk
    ensures |jobs| == |a.hashes| && Numbered(jobs, a.hashes, |a.hashes|)
    ensures result.downloadedSamples == malPull.downloaded == DownloadedSamples(a.hashes, EndpointsFor(a, connect))
    ensures result.missingHashes == malPull.missing && NoDuplicates(malPull.missing)
    ensures forall h :: h in malPull.missing <==> h in MissingHashes(a.hashes, EndpointsFor(a, connect))
    ensures disk.files == StoredFiles(old(disk.files), disk.unwritable, a.outputPath, a.hashes, EndpointsFor(a, connect))
    ensures malPull.log == old(malPull.log) + Reports(jobs, EndpointsFor(a, connect), a.outputPath, disk.unwritable)
    ensures result.time == GetDuration(start, end)
    ensures reported == |a.hashes| - |malPull.missing|
    ensures reported == |result.downloadedSamples| + |ErroredHashes(a.hashes, EndpointsFor(a, connect))|
    ensures downloaded == |DownloadedSamples(a.hashes, EndpointsFor(a, connect))|
    ensures downloaded + |malPull.missing| + |ErroredHashes(a.hashes, EndpointsFor(a, connect))| == |a.hashes|
  {
    jobs := RunWorkers(malPull, disk, a, connect);
    result := MalPullResult(malPull.downloaded, malPull.missing, GetDuration(start, end));
    reported := |a.hashes| - |malPull.missing|;
    downloaded := |result.downloadedSamples|;
    SummaryCounts(malPull.missing, a.hashes, EndpointsFor(a, connect));
  }

  // ---------------------------------------------------------------------------
  // getDuration

  /** Java's `/` on `long`: rounds toward zero, so the quotient times the
      divisor lies within one divisor of the dividend, on the side of zero. */
  function JavaDiv(a: int, b: int): (q: int)
    requires b > 0
    ensures a >= 0 ==> 0 <= q && b * q <= a < b * q + b
    ensures a < 0 ==> q <= 0 && b * q - b < a <= b * q
  {
    if a >= 0 then DivBounds(a, b); a / b
    else DivBounds(-a, b); NegMul(b, (-a) / b); -((-a) / b)
  }

  lemma DivBounds(a: int, b: int)
    requires a >= 0 && b > 0
    ensures 0 <= a / b && b * (a / b) <= a < b * (a / b) + b
  {
    assert a == b * (a / b) + a % b;
  }

  lemma NegMul(b: int, x: int)
    ensures b * -x == -(b * x)
  {
  }

  /** Java's `%` on `long`: takes the sign of the dividend. */
  function JavaRem(a: int, b: int): (r: int)
    requires b > 0
    ensures a >= 0 ==> 0 <= r < b && r == a % b
    ensures a < 0 ==> -b < r <= 0 && r == -((-a) % b)
    ensures a == b * JavaDiv(a, b) + r
  {
    a - b * JavaDiv(a, b)
  }

  datatype Clock = Clock(hours: int, minutes: int, seconds: int)

  /** The three fields `getDuration` formats. For a non-negative duration
      they are a time of day; a negative one (the clock moved back) gives
      fields that are zero or negative. */
  function DurationFields(duration: int): (c: Clock)
    ensures duration >= 0 ==> 0 <= c.hours < 24 && 0 <= c.minutes < 60 && 0 <= c.seconds < 60
    ensures duration < 0 ==> -24 < c.hours <= 0 && -60 < c.minutes <= 0 && -60 < c.seconds <= 0
  {
    Clock(JavaRem(JavaDiv(duration, 60 * 60), 24), JavaRem(JavaDiv(duration, 60), 60), JavaRem(duration, 60))
  }

  /** Whole days are dropped: the fields add up to the duration modulo one day. */
  lemma DurationDropsWholeDays(duration: int)
    requires duration >= 0
    ensures var c := DurationFields(duration);
      c.hours * 3600 + c.minutes * 60 + c.seconds == duration % 86400
  {
    var q := duration / 60;
    var q2 := q / 60;
    var s, m, h := duration % 60, q % 60, q2 % 24;
    DivBounds(duration, 60);
    DivBounds(q, 60);
    DivBounds(q2, 24);
    assert duration == 60 * q + s;
    assert q == 60 * q2 + m;
    assert q2 == 24 * (q2 / 24) + h;
    Regroup(duration, q, q2, q2 / 24, s, m, h);
    DivUnique(duration, 3600, q2, 60 * m + s);
    DivUnique(duration, 86400, q2 / 24, h * 3600 + m * 60 + s);
    assert DurationFields(duration) == Clock(h, m, s);
  }

  lemma Regroup(n: int, q: int, q2: int, d: int, s: int, m: int, h: int)
    requires n == 60 * q + s && q == 60 * q2 + m && q2 == 24 * d + h
    ensures n == 3600 * q2 + (60 * m + s)
    ensures n == 86400 * d + (h * 3600 + m * 60 + s)
  {
  }

  /** Euclidean division is determined by its bounds. */
  lemma DivUnique(n: int, b: int, q: int, r: int)
    requires b > 0 && n == b * q + r && 0 <= r < b
    ensures n / b == q && n % b == r
  {
    var q' := n / b;
    assert n == b * q' + n % b;
    if q' > q {
      assert b * q' >= b * (q + 1) by { MulMono(b, q + 1, q'); }
    } else if q' < q {
      assert b * q >= b * (q' + 1) by { MulMono(b, q' + 1, q); }
    }
  }

  lemma MulMono(b: int, x: int, y: int)
    requires b > 0 && x <= y
    ensures b * x <= b * y
  {
    assert b * y == b * x + b * (y - x);
  }

  /** `%02d`: at least two characters, zero-padded; a negative value is its
      sign followed by its digits. */
  function Pad2(n: int): string {
    if n < 0 then "-" + Decimal(-n)
    else if n < 10 then "0" + Decimal(n)
    else Decimal(n)
  }

  lemma Pad2ReadsBack(n: int)
    requires 0 <= n < 100
    ensures |Pad2(n)| == 2 && '0' <= Pad2(n)[0] <= '9' && '0' <= Pad2(n)[1] <= '9'
    ensures DigitsValue(Pad2(n)) == n
  {
    if n < 10 {
      assert Pad2(n) == ['0', DigitChar(n)];
      assert Pad2(n)[..1] == ['0'];
      assert ['0'][..0] == [];
      assert DigitsValue(['0']) == 0;
    } else {
      DecimalRoundTrip(n);
      assert Decimal(n) == Decimal(n / 10) + [DigitChar(n % 10)];
    }
  }

  lemma ClockTextParts(x: string, y: string, z: string)
    requires |x| == 2 && |y| == 2 && |z| == 2
    ensures var r := x + ":" + y + ":" + z;
      |r| == 8 && r[2] == ':' && r[5] == ':' && r[0..2] == x && r[3..5] == y && r[6..8] == z
      && r[0] == x[0] && r[1] == x[1] && r[3] == y[0] && r[4] == y[1] && r[6] == z[0] && r[7] == z[1]
  {
  }

  /** The text of a time of day reads back as its three fields. */
  lemma ClockTextReadsBack(c: Clock)
    requires 0 <= c.hours < 24 && 0 <= c.minutes < 60 && 0 <= c.seconds < 60
    ensures var r := Pad2(c.hours) + ":" + Pad2(c.minutes) + ":" + Pad2(c.seconds);
      |r| == 8 && r[2] == ':' && r[5] == ':'
      && (forall i :: 0 <= i < 8 && i != 2 && i != 5 ==> '0' <= r[i] <= '9')
      && DigitsValue(r[0..2]) == c.hours && DigitsValue(r[3..5]) == c.minutes && DigitsValue(r[6..8]) == c.seconds
  {
    Pad2ReadsBack(c.hours);
    Pad2ReadsBack(c.minutes);
    Pad2ReadsBack(c.seconds);
    ClockTextParts(Pad2(c.hours), Pad2(c.minutes), Pad2(c.seconds));
  }

  /** `r` is `hh:mm:ss` with hours below 24 and minutes and seconds below
      60, and it reads back as `seconds` seconds. */
  predicate IsClockText(r: string, seconds: int) {
    && |r| == 8 && r[2] == ':' && r[5] == ':'
    && (forall i :: 0 <= i < 8 && i != 2 && i != 5 ==> '0' <= r[i] <= '9')
    && DigitsValue(r[0..2]) < 24 && DigitsValue(r[3..5]) < 60 && DigitsValue(r[6..8]) < 60
    && DigitsValue(r[0..2]) * 3600 + DigitsValue(r[3..5]) * 60 + DigitsValue(r[6..8]) == seconds
  }

  /** `getDuration`, given the end time that it reads from the clock. For a
      non-negative duration the text is `hh:mm:ss`, and reading the three
      numbers back gives the duration modulo one day. */
  function GetDuration(start: int, end: int): (r: string)
    ensures start <= end ==> IsClockText(r, (end - start) % 86400)
  {
    var c := DurationFields(end - start);
    if start <= end then DurationTextReadsBack(end - start); ClockText(c) else ClockText(c)
  }

  function ClockText(c: Clock): string {
    Pad2(c.hours) + ":" + Pad2(c.minutes) + ":" + Pad2(c.seconds)
  }

  lemma DurationTextReadsBack(duration: int)
    requires duration >= 0
    ensures IsClockText(ClockText(DurationFields(duration)), duration % 86400)
  {
    var c := DurationFields(duration);
    ClockTextReadsBack(c);
    DurationDropsWholeDays(duration);
  }
}
