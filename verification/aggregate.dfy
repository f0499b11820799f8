/** The run-wide results the download workers report into: which hash was
    downloaded from which endpoint, which hashes were found nowhere, and the
    progress log. The workers only add to them. */
module Aggregate {
  import opened Endpoints

  /** The log lines a run writes, by kind, with the values each one prints. */
  datatype LogLine =
    | Wrote(count: int, total: int, size: nat, path: string, source: string)
    | AddedMissing(count: int, total: int, hash: string)
    | WriteFailed(path: string)
    | TaskFailed(count: int, total: int, hash: string)

  /** What a finished run hands back: the downloaded samples (hash to endpoint
      name), the missing hashes and the formatted duration. */
  datatype MalPullResult = MalPullResult(downloadedSamples: map<string, string>,
                                         missingHashes: seq<string>, time: string)

  /** The `MalPull` instance the workers connect back to. */
  class MalPull {
    var downloaded: map<string, string>
    var missing: seq<string>
    var log: seq<LogLine>

    constructor ()
      ensures downloaded == map[] && missing == [] && log == []
    {
      downloaded, missing, log := map[], [], [];
    }

    /** `log`: one more line at the end of the log. */
    method Log(line: LogLine)
      modifies this
      ensures log == old(log) + [line]
      ensures downloaded == old(downloaded) && missing == old(missing)
    {
      log := log + [line];
    }

    /** `addDownloadedHash`: records (or overwrites) the endpoint a hash was
      downloaded from. */
    method AddDownloadedHash(hash: string, source: string)
      modifies this
      ensures downloaded == old(downloaded)[hash := source]
      ensures missing == old(missing) && log == old(log)
    {
      downloaded := downloaded[hash := source];
    }

    /** `addMissingHash`: exactly one element more, at the end; earlier
      entries are untouched. */
    method AddMissingHash(hash: string)
      modifies this
      ensures missing == old(missing) + [hash]
      ensures |missing| == |old(missing)| + 1 && missing[..|old(missing)|] == old(missing)
      ensures downloaded == old(downloaded) && log == old(log)
    {
      missing := missing + [hash];
    }
  }
}
