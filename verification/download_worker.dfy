/** `DownloadWorker`: downloads one hash by asking the endpoints in order, and
    reports the outcome to the `MalPull` aggregator. */
module Worker {
  import opened Endpoints
  import opened Aggregate

  /** `File.separator` on a Unix file system. */
  const Separator: char := '/'

  /** The file a sample is written to: the output folder, a separator, the hash. */
  function TargetPath(folder: string, hash: string): (p: string)
    ensures |p| > |folder| && p[..|folder| + 1] == folder + [Separator] && p[|folder| + 1..] == hash
  {
    folder + [Separator] + hash
  }

  /** The output folder as far as the worker can tell: the files written so
      far, and the paths where opening the file (`new FileOutputStream`)
      raises an `IOException`. A `write` that fails after a successful open is
      not modelled. */
  class Disk {
    var files: map<string, seq<byte>>
    const unwritable: set<string>

    constructor (files: map<string, seq<byte>>, unwritable: set<string>)
      ensures this.files == files && this.unwritable == unwritable
    {
      this.files, this.unwritable := files, unwritable;
    }
  }

  /** The log lines one finished worker adds, given what became of its hash. */
  function Report(d: Disposition, count: int, total: int, filePath: string, hash: string,
                  writeFails: bool): seq<LogLine> {
    match d
    case Downloaded(source, data) =>
      (if writeFails then [WriteFailed(filePath)] else []) + [Wrote(count, total, |data|, filePath, source)]
    case Missing => [AddedMissing(count, total, hash)]
    case Errored => [TaskFailed(count, total, hash)]
  }

  class DownloadWorker {
    const malPull: MalPull
    const endpoints: seq<Endpoint>
    const path: string
    const hash: string
    const count: int
    const total: int

    constructor (malPull: MalPull, endpoints: seq<Endpoint>, path: string, hash: string, count: int, total: int)
      ensures this.malPull == malPull && this.endpoints == endpoints && this.path == path
      ensures this.hash == hash && this.count == count && this.total == total
    {
      this.malPull, this.endpoints, this.path := malPull, endpoints, path;
      this.hash, this.count, this.total := hash, count, total;
    }

    /** `writeToDisk`: stores the bytes exactly as returned; an `IOException`
        is only logged. */
    method WriteToDisk(disk: Disk, output: seq<byte>, filePath: string)
      modifies disk, malPull
      ensures filePath !in disk.unwritable ==>
        disk.files == old(disk.files)[filePath := output] && malPull.log == old(malPull.log)
      ensures filePath in disk.unwritable ==>
        disk.files == old(disk.files) && malPull.log == old(malPull.log) + [WriteFailed(filePath)]
      ensures malPull.downloaded == old(malPull.downloaded) && malPull.missing == old(malPull.missing)
    {
      if filePath in disk.unwritable {
        malPull.Log(WriteFailed(filePath));
      } else {
        disk.files := disk.files[filePath := output];
      }
    }

    /** `run`. Returns how many `getSample` calls were made. The hash is
        recorded as downloaded from the first endpoint that returns bytes, once,
        whether or not the file could be written; it is recorded as missing,
        once, when every endpoint misses; and it is recorded nowhere when an
        exception other than `SampleNotFoundException` escapes the loop. */
    method Run(disk: Disk) returns (calls: nat)
      modifies malPull, disk
      ensures calls == Calls(endpoints, hash)
      ensures var d := Resolve(endpoints, hash);
        malPull.downloaded == if d.Downloaded? then old(malPull.downloaded)[hash := d.source]
                              else old(malPull.downloaded)
      ensures var d := Resolve(endpoints, hash);
        malPull.missing == if d.Missing? then old(malPull.missing) + [hash] else old(malPull.missing)
      ensures var d := Resolve(endpoints, hash);
        disk.files == if d.Downloaded? && TargetPath(path, hash) !in disk.unwritable
                      then old(disk.files)[TargetPath(path, hash) := d.data] else old(disk.files)
      ensures var d := Resolve(endpoints, hash);
        malPull.log == old(malPull.log)
          + Report(d, count, total, TargetPath(path, hash), hash, TargetPath(path, hash) in disk.unwritable)
    {
      var filePath := path + [Separator] + hash;
      ghost var k := FirstNonMiss(endpoints, hash);
      ghost var d := Resolve(endpoints, hash);
      var isDownloaded := false;
      var escaped := false;
      calls := 0;
      var i := 0;
      while i < |endpoints|
        invariant 0 <= i <= |endpoints|
        invariant !escaped
        invariant !isDownloaded ==> i <= k && calls == i
        invariant !isDownloaded ==>
          malPull.downloaded == old(malPull.downloaded) && malPull.missing == old(malPull.missing)
          && malPull.log == old(malPull.log) && disk.files == old(disk.files)
        invariant isDownloaded ==>
          i == k + 1 && calls == i && d.Downloaded?
          && malPull.downloaded == old(malPull.downloaded)[hash := d.source]
          && malPull.missing == old(malPull.missing)
          && malPull.log == old(malPull.log) + Report(d, count, total, filePath, hash, filePath in disk.unwritable)
          && disk.files == if filePath in disk.unwritable then old(disk.files)
                           else old(disk.files)[filePath := d.data]
      {
        if isDownloaded {
          break;
        }
        var output := endpoints[i].getSample(hash);
        calls := calls + 1;
        if output.Failed? {
          // Leaves the loop and the outer `try`: the `catch (Exception ex)` below.
          escaped := true;
          break;
        }
        if output.Bytes? && |output.data| > 0 {
          WriteToDisk(disk, output.data, filePath);
          malPull.Log(Wrote(count, total, |output.data|, filePath, endpoints[i].name));
          malPull.AddDownloadedHash(hash, endpoints[i].name);
          isDownloaded := true;
        }
        i := i + 1;
      }
      if escaped {
        malPull.Log(TaskFailed(count, total, hash));
      } else if !isDownloaded {
        malPull.AddMissingHash(hash);
        malPull.Log(AddedMissing(count, total, hash));
      }
    }
  }
}
