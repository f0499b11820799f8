# MalPull, modelled in Dafny

MalPull downloads malware samples by hash from several online repositories:
Malware Bazaar, MalShare, Koodous, VirusTotal, Hatching Triage and VirusShare.
This project models its core in Dafny and proves properties of that model:

- **Arguments.** The command-line handlers turn `args` and `keys.txt` into a
  validated `Arguments` value. There are two of them:
  - `malpull.cli.ArgumentHandler` (current). The output folder comes first,
    then the hashes. The key file gives the API keys and `threads=`.
  - `malpull.ArgumentHandler` (older). It takes exactly four arguments:
    thread count, key file, hash file and output folder.
- **Configuration.** `malpull.model.Arguments` validates its input in the
  constructor. It also lists the available platforms.
- **Per-hash download.** One `DownloadWorker` tries the configured endpoints
  in order. The first endpoint that delivers a non-empty sample wins. A
  sample found nowhere goes to the missing list.
- **Orchestration.** `MalPull.main` does the following:
  - builds the endpoint list for each hash;
  - numbers the workers;
  - summarises the run;
  - formats the duration as `hh:mm:ss`.

Modules (one file each):

| file | module | models |
|---|---|---|
| `wrappers.dfy` | `Wrappers` | `Option`, `Result` |
| `java_strings.dfy` | `JavaStrings` | `toLowerCase`, `startsWith`, `isBlank`, decimal digits |
| `paths.dfy` | `Paths` | `filterPath`, `File` path normalisation, `File.getAbsolutePath` |
| `key_file.dfy` | `KeyFile` | the "last assignment wins" rule of the key-file loops |
| `arguments.dfy` | `ArgumentsModel` | `model/Arguments.java` |
| `cli_argument_handler.dfy` | `CliArgumentHandler` | `cli/ArgumentHandler.java` |
| `legacy_argument_handler.dfy` | `LegacyArgumentHandler` | `ArgumentHandler.java`, `Arguments.java` |
| `endpoints.dfy` | `Endpoints` | an endpoint as a name plus `getSample`; the fallback rule |
| `aggregate.dfy` | `Aggregate` | the `MalPull` instance workers report to; `MalPullResult` |
| `download_worker.dfy` | `Worker` | `DownloadWorker.java` |
| `mal_pull.dfy` | `Orchestrator` | `MalPull.java` |

How the Java code becomes Dafny:

- **Arguments.** Its fields are set only by the constructor, so it is a
  datatype. The two exceptions the constructor throws become a `Result`.
- **The aggregator and the disk.** The aggregator (`MalPull`: downloaded
  map, missing list, log) is a class. So is the output folder (`Disk`). The
  worker updates both in place.
- **The worker.** `DownloadWorker.run` is a method with the source's loop.
  Its result is tied to the specification function `Endpoints.Resolve`.
- **Null.** Each `null` is `None`. Each `System.exit` after an error message
  is a `Failure`.

## Model

| member | source | states |
|---|---|---|
| `JavaStrings.ToLowerLowers` | src/main/java/malpull/cli/ArgumentHandler.java:87-100 | the lower-cased text contains no upper-case letter, lower-casing twice is lower-casing once, and a text is left unchanged exactly when it has no upper-case letter |
| `JavaStrings.DecimalRoundTrip` | src/main/java/malpull/MalPull.java:160 | reading back the decimal digits `%d` prints gives the number again |
| `Paths.FilterPath` | src/main/java/malpull/cli/ArgumentHandler.java:191-196 | a path starting with `~` becomes the home directory followed by the rest of the path; any other path is returned unchanged |
| `Paths.FilterPathKeepsTail` | src/main/java/malpull/cli/ArgumentHandler.java:191-196 | tilde expansion replaces at most the first character; the rest of the path ends the result verbatim |
| `Paths.FilterPathIdempotent` | src/main/java/malpull/ArgumentHandler.java:152-157 | expanding an expanded path changes nothing when the home directory is non-empty and does not start with `~` |
| `Paths.Normalize` | src/main/java/malpull/cli/ArgumentHandler.java:132 | the normalised path has no `//` and no trailing `/` (except the root itself); it keeps the same non-slash characters, the same sequence of non-empty `/`-separated segments, and whether it is absolute; a path already in normal form is unchanged |
| `Paths.CollapseSegments` | src/main/java/malpull/cli/ArgumentHandler.java:132 | shortening every run of `/` to one `/` keeps the sequence of segments |
| `Paths.NormalIsRebuilt` | src/main/java/malpull/cli/ArgumentHandler.java:132 | a path in normal form is its segments joined by `/`, with a leading `/` when it is absolute (the root alone when there are no segments) |
| `Paths.NormalDetermined` | src/main/java/malpull/cli/ArgumentHandler.java:132 | two paths in normal form with the same segments and the same absoluteness are equal |
| `Paths.NormalizeDetermined` | src/main/java/malpull/cli/ArgumentHandler.java:132 | `Normalize(s)` is the only normal-form path with the segments and the absoluteness of `s`, so its contract fixes its result |
| `Paths.Absolute` | src/main/java/malpull/cli/ArgumentHandler.java:144 | an absolute output path becomes its normal form; a relative one starts with the working directory, and its segments are the working directory's followed by the path's own |
| `Paths.SegmentsJoin` | src/main/java/malpull/cli/ArgumentHandler.java:144 | joining two paths with one `/` puts their segments one after the other |
| `Paths.JoinSplit` | src/main/java/malpull/cli/ArgumentHandler.java:144 | splitting a path at every `/` and joining the parts with `/` gives the path back |
| `Paths.AbsoluteDetermined` | src/main/java/malpull/ArgumentHandler.java:99-106 | with a normal absolute working directory, the result for a relative path is the only absolute normal-form path whose segments are the working directory's followed by the path's |
| `Paths.AbsoluteIsNormal` | src/main/java/malpull/ArgumentHandler.java:99-106 | with a normal absolute working directory, the result is absolute and in normal form |
| `Paths.AbsoluteIdempotent` | src/main/java/malpull/ArgumentHandler.java:99-106 | making an absolute path absolute again changes nothing |
| `KeyFile.LastValueNoneIffUnassigned` | src/main/java/malpull/cli/ArgumentHandler.java:77-102 | `LastValue`, the value a key variable ends with, stays `null` exactly when no line of the key file assigns it |
| `KeyFile.LastValueIsLastAssignment` | src/main/java/malpull/cli/ArgumentHandler.java:86-102 | `LastValue` of a key variable is `v` exactly when some line assigns `v` and no later line assigns that key again (last assignment wins) |
| `ArgumentsModel.NewArguments` | src/main/java/malpull/model/Arguments.java:103-130 | fails with "no services" exactly when all six keys are null; fails with "no hashes" exactly when a key is set but the hash set is null or empty; otherwise stores every field as given, except that a thread count of 0 or less becomes 1, and the result is valid |
| `ArgumentsModel.EnabledPlatforms` | src/main/java/malpull/model/Arguments.java:139-167 | the listed platforms are exactly those whose key is set, each once, in the order Triage, Malware Bazaar, MalShare, VirusShare, VirusTotal, Koodous; never empty for valid arguments |
| `ArgumentsModel.AvailablePlatforms` | src/main/java/malpull/model/Arguments.java:139-167 | the method's six `if` steps return the display names of `EnabledPlatforms`, position by position |
| `ArgumentsModel.DisplayNameInjective` | src/main/java/malpull/model/Arguments.java:142-164 | no two platforms share a display name, so the returned names identify the platforms |
| `CliArgumentHandler.ParseKeyLine` | src/main/java/malpull/cli/ArgumentHandler.java:87-101 | a line that assigns a key starts, once lower-cased, with that key's prefix, and the value is the original line after the prefix |
| `CliArgumentHandler.PrefixesExclusive` | src/main/java/malpull/cli/ArgumentHandler.java:87-101 | no line starts with two of the seven prefixes, so the order of the `else if` chain never decides which key a line sets |
| `CliArgumentHandler.ParseKeyLineMatches` | src/main/java/malpull/cli/ArgumentHandler.java:87-101 | a line sets key `s` to `v` exactly when its lower-cased form starts with `s`'s prefix and `v` is the original line after the whole prefix |
| `CliArgumentHandler.ParseKeyLineKeepsCase` | src/main/java/malpull/cli/ArgumentHandler.java:87-100 | the prefix matches case-insensitively and the value keeps its case: the line is the prefix followed by the value |
| `CliArgumentHandler.ParseKeys` | src/main/java/malpull/cli/ArgumentHandler.java:77-102 | after the loop every key variable holds the value of the last line that assigns it, or `null` |
| `CliArgumentHandler.NonBlank` | src/main/java/malpull/cli/ArgumentHandler.java:172-177 | the kept lines are exactly the non-blank lines of the file, and there are no more of them than lines |
| `CliArgumentHandler.NonBlankAppend` | src/main/java/malpull/cli/ArgumentHandler.java:172-177 | filtering distributes over concatenation, so the kept lines keep the file order |
| `CliArgumentHandler.NonBlankKeepsContentLines` | src/main/java/malpull/cli/ArgumentHandler.java:172-177 | a file without blank lines is returned unchanged |
| `CliArgumentHandler.LoadFile` | src/main/java/malpull/cli/ArgumentHandler.java:154-183 | the reading loop returns `NonBlank` of the file's lines |
| `CliArgumentHandler.CollectHashes` | src/main/java/malpull/cli/ArgumentHandler.java:117-126 | the hash set holds exactly the non-blank arguments after the first |
| `CliArgumentHandler.Handle` | src/main/java/malpull/cli/ArgumentHandler.java:50-145 | fewer than two arguments gives usage; then an unreadable key file, then a missing or unparsable `threads=`, then a thread count of 0 or less stop the run; otherwise the result is the constructor applied to the non-blank hashes, the expanded absolute output path, the thread count and the last value of each key; a success is valid and has no blank hash |
| `LegacyArgumentHandler.ParseKeyLine` | src/main/java/malpull/ArgumentHandler.java:81-91 | a line that assigns a key starts, once lower-cased, with that key's prefix, and the value is the original line from that key's cut point |
| `LegacyArgumentHandler.PrefixesExclusive` | src/main/java/malpull/ArgumentHandler.java:81-91 | the four older prefixes exclude each other |
| `LegacyArgumentHandler.ParseKeyLineMatches` | src/main/java/malpull/ArgumentHandler.java:81-91 | a line sets a key exactly when its lower-cased form starts with the prefix; the value is cut at that key's cut point |
| `LegacyArgumentHandler.KoodousKeyKeepsEquals` | src/main/java/malpull/ArgumentHandler.java:82-83 | the Koodous value read by the older handler always starts with `=`, followed by the text after `koodous=`, so it never equals that text |
| `LegacyArgumentHandler.KoodousExample` | src/main/java/malpull/ArgumentHandler.java:83 | the line `koodous=abc` gives the key `=abc` |
| `LegacyArgumentHandler.ParseKeys` | src/main/java/malpull/ArgumentHandler.java:76-91 | after the loop every one of the four keys holds the value of the last line that assigns it, or `null` |
| `LegacyArgumentHandler.Handle` | src/main/java/malpull/ArgumentHandler.java:46-107 | any count but four arguments gives usage; then an unparsable thread count, then one below 1, then an unreadable key file, then an unreadable hash file stop the run; otherwise every line of the hash file (blank ones too) is a hash, the output folder is `args[3]` expanded and made absolute, and nothing checks that a service or hash was given |
| `Endpoints.Calls` | src/main/java/malpull/DownloadWorker.java:102-133 | the worker calls at most every endpoint; every endpoint before the last one called missed, and when it stops early the last one called did not miss |
| `Endpoints.FirstNonMiss` | src/main/java/malpull/DownloadWorker.java:102-133 | the deciding endpoint is the first whose answer is not a miss (not found or zero bytes); all endpoints before it miss |
| `Endpoints.ResolveDownloadedIff` | src/main/java/malpull/DownloadWorker.java:102-125 | `Resolve` downloads a hash from endpoint `name` with `data` exactly when that endpoint returns non-empty `data` and every endpoint before it misses |
| `Endpoints.ResolveMissingIff` | src/main/java/malpull/DownloadWorker.java:126-139 | `Resolve` reports a hash missing exactly when every endpoint misses it |
| `Endpoints.ResolveErroredIff` | src/main/java/malpull/DownloadWorker.java:140-143 | `Resolve` reports a hash abandoned exactly when an endpoint throws something other than "not found" before any endpoint delivered it |
| `Endpoints.ResolveIgnoresLaterEndpoints` | src/main/java/malpull/DownloadWorker.java:110-112 | once an endpoint decides, later endpoints are never called and cannot change the outcome |
| `Endpoints.ResolveAfterAllMiss` | src/main/java/malpull/DownloadWorker.java:102-133 | when all of a prefix of the list misses, the outcome is the one of the rest of the list, after one call per missed endpoint |
| `Aggregate.MalPull.Log` | src/main/java/malpull/DownloadWorker.java:120 | one line is appended to the log; nothing else changes |
| `Aggregate.MalPull.AddDownloadedHash` | src/main/java/malpull/DownloadWorker.java:122 | the hash now maps to the endpoint's name; nothing else changes |
| `Aggregate.MalPull.AddMissingHash` | src/main/java/malpull/MalPull.java:169-171 | the hash is appended at the end of the missing list; earlier entries and everything else are unchanged |
| `Worker.TargetPath` | src/main/java/malpull/DownloadWorker.java:98 | the target file is the output folder, then a separator, then exactly the hash |
| `Worker.DownloadWorker.WriteToDisk` | src/main/java/malpull/DownloadWorker.java:152-158 | the bytes are stored under the path when it can be opened; otherwise the disk is unchanged and one error line is logged |
| `Worker.DownloadWorker.Run` | src/main/java/malpull/DownloadWorker.java:95-144 | the worker makes exactly `Calls` requests. A downloaded hash is recorded with its endpoint and written to its target path. A hash missed everywhere is appended to the missing list. A hash abandoned by an exception is recorded in neither. The log gains exactly the lines of that outcome |
| `Orchestrator.EnabledClients` | src/main/java/malpull/MalPull.java:90-110 | the clients of a hash are exactly those whose key is set, each with its key, in the order Malware Bazaar, MalShare, Koodous, VirusTotal, Triage |
| `Orchestrator.BuildEndpoints` | src/main/java/malpull/MalPull.java:90-110 | the five `if` steps build one endpoint per enabled client, in the order of `EnabledClients`: endpoint `i` is the connection of client `i` |
| `Orchestrator.VirusShareOnlyGivesNoEndpoints` | src/main/java/malpull/MalPull.java:90-110 | arguments whose only key is VirusShare pass validation but give every worker an empty endpoint list |
| `Orchestrator.OutcomePartition` | src/main/java/malpull/DownloadWorker.java:95-144 | every hash ends up in exactly one of downloaded, missing and abandoned, so the three counts add up to the number of hashes |
| `Orchestrator.ReportedCountIncludesFailedTasks` | src/main/java/malpull/MalPull.java:136 | the printed count `hashes - missing` equals downloaded plus abandoned |
| `Orchestrator.ReportedCountExactIffNoFailures` | src/main/java/malpull/MalPull.java:136 | the printed count equals the number of downloaded samples exactly when no worker was abandoned |
| `Orchestrator.ReportedCountCounterexample` | src/main/java/malpull/MalPull.java:136 | one hash with one throwing endpoint: one sample is reported, none was downloaded |
| `Orchestrator.NoDuplicatesCard` | src/main/java/malpull/MalPull.java:127-128 | a missing list without repetitions has as many entries as distinct hashes |
| `Orchestrator.SummaryCounts` | src/main/java/malpull/MalPull.java:127-136 | the printed missing count is the number of missing hashes, and `hashes - missing` is downloaded plus abandoned |
| `Orchestrator.TargetPathSplit` | src/main/java/malpull/DownloadWorker.java:98 | a path is the target of a hash exactly when it is the folder, a separator and that hash, so the hash can be read back from the path |
| `Orchestrator.StoredFilesContents` | src/main/java/malpull/DownloadWorker.java:98-121 | after the workers of a set of hashes, every downloaded sample whose file opened is stored under its target path with the bytes returned; every other path is as before |
| `Orchestrator.StoredFilesStep` | src/main/java/malpull/DownloadWorker.java:117-118 | one more worker adds its sample under its target path when the hash is downloaded and the file opens, and leaves the disk alone otherwise |
| `Orchestrator.LoggedStep` | src/main/java/malpull/MalPull.java:86-115 | the log after one more worker is the earlier log followed by that worker's report |
| `Orchestrator.ProgressStep` | src/main/java/malpull/MalPull.java:88-115 | one more worker keeps the loop's invariant: numbering, downloaded map, missing list, disk and log all extend by that hash's outcome |
| `Orchestrator.TargetPathInjective` | src/main/java/malpull/DownloadWorker.java:98 | different hashes get different files in the same folder |
| `Orchestrator.NumberedStep` | src/main/java/malpull/MalPull.java:88-113 | creating the next worker keeps the numbering 1, 2, ... with one worker per hash and no hash twice |
| `Orchestrator.NumberedCard` | src/main/java/malpull/MalPull.java:86-113 | one worker per hash with no repeats means as many workers as hashes |
| `Orchestrator.DownloadOne` | src/main/java/malpull/MalPull.java:89-115 | running one more hash's worker extends the numbering, the downloaded map, the missing list, the files on disk and the log exactly as the fallback rule decides for that hash |
| `Orchestrator.RunWorkers` | src/main/java/malpull/MalPull.java:86-121 | every hash gets one worker, numbered `1..|hashes|` with total `|hashes|`. Afterwards the downloaded map and the (repetition-free) missing list are exactly what the fallback rule gives. The disk is the old disk with each downloaded sample whose file opened stored under its target path, and nothing else. The log is the old log followed by one report per worker, in worker order |
| `Orchestrator.DownloadAll` | src/main/java/malpull/MalPull.java:81-136 | the above (downloaded map, missing list, disk and log), plus the result holds the duration text. The printed count is `hashes - missing`, which is downloaded plus abandoned. The map size is downloaded only, and downloaded + missing + abandoned = hashes |
| `Orchestrator.JavaDiv` | src/main/java/malpull/MalPull.java:156-158 | Java's `/` truncates toward zero: for a non-negative dividend the quotient is non-negative and `b·q <= a < b·q + b`; for a negative one it is at most zero and `b·q - b < a <= b·q` |
| `Orchestrator.JavaRem` | src/main/java/malpull/MalPull.java:154-158 | Java's `%` lies in `[0, b)` for a non-negative dividend and in `(-b, 0]` for a negative one, and dividend = divisor × quotient + remainder |
| `Orchestrator.DurationFields` | src/main/java/malpull/MalPull.java:151-158 | a non-negative duration gives hours in `0..23` and minutes and seconds in `0..59`; a negative one gives fields that are zero or negative |
| `Orchestrator.DurationDropsWholeDays` | src/main/java/malpull/MalPull.java:151-158 | `hours·3600 + minutes·60 + seconds` is the duration modulo one day |
| `Orchestrator.Pad2ReadsBack` | src/main/java/malpull/MalPull.java:160 | `%02d` of `0..99` is two digits that read back as the number |
| `Orchestrator.ClockTextReadsBack` | src/main/java/malpull/MalPull.java:160 | the text of a time of day is `dd:dd:dd` and its three numbers read back as the fields |
| `Orchestrator.GetDuration` | src/main/java/malpull/MalPull.java:147-161 | for `start <= end` the duration text has the form `hh:mm:ss` of decimal digits, with hours below 24 and minutes and seconds below 60, and reading it back gives `(end - start) mod 86400` seconds |

## Left out

- The thread pool: workers run one after another, in the (unspecified) iteration order of the hash set. Interleavings, races and the `synchronized` wrapper are not modelled. In the source, `main` hands out the counts `1..n` while iterating the hash set, so a worker's count follows that iteration order, not the order in which the pool runs the workers; the model numbers them in its own iteration order.
- The HTTP clients (Malware Bazaar, MalShare, Koodous, VirusTotal, Triage, VirusShare). An endpoint is its name plus a function giving the result of `getSample` for each hash. Endpoint code is not part of this model.
- File-system and environment access are passed in as parameters:
  - the key file's lines, with `None` standing for unreadable;
  - `user.home` and `user.dir` (the working directory is taken as given; `Paths.AbsoluteIsNormal` and `Paths.AbsoluteIdempotent` assume it is absolute and in normal form, as the JVM supplies it);
  - the set of unwritable paths.
  Creating the output folder (`mkdirs`) and the JAR-location lookup of `keys.txt` are not modelled.
- Console output and `System.exit`. Each exit after a message is a `Failure` value. Log lines are kept as structured `LogLine` values rather than text.
- `Integer.parseInt` is an opaque partial function `string -> Option<int>`.
- `Instant.now()`: the end time is a parameter. `long` overflow of `end - start` is not modelled.
- `JavaStrings.ToLower`: only ASCII letters are lowered. Locale-dependent and length-changing Unicode case mappings are not modelled.
- `Worker.DownloadWorker.WriteToDisk`: an `IOException` is modelled only when the file is opened (`new FileOutputStream`). A `write` that fails after a successful open, and the partial file it leaves, are not modelled.
- `Aggregate.MalPull.AddDownloadedHash`: `DownloadWorker` calls it, but the `MalPull.java` modelled here does not define it. It is modelled as a map update, so a second download of the same hash would overwrite the first.
- `MalPull.java` in this snapshot is a static-field version. It calls `getTriageKey`, which only the newer `model/Arguments` has, so the model uses that class. Its endpoint list has no VirusShare client, and the query order (Malware Bazaar first) differs from the order `getAvailablePlatforms` lists (Triage first). Both are modelled as written.
- `MalPull.java` imports `concurrency.DownloadWorker` (src/main/java/malpull/MalPull.java:19). That class is not part of this model; the orchestrator runs the worker of `malpull/DownloadWorker.java` in its place. `main` passes no aggregator to its worker (MalPull.java:113), while `malpull/DownloadWorker.java` takes one, so the model hands it the `MalPull` aggregator explicitly.
- `malpull/Downloader.java`, `cli/MalPullCli.java` and the endpoint classes are not part of this model. The CLI's printed count (`getDownloadedSamples().size()`) is what `DownloadAll`'s `downloaded` output gives.
- The Javadoc of `DownloadWorker` (src/main/java/malpull/DownloadWorker.java:27-31 and 89-93) says that a hash that cannot be downloaded goes to the missing list. The code instead lets any exception other than `SampleNotFoundException` escape the loop, including the `NullPointerException` of a `null` payload. The model follows the code: such a hash is abandoned and recorded neither as downloaded nor as missing.

## Findings

| source | as written | input that shows it | evidently intended | confidence | as-written member | corrected member |
|---|---|---|---|---|---|---|
| src/main/java/malpull/MalPull.java:136 | prints `hashes.size() - missingHashes.size()` as the number of downloaded samples | one hash, one endpoint whose `getSample` throws an `IOException`: the hash is neither downloaded nor missing, yet "Downloaded 1 samples" is printed | the number of samples actually downloaded, as the newer front end prints with `getDownloadedSamples().size()` | not executed | `Orchestrator.ReportedCountCounterexample` | `Orchestrator.DownloadAll` |
| src/main/java/malpull/ArgumentHandler.java:83 | cuts the Koodous value at `"koodous".length()` | the line `koodous=abc` gives the key `=abc` | the text after `koodous=`, as every other key and the newer handler do | not executed | `LegacyArgumentHandler.KoodousKeyKeepsEquals` | `CliArgumentHandler.ParseKeyLineMatches` |
