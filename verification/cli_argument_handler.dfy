/** `malpull.cli.ArgumentHandler`: turns the command line and the lines of
    `keys.txt` into a validated `Arguments`. Reading files, creating the output
    folder and exiting the process are not modelled: the key file arrives as
    its lines (`None` when it cannot be read), `user.home` and `user.dir` as
    strings, `Integer.parseInt` as an opaque partial function, and each exit
    after an error message as a `HandleError`. */
module CliArgumentHandler {
  import opened Wrappers
  import opened JavaStrings
  import opened Paths
  import opened KeyFile
  import opened ArgumentsModel

  /** The settings a key line can assign, in the order the `else if` chain tests them. */
  datatype Setting = ThreadsSetting | KoodousSetting | MalwareBazaarSetting | MalShareSetting
                   | VirusTotalSetting | TriageSetting | VirusShareSetting

  function Prefix(s: Setting): string {
    match s
    case ThreadsSetting => "threads="
    case KoodousSetting => "koodous="
    case MalwareBazaarSetting => "malwarebazaar="
    case MalShareSetting => "malshare="
    case VirusTotalSetting => "virustotal="
    case TriageSetting => "triage="
    case VirusShareSetting => "virusshare="
  }

  /** One key line: the first setting whose prefix starts the lower-cased line
      gets the rest of the ORIGINAL line (case kept); other lines assign nothing. */
  function ParseKeyLine(line: string): (r: Option<Assignment<Setting>>)
    ensures r.Some? ==> StartsWith(ToLower(line), Prefix(r.value.setting))
                        && r.value.value == line[|Prefix(r.value.setting)|..]
  {
    var lower := ToLower(line);
    if StartsWith(lower, Prefix(ThreadsSetting)) then Some(Assignment(ThreadsSetting, line[|Prefix(ThreadsSetting)|..]))
    else if StartsWith(lower, Prefix(KoodousSetting)) then Some(Assignment(KoodousSetting, line[|Prefix(KoodousSetting)|..]))
    else if StartsWith(lower, Prefix(MalwareBazaarSetting)) then Some(Assignment(MalwareBazaarSetting, line[|Prefix(MalwareBazaarSetting)|..]))
    else if StartsWith(lower, Prefix(MalShareSetting)) then Some(Assignment(MalShareSetting, line[|Prefix(MalShareSetting)|..]))
    else if StartsWith(lower, Prefix(VirusTotalSetting)) then Some(Assignment(VirusTotalSetting, line[|Prefix(VirusTotalSetting)|..]))
    else if StartsWith(lower, Prefix(TriageSetting)) then Some(Assignment(TriageSetting, line[|Prefix(TriageSetting)|..]))
    else if StartsWith(lower, Prefix(VirusShareSetting)) then Some(Assignment(VirusShareSetting, line[|Prefix(VirusShareSetting)|..]))
    else None
  }

  /** No line can start with two of the prefixes: they already differ in their
      characters 0, 1, 3 or 5. So the order of the `else if` chain never decides
      which setting a line assigns. */
  lemma PrefixesExclusive(x: string, s: Setting, t: Setting)
    requires StartsWith(x, Prefix(s)) && StartsWith(x, Prefix(t))
    ensures s == t
  {
    assert x[..|Prefix(s)|][0] == x[0] && x[..|Prefix(s)|][1] == x[1];
    assert x[..|Prefix(s)|][3] == x[3] && x[..|Prefix(s)|][5] == x[5];
    assert x[..|Prefix(t)|][0] == x[0] && x[..|Prefix(t)|][1] == x[1];
    assert x[..|Prefix(t)|][3] == x[3] && x[..|Prefix(t)|][5] == x[5];
    assert Prefix(s)[0] == Prefix(t)[0] && Prefix(s)[1] == Prefix(t)[1];
    assert Prefix(s)[3] == Prefix(t)[3] && Prefix(s)[5] == Prefix(t)[5];
  }

  /** A line assigns `s` the value `v` exactly when its lower-cased form starts
      with `s`'s prefix and `v` is the original line after that prefix. */
  lemma ParseKeyLineMatches(line: string, s: Setting, v: string)
    ensures ParseKeyLine(line) == Some(Assignment(s, v)) <==>
      StartsWith(ToLower(line), Prefix(s)) && v == line[|Prefix(s)|..]
  {
    var lower := ToLower(line);
    if StartsWith(lower, Prefix(s)) {
      forall t | StartsWith(lower, Prefix(t)) ensures t == s {
        PrefixesExclusive(lower, s, t);
      }
    }
  }

  /** A line that assigns something keeps its value's case: the line is the
      (case-insensitively matched) prefix followed by the value, verbatim. */
  lemma ParseKeyLineKeepsCase(line: string, s: Setting, v: string)
    requires ParseKeyLine(line) == Some(Assignment(s, v))
    ensures line == line[..|Prefix(s)|] + v
    ensures ToLower(line[..|Prefix(s)|]) == Prefix(s)
  {
    ParseKeyLineMatches(line, s, v);
    var n := |Prefix(s)|;
    assert line == line[..n] + line[n..];
    assert ToLower(line)[..n] == ToLower(line[..n]);
  }

  /** The seven key variables after the loop over the key lines; `None` is `null`. */
  datatype KeySettings = KeySettings(threads: Option<string>, koodous: Option<string>,
                                     malwareBazaar: Option<string>, malShare: Option<string>,
                                     virusTotal: Option<string>, triage: Option<string>,
                                     virusShare: Option<string>)

  function Lookup(k: KeySettings, s: Setting): Option<string> {
    match s
    case ThreadsSetting => k.threads
    case KoodousSetting => k.koodous
    case MalwareBazaarSetting => k.malwareBazaar
    case MalShareSetting => k.malShare
    case VirusTotalSetting => k.virusTotal
    case TriageSetting => k.triage
    case VirusShareSetting => k.virusShare
  }

  /** One key line's effect on the seven variables. */
  function Update(k: KeySettings, a: Option<Assignment<Setting>>): KeySettings {
    if a.None? then k
    else match a.value.setting
      case ThreadsSetting => k.(threads := Some(a.value.value))
      case KoodousSetting => k.(koodous := Some(a.value.value))
      case MalwareBazaarSetting => k.(malwareBazaar := Some(a.value.value))
      case MalShareSetting => k.(malShare := Some(a.value.value))
      case VirusTotalSetting => k.(virusTotal := Some(a.value.value))
      case TriageSetting => k.(triage := Some(a.value.value))
      case VirusShareSetting => k.(virusShare := Some(a.value.value))
  }

  lemma LookupUpdate(k: KeySettings, a: Option<Assignment<Setting>>, s: Setting)
    ensures Lookup(Update(k, a), s) == if Sets(a, s) then Some(a.value.value) else Lookup(k, s)
  {
  }

  lemma UpdateStep(k: KeySettings, keys: seq<string>, key: string)
    requires forall s :: Lookup(k, s) == LastValue(ParseKeyLine, keys, s)
    ensures forall s :: Lookup(Update(k, ParseKeyLine(key)), s) == LastValue(ParseKeyLine, keys + [key], s)
  {
    var a := ParseKeyLine(key);
    forall s ensures Lookup(Update(k, a), s) == LastValue(ParseKeyLine, keys + [key], s) {
      LastValueStep(ParseKeyLine, keys, key, s);
      LookupUpdate(k, a, s);
    }
  }

  /** The loop of `handle` over the key lines: every setting ends up with the
      value of the last line that assigns it, or `null`. */
  method ParseKeys(keys: seq<string>) returns (k: KeySettings)
    ensures forall s :: Lookup(k, s) == LastValue(ParseKeyLine, keys, s)
  {
    var threads, koodous, malwareBazaar, malShare, virusTotal, triage, virusShare
      := None, None, None, None, None, None, None;
    var i := 0;
    while i < |keys|
      invariant 0 <= i <= |keys|
      invariant forall s ::
        Lookup(KeySettings(threads, koodous, malwareBazaar, malShare, virusTotal, triage, virusShare), s)
        == LastValue(ParseKeyLine, keys[..i], s)
    {
      var key := keys[i];
      ghost var before := KeySettings(threads, koodous, malwareBazaar, malShare, virusTotal, triage, virusShare);
      UpdateStep(before, keys[..i], key);
      var lower := ToLower(key);
      if StartsWith(lower, Prefix(ThreadsSetting)) {
        threads := Some(key[|Prefix(ThreadsSetting)|..]);
      } else if StartsWith(lower, Prefix(KoodousSetting)) {
        koodous := Some(key[|Prefix(KoodousSetting)|..]);
      } else if StartsWith(lower, Prefix(MalwareBazaarSetting)) {
        malwareBazaar := Some(key[|Prefix(MalwareBazaarSetting)|..]);
      } else if StartsWith(lower, Prefix(MalShareSetting)) {
        malShare := Some(key[|Prefix(MalShareSetting)|..]);
      } else if StartsWith(lower, Prefix(VirusTotalSetting)) {
        virusTotal := Some(key[|Prefix(VirusTotalSetting)|..]);
      } else if StartsWith(lower, Prefix(TriageSetting)) {
        triage := Some(key[|Prefix(TriageSetting)|..]);
      } else if StartsWith(lower, Prefix(VirusShareSetting)) {
        virusShare := Some(key[|Prefix(VirusShareSetting)|..]);
      }
      assert KeySettings(threads, koodous, malwareBazaar, malShare, virusTotal, triage, virusShare)
          == Update(before, ParseKeyLine(key));
      assert keys[..i + 1] == keys[..i] + [key];
      i := i + 1;
    }
    assert keys[..i] == keys;
    k := KeySettings(threads, koodous, malwareBazaar, malShare, virusTotal, triage, virusShare);
  }

  /** The lines `loadFile` keeps: empty and white-space-only lines are dropped. */
  function NonBlank(lines: seq<string>): (r: seq<string>)
    ensures |r| <= |lines|
    ensures forall x :: x in r <==> x in lines && !IsBlank(x)
  {
    if lines == [] then []
    else
      var init := NonBlank(lines[..|lines| - 1]);
      assert lines == lines[..|lines| - 1] + [lines[|lines| - 1]];
      if IsBlank(lines[|lines| - 1]) then init else init + [lines[|lines| - 1]]
  }

  /** Filtering keeps the file order: it distributes over concatenation. */
  lemma {:induction false} NonBlankAppend(a: seq<string>, b: seq<string>)
    ensures NonBlank(a + b) == NonBlank(a) + NonBlank(b)
  {
    if b != [] {
      var n := |b| - 1;
      NonBlankAppend(a, b[..n]);
      assert (a + b)[..|a + b| - 1] == a + b[..n];
      assert (a + b)[|a + b| - 1] == b[n];
    } else {
      assert a + b == a;
    }
  }

  /** A file without blank lines is kept as it is. */
  lemma {:induction false} NonBlankKeepsContentLines(lines: seq<string>)
    requires forall i :: 0 <= i < |lines| ==> !IsBlank(lines[i])
    ensures NonBlank(lines) == lines
  {
    if lines != [] {
      var n := |lines| - 1;
      assert forall i :: 0 <= i < n ==> lines[..n][i] == lines[i];
      NonBlankKeepsContentLines(lines[..n]);
      assert !IsBlank(lines[n]);
      assert lines[..n] + [lines[n]] == lines;
    }
  }

  /** `loadFile`'s reading loop, given the lines the reader returns. */
  method LoadFile(lines: seq<string>) returns (output: seq<string>)
    ensures output == NonBlank(lines)
  {
    output := [];
    var i := 0;
    while i < |lines|
      invariant 0 <= i <= |lines|
      invariant output == NonBlank(lines[..i])
    {
      var line := lines[i];
      assert lines[..i + 1][..i] == lines[..i];
      if !(line == [] || IsBlank(line)) {
        output := output + [line];
      }
      i := i + 1;
    }
    assert lines[..i] == lines;
  }

  /** The hash loop of `handle`: every argument after the first that is not
      blank, each once; the output folder `args[0]` is not looked at. */
  method CollectHashes(args: seq<string>) returns (hashes: set<string>)
    ensures forall h :: h in hashes <==> exists i :: 1 <= i < |args| && args[i] == h && !IsBlank(h)
  {
    hashes := {};
    var i := 1;
    while i < |args|
      invariant 1 <= i <= |args| || |args| == 0
      invariant forall h :: h in hashes <==> exists j :: 1 <= j < i && j < |args| && args[j] == h && !IsBlank(h)
    {
      var hash := args[i];
      if !IsBlank(hash) {
        hashes := hashes + {hash};
      }
      i := i + 1;
    }
  }

  /** Why `handle` stopped: each of these is a message followed by `System.exit`,
      except `Rejected`, the constructor's exception passed on to the caller. */
  datatype HandleError = Usage | KeysFileUnreadable | InvalidThreadCount | NonPositiveThreadCount
                       | Rejected(reason: ArgumentsError)

  /** The `threads=` value as a number: `null` and unparsable text both make
      `Integer.parseInt` throw. */
  function ThreadCount(keys: seq<string>, parseInt: string -> Option<int>): Option<int> {
    var threads := LastValue(ParseKeyLine, keys, ThreadsSetting);
    if threads.None? then None else parseInt(threads.value)
  }

  function LiftError(r: Result<Arguments, ArgumentsError>): Result<Arguments, HandleError> {
    match r
    case Success(a) => Success(a)
    case Failure(e) => Failure(Rejected(e))
  }

  /** The seven variables, one by one. */
  lemma KeySettingsFields(k: KeySettings, keys: seq<string>)
    requires forall s :: Lookup(k, s) == LastValue(ParseKeyLine, keys, s)
    ensures k.threads == LastValue(ParseKeyLine, keys, ThreadsSetting)
    ensures k.koodous == LastValue(ParseKeyLine, keys, KoodousSetting)
    ensures k.malwareBazaar == LastValue(ParseKeyLine, keys, MalwareBazaarSetting)
    ensures k.malShare == LastValue(ParseKeyLine, keys, MalShareSetting)
    ensures k.virusTotal == LastValue(ParseKeyLine, keys, VirusTotalSetting)
    ensures k.triage == LastValue(ParseKeyLine, keys, TriageSetting)
    ensures k.virusShare == LastValue(ParseKeyLine, keys, VirusShareSetting)
  {
    assert Lookup(k, ThreadsSetting) == k.threads;
    assert Lookup(k, KoodousSetting) == k.koodous && Lookup(k, MalwareBazaarSetting) == k.malwareBazaar;
    assert Lookup(k, MalShareSetting) == k.malShare && Lookup(k, VirusTotalSetting) == k.virusTotal;
    assert Lookup(k, TriageSetting) == k.triage && Lookup(k, VirusShareSetting) == k.virusShare;
  }

  /** `handle`: fewer than two arguments or an unreadable key file stop the
      program; so does a missing, unparsable or non-positive `threads=` value;
      otherwise the non-blank arguments after the first are the hashes, the
      first is the output folder (tilde expanded, made absolute), and the
      `Arguments` constructor validates the rest. */
  method Handle(args: seq<string>, keysFile: Option<seq<string>>, home: string, cwd: string,
                parseInt: string -> Option<int>)
    returns (r: Result<Arguments, HandleError>)
    ensures |args| < 2 ==> r == Failure(Usage)
    ensures |args| >= 2 && keysFile.None? ==> r == Failure(KeysFileUnreadable)
    ensures |args| >= 2 && keysFile.Some? ==>
      var keys := NonBlank(keysFile.value);
      var threads := ThreadCount(keys, parseInt);
      if threads.None? then r == Failure(InvalidThreadCount)
      else if threads.value <= 0 then r == Failure(NonPositiveThreadCount)
      else r == LiftError(NewArguments(
        Some(set i | 1 <= i < |args| && !IsBlank(args[i]) :: args[i]),
        Absolute(FilterPath(args[0], home), cwd), threads.value,
        LastValue(ParseKeyLine, keys, KoodousSetting), LastValue(ParseKeyLine, keys, MalwareBazaarSetting),
        LastValue(ParseKeyLine, keys, MalShareSetting), LastValue(ParseKeyLine, keys, VirusTotalSetting),
        LastValue(ParseKeyLine, keys, TriageSetting), LastValue(ParseKeyLine, keys, VirusShareSetting)))
    ensures r.Success? ==> Valid(r.value) && forall h :: h in r.value.hashes ==> !IsBlank(h)
  {
    if |args| < 2 {
      return Failure(Usage);
    }
    if keysFile.None? {
      return Failure(KeysFileUnreadable);
    }
    var keys := LoadFile(keysFile.value);
    var k := ParseKeys(keys);
    KeySettingsFields(k, keys);
    if k.threads.None? || parseInt(k.threads.value).None? {
      return Failure(InvalidThreadCount);
    }
    var threadCount := parseInt(k.threads.value).value;
    if threadCount <= 0 {
      return Failure(NonPositiveThreadCount);
    }
    var hashes := CollectHashes(args);
    assert hashes == set i | 1 <= i < |args| && !IsBlank(args[i]) :: args[i];
    var path := Absolute(FilterPath(args[0], home), cwd);
    r := LiftError(NewArguments(Some(hashes), path, threadCount, k.koodous, k.malwareBazaar,
                                k.malShare, k.virusTotal, k.triage, k.virusShare));
  }
}
