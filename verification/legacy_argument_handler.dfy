/** The older `malpull.ArgumentHandler` and the plain `malpull.Arguments`
    holder it fills: exactly four arguments (thread count, key file, hash
    file, output folder), four services, no validation of the result. Files
    arrive through `readFile`, keyed by the tilde-expanded path; `None` stands
    for a missing file, a directory or a read error, after each of which the
    program exits. */
module LegacyArgumentHandler {
  import opened Wrappers
  import opened JavaStrings
  import opened Paths
  import opened KeyFile

  /** `malpull.Arguments`: a holder with no logic. */
  datatype LegacyArguments = LegacyArguments(
    hashes: set<string>,
    outputPath: string,
    threadCount: int,
    koodousKey: Option<string>,
    malwareBazaarKey: Option<string>,
    malShareKey: Option<string>,
    virusTotalKey: Option<string>)

  datatype LegacySetting = KoodousSetting | MalwareBazaarSetting | MalShareSetting | VirusTotalSetting

  function Prefix(s: LegacySetting): string {
    match s
    case KoodousSetting => "koodous="
    case MalwareBazaarSetting => "malwarebazaar="
    case MalShareSetting => "malshare="
    case VirusTotalSetting => "virustotal="
  }

  /** Where the value is cut from the line: after the whole prefix, except for
      Koodous, which is cut at the length of "koodous" without the '='. */
  function Cut(s: LegacySetting): nat {
    match s
    case KoodousSetting => |"koodous"|
    case MalwareBazaarSetting => |"malwarebazaar="|
    case MalShareSetting => |"malshare="|
    case VirusTotalSetting => |"virustotal="|
  }

  /** One key line, as the older `handle` reads it. */
  function ParseKeyLine(line: string): (r: Option<Assignment<LegacySetting>>)
    ensures r.Some? ==> StartsWith(ToLower(line), Prefix(r.value.setting))
                        && r.value.value == line[Cut(r.value.setting)..]
  {
    var lower := ToLower(line);
    if StartsWith(lower, Prefix(KoodousSetting)) then Some(Assignment(KoodousSetting, line[Cut(KoodousSetting)..]))
    else if StartsWith(lower, Prefix(MalwareBazaarSetting)) then Some(Assignment(MalwareBazaarSetting, line[Cut(MalwareBazaarSetting)..]))
    else if StartsWith(lower, Prefix(MalShareSetting)) then Some(Assignment(MalShareSetting, line[Cut(MalShareSetting)..]))
    else if StartsWith(lower, Prefix(VirusTotalSetting)) then Some(Assignment(VirusTotalSetting, line[Cut(VirusTotalSetting)..]))
    else None
  }

  /** The four prefixes differ in character 0 or 3, so no line starts with two of them. */
  lemma PrefixesExclusive(x: string, s: LegacySetting, t: LegacySetting)
    requires StartsWith(x, Prefix(s)) && StartsWith(x, Prefix(t))
    ensures s == t
  {
    assert x[..|Prefix(s)|][0] == x[0] && x[..|Prefix(s)|][3] == x[3];
    assert x[..|Prefix(t)|][0] == x[0] && x[..|Prefix(t)|][3] == x[3];
    assert Prefix(s)[0] == Prefix(t)[0] && Prefix(s)[3] == Prefix(t)[3];
  }

  /** A line assigns `s` exactly when its lower-cased form starts with `s`'s
      prefix; the value is the original line from `Cut(s)` on. */
  lemma ParseKeyLineMatches(line: string, s: LegacySetting, v: string)
    ensures ParseKeyLine(line) == Some(Assignment(s, v)) <==>
      StartsWith(ToLower(line), Prefix(s)) && v == line[Cut(s)..]
  {
    var lower := ToLower(line);
    if StartsWith(lower, Prefix(s)) {
      forall t | StartsWith(lower, Prefix(t)) ensures t == s {
        PrefixesExclusive(lower, s, t);
      }
    }
  }

  /** The Koodous key keeps the '=' of its prefix: the stored value is '='
      followed by what comes after "koodous=". For MalwareBazaar, MalShare and
      VirusTotal the whole prefix is removed. */
  lemma KoodousKeyKeepsEquals(line: string, v: string)
    requires ParseKeyLine(line) == Some(Assignment(KoodousSetting, v))
    ensures |v| >= 1 && v[0] == '=' && v[1..] == line[|Prefix(KoodousSetting)|..]
    ensures v != line[|Prefix(KoodousSetting)|..]
  {
    ParseKeyLineMatches(line, KoodousSetting, v);
    assert ToLower(line)[7] == line[7];
    assert ToLower(line)[..8][7] == '=';
  }

  /** The line "koodous=abc" stores the key "=abc", not "abc". */
  lemma KoodousExample()
    ensures ParseKeyLine("koodous=abc") == Some(Assignment(KoodousSetting, "=abc"))
  {
    assert ToLower("koodous=abc") == "koodous=abc";
  }

  datatype LegacyKeys = LegacyKeys(koodous: Option<string>, malwareBazaar: Option<string>,
                                   malShare: Option<string>, virusTotal: Option<string>)

  function Lookup(k: LegacyKeys, s: LegacySetting): Option<string> {
    match s
    case KoodousSetting => k.koodous
    case MalwareBazaarSetting => k.malwareBazaar
    case MalShareSetting => k.malShare
    case VirusTotalSetting => k.virusTotal
  }

  /** One key line's effect on the four variables. */
  function Update(k: LegacyKeys, a: Option<Assignment<LegacySetting>>): LegacyKeys {
    if a.None? then k
    else match a.value.setting
      case KoodousSetting => k.(koodous := Some(a.value.value))
      case MalwareBazaarSetting => k.(malwareBazaar := Some(a.value.value))
      case MalShareSetting => k.(malShare := Some(a.value.value))
      case VirusTotalSetting => k.(virusTotal := Some(a.value.value))
  }

  lemma LookupUpdate(k: LegacyKeys, a: Option<Assignment<LegacySetting>>, s: LegacySetting)
    ensures Lookup(Update(k, a), s) == if Sets(a, s) then Some(a.value.value) else Lookup(k, s)
  {
  }

  lemma UpdateStep(k: LegacyKeys, keys: seq<string>, key: string)
    requires forall s :: Lookup(k, s) == LastValue(ParseKeyLine, keys, s)
    ensures forall s :: Lookup(Update(k, ParseKeyLine(key)), s) == LastValue(ParseKeyLine, keys + [key], s)
  {
    var a := ParseKeyLine(key);
    forall s ensures Lookup(Update(k, a), s) == LastValue(ParseKeyLine, keys + [key], s) {
      LastValueStep(ParseKeyLine, keys, key, s);
      LookupUpdate(k, a, s);
    }
  }

  /** The loop of the older `handle` over the key lines: last assignment wins. */
  method ParseKeys(keys: seq<string>) returns (k: LegacyKeys)
    ensures forall s :: Lookup(k, s) == LastValue(ParseKeyLine, keys, s)
  {
    var koodous, malwareBazaar, malShare, virusTotal := None, None, None, None;
    var i := 0;
    while i < |keys|
      invariant 0 <= i <= |keys|
      invariant forall s ::
        Lookup(LegacyKeys(koodous, malwareBazaar, malShare, virusTotal), s) == LastValue(ParseKeyLine, keys[..i], s)
    {
      var key := keys[i];
      ghost var before := LegacyKeys(koodous, malwareBazaar, malShare, virusTotal);
      UpdateStep(before, keys[..i], key);
      var lower := ToLower(key);
      if StartsWith(lower, Prefix(KoodousSetting)) {
        koodous := Some(key[Cut(KoodousSetting)..]);
      } else if StartsWith(lower, Prefix(MalwareBazaarSetting)) {
        malwareBazaar := Some(key[Cut(MalwareBazaarSetting)..]);
      } else if StartsWith(lower, Prefix(MalShareSetting)) {
        malShare := Some(key[Cut(MalShareSetting)..]);
      } else if StartsWith(lower, Prefix(VirusTotalSetting)) {
        virusTotal := Some(key[Cut(VirusTotalSetting)..]);
      }
      assert LegacyKeys(koodous, malwareBazaar, malShare, virusTotal) == Update(before, ParseKeyLine(key));
      assert keys[..i + 1] == keys[..i] + [key];
      i := i + 1;
    }
    assert keys[..i] == keys;
    k := LegacyKeys(koodous, malwareBazaar, malShare, virusTotal);
  }

  datatype LegacyError = Usage | InvalidThreadCount | NonPositiveThreadCount | FileUnreadable(path: string)

  /** The older `handle`: anything but four arguments, a thread count that does
      not parse or is below 1, or an unreadable key or hash file stops the
      program. Otherwise every line of the hash file, blank ones included, is a
      hash (each once), and the output folder is `args[3]`, tilde expanded and
      made absolute. Nothing checks that a service or a hash was given. */
  method Handle(args: seq<string>, readFile: string -> Option<seq<string>>, home: string, cwd: string,
                parseInt: string -> Option<int>)
    returns (r: Result<LegacyArguments, LegacyError>)
    ensures |args| != 4 ==> r == Failure(Usage)
    ensures |args| == 4 && parseInt(args[0]).None? ==> r == Failure(InvalidThreadCount)
    ensures |args| == 4 && parseInt(args[0]).Some? && parseInt(args[0]).value <= 0
            ==> r == Failure(NonPositiveThreadCount)
    ensures |args| == 4 && parseInt(args[0]).Some? && parseInt(args[0]).value >= 1 ==>
      var keysPath, hashesPath := FilterPath(args[1], home), FilterPath(args[2], home);
      if readFile(keysPath).None? then r == Failure(FileUnreadable(keysPath))
      else if readFile(hashesPath).None? then r == Failure(FileUnreadable(hashesPath))
      else
        var keys := readFile(keysPath).value;
        r == Success(LegacyArguments(
          (set line | line in readFile(hashesPath).value),
          Absolute(FilterPath(args[3], home), cwd), parseInt(args[0]).value,
          LastValue(ParseKeyLine, keys, KoodousSetting), LastValue(ParseKeyLine, keys, MalwareBazaarSetting),
          LastValue(ParseKeyLine, keys, MalShareSetting), LastValue(ParseKeyLine, keys, VirusTotalSetting)))
  {
    if |args| != 4 {
      return Failure(Usage);
    }
    if parseInt(args[0]).None? {
      return Failure(InvalidThreadCount);
    }
    var threadCount := parseInt(args[0]).value;
    if threadCount <= 0 {
      return Failure(NonPositiveThreadCount);
    }
    var keysPath := FilterPath(args[1], home);
    if readFile(keysPath).None? {
      return Failure(FileUnreadable(keysPath));
    }
    var k := ParseKeys(readFile(keysPath).value);
    var hashesPath := FilterPath(args[2], home);
    if readFile(hashesPath).None? {
      return Failure(FileUnreadable(hashesPath));
    }
    var hashes := set line | line in readFile(hashesPath).value;
    var path := Absolute(FilterPath(args[3], home), cwd);
    assert Lookup(k, KoodousSetting) == k.koodous && Lookup(k, MalwareBazaarSetting) == k.malwareBazaar
        && Lookup(k, MalShareSetting) == k.malShare && Lookup(k, VirusTotalSetting) == k.virusTotal;
    r := Success(LegacyArguments(hashes, path, threadCount, k.koodous, k.malwareBazaar, k.malShare, k.virusTotal));
  }
}
