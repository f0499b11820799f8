/** The validated run configuration (`malpull.model.Arguments`). Its fields are
    only assigned by the constructor, so it is a value here; the constructor's
    two exceptions become the failure side of `NewArguments`. A `null` key is
    `None`: that service is not used. */
module ArgumentsModel {
  import opened Wrappers

  datatype Arguments = Arguments(
    hashes: set<string>,
    outputPath: string,
    threadCount: int,
    koodousKey: Option<string>,
    malwareBazaarKey: Option<string>,
    malShareKey: Option<string>,
    virusTotalKey: Option<string>,
    triageKey: Option<string>,
    virusShareKey: Option<string>)

  datatype ArgumentsError = NoServicesSet | NoHashesFound

  /** At least one service is configured. */
  predicate AnyServiceSet(a: Arguments) {
    a.koodousKey.Some? || a.malwareBazaarKey.Some? || a.malShareKey.Some?
    || a.virusTotalKey.Some? || a.triageKey.Some? || a.virusShareKey.Some?
  }

  /** What a successfully constructed `Arguments` always satisfies. */
  predicate Valid(a: Arguments) {
    AnyServiceSet(a) && a.hashes != {} && a.threadCount >= 1
  }

  /** The constructor: no service at all is checked first, then a null or empty
      hash set; a thread count of zero or less is stored as 1. Everything else
      is stored exactly as given. */
  function NewArguments(hashes: Option<set<string>>, outputPath: string, threadCount: int,
                        koodousKey: Option<string>, malwareBazaarKey: Option<string>,
                        malShareKey: Option<string>, virusTotalKey: Option<string>,
                        triageKey: Option<string>, virusShareKey: Option<string>)
    : (r: Result<Arguments, ArgumentsError>)
    ensures r == Failure(NoServicesSet) <==>
      koodousKey.None? && malwareBazaarKey.None? && malShareKey.None?
      && virusTotalKey.None? && triageKey.None? && virusShareKey.None?
    ensures r == Failure(NoHashesFound) <==>
      !(koodousKey.None? && malwareBazaarKey.None? && malShareKey.None?
        && virusTotalKey.None? && triageKey.None? && virusShareKey.None?)
      && (hashes.None? || hashes.value == {})
    ensures r.Success? ==> Valid(r.value)
    ensures r.Success? ==>
      && r.value.hashes == hashes.value && r.value.outputPath == outputPath
      && r.value.koodousKey == koodousKey && r.value.malwareBazaarKey == malwareBazaarKey
      && r.value.malShareKey == malShareKey && r.value.virusTotalKey == virusTotalKey
      && r.value.triageKey == triageKey && r.value.virusShareKey == virusShareKey
    ensures r.Success? ==>
      && (threadCount >= 1 ==> r.value.threadCount == threadCount)
      && (threadCount <= 0 ==> r.value.threadCount == 1)
  {
    if koodousKey.None? && malwareBazaarKey.None? && malShareKey.None?
       && virusTotalKey.None? && triageKey.None? && virusShareKey.None? then
      Failure(NoServicesSet)
    else if hashes.None? || hashes.value == {} then
      Failure(NoHashesFound)
    else
      Success(Arguments(hashes.value, outputPath, if threadCount <= 0 then 1 else threadCount,
                        koodousKey, malwareBazaarKey, malShareKey, virusTotalKey,
                        triageKey, virusShareKey))
  }

  /** The platforms `getAvailablePlatforms` can report, in its fixed order. */
  datatype Platform = Triage | MalwareBazaar | MalShare | VirusShare | VirusTotal | Koodous

  function Rank(p: Platform): (r: nat)
    ensures r < 6
  {
    match p
    case Triage => 0
    case MalwareBazaar => 1
    case MalShare => 2
    case VirusShare => 3
    case VirusTotal => 4
    case Koodous => 5
  }

  function DisplayName(p: Platform): string {
    match p
    case Triage => "Triage"
    case MalwareBazaar => "Malware Bazaar"
    case MalShare => "MalShare"
    case VirusShare => "VirusShare"
    case VirusTotal => "VirusTotal"
    case Koodous => "Koodous"
  }

  /** Distinct platforms are reported under distinct names. */
  lemma DisplayNameInjective(p: Platform, q: Platform)
    requires DisplayName(p) == DisplayName(q)
    ensures p == q
  {
  }

  function KeyOf(a: Arguments, p: Platform): Option<string> {
    match p
    case Triage => a.triageKey
    case MalwareBazaar => a.malwareBazaarKey
    case MalShare => a.malShareKey
    case VirusShare => a.virusShareKey
    case VirusTotal => a.virusTotalKey
    case Koodous => a.koodousKey
  }

  /** One `if (key != null) platforms.add(...)` step of `getAvailablePlatforms`. */
  function AddIfSet(a: Arguments, ps: seq<Platform>, p: Platform): seq<Platform> {
    if KeyOf(a, p).Some? then ps + [p] else ps
  }

  /** Strictly increasing rank: the fixed order, and no platform twice. */
  predicate InOrder(ps: seq<Platform>) {
    forall i, j :: 0 <= i < j < |ps| ==> Rank(ps[i]) < Rank(ps[j])
  }

  /** After the steps for all platforms ranked below `r`, the list holds
      exactly those of them whose key is set, in order. */
  predicate ListedBelow(a: Arguments, ps: seq<Platform>, r: nat) {
    InOrder(ps) && forall p :: p in ps <==> Rank(p) < r && KeyOf(a, p).Some?
  }

  lemma {:induction false} AddIfSetStep(a: Arguments, ps: seq<Platform>, p: Platform)
    requires ListedBelow(a, ps, Rank(p))
    ensures ListedBelow(a, AddIfSet(a, ps, p), Rank(p) + 1)
  {
    var qs := AddIfSet(a, ps, p);
    forall q ensures q in qs <==> Rank(q) < Rank(p) + 1 && KeyOf(a, q).Some? {
      if Rank(q) == Rank(p) {
        assert q == p;
      }
    }
  }

  /** The platforms whose key is set, each once, in the order Triage, Malware
      Bazaar, MalShare, VirusShare, VirusTotal, Koodous; never empty for a
      validly constructed `Arguments`. */
  function EnabledPlatforms(a: Arguments): (ps: seq<Platform>)
    ensures forall p :: p in ps <==> KeyOf(a, p).Some?
    ensures InOrder(ps)
    ensures Valid(a) ==> |ps| > 0
  {
    var ps0 := AddIfSet(a, [], Triage);
    AddIfSetStep(a, [], Triage);
    var ps1 := AddIfSet(a, ps0, MalwareBazaar);
    AddIfSetStep(a, ps0, MalwareBazaar);
    var ps2 := AddIfSet(a, ps1, MalShare);
    AddIfSetStep(a, ps1, MalShare);
    var ps3 := AddIfSet(a, ps2, VirusShare);
    AddIfSetStep(a, ps2, VirusShare);
    var ps4 := AddIfSet(a, ps3, VirusTotal);
    AddIfSetStep(a, ps3, VirusTotal);
    AddIfSetStep(a, ps4, Koodous);
    var ps5 := AddIfSet(a, ps4, Koodous);
    ps5
  }

  /** `names` lists the display names of `ps`, position by position. */
  predicate NamesOf(names: seq<string>, ps: seq<Platform>) {
    |names| == |ps| && forall i :: 0 <= i < |ps| ==> names[i] == DisplayName(ps[i])
  }

  lemma NamesOfStep(a: Arguments, names: seq<string>, ps: seq<Platform>, p: Platform)
    requires NamesOf(names, ps)
    ensures NamesOf(if KeyOf(a, p).Some? then names + [DisplayName(p)] else names, AddIfSet(a, ps, p))
  {
  }

  /** `getAvailablePlatforms`: the display names of `EnabledPlatforms(a)`, in
      that order, appended one platform at a time. */
  method AvailablePlatforms(a: Arguments) returns (platforms: seq<string>)
    ensures NamesOf(platforms, EnabledPlatforms(a))
  {
    ghost var ps: seq<Platform> := [];
    platforms := [];
    NamesOfStep(a, platforms, ps, Triage);
    if a.triageKey.Some? {
      platforms := platforms + [DisplayName(Triage)];
    }
    ps := AddIfSet(a, ps, Triage);
    NamesOfStep(a, platforms, ps, MalwareBazaar);
    if a.malwareBazaarKey.Some? {
      platforms := platforms + [DisplayName(MalwareBazaar)];
    }
    ps := AddIfSet(a, ps, MalwareBazaar);
    NamesOfStep(a, platforms, ps, MalShare);
    if a.malShareKey.Some? {
      platforms := platforms + [DisplayName(MalShare)];
    }
    ps := AddIfSet(a, ps, MalShare);
    NamesOfStep(a, platforms, ps, VirusShare);
    if a.virusShareKey.Some? {
      platforms := platforms + [DisplayName(VirusShare)];
    }
    ps := AddIfSet(a, ps, VirusShare);
    NamesOfStep(a, platforms, ps, VirusTotal);
    if a.virusTotalKey.Some? {
      platforms := platforms + [DisplayName(VirusTotal)];
    }
    ps := AddIfSet(a, ps, VirusTotal);
    NamesOfStep(a, platforms, ps, Koodous);
    if a.koodousKey.Some? {
      platforms := platforms + [DisplayName(Koodous)];
    }
    ps := AddIfSet(a, ps, Koodous);
    assert ps == EnabledPlatforms(a);
  }
}
