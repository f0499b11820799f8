/** Settings read from a key file: each line may assign one setting, and when
    several lines assign the same setting the last one wins. Both argument
    handlers follow this rule; they differ only in how one line is read. */
module KeyFile {
  import opened Wrappers

  /** One key line read as "setting := value". */
  datatype Assignment<S> = Assignment(setting: S, value: string)

  predicate Sets<S(==)>(a: Option<Assignment<S>>, s: S) {
    a.Some? && a.value.setting == s
  }

  /** The value that the last line assigning `s` gives it; `None` (Java's
      initial `null`) when no line assigns it. */
  function LastValue<S(==)>(parse: string -> Option<Assignment<S>>, lines: seq<string>, s: S): Option<string>
  {
    if lines == [] then None
    else if Sets(parse(lines[|lines| - 1]), s) then Some(parse(lines[|lines| - 1]).value.value)
    else LastValue(parse, lines[..|lines| - 1], s)
  }

  /** Reading one more line changes setting `s` exactly when that line assigns it. */
  lemma LastValueStep<S>(parse: string -> Option<Assignment<S>>, lines: seq<string>, line: string, s: S)
    ensures LastValue(parse, lines + [line], s)
         == if Sets(parse(line), s) then Some(parse(line).value.value) else LastValue(parse, lines, s)
  {
    assert (lines + [line])[..|lines|] == lines;
  }

  /** A setting keeps its initial `null` exactly when no line assigns it. */
  lemma {:induction false} LastValueNoneIffUnassigned<S>(parse: string -> Option<Assignment<S>>, lines: seq<string>, s: S)
    ensures LastValue(parse, lines, s).None? <==> forall i :: 0 <= i < |lines| ==> !Sets(parse(lines[i]), s)
  {
    if lines != [] {
      var init := lines[..|lines| - 1];
      LastValueNoneIffUnassigned(parse, init, s);
      assert forall i :: 0 <= i < |init| ==> init[i] == lines[i];
    }
  }

  /** Last assignment wins: the setting holds `v` exactly when some line assigns
      `v` to it and no later line assigns it again. */
  lemma {:induction false} LastValueIsLastAssignment<S>(parse: string -> Option<Assignment<S>>, lines: seq<string>, s: S, v: string)
    ensures LastValue(parse, lines, s) == Some(v) <==>
      exists i :: 0 <= i < |lines| && parse(lines[i]) == Some(Assignment(s, v))
                  && forall j :: i < j < |lines| ==> !Sets(parse(lines[j]), s)
  {
    if lines != [] {
      var n := |lines| - 1;
      var init := lines[..n];
      LastValueIsLastAssignment(parse, init, s, v);
      assert forall i :: 0 <= i < n ==> init[i] == lines[i];
      if Sets(parse(lines[n]), s) {
        if LastValue(parse, lines, s) == Some(v) {
          assert parse(lines[n]) == Some(Assignment(s, v));
        }
      } else {
        if exists i :: 0 <= i < |lines| && parse(lines[i]) == Some(Assignment(s, v))
                       && forall j :: i < j < |lines| ==> !Sets(parse(lines[j]), s) {
          var i :| 0 <= i < |lines| && parse(lines[i]) == Some(Assignment(s, v))
                   && forall j :: i < j < |lines| ==> !Sets(parse(lines[j]), s);
          assert i < n;
        }
      }
    }
  }
}
