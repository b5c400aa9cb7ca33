/**
 * The `PuppetCheck` class: its settings hash, `execute_parsers` and the
 * exit status `run` returns. The parsers themselves are not modelled: each
 * call of a parser entry point is recorded, and what that call appends to
 * the diagnostic arrays is given by the parameter `check`.
 */
module PuppetCheck {
  import opened Results
  import opened PathResolution
  import opened Classification

  /** What one parser call appends to the error, warning and clean arrays. */
  datatype Report = Report(errors: seq<string>, warnings: seq<string>, cleans: seq<string>)

  /** The three diagnostic arrays the parsers append to. */
  datatype Outcome = Errored | Warned | Clean

  function Listed(r: Report, o: Outcome): seq<string>
  {
    match o
    case Errored => r.errors
    case Warned => r.warnings
    case Clean => r.cleans
  }

  /** What a sequence of parser calls appends, in call order, to the array of outcome `o`. */
  function Appended(check: Call -> Report, calls: seq<Call>, o: Outcome): seq<string>
  {
    if |calls| == 0 then []
    else Appended(check, calls[..|calls| - 1], o) + Listed(check(calls[|calls| - 1]), o)
  }

  /** The calls' contributions follow one another: what `a + b` appends is what `a` appends, then what `b` does. */
  lemma {:induction false} AppendedConcat(check: Call -> Report, a: seq<Call>, b: seq<Call>, o: Outcome)
    ensures Appended(check, a + b, o) == Appended(check, a, o) + Appended(check, b, o)
  {
    if |b| == 0 {
      assert a + b == a;
    } else {
      var init := b[..|b| - 1];
      var last := b[|b| - 1];
      AppendedConcat(check, a, init, o);
      assert b == init + [last];
      assert a + b == (a + init) + [last];
      AppendedStep(check, a + init, last, o);
      AppendedStep(check, init, last, o);
    }
  }

  /** One more call appends its report after what the earlier calls appended. */
  lemma AppendedStep(check: Call -> Report, calls: seq<Call>, c: Call, o: Outcome)
    ensures Appended(check, calls + [c], o) == Appended(check, calls, o) + Listed(check(c), o)
  {
    assert (calls + [c])[..|calls|] == calls;
  }

  /** The calls append nothing to an array exactly when no single call appends anything to it. */
  lemma {:induction false} AppendedEmpty(check: Call -> Report, calls: seq<Call>, o: Outcome)
    ensures Appended(check, calls, o) == [] <==> forall i :: 0 <= i < |calls| ==> Listed(check(calls[i]), o) == []
  {
    if |calls| > 0 {
      var init := calls[..|calls| - 1];
      AppendedEmpty(check, init, o);
      assert forall i :: 0 <= i < |init| ==> init[i] == calls[i];
    }
  }

  /**
   * The status `run` returns once the parsers have run: 2 when a file has
   * errors, or when warnings are fatal and a file has warnings; 0 otherwise.
   */
  function ExitStatus(errorFiles: seq<string>, warningFiles: seq<string>, failOnWarning: bool): (code: int)
    ensures code == 0 || code == 2
    ensures code == 2 <==> errorFiles != [] || (failOnWarning && warningFiles != [])
  {
    if |errorFiles| == 0 && (!failOnWarning || |warningFiles| == 0) then 0 else 2
  }

  /**
   * A run whose diagnostic arrays start empty fails exactly when some parser
   * call reports an error, or warnings are fatal and some call reports a
   * warning.
   */
  lemma FailsIffSomeCallFails(check: Call -> Report, calls: seq<Call>, failOnWarning: bool)
    ensures ExitStatus(Appended(check, calls, Errored), Appended(check, calls, Warned), failOnWarning) == 2 <==>
            (exists i :: 0 <= i < |calls| && check(calls[i]).errors != []) ||
            (failOnWarning && exists i :: 0 <= i < |calls| && check(calls[i]).warnings != [])
  {
    AppendedEmpty(check, calls, Errored);
    AppendedEmpty(check, calls, Warned);
  }

  /**
   * Diagnostics already present from an earlier run are never cleared:
   * once an error is recorded, every later status is 2.
   */
  lemma EarlierErrorsPersist(errorFiles: seq<string>, warningFiles: seq<string>, failOnWarning: bool,
                             check: Call -> Report, calls: seq<Call>)
    requires errorFiles != []
    ensures ExitStatus(errorFiles + Appended(check, calls, Errored),
                       warningFiles + Appended(check, calls, Warned), failOnWarning) == 2
  {
  }

  /** `PuppetCheck.settings`, the class-level hash the runner, the parsers and the CLI share. */
  class Settings {
    var futureParser: bool
    var failOnWarning: bool
    var styleCheck: bool
    var errorFiles: seq<string>
    var warningFiles: seq<string>
    var cleanFiles: seq<string>
    var ignoredFiles: seq<string>
    var puppetlintArgs: seq<string>
    var rubocopArgs: seq<string>

    /** The defaults: all flags off, all arrays empty. */
    constructor ()
      ensures !futureParser && !failOnWarning && !styleCheck
      ensures errorFiles == [] && warningFiles == [] && cleanFiles == [] && ignoredFiles == []
      ensures puppetlintArgs == [] && rubocopArgs == []
    {
      futureParser := false;
      failOnWarning := false;
      styleCheck := false;
      errorFiles := [];
      warningFiles := [];
      cleanFiles := [];
      ignoredFiles := [];
      puppetlintArgs := [];
      rubocopArgs := [];
    }

    /** The parser entry point of `call` runs and appends its report to the diagnostic arrays. */
    method Invoke(call: Call, check: Call -> Report)
      modifies this
      ensures errorFiles == old(errorFiles) + Listed(check(call), Errored)
      ensures warningFiles == old(warningFiles) + Listed(check(call), Warned)
      ensures cleanFiles == old(cleanFiles) + Listed(check(call), Clean)
      ensures ignoredFiles == old(ignoredFiles)
      ensures futureParser == old(futureParser) && failOnWarning == old(failOnWarning) && styleCheck == old(styleCheck)
      ensures puppetlintArgs == old(puppetlintArgs) && rubocopArgs == old(rubocopArgs)
    {
      var report := check(call);
      errorFiles := errorFiles + report.errors;
      warningFiles := warningFiles + report.warnings;
      cleanFiles := cleanFiles + report.cleans;
    }

    /**
     * `execute_parsers`: seven `partition` steps, each handing its share to
     * one parser entry point, then the leftovers pushed onto the ignored
     * files. The calls made are `ParserCalls`, so each file reaches exactly
     * the parser it is classified under (`DispatchIsPartition`,
     * `ExactlyOneDestination`).
     */
    method ExecuteParsers(files: seq<Path>, future: bool, style: bool, plArgs: seq<string>, rcArgs: seq<string>,
                          check: Call -> Report)
      returns (calls: seq<Call>)
      modifies this
      ensures calls == ParserCalls(files, future, style, plArgs, rcArgs)
      ensures errorFiles == old(errorFiles) + Appended(check, calls, Errored)
      ensures warningFiles == old(warningFiles) + Appended(check, calls, Warned)
      ensures cleanFiles == old(cleanFiles) + Appended(check, calls, Clean)
      ensures ignoredFiles == old(ignoredFiles) + Leftovers(files)
      ensures futureParser == old(futureParser) && failOnWarning == old(failOnWarning) && styleCheck == old(styleCheck)
      ensures puppetlintArgs == old(puppetlintArgs) && rubocopArgs == old(rubocopArgs)
    {
      var (manifests, rest0) := Partition(files, PuppetManifest);
      var c0 := Call(PuppetManifest, manifests, ManifestOptions(future, style, plArgs));
      Invoke(c0, check);
      var (epps, rest1) := Partition(rest0, PuppetTemplate);
      var c1 := Call(PuppetTemplate, epps, NoOptions);
      Invoke(c1, check);
      var (rubies, rest2) := Partition(rest1, RubyScript);
      var c2 := Call(RubyScript, rubies, RubyOptions(style, rcArgs));
      Invoke(c2, check);
      var (erbs, rest3) := Partition(rest2, RubyTemplate);
      var c3 := Call(RubyTemplate, erbs, NoOptions);
      Invoke(c3, check);
      var (yamls, rest4) := Partition(rest3, YamlData);
      var c4 := Call(YamlData, yamls, NoOptions);
      Invoke(c4, check);
      var (jsons, rest5) := Partition(rest4, JsonData);
      var c5 := Call(JsonData, jsons, NoOptions);
      Invoke(c5, check);
      var (librarians, rest6) := Partition(rest5, Librarian);
      var c6 := Call(Librarian, librarians, RubyOptions(style, rcArgs));
      Invoke(c6, check);
      ignoredFiles := ignoredFiles + rest6;
      calls := [c0, c1, c2, c3, c4, c5, c6];
      PartitionChain(files);
      CallsInOrder(files, future, style, plArgs, rcArgs);
      AppendedInTurn(check, old(errorFiles), c0, c1, c2, c3, c4, c5, c6, Errored);
      AppendedInTurn(check, old(warningFiles), c0, c1, c2, c3, c4, c5, c6, Warned);
      AppendedInTurn(check, old(cleanFiles), c0, c1, c2, c3, c4, c5, c6, Clean);
    }

    /**
     * `run`: collects the files, runs the parsers with the current flags and
     * arguments, and returns the exit status. When `parse_paths` raises,
     * the error propagates and nothing changes. The diagnostic arrays are
     * not reset first, so what earlier runs recorded still counts.
     */
    method Run(fs: FileSystem, paths: seq<Path>, check: Call -> Report)
      returns (status: Result<int>, calls: seq<Call>)
      modifies this
      ensures ParsedPaths(fs, paths).Failure? ==>
                status == Failure(NoFilesMessage(paths)) && calls == [] &&
                errorFiles == old(errorFiles) && warningFiles == old(warningFiles) &&
                cleanFiles == old(cleanFiles) && ignoredFiles == old(ignoredFiles)
      ensures ParsedPaths(fs, paths).Success? ==>
                calls == ParserCalls(ParsedPaths(fs, paths).value, old(futureParser), old(styleCheck),
                                     old(puppetlintArgs), old(rubocopArgs)) &&
                errorFiles == old(errorFiles) + Appended(check, calls, Errored) &&
                warningFiles == old(warningFiles) + Appended(check, calls, Warned) &&
                cleanFiles == old(cleanFiles) + Appended(check, calls, Clean) &&
                ignoredFiles == old(ignoredFiles) + Leftovers(ParsedPaths(fs, paths).value)
      ensures ParsedPaths(fs, paths).Success? ==> status == Success(ExitStatus(errorFiles, warningFiles, failOnWarning))
      ensures futureParser == old(futureParser) && failOnWarning == old(failOnWarning) && styleCheck == old(styleCheck)
      ensures puppetlintArgs == old(puppetlintArgs) && rubocopArgs == old(rubocopArgs)
    {
      var parsed := ParsePaths(fs, paths);
      if parsed.Failure? {
        return Failure(parsed.error), [];
      }
      calls := ExecuteParsers(parsed.value, futureParser, styleCheck, puppetlintArgs, rubocopArgs, check);
      status := Success(ExitStatus(errorFiles, warningFiles, failOnWarning));
    }
  }

  /** After `prefix`, seven calls append each call's report in turn. */
  lemma AppendedInTurn(check: Call -> Report, prefix: seq<string>,
                       c0: Call, c1: Call, c2: Call, c3: Call, c4: Call, c5: Call, c6: Call, o: Outcome)
    ensures prefix + Appended(check, [c0, c1, c2, c3, c4, c5, c6], o) ==
      prefix + Listed(check(c0), o) + Listed(check(c1), o) + Listed(check(c2), o) + Listed(check(c3), o) +
      Listed(check(c4), o) + Listed(check(c5), o) + Listed(check(c6), o)
  {
    var s0: seq<Call> := [];
    var s1 := s0 + [c0];
    var s2 := s1 + [c1];
    var s3 := s2 + [c2];
    var s4 := s3 + [c3];
    var s5 := s4 + [c4];
    var s6 := s5 + [c5];
    var s7 := s6 + [c6];
    assert prefix + Appended(check, s0, o) == prefix;
    AppendedSnoc(check, prefix, s0, c0, o);
    AppendedSnoc(check, prefix, s1, c1, o);
    AppendedSnoc(check, prefix, s2, c2, o);
    AppendedSnoc(check, prefix, s3, c3, o);
    AppendedSnoc(check, prefix, s4, c4, o);
    AppendedSnoc(check, prefix, s5, c5, o);
    AppendedSnoc(check, prefix, s6, c6, o);
    assert s7 == [c0, c1, c2, c3, c4, c5, c6];
  }

  /** One more call appends its report after what the earlier calls appended. */
  lemma AppendedSnoc(check: Call -> Report, prefix: seq<string>, calls: seq<Call>, c: Call, o: Outcome)
    ensures prefix + Appended(check, calls + [c], o) == prefix + Appended(check, calls, o) + Listed(check(c), o)
  {
    AppendedStep(check, calls, c, o);
  }
}
