/**
 * The classification behind `PuppetCheck#execute_parsers`: a chain of
 * `partition` steps keyed on `File.extname` and `File.basename`, in a fixed
 * order, each handing its share of the files to one parser entry point,
 * with the leftovers ignored.
 */
module Classification {
  import opened Results
  import opened RubyCore
  import opened PathResolution

  /** The seven parser entry points, one per partition step. */
  datatype Parser =
    | PuppetManifest  // PuppetParser.manifest
    | PuppetTemplate  // PuppetParser.template
    | RubyScript      // RubyParser.ruby
    | RubyTemplate    // RubyParser.template
    | YamlData        // DataParser.yaml
    | JsonData        // DataParser.json
    | Librarian       // RubyParser.librarian

  /** The order in which the partition steps run. */
  const Precedence: seq<Parser> :=
    [PuppetManifest, PuppetTemplate, RubyScript, RubyTemplate, YamlData, JsonData, Librarian]

  /** Position of a parser's step in the chain. */
  function Step(p: Parser): (k: nat)
    ensures k < |Precedence| && Precedence[k] == p
  {
    match p
    case PuppetManifest => 0
    case PuppetTemplate => 1
    case RubyScript => 2
    case RubyTemplate => 3
    case YamlData => 4
    case JsonData => 5
    case Librarian => 6
  }

  /** The block given to `partition` at the step of parser `p`. */
  predicate Selects(p: Parser, file: Path)
  {
    var ext := Extname(file);
    match p
    case PuppetManifest => ext == ".pp"
    case PuppetTemplate => ext == ".epp"
    case RubyScript => ext == ".rb"
    case RubyTemplate => ext == ".erb"
    case YamlData => EndsLineWith(ext, ".yml") || EndsLineWith(ext, ".yaml")
    case JsonData => ext == ".json"
    case Librarian =>
      var base := Basename(file);
      EndsLineWith(base, "Puppetfile") || EndsLineWith(base, "Modulefile") ||
      EndsLineWith(base, "Rakefile") || EndsLineWith(base, "Gemfile")
  }

  function RankFrom(file: Path, j: nat): (k: nat)
    requires j <= |Precedence|
    ensures j <= k <= |Precedence|
    decreases |Precedence| - j
  {
    if j == |Precedence| then j
    else if Selects(Precedence[j], file) then j
    else RankFrom(file, j + 1)
  }

  /**
   * The step at which `file` is taken out of the list: the first step whose
   * block selects it, or `|Precedence|` when none does.
   */
  function Rank(file: Path): (k: nat)
    ensures k <= |Precedence|
  {
    RankFrom(file, 0)
  }

  lemma {:induction false} RankFromIsFirstMatch(file: Path, j: nat)
    requires j <= |Precedence|
    ensures RankFrom(file, j) < |Precedence| ==> Selects(Precedence[RankFrom(file, j)], file)
    ensures forall i :: j <= i < RankFrom(file, j) ==> !Selects(Precedence[i], file)
    decreases |Precedence| - j
  {
    if j < |Precedence| && !Selects(Precedence[j], file) {
      RankFromIsFirstMatch(file, j + 1);
    }
  }

  /** The rank of a file is the position of the first step whose block selects it. */
  lemma RankIsFirstMatch(file: Path)
    ensures Rank(file) < |Precedence| ==> Selects(Precedence[Rank(file)], file)
    ensures forall i :: 0 <= i < Rank(file) ==> !Selects(Precedence[i], file)
  {
    RankFromIsFirstMatch(file, 0);
  }

  /** The parser a file is handed to, or `None` when it is ignored. */
  function Classify(file: Path): Option<Parser>
  {
    if Rank(file) < |Precedence| then Some(Precedence[Rank(file)]) else None
  }

  /**
   * A file goes to the first rule that matches, in the order `.pp`, `.epp`,
   * `.rb`, `.erb`, `.yaml`/`.yml`, `.json`, basename ending in
   * `(Puppet|Module|Rake|Gem)file`, and is ignored when none does.
   */
  lemma ClassifyIsFirstMatch(file: Path)
    ensures Classify(file).Some? ==> Selects(Classify(file).value, file)
    ensures Classify(file).Some? ==> forall q :: Step(q) < Step(Classify(file).value) ==> !Selects(q, file)
    ensures Classify(file).None? <==> forall q :: !Selects(q, file)
  {
    RankIsFirstMatch(file);
    var k := Rank(file);
    assert forall q :: Step(q) < k ==> !Selects(Precedence[Step(q)], file);
    if k < |Precedence| {
      assert Step(Precedence[k]) == k by {
        assert forall q :: Step(q) == k ==> q == Precedence[k];
      }
    } else {
      assert forall q :: !Selects(Precedence[Step(q)], file);
    }
  }

  // ---------------------------------------------------------------------
  // The partition steps
  // ---------------------------------------------------------------------

  /** `files.partition { |file| <block of p> }`: the selected files, then the rest, each in order. */
  function Partition(files: seq<Path>, p: Parser): (seq<Path>, seq<Path>)
  {
    if |files| == 0 then ([], [])
    else
      var init := files[..|files| - 1];
      var f := files[|files| - 1];
      assert files == init + [f];
      var (selected, rejected) := Partition(init, p);
      if Selects(p, f) then (selected + [f], rejected) else (selected, rejected + [f])
  }

  /** `partition` splits the list: every file lands in exactly one part. */
  lemma {:induction false} PartitionSplits(files: seq<Path>, p: Parser)
    ensures multiset(Partition(files, p).0) + multiset(Partition(files, p).1) == multiset(files)
  {
    if |files| > 0 {
      var init := files[..|files| - 1];
      var f := files[|files| - 1];
      PartitionSplits(init, p);
      assert files == init + [f];
      var (selected, rejected) := Partition(init, p);
      if Selects(p, f) {
        assert Partition(files, p) == (selected + [f], rejected);
      } else {
        assert Partition(files, p) == (selected, rejected + [f]);
      }
    }
  }

  /**
   * The files of rank `k`, in input order, for a ranking `rank`: with
   * `Rank`, the files that the step at position `k` takes.
   */
  function Bucket(files: seq<Path>, rank: Path -> nat, k: nat): (r: seq<Path>)
    ensures forall f :: f in r <==> f in files && rank(f) == k
  {
    if |files| == 0 then []
    else
      var init := files[..|files| - 1];
      var f := files[|files| - 1];
      assert files == init + [f];
      if rank(f) == k then Bucket(init, rank, k) + [f] else Bucket(init, rank, k)
  }

  /**
   * The files of rank `k` or more, in input order: with `Rank`, the files
   * still in the list when the step at position `k` runs.
   */
  function Remaining(files: seq<Path>, rank: Path -> nat, k: nat): (r: seq<Path>)
    ensures forall f :: f in r <==> f in files && rank(f) >= k
  {
    if |files| == 0 then []
    else
      var init := files[..|files| - 1];
      var f := files[|files| - 1];
      assert files == init + [f];
      if rank(f) >= k then Remaining(init, rank, k) + [f] else Remaining(init, rank, k)
  }

  lemma {:induction false} RemainingAtStart(files: seq<Path>, rank: Path -> nat)
    ensures Remaining(files, rank, 0) == files
  {
    if |files| > 0 {
      var init := files[..|files| - 1];
      var f := files[|files| - 1];
      RemainingAtStart(init, rank);
      assert Remaining(files, rank, 0) == Remaining(init, rank, 0) + [f];
      assert files == init + [f];
    }
  }

  /** What remains at rank `k` is the bucket of rank `k` plus what remains at rank `k + 1`. */
  lemma {:induction false} RemainingSplits(files: seq<Path>, rank: Path -> nat, k: nat)
    ensures multiset(Remaining(files, rank, k)) ==
            multiset(Bucket(files, rank, k)) + multiset(Remaining(files, rank, k + 1))
  {
    if |files| > 0 {
      RemainingSplits(files[..|files| - 1], rank, k);
    }
  }

  /**
   * The step at position `k`, applied to what the earlier steps left,
   * selects exactly the files of rank `k` and leaves those of higher rank.
   */
  lemma {:induction false} StepSplits(files: seq<Path>, k: nat)
    requires k < |Precedence|
    ensures Partition(Remaining(files, Rank, k), Precedence[k]) == (Bucket(files, Rank, k), Remaining(files, Rank, k + 1))
  {
    if |files| > 0 {
      var init := files[..|files| - 1];
      var f := files[|files| - 1];
      StepSplits(init, k);
      var u := Remaining(init, Rank, k);
      if Rank(f) >= k {
        assert Remaining(files, Rank, k) == u + [f];
        assert (u + [f])[..|u|] == u;
        RankIsFirstMatch(f);
        assert Selects(Precedence[k], f) <==> Rank(f) == k;
      }
    }
  }

  /**
   * The seven steps in a row, as `execute_parsers` writes them: each takes
   * its bucket from what the previous one left, and the last leaves the
   * files of no bucket.
   */
  lemma PartitionChain(files: seq<Path>)
    ensures Partition(files, PuppetManifest) == (Bucket(files, Rank, 0), Remaining(files, Rank, 1))
    ensures Partition(Remaining(files, Rank, 1), PuppetTemplate) == (Bucket(files, Rank, 1), Remaining(files, Rank, 2))
    ensures Partition(Remaining(files, Rank, 2), RubyScript) == (Bucket(files, Rank, 2), Remaining(files, Rank, 3))
    ensures Partition(Remaining(files, Rank, 3), RubyTemplate) == (Bucket(files, Rank, 3), Remaining(files, Rank, 4))
    ensures Partition(Remaining(files, Rank, 4), YamlData) == (Bucket(files, Rank, 4), Remaining(files, Rank, 5))
    ensures Partition(Remaining(files, Rank, 5), JsonData) == (Bucket(files, Rank, 5), Remaining(files, Rank, 6))
    ensures Partition(Remaining(files, Rank, 6), Librarian) == (Bucket(files, Rank, 6), Leftovers(files))
  {
    RemainingAtStart(files, Rank);
    StepAt(files, PuppetManifest);
    StepAt(files, PuppetTemplate);
    StepAt(files, RubyScript);
    StepAt(files, RubyTemplate);
    StepAt(files, YamlData);
    StepAt(files, JsonData);
    StepAt(files, Librarian);
  }

  /** `StepSplits` for the step of parser `p`, named by the parser rather than its position. */
  lemma StepAt(files: seq<Path>, p: Parser)
    ensures Partition(Remaining(files, Rank, Step(p)), p) ==
            (Bucket(files, Rank, Step(p)), Remaining(files, Rank, Step(p) + 1))
  {
    StepSplits(files, Step(p));
  }

  // ---------------------------------------------------------------------
  // The recorded parser calls
  // ---------------------------------------------------------------------

  /** The options a parser entry point receives besides its files. */
  datatype Options =
    | NoOptions
    | ManifestOptions(future: bool, style: bool, lintArgs: seq<string>)
    | RubyOptions(style: bool, rubocopArgs: seq<string>)

  /** One call of a parser entry point. */
  datatype Call = Call(parser: Parser, files: seq<Path>, options: Options)

  /**
   * `future`, `style` and the puppet-lint arguments go to the manifest
   * parser only; `style` and the rubocop arguments to the Ruby and
   * librarian parsers only.
   */
  function OptionsFor(p: Parser, future: bool, style: bool, plArgs: seq<string>, rcArgs: seq<string>): (o: Options)
    ensures o.ManifestOptions? <==> p == PuppetManifest
    ensures o.RubyOptions? <==> p == RubyScript || p == Librarian
    ensures o.ManifestOptions? ==> o == ManifestOptions(future, style, plArgs)
    ensures o.RubyOptions? ==> o == RubyOptions(style, rcArgs)
  {
    match p
    case PuppetManifest => ManifestOptions(future, style, plArgs)
    case RubyScript => RubyOptions(style, rcArgs)
    case Librarian => RubyOptions(style, rcArgs)
    case _ => NoOptions
  }

  /** The call made at the step of parser `p`: its bucket, with the options that parser receives. */
  function CallAt(files: seq<Path>, p: Parser, future: bool, style: bool, plArgs: seq<string>, rcArgs: seq<string>): Call
  {
    Call(p, Bucket(files, Rank, Step(p)), OptionsFor(p, future, style, plArgs, rcArgs))
  }

  /** The seven calls `execute_parsers` makes, in order; each even when its list is empty. */
  function ParserCalls(files: seq<Path>, future: bool, style: bool, plArgs: seq<string>, rcArgs: seq<string>): (calls: seq<Call>)
    ensures |calls| == |Precedence|
    ensures forall k :: 0 <= k < |Precedence| ==>
              calls[k].parser == Precedence[k] && calls[k].files == Bucket(files, Rank, k)
  {
    [CallAt(files, PuppetManifest, future, style, plArgs, rcArgs),
     CallAt(files, PuppetTemplate, future, style, plArgs, rcArgs),
     CallAt(files, RubyScript, future, style, plArgs, rcArgs),
     CallAt(files, RubyTemplate, future, style, plArgs, rcArgs),
     CallAt(files, YamlData, future, style, plArgs, rcArgs),
     CallAt(files, JsonData, future, style, plArgs, rcArgs),
     CallAt(files, Librarian, future, style, plArgs, rcArgs)]
  }

  /** The files ignored: those no step selects. */
  function Leftovers(files: seq<Path>): seq<Path>
  {
    Remaining(files, Rank, |Precedence|)
  }

  /** The seven calls, written out: each parser with its bucket and the options `execute_parsers` passes it. */
  lemma CallsInOrder(files: seq<Path>, future: bool, style: bool, plArgs: seq<string>, rcArgs: seq<string>)
    ensures ParserCalls(files, future, style, plArgs, rcArgs) ==
      [Call(PuppetManifest, Bucket(files, Rank, 0), ManifestOptions(future, style, plArgs)),
       Call(PuppetTemplate, Bucket(files, Rank, 1), NoOptions),
       Call(RubyScript, Bucket(files, Rank, 2), RubyOptions(style, rcArgs)),
       Call(RubyTemplate, Bucket(files, Rank, 3), NoOptions),
       Call(YamlData, Bucket(files, Rank, 4), NoOptions),
       Call(JsonData, Bucket(files, Rank, 5), NoOptions),
       Call(Librarian, Bucket(files, Rank, 6), RubyOptions(style, rcArgs))]
  {
  }

  /** All the files handed to a sequence of calls, counted with multiplicity. */
  function FilesOf(calls: seq<Call>): multiset<Path>
  {
    if |calls| == 0 then multiset{}
    else FilesOf(calls[..|calls| - 1]) + multiset(calls[|calls| - 1].files)
  }

  // ---------------------------------------------------------------------
  // Properties of the dispatch
  // ---------------------------------------------------------------------

  /**
   * The dispatch is a partition: every input file goes to the parser calls
   * or the leftovers, none is dropped and none is duplicated.
   */
  lemma DispatchIsPartition(files: seq<Path>, future: bool, style: bool, plArgs: seq<string>, rcArgs: seq<string>)
    ensures multiset(files) ==
            FilesOf(ParserCalls(files, future, style, plArgs, rcArgs)) + multiset(Leftovers(files))
  {
    var calls := ParserCalls(files, future, style, plArgs, rcArgs);
    RemainingAtStart(files, Rank);
    PartitionUpTo(files, Rank, calls, |Precedence|);
    assert calls[..|Precedence|] == calls;
  }

  lemma {:induction false} PartitionUpTo(files: seq<Path>, rank: Path -> nat, calls: seq<Call>, k: nat)
    requires k <= |calls|
    requires forall i :: 0 <= i < |calls| ==> calls[i].files == Bucket(files, rank, i)
    requires Remaining(files, rank, 0) == files
    ensures multiset(files) == FilesOf(calls[..k]) + multiset(Remaining(files, rank, k))
  {
    if k > 0 {
      PartitionUpTo(files, rank, calls, k - 1);
      RemainingSplits(files, rank, k - 1);
      assert calls[..k][..k - 1] == calls[..k - 1];
    }
  }

  /**
   * Each file goes to exactly one destination: the call of the parser it
   * is classified under, or the leftovers when it is classified under none.
   */
  lemma ExactlyOneDestination(files: seq<Path>, future: bool, style: bool, plArgs: seq<string>, rcArgs: seq<string>, f: Path)
    requires f in files
    ensures forall k :: 0 <= k < |Precedence| ==>
              (f in ParserCalls(files, future, style, plArgs, rcArgs)[k].files <==> Classify(f) == Some(Precedence[k]))
    ensures f in Leftovers(files) <==> Classify(f) == None
  {
    var calls := ParserCalls(files, future, style, plArgs, rcArgs);
    forall k | 0 <= k < |Precedence|
      ensures f in calls[k].files <==> Classify(f) == Some(Precedence[k])
    {
      assert calls[k].files == Bucket(files, Rank, k);
      InBucketIffClassified(files, f, k);
    }
  }

  lemma InBucketIffClassified(files: seq<Path>, f: Path, k: nat)
    requires f in files && k < |Precedence|
    ensures f in Bucket(files, Rank, k) <==> Classify(f) == Some(Precedence[k])
  {
    var r := Rank(f);
    assert Step(Precedence[k]) == k;
    if r < |Precedence| {
      assert Step(Precedence[r]) == r;
    }
  }

  /**
   * Each bucket keeps the input order: splitting the input splits every
   * bucket the same way.
   */
  lemma {:induction false} BucketsKeepOrder(a: seq<Path>, b: seq<Path>, rank: Path -> nat, k: nat)
    ensures Bucket(a + b, rank, k) == Bucket(a, rank, k) + Bucket(b, rank, k)
    ensures Remaining(a + b, rank, k) == Remaining(a, rank, k) + Remaining(b, rank, k)
  {
    BucketKeepsOrder(a, b, rank, k);
    RemainingKeepsOrder(a, b, rank, k);
  }

  lemma {:induction false} BucketKeepsOrder(a: seq<Path>, b: seq<Path>, rank: Path -> nat, k: nat)
    ensures Bucket(a + b, rank, k) == Bucket(a, rank, k) + Bucket(b, rank, k)
  {
    if |b| == 0 {
      assert a + b == a;
    } else {
      var init := b[..|b| - 1];
      var f := b[|b| - 1];
      BucketKeepsOrder(a, init, rank, k);
      assert (a + b)[..|a + b| - 1] == a + init;
      assert (a + b)[|a + b| - 1] == f;
      var tail := if rank(f) == k then [f] else [];
      assert Bucket(a + b, rank, k) == Bucket(a + init, rank, k) + tail;
      assert Bucket(b, rank, k) == Bucket(init, rank, k) + tail;
    }
  }

  lemma {:induction false} RemainingKeepsOrder(a: seq<Path>, b: seq<Path>, rank: Path -> nat, k: nat)
    ensures Remaining(a + b, rank, k) == Remaining(a, rank, k) + Remaining(b, rank, k)
  {
    if |b| == 0 {
      assert a + b == a;
    } else {
      var init := b[..|b| - 1];
      var f := b[|b| - 1];
      RemainingKeepsOrder(a, init, rank, k);
      assert (a + b)[..|a + b| - 1] == a + init;
      assert (a + b)[|a + b| - 1] == f;
      var tail := if rank(f) >= k then [f] else [];
      assert Remaining(a + b, rank, k) == Remaining(a + init, rank, k) + tail;
      assert Remaining(b, rank, k) == Remaining(init, rank, k) + tail;
    }
  }

  /** Without newlines, the YAML rule `/\.ya?ml$/` selects exactly the extensions `.yml` and `.yaml`. */
  lemma YamlRule(file: Path)
    requires '\n' !in Extname(file)
    ensures Selects(YamlData, file) <==> Extname(file) == ".yml" || Extname(file) == ".yaml"
  {
    var ext := Extname(file);
    ExtnameShape(file);
    EndsLineWithoutNewline(ext, ".yml");
    EndsLineWithoutNewline(ext, ".yaml");
    if |ext| > 4 {
      assert ext[|ext| - 4] in ext[1..];
      assert ext[|ext| - 4..][0] == ext[|ext| - 4];
    }
    if |ext| > 5 {
      assert ext[|ext| - 5] in ext[1..];
      assert ext[|ext| - 5..][0] == ext[|ext| - 5];
    }
  }

  /** `stem.ext`, without slashes and not starting with a dot, has extension `.ext`. */
  lemma {:induction false} ExtnameOfName(stem: string, ext: string)
    requires stem != [] && stem[0] != '.'
    requires '/' !in stem + "." + ext && '.' !in ext
    ensures Extname(stem + "." + ext) == "." + ext
  {
    var name := stem + "." + ext;
    LastComponentOfChild([], name);
    assert DropLeadingDots(name) == name;
    DotSuffixOf(stem, ext);
  }

  lemma {:induction false} DotSuffixOf(stem: string, ext: string)
    requires '.' !in ext
    ensures DotSuffix(stem + "." + ext) == "." + ext
  {
    if |ext| == 0 {
      assert stem + "." + ext == stem + ".";
    } else {
      var init := ext[..|ext| - 1];
      assert '.' !in init by { assert forall c :: c in init ==> c in ext; }
      DotSuffixOf(stem, init);
      assert (stem + "." + ext)[..|stem + "." + ext| - 1] == stem + "." + init;
      assert ext[|ext| - 1] in ext;
      assert "." + init + [ext[|ext| - 1]] == "." + ext;
    }
  }

  /** A file selected at step `k` and by no earlier step is handed to the parser of step `k`. */
  lemma ClassifiedAt(file: Path, k: nat)
    requires k < |Precedence| && Selects(Precedence[k], file)
    requires forall i :: 0 <= i < k ==> !Selects(Precedence[i], file)
    ensures Classify(file) == Some(Precedence[k])
  {
    RankIsFirstMatch(file);
  }

  /**
   * A file whose extension is one of `.pp`, `.epp`, `.rb`, `.erb`, `.yml`,
   * `.yaml` or `.json` goes to the parser of that extension.
   */
  lemma ExtensionRules(file: Path)
    requires Extname(file) in [".pp", ".epp", ".rb", ".erb", ".yml", ".yaml", ".json"]
    ensures Extname(file) == ".pp" ==> Classify(file) == Some(PuppetManifest)
    ensures Extname(file) == ".epp" ==> Classify(file) == Some(PuppetTemplate)
    ensures Extname(file) == ".rb" ==> Classify(file) == Some(RubyScript)
    ensures Extname(file) == ".erb" ==> Classify(file) == Some(RubyTemplate)
    ensures Extname(file) == ".yml" || Extname(file) == ".yaml" ==> Classify(file) == Some(YamlData)
    ensures Extname(file) == ".json" ==> Classify(file) == Some(JsonData)
  {
    var ext := Extname(file);
    if ext == ".pp" {
      ClassifiedAt(file, 0);
    } else if ext == ".epp" {
      ClassifiedAt(file, 1);
    } else if ext == ".rb" {
      ClassifiedAt(file, 2);
    } else if ext == ".erb" {
      ClassifiedAt(file, 3);
    } else {
      YamlRule(file);
      if ext == ".yml" || ext == ".yaml" {
        ClassifiedAt(file, 4);
      } else {
        ClassifiedAt(file, 5);
      }
    }
  }

  /**
   * A file whose basename is `Puppetfile`, `Modulefile`, `Rakefile` or
   * `Gemfile`, anywhere in the tree, reaches the librarian parser although
   * it has no extension.
   */
  lemma LibrarianByName(dir: string, name: string)
    requires name in ["Puppetfile", "Modulefile", "Rakefile", "Gemfile"]
    ensures Classify(dir + "/" + name) == Some(Librarian)
    ensures Classify(name) == Some(Librarian)
  {
    assert '/' !in name && '.' !in name && name != [];
    LastComponentOfChild(dir, name);
    NoDotNoExtension(dir + "/" + name);
    NoDotNoExtension(name);
    assert [] + name == name;
    EndsLineWithSuffix([], name);
    LibrarianBySelection(dir + "/" + name);
    LibrarianBySelection(name);
  }

  /** A file without an extension whose basename names a librarian file goes to the librarian parser. */
  lemma LibrarianBySelection(file: Path)
    requires Extname(file) == [] && Selects(Librarian, file)
    ensures Classify(file) == Some(Librarian)
  {
    assert !EndsLineWith([], ".yml") && !EndsLineWith([], ".yaml");
    ClassifiedAt(file, 6);
  }

  /** The classification of the manifest and template files in the test suite's example. */
  lemma PuppetExamples()
    ensures Classify("puppet.pp") == Some(PuppetManifest)
    ensures Classify("puppet_template.epp") == Some(PuppetTemplate)
  {
    ManifestExample();
    PuppetTemplateExample();
  }

  /** The classification of the Ruby files in the test suite's example. */
  lemma RubyExamples()
    ensures Classify("ruby.rb") == Some(RubyScript)
    ensures Classify("ruby_template.erb") == Some(RubyTemplate)
  {
    RubyScriptExample();
    RubyTemplateExample();
  }

  /** The classification of the data files in the test suite's example. */
  lemma DataExamples()
    ensures Classify("yaml.yaml") == Some(YamlData)
    ensures Classify("yaml.yml") == Some(YamlData)
    ensures Classify("json.json") == Some(JsonData)
  {
    YamlExample();
    YmlExample();
    JsonExample();
  }

  /** The classification of the extension-less files in the test suite's example. */
  lemma NameExamples()
    ensures Classify("Puppetfile") == Some(Librarian)
    ensures Classify("Modulefile") == Some(Librarian)
    ensures Classify("foobarbaz") == None
  {
    PuppetfileExample();
    ModulefileExample();
    ForeignExample();
  }

  lemma ManifestExample()
    ensures Classify("puppet.pp") == Some(PuppetManifest)
  {
    ClassifyByExtension("puppet", "pp");
    assert "puppet" + "." + "pp" == "puppet.pp";
  }

  lemma PuppetTemplateExample()
    ensures Classify("puppet_template.epp") == Some(PuppetTemplate)
  {
    ClassifyByExtension("puppet_template", "epp");
    assert "puppet_template" + "." + "epp" == "puppet_template.epp";
  }

  lemma RubyScriptExample()
    ensures Classify("ruby.rb") == Some(RubyScript)
  {
    ClassifyByExtension("ruby", "rb");
    assert "ruby" + "." + "rb" == "ruby.rb";
  }

  lemma RubyTemplateExample()
    ensures Classify("ruby_template.erb") == Some(RubyTemplate)
  {
    ClassifyByExtension("ruby_template", "erb");
    assert "ruby_template" + "." + "erb" == "ruby_template.erb";
  }

  lemma YamlExample()
    ensures Classify("yaml.yaml") == Some(YamlData)
  {
    ClassifyByExtension("yaml", "yaml");
    assert "yaml" + "." + "yaml" == "yaml.yaml";
  }

  lemma YmlExample()
    ensures Classify("yaml.yml") == Some(YamlData)
  {
    ClassifyByExtension("yaml", "yml");
    assert "yaml" + "." + "yml" == "yaml.yml";
  }

  lemma JsonExample()
    ensures Classify("json.json") == Some(JsonData)
  {
    ClassifyByExtension("json", "json");
    assert "json" + "." + "json" == "json.json";
  }

  lemma PuppetfileExample()
    ensures Classify("Puppetfile") == Some(Librarian)
  {
    LibrarianByName("", "Puppetfile");
  }

  lemma ModulefileExample()
    ensures Classify("Modulefile") == Some(Librarian)
  {
    LibrarianByName("", "Modulefile");
  }

  lemma ForeignExample()
    ensures Classify("foobarbaz") == None
  {
    ForeignNameIgnored("", "foobarbaz");
  }

  lemma ClassifyByExtension(stem: string, ext: string)
    requires stem != [] && stem[0] != '.' && '/' !in stem && '.' !in stem
    requires ext in ["pp", "epp", "rb", "erb", "yaml", "yml", "json"]
    ensures Classify(stem + "." + ext) == Some(
      match ext
      case "pp" => PuppetManifest
      case "epp" => PuppetTemplate
      case "rb" => RubyScript
      case "erb" => RubyTemplate
      case "json" => JsonData
      case _ => YamlData)
  {
    assert '/' !in stem + "." + ext;
    ExtnameOfName(stem, ext);
    var dotted := "." + ext;
    if ext == "pp" { assert dotted == ".pp"; }
    else if ext == "epp" { assert dotted == ".epp"; }
    else if ext == "rb" { assert dotted == ".rb"; }
    else if ext == "erb" { assert dotted == ".erb"; }
    else if ext == "yaml" { assert dotted == ".yaml"; }
    else if ext == "yml" { assert dotted == ".yml"; }
    else { assert dotted == ".json"; }
    ExtensionRules(stem + "." + ext);
  }

  /** A file that no step selects is ignored. */
  lemma Unselected(file: Path)
    requires forall k :: 0 <= k < |Precedence| ==> !Selects(Precedence[k], file)
    ensures Classify(file) == None
  {
    RankIsFirstMatch(file);
  }

  /**
   * A single-line name without a dot whose basename ends in none of the
   * librarian names is ignored, at the top level and inside a directory.
   */
  lemma ForeignNameIgnored(dir: string, name: string)
    requires name != [] && '/' !in name && '.' !in name && '\n' !in name
    requires !HasSuffix(name, "Puppetfile") && !HasSuffix(name, "Modulefile")
    requires !HasSuffix(name, "Rakefile") && !HasSuffix(name, "Gemfile")
    ensures Classify(dir + "/" + name) == None
    ensures Classify(name) == None
  {
    LastComponentOfChild(dir, name);
    EndsLineWithoutNewline(name, "Puppetfile");
    EndsLineWithoutNewline(name, "Modulefile");
    EndsLineWithoutNewline(name, "Rakefile");
    EndsLineWithoutNewline(name, "Gemfile");
    assert !EndsLineWith([], ".yml") && !EndsLineWith([], ".yaml");
    NoDotNoExtension(dir + "/" + name);
    NoDotNoExtension(name);
    Unselected(dir + "/" + name);
    Unselected(name);
  }
}
