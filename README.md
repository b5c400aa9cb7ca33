# puppet-check core, modelled in Dafny

`PuppetCheck` is the runner of puppet-check, a tool that checks Puppet
manifests, templates, Ruby files, data files and librarian files. Its core
is in `lib/puppet-check.rb`:

- `parse_paths` turns the paths given on the command line into the list of
  files to check. It collects the regular files under directories and the
  regular files named directly. It drops every path containing `fixtures`,
  raises when nothing is left, rewrites `//` to `/` and removes duplicates.
- `execute_parsers` sorts the files with seven `partition` steps keyed on
  `File.extname` and `File.basename`. Each step hands its share to one
  parser entry point. Files no step takes are pushed onto `ignored_files`.
- `run` chains the two and returns exit status 2 when a file has errors,
  or when `fail_on_warning` is set and a file has warnings. Otherwise it
  returns 0.
- `settings` is the class-level hash that holds the flags, the extra
  style-checker arguments and the four diagnostic arrays.

The project has five modules:

- `Results` (`results.dfy`): `Option` and `Result`.
- `RubyCore` (`ruby_core.dfy`): the Ruby core-library behaviour the code
  relies on. This covers a literal regular expression (`=~ /fixtures/`,
  and `$`, which matches at the end of a line), `gsub('//', '/')`,
  `Array#uniq`, `Array#join`, `File.basename` and `File.extname`.
- `PathResolution` (`path_resolution.dfy`): `parse_paths` over an abstract
  filesystem, given as a map from path to entry. Each entry is a directory
  with the regular files beneath it, a regular file, or something else.
  Missing paths are absent from the map.
- `Classification` (`classification.dfy`): the partition chain. A file's
  rank is the first step whose block selects it. Everything else is stated
  in terms of buckets of equal rank.
- `PuppetCheck` (`puppet_check.dfy`): the `settings` hash as a class
  `Settings`, with `execute_parsers` and `run` as methods that update it in
  place, and the exit-status decision.

The parsers are outside the model. Each call of a parser entry point is a
`Call` value: the parser, the files and the options passed. The methods
return the calls in order. The function parameter `check` says what each
call appends to the error, warning and clean arrays.

## Model

| member | source | states |
|---|---|---|
| RubyCore.Contains | lib/puppet-check.rb:100 | Definition of `file =~ /fixtures/`: the literal occurs somewhere in the string. Properties in `RubyCore.CollapseCreatesNoSlashFreeWord` and `PathResolution.MessageNamesEveryPath`. |
| RubyCore.EndsLineWith | lib/puppet-check.rb:117-121 | Definition of `s =~ /t$/`: `t` is followed by the end of the string or by a newline. Properties in `RubyCore.EndsLineWithoutNewline` and `RubyCore.EndsLineWithSuffix`. |
| RubyCore.EndsLineWithoutNewline | lib/puppet-check.rb:117 | For a string without newlines, `s =~ /t$/` holds exactly when `s` ends with `t`. |
| RubyCore.EndsLineWithSuffix | lib/puppet-check.rb:121 | A string that ends with `t` always matches `/t$/`. |
| RubyCore.CollapseDoubleSlash | lib/puppet-check.rb:102 | `gsub('//', '/')` never lengthens a path and keeps its first character. |
| RubyCore.CollapseCreatesNoSlashFreeWord | lib/puppet-check.rb:100-102 | If the rewritten path contains a word without `/` (such as `fixtures`), the original path already did. |
| RubyCore.CollapseWithoutDoubleSlash | lib/puppet-check.rb:102 | A path without `//` is left unchanged. |
| RubyCore.CollapseIsSinglePass | lib/puppet-check.rb:102 | The rewrite makes a single pass: `a///b` becomes `a//b`, not `a/b`. |
| RubyCore.Uniq | lib/puppet-check.rb:104 | `uniq` keeps every element, adds none, repeats none, and is no longer than its input. |
| RubyCore.UniqOfDistinct | lib/puppet-check.rb:104 | `uniq` leaves a list without repeats unchanged. |
| RubyCore.Join | lib/puppet-check.rb:101 | Definition of `Array#join`: the items with the separator between neighbours. Properties in `RubyCore.JoinNamesEveryItem` and `PathResolution.MessageNamesEveryPath`. |
| RubyCore.JoinNamesEveryItem | lib/puppet-check.rb:101 | `join(', ')` contains every item joined. |
| RubyCore.DotSuffixShape | lib/puppet-check.rb:109-120 | The suffix from the last dot is empty exactly when there is no dot. Otherwise it starts with its only dot. |
| RubyCore.Extname | lib/puppet-check.rb:109-119 | Definition of `File.extname`: within the last component, leading dots skipped, the suffix from the last dot. Properties in `RubyCore.ExtnameShape`, `RubyCore.NoDotNoExtension` and `Classification.ExtnameOfName`. |
| RubyCore.Basename | lib/puppet-check.rb:121 | Definition of `File.basename`: the last component, trailing slashes ignored. Properties in `RubyCore.LastComponentOfChild`. |
| RubyCore.ExtnameShape | lib/puppet-check.rb:109-120 | `File.extname` is empty, or a dot followed by a dot-free, slash-free text. |
| RubyCore.LastComponentOfChild | lib/puppet-check.rb:121 | `File.basename("dir/name")` and `File.basename("name")` are both `name`. |
| RubyCore.NoDotNoExtension | lib/puppet-check.rb:109-120 | A last path component without a dot has no extension. |
| PathResolution.Expand | lib/puppet-check.rb:92-96 | Definition of what one path contributes: the regular files under a directory, a regular file itself, or nothing. Properties in `PathResolution.CollectedMembers`, `PathResolution.CollectedOfMissing` and `PathResolution.NeitherFileNorDirectoryIsIgnored`. |
| PathResolution.Collected | lib/puppet-check.rb:91-97 | Definition of the `files` array after the loop: what each path contributes, in order. Properties in `PathResolution.CollectedMembers` and `PathResolution.CollectedOfMissing`. |
| PathResolution.RejectFixtures | lib/puppet-check.rb:100 | The kept files are exactly the input files that do not contain `fixtures`. |
| PathResolution.Kept | lib/puppet-check.rb:100 | Definition of the `files` array after `reject!`. Properties in `PathResolution.KeptMembers` and `PathResolution.NeitherFileNorDirectoryIsIgnored`. |
| PathResolution.CollapseAll | lib/puppet-check.rb:102 | Definition of `files.map!` with the `//` rewrite. Properties in `PathResolution.ResultHasNoFixtures`, `PathResolution.ResultComesFromCollectedFile`, `PathResolution.CollectedFileIsReturned` and `PathResolution.PlainFileIsReturnedUnchanged`. |
| PathResolution.NoFilesMessage | lib/puppet-check.rb:101 | Definition of the error message, built from the paths as given. Properties in `PathResolution.MessageNamesEveryPath` and `PathResolution.NothingFoundExample`. |
| PathResolution.ParsedPaths | lib/puppet-check.rb:87-105 | Definition of what `parse_paths` returns or raises. Properties in `PathResolution.RaisesIffNothingSurvives`, `PathResolution.ResultHasNoFixtures`, `PathResolution.ResultComesFromCollectedFile` and `PathResolution.CollectedFileIsReturned`. |
| PathResolution.ParsePaths | lib/puppet-check.rb:87-105 | The loop over the unique paths computes `ParsedPaths`. On failure the message is exact. On success the list is non-empty, has no repeats and no `fixtures`. |
| PathResolution.CollectedMembers | lib/puppet-check.rb:91-97 | A file is collected exactly when some input path expands to it. |
| PathResolution.CollectedFromUnique | lib/puppet-check.rb:91 | Iterating over `paths.uniq` instead of `paths` collects the same files. |
| PathResolution.KeptMembers | lib/puppet-check.rb:91-100 | A file survives the filter exactly when it is collected from some input and does not contain `fixtures`. |
| PathResolution.RaisesIffNothingSurvives | lib/puppet-check.rb:100-101 | `parse_paths` raises exactly when every collected file contains `fixtures`. The message lists the paths as given, repeats included. |
| PathResolution.MessageNamesEveryPath | lib/puppet-check.rb:101 | The error message mentions every supplied path. |
| PathResolution.ResultHasNoFixtures | lib/puppet-check.rb:99-102 | No returned path contains `fixtures`, even after the `//` rewrite. |
| PathResolution.ResultComesFromCollectedFile | lib/puppet-check.rb:91-104 | Every returned path is the rewrite of a collected file without `fixtures`. |
| PathResolution.CollectedFileIsReturned | lib/puppet-check.rb:91-104 | Every collected file without `fixtures` makes the call succeed and comes back rewritten. |
| PathResolution.PlainFileIsReturnedUnchanged | lib/puppet-check.rb:94-104 | An existing regular file given directly, without `fixtures` or `//`, comes back as written. |
| PathResolution.SingleFileInput | spec/puppet-check_spec.rb:43-45 | One existing regular file given alone resolves to exactly that file. |
| PathResolution.RepeatedDirectory | lib/puppet-check.rb:91-104 | A directory of N distinct files given twice resolves to exactly those N files. |
| PathResolution.NothingFoundExample | spec/puppet-check_spec.rb:39-41 | `foo`, `bar`, `baz` on an empty filesystem raise `puppet-check: no files found in supplied paths foo, bar, baz.` |
| PathResolution.NothingExists | lib/puppet-check.rb:91-101 | When none of the supplied paths exists, `parse_paths` raises with the message naming the paths as given. |
| PathResolution.CollectedOfMissing | lib/puppet-check.rb:92-96 | Inputs that do not exist collect nothing. |
| PathResolution.NeitherFileNorDirectoryIsIgnored | lib/puppet-check.rb:92-96 | Dropping an input that is neither a directory nor a regular file changes neither the surviving files nor the outcome. |
| Classification.Selects | lib/puppet-check.rb:109-121 | Definition of the seven `partition` blocks. Properties in `Classification.YamlRule`, `Classification.ExtensionRules` and `Classification.LibrarianBySelection`. |
| Classification.Rank | lib/puppet-check.rb:109-123 | Definition of the step that takes a file, or 7 when none does. Properties in `Classification.RankIsFirstMatch`. |
| Classification.Classify | lib/puppet-check.rb:109-123 | Definition of the parser a file reaches, or none. Properties in `Classification.ClassifyIsFirstMatch` and `Classification.ExactlyOneDestination`. |
| Classification.Partition | lib/puppet-check.rb:109-121 | Definition of `Array#partition`: the selected files, then the rest, each in order. Properties in `Classification.PartitionSplits`, `Classification.StepSplits` and `Classification.PartitionChain`. |
| Classification.RankIsFirstMatch | lib/puppet-check.rb:109-122 | A file's rank is the position of the first step whose block selects it. |
| Classification.ClassifyIsFirstMatch | lib/puppet-check.rb:109-123 | A file goes to the first matching parser. No earlier step selects it. It is ignored exactly when no step selects it. |
| Classification.PartitionSplits | lib/puppet-check.rb:109 | `partition` loses no file and duplicates none. |
| Classification.Bucket | lib/puppet-check.rb:109-121 | A bucket holds exactly the input files of its rank. |
| Classification.Remaining | lib/puppet-check.rb:109-121 | What is left before a step holds exactly the input files of that rank or higher. |
| Classification.RemainingSplits | lib/puppet-check.rb:109-121 | What is left before a step splits into its bucket plus what is left after it. |
| Classification.StepSplits | lib/puppet-check.rb:109-121 | Each `partition` step, applied to what the earlier steps left, yields its bucket and what the later steps see. |
| Classification.PartitionChain | lib/puppet-check.rb:109-123 | The seven steps in a row yield the seven buckets, then the files of no bucket. |
| Classification.Leftovers | lib/puppet-check.rb:123 | Definition of what is pushed onto `ignored_files`: the files no step takes, in order. Properties in `Classification.ExactlyOneDestination` and `Classification.DispatchIsPartition`. |
| Classification.OptionsFor | lib/puppet-check.rb:110-122 | The grammar flag and the puppet-lint arguments go only to the manifest parser. The rubocop arguments go only to the Ruby and librarian parsers. |
| Classification.ParserCalls | lib/puppet-check.rb:109-122 | Seven calls, one per parser, in the fixed order. The call at position k carries exactly the files of rank k. |
| Classification.CallsInOrder | lib/puppet-check.rb:109-122 | The calls written out, each with its bucket and exactly the arguments the source passes. |
| Classification.DispatchIsPartition | lib/puppet-check.rb:109-123 | Files handed to the parsers plus ignored files equal the input, counted with multiplicity. |
| Classification.ExactlyOneDestination | lib/puppet-check.rb:109-123 | An input file is in a parser's call exactly when it is classified under that parser. It is ignored exactly when it is classified under none. |
| Classification.InBucketIffClassified | lib/puppet-check.rb:109-122 | A file is in bucket k exactly when it is classified under the parser of step k. |
| Classification.BucketsKeepOrder | lib/puppet-check.rb:109-123 | Splitting the input splits every bucket and the leftovers the same way, so input order is kept. |
| Classification.YamlRule | lib/puppet-check.rb:117 | Without newlines, `/\.ya?ml$/` on the extension selects exactly `.yml` and `.yaml`. |
| Classification.ExtnameOfName | lib/puppet-check.rb:109-120 | `stem.ext` has extension `.ext`. |
| Classification.ClassifiedAt | lib/puppet-check.rb:109-122 | A file selected at step k and at no earlier step goes to the parser of step k. |
| Classification.ExtensionRules | lib/puppet-check.rb:109-120 | `.pp`, `.epp`, `.rb`, `.erb`, `.yml`/`.yaml` and `.json` go to their respective parsers. |
| Classification.ClassifyByExtension | lib/puppet-check.rb:109-120 | A plain `stem.ext` name with one of those extensions goes to that extension's parser. |
| Classification.LibrarianByName | lib/puppet-check.rb:121-122 | `Puppetfile`, `Modulefile`, `Rakefile` and `Gemfile` go to the librarian parser, at top level and inside a directory. |
| Classification.LibrarianBySelection | lib/puppet-check.rb:121-122 | A file without extension whose basename matches the librarian rule goes to the librarian parser. |
| Classification.ForeignNameIgnored | lib/puppet-check.rb:121-123 | A dot-free name that ends in none of the librarian names is ignored. |
| Classification.Unselected | lib/puppet-check.rb:123 | A file no step selects is ignored. |
| Classification.PuppetExamples | spec/puppet-check_spec.rb:66-67 | `puppet.pp` goes to the manifest parser. `puppet_template.epp` goes to the Puppet template parser. |
| Classification.RubyExamples | spec/puppet-check_spec.rb:68-69 | `ruby.rb` goes to the Ruby parser. `ruby_template.erb` goes to the ERB template parser. |
| Classification.DataExamples | spec/puppet-check_spec.rb:70-71 | `yaml.yaml` and `yaml.yml` go to the YAML parser. `json.json` goes to the JSON parser. |
| Classification.NameExamples | spec/puppet-check_spec.rb:72-73 | `Puppetfile` and `Modulefile` go to the librarian parser. `foobarbaz` is ignored. |
| PuppetCheck.Appended | lib/puppet-check.rb:110-122 | Definition of what a sequence of parser calls appends to one diagnostic array, in call order. Properties in `PuppetCheck.AppendedConcat` and `PuppetCheck.AppendedEmpty`. |
| PuppetCheck.AppendedConcat | lib/puppet-check.rb:110-122 | What successive parser calls append is what each appends, in call order. |
| PuppetCheck.AppendedEmpty | lib/puppet-check.rb:110-122 | The calls append nothing to an array exactly when no call appends anything to it. |
| PuppetCheck.ExitStatus | lib/puppet-check.rb:51-83 | The status is 0 or 2. It is 2 exactly when there are errors, or when warnings are fatal and there are warnings. |
| PuppetCheck.FailsIffSomeCallFails | lib/puppet-check.rb:51-83 | Starting from empty arrays, the status is 2 exactly when some parser call reports an error, or warnings are fatal and some call reports a warning. |
| PuppetCheck.EarlierErrorsPersist | lib/puppet-check.rb:41-83 | Errors already recorded force status 2 whatever the later calls report. |
| PuppetCheck.Settings.constructor | lib/puppet-check.rb:9-33 | The defaults: flags off, argument lists and diagnostic arrays empty. |
| PuppetCheck.Settings.Invoke | lib/puppet-check.rb:110-122 | A parser call appends its report to the error, warning and clean arrays. Nothing else changes. |
| PuppetCheck.Settings.ExecuteParsers | lib/puppet-check.rb:108-124 | The calls made are `ParserCalls`. Each diagnostic array gains exactly what the calls append, in order. `ignored_files` gains the leftovers. Flags and arguments are unchanged. |
| PuppetCheck.Settings.Run | lib/puppet-check.rb:41-83 | If `parse_paths` raises, the error propagates and nothing changes. Otherwise the parsers run with the current flags and arguments, and the status is `ExitStatus` of the updated arrays. |

## Left out

- Filesystem access is left out. `File.directory?`, `File.file?` and the recursive `Dir.glob` become the abstract map from path to entry. A directory entry carries the glob's result as given, so hidden files, symbolic links and the glob's ordering are whatever that listing says.
- The parsers (`PuppetParser`, `RubyParser`, `DataParser`) are not modelled. Each call is recorded. What it appends is the parameter `check`, so their reports are arbitrary. An exception raised inside a parser is not modelled either.
- Output rendering (line 49, `OutputResults`) is left out. It writes to the terminal and changes no state the model tracks.
- The smoke check is left out (lines 52-67, `require_relative 'puppet-check/regression_check'` and `RegressionCheck.smoke`). `Settings.Run` covers every run that does not reach line 60 with `smoke_check` on: runs that record errors (or fatal warnings), runs with `smoke_check` off, and runs where the regression-check file is missing. In all of them, the status depends only on the diagnostic arrays. With errors, `run` returns 2 at line 82 whatever `smoke_check` says. If the file is missing, `run` returns 0 at line 55. With `smoke_check` off, the modifier `if` at line 60 skips the call, and `run` returns 0 at line 79.
- A `run` that reaches line 60 with `smoke_check` on is not modelled. Line 60 passes `self.class.octonodes` and `self.class.octoconfig`, but `lib/puppet-check.rb` defines no such class methods: lines 36-38 declare only the `settings` accessor. `lib/puppet-check/regression_check.rb` is not part of this model. As written here, line 60 raises `NoMethodError`. The `rescue` at line 62 catches only `CatalogError`, so `run` raises and returns no status. Suppose `RegressionCheck.smoke` itself raised `CatalogError`. Then `catalog` would still be `nil`, so `catalog.valid?` at line 65 would raise before the `2` at line 66 is reached.
- The settings `smoke_check`, `regression_check`, `output_format`, `octoconfig` and `octonodes` (lines 15-23) are read only by the parts above, so `Settings` omits them.
- `lib/puppet-check/tasks.rb` and the command-line front end are not part of this model.
- Paths are `seq<char>`. Encodings and case folding play no part.
- `File.extname` follows Ruby 2.7 and later, where `foo.` has extension `.`. Classification is the same on earlier versions, because `.` matches none of the rules.

## Behaviour of the code

The model follows the code as written in these places:

- `run` does not reset the diagnostic arrays before a run. What earlier runs recorded still counts toward the status (`PuppetCheck.EarlierErrorsPersist`). `ignored_files` keeps growing.
- `execute_parsers` calls all seven parser entry points, even with an empty list (`Classification.ParserCalls`).
- The smoke-check branch cannot yield status 2 as written, although the comment at line 61 says that a smoke-check failure returns 2. A run that reaches line 60 with `smoke_check` on raises instead of returning a status (see above). Runs that record errors return 2 at line 82 and never reach line 60. Runs where `puppet-check/regression_check` cannot be loaded return 0 at line 55.
- `gsub('//', '/')` is a single left-to-right pass, so a run of three slashes leaves one `//` (`RubyCore.CollapseIsSinglePass`), although the comment at line 99 says the step removes double slashes. Two inputs that name the same directory as `lib` and `lib//` can therefore yield two spellings of the same file.
- Ruby's `$` also matches before a newline. So a basename such as `"Gemfile\nx"` is sent to the librarian parser (`RubyCore.EndsLineWith`).
