/**
 * `PuppetCheck.parse_paths`: turns the paths given on the command line
 * into the list of files to check. The filesystem is a parameter: each
 * existing path is a directory (with the regular files found beneath it),
 * a regular file, or something else.
 */
module PathResolution {
  import opened Results
  import opened RubyCore

  type Path = string

  /**
   * What the filesystem says about one existing path. A directory carries
   * the regular files found anywhere beneath it, as the recursive glob
   * `"#{path}/**/*"` lists them (prefixed with the path as written).
   */
  datatype Entry = Directory(files: seq<Path>) | RegularFile | Special

  /** Paths that do not exist are absent from the map. */
  type FileSystem = map<Path, Entry>

  /** The files one input path contributes: a directory's files, a regular file itself, otherwise nothing. */
  function Expand(fs: FileSystem, path: Path): (files: seq<Path>)
    ensures path !in fs || fs[path].Special? ==> files == []
    ensures path in fs && fs[path].RegularFile? ==> files == [path]
  {
    if path !in fs then []
    else match fs[path]
      case Directory(listing) => listing
      case RegularFile => [path]
      case Special => []
  }

  /** The files collected, in order, from a sequence of input paths. */
  function Collected(fs: FileSystem, paths: seq<Path>): (files: seq<Path>)
  {
    if |paths| == 0 then []
    else Collected(fs, paths[..|paths| - 1]) + Expand(fs, paths[|paths| - 1])
  }

  /** `f` is collected from one of `paths`. */
  ghost predicate CollectedFrom(fs: FileSystem, paths: seq<Path>, f: Path)
  {
    exists p :: p in paths && f in Expand(fs, p)
  }

  predicate HasFixtures(f: Path)
  {
    Contains(f, "fixtures")
  }

  /** `files.reject! { |file| file =~ /fixtures/ }`. */
  function RejectFixtures(files: seq<Path>): (kept: seq<Path>)
    ensures forall f :: f in kept <==> f in files && !HasFixtures(f)
  {
    if |files| == 0 then []
    else
      var rest := RejectFixtures(files[..|files| - 1]);
      var f := files[|files| - 1];
      assert files == files[..|files| - 1] + [f];
      if HasFixtures(f) then rest else rest + [f]
  }

  /** `files.map! { |file| file.gsub('//', '/') }`. */
  function CollapseAll(files: seq<Path>): (r: seq<Path>)
    ensures |r| == |files|
    ensures forall i :: 0 <= i < |files| ==> r[i] == CollapseDoubleSlash(files[i])
  {
    seq(|files|, i requires 0 <= i < |files| => CollapseDoubleSlash(files[i]))
  }

  /** The files that survive the `fixtures` filter. */
  function Kept(fs: FileSystem, paths: seq<Path>): seq<Path>
  {
    RejectFixtures(Collected(fs, Uniq(paths)))
  }

  /** The message of the error raised when no file is found; it lists the paths as given. */
  function NoFilesMessage(paths: seq<Path>): string
  {
    "puppet-check: no files found in supplied paths " + Join(paths, ", ") + "."
  }

  /** What `parse_paths(paths)` returns, or the message of the error it raises. */
  function ParsedPaths(fs: FileSystem, paths: seq<Path>): Result<seq<Path>>
  {
    var kept := Kept(fs, paths);
    if kept == [] then Failure(NoFilesMessage(paths))
    else Success(Uniq(CollapseAll(kept)))
  }

  /**
   * `PuppetCheck.parse_paths`: builds the file list with a loop over the
   * unique paths, then filters out `fixtures`, raises when nothing is left,
   * rewrites `//` and removes duplicates.
   */
  method ParsePaths(fs: FileSystem, paths: seq<Path>) returns (r: Result<seq<Path>>)
    ensures r == ParsedPaths(fs, paths)
    ensures r.Failure? ==> r.error == NoFilesMessage(paths)
    ensures r.Success? ==> r.value != [] && NoDuplicates(r.value)
    ensures r.Success? ==> forall f :: f in r.value ==> !HasFixtures(f)
  {
    var files: seq<Path> := [];
    var unique := Uniq(paths);
    var i := 0;
    while i < |unique|
      invariant 0 <= i <= |unique|
      invariant files == Collected(fs, unique[..i])
    {
      var path := unique[i];
      assert unique[..i + 1] == unique[..i] + [path];
      if path in fs && fs[path].Directory? {
        files := files + fs[path].files;
      } else if path in fs && fs[path].RegularFile? {
        files := files + [path];
      }
      i := i + 1;
    }
    assert unique[..i] == unique;
    files := RejectFixtures(files);
    if files == [] {
      return Failure(NoFilesMessage(paths));
    }
    files := CollapseAll(files);
    r := Success(Uniq(files));
    ResultHasNoFixtures(fs, paths);
  }

  // ---------------------------------------------------------------------
  // Properties of the collected files
  // ---------------------------------------------------------------------

  lemma {:induction false} CollectedMembers(fs: FileSystem, paths: seq<Path>, f: Path)
    ensures f in Collected(fs, paths) <==> CollectedFrom(fs, paths, f)
  {
    if |paths| > 0 {
      var init := paths[..|paths| - 1];
      var last := paths[|paths| - 1];
      CollectedMembers(fs, init, f);
      assert paths == init + [last];
      if f in Expand(fs, last) {
        assert last in paths;
      }
      if CollectedFrom(fs, paths, f) {
        var p :| p in paths && f in Expand(fs, p);
        if p != last {
          assert p in init;
        }
      }
    }
  }

  /** Deduplicating the inputs does not change which files are collected. */
  lemma CollectedFromUnique(fs: FileSystem, paths: seq<Path>, f: Path)
    ensures CollectedFrom(fs, Uniq(paths), f) <==> CollectedFrom(fs, paths, f)
  {
    if CollectedFrom(fs, paths, f) {
      var p :| p in paths && f in Expand(fs, p);
      assert p in Uniq(paths);
    }
  }

  lemma KeptMembers(fs: FileSystem, paths: seq<Path>, f: Path)
    ensures f in Kept(fs, paths) <==> CollectedFrom(fs, paths, f) && !HasFixtures(f)
  {
    CollectedMembers(fs, Uniq(paths), f);
    CollectedFromUnique(fs, paths, f);
  }

  // ---------------------------------------------------------------------
  // Properties of parse_paths
  // ---------------------------------------------------------------------

  /**
   * `parse_paths` raises exactly when every collected file mentions
   * `fixtures` (in particular when nothing is collected), and the message
   * names the paths exactly as they were given, repeats included.
   */
  lemma RaisesIffNothingSurvives(fs: FileSystem, paths: seq<Path>)
    ensures ParsedPaths(fs, paths).Failure? <==>
            forall f :: CollectedFrom(fs, paths, f) ==> HasFixtures(f)
    ensures ParsedPaths(fs, paths).Failure? ==>
            ParsedPaths(fs, paths).error ==
            "puppet-check: no files found in supplied paths " + Join(paths, ", ") + "."
  {
    var kept := Kept(fs, paths);
    if kept == [] {
      forall f | CollectedFrom(fs, paths, f) ensures HasFixtures(f) {
        KeptMembers(fs, paths, f);
      }
    } else {
      KeptMembers(fs, paths, kept[0]);
    }
  }

  /** The error message mentions every supplied path. */
  lemma MessageNamesEveryPath(paths: seq<Path>, p: Path)
    requires p in paths
    ensures Contains(NoFilesMessage(paths), p)
  {
    JoinNamesEveryItem(paths, ", ", p);
    ContainsWithin("puppet-check: no files found in supplied paths ", Join(paths, ", "), ".", p);
  }

  /**
   * No returned path mentions `fixtures`: the filter runs before the `//`
   * rewrite, and the rewrite cannot create the word.
   */
  lemma ResultHasNoFixtures(fs: FileSystem, paths: seq<Path>)
    ensures ParsedPaths(fs, paths).Success? ==>
            forall x :: x in ParsedPaths(fs, paths).value ==> !HasFixtures(x)
  {
    var kept := Kept(fs, paths);
    if kept != [] {
      forall x | x in ParsedPaths(fs, paths).value ensures !HasFixtures(x) {
        var k :| 0 <= k < |kept| && CollapseAll(kept)[k] == x;
        assert kept[k] in kept;
        if HasFixtures(x) {
          assert '/' !in "fixtures";
          CollapseCreatesNoSlashFreeWord(kept[k], "fixtures");
          assert false;
        }
      }
    }
  }

  /**
   * Every returned path is the `//` rewrite of a file collected from the
   * inputs that does not mention `fixtures`.
   */
  lemma ResultComesFromCollectedFile(fs: FileSystem, paths: seq<Path>, x: Path)
    requires ParsedPaths(fs, paths).Success? && x in ParsedPaths(fs, paths).value
    ensures exists f :: CollectedFrom(fs, paths, f) && !HasFixtures(f) && CollapseDoubleSlash(f) == x
  {
    var kept := Kept(fs, paths);
    var k :| 0 <= k < |kept| && CollapseAll(kept)[k] == x;
    assert kept[k] in kept;
    KeptMembers(fs, paths, kept[k]);
  }

  /** Every collected file that does not mention `fixtures` comes back, rewritten. */
  lemma CollectedFileIsReturned(fs: FileSystem, paths: seq<Path>, f: Path)
    requires CollectedFrom(fs, paths, f) && !HasFixtures(f)
    ensures ParsedPaths(fs, paths).Success?
    ensures CollapseDoubleSlash(f) in ParsedPaths(fs, paths).value
  {
    var kept := Kept(fs, paths);
    KeptMembers(fs, paths, f);
    var k :| 0 <= k < |kept| && kept[k] == f;
    assert CollapseAll(kept)[k] == CollapseDoubleSlash(f);
  }

  /** An existing regular file given as input, without `fixtures` or `//`, comes back as written. */
  lemma PlainFileIsReturnedUnchanged(fs: FileSystem, paths: seq<Path>, p: Path)
    requires p in paths && p in fs && fs[p].RegularFile?
    requires !HasFixtures(p) && !Contains(p, "//")
    ensures ParsedPaths(fs, paths).Success? && p in ParsedPaths(fs, paths).value
  {
    assert p in Expand(fs, p);
    CollectedFileIsReturned(fs, paths, p);
    CollapseWithoutDoubleSlash(p);
  }

  /** `parse_paths(['lib/good.rb'])` on an existing file returns exactly that file. */
  lemma SingleFileInput(fs: FileSystem, p: Path)
    requires p in fs && fs[p].RegularFile?
    requires !HasFixtures(p) && !Contains(p, "//")
    ensures ParsedPaths(fs, [p]) == Success([p])
  {
    UniqOfDistinct([p]);
    assert Collected(fs, [p]) == [p] by {
      assert [p][..0] == [];
    }
    RejectNothing([p]);
    CollapseWithoutDoubleSlash(p);
    assert CollapseAll([p]) == [p];
  }

  /**
   * A directory listed twice contributes its files once: a directory of
   * N distinct regular files (none mentioning `fixtures` or `//`) resolves
   * to exactly those N files.
   */
  lemma RepeatedDirectory(fs: FileSystem, d: Path)
    requires d in fs && fs[d].Directory? && fs[d].files != []
    requires NoDuplicates(fs[d].files)
    requires forall f :: f in fs[d].files ==> !HasFixtures(f) && !Contains(f, "//")
    ensures ParsedPaths(fs, [d, d]) == Success(fs[d].files)
  {
    var files := fs[d].files;
    UniqTwice(d);
    CollectedOne(fs, d);
    RejectNothing(files);
    CollapseNothing(files);
    UniqOfDistinct(files);
  }

  lemma UniqTwice(d: Path)
    ensures Uniq([d, d]) == [d]
  {
    assert [d, d][..1] == [d];
    assert [d][..0] == [];
  }

  lemma CollectedOne(fs: FileSystem, p: Path)
    ensures Collected(fs, [p]) == Expand(fs, p)
  {
    assert [p][..0] == [];
  }

  lemma CollapseNothing(files: seq<Path>)
    requires forall f :: f in files ==> !Contains(f, "//")
    ensures CollapseAll(files) == files
  {
    forall i | 0 <= i < |files| ensures CollapseAll(files)[i] == files[i] {
      assert files[i] in files;
      CollapseWithoutDoubleSlash(files[i]);
    }
  }

  lemma {:induction false} RejectNothing(files: seq<Path>)
    requires forall f :: f in files ==> !HasFixtures(f)
    ensures RejectFixtures(files) == files
  {
    if |files| > 0 {
      var init := files[..|files| - 1];
      assert forall f :: f in init ==> f in files;
      RejectNothing(init);
      assert files[|files| - 1] in files;
      assert files == init + [files[|files| - 1]];
    }
  }

  /** The example of the test suite: three paths that do not exist. */
  lemma NothingFoundExample()
    ensures ParsedPaths(map[], ["foo", "bar", "baz"]) ==
            Failure("puppet-check: no files found in supplied paths foo, bar, baz.")
  {
    var paths: seq<Path> := ["foo", "bar", "baz"];
    NothingExists(map[], paths);
    MessageExample();
  }

  lemma MessageExample()
    ensures NoFilesMessage(["foo", "bar", "baz"]) ==
            "puppet-check: no files found in supplied paths foo, bar, baz."
  {
    JoinThree("foo", "bar", "baz");
  }

  /** When no supplied path exists, `parse_paths` raises, naming the paths as given. */
  lemma NothingExists(fs: FileSystem, paths: seq<Path>)
    requires forall p :: p in paths ==> p !in fs
    ensures ParsedPaths(fs, paths) == Failure(NoFilesMessage(paths))
  {
    CollectedOfMissing(fs, Uniq(paths));
  }

  lemma JoinThree(a: Path, b: Path, c: Path)
    ensures Join([a, b, c], ", ") == a + ", " + b + ", " + c
  {
    var items := [a, b, c];
    assert items[1..] == [b, c];
    assert [b, c][1..] == [c];
    assert Join([c], ", ") == c;
    assert Join([b, c], ", ") == b + ", " + c;
    assert Join(items, ", ") == a + ", " + (b + ", " + c);
  }

  lemma {:induction false} CollectedOfMissing(fs: FileSystem, paths: seq<Path>)
    requires forall p :: p in paths ==> p !in fs
    ensures Collected(fs, paths) == []
  {
    if |paths| > 0 {
      var init := paths[..|paths| - 1];
      assert forall p :: p in init ==> p in paths;
      CollectedOfMissing(fs, init);
      assert paths[|paths| - 1] in paths;
    }
  }

  // ---------------------------------------------------------------------
  // Inputs that are neither a directory nor a regular file
  // ---------------------------------------------------------------------

  /** `paths` with every occurrence of `p` removed. */
  function Without(paths: seq<Path>, p: Path): (r: seq<Path>)
    ensures forall q :: q in r <==> q in paths && q != p
  {
    if |paths| == 0 then []
    else
      var init := paths[..|paths| - 1];
      var last := paths[|paths| - 1];
      assert paths == init + [last];
      if last == p then Without(init, p) else Without(init, p) + [last]
  }

  /**
   * An input that is missing or is neither a directory nor a regular file
   * contributes nothing: dropping it leaves the outcome unchanged (apart
   * from the error message, which lists every path as given).
   */
  lemma NeitherFileNorDirectoryIsIgnored(fs: FileSystem, paths: seq<Path>, p: Path)
    requires p !in fs || fs[p].Special?
    ensures Kept(fs, Without(paths, p)) == Kept(fs, paths)
    ensures ParsedPaths(fs, paths).Success? == ParsedPaths(fs, Without(paths, p)).Success?
    ensures ParsedPaths(fs, paths).Success? ==>
            ParsedPaths(fs, paths).value == ParsedPaths(fs, Without(paths, p)).value
  {
    UniqWithout(paths, p);
    CollectedWithout(fs, Uniq(paths), p);
  }

  lemma {:induction false} UniqWithout(paths: seq<Path>, p: Path)
    ensures Uniq(Without(paths, p)) == Without(Uniq(paths), p)
  {
    if |paths| > 0 {
      var init := paths[..|paths| - 1];
      var last := paths[|paths| - 1];
      UniqWithout(init, p);
      assert paths == init + [last];
      if last == p {
        assert Without(paths, p) == Without(init, p);
        if last !in Uniq(init) {
          var u := Uniq(init);
          assert (u + [last])[..|u|] == u;
        }
      } else {
        var w := Without(init, p);
        assert Without(paths, p) == w + [last];
        assert (w + [last])[..|w|] == w;
        assert last in Uniq(w) <==> last in Uniq(init);
        if last !in Uniq(init) {
          var u := Uniq(init);
          assert (u + [last])[..|u|] == u;
        }
      }
    }
  }

  lemma {:induction false} CollectedWithout(fs: FileSystem, paths: seq<Path>, p: Path)
    requires p !in fs || fs[p].Special?
    ensures Collected(fs, Without(paths, p)) == Collected(fs, paths)
  {
    if |paths| > 0 {
      var init := paths[..|paths| - 1];
      var last := paths[|paths| - 1];
      CollectedWithout(fs, init, p);
      assert paths == init + [last];
      if last != p {
        var w := Without(init, p);
        assert (w + [last])[..|w|] == w;
      }
    }
  }
}
