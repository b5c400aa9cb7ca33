/**
 * The few pieces of Ruby's core library that the file-collection and
 * classification logic relies on, stated on `string` (= `seq<char>`):
 * matching a literal regular expression (`s =~ /lit/`, `s =~ /lit$/`),
 * `String#gsub('//', '/')`, `Array#uniq`, `Array#join`, `File.basename`
 * and `File.extname`.
 */
module RubyCore {

  // ---------------------------------------------------------------------
  // Literal regular expressions
  // ---------------------------------------------------------------------

  /** `s =~ /t/` for a regular expression made of literal characters: `t` occurs somewhere in `s`. */
  predicate Contains(s: string, t: string)
    decreases |s|
  {
    t <= s || (|s| > 0 && Contains(s[1..], t))
  }

  /**
   * `s =~ /t$/` for a literal `t`: in Ruby `$` matches at the end of a line,
   * so `t` must be followed by the end of `s` or by a newline.
   */
  predicate EndsLineWith(s: string, t: string)
    decreases |s|
  {
    (t <= s && (|s| == |t| || s[|t|] == '\n')) || (|s| > 0 && EndsLineWith(s[1..], t))
  }

  lemma {:induction false} ContainsWithin(a: string, t: string, b: string, x: string)
    requires Contains(t, x)
    ensures Contains(a + t + b, x)
    decreases |a| + |t|
  {
    if |a| > 0 {
      ContainsWithin(a[1..], t, b, x);
      assert (a + t + b)[1..] == a[1..] + t + b;
    } else if x <= t {
      assert a + t + b == t + b;
    } else {
      ContainsWithin(a, t[1..], b, x);
      assert (a + t + b)[1..] == a + t[1..] + b;
    }
  }

  /** `s` ends with `t`. */
  predicate HasSuffix(s: string, t: string)
  {
    |t| <= |s| && s[|s| - |t|..] == t
  }

  /** Without newlines in `s`, `s =~ /t$/` holds exactly when `s` ends with `t`. */
  lemma {:induction false} EndsLineWithoutNewline(s: string, t: string)
    requires '\n' !in s
    ensures EndsLineWith(s, t) <==> HasSuffix(s, t)
    decreases |s|
  {
    if |s| > 0 {
      var rest := s[1..];
      assert '\n' !in rest by { assert forall c :: c in rest ==> c in s; }
      EndsLineWithoutNewline(rest, t);
      EndsLineStep(s, t);
      SuffixOfTail(s, t);
    }
  }

  /** One step of `EndsLineWith` on a string without newlines: `t` is all of `s`, or ends the tail. */
  lemma EndsLineStep(s: string, t: string)
    requires '\n' !in s && |s| > 0
    ensures EndsLineWith(s, t) <==> s == t || EndsLineWith(s[1..], t)
  {
    var here := t <= s && (|s| == |t| || s[|t|] == '\n');
    assert EndsLineWith(s, t) == (here || EndsLineWith(s[1..], t));
    if |t| < |s| {
      assert s[|t|] in s;
    }
  }

  /** `t` is a suffix of a non-empty `s` exactly when it is all of `s` or a suffix of its tail. */
  lemma SuffixOfTail(s: string, t: string)
    requires |s| > 0
    ensures HasSuffix(s, t) <==> s == t || HasSuffix(s[1..], t)
  {
    if |t| < |s| {
      assert s[1..][|s| - 1 - |t|..] == s[|s| - |t|..];
    } else if |t| == |s| {
      assert s[|s| - |t|..] == s;
    }
  }

  /** A string always matches `/t$/` when it ends with `t`. */
  lemma {:induction false} EndsLineWithSuffix(u: string, t: string)
    ensures EndsLineWith(u + t, t)
    decreases |u|
  {
    if |u| == 0 {
      assert u + t == t;
    } else {
      EndsLineWithSuffix(u[1..], t);
      assert (u + t)[1..] == u[1..] + t;
    }
  }

  // ---------------------------------------------------------------------
  // String#gsub('//', '/')
  // ---------------------------------------------------------------------

  /**
   * `s.gsub('//', '/')`: a single left-to-right scan in which each
   * non-overlapping occurrence of `//` becomes `/`. It is not a full
   * collapse: `a///b` becomes `a//b`.
   */
  function CollapseDoubleSlash(s: string): (r: string)
    ensures |r| <= |s|
    ensures |s| > 0 ==> |r| > 0 && r[0] == s[0]
    decreases |s|
  {
    if |s| >= 2 && s[0] == '/' && s[1] == '/' then "/" + CollapseDoubleSlash(s[2..])
    else if |s| == 0 then []
    else [s[0]] + CollapseDoubleSlash(s[1..])
  }

  /** A prefix of the rewritten string that holds no `/` is already a prefix of the original. */
  lemma {:induction false} CollapseKeepsSlashFreePrefix(s: string, t: string)
    requires '/' !in t
    requires t <= CollapseDoubleSlash(s)
    ensures t <= s
    decreases |s|
  {
    if |t| > 0 {
      assert t[0] in t;
      if s[0] == '/' {
        assert false;
      } else {
        assert t[0] == s[0];
        assert '/' !in t[1..] by { assert forall c :: c in t[1..] ==> c in t; }
        CollapseKeepsSlashFreePrefix(s[1..], t[1..]);
        assert t == [t[0]] + t[1..];
      }
    }
  }

  /**
   * The rewrite cannot create an occurrence of a slash-free word: if the
   * result contains `t`, so did the original.
   */
  lemma {:induction false} CollapseCreatesNoSlashFreeWord(s: string, t: string)
    requires '/' !in t
    requires Contains(CollapseDoubleSlash(s), t)
    ensures Contains(s, t)
    decreases |s|
  {
    var r := CollapseDoubleSlash(s);
    if t <= r {
      CollapseKeepsSlashFreePrefix(s, t);
    } else if |s| >= 2 && s[0] == '/' && s[1] == '/' {
      assert r[1..] == CollapseDoubleSlash(s[2..]);
      CollapseCreatesNoSlashFreeWord(s[2..], t);
      assert s[1..][1..] == s[2..];
    } else {
      assert r[1..] == CollapseDoubleSlash(s[1..]);
      CollapseCreatesNoSlashFreeWord(s[1..], t);
    }
  }

  /** A string without `//` comes back from the rewrite unchanged. */
  lemma {:induction false} CollapseWithoutDoubleSlash(s: string)
    requires !Contains(s, "//")
    ensures CollapseDoubleSlash(s) == s
    decreases |s|
  {
    if |s| > 0 {
      assert !("//" <= s);
      CollapseWithoutDoubleSlash(s[1..]);
    }
  }

  /** One pass only: three slashes become two, not one. */
  lemma CollapseIsSinglePass()
    ensures CollapseDoubleSlash("a///b") == "a//b"
  {
    assert "a///b"[1..] == "///b";
    assert "///b"[2..] == "/b";
    assert "/b"[1..] == "b";
  }

  // ---------------------------------------------------------------------
  // Array#uniq and Array#join
  // ---------------------------------------------------------------------

  predicate NoDuplicates<T(==)>(s: seq<T>)
  {
    forall i, j :: 0 <= i < j < |s| ==> s[i] != s[j]
  }

  /** `s.uniq`: the first occurrence of each element, in order of first appearance. */
  function Uniq<T(==,!new)>(s: seq<T>): (r: seq<T>)
    ensures NoDuplicates(r)
    ensures forall x :: x in r <==> x in s
    ensures |r| <= |s|
  {
    if |s| == 0 then []
    else
      var r := Uniq(s[..|s| - 1]);
      var x := s[|s| - 1];
      assert s == s[..|s| - 1] + [x];
      if x in r then r else r + [x]
  }

  /** On a sequence without repeats `uniq` changes nothing. */
  lemma {:induction false} UniqOfDistinct<T(!new)>(s: seq<T>)
    requires NoDuplicates(s)
    ensures Uniq(s) == s
  {
    if |s| > 0 {
      var init := s[..|s| - 1];
      assert NoDuplicates(init);
      UniqOfDistinct(init);
      assert s[|s| - 1] !in init;
      assert s == init + [s[|s| - 1]];
    }
  }

  /** `items.join(sep)`. */
  function Join(items: seq<string>, sep: string): (r: string)
  {
    if |items| == 0 then ""
    else if |items| == 1 then items[0]
    else items[0] + sep + Join(items[1..], sep)
  }

  /** Every joined item can be found in the joined string. */
  lemma {:induction false} JoinNamesEveryItem(items: seq<string>, sep: string, x: string)
    requires x in items
    ensures Contains(Join(items, sep), x)
  {
    if |items| == 1 || x == items[0] {
      if |items| == 1 {
        assert Join(items, sep) == x + [];
      }
      ContainsWithin([], x, Join(items, sep)[|x|..], x) by {
        assert x <= x;
      }
      assert [] + x + Join(items, sep)[|x|..] == Join(items, sep);
    } else {
      JoinNamesEveryItem(items[1..], sep, x);
      ContainsWithin(items[0] + sep, Join(items[1..], sep), [], x);
      assert items[0] + sep + Join(items[1..], sep) + [] == Join(items, sep);
    }
  }

  // ---------------------------------------------------------------------
  // File.basename and File.extname
  // ---------------------------------------------------------------------

  // These functions carry no postconditions of their own: classification
  // unfolds them on every file, so their properties are stated as lemmas
  // and called where a proof needs them.

  function DropTrailingSlashes(p: string): string
  {
    if |p| > 0 && p[|p| - 1] == '/' then DropTrailingSlashes(p[..|p| - 1]) else p
  }

  /** The part of `s` after its last `/` (all of `s` when it has none). */
  function AfterLastSlash(s: string): string
  {
    if |s| == 0 || s[|s| - 1] == '/' then []
    else AfterLastSlash(s[..|s| - 1]) + [s[|s| - 1]]
  }

  /** The last path component, trailing slashes ignored. */
  function LastComponent(p: string): string
  {
    AfterLastSlash(DropTrailingSlashes(p))
  }

  /** `File.basename(p)`: the last component; a path made only of slashes gives `/`. */
  function Basename(p: string): string
  {
    var c := LastComponent(p);
    if c == [] && p != [] then "/" else c
  }

  function DropLeadingDots(s: string): string
  {
    if |s| > 0 && s[0] == '.' then DropLeadingDots(s[1..]) else s
  }

  /** The suffix of `s` that starts at its last `.`, or empty when `s` has no `.`. */
  function DotSuffix(s: string): string
  {
    if |s| == 0 then []
    else if s[|s| - 1] == '.' then "."
    else
      var r := DotSuffix(s[..|s| - 1]);
      if r == [] then [] else r + [s[|s| - 1]]
  }

  /**
   * `File.extname(p)`: within the last component, leading dots are skipped
   * (so `.profile` has no extension) and the extension runs from the last
   * remaining `.` to the end of the component.
   */
  function Extname(p: string): string
  {
    DotSuffix(DropLeadingDots(LastComponent(p)))
  }

  lemma {:induction false} AfterLastSlashHasNoSlash(s: string)
    ensures '/' !in AfterLastSlash(s)
  {
    if |s| > 0 && s[|s| - 1] != '/' {
      AfterLastSlashHasNoSlash(s[..|s| - 1]);
    }
  }

  lemma {:induction false} DropLeadingDotsShape(s: string)
    ensures DropLeadingDots(s) == [] || DropLeadingDots(s)[0] != '.'
    ensures forall c :: c in DropLeadingDots(s) ==> c in s
  {
    if |s| > 0 && s[0] == '.' {
      DropLeadingDotsShape(s[1..]);
    }
  }

  /** `DotSuffix(s)` is empty exactly when `s` has no dot, and otherwise starts at the only dot it holds. */
  lemma {:induction false} DotSuffixShape(s: string)
    ensures DotSuffix(s) == [] <==> '.' !in s
    ensures DotSuffix(s) != [] ==> DotSuffix(s)[0] == '.' && '.' !in DotSuffix(s)[1..]
    ensures forall c :: c in DotSuffix(s) ==> c in s
  {
    if |s| > 0 && s[|s| - 1] != '.' {
      var init := s[..|s| - 1];
      DotSuffixShape(init);
      assert s == init + [s[|s| - 1]];
      var r := DotSuffix(init);
      if r != [] {
        assert (r + [s[|s| - 1]])[1..] == r[1..] + [s[|s| - 1]];
      }
    }
  }

  /**
   * An extension is empty or starts with its only dot, and never holds a
   * slash.
   */
  lemma ExtnameShape(p: string)
    ensures Extname(p) == [] || (Extname(p)[0] == '.' && '.' !in Extname(p)[1..])
    ensures '/' !in Extname(p)
  {
    var c := LastComponent(p);
    AfterLastSlashHasNoSlash(DropTrailingSlashes(p));
    DropLeadingDotsShape(c);
    DotSuffixShape(DropLeadingDots(c));
  }

  /** A name without slashes that is appended to a directory is its own last component. */
  lemma {:induction false} LastComponentOfChild(dir: string, name: string)
    requires '/' !in name && name != []
    ensures LastComponent(dir + "/" + name) == name
    ensures Basename(dir + "/" + name) == name
    ensures LastComponent(name) == name && Basename(name) == name
  {
    var s := dir + "/" + name;
    assert name[|name| - 1] in name;
    assert DropTrailingSlashes(s) == s;
    assert DropTrailingSlashes(name) == name;
    AfterLastSlashOfChild(dir + "/", name);
    AfterLastSlashOfChild([], name);
    assert [] + name == name;
  }

  lemma {:induction false} AfterLastSlashOfChild(prefix: string, name: string)
    requires prefix == [] || prefix[|prefix| - 1] == '/'
    requires '/' !in name
    ensures AfterLastSlash(prefix + name) == name
  {
    var s := prefix + name;
    if |name| > 0 {
      var init := name[..|name| - 1];
      var last := name[|name| - 1];
      assert name == init + [last];
      AfterLastSlashOfChild(prefix, init);
      assert s[..|s| - 1] == prefix + init;
      assert s[|s| - 1] == last;
      assert AfterLastSlash(s) == AfterLastSlash(prefix + init) + [last];
    } else {
      assert s == prefix;
    }
  }

  /** A last component without dots has no extension. */
  lemma NoDotNoExtension(p: string)
    requires '.' !in LastComponent(p)
    ensures Extname(p) == []
  {
    var c := LastComponent(p);
    DropLeadingDotsShape(c);
    DotSuffixShape(DropLeadingDots(c));
  }
}
