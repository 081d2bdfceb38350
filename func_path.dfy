/**
 * `get_func_path` of `_private/utils.py`: the dotted name under which a task
 * function is stored.  Python's `inspect.getmodule(func).__file__`,
 * `settings.BASE_DIR` and `func.__qualname__` arrive as the three strings
 * `moduleFile`, `baseDir` and `qualname`.
 */
module FuncPath {

  /** `str.replace("/", ".")`. */
  function SlashesToDots(s: string): (r: string)
    ensures |r| == |s|
    ensures forall i :: 0 <= i < |s| ==> r[i] == (if s[i] == '/' then '.' else s[i])
    ensures '/' !in r
  {
    seq(|s|, i requires 0 <= i < |s| => if s[i] == '/' then '.' else s[i])
  }

  /** The characters `rstrip(".py")` removes: a set, not a suffix. */
  predicate InStripSet(c: char) {
    c == '.' || c == 'p' || c == 'y'
  }

  /**
   * `str.rstrip(".py")`: the longest trailing run of characters from the set
   * {'.', 'p', 'y'} is removed.
   */
  function RStrip(s: string): (r: string)
    ensures r <= s
    ensures r == [] || !InStripSet(r[|r| - 1])
    ensures forall i :: |r| <= i < |s| ==> InStripSet(s[i])
    decreases |s|
  {
    if |s| > 0 && InStripSet(s[|s| - 1]) then RStrip(s[..|s| - 1]) else s
  }

  /**
   * `str.replace(pat, "")`: every occurrence of `pat`, found left to right
   * without overlap, is removed.  Python leaves a string unchanged when the
   * pattern is empty.
   */
  function RemoveAll(s: string, pat: string): (r: string)
    ensures |r| <= |s|
    ensures forall c :: c in r ==> c in s
    ensures pat == [] ==> r == s
    decreases |s|
  {
    if pat == [] || |s| == 0 then s
    else if pat <= s then RemoveAll(s[|pat|..], pat)
    else [s[0]] + RemoveAll(s[1..], pat)
  }

  /** The slice `[1:]`: the first character dropped, `""` stays `""`. */
  function DropFirst(s: string): (r: string)
    ensures |s| > 0 ==> [s[0]] + r == s
    ensures |s| == 0 ==> r == []
  {
    if |s| == 0 then [] else s[1..]
  }

  /** The module part of the path, lines 40-43. */
  function ModuleName(moduleFile: string, baseDir: string): (r: string)
    ensures |r| < |moduleFile| || moduleFile == []
  {
    DropFirst(RemoveAll(RStrip(SlashesToDots(moduleFile)), SlashesToDots(baseDir)))
  }

  /** `get_func_path`. */
  function GetFuncPath(moduleFile: string, baseDir: string, qualname: string): (r: string)
    ensures r == ModuleName(moduleFile, baseDir) + "." + qualname
    ensures '/' !in ModuleName(moduleFile, baseDir)
    ensures |r| > |qualname| && r[|r| - |qualname| - 1..] == "." + qualname
  {
    var m := ModuleName(moduleFile, baseDir);
    ModuleHasNoSlash(moduleFile, baseDir);
    m + "." + qualname
  }

  /** No `/` survives into the module part. */
  lemma ModuleHasNoSlash(moduleFile: string, baseDir: string)
    ensures '/' !in ModuleName(moduleFile, baseDir)
  {
    var dotted := SlashesToDots(moduleFile);
    var stripped := RStrip(dotted);
    assert forall c :: c in stripped ==> c in dotted by {
      forall c | c in stripped ensures c in dotted {
        var i :| 0 <= i < |stripped| && stripped[i] == c;
        assert dotted[i] == c;
      }
    }
  }

  /** `pat` starts at position `i` of `s`. */
  predicate OccursAt(s: string, pat: string, i: nat) {
    i + |pat| <= |s| && s[i..i + |pat|] == pat
  }

  /** A string in which the pattern never occurs is left as it is. */
  lemma {:induction false} NoOccurrenceUnchanged(s: string, pat: string)
    requires pat != []
    requires forall i: nat :: i < |s| ==> !OccursAt(s, pat, i)
    ensures RemoveAll(s, pat) == s
    decreases |s|
  {
    if |s| > 0 {
      if pat <= s {
        assert OccursAt(s, pat, 0);
      } else {
        forall i: nat | i < |s[1..]| ensures !OccursAt(s[1..], pat, i) {
          assert !OccursAt(s, pat, i + 1);
          if i + |pat| <= |s[1..]| {
            assert s[1..][i..i + |pat|] == s[i + 1..i + 1 + |pat|];
          }
        }
        NoOccurrenceUnchanged(s[1..], pat);
      }
    }
  }

  /**
   * The case the code is written for: the dotted base dir is a prefix of the
   * dotted module path and occurs nowhere after it, and only that prefix goes.
   */
  lemma BaseDirPrefixRemoved(base: string, rest: string)
    requires base != []
    requires forall i: nat :: i < |rest| ==> !OccursAt(rest, base, i)
    ensures RemoveAll(base + rest, base) == rest
  {
    assert base <= base + rest;
    assert (base + rest)[|base|..] == rest;
    NoOccurrenceUnchanged(rest, base);
  }

  /** A pattern whose last character never appears in `s` does not occur in it. */
  lemma AbsentCharNoOccurrence(s: string, pat: string)
    requires pat != [] && pat[|pat| - 1] !in s
    ensures forall i: nat :: i < |s| ==> !OccursAt(s, pat, i)
  {
  }

  /** `RStrip` keeps exactly the prefix up to the last character outside the strip set. */
  lemma RStripAt(s: string, k: nat)
    requires 0 < k <= |s| && !InStripSet(s[k - 1])
    requires forall i :: k <= i < |s| ==> InStripSet(s[i])
    ensures RStrip(s) == s[..k]
  {
  }

  /**
   * The layout the code is written for: the stripped, dotted module path is
   * the dotted base dir followed by `rest`, in which the base dir does not
   * occur again; the stored name is then `rest` without its leading dot,
   * a dot, and the qualified name.
   */
  lemma FuncPathUnderBaseDir(moduleFile: string, baseDir: string, qualname: string, rest: string)
    requires baseDir != []
    requires RStrip(SlashesToDots(moduleFile)) == SlashesToDots(baseDir) + rest
    requires forall i: nat :: i < |rest| ==> !OccursAt(rest, SlashesToDots(baseDir), i)
    ensures GetFuncPath(moduleFile, baseDir, qualname) == DropFirst(rest) + "." + qualname
  {
    BaseDirPrefixRemoved(SlashesToDots(baseDir), rest);
  }

  /** `/r/tests/tasks.py` and `/r` with their slashes turned into dots. */
  lemma TestsTasksDotted()
    ensures SlashesToDots("/r/tests/tasks.py") == ".r.tests.tasks.py"
    ensures SlashesToDots("/r") == ".r"
  {
    var dotted, expected := SlashesToDots("/r/tests/tasks.py"), ".r.tests.tasks.py";
    forall i | 0 <= i < |expected| ensures dotted[i] == expected[i] {
    }
  }

  /** `rstrip(".py")` of the dotted path leaves the dotted base dir and `.tests.tasks`. */
  lemma TestsTasksStripped()
    ensures RStrip(".r.tests.tasks.py") == ".r" + ".tests.tasks"
  {
    RStripAt(".r.tests.tasks.py", 14);
    assert ".r.tests.tasks.py"[..14] == ".r" + ".tests.tasks";
  }

  /** The module part of the test suite's example is `tests.tasks`. */
  lemma TestsTasksModule()
    ensures ModuleName("/r/tests/tasks.py", "/r") == "tests.tasks"
  {
    TestsTasksDotted();
    TestsTasksStripped();
    AbsentCharNoOccurrence(".tests.tasks", ".r");
    BaseDirPrefixRemoved(".r", ".tests.tasks");
    assert DropFirst(".tests.tasks") == "tests.tasks";
  }

  /** The example of the test suite: `/r/tests/tasks.py` under `/r` gives `tests.tasks.add`. */
  lemma TestsTasksAdd(moduleFile: string, baseDir: string)
    requires moduleFile == "/r/tests/tasks.py" && baseDir == "/r"
    ensures GetFuncPath(moduleFile, baseDir, "add") == "tests.tasks.add"
  {
    TestsTasksModule();
    var r := GetFuncPath(moduleFile, baseDir, "add");
    assert r == "tests.tasks" + ".add";
    assert "tests.tasks" + ".add" == "tests.tasks.add";
  }

  /** `/r/app/happy.py` and `/r` with their slashes turned into dots. */
  lemma HappyDotted()
    ensures SlashesToDots("/r/app/happy.py") == ".r.app.happy.py"
    ensures SlashesToDots("/r") == ".r"
  {
    var dotted, expected := SlashesToDots("/r/app/happy.py"), ".r.app.happy.py";
    forall i | 0 <= i < |expected| ensures dotted[i] == expected[i] {
    }
  }

  /** `rstrip(".py")` of the dotted path leaves the dotted base dir and `.app.ha`. */
  lemma HappyStripped()
    ensures RStrip(".r.app.happy.py") == ".r" + ".app.ha"
  {
    RStripAt(".r.app.happy.py", 9);
    assert ".r.app.happy.py"[..9] == ".r" + ".app.ha";
  }

  /** The module part of `/r/app/happy.py` is `app.ha`. */
  lemma HappyModule()
    ensures ModuleName("/r/app/happy.py", "/r") == "app.ha"
  {
    HappyDotted();
    HappyStripped();
    AbsentCharNoOccurrence(".app.ha", ".r");
    BaseDirPrefixRemoved(".r", ".app.ha");
    assert DropFirst(".app.ha") == "app.ha";
  }

  /**
   * The character-set quirk: a module whose name ends in `p`, `y` or `.`
   * loses those letters too, so `app/happy.py` is stored as `app.ha`.
   */
  lemma RStripEatsModuleTail(moduleFile: string, baseDir: string)
    requires moduleFile == "/r/app/happy.py" && baseDir == "/r"
    ensures GetFuncPath(moduleFile, baseDir, "f") == "app.ha.f"
  {
    HappyModule();
    var r := GetFuncPath(moduleFile, baseDir, "f");
    assert r == "app.ha" + ".f";
    assert "app.ha" + ".f" == "app.ha.f";
  }
}
