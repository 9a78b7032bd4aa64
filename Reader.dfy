/**
 * The classpath reader of JavaClassReader.js. Every class it finds is reported
 * through a callback; the model records those calls, in order, as a list of
 * events. The promise chains of the source only serialise the work, so each loop
 * here runs one entry to completion before the next.
 *
 * The file system and the shell are an environment of total functions: listing a
 * directory (`[]` on error), running a command (its standard output, `""` on
 * error), and the files a directory walk visits, as (root, file name) pairs in the
 * order the walker reports them.
 */
module Reader {
  import opened Wrappers
  import opened JsStrings

  datatype Env = Env(
    readDir: string -> seq<string>,
    exec: string -> string,
    walk: string -> seq<(string, string)>)

  /** One call of the callback: a class name and its member lines (`null` when `javap` printed none). */
  datatype ClassEvent = ClassEvent(className: string, members: Option<seq<string>>)

  /** The class name of a class file path: the first `.class` removed, then every `/` made a `.`. */
  function ClassNameOf(classFilePath: string): (r: string)
    ensures '/' !in r
  {
    var stripped := ReplaceFirst(classFilePath, ".class", "");
    ReplaceAllRemoves(stripped, '/', ".");
    ReplaceAll(stripped, '/', ".")
  }

  /** A dot-free path with the `.class` suffix becomes its package path with dots. */
  lemma ClassNameOfClassFile(path: string)
    requires '.' !in path
    ensures ClassNameOf(path + ".class") == ReplaceAll(path, '/', ".")
  {
    var s := path + ".class";
    assert s[|path|..|path| + 6] == ".class";
    forall j: nat | j < |path| ensures !OccursAt(s, ".class", j) {
      assert s[j..j + 6][0] == s[j] == path[j];
    }
    ReplaceFirstAt(s, ".class", "", |path|);
    assert s[..|path|] + "" + s[|path| + 6..] == path;
  }

  /**
   * Class files are never filtered by name: `pkg/Outer$Inner.class` is read as the
   * class `pkg.Outer$Inner`, a `$` in `cls` passing through like any other character.
   */
  lemma InnerClassKept(pkg: string, cls: string)
    requires '.' !in pkg && '.' !in cls && '/' !in cls
    ensures ClassNameOf(pkg + "/" + cls + ".class") == ReplaceAll(pkg, '/', ".") + "." + cls
  {
    var path := pkg + "/" + cls;
    ClassNameOfClassFile(path);
    ReplaceAllAppend(pkg + "/", cls, '/', ".");
    ReplaceAllAppend(pkg, "/", '/', ".");
    assert ReplaceAll("/", '/', ".") == ".";
    ReplaceAllAbsent(cls, '/', ".");
  }

  // ---- `stdout.match(/(\S.*);/g)` ----

  /** A match of `\S.*;`: a non-space character at `i`, and at `j` a `;` later on the same line. */
  predicate MemberSpan(s: string, i: nat, j: nat) {
    && i < |s| && !IsSpace(s[i])
    && i + 1 <= j <= LineEnd(s, i + 1)
    && OccursAt(s, ";", j)
  }

  ghost predicate NoMemberFrom(s: string, k: nat) {
    forall i: nat, j: nat :: k <= i ==> !MemberSpan(s, i, j)
  }

  /** `(i, j)` is the match a search from `k` finds: the leftmost start, and the last `;` for it. */
  ghost predicate FirstMemberFrom(s: string, k: nat, i: nat, j: nat) {
    && k <= i && MemberSpan(s, i, j)
    && (forall i': nat, j': nat :: k <= i' < i ==> !MemberSpan(s, i', j'))
    && (forall j': nat :: j < j' ==> !MemberSpan(s, i, j'))
  }

  function MemberFrom(s: string, k: nat): (r: Option<(nat, nat)>)
    ensures r.None? ==> NoMemberFrom(s, k)
    ensures r.Some? ==> FirstMemberFrom(s, k, r.value.0, r.value.1)
    decreases |s| - k
  {
    if k >= |s| then
      None
    else
      var here := if !IsSpace(s[k]) then LastOccurrence(s, ";", k + 1, LineEnd(s, k + 1)) else None;
      if here.Some? then
        Some((k, here.value))
      else
        var rest := MemberFrom(s, k + 1);
        SkipMemberStart(s, k, rest);
        rest
  }

  lemma SkipMemberStart(s: string, k: nat, rest: Option<(nat, nat)>)
    requires k < |s|
    requires !IsSpace(s[k]) ==> LastOccurrence(s, ";", k + 1, LineEnd(s, k + 1)).None?
    requires rest.None? ==> NoMemberFrom(s, k + 1)
    requires rest.Some? ==> FirstMemberFrom(s, k + 1, rest.value.0, rest.value.1)
    ensures rest.None? ==> NoMemberFrom(s, k)
    ensures rest.Some? ==> FirstMemberFrom(s, k, rest.value.0, rest.value.1)
  {
    assert forall j: nat :: !MemberSpan(s, k, j);
  }

  /** A member line found in `javap` output: non-space first, `;` last, all on one line. */
  predicate IsMemberLine(m: string) {
    |m| >= 2 && !IsSpace(m[0]) && m[|m| - 1] == ';' && NoLineTerminator(m)
  }

  lemma MemberSpanLine(s: string, i: nat, j: nat)
    requires MemberSpan(s, i, j)
    ensures IsMemberLine(s[i..j + 1])
  {
    WithinLine(s, i + 1, j);
    assert s[i..j + 1] == [s[i]] + s[i + 1..j] + [s[j]];
    assert s[j..j + 1][0] == s[j];
  }

  /** Every match of the global regex from `k` on, each search resuming after the previous match. */
  function MatchesFrom(s: string, k: nat): (ms: seq<string>)
    ensures forall n :: 0 <= n < |ms| ==> IsMemberLine(ms[n])
    decreases |s| - k
  {
    match MemberFrom(s, k)
    case None => []
    case Some((i, j)) =>
      MemberSpanLine(s, i, j);
      [s[i..j + 1]] + MatchesFrom(s, j + 1)
  }

  /** `stdout.match(/(\S.*);/g)`: all matches, or `null` when there are none. */
  function JavapMembers(stdout: string): (r: Option<seq<string>>)
    ensures r.Some? ==> |r.value| > 0 && forall n :: 0 <= n < |r.value| ==> IsMemberLine(r.value[n])
    ensures r.None? <==> NoMemberFrom(stdout, 0)
  {
    var ms := MatchesFrom(stdout, 0);
    if ms == [] then None else Some(ms)
  }

  /**
   * On one line, the only match runs from the first non-space character through the
   * last `;`, provided that `;` comes after it.
   */
  lemma OneLineMember(line: string, f: nat, q: nat)
    requires NoLineTerminator(line)
    requires f < q < |line| && !IsSpace(line[f]) && line[q] == ';'
    requires forall k :: 0 <= k < f ==> IsSpace(line[k])
    requires forall k :: q < k < |line| ==> line[k] != ';'
    ensures MatchesFrom(line, 0) == [line[f..q + 1]]
  {
    OneLineFirst(line, f, q);
    NoMemberAfter(line, q + 1);
  }

  lemma OneLineFirst(line: string, f: nat, q: nat)
    requires NoLineTerminator(line)
    requires f < q < |line| && !IsSpace(line[f]) && line[q] == ';'
    requires forall k :: 0 <= k < f ==> IsSpace(line[k])
    requires forall k :: q < k < |line| ==> line[k] != ';'
    ensures MemberFrom(line, 0) == Some((f, q))
  {
    OneLineSpan(line, f, q);
    var r := MemberFrom(line, 0);
    assert r.Some?;
    FirstMemberIs(line, f, q, r.value.0, r.value.1);
  }

  /** The leftmost-greedy match starts at the first non-space character and ends at the last `;`. */
  lemma FirstMemberIs(line: string, f: nat, q: nat, i: nat, j: nat)
    requires MemberSpan(line, f, q) && FirstMemberFrom(line, 0, i, j)
    requires forall k :: 0 <= k < f ==> IsSpace(line[k])
    requires forall k :: q < k < |line| ==> line[k] != ';'
    ensures i == f && j == q
  {
    SpanEndsAtSemicolon(line, i, j);
  }

  /** The first non-space character and a later `;` of one line make a match. */
  lemma OneLineSpan(line: string, f: nat, q: nat)
    requires NoLineTerminator(line)
    requires f < q < |line| && !IsSpace(line[f]) && line[q] == ';'
    ensures MemberSpan(line, f, q)
  {
    WithinLine(line, f + 1, |line|);
    assert line[q..q + 1] == ";";
  }

  /** A match ends at a `;`. */
  lemma SpanEndsAtSemicolon(s: string, i: nat, j: nat)
    requires MemberSpan(s, i, j)
    ensures j < |s| && s[j] == ';'
  {
    assert s[j..j + 1][0] == s[j];
  }

  /** Without a `;` from `k` on, a search from `k` finds nothing. */
  lemma {:induction false} NoMemberAfter(s: string, k: nat)
    requires forall p :: k <= p < |s| ==> s[p] != ';'
    ensures MemberFrom(s, k).None?
    decreases |s| - k
  {
    if k < |s| {
      forall j: nat | k <= j && j + 1 <= |s| ensures !OccursAt(s, ";", j) {
        assert s[j..j + 1][0] == s[j];
      }
      NoMemberAfter(s, k + 1);
    }
  }

  /** Output without a `;` has no member line, and the callback gets `null`. */
  lemma NoSemicolonNoMember(s: string)
    requires forall k :: 0 <= k < |s| ==> s[k] != ';'
    ensures JavapMembers(s).None?
  {
    NoMemberAfter(s, 0);
  }

  // ---- `readClass` ----

  /** The command `readClass` runs to list the members of a class. */
  function JavapCommand(classpath: string, className: string): string {
    "javap -classpath " + classpath + " " + className
  }

  /**
   * `readClass`: nothing for an empty class name; otherwise one callback, with no
   * members when members are not fetched, and with the member lines of `javap`
   * otherwise.
   */
  function ReadClass(env: Env, fetchMembers: bool, classpath: string, classFilePath: string): (events: seq<ClassEvent>)
    ensures ClassNameOf(classFilePath) == "" <==> events == []
    ensures events != [] ==> |events| == 1 && events[0].className == ClassNameOf(classFilePath)
    ensures events != [] && !fetchMembers ==> events[0].members == Some([])
    ensures events != [] && fetchMembers ==>
      events[0].members == JavapMembers(env.exec(JavapCommand(classpath, ClassNameOf(classFilePath))))
  {
    var className := ClassNameOf(classFilePath);
    if className == "" then []
    else if !fetchMembers then [ClassEvent(className, Some([]))]
    else [ClassEvent(className, JavapMembers(env.exec(JavapCommand(classpath, className))))]
  }

  /** The callbacks for a list of class file paths read one after another. */
  function ReadClassList(env: Env, fetchMembers: bool, classpath: string, paths: seq<string>): seq<ClassEvent> {
    if paths == [] then []
    else
      ReadClassList(env, fetchMembers, classpath, paths[..|paths| - 1])
        + ReadClass(env, fetchMembers, classpath, paths[|paths| - 1])
  }

  lemma ReadClassListStep(env: Env, fetchMembers: bool, classpath: string, paths: seq<string>, n: nat)
    requires n < |paths|
    ensures ReadClassList(env, fetchMembers, classpath, paths[..n + 1])
      == ReadClassList(env, fetchMembers, classpath, paths[..n]) + ReadClass(env, fetchMembers, classpath, paths[n])
  {
    assert paths[..n + 1][..n] == paths[..n];
  }

  /** The command `readJarClasses` runs to list the class files of a jar. */
  function UnzipCommand(jarPath: string): string {
    "unzip -l " + jarPath + " | grep .class | awk '{print $NF}'"
  }

  /** `readJarClasses`: every line of the listing is read as a class file path, in order. */
  function JarSpec(env: Env, fetchMembers: bool, jarPath: string): seq<ClassEvent> {
    ReadClassList(env, fetchMembers, jarPath, Split(env.exec(UnzipCommand(jarPath)), '\n'))
  }

  /** The `*` branch: the jars among the listed names, read in listing order. */
  function StarSpec(env: Env, fetchMembers: bool, dir: string, names: seq<string>): seq<ClassEvent> {
    if names == [] then []
    else
      var name := names[|names| - 1];
      StarSpec(env, fetchMembers, dir, names[..|names| - 1])
        + (if EndsWith(name, ".jar") then JarSpec(env, fetchMembers, dir + name) else [])
  }

  /** The class file path of a walked file: `root/name` with the first `fullPath/` removed. */
  function ClassFilePath(fullPath: string, root: string, name: string): string {
    ReplaceFirst(root + "/" + name, fullPath + "/", "")
  }

  /** The directory branch: the class files among the walked files, read in walk order. */
  function WalkSpec(env: Env, fetchMembers: bool, fullPath: string, files: seq<(string, string)>): seq<ClassEvent> {
    if files == [] then []
    else
      var (root, name) := files[|files| - 1];
      WalkSpec(env, fetchMembers, fullPath, files[..|files| - 1])
        + (if EndsWith(name, ".class") then ReadClass(env, fetchMembers, fullPath, ClassFilePath(fullPath, root, name)) else [])
  }

  /** `readPathClasses`: a jar, a `*` directory of jars, or a directory of class files. */
  function PathSpec(env: Env, fetchMembers: bool, fullPath: string): seq<ClassEvent> {
    if EndsWith(fullPath, ".jar") then
      JarSpec(env, fetchMembers, fullPath)
    else if EndsWith(fullPath, "*") then
      var dir := ReplaceFirst(fullPath, "*", "");
      StarSpec(env, fetchMembers, dir, env.readDir(dir))
    else
      WalkSpec(env, fetchMembers, fullPath, env.walk(fullPath))
  }

  /** The path a classpath entry is read from: entries starting with `.` are relative to the root directory. */
  function ResolveEntry(entry: string, rootDir: string): (r: string)
    ensures StartsWith(entry, ".") ==> r == rootDir + "/" + entry
    ensures !StartsWith(entry, ".") ==> r == entry
  {
    if StartsWith(entry, ".") then rootDir + "/" + entry else entry
  }

  /** The callbacks for the classpath entries, empty entries skipped. */
  function EntriesSpec(env: Env, fetchMembers: bool, entries: seq<string>, rootDir: string): seq<ClassEvent> {
    if entries == [] then []
    else
      var entry := entries[|entries| - 1];
      EntriesSpec(env, fetchMembers, entries[..|entries| - 1], rootDir)
        + (if entry != "" then PathSpec(env, fetchMembers, ResolveEntry(entry, rootDir)) else [])
  }

  /** `readClasses`: the classpath split on `:`, each entry read in order. */
  function ClasspathSpec(env: Env, fetchMembers: bool, classpath: string, rootDir: string): seq<ClassEvent> {
    EntriesSpec(env, fetchMembers, Split(classpath, ':'), rootDir)
  }

  lemma StarStep(env: Env, fetchMembers: bool, dir: string, names: seq<string>, n: nat)
    requires n < |names|
    ensures StarSpec(env, fetchMembers, dir, names[..n + 1])
      == StarSpec(env, fetchMembers, dir, names[..n])
        + (if EndsWith(names[n], ".jar") then JarSpec(env, fetchMembers, dir + names[n]) else [])
  {
    assert names[..n + 1][..n] == names[..n];
  }

  lemma WalkStep(env: Env, fetchMembers: bool, fullPath: string, files: seq<(string, string)>, n: nat)
    requires n < |files|
    ensures WalkSpec(env, fetchMembers, fullPath, files[..n + 1])
      == WalkSpec(env, fetchMembers, fullPath, files[..n])
        + (if EndsWith(files[n].1, ".class")
           then ReadClass(env, fetchMembers, fullPath, ClassFilePath(fullPath, files[n].0, files[n].1))
           else [])
  {
    assert files[..n + 1][..n] == files[..n];
  }

  lemma EntriesStep(env: Env, fetchMembers: bool, entries: seq<string>, rootDir: string, n: nat)
    requires n < |entries|
    ensures EntriesSpec(env, fetchMembers, entries[..n + 1], rootDir)
      == EntriesSpec(env, fetchMembers, entries[..n], rootDir)
        + (if entries[n] != "" then PathSpec(env, fetchMembers, ResolveEntry(entries[n], rootDir)) else [])
  {
    assert entries[..n + 1][..n] == entries[..n];
  }

  /** The entries are read one after another: reading `a + b` is reading `a`, then `b`. */
  lemma {:induction false} EntriesAppend(env: Env, fetchMembers: bool, a: seq<string>, b: seq<string>, rootDir: string)
    ensures EntriesSpec(env, fetchMembers, a + b, rootDir)
      == EntriesSpec(env, fetchMembers, a, rootDir) + EntriesSpec(env, fetchMembers, b, rootDir)
    decreases |b|
  {
    if b == [] {
      assert a + b == a;
    } else {
      EntriesAppend(env, fetchMembers, a, b[..|b| - 1], rootDir);
      EntriesAppendStep(env, fetchMembers, a, b, rootDir);
    }
  }

  lemma EntriesAppendStep(env: Env, fetchMembers: bool, a: seq<string>, b: seq<string>, rootDir: string)
    requires b != []
    requires EntriesSpec(env, fetchMembers, a + b[..|b| - 1], rootDir)
      == EntriesSpec(env, fetchMembers, a, rootDir) + EntriesSpec(env, fetchMembers, b[..|b| - 1], rootDir)
    ensures EntriesSpec(env, fetchMembers, a + b, rootDir)
      == EntriesSpec(env, fetchMembers, a, rootDir) + EntriesSpec(env, fetchMembers, b, rootDir)
  {
    EntriesSnoc(env, fetchMembers, a, b, rootDir);
    EntriesSnoc(env, fetchMembers, [], b, rootDir);
    assert [] + b == b && [] + b[..|b| - 1] == b[..|b| - 1];
    ConcatAssoc(EntriesSpec(env, fetchMembers, a, rootDir), EntriesSpec(env, fetchMembers, b[..|b| - 1], rootDir),
      EntriesSpec(env, fetchMembers, [b[|b| - 1]], rootDir));
  }

  lemma ConcatAssoc<T>(x: seq<T>, y: seq<T>, z: seq<T>)
    ensures (x + y) + z == x + (y + z)
  {
  }

  lemma EntriesSnoc(env: Env, fetchMembers: bool, a: seq<string>, b: seq<string>, rootDir: string)
    requires b != []
    ensures EntriesSpec(env, fetchMembers, a + b, rootDir)
      == EntriesSpec(env, fetchMembers, a + b[..|b| - 1], rootDir) + EntriesSpec(env, fetchMembers, [b[|b| - 1]], rootDir)
  {
    assert (a + b)[..|a + b| - 1] == a + b[..|b| - 1];
    assert [b[|b| - 1]][..0] == [];
  }

  /** Classpath order is reading order: `a:b` yields the callbacks of `a`, then those of `b`. */
  lemma ClasspathAppend(env: Env, fetchMembers: bool, a: string, b: string, rootDir: string)
    ensures ClasspathSpec(env, fetchMembers, a + ":" + b, rootDir)
      == ClasspathSpec(env, fetchMembers, a, rootDir) + ClasspathSpec(env, fetchMembers, b, rootDir)
  {
    SplitAppend(a, b, ':');
    EntriesAppend(env, fetchMembers, Split(a, ':'), Split(b, ':'), rootDir);
  }

  /**
   * A single entry: nothing when it is empty, otherwise the classes of its path,
   * resolved against the root directory when it starts with `.`.
   */
  lemma ClasspathEntry(env: Env, fetchMembers: bool, entry: string, rootDir: string)
    requires ':' !in entry
    ensures entry == "" ==> ClasspathSpec(env, fetchMembers, entry, rootDir) == []
    ensures entry != "" ==>
      ClasspathSpec(env, fetchMembers, entry, rootDir) == PathSpec(env, fetchMembers, ResolveEntry(entry, rootDir))
  {
    SplitWithoutSeparator(entry, ':');
    var es := [entry];
    assert es[..0] == [];
    assert EntriesSpec(env, fetchMembers, es, rootDir)
      == EntriesSpec(env, fetchMembers, [], rootDir)
        + (if entry != "" then PathSpec(env, fetchMembers, ResolveEntry(entry, rootDir)) else []);
  }

  /** A directory walk reads only files whose name ends in `.class`, each under its derived path. */
  lemma {:induction false} WalkOnlyClassFiles(env: Env, fetchMembers: bool, fullPath: string, files: seq<(string, string)>)
    ensures forall e :: e in WalkSpec(env, fetchMembers, fullPath, files) ==>
      exists n :: 0 <= n < |files| && EndsWith(files[n].1, ".class")
        && e in ReadClass(env, fetchMembers, fullPath, ClassFilePath(fullPath, files[n].0, files[n].1))
  {
    if files != [] {
      var init := files[..|files| - 1];
      WalkOnlyClassFiles(env, fetchMembers, fullPath, init);
      forall e | e in WalkSpec(env, fetchMembers, fullPath, files)
        ensures exists n :: (0 <= n < |files| && EndsWith(files[n].1, ".class")
          && e in ReadClass(env, fetchMembers, fullPath, ClassFilePath(fullPath, files[n].0, files[n].1)))
      {
        if e in WalkSpec(env, fetchMembers, fullPath, init) {
          var n :| 0 <= n < |init| && EndsWith(init[n].1, ".class")
            && e in ReadClass(env, fetchMembers, fullPath, ClassFilePath(fullPath, init[n].0, init[n].1));
          assert files[n] == init[n];
        } else {
          var n := |files| - 1;
          assert EndsWith(files[n].1, ".class");
        }
      }
    }
  }

  /** The `*` branch reads only listed names ending in `.jar`, each as the jar `dir + name`. */
  lemma {:induction false} StarOnlyJars(env: Env, fetchMembers: bool, dir: string, names: seq<string>)
    ensures forall e :: e in StarSpec(env, fetchMembers, dir, names) ==>
      exists n :: 0 <= n < |names| && EndsWith(names[n], ".jar") && e in JarSpec(env, fetchMembers, dir + names[n])
  {
    if names != [] {
      var init := names[..|names| - 1];
      StarOnlyJars(env, fetchMembers, dir, init);
      forall e | e in StarSpec(env, fetchMembers, dir, names)
        ensures exists n :: 0 <= n < |names| && EndsWith(names[n], ".jar") && e in JarSpec(env, fetchMembers, dir + names[n])
      {
        if e in StarSpec(env, fetchMembers, dir, init) {
          var n :| 0 <= n < |init| && EndsWith(init[n], ".jar") && e in JarSpec(env, fetchMembers, dir + init[n]);
          assert names[n] == init[n];
        } else {
          var n := |names| - 1;
          assert EndsWith(names[n], ".jar");
        }
      }
    }
  }

  class JavaClassReader {
    const fetchMembers: bool

    constructor (fetchMembers: bool)
      ensures this.fetchMembers == fetchMembers
    {
      this.fetchMembers := fetchMembers;
    }

    /** `readClasses`: one classpath entry after another. */
    method ReadClasses(env: Env, classpath: string, rootDir: string) returns (events: seq<ClassEvent>)
      ensures events == ClasspathSpec(env, fetchMembers, classpath, rootDir)
    {
      var entries := Split(classpath, ':');
      events := [];
      var n := 0;
      while n < |entries|
        invariant n <= |entries|
        invariant events == EntriesSpec(env, fetchMembers, entries[..n], rootDir)
      {
        var entry := entries[n];
        EntriesStep(env, fetchMembers, entries, rootDir, n);
        if entry != "" {
          var more := ReadPathClasses(env, ResolveEntry(entry, rootDir));
          events := events + more;
        }
        n := n + 1;
      }
      assert entries[..n] == entries;
    }

    /** `readPathClasses`: dispatch on the suffix of the path. */
    method ReadPathClasses(env: Env, fullPath: string) returns (events: seq<ClassEvent>)
      ensures events == PathSpec(env, fetchMembers, fullPath)
    {
      if EndsWith(fullPath, ".jar") {
        events := ReadJarClasses(env, fullPath);
      } else if EndsWith(fullPath, "*") {
        var dir := ReplaceFirst(fullPath, "*", "");
        var names := env.readDir(dir);
        events := [];
        var n := 0;
        while n < |names|
          invariant n <= |names|
          invariant events == StarSpec(env, fetchMembers, dir, names[..n])
        {
          StarStep(env, fetchMembers, dir, names, n);
          if EndsWith(names[n], ".jar") {
            var more := ReadJarClasses(env, dir + names[n]);
            events := events + more;
          }
          n := n + 1;
        }
        assert names[..n] == names;
      } else {
        var files := env.walk(fullPath);
        events := [];
        var n := 0;
        while n < |files|
          invariant n <= |files|
          invariant events == WalkSpec(env, fetchMembers, fullPath, files[..n])
        {
          var (root, name) := files[n];
          WalkStep(env, fetchMembers, fullPath, files, n);
          if EndsWith(name, ".class") {
            events := events + ReadClass(env, fetchMembers, fullPath, ClassFilePath(fullPath, root, name));
          }
          n := n + 1;
        }
        assert files[..n] == files;
      }
    }

    /** `readJarClasses`: one line of the jar listing after another. */
    method ReadJarClasses(env: Env, jarPath: string) returns (events: seq<ClassEvent>)
      ensures events == JarSpec(env, fetchMembers, jarPath)
    {
      var paths := Split(env.exec(UnzipCommand(jarPath)), '\n');
      events := [];
      var n := 0;
      while n < |paths|
        invariant n <= |paths|
        invariant events == ReadClassList(env, fetchMembers, jarPath, paths[..n])
      {
        ReadClassListStep(env, fetchMembers, jarPath, paths, n);
        events := events + ReadClass(env, fetchMembers, jarPath, paths[n]);
        n := n + 1;
      }
      assert paths[..n] == paths;
    }
  }
}
