/**
 * The Atom package object: the classpath formatting of `_formatClassPath`, the
 * refresh that reads the project's classpath file and reloads every class, and the
 * class name a saved Java file is reloaded under.
 */
module AtomPackage {
  import opened Wrappers
  import opened JsStrings
  import Loader
  import AtomProvider

  // ---------------------------------------------------------------------------
  // _formatClassPath
  // ---------------------------------------------------------------------------

  // `s.replace(/[\r\n]*/gm, '')`: every carriage return and line feed removed.
  function RemoveNewlines(s: string): (r: string)
    ensures '\r' !in r && '\n' !in r
    ensures |r| <= |s|
  {
    if s == [] then []
    else (if s[0] == '\r' || s[0] == '\n' then [] else [s[0]]) + RemoveNewlines(s[1..])
  }

  /** Every character other than a line break is kept, as often as it occurs. */
  lemma {:induction false} RemoveNewlinesKeeps(s: string, c: char)
    requires c != '\r' && c != '\n'
    ensures Count(RemoveNewlines(s), c) == Count(s, c)
  {
    if s != [] {
      var head: string := if s[0] == '\r' || s[0] == '\n' then [] else [s[0]];
      CountAppend(head, RemoveNewlines(s[1..]), c);
      RemoveNewlinesKeeps(s[1..], c);
    }
  }

  /** `rootDir.indexOf(':') !== -1 ? cp.replace(/\:/g, ';') : cp`: a Windows root directory turns the separators into `;`. */
  function WindowsSeparators(rootDir: string, cp: string): string {
    if Contains(rootDir, ":") then ReplaceAll(cp, ':', ";") else cp
  }

  /** `cp.replace(/\./g, rootDir + '/.').trim()`: every dot of the classpath is prefixed by the root directory. */
  function RootedDots(rootDir: string, cp: string): string {
    Trim(ReplaceAll(cp, '.', rootDir + "/."))
  }

  /** The regex class `[//\\]`: a slash or a backslash. */
  predicate IsSlash(c: char) {
    c == '/' || c == '\\'
  }

  /** `s.replace(/[//\\]\.[//\\]/g, '/')`: the matches, found left to right without overlap, each become one `/`. */
  function Collapse(s: string): (r: string)
    ensures |r| <= |s|
  {
    if |s| >= 3 && IsSlash(s[0]) && s[1] == '.' && IsSlash(s[2]) then "/" + Collapse(s[3..])
    else if s == [] then []
    else [s[0]] + Collapse(s[1..])
  }

  /** `_formatClassPath`. */
  function FormatClassPath(rootDir: string, classpath: string): string {
    Collapse(RootedDots(rootDir, WindowsSeparators(rootDir, RemoveNewlines(classpath))))
  }

  /** How often `d` occurs after every `c` is replaced by `rep`. */
  lemma {:induction false} ReplaceAllCount(s: string, c: char, rep: string, d: char)
    ensures Count(ReplaceAll(s, c, rep), d) == (if d == c then 0 else Count(s, d)) + Count(s, c) * Count(rep, d)
  {
    if s != [] {
      var head: string := if s[0] == c then rep else [s[0]];
      var tail := ReplaceAll(s[1..], c, rep);
      assert ReplaceAll(s, c, rep) == head + tail;
      CountAppend(head, tail, d);
      ReplaceAllCount(s[1..], c, rep, d);
      if s[0] == c {
        MulStep(Count(s[1..], c), Count(rep, d));
      } else {
        SingleCount(s[0], d);
      }
    }
  }

  lemma MulStep(k: nat, n: nat)
    ensures (1 + k) * n == n + k * n
  {
  }

  lemma SingleCount(x: char, d: char)
    ensures Count([x], d) == if x == d then 1 else 0
  {
    assert [x][1..] == [];
  }

  /**
   * The separators become `;` exactly when the root directory has a `:`: then no `:`
   * is left and each became a `;`; otherwise the classpath, and so its number of `:`,
   * is unchanged.
   */
  lemma WindowsSeparatorsIff(rootDir: string, cp: string)
    ensures ':' in rootDir ==> var r := WindowsSeparators(rootDir, cp);
      ':' !in r && Count(r, ';') == Count(cp, ';') + Count(cp, ':')
    ensures ':' !in rootDir ==> WindowsSeparators(rootDir, cp) == cp
  {
    ContainsChar(rootDir, ':');
    ReplaceAllCount(cp, ':', ";", ';');
  }

  /**
   * The dots are replaced in one pass: the text put in is not searched again, so the
   * result has one dot more than the root directory for every dot of the classpath,
   * and every other character is the classpath's plus the root directory's per dot.
   */
  lemma OnePass(rootDir: string, cp: string, d: char)
    ensures Count(ReplaceAll(cp, '.', rootDir + "/."), '.') == Count(cp, '.') * (Count(rootDir, '.') + 1)
    ensures d != '.' && d != '/' ==>
      Count(ReplaceAll(cp, '.', rootDir + "/."), d) == Count(cp, d) + Count(cp, '.') * Count(rootDir, d)
  {
    var rep := rootDir + "/.";
    ReplaceAllCount(cp, '.', rep, '.');
    ReplaceAllCount(cp, '.', rep, d);
    CountAppend(rootDir, "/.", '.');
    CountAppend(rootDir, "/.", d);
    SlashDotCount(d);
  }

  lemma SlashDotCount(d: char)
    ensures Count("/.", d) == (if d == '/' then 1 else 0) + (if d == '.' then 1 else 0)
  {
    assert "/."[1..] == ".";
    SingleCount('.', d);
  }

  /** Text without a dot has no match, and is kept as it is. */
  lemma {:induction false} CollapseDotFree(s: string)
    requires '.' !in s
    ensures Collapse(s) == s
  {
    if s != [] {
      CollapseDotFree(s[1..]);
      assert s == [s[0]] + s[1..];
    }
  }

  /** A dot-free start not followed by a dot is passed over: the matches are all in the rest. */
  lemma {:induction false} CollapsePrefix(a: string, b: string)
    requires '.' !in a
    requires b == [] || b[0] != '.'
    ensures Collapse(a + b) == a + Collapse(b)
  {
    if a != [] {
      var s := a + b;
      assert s[0] == a[0] && s[1..] == a[1..] + b;
      if |s| >= 3 {
        assert s[1] != '.' by {
          if |a| >= 2 {
            assert s[1] == a[1];
          } else {
            assert s[1] == b[0];
          }
        }
      }
      CollapsePrefix(a[1..], b);
      assert a == [a[0]] + a[1..];
    } else {
      assert a + b == b;
    }
  }

  /** A slash, a dot and a slash at the start become one `/`. */
  lemma CollapseMatch(x: char, y: char, t: string)
    requires IsSlash(x) && IsSlash(y)
    ensures Collapse([x, '.', y] + t) == "/" + Collapse(t)
  {
    assert ([x, '.', y] + t)[3..] == t;
  }

  /** The replacement is not searched again: collapsing `/././` leaves `/./`. */
  lemma CollapseOnce()
    ensures Collapse("/././") == "/./"
  {
    CollapseMatch('/', '/', "./");
    CollapseDotFree("/");
    assert Collapse("./") == "." + Collapse("/");
  }

  /** Text without line breaks is left alone by the newline removal. */
  lemma {:induction false} RemoveNewlinesFree(s: string)
    requires '\r' !in s && '\n' !in s
    ensures RemoveNewlines(s) == s
  {
    if s != [] {
      RemoveNewlinesFree(s[1..]);
      assert s == [s[0]] + s[1..];
    }
  }

  lemma Assoc(x: string, y: string, z: string)
    ensures (x + y) + z == x + (y + z)
  {
  }

  /** The first dot of `./` is replaced; the slash stays. */
  lemma ReplaceLeadingDot(rep: string)
    ensures ReplaceAll("./", '.', rep) == rep + "/"
  {
    assert "./"[1..] == "/";
    ReplaceAllAbsent("/", '.', rep);
  }

  /** After the separator, the dot of `./` is replaced. */
  lemma ReplaceSeparatedDot(rep: string)
    ensures ReplaceAll(":./", '.', rep) == ":" + (rep + "/")
  {
    assert ":./"[1..] == "./";
    ReplaceLeadingDot(rep);
  }

  /** Two relative entries `./a:./b` are each put under the root directory by the dot replacement. */
  lemma RootedRelative(rootDir: string, a: string, b: string)
    requires rootDir != [] && !IsSpace(rootDir[0])
    requires '.' !in a && '.' !in b
    requires b != [] && !IsSpace(b[|b| - 1])
    ensures RootedDots(rootDir, "./" + a + ":./" + b) == rootDir + "/./" + a + ":" + rootDir + "/./" + b
  {
    var rep := rootDir + "/.";
    ReplaceAllAppend("./" + a + ":./", b, '.', rep);
    ReplaceAllAppend("./" + a, ":./", '.', rep);
    ReplaceAllAppend("./", a, '.', rep);
    ReplaceLeadingDot(rep);
    ReplaceSeparatedDot(rep);
    ReplaceAllAbsent(a, '.', rep);
    ReplaceAllAbsent(b, '.', rep);
    var p := rootDir + "/./";
    Assoc(rootDir, "/.", "/");
    assert "/." + "/" == "/./";
    Assoc(p + a, ":", p);
    Assoc(p + a + ":", rootDir, "/./");
    var replaced := p + a + ":" + rootDir + "/./" + b;
    assert ReplaceAll("./" + a + ":./" + b, '.', rep) == replaced;
    assert replaced[|replaced| - 1] == b[|b| - 1];
    assert replaced[0] == p[0] == rootDir[0];
    TrimKeeps(replaced);
  }

  /** A dot-free start followed by a `/./` joint: the joint becomes one slash. */
  lemma CollapseJoint(r: string, t: string)
    requires '.' !in r
    ensures Collapse(r + "/./" + t) == r + "/" + Collapse(t)
  {
    Assoc(r, "/./", t);
    CollapsePrefix(r, "/./" + t);
    CollapseMatch('/', '/', t);
    Assoc(r, "/", Collapse(t));
  }

  lemma Regroup(p: string, a: string, c: string, r: string, q: string, b: string)
    ensures p + a + c + r + q + b == p + (a + c + r + q + b)
  {
  }

  /** The two `/./` joints put in by the dot replacement collapse to single slashes. */
  lemma CollapseRelative(rootDir: string, a: string, b: string)
    requires '.' !in rootDir && '.' !in a && '.' !in b
    ensures Collapse(rootDir + "/./" + a + ":" + rootDir + "/./" + b) == rootDir + "/" + a + ":" + rootDir + "/" + b
  {
    var t := a + ":" + rootDir + "/./" + b;
    Regroup(rootDir + "/./", a, ":", rootDir, "/./", b);
    CollapseJoint(rootDir, t);
    CollapseJoint(a + ":" + rootDir, b);
    CollapseDotFree(b);
    Regroup(rootDir + "/", a, ":", rootDir, "/", b);
  }

  // A Unix classpath of two relative entries `./a:./b` under a root directory without
  // dots, colons and leading whitespace: each entry is put under the root directory and
  // the `/./` joints are collapsed, as for `./bin:./lib/*`.
  lemma FormatRelativeEntries(rootDir: string, a: string, b: string)
    requires rootDir != [] && !IsSpace(rootDir[0])
    requires '.' !in rootDir && ':' !in rootDir
    requires '.' !in a && '.' !in b
    requires '\r' !in a + b && '\n' !in a + b
    requires b != [] && !IsSpace(b[|b| - 1])
    ensures FormatClassPath(rootDir, "./" + a + ":./" + b) == rootDir + "/" + a + ":" + rootDir + "/" + b
  {
    var cp := "./" + a + ":./" + b;
    RemoveNewlinesFree(cp);
    ContainsChar(rootDir, ':');
    RootedRelative(rootDir, a, b);
    CollapseRelative(rootDir, a, b);
  }

  // The usual entries `./bin:./lib/*` under a root directory without dots, colons and leading whitespace.
  lemma FormatBinAndLib(rootDir: string)
    requires rootDir != [] && !IsSpace(rootDir[0])
    requires '.' !in rootDir && ':' !in rootDir
    ensures FormatClassPath(rootDir, "./bin:./lib/*") == rootDir + "/bin:" + rootDir + "/lib/*"
  {
    FormatRelativeEntries(rootDir, "bin", "lib/*");
    BinAndLibEntries();
    BinAndLibRooted(rootDir);
  }

  lemma BinAndLibEntries()
    ensures "./" + "bin" + ":./" + "lib/*" == "./bin:./lib/*"
  {
  }

  lemma BinAndLibRooted(rootDir: string)
    ensures rootDir + "/" + "bin" + ":" + rootDir + "/" + "lib/*" == rootDir + "/bin:" + rootDir + "/lib/*"
  {
    Assoc(rootDir, "/", "bin");
    Assoc(rootDir, "/bin", ":");
    Assoc(rootDir + "/bin:" + rootDir, "/", "lib/*");
  }

  /** A character in the result of replacing every `c` comes from the input or from the replacement. */
  lemma {:induction false} ReplaceAllFrom(s: string, c: char, rep: string, d: char)
    requires d in ReplaceAll(s, c, rep)
    ensures d in s || d in rep
  {
    var head: string := if s[0] == c then rep else [s[0]];
    if d !in head {
      ReplaceAllFrom(s[1..], c, rep, d);
    }
  }

  /** Trimming only removes characters. */
  lemma TrimFrom(s: string, d: char)
    requires d in Trim(s)
    ensures d in s
  {
    var t := TrimStart(s);
    var r := TrimEnd(t);
    TrimStartSuffix(s);
    TrimEndPrefix(t);
    var k :| 0 <= k < |r| && r[k] == d;
    assert t[k] == d;
    assert s[|s| - |t| + k] == d;
  }

  /** Collapsing only removes characters, apart from the `/` it puts in. */
  lemma {:induction false} CollapseFrom(s: string, d: char)
    requires d in Collapse(s)
    ensures d in s || d == '/'
  {
    if |s| >= 3 && IsSlash(s[0]) && s[1] == '.' && IsSlash(s[2]) {
      if d != '/' {
        CollapseFrom(s[3..], d);
      }
    } else if d != s[0] {
      CollapseFrom(s[1..], d);
    }
  }

  /** With a root directory without line breaks, the formatted classpath has none. */
  lemma FormatNoNewlines(rootDir: string, classpath: string, d: char)
    requires d == '\r' || d == '\n'
    requires d !in rootDir
    ensures d !in FormatClassPath(rootDir, classpath)
  {
    var cp0 := RemoveNewlines(classpath);
    var cp1 := WindowsSeparators(rootDir, cp0);
    if d in cp1 {
      ReplaceAllFrom(cp0, ':', ";", d);
    }
    var cp2 := ReplaceAll(cp1, '.', rootDir + "/.");
    if d in cp2 {
      ReplaceAllFrom(cp1, '.', rootDir + "/.", d);
    }
    if d in Trim(cp2) {
      TrimFrom(cp2, d);
    }
    if d in Collapse(Trim(cp2)) {
      CollapseFrom(Trim(cp2), d);
    }
  }

  // ---------------------------------------------------------------------------
  // _onSave: /\/([^\/]*)\.java/ and /package\s(.*);/
  // ---------------------------------------------------------------------------

  /** The end of the run of characters other than `/` that starts at `from`. */
  function SlashFree(s: string, from: nat): (r: nat)
    requires from <= |s|
    ensures from <= r <= |s|
    ensures r < |s| ==> s[r] == '/'
    ensures forall k :: from <= k < r ==> s[k] != '/'
    decreases |s| - from
  {
    if from == |s| || s[from] == '/' then from else SlashFree(s, from + 1)
  }

  /** A match of `/\/([^\/]*)\.java/`: a `/` at `i`, and `.java` at `j` before the next `/`. */
  predicate FileSpan(path: string, i: nat, j: nat) {
    && i < |path| && path[i] == '/'
    && i + 1 <= j <= SlashFree(path, i + 1)
    && OccursAt(path, ".java", j)
  }

  /** `[^\/]*` matches what lies between: a match is a `/`, a run without `/`, and `.java`. */
  lemma FileSpanIff(path: string, i: nat, j: nat)
    ensures FileSpan(path, i, j) <==>
      && i < |path| && path[i] == '/' && i + 1 <= j && OccursAt(path, ".java", j)
      && '/' !in path[i + 1..j]
  {
    if i < |path| && path[i] == '/' && i + 1 <= j && OccursAt(path, ".java", j) {
      var e := SlashFree(path, i + 1);
      if j > e {
        assert path[i + 1..j][e - i - 1] == path[e];
      } else {
        var run := path[i + 1..j];
        forall k | 0 <= k < |run| ensures run[k] != '/' {
          assert run[k] == path[i + 1 + k];
        }
      }
    }
  }

  ghost predicate NoFileSpanFrom(path: string, k: nat) {
    forall i: nat, j: nat :: k <= i ==> !FileSpan(path, i, j)
  }

  /** `(i, j)` is the match found searching from `k`: the leftmost `/`, and the last `.java` of its run. */
  ghost predicate FirstFileSpanFrom(path: string, k: nat, i: nat, j: nat) {
    && k <= i && FileSpan(path, i, j)
    && (forall i': nat, j': nat :: k <= i' < i ==> !FileSpan(path, i', j'))
    && (forall j': nat :: j < j' ==> !FileSpan(path, i, j'))
  }

  /** The match of the file regex searching from `k`, if there is one. */
  function FileSpanFrom(path: string, k: nat): (r: Option<(nat, nat)>)
    ensures r.None? ==> NoFileSpanFrom(path, k)
    ensures r.Some? ==> FirstFileSpanFrom(path, k, r.value.0, r.value.1)
    decreases |path| - k
  {
    if k >= |path| then
      None
    else
      var here := if path[k] == '/' then LastOccurrence(path, ".java", k + 1, SlashFree(path, k + 1)) else None;
      if here.Some? then
        Some((k, here.value))
      else
        var rest := FileSpanFrom(path, k + 1);
        SkipFileStart(path, k, rest);
        rest
  }

  /** A start without a match does not change the result of the search from the next position. */
  lemma SkipFileStart(path: string, k: nat, rest: Option<(nat, nat)>)
    requires k < |path|
    requires path[k] == '/' ==> LastOccurrence(path, ".java", k + 1, SlashFree(path, k + 1)).None?
    requires rest.None? ==> NoFileSpanFrom(path, k + 1)
    requires rest.Some? ==> FirstFileSpanFrom(path, k + 1, rest.value.0, rest.value.1)
    ensures rest.None? ==> NoFileSpanFrom(path, k)
    ensures rest.Some? ==> FirstFileSpanFrom(path, k, rest.value.0, rest.value.1)
  {
    assert forall j: nat :: !FileSpan(path, k, j);
  }

  /**
   * `path.match(/\/([^\/]*)\.java/)[1]`: the file's base name, which has no `/` and
   * sits between a `/` and `.java`; `None` exactly when the regex has no match.
   */
  function FileMatch(path: string): (r: Option<string>)
    ensures r.None? <==> forall i: nat, j: nat :: !FileSpan(path, i, j)
    ensures r.Some? ==> '/' !in r.value && exists i: nat :: OccursAt(path, "/" + r.value + ".java", i)
  {
    match FileSpanFrom(path, 0)
    case None => None
    case Some((i, j)) =>
      FileSpanIff(path, i, j);
      FileSpanShape(path, i, j);
      Some(path[i + 1..j])
  }

  /** A file match reads `/NAME.java`. */
  lemma FileSpanShape(path: string, i: nat, j: nat)
    requires i < |path| && path[i] == '/' && i + 1 <= j && OccursAt(path, ".java", j)
    ensures OccursAt(path, "/" + path[i + 1..j] + ".java", i)
  {
    assert path[i..j + 5] == path[i..i + 1] + path[i + 1..j] + path[j..j + 5];
  }

  /** A match of `/package\s(.*);/`: `package` at `i`, one whitespace, and `;` at `j` on the line the group starts on. */
  predicate PackageSpan(text: string, i: nat, j: nat) {
    && OccursAt(text, "package", i) && i + 8 <= |text| && IsSpace(text[i + 7])
    && i + 8 <= j <= LineEnd(text, i + 8)
    && OccursAt(text, ";", j)
  }

  ghost predicate NoPackageSpanFrom(text: string, k: nat) {
    forall i: nat, j: nat :: k <= i ==> !PackageSpan(text, i, j)
  }

  /** `(i, j)` is the match found searching from `k`: the leftmost start, and the last `;` of its line. */
  ghost predicate FirstPackageSpanFrom(text: string, k: nat, i: nat, j: nat) {
    && k <= i && PackageSpan(text, i, j)
    && (forall i': nat, j': nat :: k <= i' < i ==> !PackageSpan(text, i', j'))
    && (forall j': nat :: j < j' ==> !PackageSpan(text, i, j'))
  }

  /** The match of the package regex searching from `k`, if there is one. */
  function PackageSpanFrom(text: string, k: nat): (r: Option<(nat, nat)>)
    ensures r.None? ==> NoPackageSpanFrom(text, k)
    ensures r.Some? ==> FirstPackageSpanFrom(text, k, r.value.0, r.value.1)
    decreases |text| - k
  {
    if k + 8 > |text| then
      None
    else
      var here := if OccursAt(text, "package", k) && IsSpace(text[k + 7]) then LastOccurrence(text, ";", k + 8, LineEnd(text, k + 8)) else None;
      if here.Some? then
        Some((k, here.value))
      else
        var rest := PackageSpanFrom(text, k + 1);
        SkipPackageStart(text, k, rest);
        rest
  }

  /** A start without a match does not change the result of the search from the next position. */
  lemma SkipPackageStart(text: string, k: nat, rest: Option<(nat, nat)>)
    requires k + 8 <= |text|
    requires OccursAt(text, "package", k) && IsSpace(text[k + 7]) ==> LastOccurrence(text, ";", k + 8, LineEnd(text, k + 8)).None?
    requires rest.None? ==> NoPackageSpanFrom(text, k + 1)
    requires rest.Some? ==> FirstPackageSpanFrom(text, k + 1, rest.value.0, rest.value.1)
    ensures rest.None? ==> NoPackageSpanFrom(text, k)
    ensures rest.Some? ==> FirstPackageSpanFrom(text, k, rest.value.0, rest.value.1)
  {
    assert forall j: nat :: !PackageSpan(text, k, j);
  }

  /**
   * `text.match(/package\s(.*);/)[1]`: the text after `package` and one whitespace up
   * to the last `;` of that line; `None` exactly when the regex has no match.
   */
  function PackageMatch(text: string): (r: Option<string>)
    ensures r.None? <==> forall i: nat, j: nat :: !PackageSpan(text, i, j)
    ensures r.Some? ==> NoLineTerminator(r.value)
  {
    match PackageSpanFrom(text, 0)
    case None => None
    case Some((i, j)) =>
      WithinLine(text, i + 8, j);
      Some(text[i + 8..j])
  }

  /** The class `_onSave` reloads: the package, a dot and the file's base name, when both regexes match. */
  function SavedClassName(path: string, text: string): (r: Option<string>)
    ensures r.Some? <==> FileMatch(path).Some? && PackageMatch(text).Some?
    ensures r.Some? ==> r.value == PackageMatch(text).value + "." + FileMatch(path).value
  {
    match (FileMatch(path), PackageMatch(text))
    case (Some(file), Some(pkg)) => Some(pkg + "." + file)
    case _ => None
  }

  /** A match starting inside the directory part, before the `/` that ends it, has its `.java` inside it too. */
  lemma SpanInDirOccurs(dir: string, tail: string, i: nat, j: nat)
    requires tail != [] && tail[0] == '/'
    requires i < |dir|
    requires FileSpan(dir + tail, i, j)
    ensures OccursAt(dir, ".java", j)
  {
    var path := dir + tail;
    var d := |dir|;
    assert path[d] == '/';
    assert SlashFree(path, i + 1) <= d;
    var ext := path[j..j + 5];
    assert ext == ".java";
    assert j + 5 <= d;
    assert dir[j..j + 5] == ext;
  }

  /** A tail without `/`: the run without `/` that starts it reaches the end. */
  lemma SlashFreeToEnd(prefix: string, tail: string)
    requires '/' !in tail
    ensures SlashFree(prefix + tail, |prefix|) == |prefix| + |tail|
  {
  }

  /** No `.java` in the directory part: the first match is the file name after the last `/`. */
  lemma FileOfPath(dir: string, name: string)
    requires forall j: nat :: !OccursAt(dir, ".java", j)
    requires '/' !in name
    ensures FileMatch(dir + "/" + name + ".java") == Some(name)
  {
    var path := dir + "/" + name + ".java";
    var d := |dir|;
    var e := d + 1 + |name|;
    assert path == dir + ("/" + name + ".java");
    Assoc(dir + "/", name, ".java");
    SlashFreeToEnd(dir + "/", name + ".java");
    assert path[d] == '/';
    assert path[d + 1..e] == name;
    assert OccursAt(path, ".java", e) by {
      assert path[e..e + 5] == ".java";
    }
    assert FileSpan(path, d, e);
    var r := FileSpanFrom(path, 0);
    assert r.Some?;
    var (i, j) := r.value;
    if i < d {
      SpanInDirOccurs(dir, "/" + name + ".java", i, j);
    }
    assert i == d;
    assert j == e;
  }

  /** A header `package PKG;` followed by a line break or the end gives the package `PKG`. */
  lemma PackageOfHeader(pkg: string, rest: string)
    requires ';' !in pkg && NoLineTerminator(pkg)
    requires rest == [] || IsLineTerminator(rest[0])
    ensures PackageMatch("package " + pkg + ";" + rest) == Some(pkg)
  {
    var text := "package " + pkg + ";" + rest;
    var e := 8 + |pkg|;
    Assoc("package ", pkg, ";");
    assert text == "package " + (pkg + ";") + rest;
    assert NoLineTerminator(pkg + ";") by {
      var seg := pkg + ";";
      forall k | 0 <= k < |seg| ensures !IsLineTerminator(seg[k]) {
        if k < |pkg| {
          assert seg[k] == pkg[k];
        }
      }
    }
    LineEndPast("package ", pkg + ";", rest);
    assert text[..7] == "package" && text[7] == ' ';
    assert text[8..e] == pkg;
    assert text[e..e + 1] == ";";
    assert PackageSpan(text, 0, e);
    var r := PackageSpanFrom(text, 0);
    assert r.Some?;
    var (i, j) := r.value;
    assert i == 0;
    assert j == e;
  }

  /** A file saved as `DIR/NAME.java` whose text starts with `package PKG;` reloads the class `PKG.NAME`. */
  lemma SavedClassOfFile(dir: string, name: string, pkg: string, rest: string)
    requires forall j: nat :: !OccursAt(dir, ".java", j)
    requires '/' !in name
    requires ';' !in pkg && NoLineTerminator(pkg)
    requires rest == [] || IsLineTerminator(rest[0])
    ensures SavedClassName(dir + "/" + name + ".java", "package " + pkg + ";" + rest) == Some(pkg + "." + name)
  {
    FileOfPath(dir, name);
    PackageOfHeader(pkg, rest);
  }

  // ---------------------------------------------------------------------------
  // The package object
  // ---------------------------------------------------------------------------

  class AtomAutocompletePackage {
    const classLoader: Loader.JavaClassLoader
    const provider: AtomProvider.AtomAutocompleteProvider
    /** The formatted classpath of the last refresh; `.` before the first. */
    var classpath: string

    /** The constructor together with `activate`'s loader and provider. */
    constructor (inverseName: string -> string)
      ensures classpath == "."
      ensures fresh(classLoader) && fresh(classLoader.dict) && fresh(provider)
      ensures provider.classLoader == classLoader && provider.prevReturnType == "undefined"
      ensures classLoader.inverseName == inverseName && classLoader.dict.tries == map[] && !classLoader.loading
    {
      var loader := new Loader.JavaClassLoader(inverseName);
      classLoader := loader;
      provider := new AtomProvider.AtomAutocompleteProvider(loader);
      classpath := ".";
    }

    /**
     * `_refresh`: with no project root directory nothing happens; otherwise the
     * classpath file under it is read (`""` when it cannot be), formatted and
     * stored, and the loader reloads every class from it.
     */
    method Refresh(rootDir: Option<string>, readFile: string -> string, classpathFilePath: string, src: Loader.Sources, loadClassMembers: bool)
      modifies this, classLoader
      ensures rootDir.None? ==>
        && classpath == old(classpath) && classLoader.loading == old(classLoader.loading)
        && classLoader.dict == old(classLoader.dict) && classLoader.dict.tries == old(classLoader.dict.tries)
      ensures rootDir.Some? ==> classpath == FormatClassPath(rootDir.value, readFile(rootDir.value + "/" + classpathFilePath))
      ensures rootDir.Some? && !old(classLoader.loading) ==>
        && fresh(classLoader.dict) && !classLoader.loading
        && classLoader.dict.tries == Loader.ReloadAdded(Loader.ParseMember, classLoader.inverseName, src, classpath, loadClassMembers)
      ensures rootDir.Some? && old(classLoader.loading) ==>
        classLoader.loading && classLoader.dict == old(classLoader.dict) && classLoader.dict.tries == old(classLoader.dict.tries)
    {
      if rootDir.Some? {
        var root := rootDir.value;
        var contents := readFile(root + "/" + classpathFilePath);
        classpath := FormatClassPath(root, contents);
        classLoader.LoadClasses(src, classpath, loadClassMembers);
      }
    }

    /** `_refreshClass`'s timer callback: the class is reloaded from the stored classpath, ranked by the time `now`. */
    method RefreshClass(src: Loader.Sources, className: string, loadClassMembers: bool, now: int)
      modifies classLoader.dict
      ensures classLoader.dict.tries == Loader.RecordsAdded(old(classLoader.dict.tries), Loader.ParseMember, classLoader.inverseName,
        src.readClass(classpath, className, loadClassMembers), Loader.Fixed(now))
    {
      classLoader.LoadClass(src, className, classpath, loadClassMembers, now);
    }
  }
}
