/**
 * The Java-name helpers of javaUtil.js. The editor is reduced to the strings it
 * is asked for: the whole buffer text, and the line up to the cursor.
 *
 * Each regular expression is hand-coded with JavaScript's leftmost, greedy match
 * semantics; a name spliced into a `RegExp` is treated as literal text.
 */
module JavaUtil {
  import opened Wrappers
  import opened JsStrings

  /**
   * `_lastMatch`: the last element of a match array (the last capture group, or the
   * whole match for a regex without groups), or "" when nothing matched.
   */
  function LastMatch(m: Option<seq<string>>): (r: string)
    requires m.Some? ==> |m.value| > 0
    ensures m.None? ==> r == ""
    ensures m.Some? ==> r == m.value[|m.value| - 1]
  {
    match m
    case None => ""
    case Some(a) => a[|a| - 1]
  }

  /** `getSimpleName`: the first match of `/[^\.]*$/g`, which is the text after the last dot. */
  function SimpleName(className: string): (r: string)
    ensures '.' !in r
    ensures EndsWith(className, r)
    ensures |r| < |className| ==> className[|className| - |r| - 1] == '.'
  {
    var i := LastIndexOfChar(className, '.');
    TailAfterLast(className, '.', i);
    className[i + 1..]
  }

  /** The text after the last `c` holds no `c` and ends the string. */
  lemma TailAfterLast(s: string, c: char, i: int)
    requires -1 <= i < |s|
    requires forall j :: i < j < |s| ==> s[j] != c
    ensures c !in s[i + 1..]
    ensures EndsWith(s, s[i + 1..])
  {
    var r := s[i + 1..];
    forall k | 0 <= k < |r| ensures r[k] != c {
      assert r[k] == s[i + 1 + k];
    }
    assert s[|s| - |r|..|s|] == r;
  }

  /** One character of `s` at `j` is `c`, stated the way the occurrence search sees it. */
  lemma CharOccurs(s: string, c: char, j: nat)
    requires j < |s|
    ensures OccursAt(s, [c], j) <==> s[j] == c
  {
    if s[j] == c {
      assert s[j..j + 1] == [c];
    }
    if OccursAt(s, [c], j) {
      assert s[j..j + 1][0] == s[j];
    }
  }

  /**
   * The match array of `/package ([^;]*);/`: the first "package " that is followed,
   * anywhere later, by a semicolon, and the text up to the first such semicolon.
   */
  function PackageMatch(text: string): (m: Option<seq<string>>)
    ensures m.Some? ==> |m.value| == 2 && ';' !in m.value[1]
    ensures m.Some? ==> m.value[0] == "package " + m.value[1] + ";" && Contains(text, m.value[0])
    ensures m.Some? ==> IndexOf(text, "package ").Some? && OccursAt(text, m.value[0], IndexOf(text, "package ").value)
    ensures m.None? ==> forall i: nat, j: nat ::
      OccursAt(text, "package ", i) && i + 8 <= j < |text| ==> text[j] != ';'
  {
    match IndexOf(text, "package ")
    case None => None
    case Some(i) =>
      match IndexOfFrom(text, ";", i + 8)
      case None =>
        assert forall i': nat, j: nat :: OccursAt(text, "package ", i') && i' + 8 <= j < |text| ==> text[j] != ';' by {
          forall i': nat, j: nat | OccursAt(text, "package ", i') && i' + 8 <= j < |text| ensures text[j] != ';' {
            CharOccurs(text, ';', j);
          }
        }
        None
      case Some(j) =>
        DeclarationShape(text, i, j);
        Some([text[i..j + 1], text[i + 8..j]])
  }

  /** A "package " at `i` and the first `;` after it at `j` read "package GROUP;" with a `;`-free group. */
  lemma DeclarationShape(text: string, i: nat, j: nat)
    requires OccursAt(text, "package ", i)
    requires IndexOfFrom(text, ";", i + 8) == Some(j)
    ensures ';' !in text[i + 8..j]
    ensures text[i..j + 1] == "package " + text[i + 8..j] + ";"
    ensures OccursAt(text, text[i..j + 1], i)
  {
    var g := text[i + 8..j];
    assert text[j..j + 1] == ";";
    assert text[i..j + 1] == text[i..i + 8] + g + text[j..j + 1];
    forall k | 0 <= k < |g| ensures g[k] != ';' {
      CharOccurs(text, ';', i + 8 + k);
    }
  }

  /** `getCurrentPackageName` (also atomJavaUtil.js): the captured package name, or "". */
  function PackageName(text: string): (r: string)
    ensures ';' !in r
    ensures r != "" ==> Contains(text, "package " + r + ";")
    ensures (forall i: nat, j: nat :: OccursAt(text, "package ", i) && i + 8 <= j < |text| ==> text[j] != ';') ==> r == ""
  {
    var m := PackageMatch(text);
    if m.Some? then
      var i := IndexOf(text, "package ").value;
      assert text[i + 8 + |m.value[1]|] == m.value[0][8 + |m.value[1]|];
      LastMatch(m)
    else
      LastMatch(m)
  }

  /**
   * A text whose first "package " opens a declaration `package NAME;` has the
   * package NAME, whatever follows.
   */
  lemma PackageNameOfDeclaration(pre: string, name: string, rest: string)
    requires ';' !in name
    requires forall i: nat :: i < |pre| ==> !OccursAt(pre + "package " + name + ";" + rest, "package ", i)
    ensures PackageName(pre + "package " + name + ";" + rest) == name
  {
    var text := pre + "package " + name + ";" + rest;
    assert text == pre + ("package " + name + ";") + rest;
    assert text[|pre|..|pre| + 9 + |name|] == "package " + name + ";";
    PackageNameAt(text, |pre|, name);
  }

  /** The declaration `package NAME;` at the first "package " of a text gives NAME. */
  lemma PackageNameAt(text: string, a: nat, name: string)
    requires OccursAt(text, "package " + name + ";", a) && ';' !in name
    requires forall i: nat :: i < a ==> !OccursAt(text, "package ", i)
    ensures PackageName(text) == name
  {
    OccursSplit(text, "package ", name + ";", a);
    FirstOccurrence(text, "package ", a);
    FirstSemicolon(text, a + 8, name);
  }

  /** The `;` after a `;`-free text is the first `;` from where the text starts. */
  lemma FirstSemicolon(text: string, k: nat, x: string)
    requires OccursAt(text, x + ";", k) && ';' !in x
    ensures IndexOfFrom(text, ";", k) == Some(k + |x|)
    ensures text[k..k + |x|] == x
  {
    assert text[k..k + |x|] == text[k..k + |x| + 1][..|x|] == (x + ";")[..|x|] == x;
    forall j | k <= j < k + |x| ensures !OccursAt(text, ";", j) {
      CharOccurs(text, ';', j);
      assert text[j] == text[k..k + |x| + 1][j - k] == x[j - k];
    }
    CharOccurs(text, ';', k + |x|);
    assert text[k + |x|] == text[k..k + |x| + 1][|x|] == ';';
  }

  /**
   * The match array of `new RegExp('import (.*' + name + ');')`: the whole match and
   * its group, which runs from after the leftmost "import " that has `name;` later
   * on its line through the last such `name` on that line.
   */
  function ImportMatch(text: string, name: string): (m: Option<seq<string>>)
    ensures m.Some? ==> |m.value| == 2 && EndsWith(m.value[1], name)
    ensures m.Some? ==> m.value[0] == "import " + m.value[1] + ";" && Contains(text, m.value[0])
    ensures m.None? ==> forall i: nat, j: nat :: !Span(text, "import ", name + ";", i, j)
  {
    match FirstSpan(text, "import ", name + ";")
    case None => None
    case Some((i, j)) =>
      var g := text[i + 7..j + |name|];
      ImportGroupShape(text, name, i, j);
      Some(["import " + g + ";", g])
  }

  /** `getImportClassName` (also `getImportedClassName` of atomJavaUtil.js). */
  function ImportedClassName(text: string, name: string): (r: string)
    ensures r != "" ==> EndsWith(r, name) && Contains(text, "import " + r + ";")
    ensures (forall i: nat, j: nat :: !Span(text, "import ", name + ";", i, j)) ==> r == ""
  {
    LastMatch(ImportMatch(text, name))
  }

  /**
   * The import match is the leftmost-greedy one: `import `, the group from there
   * through the last `name` before the `;` that ends it on that line, and `;`.
   */
  lemma ImportMatchIsFirst(text: string, name: string)
    ensures forall i: nat, j: nat :: FirstSpanFrom(text, "import ", name + ";", 0, i, j) ==>
      ImportMatch(text, name) == Some(["import " + text[i + 7..j + |name|] + ";", text[i + 7..j + |name|]])
  {
    forall i: nat, j: nat | FirstSpanFrom(text, "import ", name + ";", 0, i, j)
      ensures ImportMatch(text, name) == Some(["import " + text[i + 7..j + |name|] + ";", text[i + 7..j + |name|]])
    {
      FirstSpanIs(text, "import ", name + ";", i, j);
    }
  }

  /** The imported class name is the group of the leftmost-greedy import match. */
  lemma ImportedClassNameIsFirst(text: string, name: string)
    ensures forall i: nat, j: nat :: FirstSpanFrom(text, "import ", name + ";", 0, i, j) ==>
      ImportedClassName(text, name) == text[i + 7..j + |name|]
  {
    ImportMatchIsFirst(text, name);
  }

  /**
   * An import line `import QUAL NAME;` (one line, ended by a line break or the end of
   * the text) before which no import of NAME starts gives the class `QUAL NAME`.
   */
  lemma ImportedClassOfLine(pre: string, qual: string, name: string, rest: string)
    requires NoLineTerminator(qual) && NoLineTerminator(name)
    requires rest == [] || IsLineTerminator(rest[0])
    requires forall i: nat, j: nat :: i < |pre| ==> !Span(pre + "import " + qual + name + ";" + rest, "import ", name + ";", i, j)
    ensures ImportedClassName(pre + "import " + qual + name + ";" + rest, name) == qual + name
  {
    var text := pre + "import " + qual + name + ";" + rest;
    var a := |pre|;
    var e := a + 7 + |qual|;
    var p := e + |name| + 1;
    var seg := qual + name + ";";
    assert text == pre + "import " + seg + rest;
    assert NoLineTerminator(seg) by {
      forall k | 0 <= k < |seg| ensures !IsLineTerminator(seg[k]) {
        if k < |qual| {
          assert seg[k] == qual[k];
        } else if k < |qual| + |name| {
          assert seg[k] == name[k - |qual|];
        }
      }
    }
    assert text[a..a + 7] == "import ";
    assert text[a + 7..p] == seg;
    assert text[e..p] == name + ";";
    assert text[a + 7..e + |name|] == qual + name;
    assert |text| == p + |rest|;
    assert rest != [] ==> text[p] == rest[0];
    ImportedClassAt(text, name, a, e);
  }

  /**
   * An import at `a` whose `NAME;` at `e` is followed by a line break or the end of
   * the text, with no import of NAME starting earlier, gives the group between them.
   */
  lemma ImportedClassAt(text: string, name: string, a: nat, e: nat)
    requires OccursAt(text, "import ", a) && a + 7 <= e && OccursAt(text, name + ";", e)
    requires NoLineTerminator(name) && NoLineTerminator(text[a + 7..e + |name| + 1])
    requires e + |name| + 1 == |text| || IsLineTerminator(text[e + |name| + 1])
    requires forall i: nat, j: nat :: i < a ==> !Span(text, "import ", name + ";", i, j)
    ensures ImportedClassName(text, name) == text[a + 7..e + |name|]
  {
    var p := e + |name| + 1;
    WithinLine(text, a + 7, p);
    if p < |text| {
      WithinLine(text, a + 7, p + 1);
      assert text[a + 7..p + 1][p - a - 7] == text[p];
    }
    assert LineEnd(text, a + 7) == p;
    assert Span(text, "import ", name + ";", a, e);
    NoLaterClose(text, name, e);
    assert FirstSpanFrom(text, "import ", name + ";", 0, a, e);
    ImportedClassNameIsFirst(text, name);
  }

  /**
   * After `NAME;` at `e` and then a line break or the end of the text, no other
   * `NAME;` starts later on that line.
   */
  lemma NoLaterClose(text: string, name: string, e: nat)
    requires OccursAt(text, name + ";", e) && NoLineTerminator(name)
    requires e + |name| + 1 == |text| || IsLineTerminator(text[e + |name| + 1])
    ensures forall j: nat :: e < j <= e + |name| + 1 ==> !OccursAt(text, name + ";", j)
  {
  }

  /** The capture group of an import span ends with the name, and the span reads "import GROUP;". */
  lemma ImportGroupShape(text: string, name: string, i: nat, j: nat)
    requires Span(text, "import ", name + ";", i, j)
    ensures EndsWith(text[i + 7..j + |name|], name)
    ensures OccursAt(text, "import " + text[i + 7..j + |name|] + ";", i)
  {
    OccursSplit(text, name, ";", j);
    SliceTail(text, i + 7, j, j + |name|);
    SliceThree(text, i, i + 7, j + |name|, j + |name| + 1);
  }

  /** An occurrence of `a + b` is an occurrence of `a` followed by one of `b`. */
  lemma OccursSplit(s: string, a: string, b: string, j: nat)
    requires OccursAt(s, a + b, j)
    ensures OccursAt(s, a, j) && OccursAt(s, b, j + |a|)
  {
    assert s[j..j + |a|] == (a + b)[..|a|];
    assert s[j + |a|..j + |a| + |b|] == (a + b)[|a|..];
  }

  /** The tail of a slice is a slice. */
  lemma SliceTail(s: string, lo: nat, k: nat, hi: nat)
    requires lo <= k <= hi <= |s|
    ensures s[lo..hi][k - lo..] == s[k..hi]
  {
  }

  /** A slice is the concatenation of three adjacent slices. */
  lemma SliceThree(s: string, i: nat, p: nat, q: nat, r: nat)
    requires i <= p <= q <= r <= |s|
    ensures s[i..r] == s[i..p] + s[p..q] + s[q..r]
  {
  }

  /**
   * `inferClassName`: the imported class name if an import matches, otherwise the
   * current package plus the name for a simple name, otherwise the name unchanged.
   */
  function InferClassName(text: string, classSimpleName: string): (r: string)
    ensures ImportedClassName(text, classSimpleName) != "" ==> r == ImportedClassName(text, classSimpleName)
    ensures ImportedClassName(text, classSimpleName) == "" && '.' !in classSimpleName ==>
      r == PackageName(text) + "." + classSimpleName
    ensures ImportedClassName(text, classSimpleName) == "" && '.' in classSimpleName ==> r == classSimpleName
    ensures EndsWith(r, classSimpleName)
  {
    var imported := ImportedClassName(text, classSimpleName);
    if imported != "" then imported
    else if '.' !in classSimpleName then
      var r := PackageName(text) + "." + classSimpleName;
      assert r[|r| - |classSimpleName|..] == classSimpleName;
      r
    else
      assert classSimpleName[0..|classSimpleName|] == classSimpleName;
      classSimpleName
  }

  /** The regex class `[^\s-]`. */
  predicate IsNameChar(c: char) {
    !IsSpace(c) && c != '-'
  }

  /** The longest suffix of `line` made of name characters. */
  function TrailingName(line: string): (r: string)
    ensures EndsWith(line, r)
    ensures forall k :: 0 <= k < |r| ==> IsNameChar(r[k])
    ensures |r| < |line| ==> !IsNameChar(line[|line| - |r| - 1])
  {
    if line == [] || !IsNameChar(line[|line| - 1]) then
      ""
    else
      var init := line[..|line| - 1];
      var r := TrailingName(init) + [line[|line| - 1]];
      assert line[|line| - |r|..] == init[|init| - |r| + 1..] + [line[|line| - 1]];
      r
  }

  /** The match array of `/[^\s-]+$/`. */
  function FullNameMatch(line: string): (m: Option<seq<string>>)
    ensures m.Some? ==> |m.value| == 1
  {
    var run := TrailingName(line);
    if run == "" then None else Some([run])
  }

  /**
   * `getFullName`: the maximal trailing run of characters that are neither whitespace
   * nor `-` in the line up to the cursor; "" when the line ends in one of those.
   */
  function FullName(line: string): (r: string)
    ensures EndsWith(line, r)
    ensures forall k :: 0 <= k < |r| ==> IsNameChar(r[k])
    ensures |r| < |line| ==> !IsNameChar(line[|line| - |r| - 1])
    ensures line != [] && !IsNameChar(line[|line| - 1]) ==> r == ""
  {
    LastMatch(FullNameMatch(line))
  }

  /** A full name has no whitespace, hence no line terminator. */
  lemma FullNameOneLine(line: string)
    ensures NoSpace(FullName(line)) && NoLineTerminator(FullName(line))
  {
  }

  /** `.*\.` from `from`: a dot lies in the rest of the line that contains `from`. */
  function DotInLine(s: string, from: nat): (b: bool)
    requires from <= |s|
    ensures b <==> exists j: nat :: from <= j < |s| && s[j] == '.' && NoLineTerminator(s[from..j])
    decreases |s| - from
  {
    if from == |s| then false
    else if s[from] == '.' then
      assert NoLineTerminator(s[from..from]);
      true
    else if IsLineTerminator(s[from]) then
      assert forall j: nat :: from < j < |s| ==> s[from..j][0] == s[from];
      false
    else
      var b := DotInLine(s, from + 1);
      if b then
        var j: nat :| from + 1 <= j < |s| && s[j] == '.' && NoLineTerminator(s[from + 1..j]);
        assert s[from..j] == [s[from]] + s[from + 1..j];
        b
      else
        assert forall j: nat :: from < j <= |s| ==> s[from + 1..j] == s[from..j][1..];
        b
  }

  /** `/\.[A-Z].*\./` searched from `i`. */
  function UpperSegmentFrom(s: string, i: nat): (b: bool)
    ensures b <==> exists k: nat :: i <= k && k + 2 <= |s| && s[k] == '.' && IsUpper(s[k + 1]) && DotInLine(s, k + 2)
    decreases |s| - i
  {
    if i + 2 > |s| then false
    else (s[i] == '.' && IsUpper(s[i + 1]) && DotInLine(s, i + 2)) || UpperSegmentFrom(s, i + 1)
  }

  /**
   * `isClassMemberName`: truthy iff the name starts with an upper-case letter and has
   * a dot later on its first line, or has a dot, an upper-case letter and, later on
   * the same line, another dot.
   */
  function IsClassMemberName(name: string): (b: bool)
    ensures b <==>
      || (|name| > 0 && IsUpper(name[0]) &&
          exists j: nat :: 1 <= j < |name| && name[j] == '.' && NoLineTerminator(name[1..j]))
      || (exists i: nat, j: nat ::
            i + 2 <= j < |name| && name[i] == '.' && IsUpper(name[i + 1]) &&
            name[j] == '.' && NoLineTerminator(name[i + 2..j]))
  {
    (|name| > 0 && IsUpper(name[0]) && DotInLine(name, 1)) || UpperSegmentFrom(name, 0)
  }

  /** A member name always has a dot, so `lastIndexOf('.')` finds one. */
  lemma MemberNameHasDot(name: string)
    requires IsClassMemberName(name)
    ensures LastIndexOfChar(name, '.') >= 0
  {
  }
}
