/**
 * The Java-name helpers of atomJavaUtil.js, the Atom-side twin of javaUtil.js.
 * The editor is reduced to the strings it is asked for: the buffer text, the
 * line up to the cursor, and the outcome of the variable-declaration search over
 * the ten lines above the cursor.
 */
module AtomJavaUtil {
  import opened Wrappers
  import opened JsStrings
  import JavaUtil

  /** `[^\.\)]*$` from position `from`: no dot and no closing parenthesis up to the end. */
  predicate NoDotOrParenFrom(t: string, from: nat) {
    forall k :: from <= k < |t| ==> t[k] != '.' && t[k] != ')'
  }

  /**
   * `_isValidClassName`: `/^[A-Z][^\.\)]*$/` or `/\.[A-Z][^\.\)]*$/` matches. Both
   * character classes are negated, so they match line terminators too.
   */
  predicate IsValidClassName(t: string) {
    || (|t| > 0 && IsUpper(t[0]) && NoDotOrParenFrom(t, 1))
    || (exists i :: 0 <= i && i + 1 < |t| && t[i] == '.' && IsUpper(t[i + 1]) && NoDotOrParenFrom(t, i + 2))
  }

  /**
   * A valid class name is one whose last `.`-separated segment (the whole text when
   * it has no dot) is non-empty, starts with an upper-case letter and has no `)`.
   */
  lemma ValidClassNameIff(t: string)
    ensures IsValidClassName(t) <==>
      var seg := JavaUtil.SimpleName(t);
      |seg| > 0 && IsUpper(seg[0]) && ')' !in seg
  {
    var seg := JavaUtil.SimpleName(t);
    var d := |t| - |seg|;
    assert seg == t[d..];
    if d == 0 {
      ValidWithoutDot(t);
    } else {
      ValidAfterLastDot(t, d);
    }
  }

  /** Without a dot, only the first regex can match, and it reads the whole text. */
  lemma ValidWithoutDot(t: string)
    requires '.' !in t
    ensures IsValidClassName(t) <==> |t| > 0 && IsUpper(t[0]) && ')' !in t
  {
  }

  /** With the last dot at `d - 1`, only the second regex can match, and it must start at that dot. */
  lemma ValidAfterLastDot(t: string, d: nat)
    requires 0 < d <= |t| && t[d - 1] == '.' && '.' !in t[d..]
    ensures IsValidClassName(t) <==> d < |t| && IsUpper(t[d]) && ')' !in t[d..]
  {
    var seg := t[d..];
    assert forall k :: d <= k < |t| ==> t[k] == seg[k - d];
    if exists i :: 0 <= i && i + 1 < |t| && t[i] == '.' && IsUpper(t[i + 1]) && NoDotOrParenFrom(t, i + 2) {
      var i :| 0 <= i && i + 1 < |t| && t[i] == '.' && IsUpper(t[i + 1]) && NoDotOrParenFrom(t, i + 2);
      assert d - 1 <= i;
      assert i < d;
    }
    if d < |t| && IsUpper(t[d]) && ')' !in seg {
      assert t[d - 1] == '.' && IsUpper(t[d]) && NoDotOrParenFrom(t, d + 1);
    }
  }

  /**
   * `getPossibleClassNames`: the imported class if an import matches; otherwise, for
   * a prefix without a dot, the name in the current package and in `java.lang`;
   * otherwise the prefix itself.
   */
  function PossibleClassNames(text: string, classSimpleName: string, prefix: string): (r: seq<string>)
    ensures 1 <= |r| <= 2
    ensures JavaUtil.ImportedClassName(text, classSimpleName) != "" ==>
      r == [JavaUtil.ImportedClassName(text, classSimpleName)]
    ensures JavaUtil.ImportedClassName(text, classSimpleName) == "" && '.' !in prefix ==>
      r == [JavaUtil.PackageName(text) + "." + classSimpleName, "java.lang." + classSimpleName]
    ensures JavaUtil.ImportedClassName(text, classSimpleName) == "" && '.' in prefix ==> r == [prefix]
    ensures |r| == 2 <==> JavaUtil.ImportedClassName(text, classSimpleName) == "" && '.' !in prefix
  {
    var className := JavaUtil.ImportedClassName(text, classSimpleName);
    if className != "" then [className]
    else if (NoDotIndex(prefix); IndexOf(prefix, ".").None?) then
      [JavaUtil.PackageName(text) + "." + classSimpleName, "java.lang." + classSimpleName]
    else [prefix]
  }

  /** `.indexOf('.') === -1` is the same as having no dot. */
  lemma NoDotIndex(s: string)
    ensures IndexOf(s, ".").None? <==> '.' !in s
  {
    if '.' in s {
      var j :| 0 <= j < |s| && s[j] == '.';
      assert OccursAt(s, ".", j);
    }
    if IndexOf(s, ".").Some? {
      var j := IndexOf(s, ".").value;
      assert s[j..j + 1][0] == s[j];
    }
  }

  /**
   * `getWord`: the trailing word of the line up to the cursor (the same regex as
   * `getFullName`), with `/.*\(/` cut out when `removeParenthesis` is set.
   */
  function GetWord(line: string, removeParenthesis: bool): (r: string)
    ensures !removeParenthesis ==> r == JavaUtil.FullName(line)
    ensures removeParenthesis ==>
      var w := JavaUtil.FullName(line);
      r == w[LastIndexOfChar(w, '(') + 1..]
    ensures removeParenthesis ==> '(' !in r
    ensures EndsWith(line, r)
  {
    var w := JavaUtil.FullName(line);
    if removeParenthesis then
      JavaUtil.FullNameOneLine(line);
      CutParenSuffix(line, w);
      CutSpan(w, "", "(")
    else w
  }

  /** Cutting `/.*\(/` out of a one-line suffix leaves the `(`-free text after its last `(`, still a suffix. */
  lemma CutParenSuffix(line: string, w: string)
    requires EndsWith(line, w) && NoLineTerminator(w)
    ensures CutSpan(w, "", "(") == w[LastIndexOfChar(w, '(') + 1..]
    ensures '(' !in CutSpan(w, "", "(")
    ensures EndsWith(line, CutSpan(w, "", "("))
  {
    var q := LastIndexOfChar(w, '(');
    ParenCutOneLine(w);
    SuffixOfSuffix(line, w, q + 1);
    JavaUtil.TailAfterLast(w, '(', q);
  }

  lemma SuffixOfSuffix(s: string, w: string, k: nat)
    requires EndsWith(s, w) && k <= |w|
    ensures EndsWith(s, w[k..])
  {
    assert s[|s| - |w|..][k..] == s[|s| - |w[k..]|..];
  }

  /** On a single line, `/.*\(/` matches from the start through the last parenthesis. */
  lemma ParenCutOneLine(s: string)
    requires NoLineTerminator(s)
    ensures CutSpan(s, "", "(") == s[LastIndexOfChar(s, '(') + 1..]
  {
    var q := LastIndexOfChar(s, '(');
    if q < 0 {
      NoParenNoSpan(s);
      assert s[q + 1..] == s;
    } else {
      FirstParenSpan(s, q);
      assert s[..0] + s[q + 1..] == s[q + 1..];
    }
  }

  lemma FirstParenSpan(s: string, q: nat)
    requires NoLineTerminator(s) && q < |s| && s[q] == '('
    requires forall j :: q < j < |s| ==> s[j] != '('
    ensures FirstSpan(s, "", "(") == Some((0, q))
  {
    ParenSpan(s, q);
    var r := FirstSpan(s, "", "(");
    assert r.value.0 == 0;
    ParenAt(s, r.value.1);
  }

  lemma NoParenNoSpan(s: string)
    requires LastIndexOfChar(s, '(') < 0
    ensures FirstSpan(s, "", "(").None?
  {
    var r := FirstSpan(s, "", "(");
    if r.Some? {
      ParenAt(s, r.value.1);
    }
  }

  lemma ParenAt(s: string, j: nat)
    requires OccursAt(s, "(", j)
    ensures s[j] == '('
  {
    assert s[j..j + 1][0] == s[j];
  }

  lemma ParenSpan(s: string, q: nat)
    requires NoLineTerminator(s) && q < |s| && s[q] == '('
    ensures Span(s, "", "(", 0, q)
  {
    assert s[q..q + 1] == "(";
    assert s[0..0] == "";
  }

  /** `/\<.*\>/` on a generic type: `List<String>` loses its type arguments. */
  lemma GenericCut(base: string, args: string)
    requires '<' !in base && NoLineTerminator(args)
    ensures CutSpan(base + "<" + args + ">", "<", ">") == base
  {
    var s := base + "<" + args + ">";
    assert s[|base|..|base| + 1] == "<";
    assert s[|s| - 1..] == ">";
    assert s[|base| + 1..|s| - 1] == args;
    assert Span(s, "<", ">", |base|, |s| - 1);
    var r := FirstSpan(s, "<", ">");
    var i := r.value.0;
    assert forall k :: 0 <= k < |base| ==> s[k] == base[k];
    assert s[i..i + 1][0] == s[i];
    assert i == |base|;
    assert s[..|base|] == base;
  }

  /** The outcome of `determineClassName`: the candidate classes, or `{}` after an exception. */
  datatype ClassStat = ClassStat(classNames: seq<string>, isInstance: bool) | Failed

  /**
   * The first guess at the class name: with the `((ClassName)var)` syntax in the
   * word, the prefix up to its first `)`; otherwise the prefix.
   */
  function PrefixClassName(line: string, prefix: string): (r: string)
    ensures Contains(GetWord(line, false), "((") ==> StartsWith(prefix, r) && ')' !in r
    ensures Contains(GetWord(line, false), "((") && |r| < |prefix| ==> prefix[|r|] == ')'
    ensures !Contains(GetWord(line, false), "((") ==> r == prefix
  {
    if Contains(GetWord(line, false), "((") then prefix[..ParenFree(prefix)] else prefix
  }

  /** The regex `[^\)]*` always matches at the start: the length of the leading run without `)`. */
  function ParenFree(s: string): (n: nat)
    ensures n <= |s| && ')' !in s[..n]
    ensures n < |s| ==> s[n] == ')'
  {
    if s == [] || s[0] == ')' then 0
    else
      var n := ParenFree(s[1..]) + 1;
      assert s[..n] == [s[0]] + s[1..][..n - 1];
      n
  }

  /** The variable-declaration search runs when the first guess is invalid and the prefix has no `.` or `)`. */
  predicate LooksUpVariable(line: string, prefix: string) {
    !IsValidClassName(PrefixClassName(line, prefix)) && '.' !in prefix && ')' !in prefix
  }

  /**
   * `determineClassName`. `varLookup` is what `_lastMatch` gives for the declaration
   * regex built from the prefix over the ten lines above the cursor (the type of the
   * declared variable, or ""), and `None` when that regex cannot be built and the
   * exception is caught.
   */
  function DetermineClassName(text: string, line: string, prefix: string, varLookup: Option<string>, prevReturnType: string): (r: ClassStat)
    ensures r.Failed? <==> LooksUpVariable(line, prefix) && varLookup.None?
    ensures r.ClassStat? ==> 1 <= |r.classNames| <= 2
    ensures r.ClassStat? && EndsWith(prefix, ")") ==> r.isInstance
    ensures r.ClassStat? && LooksUpVariable(line, prefix) ==> r.isInstance
    ensures r.ClassStat? && !LooksUpVariable(line, prefix) && IsValidClassName(PrefixClassName(line, prefix)) ==>
      r == ClassStat(PossibleClassNames(text, PrefixClassName(line, prefix), prefix), EndsWith(prefix, ")"))
    ensures r.ClassStat? && LooksUpVariable(line, prefix) && IsValidClassName(CutSpan(varLookup.value, "<", ">")) ==>
      r.classNames == PossibleClassNames(text, CutSpan(varLookup.value, "<", ">"), prefix)
    ensures !LooksUpVariable(line, prefix) && !IsValidClassName(PrefixClassName(line, prefix)) ==>
      r == ClassStat([prevReturnType], true)
    ensures r.ClassStat? && LooksUpVariable(line, prefix) && !IsValidClassName(CutSpan(varLookup.value, "<", ">")) ==>
      r == ClassStat([prevReturnType], true)
  {
    var isInstance := EndsWith(prefix, ")");
    var classSimpleName := PrefixClassName(line, prefix);
    if !IsValidClassName(classSimpleName) && '.' !in prefix && ')' !in prefix then
      match varLookup
      case None => Failed
      case Some(declared) =>
        Resolve(text, CutSpan(declared, "<", ">"), prefix, true, prevReturnType)
    else
      Resolve(text, classSimpleName, prefix, isInstance, prevReturnType)
  }

  /** The last step of `determineClassName`: candidate classes for a valid name, else the previous return type. */
  function Resolve(text: string, classSimpleName: string, prefix: string, isInstance: bool, prevReturnType: string): (r: ClassStat)
    ensures r.ClassStat? && 1 <= |r.classNames| <= 2
    ensures IsValidClassName(classSimpleName) ==>
      r == ClassStat(PossibleClassNames(text, classSimpleName, prefix), isInstance)
    ensures !IsValidClassName(classSimpleName) ==> r == ClassStat([prevReturnType], true)
  {
    if IsValidClassName(classSimpleName) then
      ClassStat(PossibleClassNames(text, classSimpleName, prefix), isInstance)
    else
      ClassStat([prevReturnType], true)
  }
}
