/**
 * The autocomplete-plus provider of AtomAutocompleteProvider.js: it looks completions
 * up in the class loader, turns each descriptor into a snippet, numbers repeated
 * snippets, and remembers the return type of an inserted member.
 *
 * The editor is given as an `Editor` value: the cursor's line up to the cursor, the
 * buffer text and the result of the variable-declaration search `determineClassName`
 * runs over the lines above the cursor.
 */
module AtomProvider {
  import opened Wrappers
  import opened JsStrings
  import opened Dictionaries
  import JavaUtil
  import AtomJavaUtil
  import Loader

  // ---------------------------------------------------------------------------
  // Member snippets (AtomAutocompleteProvider.js:85-98)
  // ---------------------------------------------------------------------------

  /** The tab stop `${k:param}` for the parameter at `index`; numbering starts at 2. */
  function Placeholder(index: nat, param: string): string {
    "${" + NatToString(index + 2) + ":" + param + "}"
  }

  /** `_.map(member.params, …)`: the tab stops of all parameters, in order. */
  function Placeholders(params: seq<string>): seq<string> {
    seq(|params|, i requires 0 <= i < |params| => Placeholder(i, params[i]))
  }

  /** `_.reduce(params, (result, param) => result + param + ', ', acc)`. */
  function Reduced(acc: string, params: seq<string>): string
    decreases |params|
  {
    if params == [] then acc else Reduced(acc + params[0] + ", ", params[1..])
  }

  /** `.replace(/, $/, ')')`: a final `, ` becomes `)`. */
  function CloseParams(s: string): string {
    if EndsWith(s, ", ") then s[..|s| - 2] + ")" else s
  }

  /** `_createMemberSnippet`. */
  function MemberSnippet(member: Loader.Member): string {
    match member.params
    case None => member.name
    case Some(ps) => CloseParams(Reduced(member.name + "(", Placeholders(ps)))
  }

  /** The parts joined by `, `. */
  function CommaJoin(parts: seq<string>): string
    decreases |parts|
  {
    if parts == [] then ""
    else if |parts| == 1 then parts[0]
    else parts[0] + ", " + CommaJoin(parts[1..])
  }

  /** Each part followed by `, `. */
  function CommaEach(parts: seq<string>): string
    decreases |parts|
  {
    if parts == [] then "" else parts[0] + ", " + CommaEach(parts[1..])
  }

  lemma {:induction false} ReducedIsCommaEach(acc: string, parts: seq<string>)
    ensures Reduced(acc, parts) == acc + CommaEach(parts)
    decreases |parts|
  {
    if parts != [] {
      ReducedIsCommaEach(acc + parts[0] + ", ", parts[1..]);
      assert acc + parts[0] + ", " + CommaEach(parts[1..]) == acc + (parts[0] + ", " + CommaEach(parts[1..]));
    }
  }

  lemma {:induction false} CommaEachIsJoin(parts: seq<string>)
    requires parts != []
    ensures CommaEach(parts) == CommaJoin(parts) + ", "
    decreases |parts|
  {
    if |parts| > 1 {
      CommaEachIsJoin(parts[1..]);
      assert parts[0] + ", " + (CommaJoin(parts[1..]) + ", ") == (parts[0] + ", " + CommaJoin(parts[1..])) + ", ";
    } else {
      assert CommaEach(parts[1..]) == "";
    }
  }

  lemma CloseOpenParen(s: string)
    requires |s| > 0 && s[|s| - 1] == '('
    ensures CloseParams(s) == s
  {
    if EndsWith(s, ", ") {
      assert s[|s| - 1] == s[|s| - 2..][1];
    }
  }

  lemma CloseAfterComma(s: string)
    ensures CloseParams(s + ", ") == s + ")"
  {
    var t := s + ", ";
    assert t[|t| - 2..] == ", ";
    assert t[..|t| - 2] == s;
  }

  /**
   * A property's snippet is the member name. A method's is the name, `(`, the tab
   * stops `${2:…}`, `${3:…}`, … of its parameters in order joined by `, `, and `)`;
   * a method without parameters leaves the parenthesis open.
   */
  lemma MemberSnippetShape(member: Loader.Member)
    ensures member.params.None? ==> MemberSnippet(member) == member.name
    ensures member.params == Some([]) ==> MemberSnippet(member) == member.name + "("
    ensures member.params.Some? && member.params.value != [] ==>
      MemberSnippet(member) == member.name + "(" + CommaJoin(Placeholders(member.params.value)) + ")"
  {
    if member.params.Some? {
      var ps := Placeholders(member.params.value);
      var head := member.name + "(";
      ReducedIsCommaEach(head, ps);
      if ps == [] {
        assert head + "" == head;
        CloseOpenParen(head);
      } else {
        CommaEachIsJoin(ps);
        assert head + (CommaJoin(ps) + ", ") == (head + CommaJoin(ps)) + ", ";
        CloseAfterComma(head + CommaJoin(ps));
      }
    }
  }

  // ---------------------------------------------------------------------------
  // Snippets (AtomAutocompleteProvider.js:72-83)
  // ---------------------------------------------------------------------------

  /** The `type` of a descriptor. */
  function TypeName(kind: Loader.Kind): string {
    match kind
    case ClassKind => "class"
    case MethodKind => "method"
    case PropertyKind => "property"
  }

  /** Whether `_createSnippet` writes the full class name rather than the simple name. */
  predicate UsesFullClassName(desc: Loader.Desc, line: string, prefix: string) {
    if TypeName(desc.kind) == "class" then StartsWith(line, "import") else IndexOf(prefix, ".").Some?
  }

  /** `_createSnippet`. */
  function Snippet(desc: Loader.Desc, line: string, prefix: string, addMemberClass: bool): string {
    var text := if UsesFullClassName(desc, line, prefix) then desc.className else desc.simpleName;
    match desc.member
    case None => text
    case Some(member) => (if addMemberClass then "${1:" + text + "}." else "") + MemberSnippet(member)
  }

  /**
   * The full class name is used exactly for a class on an `import` line, or for a
   * member when the prefix has a dot; a member's snippet carries the class tab stop
   * `${1:…}.` in front of the member snippet exactly when asked to.
   */
  lemma SnippetShape(desc: Loader.Desc, line: string, prefix: string, addMemberClass: bool)
    ensures UsesFullClassName(desc, line, prefix) <==>
      (desc.kind.ClassKind? && StartsWith(line, "import")) || (!desc.kind.ClassKind? && '.' in prefix)
    ensures var text := if UsesFullClassName(desc, line, prefix) then desc.className else desc.simpleName;
      && (desc.member.None? ==> Snippet(desc, line, prefix, addMemberClass) == text)
      && (desc.member.Some? && addMemberClass ==> Snippet(desc, line, prefix, addMemberClass) == "${1:" + text + "}." + MemberSnippet(desc.member.value))
      && (desc.member.Some? && !addMemberClass ==> Snippet(desc, line, prefix, addMemberClass) == MemberSnippet(desc.member.value))
  {
    ContainsChar(prefix, '.');
    assert TypeName(desc.kind) == "class" <==> desc.kind.ClassKind?;
    if desc.member.Some? && !addMemberClass {
      assert "" + MemberSnippet(desc.member.value) == MemberSnippet(desc.member.value);
    }
  }

  // ---------------------------------------------------------------------------
  // Numbering repeated snippets (AtomAutocompleteProvider.js:52-69)
  // ---------------------------------------------------------------------------

  /** How many times `x` occurs in `xs`. */
  function CountIn(xs: seq<string>, x: string): nat
    decreases |xs|
  {
    if xs == [] then 0
    else CountIn(xs[..|xs| - 1], x) + (if xs[|xs| - 1] == x then 1 else 0)
  }

  lemma CountInStep(xs: seq<string>, i: nat, x: string)
    requires i < |xs|
    ensures CountIn(xs[..i + 1], x) == CountIn(xs[..i], x) + (if xs[i] == x then 1 else 0)
  {
    Loader.PrefixStep(xs, i);
  }

  lemma {:induction false} CountInZero(xs: seq<string>, x: string)
    ensures CountIn(xs, x) == 0 <==> x !in xs
    decreases |xs|
  {
    if xs != [] {
      var init := xs[..|xs| - 1];
      CountInZero(init, x);
      assert xs == init + [xs[|xs| - 1]];
    }
  }

  /** The snippet text shown for the `counter`-th occurrence of `snippet`. */
  function Numbered(snippet: string, counter: nat): string {
    snippet + (if counter > 1 then " (" + NatToString(counter) + ")" else "")
  }

  /** A returned suggestion. */
  datatype Suggestion = Suggestion(snippet: string, replacementPrefix: string, leftLabel: string, typeName: string, desc: Loader.Desc)

  /** What a completion request has found out before the suggestions are built. */
  datatype Context = Context(line: string, text: string, prefix: string, suffix: string, isInstance: bool)

  /** The base snippets of all descriptors, in order. */
  function Snippets(descs: seq<Loader.Desc>, ctx: Context): seq<string> {
    seq(|descs|, i requires 0 <= i < |descs| => Snippet(descs[i], ctx.line, ctx.prefix, !ctx.isInstance))
  }

  /** The suggestion for one descriptor with base snippet `snippet`, the `counter`-th occurrence of that text. */
  function SuggestionOf(desc: Loader.Desc, snippet: string, ctx: Context, counter: nat): Suggestion {
    Suggestion(
      Numbered(snippet, counter),
      if ctx.isInstance then ctx.suffix else ctx.text,
      if desc.member.Some? then desc.member.value.returnType else desc.className,
      TypeName(desc.kind),
      desc)
  }

  /** The suggestions for `descs` with base snippets `snippets`, in order, each numbered by the occurrences of its snippet so far. */
  function NumberedSuggestions(descs: seq<Loader.Desc>, snippets: seq<string>, ctx: Context): (r: seq<Suggestion>)
    requires |snippets| == |descs|
    ensures |r| == |descs|
  {
    seq(|descs|, i requires 0 <= i < |descs| => SuggestionOf(descs[i], snippets[i], ctx, CountIn(snippets[..i], snippets[i]) + 1))
  }

  /** The suggestions `getSuggestions` returns for the results `descs`. */
  function Suggestions(descs: seq<Loader.Desc>, ctx: Context): (r: seq<Suggestion>)
    ensures |r| == |descs|
  {
    NumberedSuggestions(descs, Snippets(descs, ctx), ctx)
  }

  /**
   * The `i`-th suggestion keeps its descriptor, its type and the left label; it replaces
   * the suffix after an instance and the whole text otherwise; its snippet is the base
   * snippet for the first occurrence and the base snippet with ` (k)` for the `k`-th.
   */
  lemma SuggestionFields(descs: seq<Loader.Desc>, snippets: seq<string>, ctx: Context, i: nat)
    requires |snippets| == |descs| && i < |descs|
    ensures var s := NumberedSuggestions(descs, snippets, ctx)[i];
      var k := CountIn(snippets[..i], snippets[i]) + 1;
      && s.desc == descs[i]
      && s.typeName == TypeName(descs[i].kind)
      && s.replacementPrefix == (if ctx.isInstance then ctx.suffix else ctx.text)
      && s.leftLabel == (if descs[i].member.Some? then descs[i].member.value.returnType else descs[i].className)
      && (snippets[i] !in snippets[..i] ==> s.snippet == snippets[i])
      && (k > 1 ==> s.snippet == snippets[i] + " (" + NatToString(k) + ")")
  {
    var k := CountIn(snippets[..i], snippets[i]) + 1;
    assert NumberedSuggestions(descs, snippets, ctx)[i] == SuggestionOf(descs[i], snippets[i], ctx, k);
    CountInZero(snippets[..i], snippets[i]);
    NumberedShape(snippets[i], k);
  }

  /** A first occurrence shows the bare snippet, a later one the snippet with its count in parentheses. */
  lemma NumberedShape(snippet: string, counter: nat)
    ensures counter <= 1 ==> Numbered(snippet, counter) == snippet
    ensures counter > 1 ==> Numbered(snippet, counter) == snippet + " (" + NatToString(counter) + ")"
  {
    if counter <= 1 {
      assert Numbered(snippet, counter) == snippet + "";
    }
  }

  /** The counter object after the snippets `xs`: a count one above the occurrences for every snippet seen. */
  ghost predicate Counts(counter: map<string, nat>, xs: seq<string>) {
    && (forall s :: s in counter <==> s in xs)
    && (forall s :: s in counter ==> counter[s] == CountIn(xs, s) + 1)
  }

  /** One step of the counter: the value read is one above the earlier occurrences, and the object keeps counting. */
  lemma CountsStep(counter: map<string, nat>, xs: seq<string>, x: string)
    requires Counts(counter, xs)
    ensures var read := if x in counter then counter[x] else 1;
      && read == CountIn(xs, x) + 1
      && Counts(counter[x := read + 1], xs + [x])
  {
    CountInZero(xs, x);
    var read := if x in counter then counter[x] else 1;
    var after := counter[x := read + 1];
    assert (xs + [x])[..|xs|] == xs;
    forall s ensures s in after <==> s in xs + [x] {
    }
    forall s | s in after ensures after[s] == CountIn(xs + [x], s) + 1 {
      assert CountIn(xs + [x], s) == CountIn(xs, s) + (if x == s then 1 else 0);
    }
  }

  /** The suggestions built so far are the first ones of `NumberedSuggestions`. */
  ghost predicate Built(suggestions: seq<Suggestion>, descs: seq<Loader.Desc>, snippets: seq<string>, ctx: Context)
    requires |snippets| == |descs|
  {
    |suggestions| <= |descs| && forall j :: 0 <= j < |suggestions| ==> suggestions[j] == NumberedSuggestions(descs, snippets, ctx)[j]
  }

  lemma BuiltStep(suggestions: seq<Suggestion>, descs: seq<Loader.Desc>, snippets: seq<string>, ctx: Context, counter: nat)
    requires |snippets| == |descs| && |suggestions| < |descs|
    requires Built(suggestions, descs, snippets, ctx)
    requires counter == CountIn(snippets[..|suggestions|], snippets[|suggestions|]) + 1
    ensures Built(suggestions + [SuggestionOf(descs[|suggestions|], snippets[|suggestions|], ctx, counter)], descs, snippets, ctx)
  {
  }

  lemma BuiltAll(suggestions: seq<Suggestion>, descs: seq<Loader.Desc>, snippets: seq<string>, ctx: Context)
    requires |snippets| == |descs| && |suggestions| == |descs|
    requires Built(suggestions, descs, snippets, ctx)
    ensures suggestions == NumberedSuggestions(descs, snippets, ctx)
  {
  }

  lemma PrefixSnoc<T>(s: seq<T>, i: nat)
    requires i < |s|
    ensures s[..i + 1] == s[..i] + [s[i]]
  {
  }

  /** Later occurrences of a snippet get larger numbers. */
  lemma {:induction false} CountGrows(xs: seq<string>, i: nat, j: nat)
    requires i < j < |xs| && xs[i] == xs[j]
    ensures CountIn(xs[..i], xs[i]) < CountIn(xs[..j], xs[j])
    decreases j
  {
    CountInStep(xs, j - 1, xs[j]);
    if i < j - 1 {
      CountGrows'(xs, i, j - 1, xs[j]);
    }
  }

  lemma {:induction false} CountGrows'(xs: seq<string>, i: nat, j: nat, x: string)
    requires i < j < |xs| && xs[i] == x
    ensures CountIn(xs[..i], x) < CountIn(xs[..j], x)
    decreases j
  {
    CountInStep(xs, j - 1, x);
    if i < j - 1 {
      CountGrows'(xs, i, j - 1, x);
    }
  }

  lemma {:induction false} NatToStringLength(n: nat)
    ensures n >= 10 ==> |NatToString(n)| >= 2
  {
  }

  lemma DigitInjective(a: nat, b: nat)
    requires a < 10 && b < 10 && Digit(a) == Digit(b)
    ensures a == b
  {
  }

  /** Different numbers print differently. */
  lemma {:induction false} NatToStringInjective(a: nat, b: nat)
    requires NatToString(a) == NatToString(b)
    ensures a == b
    decreases a
  {
    NatToStringLength(a);
    NatToStringLength(b);
    if a >= 10 && b >= 10 {
      var sa := NatToString(a / 10);
      var sb := NatToString(b / 10);
      assert NatToString(a) == sa + [Digit(a % 10)];
      assert NatToString(b) == sb + [Digit(b % 10)];
      LastAndInit(sa, sb, Digit(a % 10), Digit(b % 10));
      DigitInjective(a % 10, b % 10);
      NatToStringInjective(a / 10, b / 10);
    } else if a < 10 && b < 10 {
      assert NatToString(a)[0] == Digit(a) && NatToString(b)[0] == Digit(b);
      DigitInjective(a, b);
    }
  }

  lemma LastAndInit(s: string, t: string, c: char, d: char)
    requires s + [c] == t + [d]
    ensures s == t && c == d
  {
    assert |s| == |t|;
    assert (s + [c])[|s|] == c && (t + [d])[|t|] == d;
    assert s == (s + [c])[..|s|];
    assert t == (t + [d])[..|t|];
  }

  /** Two numbered forms of one snippet with different numbers differ. */
  lemma NumberedDistinct(snippet: string, k: nat, l: nat)
    requires 1 <= k < l
    ensures Numbered(snippet, k) != Numbered(snippet, l)
  {
    var tail := " (" + NatToString(l) + ")";
    if k == 1 {
      assert |Numbered(snippet, l)| == |snippet| + |tail|;
    } else if Numbered(snippet, k) == Numbered(snippet, l) {
      var a := NatToString(k);
      var b := NatToString(l);
      var u := Numbered(snippet, k);
      assert u == snippet + " (" + a + ")" && u == snippet + " (" + b + ")";
      assert |a| == |b|;
      assert a == u[|snippet| + 2..|snippet| + 2 + |a|];
      assert b == u[|snippet| + 2..|snippet| + 2 + |b|];
      NatToStringInjective(k, l);
    }
  }

  /** The workaround's purpose: two descriptors with the same base snippet get different snippet texts. */
  lemma RepeatsDistinct(descs: seq<Loader.Desc>, snippets: seq<string>, ctx: Context, i: nat, j: nat)
    requires |snippets| == |descs| && i < j < |descs|
    requires snippets[i] == snippets[j]
    ensures NumberedSuggestions(descs, snippets, ctx)[i].snippet != NumberedSuggestions(descs, snippets, ctx)[j].snippet
  {
    CountGrows(snippets, i, j);
    NumberedDistinct(snippets[i], CountIn(snippets[..i], snippets[i]) + 1, CountIn(snippets[..j], snippets[j]) + 1);
  }

  // ---------------------------------------------------------------------------
  // The lookup (AtomAutocompleteProvider.js:27-50)
  // ---------------------------------------------------------------------------

  /** The editor at the cursor. */
  datatype Editor = Editor(line: string, buffer: string, varLookup: Option<string>)

  /** `text.substring(0, text.lastIndexOf('.'))`: the text before the last dot, or "" without one. */
  function TextPrefix(text: string): (r: string)
    ensures '.' in text ==> |r| < |text| && text[..|r|] == r && text[|r|] == '.' && '.' !in text[|r| + 1..]
    ensures '.' !in text ==> r == ""
  {
    var d := LastIndexOfChar(text, '.');
    if d < 0 then "" else text[..d]
  }

  /** `/^[A-Z]/.test(suffix) || prefix`. */
  predicate CouldBeClass(suffix: string, prefix: string) {
    (|suffix| > 0 && IsUpper(suffix[0])) || prefix != ""
  }

  /** The member search in the candidate classes, in order, stopping at the first that has matches: the results and the tries after. */
  function MemberSearch(tries: map<string, Trie<Loader.Desc>>, classNames: seq<string>, suffix: string): (Trie<Loader.Desc>, map<string, Trie<Loader.Desc>>)
    decreases |classNames|
  {
    if classNames == [] then (map[], tries)
    else
      var found := Matches(TrieOf(tries, classNames[0]), suffix);
      var after := Touched(tries, classNames[0]);
      if found != map[] then (found, after) else MemberSearch(after, classNames[1..], suffix)
  }

  /** The candidate classes and whether they are instances, when `determineClassName`'s result lacks them (an exception) none and `false`. */
  function CandidateClasses(stat: AtomJavaUtil.ClassStat): seq<string> {
    if stat.ClassStat? then stat.classNames else []
  }

  /** The outcome of the lookup part of `getSuggestions`: the results, the loader's tries after it, and `isInstance`. */
  datatype Found = Found(results: Trie<Loader.Desc>, tries: map<string, Trie<Loader.Desc>>, isInstance: bool)

  /** The word at the cursor, with any text up to a `(` removed. */
  function Word(editor: Editor): string {
    AtomJavaUtil.GetWord(editor.line, true)
  }

  /** `origPrefix.replace('.', '')`. */
  function Suffix(origPrefix: string): string {
    ReplaceFirst(origPrefix, ".", "")
  }

  function Stat(editor: Editor, prefix: string, prevReturnType: string): AtomJavaUtil.ClassStat {
    AtomJavaUtil.DetermineClassName(editor.buffer, editor.line, prefix, editor.varLookup, prevReturnType)
  }

  /** The lookup: the class search when the text could name a class, then the member search when that found nothing and there is a prefix. */
  function Lookup(tries: map<string, Trie<Loader.Desc>>, editor: Editor, origPrefix: string, prevReturnType: string): Found {
    var text := Word(editor);
    var prefix := TextPrefix(text);
    LookupWith(tries, text, prefix, Suffix(origPrefix), Stat(editor, prefix, prevReturnType))
  }

  /** The lookup for the word `text`, its `prefix` and `suffix`, with `stat` what `determineClassName` gives when it is asked. */
  function LookupWith(tries: map<string, Trie<Loader.Desc>>, text: string, prefix: string, suffix: string, stat: AtomJavaUtil.ClassStat): Found {
    var classResults := if CouldBeClass(suffix, prefix) then Matches(TrieOf(tries, "class"), text) else map[];
    var afterClass := if CouldBeClass(suffix, prefix) then Touched(tries, "class") else tries;
    if classResults == map[] && prefix != "" then
      var (results, after) := MemberSearch(afterClass, CandidateClasses(stat), suffix);
      Found(results, after, stat.ClassStat? && stat.isInstance)
    else Found(classResults, afterClass, false)
  }

  lemma TouchKeeps(tries: map<string, Trie<Loader.Desc>>, c: string, x: string)
    ensures TrieOf(Touched(tries, c), x) == TrieOf(tries, x)
  {
  }

  /** The member search returns the matches of the first candidate class that has any, and nothing when none has. */
  lemma {:induction false} MemberSearchFirst(tries: map<string, Trie<Loader.Desc>>, classNames: seq<string>, suffix: string, i: nat)
    requires i <= |classNames|
    requires forall j :: 0 <= j < i ==> Matches(TrieOf(tries, classNames[j]), suffix) == map[]
    requires i < |classNames| ==> Matches(TrieOf(tries, classNames[i]), suffix) != map[]
    ensures MemberSearch(tries, classNames, suffix).0 == if i < |classNames| then Matches(TrieOf(tries, classNames[i]), suffix) else map[]
    decreases |classNames|
  {
    if classNames != [] && i > 0 {
      var after := Touched(tries, classNames[0]);
      forall j | 0 <= j < i - 1 ensures Matches(TrieOf(after, classNames[1..][j]), suffix) == map[] {
        TouchKeeps(tries, classNames[0], classNames[j + 1]);
      }
      if i < |classNames| {
        TouchKeeps(tries, classNames[0], classNames[i]);
      }
      MemberSearchFirst(after, classNames[1..], suffix, i - 1);
    }
  }

  /** The member search only ever creates empty tries: no category's entries change. */
  lemma {:induction false} MemberSearchKeeps(tries: map<string, Trie<Loader.Desc>>, classNames: seq<string>, suffix: string, x: string)
    ensures TrieOf(MemberSearch(tries, classNames, suffix).1, x) == TrieOf(tries, x)
    decreases |classNames|
  {
    if classNames != [] {
      TouchKeeps(tries, classNames[0], x);
      MemberSearchKeeps(Touched(tries, classNames[0]), classNames[1..], suffix, x);
    }
  }

  /**
   * The lookup order: the classes matching the text when the suffix starts with an
   * uppercase letter or there is a prefix; otherwise, or when that finds nothing, the
   * members of the first candidate class that has any matching the suffix, which needs
   * a prefix; the lookups leave every category's entries as they were.
   */
  lemma LookupOrder(tries: map<string, Trie<Loader.Desc>>, text: string, prefix: string, suffix: string, stat: AtomJavaUtil.ClassStat, x: string)
    ensures var f := LookupWith(tries, text, prefix, suffix, stat);
      && TrieOf(f.tries, x) == TrieOf(tries, x)
      && (CouldBeClass(suffix, prefix) && Matches(TrieOf(tries, "class"), text) != map[] ==>
            f == Found(Matches(TrieOf(tries, "class"), text), Touched(tries, "class"), false))
      && (prefix == "" && !CouldBeClass(suffix, prefix) ==> f == Found(map[], tries, false))
      && (f.results != map[] && f.results != Matches(TrieOf(tries, "class"), text) ==>
            prefix != "" && exists c :: c in CandidateClasses(stat) && f.results == Matches(TrieOf(tries, c), suffix))
  {
    var afterClass := if CouldBeClass(suffix, prefix) then Touched(tries, "class") else tries;
    TouchKeeps(tries, "class", x);
    var names := CandidateClasses(stat);
    MemberSearchKeeps(afterClass, names, suffix, x);
    var f := LookupWith(tries, text, prefix, suffix, stat);
    if f.results != map[] && f.results != Matches(TrieOf(tries, "class"), text) {
      var i := FirstFound(afterClass, names, suffix);
      MemberSearchFirst(afterClass, names, suffix, i);
      TouchKeeps(tries, "class", names[i]);
    }
  }

  /** The index of the first candidate class with matches, or the number of candidates. */
  function FirstFound(tries: map<string, Trie<Loader.Desc>>, classNames: seq<string>, suffix: string): (i: nat)
    ensures i <= |classNames|
    ensures forall j :: 0 <= j < i ==> Matches(TrieOf(tries, classNames[j]), suffix) == map[]
    ensures i < |classNames| ==> Matches(TrieOf(tries, classNames[i]), suffix) != map[]
    decreases |classNames|
  {
    if classNames == [] then 0
    else if Matches(TrieOf(tries, classNames[0]), suffix) != map[] then 0
    else
      var k := FirstFound(tries, classNames[1..], suffix) + 1;
      assert forall j :: 1 <= j < k ==> classNames[j] == classNames[1..][j - 1];
      k
  }

  lemma SuffixStep<T>(s: seq<T>, i: nat)
    requires i < |s|
    ensures s[i..] != [] && s[i..][0] == s[i] && s[i..][1..] == s[i + 1..]
  {
  }

  class AtomAutocompleteProvider {
    const classLoader: Loader.JavaClassLoader
    /** The return type of the last inserted member snippet; before any, the name `undefined` a missing field has as an object key. */
    var prevReturnType: string

    constructor (classLoader: Loader.JavaClassLoader)
      ensures this.classLoader == classLoader && prevReturnType == "undefined"
    {
      this.classLoader := classLoader;
      prevReturnType := "undefined";
    }

    /** The lookup part of `getSuggestions`, with `determineClassName`'s answer `stat`, which is only used when the member search runs. */
    method FindWith(text: string, prefix: string, suffix: string, stat: AtomJavaUtil.ClassStat) returns (results: Trie<Loader.Desc>, isInstance: bool)
      modifies classLoader.dict
      ensures var f := LookupWith(old(classLoader.dict.tries), text, prefix, suffix, stat);
        results == f.results && classLoader.dict.tries == f.tries && isInstance == f.isInstance
    {
      var couldBeClass := CouldBeClass(suffix, prefix);
      isInstance := false;
      results := map[];
      if couldBeClass {
        results := classLoader.FindClass(text);
      }
      if results == map[] && prefix != "" {
        isInstance := stat.ClassStat? && stat.isInstance;
        results := FindMember(CandidateClasses(stat), suffix);
      }
    }

    /** The `_.each` over the candidate classes: each is searched while nothing has been found. */
    method FindMember(classNames: seq<string>, suffix: string) returns (results: Trie<Loader.Desc>)
      modifies classLoader.dict
      ensures (results, classLoader.dict.tries) == MemberSearch(old(classLoader.dict.tries), classNames, suffix)
    {
      ghost var goal := MemberSearch(classLoader.dict.tries, classNames, suffix);
      results := map[];
      var i := 0;
      while i < |classNames|
        invariant 0 <= i <= |classNames|
        invariant results == map[] ==> goal == MemberSearch(classLoader.dict.tries, classNames[i..], suffix)
        invariant results != map[] ==> goal == (results, classLoader.dict.tries)
      {
        SuffixStep(classNames, i);
        if results == map[] {
          results := classLoader.FindClassMember(classNames[i], suffix);
        }
        i := i + 1;
      }
      assert classNames[i..] == [];
    }

    /** The suggestions built from the results, numbering repeated snippets with a counter per snippet. */
    method Suggest(descs: seq<Loader.Desc>, ctx: Context) returns (suggestions: seq<Suggestion>)
      ensures suggestions == Suggestions(descs, ctx)
    {
      suggestions := NumberSnippets(descs, Snippets(descs, ctx), ctx);
    }

    /** The loop of `getSuggestions` over the results and their base snippets. */
    method NumberSnippets(descs: seq<Loader.Desc>, snippets: seq<string>, ctx: Context) returns (suggestions: seq<Suggestion>)
      requires |snippets| == |descs|
      ensures suggestions == NumberedSuggestions(descs, snippets, ctx)
    {
      var duplicateWorkaround: map<string, nat> := map[];
      suggestions := [];
      var i := 0;
      while i < |descs|
        invariant 0 <= i <= |descs|
        invariant |suggestions| == i
        invariant Built(suggestions, descs, snippets, ctx)
        invariant Counts(duplicateWorkaround, snippets[..i])
      {
        var desc := descs[i];
        var snippet := snippets[i];
        ghost var before := duplicateWorkaround;
        if snippet !in duplicateWorkaround {
          duplicateWorkaround := duplicateWorkaround[snippet := 1];
        }
        var counter := duplicateWorkaround[snippet];
        duplicateWorkaround := duplicateWorkaround[snippet := counter + 1];
        CountsStep(before, snippets[..i], snippet);
        BuiltStep(suggestions, descs, snippets, ctx, counter);
        suggestions := suggestions + [SuggestionOf(desc, snippet, ctx, counter)];
        PrefixSnoc(snippets, i);
        i := i + 1;
      }
      BuiltAll(suggestions, descs, snippets, ctx);
    }

    /**
     * `getSuggestions`: the lookup, then one suggestion per result in the order
     * `listing` gives the trie's matches in.
     */
    method GetSuggestions(editor: Editor, origPrefix: string, listing: Trie<Loader.Desc> -> seq<Loader.Desc>) returns (suggestions: seq<Suggestion>)
      modifies classLoader.dict
      ensures classLoader.dict.tries == Lookup(old(classLoader.dict.tries), editor, origPrefix, old(prevReturnType)).tries
      ensures var f := Lookup(old(classLoader.dict.tries), editor, origPrefix, old(prevReturnType));
        suggestions == Suggestions(listing(f.results), Context(editor.line, Word(editor), TextPrefix(Word(editor)), Suffix(origPrefix), f.isInstance))
    {
      var line := editor.line;
      var text := Word(editor);
      var prefix := TextPrefix(text);
      var suffix := Suffix(origPrefix);
      var results, isInstance := FindWith(text, prefix, suffix, Stat(editor, prefix, prevReturnType));
      suggestions := Suggest(listing(results), Context(line, text, prefix, suffix, isInstance));
    }

    /**
     * `onDidInsertSuggestion`: a class inserted by its simple name (a snippet without a
     * dot) is to be imported, and the result names it; an inserted member remembers
     * its return type for the next lookup.
     */
    method OnDidInsertSuggestion(suggestion: Suggestion) returns (importName: Option<string>)
      modifies this
      ensures importName == if suggestion.typeName == "class" && '.' !in suggestion.snippet then Some(suggestion.desc.className) else None
      ensures prevReturnType == if suggestion.typeName != "class" && suggestion.desc.member.Some? then suggestion.desc.member.value.returnType else old(prevReturnType)
    {
      importName := None;
      if suggestion.typeName == "class" {
        ContainsChar(suggestion.snippet, '.');
        if !Contains(suggestion.snippet, ".") {
          importName := Some(suggestion.desc.className);
        }
      } else if suggestion.desc.member.Some? {
        prevReturnType := suggestion.desc.member.value.returnType;
      }
    }
  }

  /** Numbering adds no dot. */
  lemma NumberedDots(snippet: string, counter: nat)
    ensures '.' in Numbered(snippet, counter) <==> '.' in snippet
  {
    if counter > 1 {
      var n := NatToString(counter);
      assert '.' !in n;
      assert Numbered(snippet, counter) == snippet + (" (" + n + ")");
    }
  }

  /**
   * A loaded class suggested outside an `import` line shows its simple name and is
   * imported on insertion; on an `import` line it shows its full name, and a class
   * in a package is then not imported again.
   */
  lemma ClassImportOnInsert(className: string, lastUsed: int, ctx: Context, counter: nat)
    requires '.' in className
    ensures var desc := Loader.ClassDesc(className, lastUsed);
      var s := SuggestionOf(desc, Snippet(desc, ctx.line, ctx.prefix, !ctx.isInstance), ctx, counter);
      s.typeName == "class" && ('.' !in s.snippet <==> !StartsWith(ctx.line, "import"))
  {
    var desc := Loader.ClassDesc(className, lastUsed);
    var base := Snippet(desc, ctx.line, ctx.prefix, !ctx.isInstance);
    assert base == if StartsWith(ctx.line, "import") then className else JavaUtil.SimpleName(className);
    NumberedDots(base, counter);
  }
}
