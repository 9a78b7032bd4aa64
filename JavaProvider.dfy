/**
 * The older provider of JavaAutocompleteProvider.js: it fills its own category
 * dictionary from the classpath reader and answers completion requests from it.
 *
 * The project root directory, the `.classpath` file reader and the shell are given
 * as a `Project` value; `getInverseName` is a given function. The import insertion
 * of `onDidInsertSuggestion` edits the editor buffer and is not modelled.
 */
module JavaProvider {
  import opened Wrappers
  import opened JsStrings
  import opened Dictionaries
  import JavaUtil
  import Reader
  import Loader

  /**
   * What `_addClassDescription` stores: a class entry (`text`, an optional
   * `leftLabel`, `className`; type 'class'), or a member entry (`snippet`, type
   * 'method' when `isMethod` and 'property' otherwise, `leftLabel`).
   */
  datatype Entry =
    | ClassEntry(text: string, classLabel: Option<string>, className: string)
    | MemberEntry(snippet: string, isMethod: bool, leftLabel: string)

  /** The `type` field of an entry. */
  function TypeOf(e: Entry): string {
    match e
    case ClassEntry(_, _, _) => "class"
    case MemberEntry(_, isMethod, _) => if isMethod then "method" else "property"
  }

  // ---------------------------------------------------------------------------
  // Member lines (JavaAutocompleteProvider.js:91-99)
  // ---------------------------------------------------------------------------

  /**
   * `(member.match(/\s[^\s]*;/g) || [''])[0].trim()`: the first whitespace-preceded
   * word that has a `;`, through its last `;`, or "" when there is none.
   */
  function MemberKey(m: string): string {
    var found := Loader.SearchFrom(Loader.KeyField, m, 0);
    if found.None? then "" else Trim(m[found.value.0..found.value.1 + 1])
  }

  /** The trimmed whole match is the group followed by its `;`. */
  lemma MemberKeyIsGroup(m: string)
    ensures Loader.Group(Loader.KeyField, m).None? ==> MemberKey(m) == ""
    ensures Loader.Group(Loader.KeyField, m).Some? ==> MemberKey(m) == Loader.Group(Loader.KeyField, m).value + ";"
  {
    var found := Loader.SearchFrom(Loader.KeyField, m, 0);
    if found.Some? {
      KeyMatchShape(m, found.value.0, found.value.1);
      TrimWordAfterSpace(m, found.value.0, found.value.1);
    }
  }

  /** The leftmost key match: a whitespace character, then the group, which ends just before a `;`. */
  lemma KeyMatchShape(m: string, w: nat, e: nat)
    requires Loader.SearchFrom(Loader.KeyField, m, 0) == Some((w, e))
    ensures w < e < |m| && IsSpace(m[w]) && m[e] == ';'
    ensures forall i :: w + 1 <= i < e ==> !IsSpace(m[i])
    ensures Loader.Group(Loader.KeyField, m) == Some(m[w + 1..e])
  {
    assert Loader.KeyFieldEnd(m, w + 1) == Some(e);
  }

  /** Trimming a whitespace character followed by a word through its `;` leaves the word and the `;`. */
  lemma TrimWordAfterSpace(m: string, w: nat, e: nat)
    requires w < e < |m| && IsSpace(m[w]) && m[e] == ';'
    requires forall i :: w + 1 <= i < e ==> !IsSpace(m[i])
    ensures Trim(m[w..e + 1]) == m[w + 1..e] + ";"
  {
    var word := m[w + 1..e] + ";";
    assert m[w..e + 1] == [m[w]] + word;
    if w + 1 < e { assert word[0] == m[w + 1]; }
    TrimAfterSpace(m[w], word);
  }

  /** Trimming one whitespace character before a word with non-space ends leaves the word. */
  lemma TrimAfterSpace(c: char, word: string)
    requires IsSpace(c) && |word| > 0 && !IsSpace(word[0]) && !IsSpace(word[|word| - 1])
    ensures Trim([c] + word) == word
  {
    assert ([c] + word)[1..] == word;
    assert TrimStart([c] + word) == word;
  }

  /**
   * `(member.match(/^.*\s/g) || [''])[0].trim()`: the first line up to and including
   * its last whitespace, trimmed, or "" when the line has no whitespace.
   */
  function LeftLabel(m: string): (left: string)
    ensures Loader.ReturnType(m).None? ==> left == ""
    ensures left == [] || (!IsSpace(left[0]) && !IsSpace(left[|left| - 1]))
  {
    match Loader.ReturnType(m)
    case None => ""
    case Some(t) => Trim(m[..|t| + 1])
  }

  /** The key and entry `_addClassDescription` stores for one member line. */
  function MemberEntryOf(member: string): (string, Entry) {
    var m := ReplaceFirst(member, "public", "");
    var memberName := MemberKey(m);
    (memberName, MemberEntry(memberName, Contains(memberName, "("), LeftLabel(m)))
  }

  /** `m` reads `" " + q + " " + n + ";"`, stated position by position. */
  predicate LineLayout(m: string, q: string, n: string) {
    && |m| == |q| + |n| + 3
    && m[0] == ' '
    && (forall i :: 0 < i <= |q| ==> m[i] == q[i - 1])
    && m[|q| + 1] == ' '
    && (forall i :: |q| + 1 < i < |m| - 1 ==> m[i] == n[i - |q| - 2])
    && m[|m| - 1] == ';'
  }

  lemma LineLayoutOf(q: string, n: string)
    ensures LineLayout(" " + q + " " + n + ";", q, n)
  {
  }

  /** A key group that runs to the final `;` makes the key the rest of the line. */
  lemma KeyFromGroup(m: string, a: nat)
    requires a < |m| && m[|m| - 1] == ';'
    requires Loader.Group(Loader.KeyField, m) == Some(m[a..|m| - 1])
    ensures MemberKey(m) == m[a..]
  {
    MemberKeyIsGroup(m);
    DropLast(m, a, ';');
  }

  lemma DropLast(s: string, a: nat, c: char)
    requires a < |s| && s[|s| - 1] == c
    ensures s[a..|s| - 1] + [c] == s[a..]
  {
  }

  /** In `" TYPE NAME;"` the key group is `NAME`. */
  lemma GroupOfLine(m: string, q: string, n: string)
    requires LineLayout(m, q, n) && ';' !in q && '(' !in q && NoSpace(n)
    ensures Loader.Group(Loader.KeyField, m) == Some(m[|q| + 2..|m| - 1])
  {
    var w := |q| + 1;
    var e := |m| - 1;
    var lead := " " + q;
    forall i | 0 <= i < w ensures m[i] == lead[i] {
      if i > 0 { assert m[i] == q[i - 1]; }
    }
    forall v | 0 <= v < w ensures Loader.GroupEndAt(Loader.KeyField, m, v).None? {
      Loader.NoMatchInType(Loader.KeyField, m, lead, v);
    }
    forall i | w + 1 <= i < e ensures !IsSpace(m[i]) { assert m[i] == n[i - w - 1]; }
    assert Loader.SpaceFrom(m, w + 1) == |m|;
    assert Loader.LastCharIn(m, ';', w + 1, |m|) == Some(e);
    Loader.GroupAt(Loader.KeyField, m, w, e);
  }

  /** In `" TYPE NAME;"` the left label is `TYPE`. */
  lemma LabelOfLine(m: string, q: string, n: string)
    requires LineLayout(m, q, n) && |q| > 0 && NoSpace(q) && NoSpace(n)
    ensures LeftLabel(m) == q
  {
    var w := |q| + 1;
    forall i | 0 <= i < w ensures !IsLineTerminator(m[i]) {
      if i > 0 { assert m[i] == q[i - 1]; }
    }
    assert NoLineTerminator(m[..w]);
    forall i | w < i < |m| ensures !IsSpace(m[i]) {
      if i < |m| - 1 { assert m[i] == n[i - w - 1]; }
    }
    Loader.ReturnTypeOf(m, w);
    assert m[..w + 1] == [' '] + q + [' '];
    TrimPadded(q);
  }

  /** Trimming a word padded by one space on each side leaves the word. */
  lemma TrimPadded(q: string)
    requires |q| > 0 && NoSpace(q)
    ensures Trim([' '] + q + [' ']) == q
  {
    assert [' '] + q + [' '] == [' '] + (q + [' ']);
    TrimStartSpace(' ', q + [' ']);
    assert (q + [' '])[0] == q[0];
    TrimEndSpace(q, ' ');
  }

  lemma TrimStartSpace(c: char, t: string)
    requires IsSpace(c)
    ensures TrimStart([c] + t) == TrimStart(t)
  {
    assert ([c] + t)[1..] == t;
  }

  lemma TrimEndSpace(t: string, c: char)
    requires IsSpace(c)
    ensures TrimEnd(t + [c]) == TrimEnd(t)
  {
    assert (t + [c])[..|t|] == t;
  }

  /**
   * A `javap` member line `public TYPE NAME;` whose `NAME` has no whitespace (a field,
   * or a method with at most one parameter) is stored under `NAME;` with left label
   * `TYPE`, as a method exactly when `NAME` has a `(`.
   */
  lemma JavapMemberLine(q: string, n: string)
    requires |q| > 0 && NoSpace(q) && ';' !in q && '(' !in q && NoSpace(n)
    ensures var member := "public " + q + " " + n + ";";
      MemberEntryOf(member) == (n + ";", MemberEntry(n + ";", '(' in n, q))
  {
    var member := "public " + q + " " + n + ";";
    var m := " " + q + " " + n + ";";
    StripPublicLine(q, n);
    EntryOfStripped(member, m);
    KeyOfJavapLine(q, n);
    LabelOfJavapLine(q, n);
    ParenInKey(n);
  }

  lemma StripPublicLine(q: string, n: string)
    ensures ReplaceFirst("public " + q + " " + n + ";", "public", "") == " " + q + " " + n + ";"
  {
    var m := " " + q + " " + n + ";";
    assert "public " + q + " " + n + ";" == "public" + m;
    StripPublic(m);
  }

  lemma KeyOfJavapLine(q: string, n: string)
    requires ';' !in q && '(' !in q && NoSpace(n)
    ensures MemberKey(" " + q + " " + n + ";") == n + ";"
  {
    var m := " " + q + " " + n + ";";
    LineLayoutOf(q, n);
    GroupOfLine(m, q, n);
    KeyFromGroup(m, |q| + 2);
    NameOfLine(q, n);
  }

  lemma LabelOfJavapLine(q: string, n: string)
    requires |q| > 0 && NoSpace(q) && NoSpace(n)
    ensures LeftLabel(" " + q + " " + n + ";") == q
  {
    LineLayoutOf(q, n);
    LabelOfLine(" " + q + " " + n + ";", q, n);
  }

  lemma ParenInKey(n: string)
    ensures Contains(n + ";", "(") <==> '(' in n
  {
    ContainsChar(n + ";", '(');
    assert '(' in n + ";" <==> '(' in n;
  }

  lemma EntryOfStripped(member: string, m: string)
    requires ReplaceFirst(member, "public", "") == m
    ensures MemberEntryOf(member) == (MemberKey(m), MemberEntry(MemberKey(m), Contains(MemberKey(m), "("), LeftLabel(m)))
  {
  }

  lemma NameOfLine(q: string, n: string)
    ensures (" " + q + " " + n + ";")[|q| + 2..] == n + ";"
  {
  }

  /** The `replace('public', '')` of a line that starts with `public` drops that word. */
  lemma StripPublic(rest: string)
    ensures ReplaceFirst("public" + rest, "public", "") == rest
  {
    var member := "public" + rest;
    assert OccursAt(member, "public", 0);
    ReplaceFirstAt(member, "public", "", 0);
    assert member[6..] == rest;
  }

  // ---------------------------------------------------------------------------
  // What `_addClassDescription` and the loading passes store
  // ---------------------------------------------------------------------------

  /** The key and entry of every member line, in order. */
  function MemberEntries(members: seq<string>): seq<(string, Entry)> {
    seq(|members|, i requires 0 <= i < |members| => MemberEntryOf(members[i]))
  }

  /** The tries after each parsed member line is stored in category `className`, in order. */
  function EntriesAdded(tries: map<string, Trie<Entry>>, className: string, entries: seq<(string, Entry)>): map<string, Trie<Entry>>
    decreases |entries|
  {
    if entries == [] then tries
    else
      var (key, entry) := entries[|entries| - 1];
      Inserted(EntriesAdded(tries, className, entries[..|entries| - 1]), className, key, entry)
  }

  /** The two class entries, under the inverse name first and then under the class name. */
  function ClassEntriesAdded(tries: map<string, Trie<Entry>>, inverseName: string -> string, className: string): map<string, Trie<Entry>> {
    var withInverse := Inserted(tries, "class", inverseName(className), ClassEntry(JavaUtil.SimpleName(className), Some(className), className));
    Inserted(withInverse, "class", className, ClassEntry(className, None, className))
  }

  /** The tries after `_addClassDescription(className, classMembers, addMembersOnly)`; `null` members add none. */
  function DescriptionAdded(tries: map<string, Trie<Entry>>, inverseName: string -> string, className: string, classMembers: Option<seq<string>>, addMembersOnly: bool): map<string, Trie<Entry>> {
    var base := if addMembersOnly then tries else ClassEntriesAdded(tries, inverseName, className);
    EntriesAdded(base, className, MemberEntries(if classMembers.Some? then classMembers.value else []))
  }

  /** The tries after the reader's callbacks, in order. */
  function EventsAdded(tries: map<string, Trie<Entry>>, inverseName: string -> string, events: seq<Reader.ClassEvent>, addMembersOnly: bool): map<string, Trie<Entry>>
    decreases |events|
  {
    if events == [] then tries
    else
      var ev := events[|events| - 1];
      DescriptionAdded(EventsAdded(tries, inverseName, events[..|events| - 1], addMembersOnly), inverseName, ev.className, ev.members, addMembersOnly)
  }

  /** The project the provider reads: its root directory, the file reader and the shell and file system. */
  datatype Project = Project(rootDir: string, readFile: string -> string, env: Reader.Env)

  /** The classpath: the `.classpath` file of the root directory ("" when it cannot be read). */
  function ClasspathOf(project: Project): string {
    project.readFile(project.rootDir + "/.classpath")
  }

  /** The tries after one `_loadSuggestionsImpl` pass: the classpath, then `rt.jar` when the shell names one. */
  function PassAdded(tries: map<string, Trie<Entry>>, inverseName: string -> string, project: Project, loadClassMembers: bool): map<string, Trie<Entry>> {
    var events := Reader.ClasspathSpec(project.env, loadClassMembers, Trim(ClasspathOf(project)), project.rootDir);
    var projectAdded := EventsAdded(tries, inverseName, events, loadClassMembers);
    var rtJarPath := project.env.exec(Loader.RtJarCommand);
    if rtJarPath != "" then EventsAdded(projectAdded, inverseName, Reader.JarSpec(project.env, loadClassMembers, Trim(rtJarPath)), loadClassMembers)
    else projectAdded
  }

  /** The tries after a full reload: the basic pass into an empty dictionary, then the optional members pass. */
  function ReloadAdded(inverseName: string -> string, project: Project, loadClassMembers: bool): map<string, Trie<Entry>> {
    var basic := PassAdded(map[], inverseName, project, false);
    if loadClassMembers then PassAdded(basic, inverseName, project, true) else basic
  }

  // ---------------------------------------------------------------------------
  // Completion requests (JavaAutocompleteProvider.js:104-122)
  // ---------------------------------------------------------------------------

  /**
   * Where `getSuggestions` looks, given the line up to the cursor and the buffer text:
   * the inferred class's category with the editor's prefix for a member name, and
   * category "class" with the full name otherwise.
   */
  function Lookup(line: string, text: string, prefix: string): (string, string)
  {
    var longPrefix := JavaUtil.FullName(line);
    if JavaUtil.IsClassMemberName(longPrefix) then
      JavaUtil.MemberNameHasDot(longPrefix);
      (JavaUtil.InferClassName(text, longPrefix[..LastIndexOfChar(longPrefix, '.')]), prefix)
    else ("class", longPrefix)
  }

  /** A returned suggestion: a copy of a stored entry with its `replacementPrefix`. */
  datatype Suggestion = Suggestion(entry: Entry, replacementPrefix: string)

  /** The clones of the found entries, each with `replacementPrefix` set by its type. */
  function Suggested(results: Trie<Entry>, longPrefix: string, prefix: string): (s: map<string, Suggestion>)
    ensures s.Keys == results.Keys
    ensures forall k :: k in s ==> s[k].entry == results[k]
    ensures forall k :: k in s ==> s[k].replacementPrefix == (if TypeOf(results[k]) == "class" then longPrefix else prefix)
  {
    map k | k in results :: Suggestion(results[k], if results[k].ClassEntry? then longPrefix else prefix)
  }

  class JavaAutocompleteProvider {
    var dict: Dictionary<Entry>
    var loading: bool
    /** `javaUtil.getInverseName`, which the provider calls but javaUtil.js does not define. */
    const inverseName: string -> string

    constructor (inverseName: string -> string)
      ensures this.inverseName == inverseName
      ensures fresh(dict) && dict.tries == map[] && !loading
    {
      this.inverseName := inverseName;
      dict := new Dictionary();
      loading := false;
    }

    /** One member line of `_addClassDescription`. */
    method AddMemberLine(className: string, member: string)
      modifies dict
      ensures dict.tries == Inserted(old(dict.tries), className, MemberEntryOf(member).0, MemberEntryOf(member).1)
    {
      var m := ReplaceFirst(member, "public", "");
      var memberName := MemberKey(m);
      dict.Add(className, memberName, MemberEntry(memberName, Contains(memberName, "("), LeftLabel(m)));
    }

    /** `_addClassDescription`: the class entries unless only members are added, then every member line; resolves to the class name. */
    method AddClassDescription(className: string, classMembers: Option<seq<string>>, addMembersOnly: bool) returns (resolved: string)
      modifies dict
      ensures resolved == className
      ensures dict.tries == DescriptionAdded(old(dict.tries), inverseName, className, classMembers, addMembersOnly)
    {
      if !addMembersOnly {
        dict.Add("class", inverseName(className), ClassEntry(JavaUtil.SimpleName(className), Some(className), className));
        dict.Add("class", className, ClassEntry(className, None, className));
      }
      AddMemberLines(className, if classMembers.Some? then classMembers.value else []);
      resolved := className;
    }

    /** The member loop of `_addClassDescription`. */
    method AddMemberLines(className: string, members: seq<string>)
      modifies dict
      ensures dict.tries == EntriesAdded(old(dict.tries), className, MemberEntries(members))
    {
      ghost var start := dict.tries;
      ghost var entries := MemberEntries(members);
      var i := 0;
      while i < |members|
        invariant 0 <= i <= |members|
        invariant dict.tries == EntriesAdded(start, className, entries[..i])
      {
        EntriesStep(start, className, entries, i);
        AddMemberLine(className, members[i]);
        i := i + 1;
      }
      assert entries[..i] == entries;
    }

    /** The reader's callbacks, one after another. */
    method AddEvents(events: seq<Reader.ClassEvent>, addMembersOnly: bool)
      modifies dict
      ensures dict.tries == EventsAdded(old(dict.tries), inverseName, events, addMembersOnly)
    {
      ghost var start := dict.tries;
      var i := 0;
      while i < |events|
        invariant 0 <= i <= |events|
        invariant dict.tries == EventsAdded(start, inverseName, events[..i], addMembersOnly)
      {
        EventsStep(start, inverseName, events, i, addMembersOnly);
        var _ := AddClassDescription(events[i].className, events[i].members, addMembersOnly);
        i := i + 1;
      }
      assert events[..i] == events;
    }

    /** `_loadSuggestionsImpl`: the project classpath from `.classpath`, then `rt.jar`. */
    method LoadSuggestionsImpl(project: Project, loadClassMembers: bool)
      modifies dict
      ensures dict.tries == PassAdded(old(dict.tries), inverseName, project, loadClassMembers)
    {
      var classReader := new Reader.JavaClassReader(loadClassMembers);
      var classpath := ClasspathOf(project);
      var events := classReader.ReadClasses(project.env, Trim(classpath), project.rootDir);
      AddEvents(events, loadClassMembers);
      var rtJarPath := project.env.exec(Loader.RtJarCommand);
      if rtJarPath != "" {
        var jarEvents := classReader.ReadJarClasses(project.env, Trim(rtJarPath));
        AddEvents(jarEvents, loadClassMembers);
      }
    }

    /**
     * `loadSuggestions`: unless a load is in progress, a fresh dictionary filled by the
     * basic pass and, if asked, the members pass; a call during a load changes nothing.
     */
    method LoadSuggestions(project: Project, loadClassMembers: bool)
      modifies this
      ensures old(loading) ==> loading && dict == old(dict) && dict.tries == old(dict.tries)
      ensures !old(loading) ==> !loading && fresh(dict) && dict.tries == ReloadAdded(inverseName, project, loadClassMembers)
    {
      if !loading {
        loading := true;
        dict := new Dictionary();
        LoadSuggestionsImpl(project, false);
        if loadClassMembers {
          LoadSuggestionsImpl(project, true);
        }
        loading := false;
      }
    }

    /**
     * `getSuggestions` for the line up to the cursor, the buffer text and the editor's
     * prefix: clones of the entries found where `Lookup` says, with `replacementPrefix`
     * the full name for classes and the prefix otherwise. The stored entries are left as
     * they are; the lookup only creates the category's trie when it is missing.
     */
    method GetSuggestions(line: string, text: string, prefix: string) returns (suggestions: map<string, Suggestion>)
      modifies dict
      ensures suggestions == Suggested(Matches(TrieOf(old(dict.tries), Lookup(line, text, prefix).0), Lookup(line, text, prefix).1), JavaUtil.FullName(line), prefix)
      ensures dict.tries == Touched(old(dict.tries), Lookup(line, text, prefix).0)
    {
      var longPrefix := JavaUtil.FullName(line);
      var (category, word) := Lookup(line, text, prefix);
      var results := dict.Find(category, word);
      suggestions := Suggested(results, longPrefix, prefix);
    }
  }

  lemma EntriesStep(tries: map<string, Trie<Entry>>, className: string, entries: seq<(string, Entry)>, i: nat)
    requires i < |entries|
    ensures EntriesAdded(tries, className, entries[..i + 1])
      == Inserted(EntriesAdded(tries, className, entries[..i]), className, entries[i].0, entries[i].1)
  {
    Loader.PrefixStep(entries, i);
  }

  lemma EventsStep(tries: map<string, Trie<Entry>>, inverseName: string -> string, events: seq<Reader.ClassEvent>, i: nat, addMembersOnly: bool)
    requires i < |events|
    ensures EventsAdded(tries, inverseName, events[..i + 1], addMembersOnly)
      == DescriptionAdded(EventsAdded(tries, inverseName, events[..i], addMembersOnly), inverseName, events[i].className, events[i].members, addMembersOnly)
  {
    Loader.PrefixStep(events, i);
  }

  // ---------------------------------------------------------------------------
  // Properties of what the provider stores
  // ---------------------------------------------------------------------------

  /** Member lines go only into their class's category. */
  lemma {:induction false} EntriesOnlyOwnCategory(tries: map<string, Trie<Entry>>, className: string, entries: seq<(string, Entry)>, other: string)
    requires other != className
    ensures TrieOf(EntriesAdded(tries, className, entries), other) == TrieOf(tries, other)
    decreases |entries|
  {
    if entries != [] {
      EntriesOnlyOwnCategory(tries, className, entries[..|entries| - 1], other);
    }
  }

  /** Every parsed member line is stored afterwards under its key in the class's category. */
  lemma {:induction false} EntriesStored(tries: map<string, Trie<Entry>>, className: string, entries: seq<(string, Entry)>, i: nat)
    requires i < |entries|
    ensures entries[i].0 in TrieOf(EntriesAdded(tries, className, entries), className)
    decreases |entries|
  {
    var n := |entries| - 1;
    AddOneKey(EntriesAdded(tries, className, entries[..n]), className, entries[n].0, entries[n].1);
    if i < n {
      Loader.PrefixIndex(entries, n, i);
      EntriesStored(tries, className, entries[..n], i);
    }
  }

  /** Every member line of a description is stored under its key in the class's category. */
  lemma MemberLinesStored(tries: map<string, Trie<Entry>>, inverseName: string -> string, className: string, members: seq<string>, addMembersOnly: bool, i: nat)
    requires i < |members|
    ensures MemberEntryOf(members[i]).0 in TrieOf(DescriptionAdded(tries, inverseName, className, Some(members), addMembersOnly), className)
  {
    var base := if addMembersOnly then tries else ClassEntriesAdded(tries, inverseName, className);
    EntriesStored(base, className, MemberEntries(members), i);
  }

  /**
   * Unless only members are added, the class is stored in category "class" under its
   * name with its full name as text, and under its inverse name (when that differs)
   * with the simple name as text and the full name as left label.
   */
  lemma DescriptionStoresClass(tries: map<string, Trie<Entry>>, inverseName: string -> string, className: string, classMembers: Option<seq<string>>)
    requires className != "class"
    ensures var t := TrieOf(DescriptionAdded(tries, inverseName, className, classMembers, false), "class");
      && className in t && t[className] == ClassEntry(className, None, className)
      && inverseName(className) in t
      && (inverseName(className) != className ==>
            t[inverseName(className)] == ClassEntry(JavaUtil.SimpleName(className), Some(className), className))
  {
    var members := if classMembers.Some? then classMembers.value else [];
    EntriesOnlyOwnCategory(ClassEntriesAdded(tries, inverseName, className), className, MemberEntries(members), "class");
  }

  /** With only members to add, category "class" is left as it was. */
  lemma MembersOnlyKeepsClasses(tries: map<string, Trie<Entry>>, inverseName: string -> string, className: string, classMembers: Option<seq<string>>)
    requires className != "class"
    ensures TrieOf(DescriptionAdded(tries, inverseName, className, classMembers, true), "class") == TrieOf(tries, "class")
  {
    var members := if classMembers.Some? then classMembers.value else [];
    EntriesOnlyOwnCategory(tries, className, MemberEntries(members), "class");
  }

  /** A suggestion's `replacementPrefix` is the full name exactly for class entries. */
  lemma SuggestionPrefixes(results: Trie<Entry>, longPrefix: string, prefix: string, k: string)
    requires k in results && longPrefix != prefix
    ensures var s := Suggested(results, longPrefix, prefix);
      k in s && (s[k].replacementPrefix == longPrefix <==> results[k].ClassEntry?)
  {
  }

  /** A stored class whose name starts with the typed (non-member) name is offered, to replace that name. */
  lemma ClassSuggested(tries: map<string, Trie<Entry>>, line: string, text: string, prefix: string, k: string)
    requires !JavaUtil.IsClassMemberName(JavaUtil.FullName(line))
    requires k in TrieOf(tries, "class") && StartsWith(k, JavaUtil.FullName(line))
    ensures var s := Suggested(Matches(TrieOf(tries, Lookup(line, text, prefix).0), Lookup(line, text, prefix).1), JavaUtil.FullName(line), prefix);
      k in s && s[k].entry == TrieOf(tries, "class")[k]
  {
    assert Lookup(line, text, prefix) == ("class", JavaUtil.FullName(line));
  }

  /** Once a class is described, typing the start of its full name offers its class entry. */
  lemma DescribedClassSuggested(tries: map<string, Trie<Entry>>, inverseName: string -> string, className: string, classMembers: Option<seq<string>>, line: string, text: string, prefix: string)
    requires className != "class"
    requires !JavaUtil.IsClassMemberName(JavaUtil.FullName(line)) && StartsWith(className, JavaUtil.FullName(line))
    ensures var after := DescriptionAdded(tries, inverseName, className, classMembers, false);
      var s := Suggested(Matches(TrieOf(after, Lookup(line, text, prefix).0), Lookup(line, text, prefix).1), JavaUtil.FullName(line), prefix);
      className in s && s[className] == Suggestion(ClassEntry(className, None, className), JavaUtil.FullName(line))
  {
    var after := DescriptionAdded(tries, inverseName, className, classMembers, false);
    DescriptionStoresClass(tries, inverseName, className, classMembers);
    ClassSuggested(after, line, text, prefix, className);
  }

  /** After a member name `Class.part`, each stored member of the inferred class that starts with the prefix is offered, to replace the prefix. */
  lemma MemberSuggested(tries: map<string, Trie<Entry>>, line: string, text: string, prefix: string, k: string)
    requires JavaUtil.IsClassMemberName(JavaUtil.FullName(line))
    requires var category := Lookup(line, text, prefix).0;
      k in TrieOf(tries, category) && StartsWith(k, prefix) && TrieOf(tries, category)[k].MemberEntry?
    ensures var s := Suggested(Matches(TrieOf(tries, Lookup(line, text, prefix).0), Lookup(line, text, prefix).1), JavaUtil.FullName(line), prefix);
      k in s && s[k] == Suggestion(TrieOf(tries, Lookup(line, text, prefix).0)[k], prefix)
  {
    assert Lookup(line, text, prefix).1 == prefix;
  }
}
