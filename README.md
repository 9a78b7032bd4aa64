# autocomplete-java: a verified model of the class index

This project models the class-indexing core of autocomplete-java, an Atom package that offers Java completions. It covers:

- The classpath reader. It splits a `.classpath` string into entries, dispatches each entry to a jar listing, a `*` directory of jars or a directory walk, and turns every class-file path into a class name. With members requested, it also extracts the member lines of the `javap` output.
- The class loader. It turns every `javap` member prototype into a descriptor (key, name, kind, return type, parameters) and stores classes and members in a category dictionary. It ranks classes by origin, and a `loading` flag guards the full reload.
- The category dictionary. It maps the category `"class"` and each class name to a prefix trie, creating tries on first use.
- The older provider. It fills the same kind of dictionary from member lines and answers completion requests with `replacementPrefix` set per entry.
- The Atom provider and its helpers. They decide where to look up a completion: the class trie, or the member tries of candidate classes found through imports, the package or a variable declaration. They build snippet text and number duplicate snippets.
- The package. It formats the classpath read from the project and derives the class to reload after a save.

Every module is one source file, except `JsStrings`, which holds the JavaScript string and regex primitives the core relies on, and `Wrappers`, which holds `Option`. Regular expressions are written out per use as character-level predicates with leftmost, longest-match scanning functions.

Editor state (the cursor line, the buffer text), shell output, file contents and directory listings are parameters.

- `Reader.Env` gives the class reader `exec`, `readDir` and the walk's `(root, name)` list.
- `Loader.Sources` gives the loader the classpath and jar readers it calls, the single-class reader and `exec`.
- The loader uses `javaUtil.getInverseName`, which the source never defines, as an uninterpreted function.

Asynchronous chains (`serialPromise`, `.then`) are modelled as sequential loops in the order the promises run.

## Model

| member | source | states |
|---|---|---|
| JsStrings.IndexOfFrom | lib/javaUtil.js:15 | the position found holds the pattern and no position from `from` up to it does; none means no occurrence from `from` on |
| JsStrings.IndexOf | lib/javaUtil.js:15 | `indexOf`: the first occurrence of the pattern, or none anywhere |
| JsStrings.ContainsChar | lib/javaUtil.js:15 | `indexOf(c) !== -1` holds exactly when `c` is in the string |
| JsStrings.Contains | lib/JavaClassLoader.js:108 | `indexOf(sub) !== -1`: the string holds an occurrence, as `IndexOf` locates it |
| JsStrings.StartsWith | lib/JavaClassReader.js:21 | `startsWith`: the pattern is a prefix of the string |
| JsStrings.EndsWith | lib/JavaClassReader.js:29 | `endsWith`: the pattern is a suffix of the string |
| JsStrings.FirstOccurrence | lib/javaUtil.js:7-9 | an occurrence with none before it is the one `indexOf` finds |
| JsStrings.ReplaceFirst | lib/JavaClassLoader.js:105 | string-pattern `replace`: the first occurrence replaced, the string unchanged when there is none; `ReplaceFirstAt` proves what it keeps |
| JsStrings.ReplaceAll | lib/atomAutocompletePackage.js:72 | a global `replace` of one character: every occurrence replaced, scanning left to right without rescanning; `ReplaceAllAbsent`, `ReplaceAllRemoves` and `ReplaceAllAppend` prove its properties |
| JsStrings.ReplaceFirstAt | lib/JavaClassLoader.js:105 | string `replace` rewrites exactly the first occurrence and keeps the rest |
| JsStrings.ReplaceAllAbsent | lib/atomAutocompletePackage.js:72 | a `/c/g` replace leaves a string without `c` unchanged |
| JsStrings.ReplaceAllRemoves | lib/JavaClassReader.js:91 | after a `/c/g` replace by text without `c`, no `c` is left |
| JsStrings.ReplaceAllAppend | lib/atomAutocompletePackage.js:74 | a `/c/g` replace works piecewise on a concatenation, so inserted text is never re-scanned |
| JsStrings.LastIndexOfChar | lib/AtomAutocompleteProvider.js:29 | `lastIndexOf`: -1 or a position holding `c`, and no later position holds `c` |
| JsStrings.LineEnd | lib/atomAutocompletePackage.js:96 | the end of the run that regex `.` can match from a position: no line terminator before it, and one at it unless it is the end |
| JsStrings.LineEndPast | lib/javaUtil.js:25-28 | a line-terminator-free segment followed by the end or a line terminator: the line end from its start is its end |
| JsStrings.WithinLine | lib/atomAutocompletePackage.js:96 | a slice has no line terminator exactly when it ends by the line end |
| JsStrings.LastOccurrence | lib/atomJavaUtil.js:40 | the last position in a range that holds the pattern, none at a later one; none means none in the range |
| JsStrings.SpanOneLine | lib/atomJavaUtil.js:63 | a regex `open.*close` match is an `open`, a line-terminator-free run and a `close` |
| JsStrings.Span | lib/atomJavaUtil.js:63 | a match of `open.*close` at `(i, j)`: `open` at `i`, `close` at `j`, and no line terminator in between |
| JsStrings.SpanFrom | lib/atomJavaUtil.js:63 | the leftmost match from a position, and the longest one at that start; none when no match starts there or later |
| JsStrings.FirstSpan | lib/atomJavaUtil.js:63 | the leftmost-longest match of `open.*close` in the whole string, or none at all |
| JsStrings.FirstSpanIs | lib/javaUtil.js:25-28 | a span that starts leftmost and ends longest is the one `FirstSpan` returns |
| JsStrings.CutSpan | lib/atomJavaUtil.js:40 | `replace(/open.*close/, '')`: the first match removed, or the string unchanged when there is none |
| JsStrings.Split | lib/JavaClassReader.js:17 | `split(c)` yields at least one part and no part contains `c` |
| JsStrings.JoinSplit | lib/JavaClassReader.js:17 | joining the parts of `split(c)` with `c` gives the string back |
| JsStrings.SplitWithoutSeparator | lib/JavaClassReader.js:17 | a string without the separator splits into itself alone |
| JsStrings.SplitAppend | lib/JavaClassReader.js:17 | splitting `a + c + b` gives the parts of `a` followed by the parts of `b` |
| JsStrings.TrimStart | lib/JavaClassLoader.js:106 | only whitespace is removed from the front, and the result does not start with whitespace |
| JsStrings.TrimEnd | lib/JavaClassLoader.js:106 | only whitespace is removed from the back, and the result does not end with whitespace |
| JsStrings.Trim | lib/JavaClassLoader.js:106 | `trim()`: the result neither starts nor ends with whitespace |
| JsStrings.TrimStartSuffix | lib/JavaClassLoader.js:106 | the front-trimmed string is a suffix of the input |
| JsStrings.TrimEndPrefix | lib/JavaClassLoader.js:106 | the back-trimmed string is a prefix of the input |
| JsStrings.TrimKeeps | lib/JavaClassLoader.js:106 | `trim()` of text without surrounding whitespace is that text |
| JsStrings.CountAppend | lib/atomAutocompletePackage.js:72 | character counts add up over concatenation |
| JsStrings.CountAbsent | lib/atomAutocompletePackage.js:72 | a character is absent exactly when its count is 0 |
| JsStrings.Digit | lib/AtomAutocompleteProvider.js:63 | a digit's character is between `0` and `9` |
| JsStrings.NatToString | lib/AtomAutocompleteProvider.js:63 | JavaScript's decimal text of a counter: non-empty, all digits, no leading zero except for 0 |
| Dictionaries.TrieOf | lib/Dictionary.js:19-26 | a category's trie is the stored one, or the empty trie a first use would create |
| Dictionaries.Inserted | lib/Dictionary.js:11-13 | the tries after `add`: the category's trie, created when missing, with the key set to the descriptor |
| Dictionaries.Touched | lib/Dictionary.js:19-26 | the tries after `_getTrie`: the category present, with an empty trie on a miss |
| Dictionaries.Grows | lib/Dictionary.js:5-28 | the growth relation: no category and no key of a category removed |
| Dictionaries.Matches | lib/Dictionary.js:15-17 | `find`: exactly the entries whose key starts with the prefix, with their descriptors |
| Dictionaries.Dictionary.constructor | lib/Dictionary.js:7-9 | a new dictionary has no categories |
| Dictionaries.Dictionary.GetTrie | lib/Dictionary.js:19-26 | `_getTrie` returns the category's trie, creating an empty one on a miss and changing nothing else |
| Dictionaries.Dictionary.Add | lib/Dictionary.js:11-13 | `add` inserts or overwrites one key in the category's trie, creating the trie when missing |
| Dictionaries.Dictionary.Find | lib/Dictionary.js:15-17 | `find` returns the prefix matches of the category's trie as it was, creating the trie when missing |
| Dictionaries.TouchIdempotent | lib/Dictionary.js:19-26 | `_getTrie` is memoised: after one call the category is present, a second call changes nothing, and the trie it yields is the one before |
| Dictionaries.TouchFresh | lib/Dictionary.js:21-24 | a first use adds just that category with an empty trie and keeps every other category |
| Dictionaries.TouchInvisible | lib/Dictionary.js:15-24 | creating an empty trie never changes what any `find` returns |
| Dictionaries.FindAfterAdd | lib/Dictionary.js:11-17 | after `add(c, k, d)`, `find(c, p)` for every prefix `p` of `k` has `k` mapped to `d` |
| Dictionaries.AddIsolated | lib/Dictionary.js:11-13 | `add` on one category leaves every `find` on another category unchanged |
| Dictionaries.AddOneKey | lib/Dictionary.js:11-13 | `add` grows a trie's keys by exactly the added key and keeps every other entry |
| Dictionaries.NothingShrinks | lib/Dictionary.js:5-28 | neither `add` nor a first use removes a category or a key |
| Dictionaries.GrowsTransitive | lib/Dictionary.js:5-28 | growth composes, so any sequence of dictionary calls only grows it |
| JavaUtil.LastMatch | lib/javaUtil.js:43-46 | `_lastMatch`: `''` without a match, else the last element of the match array |
| JavaUtil.SimpleName | lib/javaUtil.js:30-32 | `getSimpleName`: a dot-free suffix of the name, preceded by a dot unless it is the whole name |
| JavaUtil.PackageMatch | lib/javaUtil.js:7-9 | a `package ([^;]*);` match is `package `, a `;`-free group and `;`, starting at the first `package ` of the text, so it runs to the first `;` after it; none means no `;` follows any `package ` |
| JavaUtil.PackageName | lib/javaUtil.js:7-9 | `getCurrentPackageName`: a `;`-free name, which the text declares as `package name;` when it is not empty; empty when no `;` follows any `package ` |
| JavaUtil.PackageNameAt | lib/javaUtil.js:7-9 | when the first `package ` starts `package name;` with a `;`-free name, the package name is `name` |
| JavaUtil.PackageNameOfDeclaration | lib/javaUtil.js:7-9 | `pre + "package name;" + rest`, with no `package ` starting in `pre` and a `;`-free name, has package name `name`, whatever `rest` holds (a second declaration included) |
| JavaUtil.ImportMatch | lib/javaUtil.js:25-28 | an `import (.*Name);` match is `import `, a group ending in the name, and `;`, found in the text; none means no `import ` is followed by `Name;` on its line; `ImportMatchIsFirst` says which match it is |
| JavaUtil.ImportedClassName | lib/javaUtil.js:25-28 | `getImportClassName`: empty, or a name ending in the simple name that the text imports; empty whenever no import matches; `ImportedClassNameIsFirst` says which import it is |
| JavaUtil.ImportMatchIsFirst | lib/javaUtil.js:25-28 | the match is the leftmost `import ` span ending in `Name;` on its line, at its longest end: match text and group are read off that span |
| JavaUtil.ImportedClassNameIsFirst | lib/javaUtil.js:25-28 | the imported name is the group of that leftmost-longest span |
| JavaUtil.ImportedClassAt | lib/javaUtil.js:25-28 | an `import ` at `a` with `Name;` at `e`, no later `Name;` on the line and no span starting before `a`, gives the text from after `import ` up to `;` at `e` |
| JavaUtil.ImportedClassOfLine | lib/javaUtil.js:25-28 | `pre + "import " + q + Name + ";"` ending a line, with no match starting in `pre`, gives `q + Name`, whatever follows on later lines |
| JavaUtil.ImportGroupShape | lib/javaUtil.js:25-28 | every import match's group ends in the simple name and is imported verbatim at the match |
| JavaUtil.InferClassName | lib/javaUtil.js:11-23 | `inferClassName`: the imported name if any, else `package.name` for a dot-free name, else the name itself; it always ends in the name |
| JavaUtil.TrailingName | lib/javaUtil.js:34-37 | the longest trailing run of characters other than whitespace and `-` |
| JavaUtil.IsNameChar | lib/javaUtil.js:34-37 | the class `[^\s-]`: neither whitespace nor `-` |
| JavaUtil.FullNameMatch | lib/javaUtil.js:34-37 | the `[^\s-]+$` match array has one element when present |
| JavaUtil.FullName | lib/javaUtil.js:34-37 | `getFullName`: the maximal trailing non-whitespace, non-`-` run, and `''` when the line ends in whitespace or `-` |
| JavaUtil.FullNameOneLine | lib/javaUtil.js:34-37 | the full name holds no whitespace and no line terminator |
| JavaUtil.DotInLine | lib/javaUtil.js:39-41 | `.*\.` from a position matches exactly when a `.` follows with no line terminator in between |
| JavaUtil.UpperSegmentFrom | lib/javaUtil.js:39-41 | `\.[A-Z].*\.` matches from a position on exactly when a `.`, an upper-case letter and a later `.` on the same line occur |
| JavaUtil.IsClassMemberName | lib/javaUtil.js:39-41 | `isClassMemberName` is true exactly when `^[A-Z].*\.` or `\.[A-Z].*\.` matches, both directions |
| JavaUtil.MemberNameHasDot | lib/javaUtil.js:39-41 | a class member name always contains a `.`, so the class part before the last dot exists |
| Loader.CommaSpaces | lib/JavaClassLoader.js:106 | `replace(/,\s/g, ',')`, which drops the whitespace character after each comma: every comma is kept and the text never lengthens |
| Loader.CommaSpaceFree | lib/JavaClassLoader.js:106 | no comma is followed by a whitespace character, so `/,\s/g` finds nothing |
| Loader.CommaSpacesKeeps | lib/JavaClassLoader.js:106 | a prototype with no comma followed by whitespace is unchanged by that replace |
| Loader.Normalize | lib/JavaClassLoader.js:105-106 | the normalised prototype is no longer than the input and trimmed |
| Loader.ReplaceAbsent | lib/JavaClassLoader.js:105 | removing the first `public` or `static` leaves a prototype without one unchanged |
| Loader.NormalizeKeeps | lib/JavaClassLoader.js:105-106 | an already normal prototype (no `public`, no `static`, no comma followed by whitespace, trimmed) is left as it is |
| Loader.Plain | lib/JavaClassLoader.js:105-108 | a prototype that normalisation keeps and the constructor and `{` filter lets through |
| Loader.SpaceFrom | lib/JavaClassLoader.js:109-110 | the end of the run of non-whitespace characters from a position |
| Loader.NameStop | lib/JavaClassLoader.js:110 | the end of the run of characters other than whitespace and `(` |
| Loader.FirstCharIn | lib/JavaClassLoader.js:121 | the first position in a range holding a character, or none in the range |
| Loader.LastCharIn | lib/JavaClassLoader.js:121 | the last position in a range holding a character, or none in the range |
| Loader.LastSpaceBelow | lib/JavaClassLoader.js:120 | the last whitespace below a bound, or none below it |
| Loader.KeyCallEnd | lib/JavaClassLoader.js:109 | where `\S*\(.*\);` can end: at a `;` right after a `)` |
| Loader.KeyFieldEnd | lib/JavaClassLoader.js:109 | where `\S*;` can end: at a `;` reached from the group start through non-whitespace only |
| Loader.KeyFieldEndIsLast | lib/JavaClassLoader.js:109 | greedy `\S*;` ends at the last `;` of the run of non-whitespace from the group start, and finds none when that run holds no `;` |
| Loader.NameEnd | lib/JavaClassLoader.js:110 | where the name group `[^\s\(]*` ends: before a `(` or `;` reached through name characters |
| Loader.GroupEndAt | lib/JavaClassLoader.js:109-110 | a match starting at a position begins with whitespace and ends inside the text |
| Loader.SearchFrom | lib/JavaClassLoader.js:109-110 | the leftmost match position from a start and its end; none when no position matches |
| Loader.Group | lib/JavaClassLoader.js:109-110 | the captured key or name: whitespace-free for fields and names, and `(`-free for names |
| Loader.GroupAt | lib/JavaClassLoader.js:109-110 | the group is the slice after the leftmost match's whitespace up to its end |
| Loader.ReturnType | lib/JavaClassLoader.js:120 | `returnType`: the one-line text before the last whitespace |
| Loader.Params | lib/JavaClassLoader.js:121 | `params` is present for a parenthesised list and has at least one part |
| Loader.ParseMember | lib/JavaClassLoader.js:102-129 | `_addClassMember` adds nothing for a prototype naming the class or holding `{`; any member it adds carries the normalised prototype |
| Loader.ParseNormal | lib/JavaClassLoader.js:108-124 | an added member has the class's names and rank, is a method exactly when the prototype has `(`, has `params` exactly for methods, and takes the matched name and return type |
| Loader.MethodLayoutOf | lib/JavaClassLoader.js:109-121 | the text `type name(args);` has the method layout the matches read |
| Loader.MethodLayout | lib/JavaClassLoader.js:109-121 | position by position, the text is `type name(args);` |
| Loader.FieldLayoutOf | lib/JavaClassLoader.js:109-120 | the text `type name;` has the field layout the matches read |
| Loader.FieldLayout | lib/JavaClassLoader.js:109-120 | position by position, the text is `type name;` |
| Loader.NoMatchInType | lib/JavaClassLoader.js:109-110 | no key or name match can start inside the return type |
| Loader.KeyOfMethod | lib/JavaClassLoader.js:109 | a method's key is `name(args)` up to the final `;` |
| Loader.KeyCallAfterType | lib/JavaClassLoader.js:109 | the method-key match starts at the space after the type and ends at the final `;` |
| Loader.KeyCallAt | lib/JavaClassLoader.js:109 | a method-key match starting at a space before a parenthesised tail ends at the last `;` |
| Loader.FirstParenOfWord | lib/JavaClassLoader.js:109 | the first `(` of the name word is the one the key match uses |
| Loader.LastCloseOfLine | lib/JavaClassLoader.js:109 | the greedy `.*\);` ends at the final `);` of the line |
| Loader.NameOfMethod | lib/JavaClassLoader.js:110 | a method's name is the text between the type and `(` |
| Loader.KeyOfField | lib/JavaClassLoader.js:109-110 | a field has no method key, and its key and name are both the text between the type and `;` |
| Loader.ReturnTypeOf | lib/JavaClassLoader.js:120 | the return type is the text before the last whitespace |
| Loader.ParamsOfMethod | lib/JavaClassLoader.js:121 | a method's parameters are the text between `(` and `)` split on `,` |
| Loader.ParenSpanAt | lib/JavaClassLoader.js:121 | `\((.*)\)` matches from the first `(` to the last `)` on the line |
| Loader.ParsedMethod | lib/JavaClassLoader.js:111-124 | for matches found, the member is a method descriptor with those key, name, type and parameters |
| Loader.ParsedField | lib/JavaClassLoader.js:111-124 | for matches found, the member is a property descriptor with those key, name and type and no parameters |
| Loader.ClassDesc | lib/JavaClassLoader.js:84-92 | the class descriptor: kind class, the simple name as name and simple name, the class name and the rank |
| Loader.ParsedAdded | lib/JavaClassLoader.js:112-124 | a parsed member is added under its key in the class's category; a failed parse adds nothing |
| Loader.MemberAdded | lib/JavaClassLoader.js:102-129 | `_addClassMember`: the tries after parsing one prototype and storing the result |
| Loader.MembersAdded | lib/JavaClassLoader.js:96-98 | the tries after `_addClassMember` for each prototype in order |
| Loader.ClassAdded | lib/JavaClassLoader.js:83-100 | `_addClass`: the descriptor under the name, then under the inverse name, then the members |
| Loader.Rank | lib/JavaClassLoader.js:66-77 | the `lastUsed` of a read class: 0 for an origin containing `.jar`, else 2, or the fixed 1 of the `rt.jar` pass |
| Loader.RecordsAdded | lib/JavaClassLoader.js:65-78 | the tries after `_addClass` for each reader callback, in callback order |
| Loader.PassAdded | lib/JavaClassLoader.js:60-81 | `_loadClassesImpl`: the project records ranked by origin, then the `rt.jar` records ranked 1 when `java -verbose` names one |
| Loader.ReloadAdded | lib/JavaClassLoader.js:41-49 | a fresh dictionary after the names-only pass and, when requested, the members pass |
| Loader.MethodMatches | lib/JavaClassLoader.js:109-121 | every match of a method line, read off its layout |
| Loader.PlainIsNormal | lib/JavaClassLoader.js:105-106 | parsing an already normal prototype parses it as it stands |
| Loader.MethodPrototype | lib/JavaClassLoader.js:102-124 | `type name(args);` is stored under `name(args)` as a method with return type `type`, its arguments split on `,`, and the class's names and rank |
| Loader.FieldMatches | lib/JavaClassLoader.js:109-120 | every match of a field line, read off its layout |
| Loader.ReturnTypeOfField | lib/JavaClassLoader.js:120 | a field's return type is its type |
| Loader.FieldPrototype | lib/JavaClassLoader.js:102-124 | `type name;` is stored under `name` as a property with return type `type`, no parameters, and the class's names and rank |
| Loader.RankOfOrigin | lib/JavaClassLoader.js:66-67 | classes from a `.jar` origin rank 0 and those from other origins 2, both directions; a fixed ranking gives its rank |
| Loader.MembersAddedStep | lib/JavaClassLoader.js:96-98 | each member is added after all earlier ones, in order |
| Loader.RecordsAddedStep | lib/JavaClassLoader.js:70-78 | each class is added after all earlier callbacks, in order |
| Loader.RecordsAddedAppend | lib/JavaClassLoader.js:60-81 | two passes in sequence equal one pass over both record lists |
| Loader.JavaClassLoader.constructor | lib/JavaClassLoader.js:13-15 | a new loader has an empty dictionary and is not loading |
| Loader.JavaClassLoader.FindClass | lib/JavaClassLoader.js:17-19 | the `"class"` entries that start with the prefix; only a missing trie is created |
| Loader.JavaClassLoader.FindClassMember | lib/JavaClassLoader.js:21-23 | the class's member entries that start with the prefix; only a missing trie is created |
| Loader.JavaClassLoader.AddClassMember | lib/JavaClassLoader.js:102-129 | the dictionary gains the parsed member under the class, or nothing when parsing fails; no error escapes |
| Loader.JavaClassLoader.AddParsed | lib/JavaClassLoader.js:112-124 | a parse result is added under its key, and a failed parse adds nothing |
| Loader.JavaClassLoader.AddClass | lib/JavaClassLoader.js:83-100 | one class descriptor under both the name and its inverse name in `"class"`, then every member in order |
| Loader.JavaClassLoader.AddClassMembers | lib/JavaClassLoader.js:96-98 | the members loop adds each prototype in turn |
| Loader.JavaClassLoader.AddRecords | lib/JavaClassLoader.js:70-78 | each reader callback adds its class with the rank of its origin, in callback order |
| Loader.JavaClassLoader.LoadClass | lib/JavaClassLoader.js:29-35 | a single-class reload adds the class read, ranked by the given time |
| Loader.JavaClassLoader.LoadClassesImpl | lib/JavaClassLoader.js:60-81 | project classes ranked by origin, then `rt.jar` classes ranked 1 when `java -verbose` names one |
| Loader.JavaClassLoader.LoadClasses | lib/JavaClassLoader.js:37-58 | while loading, nothing changes; else a fresh dictionary gets a names-only pass, then a members pass only when requested, and `loading` ends false |
| Loader.MembersOnlyOwnCategory | lib/JavaClassLoader.js:96-98 | adding members touches no category other than the class's own |
| Loader.ClassStoredTwice | lib/JavaClassLoader.js:84-94 | after `_addClass`, `"class"` maps both the name and its inverse to the same descriptor, with kind class, simple name and the given rank |
| Loader.MembersGrow | lib/JavaClassLoader.js:95-98 | adding members never removes a category or a key |
| Loader.ClassAddGrows | lib/JavaClassLoader.js:83-100 | a re-add never removes anything stored by earlier calls |
| Loader.ParsedMembersStored | lib/JavaClassLoader.js:96-98 | every member that parses is present under the class afterwards |
| Loader.ParsedAddedGrows | lib/JavaClassLoader.js:112-124 | storing a parse result keeps every earlier key |
| Loader.ParsedAddedStores | lib/JavaClassLoader.js:112-124 | a successful parse is stored under its key |
| Loader.ClassAddedKeepsOther | lib/JavaClassLoader.js:93-94 | adding a class keeps the `"class"` entry of every other name |
| Loader.NoClashPrefix | lib/JavaClassLoader.js:70-78 | the no-clash condition on a record list holds for its prefix and rules out the last record |
| Loader.NoClash | lib/JavaClassLoader.js:93-94 | no record names the `"class"` category, the class, or a class whose inverse name is it |
| Loader.ClassRanked | lib/JavaClassLoader.js:93 | the `"class"` trie maps the name to its class descriptor with that rank |
| Loader.RecordsKeepClass | lib/JavaClassLoader.js:70-78 | later records that do not name a class keep its entry and rank |
| Loader.LastRecordStored | lib/JavaClassLoader.js:66-78 | the last class read is stored with its origin's rank |
| Loader.LastRecordRanks | lib/JavaClassLoader.js:66-78 | a class is stored with its origin's rank when no later record overwrites it |
| Reader.ClassNameOf | lib/JavaClassReader.js:91 | a class name derived from a path has no `/` left |
| Reader.ClassNameOfClassFile | lib/JavaClassReader.js:91 | `a/b/C.class` becomes `a.b.C`: the suffix is removed and every `/` becomes `.` |
| Reader.InnerClassKept | lib/JavaClassReader.js:91 | `pkg/Outer$Inner.class` becomes `pkg.Outer$Inner`, with no inner-class filtering |
| Reader.MemberFrom | lib/JavaClassReader.js:98 | the leftmost-longest `(\S.*);` match from a position, or none from there on |
| Reader.MemberSpan | lib/JavaClassReader.js:98 | a `(\S.*);` match at `(i, j)`: a non-space at `i`, no line terminator up to `j` and `;` at `j` |
| Reader.IsMemberLine | lib/JavaClassReader.js:98 | a member line: a non-space start, at least two characters, one line, a final `;` |
| Reader.MatchesFrom | lib/JavaClassReader.js:98 | every global match is a member line: a non-space start, one line and a final `;` |
| Reader.JavapMembers | lib/JavaClassReader.js:98 | `match(/(\S.*);/g)`: member lines when there are any, `null` exactly when nothing matches |
| Reader.OneLineMember | lib/JavaClassReader.js:98 | a one-line listing gives the text from its first non-space through its last `;` |
| Reader.OneLineFirst | lib/JavaClassReader.js:98 | on one line, the match starts at the first non-space and ends at the last `;` |
| Reader.SpanEndsAtSemicolon | lib/JavaClassReader.js:98 | every member match ends at a `;` |
| Reader.NoSemicolonNoMember | lib/JavaClassReader.js:98 | output without `;` has no member lines |
| Reader.ReadClass | lib/JavaClassReader.js:90-104 | no callback for an empty class name; else one callback with the name, and `[]` without member fetching or the `javap` member lines with it |
| Reader.JavapCommand | lib/JavaClassReader.js:96 | the `javap -classpath cp name` command line |
| Reader.ReadClassList | lib/JavaClassReader.js:80-86 | the callbacks of `readClass` for each listed path, in order |
| Reader.UnzipCommand | lib/JavaClassReader.js:78 | the `unzip -l` listing command line for a jar |
| Reader.JarSpec | lib/JavaClassReader.js:77-88 | `readJarClasses`: the listing split on `\n`, every line read as a class |
| Reader.StarSpec | lib/JavaClassReader.js:36-45 | the jar reads of each listed name ending in `.jar`, in listing order |
| Reader.ClassFilePath | lib/JavaClassReader.js:56-57 | `root/name` with the first `fullPath/` removed |
| Reader.WalkSpec | lib/JavaClassReader.js:55-66 | the class reads of each walked file whose name ends in `.class`, in walk order |
| Reader.PathSpec | lib/JavaClassReader.js:28-75 | `readPathClasses`: a jar for `.jar`, the `*` directory's jars for `*` with the first `*` removed, else a walk |
| Reader.EntriesSpec | lib/JavaClassReader.js:17-24 | the path reads of each non-empty entry at its resolved path, in order |
| Reader.ClasspathSpec | lib/JavaClassReader.js:14-26 | `readClasses`: the entries of `classpath.split(':')` read in order |
| Reader.ReadClassListStep | lib/JavaClassReader.js:80-86 | jar entries are read one after another, in listing order |
| Reader.ResolveEntry | lib/JavaClassReader.js:21 | an entry starting with `.` is resolved as `rootDir/entry`, any other is kept |
| Reader.StarStep | lib/JavaClassReader.js:37-45 | the jars of a `*` directory are read one after another, in listing order |
| Reader.WalkStep | lib/JavaClassReader.js:55-66 | walked files are read one after another, in walk order |
| Reader.EntriesStep | lib/JavaClassReader.js:17-24 | classpath entries are read one after another, in classpath order |
| Reader.EntriesAppend | lib/JavaClassReader.js:17-24 | reading two lists of entries in sequence equals reading them joined |
| Reader.ClasspathAppend | lib/JavaClassReader.js:17-24 | reading `a:b` is reading `a` and then `b` |
| Reader.ClasspathEntry | lib/JavaClassReader.js:17-21 | an empty entry reads nothing; any other is read at its resolved path |
| Reader.WalkOnlyClassFiles | lib/JavaClassReader.js:56-59 | every class a walk reports comes from a walked file whose name ends in `.class` |
| Reader.StarOnlyJars | lib/JavaClassReader.js:38-41 | every class a `*` entry reports comes from a listed name ending in `.jar` |
| Reader.JavaClassReader.constructor | lib/JavaClassReader.js:10-12 | the reader keeps the `fetchMembers` flag |
| Reader.JavaClassReader.ReadClasses | lib/JavaClassReader.js:14-26 | the callbacks of the classpath's non-empty entries, in order, each at its resolved path |
| Reader.JavaClassReader.ReadPathClasses | lib/JavaClassReader.js:28-75 | a `.jar` path is read as a jar; a `*` path has its first `*` removed and its `.jar` names read; any other is walked for `.class` files |
| Reader.JavaClassReader.ReadJarClasses | lib/JavaClassReader.js:77-88 | the listing is split on newlines and every line is read as a class, in order |
| JavaProvider.MemberKeyIsGroup | lib/JavaAutocompleteProvider.js:93 | the member key is the `\s\S*;` group with its `;`, or `''` when nothing matches |
| JavaProvider.MemberKey | lib/JavaAutocompleteProvider.js:93 | `(member.match(/\s[^\s]*;/g) || [''])[0].trim()`, read through the first match; `MemberKeyIsGroup` states it |
| JavaProvider.KeyMatchShape | lib/JavaAutocompleteProvider.js:93 | a key match is a whitespace, a run of non-whitespace and a `;` |
| JavaProvider.TrimWordAfterSpace | lib/JavaAutocompleteProvider.js:93 | trimming the match keeps the run and its `;` |
| JavaProvider.LeftLabel | lib/JavaAutocompleteProvider.js:98 | `leftLabel` is the trimmed text before the last whitespace, `''` when there is none |
| JavaProvider.JavapMemberLine | lib/JavaAutocompleteProvider.js:91-99 | `public type name;` is stored under `name;`, as a method exactly when `name` has `(`, with label `type` |
| JavaProvider.KeyOfJavapLine | lib/JavaAutocompleteProvider.js:93 | the key of ` type name;` is `name;` |
| JavaProvider.LabelOfJavapLine | lib/JavaAutocompleteProvider.js:98 | the label of ` type name;` is `type` |
| JavaProvider.ParenInKey | lib/JavaAutocompleteProvider.js:97 | the key holds `(` exactly when the name does |
| JavaProvider.EntryOfStripped | lib/JavaAutocompleteProvider.js:92-98 | an entry is read from the line with its first `public` removed |
| JavaProvider.TypeOf | lib/JavaAutocompleteProvider.js:79-97 | an entry's `type`: `class` for class entries, `method` or `property` by the member flag |
| JavaProvider.MemberEntryOf | lib/JavaAutocompleteProvider.js:92-98 | one member line's key and entry: the first `public` removed, the key as snippet, a method flag by `(` and the left label |
| JavaProvider.LineLayout | lib/JavaAutocompleteProvider.js:93-98 | position by position, the line is ` type name;` |
| JavaProvider.MemberEntries | lib/JavaAutocompleteProvider.js:91-99 | one key and entry per member line, in order |
| JavaProvider.EntriesAdded | lib/JavaAutocompleteProvider.js:91-100 | the tries after storing each member entry under the class, in order |
| JavaProvider.ClassEntriesAdded | lib/JavaAutocompleteProvider.js:78-90 | the inverse-name entry (simple name, label `className`) and then the class-name entry in `"class"` |
| JavaProvider.DescriptionAdded | lib/JavaAutocompleteProvider.js:75-102 | `_addClassDescription`: the class entries unless members only, then every member entry |
| JavaProvider.EventsAdded | lib/JavaAutocompleteProvider.js:56-70 | the tries after `_addClassDescription` for each reader callback, in order |
| JavaProvider.ClasspathOf | lib/JavaAutocompleteProvider.js:51 | the `.classpath` file read from the root directory |
| JavaProvider.PassAdded | lib/JavaAutocompleteProvider.js:46-73 | `_loadSuggestionsImpl`: the trimmed classpath read against the root, then `rt.jar` when `java -verbose` names one |
| JavaProvider.ReloadAdded | lib/JavaAutocompleteProvider.js:29-36 | a fresh dictionary after the basic pass and, when requested, the members pass |
| JavaProvider.Lookup | lib/JavaAutocompleteProvider.js:107-118 | the category and prefix `getSuggestions` searches: the inferred class and the prefix for a class member name, else `"class"` and the full name |
| JavaProvider.Suggested | lib/JavaAutocompleteProvider.js:119-121 | one clone per found entry, its `replacementPrefix` the full name for classes and the prefix otherwise |
| JavaProvider.JavaAutocompleteProvider.constructor | lib/JavaAutocompleteProvider.js:15-23 | a new provider has an empty dictionary and is not loading |
| JavaProvider.JavaAutocompleteProvider.AddMemberLine | lib/JavaAutocompleteProvider.js:91-100 | one member line adds its entry under the class |
| JavaProvider.JavaAutocompleteProvider.AddClassDescription | lib/JavaAutocompleteProvider.js:75-102 | two class entries unless members only, then every member line under the class; resolves to the class name |
| JavaProvider.JavaAutocompleteProvider.AddMemberLines | lib/JavaAutocompleteProvider.js:91-100 | the member loop adds each line in turn |
| JavaProvider.JavaAutocompleteProvider.AddEvents | lib/JavaAutocompleteProvider.js:56-70 | each reader callback adds its class description, in order |
| JavaProvider.JavaAutocompleteProvider.LoadSuggestionsImpl | lib/JavaAutocompleteProvider.js:46-73 | the trimmed `.classpath` is read against the root, then `rt.jar` when `java -verbose` names one |
| JavaProvider.JavaAutocompleteProvider.LoadSuggestions | lib/JavaAutocompleteProvider.js:25-44 | while loading, nothing changes; else a fresh dictionary gets the basic pass, then the members pass only when requested, and `loading` ends false |
| JavaProvider.JavaAutocompleteProvider.GetSuggestions | lib/JavaAutocompleteProvider.js:104-122 | the inferred class's members by prefix for a class member name, else classes by full name; stored entries are left as they are |
| JavaProvider.EntriesStep | lib/JavaAutocompleteProvider.js:91-100 | member lines are added one after another, in order |
| JavaProvider.EventsStep | lib/JavaAutocompleteProvider.js:56-70 | classes are added one after another, in callback order |
| JavaProvider.EntriesOnlyOwnCategory | lib/JavaAutocompleteProvider.js:95 | member lines touch no category but the class's own |
| JavaProvider.EntriesStored | lib/JavaAutocompleteProvider.js:95 | every member line's key is stored under the class |
| JavaProvider.MemberLinesStored | lib/JavaAutocompleteProvider.js:91-100 | after `_addClassDescription`, every member line's key is present under the class |
| JavaProvider.DescriptionStoresClass | lib/JavaAutocompleteProvider.js:78-90 | the class name maps to a class entry with text `className`; the inverse name maps to one with the simple name and label `className` |
| JavaProvider.MembersOnlyKeepsClasses | lib/JavaAutocompleteProvider.js:78 | with `addMembersOnly`, the class entries are left as they were |
| JavaProvider.SuggestionPrefixes | lib/JavaAutocompleteProvider.js:119-121 | a suggestion's `replacementPrefix` is the full name exactly for class entries |
| JavaProvider.ClassSuggested | lib/JavaAutocompleteProvider.js:117-121 | for a name that is not a class member name, every class entry starting with it is suggested unchanged |
| JavaProvider.DescribedClassSuggested | lib/JavaAutocompleteProvider.js:75-121 | a described class is then suggested for every line whose full name is a prefix of its name and not a class member name, with the full name as `replacementPrefix` |
| JavaProvider.MemberSuggested | lib/JavaAutocompleteProvider.js:109-121 | for a class member name, every member entry of the inferred class matching the prefix is suggested with the prefix |
| AtomJavaUtil.ValidClassNameIff | lib/atomJavaUtil.js:85-87 | `_isValidClassName` holds exactly when the last `.`-segment is non-empty, starts upper-case and has no `)` |
| AtomJavaUtil.IsValidClassName | lib/atomJavaUtil.js:85-87 | `_isValidClassName`: `^[A-Z][^.)]*$` or `\.[A-Z][^.)]*$` matches somewhere; `ValidClassNameIff` characterises it |
| AtomJavaUtil.ValidWithoutDot | lib/atomJavaUtil.js:85-87 | without a dot, only `^[A-Z][^.)]*$` can match |
| AtomJavaUtil.ValidAfterLastDot | lib/atomJavaUtil.js:85-87 | with a dot, only `\.[A-Z][^.)]*$` at the last dot can match |
| AtomJavaUtil.PossibleClassNames | lib/atomJavaUtil.js:14-31 | `[imported]` if an import matches, else `[pkg.Name, java.lang.Name]` for a dot-free prefix, else `[prefix]`; two names exactly in the second case |
| AtomJavaUtil.NoDotIndex | lib/atomJavaUtil.js:18 | `indexOf('.') === -1` exactly when there is no dot |
| AtomJavaUtil.GetWord | lib/atomJavaUtil.js:37-41 | the full name, or with `removeParenthesis` its text after the last `(`, which then holds no `(` |
| AtomJavaUtil.CutParenSuffix | lib/atomJavaUtil.js:40 | cutting `.*\(` from a one-line suffix of the line leaves the text after its last `(`, itself a `(`-free suffix of the line |
| AtomJavaUtil.ParenCutOneLine | lib/atomJavaUtil.js:40 | `replace(/.*\(/, '')` on one line keeps just the text after the last `(` |
| AtomJavaUtil.FirstParenSpan | lib/atomJavaUtil.js:40 | on one line, `.*\(` matches from the start through the last `(` |
| AtomJavaUtil.GenericCut | lib/atomJavaUtil.js:63 | `Base<Args>` with the generic stripped is `Base` |
| AtomJavaUtil.PrefixClassName | lib/atomJavaUtil.js:51-53 | after `((`, the class name is the prefix up to its first `)`; otherwise the prefix itself |
| AtomJavaUtil.ParenFree | lib/atomJavaUtil.js:52 | the length of the prefix before its first `)` |
| AtomJavaUtil.LooksUpVariable | lib/atomJavaUtil.js:55-56 | the variable lookup runs exactly when the class name is not valid and the prefix has no `.` or `)` |
| AtomJavaUtil.DetermineClassName | lib/atomJavaUtil.js:43-83 | `isInstance` starts as "prefix ends with `)`"; the variable lookup strips `<...>` and sets it; a valid name gives the candidate list, else `[prevReturnType]` with `isInstance`; a failed lookup gives `{}` |
| AtomJavaUtil.Resolve | lib/atomJavaUtil.js:67-75 | a valid name gives its candidate list, and an invalid one `[prevReturnType]` as an instance |
| AtomProvider.ReducedIsCommaEach | lib/AtomAutocompleteProvider.js:93-95 | the reduce appends every placeholder followed by `, ` |
| AtomProvider.Placeholder | lib/AtomAutocompleteProvider.js:91 | the placeholder `${index+2:param}` |
| AtomProvider.Placeholders | lib/AtomAutocompleteProvider.js:90-92 | one placeholder per parameter, numbered from 2 |
| AtomProvider.Reduced | lib/AtomAutocompleteProvider.js:93-94 | the reduce from `name(`, appending each placeholder and `, ` |
| AtomProvider.CommaEach | lib/AtomAutocompleteProvider.js:93-94 | reference form: each part followed by `, ` |
| AtomProvider.CommaJoin | lib/AtomAutocompleteProvider.js:93-95 | reference form: the parts joined by `, ` |
| AtomProvider.CloseParams | lib/AtomAutocompleteProvider.js:95 | `replace(/, $/, ')')`: a final `, ` becomes `)` |
| AtomProvider.MemberSnippet | lib/AtomAutocompleteProvider.js:85-98 | `_createMemberSnippet`; `MemberSnippetShape` gives its shape |
| AtomProvider.CommaEachIsJoin | lib/AtomAutocompleteProvider.js:93-95 | that is the placeholders joined by `, ` plus a final `, ` |
| AtomProvider.CloseOpenParen | lib/AtomAutocompleteProvider.js:95 | `replace(/, $/, ')')` leaves `name(` as it is |
| AtomProvider.CloseAfterComma | lib/AtomAutocompleteProvider.js:95 | a final `, ` becomes `)` |
| AtomProvider.MemberSnippetShape | lib/AtomAutocompleteProvider.js:85-98 | `name` without params, `name(` for an empty list, else `name(${2:p1}, ${3:p2}, ...)` |
| AtomProvider.TypeName | lib/AtomAutocompleteProvider.js:66 | a descriptor's `type`: `class`, `method` or `property` |
| AtomProvider.UsesFullClassName | lib/AtomAutocompleteProvider.js:75-76 | a class on a line starting with `import`, or a member with a `.` in the prefix |
| AtomProvider.Snippet | lib/AtomAutocompleteProvider.js:72-83 | `_createSnippet`; `SnippetShape` gives its shape |
| AtomProvider.SnippetShape | lib/AtomAutocompleteProvider.js:72-83 | the full class name exactly for a class on an `import` line or a member with a dotted prefix; `${1:text}.` before members only when `addMemberClass` |
| AtomProvider.CountInStep | lib/AtomAutocompleteProvider.js:58-61 | the counter of a snippet grows by one per occurrence |
| AtomProvider.CountInZero | lib/AtomAutocompleteProvider.js:58-61 | a snippet's count is 0 exactly when it has not occurred |
| AtomProvider.CountIn | lib/AtomAutocompleteProvider.js:58-61 | how often a snippet occurs among the earlier ones |
| AtomProvider.Numbered | lib/AtomAutocompleteProvider.js:63 | the snippet, with ` (counter)` appended when the counter exceeds 1 |
| AtomProvider.Snippets | lib/AtomAutocompleteProvider.js:57 | the base snippet of each result, with `addMemberClass` as `!isInstance` |
| AtomProvider.SuggestionOf | lib/AtomAutocompleteProvider.js:62-68 | the suggestion object of one result and its counter; `SuggestionFields` states its fields |
| AtomProvider.Counts | lib/AtomAutocompleteProvider.js:53-61 | the duplicate counter after some snippets: exactly those snippets, each at one more than its occurrences |
| AtomProvider.Built | lib/AtomAutocompleteProvider.js:56-69 | the suggestions so far are those of the results so far |
| AtomProvider.NumberedSuggestions | lib/AtomAutocompleteProvider.js:56-69 | one suggestion per result |
| AtomProvider.Suggestions | lib/AtomAutocompleteProvider.js:56-69 | same length as the results, in their order |
| AtomProvider.SuggestionFields | lib/AtomAutocompleteProvider.js:56-68 | a first occurrence keeps its snippet and the k-th gets ` (k)`; `replacementPrefix` is the suffix for instances and the text otherwise; `leftLabel` is the return type or the class name; the type is the kind |
| AtomProvider.NumberedShape | lib/AtomAutocompleteProvider.js:63 | counter 1 adds nothing, and a higher counter adds ` (counter)` |
| AtomProvider.CountsStep | lib/AtomAutocompleteProvider.js:58-61 | the counter object holds one more than the occurrences seen so far, and the step keeps that |
| AtomProvider.BuiltStep | lib/AtomAutocompleteProvider.js:56-69 | each mapped result extends the suggestions built so far |
| AtomProvider.BuiltAll | lib/AtomAutocompleteProvider.js:56-69 | once every result is mapped, the list is the numbered suggestions |
| AtomProvider.CountGrows | lib/AtomAutocompleteProvider.js:58-61 | a later repeat of a snippet has a higher counter |
| AtomProvider.NatToStringInjective | lib/AtomAutocompleteProvider.js:63 | different counters print differently |
| AtomProvider.NumberedDistinct | lib/AtomAutocompleteProvider.js:63 | one snippet numbered twice differently gives two different texts |
| AtomProvider.RepeatsDistinct | lib/AtomAutocompleteProvider.js:52-63 | two results with the same base snippet get different suggestion snippets |
| AtomProvider.TextPrefix | lib/AtomAutocompleteProvider.js:29 | the text before the last `.`, or `''` with no dot |
| AtomProvider.Word | lib/AtomAutocompleteProvider.js:28 | `getWord` of the cursor line with the parenthesis cut |
| AtomProvider.Suffix | lib/AtomAutocompleteProvider.js:30 | `origPrefix.replace('.', '')` |
| AtomProvider.CouldBeClass | lib/AtomAutocompleteProvider.js:31 | `/^[A-Z]/.test(suffix) || prefix`: an upper-case first letter or a non-empty prefix |
| AtomProvider.Stat | lib/AtomAutocompleteProvider.js:42-43 | the `determineClassName` result for the editor |
| AtomProvider.CandidateClasses | lib/AtomAutocompleteProvider.js:45 | the class names of the result, none for `{}` |
| AtomProvider.MemberSearch | lib/AtomAutocompleteProvider.js:45-49 | the candidate loop: the first non-empty member results, or the last query's, with the tries created on the way; `MemberSearchFirst` and `MemberSearchKeeps` state it |
| AtomProvider.LookupWith | lib/AtomAutocompleteProvider.js:31-50 | the class lookup when a class is possible, then the member search when it found nothing and the prefix is non-empty; `LookupOrder` states it |
| AtomProvider.Lookup | lib/AtomAutocompleteProvider.js:27-50 | the lookup for an editor: text, prefix, suffix and class names from the cursor line |
| AtomProvider.MemberSearchFirst | lib/AtomAutocompleteProvider.js:45-49 | the member search stops at the first candidate with results |
| AtomProvider.MemberSearchKeeps | lib/AtomAutocompleteProvider.js:45-49 | the search only creates missing tries |
| AtomProvider.LookupOrder | lib/AtomAutocompleteProvider.js:31-50 | class results win when class lookup runs and finds any; no prefix and no class lookup finds nothing; member results come from a candidate class only when the prefix is non-empty |
| AtomProvider.FirstFound | lib/AtomAutocompleteProvider.js:45-49 | the index of the first candidate with results, none before it |
| AtomProvider.AtomAutocompleteProvider.constructor | lib/AtomAutocompleteProvider.js:8-14 | the provider holds the loader, and `prevReturnType` starts undefined |
| AtomProvider.AtomAutocompleteProvider.FindWith | lib/AtomAutocompleteProvider.js:34-50 | the results, `isInstance` and the dictionary after the class and member lookups |
| AtomProvider.AtomAutocompleteProvider.FindMember | lib/AtomAutocompleteProvider.js:45-49 | the candidate loop, which queries until results appear |
| AtomProvider.AtomAutocompleteProvider.Suggest | lib/AtomAutocompleteProvider.js:52-69 | the mapping loop builds the numbered suggestions |
| AtomProvider.AtomAutocompleteProvider.NumberSnippets | lib/AtomAutocompleteProvider.js:53-69 | the duplicate counter loop yields each snippet numbered by its occurrence |
| AtomProvider.AtomAutocompleteProvider.GetSuggestions | lib/AtomAutocompleteProvider.js:23-70 | the suggestions of the results the lookup finds, taken from the line, the word, its prefix and suffix, in listing order |
| AtomProvider.AtomAutocompleteProvider.OnDidInsertSuggestion | lib/AtomAutocompleteProvider.js:101-112 | a dot-free class snippet asks to import its class; a non-class member sets `prevReturnType` to its return type, and nothing else does |
| AtomProvider.NumberedDots | lib/AtomAutocompleteProvider.js:63 | numbering adds no dot |
| AtomProvider.ClassImportOnInsert | lib/AtomAutocompleteProvider.js:72-106 | a class with a dotted name is imported on insert exactly when the line does not start with `import` |
| AtomPackage.RemoveNewlines | lib/atomAutocompletePackage.js:70 | no `\r` or `\n` is left |
| AtomPackage.RemoveNewlinesKeeps | lib/atomAutocompletePackage.js:70 | every other character keeps its count |
| AtomPackage.RemoveNewlinesFree | lib/atomAutocompletePackage.js:70 | a classpath without newlines is unchanged |
| AtomPackage.WindowsSeparators | lib/atomAutocompletePackage.js:72 | every `:` becomes `;` when `rootDir` has a `:`; `WindowsSeparatorsIff` states it |
| AtomPackage.RootedDots | lib/atomAutocompletePackage.js:74 | every `.` becomes `rootDir/.`, then the result is trimmed |
| AtomPackage.WindowsSeparatorsIff | lib/atomAutocompletePackage.js:72 | with `:` in `rootDir`, no `:` is left and each one became a `;`; otherwise the classpath is unchanged |
| AtomPackage.ReplaceAllCount | lib/atomAutocompletePackage.js:72-74 | a global replace multiplies counts of the inserted text by the replaced characters |
| AtomPackage.OnePass | lib/atomAutocompletePackage.js:74 | every `.` becomes `rootDir/.` in one pass, and inserted dots are not replaced again |
| AtomPackage.Collapse | lib/atomAutocompletePackage.js:76 | collapsing never lengthens the classpath |
| AtomPackage.CollapseDotFree | lib/atomAutocompletePackage.js:76 | text without dots is not collapsed |
| AtomPackage.CollapsePrefix | lib/atomAutocompletePackage.js:76 | collapsing works left to right, without overlaps |
| AtomPackage.CollapseMatch | lib/atomAutocompletePackage.js:76 | a slash, a dot and a slash collapse to `/` |
| AtomPackage.CollapseOnce | lib/atomAutocompletePackage.js:76 | `/././` becomes `/./`, since matches do not overlap |
| AtomPackage.RootedRelative | lib/atomAutocompletePackage.js:74 | `./a:./b` becomes `rootDir/./a:rootDir/./b` |
| AtomPackage.CollapseRelative | lib/atomAutocompletePackage.js:76 | that then becomes `rootDir/a:rootDir/b` |
| AtomPackage.FormatClassPath | lib/atomAutocompletePackage.js:68-77 | `_formatClassPath`: newlines removed, separators converted, dots rooted, `/./` collapsed |
| AtomPackage.FormatRelativeEntries | lib/atomAutocompletePackage.js:68-77 | `_formatClassPath` maps `./a:./b` to `rootDir/a:rootDir/b` for dot-free, colon-free `rootDir` |
| AtomPackage.FormatBinAndLib | lib/atomAutocompletePackage.js:68-77 | `./bin:./lib/*` becomes `rootDir/bin:rootDir/lib/*` |
| AtomPackage.FormatNoNewlines | lib/atomAutocompletePackage.js:68-77 | the formatted classpath has no newline unless `rootDir` brings one |
| AtomPackage.FileSpanIff | lib/atomAutocompletePackage.js:88 | a `/([^/]*)\.java` match is a `/`, a slash-free run and `.java` |
| AtomPackage.FileSpan | lib/atomAutocompletePackage.js:88 | a `/([^/]*)\.java` match at `(i, j)`: `/` at `i`, no `/` up to `j`, `.java` at `j` |
| AtomPackage.FileSpanFrom | lib/atomAutocompletePackage.js:88 | the leftmost-longest file match from a position, or none |
| AtomPackage.FileMatch | lib/atomAutocompletePackage.js:88 | a slash-free base name found as `/name.java`, and none exactly when nothing matches |
| AtomPackage.FileOfPath | lib/atomAutocompletePackage.js:88 | `dir/Name.java` yields `Name` |
| AtomPackage.PackageSpanFrom | lib/atomAutocompletePackage.js:96 | the leftmost-longest `package\s(.*);` match from a position, or none |
| AtomPackage.PackageSpan | lib/atomAutocompletePackage.js:96 | a `package\s(.*);` match at `(i, j)`: `package`, one whitespace, one line, `;` at `j` |
| AtomPackage.PackageMatch | lib/atomAutocompletePackage.js:96 | a one-line package group, and none exactly when nothing matches |
| AtomPackage.PackageOfHeader | lib/atomAutocompletePackage.js:96 | `package p;` at the end of a line yields `p` |
| AtomPackage.SavedClassName | lib/atomAutocompletePackage.js:88-99 | `package.Name` exactly when both matches succeed, nothing otherwise |
| AtomPackage.SavedClassOfFile | lib/atomAutocompletePackage.js:86-101 | saving `dir/Name.java` declaring `package p;` refreshes `p.Name` |
| AtomPackage.AtomAutocompletePackage.constructor | lib/atomAutocompletePackage.js:11-17 | classpath `.`, a fresh loader with an empty dictionary, and a provider sharing it |
| AtomPackage.AtomAutocompletePackage.Refresh | lib/atomAutocompletePackage.js:50-66 | nothing without a root directory; else the formatted classpath is stored and a full reload runs, unless one is running |
| AtomPackage.AtomAutocompletePackage.RefreshClass | lib/atomAutocompletePackage.js:79-84 | the saved class is reloaded from the stored classpath, ranked by the time given |

## Left out

- Asynchrony: promises and `serialPromise` chains are sequential loops in the order the promises run. The `loading` flag is modelled only as seen before and after a whole reload, so a reload overlapping another is not modelled.
- Timers: the 2 s and 20 s `setTimeout` calls of `_onSave` are not modelled. Each would be one `RefreshClass` call with the time as a parameter, which also stands in for `Date.now()`.
- AtomProvider.AtomAutocompleteProvider.OnDidInsertSuggestion: it returns normally and gives back the class it would import, where the source throws. `atomJavaUtil.importClass` (lib/AtomAutocompleteProvider.js:105) is not defined in lib/atomJavaUtil.js, so a dot-free class snippet raises a TypeError there. Every other insertion ends in `this.classLoader.touch(desc)` (lib/AtomAutocompleteProvider.js:111), and `JavaClassLoader.touch` (lib/JavaClassLoader.js:25-27) calls `this.dict.touch`, which `Dictionary` does not define, so it raises a TypeError after `prevReturnType` has been set. The model's state after the call is the source's state when that error is thrown; the throw itself is not represented.
- AtomPackage.SavedClassName: the `organizeImportsOnSave` setting is not a parameter, and the model follows the path where it is off. With it on, `_onSave` calls `this.provider.organizeImports(editor)` (lib/atomAutocompletePackage.js:92), which `AtomAutocompleteProvider` does not define, so `_onSave` throws before the package match and the class refresh (lines 96-101); `AtomPackage.AtomAutocompletePackage.RefreshClass` describes only the refresh that follows when the setting is off.
- `JavaAutocompleteProvider.onDidInsertSuggestion` is not modelled: all it does is edit the buffer.
- `configure`, `activate`, `deactivate`, the subscriptions, `atom.config` and console logging are left out as Atom plumbing. Each configuration value is a parameter instead.
- `_getProjectRootDir` is an `Option` parameter, because it reads workspace globals and `fs.realpathSync`.
- lib/main.js, lib/atomUtil.js and lib/ioUtil.js are not part of this model. File reads, `exec`, `readDir` and the `walk` library are given functions. A failed read is their `""` or `[]` result.
- Interpolated regexes: `classSimpleName` and the variable-lookup prefix are read as literal text. Regex metacharacters in them are not interpreted. The variable-declaration match of `determineClassName` is the `varLookup: Option<string>` input, with `None` for a regex that throws.
- `javaUtil.getInverseName`, `readClassesFromClasspath`, `readClassesFromJar` and the three-argument `readClass` are uninterpreted functions. The loader's record `origin` is what that reader would report.
- Trie order: the result order of a trie is the `listing` parameter of `AtomProvider.AtomAutocompleteProvider.GetSuggestions`. Tries are modelled as key-to-descriptor maps.
- AtomProvider.AtomAutocompleteProvider.GetSuggestions: `listing` is not constrained to list exactly the entries of the trie it is given.
- AtomProvider.NumberedSuggestions: the duplicate counter is a map from snippet text. A snippet equal to an `Object.prototype` key, such as `constructor`, is not given JavaScript's inherited value.
- AtomProvider.AtomAutocompleteProvider.constructor: an undefined `prevReturnType` is modelled as the text `"undefined"`. The `"undefined"` category then stands in for the JavaScript `Map` lookup of an undefined key.
- Loader.ClassDesc: the `lastUsed || 0` fallback changes only `NaN` and `undefined`. Ranks are integers here, so it is the identity.
- String `replace` replacement patterns (`$&`, `$1`, and so on) in interpolated text are not interpreted.
- Null member lists: `_.each(null)` reads a `javap` listing without matches as no members.
- Integers are unbounded, and the duplicate counter and ranks need no wrap-around.
