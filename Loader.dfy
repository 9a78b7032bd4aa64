/**
 * The class loader of JavaClassLoader.js: the descriptor dictionary, the two-pass
 * reload guarded by the `loading` flag, the origin-based ranks, and the parser that
 * turns one `javap` prototype line into a member descriptor.
 *
 * The class reader the loader drives (`readClassesFromClasspath`, `readClassesFromJar`
 * and a three-argument `readClass` callback) is not defined where the loader
 * expects it; it is a given `Sources` value whose functions yield the
 * `(origin, className, members)` triples the reader would pass to the callback, in
 * callback order. `javaUtil.getInverseName` is not defined either and is a given
 * function of the loader.
 */
module Loader {
  import opened Wrappers
  import opened JsStrings
  import opened Dictionaries
  import JavaUtil

  datatype Kind = ClassKind | MethodKind | PropertyKind

  /** The `member` part of a member descriptor; `params` is `null` for a property. */
  datatype Member = Member(name: string, returnType: string, params: Option<seq<string>>, prototype: string)

  /** A stored descriptor: `type`, `name`, `simpleName`, `className`, `lastUsed` and, for members, `member`. */
  datatype Desc = Desc(kind: Kind, name: string, simpleName: string, className: string, lastUsed: int, member: Option<Member>)

  // ---------------------------------------------------------------------------
  // Prototype normalisation (JavaClassLoader.js:105-106)
  // ---------------------------------------------------------------------------

  /** `s.replace(/,\s/g, ',')`: each comma-whitespace pair, left to right, loses its whitespace. */
  function CommaSpaces(s: string): (r: string)
    ensures |r| <= |s|
    ensures Count(r, ',') == Count(s, ',')
  {
    if s == [] then []
    else if |s| >= 2 && s[0] == ',' && IsSpace(s[1]) then
      var t := CommaSpaces(s[2..]);
      assert ([','] + t)[1..] == t;
      assert s[1..][1..] == s[2..];
      [','] + t
    else
      var t := CommaSpaces(s[1..]);
      assert ([s[0]] + t)[1..] == t;
      [s[0]] + t
  }

  /** No comma is followed by whitespace. */
  predicate CommaSpaceFree(s: string) {
    forall i :: 0 <= i < |s| - 1 && s[i] == ',' ==> !IsSpace(s[i + 1])
  }

  lemma {:induction false} CommaSpacesKeeps(s: string)
    requires CommaSpaceFree(s)
    ensures CommaSpaces(s) == s
    decreases |s|
  {
    if s != [] {
      assert CommaSpaceFree(s[1..]) by {
        forall i | 0 <= i < |s[1..]| - 1 && s[1..][i] == ',' ensures !IsSpace(s[1..][i + 1]) {
          assert s[i + 1] == ',';
        }
      }
      CommaSpacesKeeps(s[1..]);
      assert s == [s[0]] + s[1..];
    }
  }

  /** The prototype after removing the first `public`, the first `static`, the space after each comma, and trimming. */
  function Normalize(prototype: string): (p: string)
    ensures |p| <= |prototype|
    ensures p == [] || (!IsSpace(p[0]) && !IsSpace(p[|p| - 1]))
  {
    Trim(CommaSpaces(ReplaceFirst(ReplaceFirst(prototype, "public", ""), "static", "")))
  }

  /** A `replace` whose pattern does not occur leaves the text unchanged. */
  lemma ReplaceAbsent(s: string, pat: string, rep: string)
    requires !Contains(s, pat)
    ensures ReplaceFirst(s, pat, rep) == s
  {
  }

  /** A prototype already in normal form is its own normalisation. */
  lemma NormalizeKeeps(p: string)
    requires !Contains(p, "public") && !Contains(p, "static")
    requires CommaSpaceFree(p)
    requires p == [] || (!IsSpace(p[0]) && !IsSpace(p[|p| - 1]))
    ensures Normalize(p) == p
  {
    ReplaceAbsent(p, "public", "");
    ReplaceAbsent(p, "static", "");
    CommaSpacesKeeps(p);
    TrimKeeps(p);
  }

  // ---------------------------------------------------------------------------
  // The regular expressions of JavaClassLoader.js:109-121
  // ---------------------------------------------------------------------------

  /** The end of the run of non-whitespace characters starting at `from`. */
  function SpaceFrom(s: string, from: nat): (k: nat)
    requires from <= |s|
    ensures from <= k <= |s|
    ensures forall i :: from <= i < k ==> !IsSpace(s[i])
    ensures k < |s| ==> IsSpace(s[k])
    decreases |s| - from
  {
    if from == |s| || IsSpace(s[from]) then from else SpaceFrom(s, from + 1)
  }

  /** The end of the run of characters that are neither whitespace nor `(`, starting at `from`. */
  function NameStop(s: string, from: nat): (k: nat)
    requires from <= |s|
    ensures from <= k <= |s|
    ensures forall i :: from <= i < k ==> !IsSpace(s[i]) && s[i] != '('
    ensures k < |s| ==> IsSpace(s[k]) || s[k] == '('
    decreases |s| - from
  {
    if from == |s| || IsSpace(s[from]) || s[from] == '(' then from else NameStop(s, from + 1)
  }

  /** The first index in `[lo, hi)` holding `c`. */
  function FirstCharIn(s: string, c: char, lo: nat, hi: nat): (r: Option<nat>)
    requires hi <= |s|
    ensures r.Some? ==> lo <= r.value < hi && s[r.value] == c
    ensures forall i :: lo <= i < hi && (r.None? || i < r.value) ==> s[i] != c
    decreases hi - lo
  {
    if lo >= hi then None
    else if s[lo] == c then Some(lo)
    else FirstCharIn(s, c, lo + 1, hi)
  }

  /** The last index in `[lo, hi)` holding `c`. */
  function LastCharIn(s: string, c: char, lo: nat, hi: nat): (r: Option<nat>)
    requires hi <= |s|
    ensures r.Some? ==> lo <= r.value < hi && s[r.value] == c
    ensures forall i :: lo <= i < hi && (r.None? || r.value < i) ==> s[i] != c
    decreases hi - lo
  {
    if lo >= hi then None
    else if s[hi - 1] == c then Some(hi - 1)
    else LastCharIn(s, c, lo, hi - 1)
  }

  /** The last index below `hi` holding whitespace. */
  function LastSpaceBelow(s: string, hi: nat): (r: Option<nat>)
    requires hi <= |s|
    ensures r.Some? ==> r.value < hi && IsSpace(s[r.value])
    ensures forall i :: 0 <= i < hi && (r.None? || r.value < i) ==> !IsSpace(s[i])
  {
    if hi == 0 then None
    else if IsSpace(s[hi - 1]) then Some(hi - 1)
    else LastSpaceBelow(s, hi - 1)
  }

  /**
   * The three whitespace-anchored patterns of the parser:
   * `KeyCall` is `/\s([^\s]*\(.*\));/`, `KeyField` is `/\s([^\s]*);/` and
   * `MemberName` is `/\s([^\(\s]*)[\(;]/`.
   */
  datatype Pattern = KeyCall | KeyField | MemberName

  /**
   * The group end of `[^\s]*\(.*\)` followed by `;`, for a group starting at `from`:
   * the engine backtracks from the last `(` of the word towards its first, and
   * whichever `(` it settles on, the greedy `.*` reaches the last `);` of that line
   * after it; searching after the first `(` gives that same end.
   */
  function KeyCallEnd(p: string, from: nat): (e: Option<nat>)
    requires from <= |p|
    ensures e.Some? ==> from + 2 <= e.value < |p| && p[e.value - 1] == ')' && p[e.value] == ';'
  {
    match FirstCharIn(p, '(', from, SpaceFrom(p, from))
    case None => None
    case Some(a) =>
      match LastOccurrence(p, ");", a + 1, LineEnd(p, a + 1))
      case None => None
      case Some(b) =>
        assert p[b] == p[b..b + 2][0] && p[b + 1] == p[b..b + 2][1];
        Some(b + 1)
  }

  /** The group end of `[^\s]*` followed by `;`: the last `;` of the word starting at `from`. */
  function KeyFieldEnd(p: string, from: nat): (e: Option<nat>)
    requires from <= |p|
    ensures e.Some? ==> from <= e.value < |p| && p[e.value] == ';'
    ensures e.Some? ==> forall i :: from <= i < e.value ==> !IsSpace(p[i])
  {
    LastCharIn(p, ';', from, SpaceFrom(p, from))
  }

  /** Greedy `[^\s]*` makes the field key end at the last `;` of the word, and there is none past it. */
  lemma KeyFieldEndIsLast(p: string, from: nat)
    requires from <= |p|
    ensures var e := KeyFieldEnd(p, from);
      forall i :: from <= i < SpaceFrom(p, from) && (e.None? || e.value < i) ==> p[i] != ';'
  {
  }

  /**
   * The group end of `[^\(\s]*` followed by `(` or `;`: the `(` that stops the run
   * starting at `from`, or else the last `;` of the run.
   */
  function NameEnd(p: string, from: nat): (e: Option<nat>)
    requires from <= |p|
    ensures e.Some? ==> from <= e.value < |p| && (p[e.value] == '(' || p[e.value] == ';')
    ensures e.Some? ==> forall i :: from <= i < e.value ==> !IsSpace(p[i]) && p[i] != '('
  {
    var r := NameStop(p, from);
    if r < |p| && p[r] == '(' then Some(r) else LastCharIn(p, ';', from, r)
  }

  /** Whether `pat` matches with its `\s` at `w`, and if so the end of its group, which starts at `w + 1`. */
  function GroupEndAt(pat: Pattern, p: string, w: nat): (e: Option<nat>)
    requires w < |p|
    ensures e.Some? ==> IsSpace(p[w]) && w + 1 <= e.value < |p|
  {
    if !IsSpace(p[w]) then None
    else
      match pat
      case KeyCall => KeyCallEnd(p, w + 1)
      case KeyField => KeyFieldEnd(p, w + 1)
      case MemberName => NameEnd(p, w + 1)
  }

  /** The leftmost match of `pat` at or after `w`: its `\s` position and its group end. */
  function SearchFrom(pat: Pattern, p: string, w: nat): (m: Option<(nat, nat)>)
    ensures m.Some? ==> w <= m.value.0 < |p| && GroupEndAt(pat, p, m.value.0) == Some(m.value.1)
    ensures forall v :: w <= v < |p| && (m.None? || v < m.value.0) ==> GroupEndAt(pat, p, v).None?
    decreases |p| - w
  {
    if w >= |p| then None
    else
      match GroupEndAt(pat, p, w)
      case Some(e) => Some((w, e))
      case None => SearchFrom(pat, p, w + 1)
  }

  /** `p.match(pat)[1]`, or `None` where the match is `null`. */
  function Group(pat: Pattern, p: string): (g: Option<string>)
    ensures g.Some? && pat != KeyCall ==> NoSpace(g.value)
    ensures g.Some? && pat == MemberName ==> '(' !in g.value
  {
    match SearchFrom(pat, p, 0)
    case None => None
    case Some((w, e)) => Some(p[w + 1..e])
  }

  /** A match found at `w` with nothing earlier is the leftmost one. */
  lemma GroupAt(pat: Pattern, p: string, w: nat, e: nat)
    requires w < |p| && GroupEndAt(pat, p, w) == Some(e)
    requires forall v :: 0 <= v < w ==> GroupEndAt(pat, p, v).None?
    ensures Group(pat, p) == Some(p[w + 1..e])
  {
    SearchAt(pat, p, w, e);
  }

  lemma SearchAt(pat: Pattern, p: string, w: nat, e: nat)
    requires w < |p| && GroupEndAt(pat, p, w) == Some(e)
    requires forall v :: 0 <= v < w ==> GroupEndAt(pat, p, v).None?
    ensures SearchFrom(pat, p, 0) == Some((w, e))
  {
    var m := SearchFrom(pat, p, 0);
    assert m.Some? && m.value.0 <= w;
    assert m.value.0 >= w;
  }

  /** `p.match(/^(.*)\s/)[1]`: everything before the last whitespace of the first line. */
  function ReturnType(p: string): (t: Option<string>)
    ensures t.Some? ==> NoLineTerminator(t.value) && |t.value| < |p| && IsSpace(p[|t.value|])
  {
    var e := LineEnd(p, 0);
    match LastSpaceBelow(p, if e < |p| then e + 1 else |p|)
    case None => None
    case Some(k) =>
      assert p[..k] == p[0..e][..k];
      Some(p[..k])
  }

  /** `p.match(/\((.*)\)/)[1].split(',')`: the text between the first `(` and the last `)` of its line. */
  function Params(p: string): (ps: Option<seq<string>>)
    ensures ps.Some? ==> |ps.value| >= 1
  {
    match FirstSpan(p, "(", ")")
    case None => None
    case Some((i, j)) => Some(Split(p[i + 1..j], ','))
  }

  /**
   * `_addClassMember` up to the dictionary: the key and descriptor stored for one
   * prototype, or `None` when nothing is stored. The stored prototype is the
   * normalised one.
   */
  function ParseMember(className: string, prototype: string, lastUsed: int): (r: Option<(string, Desc)>)
    ensures Contains(Normalize(prototype), className) || Contains(Normalize(prototype), "{") ==> r.None?
    ensures r.Some? ==> r.value.1.member.Some? && r.value.1.member.value.prototype == Normalize(prototype)
  {
    ParseNormal(className, Normalize(prototype), lastUsed)
  }

  /**
   * The parse of a normalised prototype `p`: nothing when `p` names the class (a
   * constructor) or has a `{`, or when one of the matches is `null` and the
   * resulting `TypeError` is caught; otherwise the key and the descriptor.
   */
  function ParseNormal(className: string, p: string, lastUsed: int): (r: Option<(string, Desc)>)
    ensures Contains(p, className) || Contains(p, "{") ==> r.None?
    ensures r.Some? ==>
      var d := r.value.1;
      && d.className == className && d.simpleName == JavaUtil.SimpleName(className) && d.lastUsed == lastUsed
      && (d.kind == MethodKind <==> Contains(p, "(")) && d.kind != ClassKind
      && d.member.Some? && d.member.value.name == d.name && d.member.value.prototype == p
      && (d.member.value.params.Some? <==> d.kind == MethodKind)
      && Group(MemberName, p) == Some(d.name)
      && ReturnType(p) == Some(d.member.value.returnType)
  {
    if Contains(p, className) || Contains(p, "{") then None
    else
      var key := if Group(KeyCall, p).Some? then Group(KeyCall, p) else Group(KeyField, p);
      var name := Group(MemberName, p);
      var isMethod := Contains(p, "(");
      var ret := ReturnType(p);
      var params := Params(p);
      if key.None? || name.None? || ret.None? || (isMethod && params.None?) then None
      else
        var member := Member(name.value, ret.value, if isMethod then params else None, p);
        Some((key.value, Desc(if isMethod then MethodKind else PropertyKind, name.value,
                              JavaUtil.SimpleName(className), className, lastUsed, Some(member))))
  }

  // ---------------------------------------------------------------------------
  // What the parser makes of the usual javap shapes
  // ---------------------------------------------------------------------------

  /** A prototype the normalisation leaves alone and that does not name the class. */
  predicate Plain(className: string, p: string) {
    && !Contains(p, "public") && !Contains(p, "static") && CommaSpaceFree(p)
    && !Contains(p, className) && !Contains(p, "{")
  }

  /** `p` reads `q + " " + n + "(" + args + ");"`, stated position by position. */
  predicate MethodLayout(p: string, q: string, n: string, args: string) {
    && |p| == |q| + |n| + |args| + 4
    && (forall i :: 0 <= i < |q| ==> p[i] == q[i])
    && p[|q|] == ' '
    && (forall i :: |q| < i < |q| + 1 + |n| ==> p[i] == n[i - |q| - 1])
    && p[|q| + 1 + |n|] == '('
    && (forall i :: |q| + 1 + |n| < i < |p| - 2 ==> p[i] == args[i - |q| - 2 - |n|])
    && p[|p| - 2] == ')' && p[|p| - 1] == ';'
  }

  /** `p` reads `q + " " + n + ";"`, stated position by position. */
  predicate FieldLayout(p: string, q: string, n: string) {
    && |p| == |q| + |n| + 2
    && (forall i :: 0 <= i < |q| ==> p[i] == q[i])
    && p[|q|] == ' '
    && (forall i :: |q| < i < |p| - 1 ==> p[i] == n[i - |q| - 1])
    && p[|p| - 1] == ';'
  }

  lemma MethodLayoutOf(q: string, n: string, args: string)
    ensures MethodLayout(q + " " + n + "(" + args + ");", q, n, args)
  {
  }

  lemma FieldLayoutOf(q: string, n: string)
    ensures FieldLayout(q + " " + n + ";", q, n)
  {
  }

  /** The whitespace-anchored patterns cannot match inside a leading type without `(` and `;`. */
  lemma NoMatchInType(pat: Pattern, p: string, q: string, v: nat)
    requires |q| < |p| && IsSpace(p[|q|]) && forall i :: 0 <= i < |q| ==> p[i] == q[i]
    requires '(' !in q && ';' !in q
    requires v < |q|
    ensures GroupEndAt(pat, p, v).None?
  {
    if IsSpace(p[v]) {
      var r := SpaceFrom(p, v + 1);
      assert r <= |q|;
      var r' := NameStop(p, v + 1);
      assert r' <= |q|;
      forall i | v + 1 <= i < |q| ensures p[i] != '(' && p[i] != ';' {
        assert p[i] == q[i];
      }
    }
  }

  /** In `RET NAME(ARGS);` the key group runs from `NAME` through the closing parenthesis. */
  lemma KeyOfMethod(p: string, q: string, n: string, args: string)
    requires MethodLayout(p, q, n, args)
    requires '(' !in q && ';' !in q && NoSpace(n) && '(' !in n && NoLineTerminator(args)
    ensures Group(KeyCall, p) == Some(p[|q| + 1..|p| - 1])
  {
    forall v | 0 <= v < |q| ensures GroupEndAt(KeyCall, p, v).None? {
      NoMatchInType(KeyCall, p, q, v);
    }
    KeyCallAfterType(p, q, n, args);
    GroupAt(KeyCall, p, |q|, |p| - 1);
  }

  /** The space before `NAME` starts a key match that ends at the final `);`. */
  lemma KeyCallAfterType(p: string, q: string, n: string, args: string)
    requires MethodLayout(p, q, n, args)
    requires NoSpace(n) && '(' !in n && NoLineTerminator(args)
    ensures GroupEndAt(KeyCall, p, |q|) == Some(|p| - 1)
  {
    var w := |q|;
    var a := |q| + 1 + |n|;
    forall i | w + 1 <= i < a ensures !IsSpace(p[i]) && p[i] != '(' {
      assert p[i] == n[i - w - 1];
    }
    forall i | a < i < |p| ensures !IsLineTerminator(p[i]) {
      if i < |p| - 2 { assert p[i] == args[i - a - 1]; }
    }
    KeyCallAt(p, w, a);
  }

  /** A whitespace, a word whose first `(` is at `a`, and the rest of the text one line ending in `);`. */
  lemma KeyCallAt(p: string, w: nat, a: nat)
    requires w < a && a + 3 <= |p| && IsSpace(p[w]) && p[a] == '('
    requires forall i :: w + 1 <= i < a ==> !IsSpace(p[i]) && p[i] != '('
    requires forall i :: a < i < |p| ==> !IsLineTerminator(p[i])
    requires p[|p| - 2] == ')' && p[|p| - 1] == ';'
    ensures GroupEndAt(KeyCall, p, w) == Some(|p| - 1)
  {
    FirstParenOfWord(p, w + 1, a);
    LastCloseOfLine(p, a + 1);
    assert KeyCallEnd(p, w + 1) == Some(|p| - 1);
  }

  /** A word whose first `(` is at `a` has that `(` as the first of its run of non-whitespace. */
  lemma FirstParenOfWord(p: string, from: nat, a: nat)
    requires from <= a < |p| && p[a] == '('
    requires forall i :: from <= i < a ==> !IsSpace(p[i]) && p[i] != '('
    ensures FirstCharIn(p, '(', from, SpaceFrom(p, from)) == Some(a)
  {
    assert SpaceFrom(p, from) > a;
  }

  /** When the text from `from` on is one line ending in `);`, that is the last `);` of the line. */
  lemma LastCloseOfLine(p: string, from: nat)
    requires from + 2 <= |p| && p[|p| - 2] == ')' && p[|p| - 1] == ';'
    requires forall i :: from <= i < |p| ==> !IsLineTerminator(p[i])
    ensures LastOccurrence(p, ");", from, LineEnd(p, from)) == Some(|p| - 2)
  {
    assert NoLineTerminator(p[from..|p|]);
    WithinLine(p, from, |p|);
    var b := |p| - 2;
    assert OccursAt(p, ");", b) by {
      assert p[b..b + 2] == [p[b], p[b + 1]];
    }
  }

  /** In `RET NAME(ARGS);` the name group is `NAME`. */
  lemma NameOfMethod(p: string, q: string, n: string, args: string)
    requires MethodLayout(p, q, n, args)
    requires '(' !in q && ';' !in q && NoSpace(n) && '(' !in n
    ensures Group(MemberName, p) == Some(p[|q| + 1..|q| + 1 + |n|])
  {
    var w := |q|;
    var a := |q| + 1 + |n|;
    forall v | 0 <= v < w ensures GroupEndAt(MemberName, p, v).None? {
      NoMatchInType(MemberName, p, q, v);
    }
    assert NameStop(p, w + 1) == a by {
      forall i | w + 1 <= i < a ensures !IsSpace(p[i]) && p[i] != '(' {
        assert p[i] == n[i - w - 1];
      }
    }
    GroupAt(MemberName, p, w, a);
  }

  /** In `TYPE NAME;` the key-with-parentheses pattern fails and both other groups are `NAME`. */
  lemma KeyOfField(p: string, q: string, n: string)
    requires FieldLayout(p, q, n)
    requires '(' !in q && ';' !in q && NoSpace(n) && '(' !in n
    ensures Group(KeyCall, p).None?
    ensures Group(KeyField, p) == Some(p[|q| + 1..|p| - 1])
    ensures Group(MemberName, p) == Some(p[|q| + 1..|p| - 1])
  {
    forall v | 0 <= v < |p| ensures GroupEndAt(KeyCall, p, v).None? {
      NoKeyCallInField(p, q, n, v);
    }
    FieldNameGroups(p, q, n);
  }

  /** Without a `(` anywhere, the key-with-parentheses pattern matches at no whitespace. */
  lemma NoKeyCallInField(p: string, q: string, n: string, v: nat)
    requires FieldLayout(p, q, n)
    requires '(' !in q && '(' !in n
    requires v < |p|
    ensures GroupEndAt(KeyCall, p, v).None?
  {
    if IsSpace(p[v]) {
      var r := SpaceFrom(p, v + 1);
      forall i | v + 1 <= i < r ensures p[i] != '(' {
        if i < |q| { assert p[i] == q[i]; }
        else if |q| < i < |p| - 1 { assert p[i] == n[i - |q| - 1]; }
      }
    }
  }

  /** In `TYPE NAME;` the key group and the name group are both `NAME`. */
  lemma FieldNameGroups(p: string, q: string, n: string)
    requires FieldLayout(p, q, n)
    requires '(' !in q && ';' !in q && NoSpace(n) && '(' !in n
    ensures Group(KeyField, p) == Some(p[|q| + 1..|p| - 1])
    ensures Group(MemberName, p) == Some(p[|q| + 1..|p| - 1])
  {
    var w := |q|;
    forall v | 0 <= v < w ensures GroupEndAt(KeyField, p, v).None? && GroupEndAt(MemberName, p, v).None? {
      NoMatchInType(KeyField, p, q, v);
      NoMatchInType(MemberName, p, q, v);
    }
    var e := |p| - 1;
    forall i | w + 1 <= i < e ensures !IsSpace(p[i]) && p[i] != '(' {
      assert p[i] == n[i - w - 1];
    }
    assert SpaceFrom(p, w + 1) == |p| && NameStop(p, w + 1) == |p|;
    assert LastCharIn(p, ';', w + 1, |p|) == Some(e);
    GroupAt(KeyField, p, w, e);
    GroupAt(MemberName, p, w, e);
  }

  /** The return type is everything before the last whitespace, when the text up to it is one line. */
  lemma ReturnTypeOf(p: string, k: nat)
    requires k < |p| && IsSpace(p[k]) && NoLineTerminator(p[..k])
    requires forall i :: k < i < |p| ==> !IsSpace(p[i])
    ensures ReturnType(p) == Some(p[..k])
  {
    assert p[0..k] == p[..k];
    WithinLine(p, 0, k);
    var e := LineEnd(p, 0);
    assert e == k || e == |p|;
  }

  /** In `RET NAME(ARGS);` the parameter text is `ARGS`. */
  lemma ParamsOfMethod(p: string, q: string, n: string, args: string)
    requires MethodLayout(p, q, n, args)
    requires '(' !in q && '(' !in n && NoLineTerminator(args)
    ensures Params(p) == Some(Split(p[|q| + 2 + |n|..|p| - 2], ','))
  {
    var a := |q| + 1 + |n|;
    forall i | 0 <= i < a ensures p[i] != '(' {
      if i < |q| { assert p[i] == q[i]; } else if i > |q| { assert p[i] == n[i - |q| - 1]; }
    }
    forall i | a < i < |p| - 2 ensures !IsLineTerminator(p[i]) {
      assert p[i] == args[i - a - 1];
    }
    ParenSpanAt(p, a, |p| - 2);
  }

  /** The first `(` and, on its line, the last `)` bound the leftmost greedy `\((.*)\)` match. */
  lemma ParenSpanAt(p: string, a: nat, b: nat)
    requires a < b < |p| && p[a] == '(' && p[b] == ')'
    requires forall i :: 0 <= i < a ==> p[i] != '('
    requires forall i :: a < i < b ==> !IsLineTerminator(p[i])
    requires forall j :: b < j < |p| ==> p[j] != ')'
    ensures FirstSpan(p, "(", ")") == Some((a, b))
  {
    assert OccursAt(p, "(", a) by { assert p[a..a + 1] == [p[a]]; }
    assert OccursAt(p, ")", b) by { assert p[b..b + 1] == [p[b]]; }
    assert NoLineTerminator(p[a + 1..b]);
    WithinLine(p, a + 1, b);
    assert Span(p, "(", ")", a, b);
    forall i: nat | i < a ensures !OccursAt(p, "(", i) {
      assert p[i..i + 1][0] == p[i];
    }
    forall j: nat | b < j ensures !OccursAt(p, ")", j) {
      if j < |p| { assert p[j..j + 1][0] == p[j]; }
    }
  }

  /** What `_addClassMember` stores for a method prototype whose matches are known. */
  lemma ParsedMethod(className: string, p: string, key: string, name: string, ret: string, ps: seq<string>, lastUsed: int)
    requires !Contains(p, className) && !Contains(p, "{") && Contains(p, "(")
    requires Group(KeyCall, p) == Some(key) && Group(MemberName, p) == Some(name)
    requires ReturnType(p) == Some(ret) && Params(p) == Some(ps)
    ensures ParseNormal(className, p, lastUsed) ==
      Some((key, Desc(MethodKind, name, JavaUtil.SimpleName(className), className, lastUsed, Some(Member(name, ret, Some(ps), p)))))
  {
  }

  /** What `_addClassMember` stores for a property prototype whose matches are known. */
  lemma ParsedField(className: string, p: string, key: string, name: string, ret: string, lastUsed: int)
    requires !Contains(p, className) && !Contains(p, "{") && !Contains(p, "(")
    requires Group(KeyCall, p).None? && Group(KeyField, p) == Some(key) && Group(MemberName, p) == Some(name)
    requires ReturnType(p) == Some(ret)
    ensures ParseNormal(className, p, lastUsed) ==
      Some((key, Desc(PropertyKind, name, JavaUtil.SimpleName(className), className, lastUsed, Some(Member(name, ret, None, p)))))
  {
  }

  /** The pieces of `RET NAME(ARGS);` read back from the whole. */
  lemma MethodSlices(q: string, n: string, args: string)
    ensures var p := q + " " + n + "(" + args + ");";
      && p[..|q|] == q && p[|q| + 1..|q| + 1 + |n|] == n && p[|q| + 2 + |n|..|p| - 2] == args
      && p[|q| + 1..|p| - 1] == n + "(" + args + ")"
  {
  }

  /** In `RET NAME(ARGS);` the return type is `RET`. */
  lemma ReturnTypeOfMethod(p: string, q: string, n: string, args: string)
    requires MethodLayout(p, q, n, args)
    requires NoLineTerminator(q) && NoSpace(n) && NoSpace(args)
    ensures ReturnType(p) == Some(p[..|q|])
  {
    var a := |q| + 1 + |n|;
    forall i | |q| < i < |p| ensures !IsSpace(p[i]) {
      if i < a { assert p[i] == n[i - |q| - 1]; }
      else if a < i < |p| - 2 { assert p[i] == args[i - a - 1]; }
    }
    assert NoLineTerminator(p[..|q|]) by {
      forall i | 0 <= i < |q| ensures !IsLineTerminator(p[..|q|][i]) { assert p[i] == q[i]; }
    }
    ReturnTypeOf(p, |q|);
  }

  /** The matches of a prototype laid out as `RET NAME(ARGS);`. */
  lemma MethodMatches(p: string, q: string, n: string, args: string)
    requires MethodLayout(p, q, n, args)
    requires '(' !in q && ';' !in q && NoLineTerminator(q)
    requires NoSpace(n) && '(' !in n && NoSpace(args)
    ensures Group(KeyCall, p) == Some(p[|q| + 1..|p| - 1])
    ensures Group(MemberName, p) == Some(p[|q| + 1..|q| + 1 + |n|])
    ensures Params(p) == Some(Split(p[|q| + 2 + |n|..|p| - 2], ','))
    ensures ReturnType(p) == Some(p[..|q|])
    ensures '(' in p
  {
    assert NoLineTerminator(args);
    KeyOfMethod(p, q, n, args);
    NameOfMethod(p, q, n, args);
    ParamsOfMethod(p, q, n, args);
    ReturnTypeOfMethod(p, q, n, args);
    assert p[|q| + 1 + |n|] == '(';
  }

  /** The matches of `RET NAME(ARGS);`, in terms of its pieces. */
  lemma MethodGroups(q: string, n: string, args: string)
    requires '(' !in q && ';' !in q && NoLineTerminator(q)
    requires NoSpace(n) && '(' !in n && NoSpace(args)
    ensures var p := q + " " + n + "(" + args + ");";
      && Group(KeyCall, p) == Some(n + "(" + args + ")") && Group(MemberName, p) == Some(n)
      && Params(p) == Some(Split(args, ',')) && ReturnType(p) == Some(q) && '(' in p
  {
    MethodLayoutOf(q, n, args);
    MethodMatches(q + " " + n + "(" + args + ");", q, n, args);
    MethodSlices(q, n, args);
  }

  /** A prototype with no whitespace at either end, no `public`, no `static` and no comma-space is left alone. */
  lemma PlainIsNormal(className: string, p: string)
    requires Plain(className, p) && p != [] && !IsSpace(p[0]) && !IsSpace(p[|p| - 1])
    ensures ParseMember(className, p, 0) == ParseNormal(className, p, 0)
    ensures forall lastUsed :: ParseMember(className, p, lastUsed) == ParseNormal(className, p, lastUsed)
  {
    NormalizeKeeps(p);
  }

  /**
   * A plain method prototype `RET NAME(ARGS);` is stored under `NAME(ARGS)` as a method
   * named `NAME` with return type `RET` and parameters `ARGS` split on `,`.
   */
  lemma MethodPrototype(className: string, q: string, n: string, args: string, lastUsed: int)
    requires Plain(className, q + " " + n + "(" + args + ");")
    requires q != [] && !IsSpace(q[0]) && '(' !in q && ';' !in q && NoLineTerminator(q)
    requires NoSpace(n) && '(' !in n && NoSpace(args)
    ensures ParseMember(className, q + " " + n + "(" + args + ");", lastUsed) ==
      Some((n + "(" + args + ")",
            Desc(MethodKind, n, JavaUtil.SimpleName(className), className, lastUsed,
                 Some(Member(n, q, Some(Split(args, ',')), q + " " + n + "(" + args + ");")))))
  {
    var p := q + " " + n + "(" + args + ");";
    assert p[0] == q[0] && p[|p| - 1] == ';';
    PlainIsNormal(className, p);
    MethodGroups(q, n, args);
    ContainsChar(p, '(');
    ParsedMethod(className, p, n + "(" + args + ")", n, q, Split(args, ','), lastUsed);
  }

  /** The pieces of `TYPE NAME;` read back from the whole. */
  lemma FieldSlices(q: string, n: string)
    ensures var p := q + " " + n + ";"; p[..|q|] == q && p[|q| + 1..|p| - 1] == n
  {
  }

  /** The matches of `TYPE NAME;`, in terms of its pieces. */
  lemma FieldGroups(q: string, n: string)
    requires '(' !in q && ';' !in q && NoLineTerminator(q) && NoSpace(n) && '(' !in n
    ensures var p := q + " " + n + ";";
      && Group(KeyCall, p).None? && Group(KeyField, p) == Some(n) && Group(MemberName, p) == Some(n)
      && ReturnType(p) == Some(q) && '(' !in p
  {
    var p := q + " " + n + ";";
    FieldLayoutOf(q, n);
    FieldMatches(p, q, n);
    FieldSlices(q, n);
  }

  /** The matches of a prototype laid out as `TYPE NAME;`. */
  lemma FieldMatches(p: string, q: string, n: string)
    requires FieldLayout(p, q, n)
    requires '(' !in q && ';' !in q && NoLineTerminator(q) && NoSpace(n) && '(' !in n
    ensures Group(KeyCall, p).None?
    ensures Group(KeyField, p) == Some(p[|q| + 1..|p| - 1]) && Group(MemberName, p) == Some(p[|q| + 1..|p| - 1])
    ensures ReturnType(p) == Some(p[..|q|])
    ensures '(' !in p
  {
    KeyOfField(p, q, n);
    ReturnTypeOfField(p, q, n);
    forall i | 0 <= i < |p| ensures p[i] != '(' {
      if i < |q| { assert p[i] == q[i]; } else if |q| < i < |p| - 1 { assert p[i] == n[i - |q| - 1]; }
    }
  }

  /** In `TYPE NAME;` the return type is `TYPE`. */
  lemma ReturnTypeOfField(p: string, q: string, n: string)
    requires FieldLayout(p, q, n) && NoLineTerminator(q) && NoSpace(n)
    ensures ReturnType(p) == Some(p[..|q|])
  {
    forall i | |q| < i < |p| ensures !IsSpace(p[i]) {
      if i < |p| - 1 { assert p[i] == n[i - |q| - 1]; }
    }
    assert NoLineTerminator(p[..|q|]) by {
      forall i | 0 <= i < |q| ensures !IsLineTerminator(p[..|q|][i]) { assert p[i] == q[i]; }
    }
    ReturnTypeOf(p, |q|);
  }

  /** A plain field prototype `TYPE NAME;` is stored under `NAME` as a property with return type `TYPE`. */
  lemma FieldPrototype(className: string, q: string, n: string, lastUsed: int)
    requires Plain(className, q + " " + n + ";")
    requires q != [] && !IsSpace(q[0]) && '(' !in q && ';' !in q && NoLineTerminator(q)
    requires NoSpace(n) && '(' !in n
    ensures ParseMember(className, q + " " + n + ";", lastUsed) ==
      Some((n, Desc(PropertyKind, n, JavaUtil.SimpleName(className), className, lastUsed,
                    Some(Member(n, q, None, q + " " + n + ";")))))
  {
    var p := q + " " + n + ";";
    assert p[0] == q[0] && p[|p| - 1] == ';';
    PlainIsNormal(className, p);
    FieldGroups(q, n);
    ContainsChar(p, '(');
    ParsedField(className, p, n, n, q, lastUsed);
  }

  // ---------------------------------------------------------------------------
  // What `_addClass` and the loading passes store (JavaClassLoader.js:29-100)
  // ---------------------------------------------------------------------------

  /** The one descriptor object `_addClass` stores under both of its keys. */
  function ClassDesc(className: string, lastUsed: int): Desc {
    var simpleName := JavaUtil.SimpleName(className);
    Desc(ClassKind, simpleName, simpleName, className, lastUsed, None)
  }

  /**
   * A member parser, as `ParseMember`. The storing functions below take it as a
   * parameter so that what they state about the dictionary holds for any parse; the
   * loader passes `ParseMember`.
   */
  type Parser = (string, string, int) -> Option<(string, Desc)>

  /** The tries after `_addClassMember(className, prototype, lastUsed)`. */
  function MemberAdded(tries: map<string, Trie<Desc>>, parse: Parser, className: string, prototype: string, lastUsed: int): map<string, Trie<Desc>> {
    ParsedAdded(tries, className, parse(className, prototype, lastUsed))
  }

  /** The tries after a parse result is stored in `category`, or left alone when there is none. */
  function ParsedAdded(tries: map<string, Trie<Desc>>, category: string, parsed: Option<(string, Desc)>): map<string, Trie<Desc>> {
    if parsed.None? then tries else Inserted(tries, category, parsed.value.0, parsed.value.1)
  }

  /** The tries after `_addClassMember` for each prototype in order. */
  function MembersAdded(tries: map<string, Trie<Desc>>, parse: Parser, className: string, members: seq<string>, lastUsed: int): map<string, Trie<Desc>>
    decreases |members|
  {
    if members == [] then tries
    else MemberAdded(MembersAdded(tries, parse, className, members[..|members| - 1], lastUsed), parse, className, members[|members| - 1], lastUsed)
  }

  /** The prefix of length `i + 1` extends the prefix of length `i` by element `i`. */
  lemma PrefixStep<T>(s: seq<T>, i: nat)
    requires i < |s|
    ensures |s[..i + 1]| == i + 1 && s[..i + 1][..i] == s[..i] && s[..i + 1][i] == s[i]
  {
  }

  /** A prefix agrees with the sequence on its indices. */
  lemma PrefixIndex<T>(s: seq<T>, n: nat, i: nat)
    requires i < n <= |s|
    ensures s[..n][i] == s[i]
  {
  }

  /** One more member: the prefix of length `i + 1` adds member `i` after the prefix of length `i`. */
  lemma MembersAddedStep(tries: map<string, Trie<Desc>>, parse: Parser, className: string, members: seq<string>, i: nat, lastUsed: int)
    requires i < |members|
    ensures MembersAdded(tries, parse, className, members[..i + 1], lastUsed)
      == MemberAdded(MembersAdded(tries, parse, className, members[..i], lastUsed), parse, className, members[i], lastUsed)
  {
    PrefixStep(members, i);
    MembersAddedLast(tries, parse, className, members[..i + 1], lastUsed);
  }

  /** The last member is stored after all the others. */
  lemma MembersAddedLast(tries: map<string, Trie<Desc>>, parse: Parser, className: string, members: seq<string>, lastUsed: int)
    requires |members| > 0
    ensures MembersAdded(tries, parse, className, members, lastUsed)
      == ParsedAdded(MembersAdded(tries, parse, className, members[..|members| - 1], lastUsed), className, parse(className, members[|members| - 1], lastUsed))
  {
  }

  /** The tries after `_addClass(className, members, lastUsed)`. */
  function ClassAdded(tries: map<string, Trie<Desc>>, parse: Parser, inverseName: string -> string, className: string, members: seq<string>, lastUsed: int): map<string, Trie<Desc>> {
    var desc := ClassDesc(className, lastUsed);
    MembersAdded(Inserted(Inserted(tries, "class", className, desc), "class", inverseName(className), desc), parse, className, members, lastUsed)
  }

  /**
   * One callback of the class reader: the origin it reports (a jar or directory of
   * the classpath), the class name and the member prototypes (`null` is read as none,
   * as `_.each` does).
   */
  datatype Record = Record(origin: string, className: string, members: seq<string>)

  /** How a pass ranks its classes: by origin for project classes, or one fixed rank. */
  datatype Ranking = ByOrigin | Fixed(rank: int)

  /** The `lastUsed` a class gets: 0 from an origin containing `.jar`, 2 from any other origin. */
  function Rank(ranking: Ranking, origin: string): int {
    match ranking
    case ByOrigin => if Contains(origin, ".jar") then 0 else 2
    case Fixed(rank) => rank
  }

  /** Classes from a jar on the classpath rank 0, classes from a directory 2; a fixed ranking ignores the origin. */
  lemma RankOfOrigin(ranking: Ranking, origin: string)
    ensures ranking == ByOrigin ==> (Rank(ranking, origin) == 0 <==> Contains(origin, ".jar"))
    ensures ranking == ByOrigin ==> (Rank(ranking, origin) == 2 <==> !Contains(origin, ".jar"))
    ensures ranking.Fixed? ==> Rank(ranking, origin) == ranking.rank
  {
  }

  /** The tries after `_addClass` for each record in callback order. */
  function RecordsAdded(tries: map<string, Trie<Desc>>, parse: Parser, inverseName: string -> string, records: seq<Record>, ranking: Ranking): map<string, Trie<Desc>>
    decreases |records|
  {
    if records == [] then tries
    else
      var r := records[|records| - 1];
      ClassAdded(RecordsAdded(tries, parse, inverseName, records[..|records| - 1], ranking), parse, inverseName, r.className, r.members, Rank(ranking, r.origin))
  }

  /** One more record: the prefix of length `i + 1` adds record `i` after the prefix of length `i`. */
  lemma RecordsAddedStep(tries: map<string, Trie<Desc>>, parse: Parser, inverseName: string -> string, records: seq<Record>, i: nat, ranking: Ranking)
    requires i < |records|
    ensures RecordsAdded(tries, parse, inverseName, records[..i + 1], ranking)
      == ClassAdded(RecordsAdded(tries, parse, inverseName, records[..i], ranking), parse, inverseName, records[i].className, records[i].members, Rank(ranking, records[i].origin))
  {
    PrefixStep(records, i);
    RecordsAddedLast(tries, parse, inverseName, records[..i + 1], ranking);
  }

  /** The last record is added after all the others. */
  lemma RecordsAddedLast(tries: map<string, Trie<Desc>>, parse: Parser, inverseName: string -> string, records: seq<Record>, ranking: Ranking)
    requires |records| > 0
    ensures var r := records[|records| - 1];
      RecordsAdded(tries, parse, inverseName, records, ranking)
      == ClassAdded(RecordsAdded(tries, parse, inverseName, records[..|records| - 1], ranking), parse, inverseName, r.className, r.members, Rank(ranking, r.origin))
  {
  }

  /**
   * What the loader is given in place of the class reader and the shell. The reader
   * is built with `loadClassMembers`, which is passed along.
   */
  datatype Sources = Sources(
    fromClasspath: (string, bool) -> seq<Record>,
    fromJar: (string, bool) -> seq<Record>,
    readClass: (string, string, bool) -> seq<Record>,
    exec: string -> string)

  /** The command whose output names the JVM's `rt.jar`. */
  const RtJarCommand: string := "java -verbose 2>/dev/null | sed -ne '1 s/\\[Opened \\(.*\\)\\]/\\1/p'"

  /** The tries after one `_loadClassesImpl` pass. */
  function PassAdded(tries: map<string, Trie<Desc>>, parse: Parser, inverseName: string -> string, src: Sources, classpath: string, loadMembers: bool): map<string, Trie<Desc>> {
    var project := RecordsAdded(tries, parse, inverseName, src.fromClasspath(classpath, loadMembers), ByOrigin);
    var rtJarPath := src.exec(RtJarCommand);
    if rtJarPath != "" then RecordsAdded(project, parse, inverseName, src.fromJar(Trim(rtJarPath), loadMembers), Fixed(1))
    else project
  }

  /** The tries after a full reload: a names-only pass into an empty dictionary, then the optional members pass. */
  function ReloadAdded(parse: Parser, inverseName: string -> string, src: Sources, classpath: string, loadMembers: bool): map<string, Trie<Desc>> {
    var names := PassAdded(map[], parse, inverseName, src, classpath, false);
    if loadMembers then PassAdded(names, parse, inverseName, src, classpath, true) else names
  }

  class JavaClassLoader {
    var dict: Dictionary<Desc>
    var loading: bool
    /** `javaUtil.getInverseName`, which the loader calls but javaUtil.js does not define. */
    const inverseName: string -> string

    constructor (inverseName: string -> string)
      ensures this.inverseName == inverseName
      ensures fresh(dict) && dict.tries == map[] && !loading
    {
      this.inverseName := inverseName;
      dict := new Dictionary();
      loading := false;
    }

    /** `findClass`: the class descriptors whose key starts with the prefix. */
    method FindClass(namePrefix: string) returns (found: Trie<Desc>)
      modifies dict
      ensures found == Matches(TrieOf(old(dict.tries), "class"), namePrefix)
      ensures dict.tries == Touched(old(dict.tries), "class")
    {
      found := dict.Find("class", namePrefix);
    }

    /** `findClassMember`: the member descriptors of the class whose key starts with the prefix. */
    method FindClassMember(className: string, namePrefix: string) returns (found: Trie<Desc>)
      modifies dict
      ensures found == Matches(TrieOf(old(dict.tries), className), namePrefix)
      ensures dict.tries == Touched(old(dict.tries), className)
    {
      found := dict.Find(className, namePrefix);
    }

    /** `_addClassMember`: a prototype that fails to parse adds nothing, and no error escapes. */
    method AddClassMember(className: string, prototype: string, lastUsed: int)
      modifies dict
      ensures dict.tries == MemberAdded(old(dict.tries), ParseMember, className, prototype, lastUsed)
    {
      var parsed := ParseMember(className, prototype, lastUsed);
      AddParsed(className, parsed);
    }

    method AddParsed(category: string, parsed: Option<(string, Desc)>)
      modifies dict
      ensures dict.tries == ParsedAdded(old(dict.tries), category, parsed)
    {
      if parsed.Some? {
        dict.Add(category, parsed.value.0, parsed.value.1);
      }
    }

    /** `_addClass`: the class descriptor under its name and its inverse name, then each member. */
    method AddClass(className: string, classMembers: seq<string>, lastUsed: int)
      modifies dict
      ensures dict.tries == ClassAdded(old(dict.tries), ParseMember, inverseName, className, classMembers, lastUsed)
    {
      var classDesc := ClassDesc(className, lastUsed);
      dict.Add("class", className, classDesc);
      dict.Add("class", inverseName(className), classDesc);
      AddClassMembers(className, classMembers, lastUsed);
    }

    /** The `_.each` over the member prototypes of `_addClass`. */
    method AddClassMembers(className: string, classMembers: seq<string>, lastUsed: int)
      modifies dict
      ensures dict.tries == MembersAdded(old(dict.tries), ParseMember, className, classMembers, lastUsed)
    {
      ghost var start := dict.tries;
      var i := 0;
      while i < |classMembers|
        invariant 0 <= i <= |classMembers|
        invariant dict.tries == MembersAdded(start, ParseMember, className, classMembers[..i], lastUsed)
      {
        MembersAddedStep(start, ParseMember, className, classMembers, i, lastUsed);
        AddClassMember(className, classMembers[i], lastUsed);
        i := i + 1;
      }
      assert classMembers[..i] == classMembers;
    }

    /** The reader's callback for each record in turn, with the pass's ranking. */
    method AddRecords(records: seq<Record>, ranking: Ranking)
      modifies dict
      ensures dict.tries == RecordsAdded(old(dict.tries), ParseMember, inverseName, records, ranking)
    {
      ghost var start := dict.tries;
      var i := 0;
      while i < |records|
        invariant 0 <= i <= |records|
        invariant dict.tries == RecordsAdded(start, ParseMember, inverseName, records[..i], ranking)
      {
        RecordsAddedStep(start, ParseMember, inverseName, records, i, ranking);
        AddClass(records[i].className, records[i].members, Rank(ranking, records[i].origin));
        i := i + 1;
      }
      assert records[..i] == records;
    }

    /** `loadClass`: reload one class, ranked by the current time `now`. */
    method LoadClass(src: Sources, className: string, classpath: string, loadClassMembers: bool, now: int)
      modifies dict
      ensures dict.tries == RecordsAdded(old(dict.tries), ParseMember, inverseName, src.readClass(classpath, className, loadClassMembers), Fixed(now))
    {
      AddRecords(src.readClass(classpath, className, loadClassMembers), Fixed(now));
    }

    /** `_loadClassesImpl`: the project classes ranked by origin, then the `rt.jar` classes at rank 1. */
    method LoadClassesImpl(src: Sources, classpath: string, loadClassMembers: bool)
      modifies dict
      ensures dict.tries == PassAdded(old(dict.tries), ParseMember, inverseName, src, classpath, loadClassMembers)
    {
      AddRecords(src.fromClasspath(classpath, loadClassMembers), ByOrigin);
      var rtJarPath := src.exec(RtJarCommand);
      if rtJarPath != "" {
        AddRecords(src.fromJar(Trim(rtJarPath), loadClassMembers), Fixed(1));
      }
    }

    /**
     * `loadClasses`: unless a load is in progress, a fresh dictionary filled by the
     * names-only pass and, if asked, the members pass; a call during a load changes nothing.
     */
    method LoadClasses(src: Sources, classpath: string, loadClassMembers: bool)
      modifies this
      ensures old(loading) ==> loading && dict == old(dict) && dict.tries == old(dict.tries)
      ensures !old(loading) ==> !loading && fresh(dict) && dict.tries == ReloadAdded(ParseMember, inverseName, src, classpath, loadClassMembers)
    {
      if !loading {
        loading := true;
        dict := new Dictionary();
        LoadClassesImpl(src, classpath, false);
        if loadClassMembers {
          LoadClassesImpl(src, classpath, true);
        }
        loading := false;
      }
    }
  }

  // ---------------------------------------------------------------------------
  // Properties of what the loader stores
  // ---------------------------------------------------------------------------

  /** Adding members touches only the class's own category. */
  lemma {:induction false} MembersOnlyOwnCategory(tries: map<string, Trie<Desc>>, parse: Parser, className: string, members: seq<string>, lastUsed: int, other: string)
    requires other != className
    ensures TrieOf(MembersAdded(tries, parse, className, members, lastUsed), other) == TrieOf(tries, other)
    decreases |members|
  {
    if members != [] {
      MembersOnlyOwnCategory(tries, parse, className, members[..|members| - 1], lastUsed, other);
    }
  }

  /**
   * `_addClass` stores one class descriptor, named by the simple name, under both the
   * class name and its inverse name in category "class" (members go elsewhere unless
   * the class is itself called "class").
   */
  lemma ClassStoredTwice(tries: map<string, Trie<Desc>>, parse: Parser, inverseName: string -> string, className: string, members: seq<string>, lastUsed: int)
    requires className != "class"
    ensures var t := TrieOf(ClassAdded(tries, parse, inverseName, className, members, lastUsed), "class");
      && className in t && inverseName(className) in t
      && t[inverseName(className)] == ClassDesc(className, lastUsed)
      && t[className] == ClassDesc(className, lastUsed)
      && t[className].kind == ClassKind && t[className].className == className && t[className].lastUsed == lastUsed
      && t[className].name == JavaUtil.SimpleName(className) && t[className].simpleName == JavaUtil.SimpleName(className)
  {
    var desc := ClassDesc(className, lastUsed);
    var t2 := Inserted(Inserted(tries, "class", className, desc), "class", inverseName(className), desc);
    MembersOnlyOwnCategory(t2, parse, className, members, lastUsed, "class");
  }

  /** Adding members never removes a category or a key. */
  lemma {:induction false} MembersGrow(tries: map<string, Trie<Desc>>, parse: Parser, className: string, members: seq<string>, lastUsed: int)
    ensures Grows(tries, MembersAdded(tries, parse, className, members, lastUsed))
    decreases |members|
  {
    if members != [] {
      var before := MembersAdded(tries, parse, className, members[..|members| - 1], lastUsed);
      MembersGrow(tries, parse, className, members[..|members| - 1], lastUsed);
      var parsed := parse(className, members[|members| - 1], lastUsed);
      if parsed.Some? {
        NothingShrinks(before, className, parsed.value.0, parsed.value.1);
        GrowsTransitive(tries, before, MembersAdded(tries, parse, className, members, lastUsed));
      }
    }
  }

  /** A re-add of a class keeps every member stored before: it only adds or overwrites per key. */
  lemma ClassAddGrows(tries: map<string, Trie<Desc>>, parse: Parser, inverseName: string -> string, className: string, members: seq<string>, lastUsed: int)
    ensures Grows(tries, ClassAdded(tries, parse, inverseName, className, members, lastUsed))
  {
    var desc := ClassDesc(className, lastUsed);
    var t1 := Inserted(tries, "class", className, desc);
    var t2 := Inserted(t1, "class", inverseName(className), desc);
    NothingShrinks(tries, "class", className, desc);
    NothingShrinks(t1, "class", inverseName(className), desc);
    GrowsTransitive(tries, t1, t2);
    MembersGrow(t2, parse, className, members, lastUsed);
    GrowsTransitive(tries, t2, ClassAdded(tries, parse, inverseName, className, members, lastUsed));
  }

  /** Every prototype that parses is findable afterwards under its key in the class's category. */
  lemma {:induction false} ParsedMembersStored(tries: map<string, Trie<Desc>>, parse: Parser, className: string, members: seq<string>, lastUsed: int, i: nat)
    requires i < |members| && parse(className, members[i], lastUsed).Some?
    ensures parse(className, members[i], lastUsed).value.0 in TrieOf(MembersAdded(tries, parse, className, members, lastUsed), className)
    decreases |members|
  {
    var n := |members| - 1;
    var before := MembersAdded(tries, parse, className, members[..n], lastUsed);
    var last := parse(className, members[n], lastUsed);
    MembersAddedLast(tries, parse, className, members, lastUsed);
    if i < n {
      assert members[..n][i] == members[i];
      ParsedMembersStored(tries, parse, className, members[..n], lastUsed, i);
      ParsedAddedGrows(before, className, last);
    } else {
      ParsedAddedStores(before, className, last);
    }
  }

  /** Storing a parse result keeps every key already in its category. */
  lemma ParsedAddedGrows(tries: map<string, Trie<Desc>>, category: string, parsed: Option<(string, Desc)>)
    ensures TrieOf(tries, category).Keys <= TrieOf(ParsedAdded(tries, category, parsed), category).Keys
  {
    if parsed.Some? {
      AddOneKey(tries, category, parsed.value.0, parsed.value.1);
    }
  }

  /** Storing a parse result puts its key into its category. */
  lemma ParsedAddedStores(tries: map<string, Trie<Desc>>, category: string, parsed: Option<(string, Desc)>)
    requires parsed.Some?
    ensures parsed.value.0 in TrieOf(ParsedAdded(tries, category, parsed), category)
  {
    AddOneKey(tries, category, parsed.value.0, parsed.value.1);
  }

  /** `_addClass` of another class (not itself called "class") leaves a class entry under a different key alone. */
  lemma ClassAddedKeepsOther(tries: map<string, Trie<Desc>>, parse: Parser, inverseName: string -> string, className: string, members: seq<string>, lastUsed: int, c: string)
    requires className != "class" && c != className && c != inverseName(className)
    requires c in TrieOf(tries, "class")
    ensures var t := TrieOf(ClassAdded(tries, parse, inverseName, className, members, lastUsed), "class");
      c in t && t[c] == TrieOf(tries, "class")[c]
  {
    var desc := ClassDesc(className, lastUsed);
    var t2 := Inserted(Inserted(tries, "class", className, desc), "class", inverseName(className), desc);
    MembersOnlyOwnCategory(t2, parse, className, members, lastUsed, "class");
  }

  /** No record is itself called "class", or has `c` as its class name or inverse name. */
  predicate NoClash(inverseName: string -> string, records: seq<Record>, c: string) {
    forall j :: 0 <= j < |records| ==>
      records[j].className != "class" && records[j].className != c && inverseName(records[j].className) != c
  }

  lemma NoClashPrefix(inverseName: string -> string, records: seq<Record>, c: string)
    requires |records| > 0 && NoClash(inverseName, records, c)
    ensures NoClash(inverseName, records[..|records| - 1], c)
    ensures var r := records[|records| - 1]; r.className != "class" && r.className != c && inverseName(r.className) != c
  {
  }

  /** Class `c` is in category "class" with the descriptor `_addClass` makes for rank `lastUsed`. */
  predicate ClassRanked(tries: map<string, Trie<Desc>>, c: string, lastUsed: int) {
    c in TrieOf(tries, "class") && TrieOf(tries, "class")[c] == ClassDesc(c, lastUsed)
  }

  /** Records that do not clash with a stored class leave its entry as it is. */
  lemma {:induction false} RecordsKeepClass(tries: map<string, Trie<Desc>>, parse: Parser, inverseName: string -> string, records: seq<Record>, ranking: Ranking, c: string, lastUsed: int)
    requires ClassRanked(tries, c, lastUsed) && NoClash(inverseName, records, c)
    ensures ClassRanked(RecordsAdded(tries, parse, inverseName, records, ranking), c, lastUsed)
    decreases |records|
  {
    if records != [] {
      var n := |records| - 1;
      var r := records[n];
      NoClashPrefix(inverseName, records, c);
      RecordsKeepClass(tries, parse, inverseName, records[..n], ranking, c, lastUsed);
      RecordsAddedLast(tries, parse, inverseName, records, ranking);
      ClassAddedKeepsOther(RecordsAdded(tries, parse, inverseName, records[..n], ranking), parse, inverseName, r.className, r.members, Rank(ranking, r.origin), c);
    }
  }

  /** Adding `a` then `b` is adding `a + b`. */
  lemma {:induction false} RecordsAddedAppend(tries: map<string, Trie<Desc>>, parse: Parser, inverseName: string -> string, a: seq<Record>, b: seq<Record>, ranking: Ranking)
    ensures RecordsAdded(tries, parse, inverseName, a + b, ranking) == RecordsAdded(RecordsAdded(tries, parse, inverseName, a, ranking), parse, inverseName, b, ranking)
    decreases |b|
  {
    if b == [] {
      assert a + b == a;
    } else {
      var n := |b| - 1;
      assert (a + b)[..|a + b| - 1] == a + b[..n];
      assert (a + b)[|a + b| - 1] == b[n];
      RecordsAddedAppend(tries, parse, inverseName, a, b[..n], ranking);
      RecordsAddedLast(tries, parse, inverseName, a + b, ranking);
      RecordsAddedLast(RecordsAdded(tries, parse, inverseName, a, ranking), parse, inverseName, b, ranking);
    }
  }

  /** The last record is stored under its class name with the rank of its origin. */
  lemma LastRecordStored(tries: map<string, Trie<Desc>>, parse: Parser, inverseName: string -> string, records: seq<Record>, ranking: Ranking)
    requires |records| > 0 && records[|records| - 1].className != "class"
    ensures var r := records[|records| - 1];
      ClassRanked(RecordsAdded(tries, parse, inverseName, records, ranking), r.className, Rank(ranking, r.origin))
  {
    var r := records[|records| - 1];
    RecordsAddedLast(tries, parse, inverseName, records, ranking);
    ClassStoredTwice(RecordsAdded(tries, parse, inverseName, records[..|records| - 1], ranking), parse, inverseName, r.className, r.members, Rank(ranking, r.origin));
  }

  /**
   * The class descriptor found under a class name after a pass is the one of the last
   * record with that name, ranked as that pass ranks its origin, provided no later
   * record's name or inverse name coincides with it (and no later class is itself
   * called "class", whose members would share the category).
   */
  lemma LastRecordRanks(tries: map<string, Trie<Desc>>, parse: Parser, inverseName: string -> string, records: seq<Record>, ranking: Ranking, i: nat)
    requires i < |records| && records[i].className != "class"
    requires NoClash(inverseName, records[i + 1..], records[i].className)
    ensures ClassRanked(RecordsAdded(tries, parse, inverseName, records, ranking), records[i].className, Rank(ranking, records[i].origin))
  {
    var head := records[..i + 1];
    PrefixStep(records, i);
    assert records == head + records[i + 1..];
    LastRecordStored(tries, parse, inverseName, head, ranking);
    RecordsAddedAppend(tries, parse, inverseName, head, records[i + 1..], ranking);
    RecordsKeepClass(RecordsAdded(tries, parse, inverseName, head, ranking), parse, inverseName, records[i + 1..], ranking, records[i].className, Rank(ranking, records[i].origin));
  }
}
