/**
 * The category dictionary: a map from category (the literal "class", or a
 * fully-qualified class name for that class's members) to a prefix trie, the trie
 * for a category being created on first use.
 *
 * A trie is abstracted as its key-to-descriptor entries; `find` yields the entries
 * whose key starts with the prefix. The trie library's result order, result limits
 * and caching are not part of the model.
 */
module Dictionaries {
  import opened JsStrings

  /** The entries of one prefix trie. */
  type Trie<D> = map<string, D>

  /** The trie `category` currently has, or the empty trie a first use creates for it. */
  function TrieOf<D>(tries: map<string, Trie<D>>, category: string): (t: Trie<D>)
    ensures category in tries ==> t == tries[category]
    ensures category !in tries ==> t == map[]
  {
    if category in tries then tries[category] else map[]
  }

  /** The entries of `trie` whose key starts with `prefix`. */
  function Matches<D>(trie: Trie<D>, prefix: string): (m: Trie<D>)
    ensures forall k :: k in m <==> k in trie && StartsWith(k, prefix)
    ensures forall k :: k in m ==> m[k] == trie[k]
  {
    map k | k in trie && StartsWith(k, prefix) :: trie[k]
  }

  /** The tries after `desc` is added under `key` in `category`. */
  function Inserted<D>(tries: map<string, Trie<D>>, category: string, key: string, desc: D): map<string, Trie<D>>
  {
    tries[category := TrieOf(tries, category)[key := desc]]
  }

  /** The tries after a first use of `category`, which leaves an existing trie alone. */
  function Touched<D>(tries: map<string, Trie<D>>, category: string): map<string, Trie<D>>
  {
    tries[category := TrieOf(tries, category)]
  }

  /** Every category keeps each of its keys (its trie may only grow). */
  ghost predicate Grows<D>(before: map<string, Trie<D>>, after: map<string, Trie<D>>) {
    && before.Keys <= after.Keys
    && forall c :: c in before ==> before[c].Keys <= after[c].Keys
  }

  class Dictionary<D> {
    var tries: map<string, Trie<D>>

    constructor ()
      ensures tries == map[]
    {
      tries := map[];
    }

    /** `_getTrie`: look the category up, and on a miss store a new empty trie for it. */
    method GetTrie(category: string) returns (trie: Trie<D>)
      modifies this
      ensures category in tries && trie == tries[category]
      ensures tries == Touched(old(tries), category)
    {
      if category !in tries {
        tries := tries[category := map[]];
      }
      trie := tries[category];
    }

    /** `add`: store `desc` under `key` in the trie of `category`. */
    method Add(category: string, key: string, desc: D)
      modifies this
      ensures tries == Inserted(old(tries), category, key, desc)
    {
      var trie := GetTrie(category);
      tries := tries[category := trie[key := desc]];
    }

    /** `find`: the entries of `category` whose key starts with `prefix`. */
    method Find(category: string, prefix: string) returns (found: Trie<D>)
      modifies this
      ensures found == Matches(TrieOf(old(tries), category), prefix)
      ensures tries == Touched(old(tries), category)
    {
      var trie := GetTrie(category);
      found := Matches(trie, prefix);
    }
  }

  /** `_getTrie` is memoised: a second lookup changes nothing and yields the trie of the first. */
  lemma TouchIdempotent<D>(tries: map<string, Trie<D>>, category: string)
    ensures category in Touched(tries, category)
    ensures Touched(Touched(tries, category), category) == Touched(tries, category)
    ensures TrieOf(Touched(tries, category), category) == TrieOf(tries, category)
  {
  }

  /** A first use of a category never added to inserts an empty trie and nothing else. */
  lemma TouchFresh<D>(tries: map<string, Trie<D>>, category: string)
    requires category !in tries
    ensures Touched(tries, category).Keys == tries.Keys + {category}
    ensures Touched(tries, category)[category] == map[]
    ensures forall c :: c in tries ==> Touched(tries, category)[c] == tries[c]
  {
  }

  /** A lookup never changes what any lookup finds. */
  lemma TouchInvisible<D>(tries: map<string, Trie<D>>, category: string, other: string, prefix: string)
    ensures Matches(TrieOf(Touched(tries, category), other), prefix) == Matches(TrieOf(tries, other), prefix)
  {
  }

  /** After `add(c, k, d)`, finding in `c` with any prefix of `k` yields `d` under `k`. */
  lemma FindAfterAdd<D>(tries: map<string, Trie<D>>, category: string, key: string, desc: D, prefix: string)
    requires StartsWith(key, prefix)
    ensures key in Matches(TrieOf(Inserted(tries, category, key, desc), category), prefix)
    ensures Matches(TrieOf(Inserted(tries, category, key, desc), category), prefix)[key] == desc
  {
  }

  /** `add(c, k, d)` changes only category `c`: finds on any other category are as before. */
  lemma AddIsolated<D>(tries: map<string, Trie<D>>, category: string, key: string, desc: D, other: string, prefix: string)
    requires other != category
    ensures Matches(TrieOf(Inserted(tries, category, key, desc), other), prefix) == Matches(TrieOf(tries, other), prefix)
  {
  }

  /** Within its category, `add` only adds or overwrites the one key. */
  lemma AddOneKey<D>(tries: map<string, Trie<D>>, category: string, key: string, desc: D)
    ensures TrieOf(Inserted(tries, category, key, desc), category).Keys == TrieOf(tries, category).Keys + {key}
    ensures forall k :: k in TrieOf(tries, category) && k != key ==>
      TrieOf(Inserted(tries, category, key, desc), category)[k] == TrieOf(tries, category)[k]
  {
  }

  /** There is no removal: neither `add` nor `find` ever shrinks a trie or drops a category. */
  lemma NothingShrinks<D>(tries: map<string, Trie<D>>, category: string, key: string, desc: D)
    ensures Grows(tries, Inserted(tries, category, key, desc))
    ensures Grows(tries, Touched(tries, category))
  {
  }

  lemma GrowsTransitive<D>(a: map<string, Trie<D>>, b: map<string, Trie<D>>, c: map<string, Trie<D>>)
    requires Grows(a, b) && Grows(b, c)
    ensures Grows(a, c)
  {
  }
}
