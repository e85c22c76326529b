/**
  The index of td/utils/Hints.cpp from words to the keys whose name holds them: what belongs into it, adding and
  deleting one entry, and the order in which keys are intersected and reported. How a text is split into words and how
  a word is transliterated are given as functions.
*/
module HintIndex {
  import opened Sorting
  import opened HintWords

  type Key = int
  type Index = map<Text, seq<Key>>

  datatype Rules = Rules(split: (Text, bool) -> seq<Text>, translit: (Text, bool) -> seq<Text>)

  // ---------------------------------------------------------------------------------------
  // What a name puts into the index, and what a query word finds in it
  // ---------------------------------------------------------------------------------------

  function Differing(spellings: seq<Text>, word: Text): seq<Text> {
    if spellings == [] then []
    else (if spellings[0] != word then [spellings[0]] else []) + Differing(spellings[1..], word)
  }

  /** The spellings of some words in the other alphabet. */
  function Others(rules: Rules, words: seq<Text>): seq<Text> {
    if words == [] then []
    else Differing(rules.translit(words[0], false), words[0]) + Others(rules, words[1..])
  }

  function NameWords(rules: Rules, name: Text): seq<Text> { FixWords(rules.split(name, false)) }

  function Entries(rules: Rules, name: Text, other: bool): seq<Text> {
    if other then FixWords(Others(rules, NameWords(rules, name))) else NameWords(rules, name)
  }

  /** A direct scan of one name: a word of it, or another spelling of one, starts as the query word asks. */
  ghost predicate Matches(rules: Rules, name: Text, word: Text) {
    || SomeExtends(Others(rules, NameWords(rules, name)), word)
    || exists v :: v in rules.translit(word, true) && SomeExtends(rules.split(name, false), v)
  }

  // ---------------------------------------------------------------------------------------
  // The index
  // ---------------------------------------------------------------------------------------

  predicate Has(m: Index, w: Text, k: Key) { w in m && k in m[w] }

  ghost predicate Tidy(m: Index) { forall w :: w in m ==> m[w] != [] && Distinct(m[w]) }

  ghost predicate Indexes(m: Index, names: map<Key, Text>, rules: Rules, other: bool) {
    && Tidy(m)
    && forall w, k :: Has(m, w, k) <==> k in names && w in Entries(rules, names[k], other)
  }

  /** The precondition is the code's CHECK. */
  method AddWord(word: Text, key: Key, m: Index) returns (r: Index)
    requires Tidy(m) && !Has(m, word, key)
    ensures Tidy(r) && forall w, k :: Has(r, w, k) <==> Has(m, w, k) || (w == word && k == key)
  {
    var keys := if word in m then m[word] else [];
    keys := keys + [key];
    r := m[word := keys];
  }

  method DeleteWord(word: Text, key: Key, m: Index) returns (r: Index)
    requires Tidy(m) && Has(m, word, key)
    ensures Tidy(r) && forall w, k :: Has(r, w, k) <==> Has(m, w, k) && !(w == word && k == key)
  {
    var keys := m[word];
    var at :| 0 <= at < |keys| && keys[at] == key;
    if |keys| == 1 {
      r := m - {word};
    } else {
      var last := |keys| - 1;
      var left := keys[at := keys[last]][..last];
      SwapOut(keys, at, left);
      r := m[word := left];
    }
  }

  /** Overwriting an element with the last one and dropping the last removes just that element. */
  lemma SwapOut(keys: seq<Key>, at: nat, left: seq<Key>)
    requires at < |keys| && Distinct(keys) && left == keys[at := keys[|keys| - 1]][..|keys| - 1]
    ensures Distinct(left) && forall k :: k in left <==> k in keys && k != keys[at]
  {
    forall k | k in keys && k != keys[at]
      ensures k in left
    {
      var i :| 0 <= i < |keys| && keys[i] == k;
      assert left[if i == |keys| - 1 then at else i] == k;
    }
  }

  // ---------------------------------------------------------------------------------------
  // Intersection and order
  // ---------------------------------------------------------------------------------------

  predicate IntLe(a: Key, b: Key) { a <= b }

  ghost predicate Increasing(s: seq<Key>) { forall i, j :: 0 <= i < j < |s| ==> s[i] < s[j] }

  /** A sorted vector without repetitions of neighbours. */
  function Unique(s: seq<Key>): seq<Key> {
    if s == [] then []
    else if |s| > 1 && s[0] == s[1] then Unique(s[1..])
    else [s[0]] + Unique(s[1..])
  }

  lemma {:induction false} UniqueHolds(s: seq<Key>)
    requires Sorted(s, IntLe)
    ensures Increasing(Unique(s)) && forall k :: k in Unique(s) <==> k in s
  {
    if s != [] {
      UniqueHolds(s[1..]);
      assert s == [s[0]] + s[1..];
      if !(|s| > 1 && s[0] == s[1]) {
        forall k | k in Unique(s[1..])
          ensures s[0] < k
        {
          assert k in s[1..];
          var j :| 0 < j < |s| && s[j] == k;
          assert IntLe(s[0], s[1]) && (j > 1 ==> IntLe(s[1], s[j]));
        }
        IncreasingCons(s[0], Unique(s[1..]));
      }
    }
  }

  lemma IncreasingCons(x: Key, t: seq<Key>)
    requires Increasing(t) && forall k :: k in t ==> x < k
    ensures Increasing([x] + t)
  {
    var r := [x] + t;
    forall i, j | 0 <= i < j < |r|
      ensures r[i] < r[j]
    {
      assert r[j] == t[j - 1] && r[j] in t;
      if i > 0 {
        assert r[i] == t[i - 1];
      }
    }
  }

  lemma IncreasingSnoc(t: seq<Key>, x: Key)
    requires Increasing(t) && forall k :: k in t ==> k < x
    ensures Increasing(t + [x])
  {
    var r := t + [x];
    forall i, j | 0 <= i < j < |r|
      ensures r[i] < r[j]
    {
      assert r[i] in t;
    }
  }

  function SortedKeys(s: seq<Key>): seq<Key> { Unique(Sort(s, IntLe)) }

  lemma SortedKeysIs(s: seq<Key>)
    ensures Increasing(SortedKeys(s)) && forall k :: k in SortedKeys(s) <==> k in s
  {
    SortSorted(s, IntLe);
    SortHolds(s, IntLe);
    UniqueHolds(Sort(s, IntLe));
  }

  /** The two-pointer intersection, in the first vector's own space. */
  method Intersect(given: seq<Key>, keys: seq<Key>) returns (results: seq<Key>)
    requires Increasing(given) && Increasing(keys)
    ensures Increasing(results) && forall k :: k in results <==> k in given && k in keys
  {
    results := given;
    var resultsPos, keysPos, newSize := 0, 0, 0;
    while resultsPos != |results| && keysPos != |keys|
      invariant 0 <= newSize <= resultsPos <= |results| == |given| && 0 <= keysPos <= |keys|
      invariant forall j :: resultsPos <= j < |given| ==> results[j] == given[j]
      invariant Increasing(results[..newSize])
      invariant forall k :: k in results[..newSize] <==> k in given[..resultsPos] && k in keys
      invariant forall k :: k in keys[..keysPos] && k in given ==> k in given[..resultsPos]
      decreases |results| - resultsPos + |keys| - keysPos
    {
      var x, y := results[resultsPos], keys[keysPos];
      if x < y {
        Absent(keys, keysPos, given, resultsPos);
        Longer(given, resultsPos);
        resultsPos := resultsPos + 1;
      } else if x > y {
        Absent(given, resultsPos, keys, keysPos);
        Longer(keys, keysPos);
        keysPos := keysPos + 1;
      } else {
        Longer(given, resultsPos);
        Longer(keys, keysPos);
        ghost var front := results[..newSize];
        Above(given, resultsPos);
        results := results[newSize := x];
        assert results[..newSize + 1] == front + [x];
        IncreasingSnoc(front, x);
        newSize := newSize + 1;
        resultsPos := resultsPos + 1;
        keysPos := keysPos + 1;
      }
    }
    results := results[..newSize];
    assert given[..|given|] == given && keys[..|keys|] == keys;
  }

  lemma Longer(s: seq<Key>, i: nat)
    requires i < |s|
    ensures s[..i + 1] == s[..i] + [s[i]]
  {
  }

  lemma Above(s: seq<Key>, i: nat)
    requires i < |s| && Increasing(s)
    ensures forall k :: k in s[..i] ==> k < s[i]
  {
  }

  /** A smaller element than the next of the other vector is either behind its position or not in it. */
  lemma Absent(keys: seq<Key>, pos: nat, given: seq<Key>, at: nat)
    requires pos < |keys| && at < |given| && Increasing(keys) && given[at] < keys[pos]
    ensures given[at] in keys ==> given[at] in keys[..pos]
  {
    if given[at] in keys {
      var i :| 0 <= i < |keys| && keys[i] == given[at];
      if i < pos {
        assert keys[..pos][i] == given[at];
      }
    }
  }

  type Ratings = map<Key, int>

  function Rating(ratings: Ratings, k: Key): int { if k in ratings then ratings[k] else 0 }

  predicate Before(ratings: Ratings, a: Key, b: Key) {
    Rating(ratings, a) < Rating(ratings, b) || (Rating(ratings, a) == Rating(ratings, b) && a < b)
  }

  function ByRating(ratings: Ratings): (Key, Key) -> bool { (a, b) => a == b || Before(ratings, a, b) }

  /** The first `limit` of some keys in the order of rating and key. */
  ghost predicate IsTop(ratings: Ratings, r: seq<Key>, all: set<Key>, limit: nat) {
    && |r| == (if |all| < limit then |all| else limit)
    && (forall i, j :: 0 <= i < j < |r| ==> Before(ratings, r[i], r[j]))
    && (forall k :: k in r ==> k in all)
    && (forall k, i :: k in all && k !in r && 0 <= i < |r| ==> Before(ratings, r[i], k))
  }

  lemma RankOrders(ratings: Ratings)
    ensures Total(ByRating(ratings))
  {
  }

  /** Sorting distinct keys by rating puts each strictly before the next. */
  lemma RankSorted(ratings: Ratings, s: seq<Key>)
    requires Distinct(s)
    ensures var r := Sort(s, ByRating(ratings)); forall i, j :: 0 <= i < j < |r| ==> Before(ratings, r[i], r[j])
  {
    var le := ByRating(ratings);
    RankOrders(ratings);
    SortSorted(s, le);
    SortPermutes(s, le);
    SameCountDistinct(s, Sort(s, le));
    var r := Sort(s, le);
    hide Sort, Before;
    forall i, j | 0 <= i < j < |r|
      ensures Before(ratings, r[i], r[j])
    {
      assert le(r[i], r[j]) && r[i] != r[j];
    }
  }

  function Cut(r: seq<Key>, limit: nat): seq<Key> { if |r| < limit then r else r[..limit] }

  lemma TopIs(ratings: Ratings, s: seq<Key>, all: set<Key>, limit: nat)
    requires Distinct(s) && forall k :: k in s <==> k in all
    ensures |s| == |all|
    ensures IsTop(ratings, Cut(Sort(s, ByRating(ratings)), limit), all, limit)
  {
    DistinctSize(s);
    forall k: Key
      ensures k in (set x | x in s) <==> k in all
    {
    }
    assert (set x | x in s) == all;
    RankSorted(ratings, s);
    SortHolds(s, ByRating(ratings));
    hide Sort, Before;
    CutIsTop(ratings, Sort(s, ByRating(ratings)), all, limit);
  }

  lemma CutIsTop(ratings: Ratings, r: seq<Key>, all: set<Key>, limit: nat)
    requires |r| == |all| && forall k :: k in r <==> k in all
    requires forall i, j :: 0 <= i < j < |r| ==> Before(ratings, r[i], r[j])
    ensures IsTop(ratings, Cut(r, limit), all, limit)
  {
    hide Before;
    assert forall i :: 0 <= i < |Cut(r, limit)| ==> r[i] == Cut(r, limit)[i];
    forall k, i | k in all && k !in Cut(r, limit) && 0 <= i < |Cut(r, limit)|
      ensures Before(ratings, r[i], k)
    {
      assert k in r;
      var j :| 0 <= j < |r| && r[j] == k;
    }
  }
}
