/**
  The prefix index of td/utils/Hints.cpp: names are split into words, words are indexed by the keys whose name holds
  them, and a query is answered from the index. The index must agree with a direct scan of the names, however texts are
  split into words and words are transliterated.
*/
module Hints {
  import opened HintIndex
  import opened HintQueries
  import opened HintWords
  import opened Sorting

  // ---------------------------------------------------------------------------------------
  // Taking names out of the index and putting them in, one word at a time
  // ---------------------------------------------------------------------------------------

  /** r is m without the entries of a key under some words, and m with them. */
  ghost predicate Without(m: Index, r: Index, words: seq<Text>, key: Key) {
    Tidy(r) && forall w, k :: Has(r, w, k) <==> Has(m, w, k) && !(k == key && w in words)
  }

  ghost predicate With(m: Index, r: Index, words: seq<Text>, key: Key) {
    Tidy(r) && forall w, k :: Has(r, w, k) <==> Has(m, w, k) || (k == key && w in words)
  }

  lemma Front(words: seq<Text>, i: nat)
    requires i < |words|
    ensures forall w :: w in words[..i + 1] <==> w in words[..i] || w == words[i]
    ensures Distinct(words) ==> words[i] !in words[..i]
  {
    assert words[..i + 1] == words[..i] + [words[i]];
  }

  lemma WithoutStep(m: Index, r: Index, words: seq<Text>, i: nat, key: Key, r': Index)
    requires i < |words| && Without(m, r, words[..i], key) && Tidy(r')
    requires forall w, k :: Has(r', w, k) <==> Has(r, w, k) && !(w == words[i] && k == key)
    ensures Without(m, r', words[..i + 1], key)
  {
    Front(words, i);
    hide Has, Tidy;
  }

  lemma WithStep(m: Index, r: Index, words: seq<Text>, i: nat, key: Key, r': Index)
    requires i < |words| && With(m, r, words[..i], key) && Tidy(r')
    requires forall w, k :: Has(r', w, k) <==> Has(r, w, k) || (w == words[i] && k == key)
    ensures With(m, r', words[..i + 1], key)
  {
    Front(words, i);
    hide Has, Tidy;
  }

  lemma OthersStep(rules: Rules, words: seq<Text>, i: nat)
    requires i < |words|
    ensures Others(rules, words[i..])
      == Differing(rules.translit(words[i], false), words[i]) + Others(rules, words[i + 1..])
  {
    assert words[i..][0] == words[i] && words[i..][1..] == words[i + 1..];
  }

  /** The inner loop that collects the spellings of a word that differ from it. */
  method PushDiffering(given: seq<Text>, spellings: seq<Text>, word: Text) returns (r: seq<Text>)
    ensures r == given + Differing(spellings, word)
  {
    r := given;
    for i := 0 to |spellings|
      invariant r + Differing(spellings[i..], word) == given + Differing(spellings, word)
    {
      assert spellings[i..][0] == spellings[i] && spellings[i..][1..] == spellings[i + 1..];
      if spellings[i] != word {
        assert r + ([spellings[i]] + Differing(spellings[i + 1..], word))
          == (r + [spellings[i]]) + Differing(spellings[i + 1..], word);
        r := r + [spellings[i]];
      }
    }
  }

  lemma OthersEnds(rules: Rules, words: seq<Text>)
    ensures words[0..] == words && words[..|words|] == words && Others(rules, words[|words|..]) == []
  {
  }

  lemma Regroup(acc: seq<Text>, some: seq<Text>, rest: seq<Text>)
    ensures acc + (some + rest) == (acc + some) + rest && acc + [] == acc && [] + acc == acc
  {
  }

  /** The first loop of `add`: the old name's words leave the index and their other spellings are collected. */
  method DeleteNameWords(rules: Rules, words: seq<Text>, key: Key, m: Index) returns (r: Index, others: seq<Text>)
    requires Tidy(m) && Distinct(words) && forall w :: w in words ==> Has(m, w, key)
    ensures Without(m, r, words, key) && others == Others(rules, words)
  {
    hide Differing, Others, Has, Tidy;
    r, others := m, [];
    OthersEnds(rules, words);
    Regroup(Others(rules, words), [], []);
    for i := 0 to |words|
      invariant Without(m, r, words[..i], key)
      invariant others + Others(rules, words[i..]) == Others(rules, words)
    {
      Front(words, i);
      OthersStep(rules, words, i);
      ghost var was, found := r, others;
      r := DeleteWord(words[i], key, r);
      WithoutStep(m, was, words, i, key, r);
      others := PushDiffering(others, rules.translit(words[i], false), words[i]);
      Regroup(found, Differing(rules.translit(words[i], false), words[i]), Others(rules, words[i + 1..]));
    }
    Regroup(others, [], []);
  }

  method DeleteWords(words: seq<Text>, key: Key, m: Index) returns (r: Index)
    requires Tidy(m) && Distinct(words) && forall w :: w in words ==> Has(m, w, key)
    ensures Without(m, r, words, key)
  {
    hide Has, Tidy;
    r := m;
    for i := 0 to |words|
      invariant Without(m, r, words[..i], key)
    {
      Front(words, i);
      ghost var was := r;
      r := DeleteWord(words[i], key, r);
      WithoutStep(m, was, words, i, key, r);
    }
    assert words[..|words|] == words;
  }

  method AddNameWords(rules: Rules, words: seq<Text>, key: Key, m: Index) returns (r: Index, others: seq<Text>)
    requires Tidy(m) && Distinct(words) && forall w :: w in words ==> !Has(m, w, key)
    ensures With(m, r, words, key) && others == Others(rules, words)
  {
    hide Differing, Others, Has, Tidy;
    r, others := m, [];
    OthersEnds(rules, words);
    Regroup(Others(rules, words), [], []);
    for i := 0 to |words|
      invariant With(m, r, words[..i], key)
      invariant others + Others(rules, words[i..]) == Others(rules, words)
    {
      Front(words, i);
      OthersStep(rules, words, i);
      ghost var was, found := r, others;
      r := AddWord(words[i], key, r);
      WithStep(m, was, words, i, key, r);
      others := PushDiffering(others, rules.translit(words[i], false), words[i]);
      Regroup(found, Differing(rules.translit(words[i], false), words[i]), Others(rules, words[i + 1..]));
    }
    Regroup(others, [], []);
  }

  method AddWords(words: seq<Text>, key: Key, m: Index) returns (r: Index)
    requires Tidy(m) && Distinct(words) && forall w :: w in words ==> !Has(m, w, key)
    ensures With(m, r, words, key)
  {
    hide Has, Tidy;
    r := m;
    for i := 0 to |words|
      invariant With(m, r, words[..i], key)
    {
      Front(words, i);
      ghost var was := r;
      r := AddWord(words[i], key, r);
      WithStep(m, was, words, i, key, r);
    }
    assert words[..|words|] == words;
  }

  lemma Emptied(m: Index, names: map<Key, Text>, rules: Rules, other: bool, key: Key, r: Index)
    requires Indexes(m, names, rules, other) && key in names && Without(m, r, Entries(rules, names[key], other), key)
    ensures Indexes(r, names - {key}, rules, other)
  {
    hide Has, Tidy, Entries;
  }

  lemma Filled(m: Index, names: map<Key, Text>, rules: Rules, other: bool, key: Key, name: Text, r: Index)
    requires Indexes(m, names, rules, other) && key !in names && With(m, r, Entries(rules, name, other), key)
    ensures Indexes(r, names[key := name], rules, other)
  {
    hide Has, Tidy, Entries;
  }

  /** The words a name has in an index: each once, and each listed with the key just when the key has the name. */
  lemma EntriesOnce(m: Index, names: map<Key, Text>, rules: Rules, other: bool, key: Key, name: Text)
    requires Indexes(m, names, rules, other)
    ensures Distinct(Entries(rules, name, other)) && Tidy(m)
    ensures key in names && names[key] == name ==> forall w :: w in Entries(rules, name, other) ==> Has(m, w, key)
    ensures key !in names ==> forall w :: !Has(m, w, key)
  {
    FixApart(if other then Others(rules, NameWords(rules, name)) else rules.split(name, false));
    hide FixWords;
  }

  lemma EntriesAre(rules: Rules, name: Text)
    ensures Entries(rules, name, false) == FixWords(rules.split(name, false))
    ensures Entries(rules, name, true) == FixWords(Others(rules, Entries(rules, name, false)))
  {
  }

  // ---------------------------------------------------------------------------------------
  // Reading the index
  // ---------------------------------------------------------------------------------------

  /** Some word that starts as asked is listed with the key. */
  ghost predicate Finds(m: Index, p: Text, k: Key) { exists w :: p <= w && Has(m, w, k) }

  ghost predicate Read(m: Index, w: Text, r: seq<Key>) { forall k :: Has(m, w, k) ==> k in r }

  lemma HasLeast(s: set<Text>)
    requires s != {}
    ensures exists x :: x in s && forall y :: y in s ==> Le(x, y)
    decreases |s|
  {
    hide Le;
    var z :| z in s;
    LeTotal(z, z);
    if s - {z} != {} {
      HasLeast(s - {z});
      var x :| x in s - {z} && forall y :: y in s - {z} ==> Le(x, y);
      LeTotal(x, z);
      if Le(z, x) {
        forall y | y in s
          ensures Le(z, y)
        {
          if y != z {
            LeTransitive(z, x, y);
          }
        }
        assert z in s;
      } else {
        assert forall y :: y in s ==> y == z || y in s - {z};
        assert x in s;
      }
    } else {
      assert forall y :: y in s ==> y == z || y in s - {z};
    }
  }

  /** How far a search has come: the words of `rest` are still to be read. */
  ghost predicate Reading(m: Index, word: Text, given: seq<Key>, rest: set<Text>, r: seq<Key>) {
    && (forall w :: word <= w && w in m ==> w in rest || Read(m, w, r))
    && (forall k :: k in r ==> k in given || Finds(m, word, k))
    && (forall k :: k in given ==> k in r)
  }

  lemma ReadOne(m: Index, word: Text, given: seq<Key>, rest: set<Text>, r: seq<Key>, it: Text)
    requires Reading(m, word, given, rest, r) && it in m && word <= it
    ensures Reading(m, word, given, rest - {it}, r + m[it])
  {
    forall w | word <= w && w in m
      ensures w in rest - {it} || Read(m, w, r + m[it])
    {
      if w != it && w !in rest {
        assert Read(m, w, r);
      }
    }
    forall k | k in r + m[it]
      ensures k in given || Finds(m, word, k)
    {
      if k !in r {
        assert Has(m, it, k);
      }
    }
  }

  /** Nothing from the first word on that lacks the prefix has it. */
  lemma NoMore(m: Index, word: Text, rest: set<Text>, it: Text)
    requires Le(word, it) && !(word <= it) && forall y :: y in rest ==> Le(it, y)
    ensures forall w :: word <= w ==> w !in rest
  {
    forall w | word <= w
      ensures w !in rest
    {
      if w in rest {
        PrefixesTogether(word, it, w);
      }
    }
  }

  lemma AllRead(m: Index, word: Text, given: seq<Key>, rest: set<Text>, r: seq<Key>)
    requires Reading(m, word, given, rest, r) && forall w :: word <= w ==> w !in rest
    ensures forall k :: k in r <==> k in given || Finds(m, word, k)
  {
    forall k | Finds(m, word, k)
      ensures k in r
    {
      var w :| word <= w && Has(m, w, k);
      assert Read(m, w, r);
    }
  }

  /** All keys of an ordered index whose word starts as asked, read from the first word not below the prefix. */
  method AddSearchResults(results: seq<Key>, word: Text, m: Index) returns (r: seq<Key>)
    ensures forall k :: k in r <==> k in results || Finds(m, word, k)
  {
    r := results;
    var rest := set y | y in m.Keys && Le(word, y);
    forall w | word <= w && w in m
      ensures w in rest
    {
      PrefixLe(word, w);
    }
    assert Reading(m, word, results, rest, r);
    hide Reading, Finds, Has, Le;
    while rest != {}
      invariant rest <= m.Keys && forall y :: y in rest ==> Le(word, y)
      invariant Reading(m, word, results, rest, r)
      decreases |rest|
    {
      HasLeast(rest);
      var it :| it in rest && forall y :: y in rest ==> Le(it, y);
      if !(word <= it) {
        NoMore(m, word, rest, it);
        break;
      }
      ReadOne(m, word, results, rest, r, it);
      r := r + m[it];
      rest := rest - {it};
    }
    AllRead(m, word, results, rest, r);
  }

  /** What the index finds is what a scan of the key's own name finds. */
  lemma FindsIs(m: Index, names: map<Key, Text>, rules: Rules, other: bool, p: Text, k: Key)
    requires Indexes(m, names, rules, other)
    ensures Finds(m, p, k) <==> k in names && SomeExtends(Entries(rules, names[k], other), p)
  {
    hide Entries;
    if k in names && SomeExtends(Entries(rules, names[k], other), p) {
      var w :| w in Entries(rules, names[k], other) && p <= w;
      assert Has(m, w, k);
    }
  }

  lemma MatchesIs(m: Index, t: Index, names: map<Key, Text>, rules: Rules, word: Text, k: Key)
    requires Indexes(m, names, rules, false) && Indexes(t, names, rules, true)
    ensures k in names && Matches(rules, names[k], word) <==>
              || Finds(t, word, k)
              || exists j :: 0 <= j < |rules.translit(word, true)| && Finds(m, rules.translit(word, true)[j], k)
  {
    var spellings := rules.translit(word, true);
    FindsIs(t, names, rules, true, word, k);
    forall v
      ensures Finds(m, v, k) <==> k in names && SomeExtends(rules.split(names[k], false), v)
    {
      FindsIs(m, names, rules, false, v, k);
      if k in names {
        FixLosesNothing(rules.split(names[k], false), v);
      }
    }
    if k in names {
      FixLosesNothing(Others(rules, NameWords(rules, names[k])), word);
    }
    hide Finds, SomeExtends, FixWords, Indexes;
    assert forall v :: v in spellings <==> exists j :: 0 <= j < |spellings| && spellings[j] == v;
  }

  // ---------------------------------------------------------------------------------------
  // The class
  // ---------------------------------------------------------------------------------------

  class Hints {
    const rules: Rules
    var wordToKeys: Index
    var translitWordToKeys: Index
    var keyToName: map<Key, Text>
    var keyToRating: Ratings

    /** Both indexes hold exactly the words of the names, none of which is empty. */
    ghost predicate Valid()
      reads this
    {
      && (forall k :: k in keyToName ==> keyToName[k] != [])
      && Indexes(wordToKeys, keyToName, rules, false)
      && Indexes(translitWordToKeys, keyToName, rules, true)
    }

    constructor (rules: Rules)
      ensures Valid() && keyToName == map[] && keyToRating == map[] && this.rules == rules
    {
      this.rules := rules;
      wordToKeys, translitWordToKeys, keyToName, keyToRating := map[], map[], map[], map[];
    }

    method GetWords(name: Text, isSearch: bool) returns (words: seq<Text>)
      ensures words == FixWords(rules.split(name, isSearch))
    {
      words := FixWordsInPlace(rules.split(name, isSearch));
    }

    /**
      Adding, renaming and, with an empty name, removing: afterwards the index is that of the new names. No CHECK
      fails.
    */
    method Add(key: Key, name: Text)
      requires Valid()
      modifies this
      ensures Valid()
      ensures keyToName == if name == [] then old(keyToName) - {key} else old(keyToName)[key := name]
      ensures keyToRating == if name == [] then old(keyToRating) - {key} else old(keyToRating)
    {
      ghost var names := keyToName;
      hide Indexes, FixWords, Others, Entries;
      if key in keyToName {
        if keyToName[key] == name {
          return;
        }
        var oldName := keyToName[key];
        EntriesAre(rules, oldName);
        EntriesOnce(wordToKeys, names, rules, false, key, oldName);
        EntriesOnce(translitWordToKeys, names, rules, true, key, oldName);
        var words := GetWords(oldName, false);
        ghost var m, t := wordToKeys, translitWordToKeys;
        var others;
        wordToKeys, others := DeleteNameWords(rules, words, key, wordToKeys);
        var fixedOthers := FixWordsInPlace(others);
        translitWordToKeys := DeleteWords(fixedOthers, key, translitWordToKeys);
        Emptied(m, names, rules, false, key, wordToKeys);
        Emptied(t, names, rules, true, key, translitWordToKeys);
      }
      if key !in names {
        assert names - {key} == names;
      }
      names := names - {key};
      assert Indexes(wordToKeys, names, rules, false) && Indexes(translitWordToKeys, names, rules, true);
      if name == [] {
        keyToName := keyToName - {key};
        keyToRating := keyToRating - {key};
        return;
      }
      EntriesAre(rules, name);
      EntriesOnce(wordToKeys, names, rules, false, key, name);
      EntriesOnce(translitWordToKeys, names, rules, true, key, name);
      var words := GetWords(name, false);
      ghost var m, t := wordToKeys, translitWordToKeys;
      var others;
      wordToKeys, others := AddNameWords(rules, words, key, wordToKeys);
      var fixedOthers := FixWordsInPlace(others);
      translitWordToKeys := AddWords(fixedOthers, key, translitWordToKeys);
      Filled(m, names, rules, false, key, name, wordToKeys);
      Filled(t, names, rules, true, key, name, translitWordToKeys);
      keyToName := keyToName[key := name];
      assert keyToName == names[key := name];
    }

    method SetRating(key: Key, rating: int)
      requires Valid()
      modifies this`keyToRating
      ensures keyToRating == old(keyToRating)[key := rating]
    {
      keyToRating := keyToRating[key := rating];
    }

    method SearchWord(word: Text) returns (r: seq<Key>)
      requires Valid()
      ensures Increasing(r) && forall k :: k in r <==> k in keyToName && Matches(rules, keyToName[k], word)
    {
      hide Indexes, Matches, SomeExtends, Sort, Unique;
      var results := AddSearchResults([], word, translitWordToKeys);
      var spellings := rules.translit(word, true);
      for i := 0 to |spellings|
        invariant forall k :: k in results <==>
          Finds(translitWordToKeys, word, k) || exists j :: 0 <= j < i && Finds(wordToKeys, spellings[j], k)
      {
        results := AddSearchResults(results, spellings[i], wordToKeys);
      }
      r := SortedKeys(results);
      SortedKeysIs(results);
      forall k
        ensures k in results <==> k in keyToName && Matches(rules, keyToName[k], word)
      {
        MatchesIs(wordToKeys, translitWordToKeys, keyToName, rules, word, k);
      }
    }

    /** The keys that a direct scan of the names finds for a query. */
    ghost function Wanted(query: Text, returnAll: bool): set<Key>
      reads this
    {
      var words := FixWords(rules.split(query, true));
      if words == [] then (if returnAll then keyToName.Keys else {})
      else set k | k in keyToName && forall w :: w in words ==> Matches(rules, keyToName[k], w)
    }

    /** The keys whose names match every word of the query, also those that fix_words drops. */
    ghost function Scanned(query: Text): set<Key>
      reads this
    {
      set k | k in keyToName && AllMatch(rules, keyToName[k], rules.split(query, true))
    }

    lemma WantedScansAll(query: Text, returnAll: bool)
      requires rules.split(query, true) != []
      requires forall p :: p in rules.split(query, true) ==> Covered(rules, rules.split(query, true), p)
      ensures Wanted(query, returnAll) == Scanned(query)
    {
      var words := rules.split(query, true);
      FixEmpty(words);
      hide Matches, FixWords, Covered;
      forall k | k in keyToName
        ensures k in Wanted(query, returnAll) <==> k in Scanned(query)
      {
        KeptSuffice(rules, keyToName[k], words);
      }
    }

    /** A query of which no word is lost. */
    ghost predicate Whole(query: Text) {
      var words := rules.split(query, true);
      Transliterates(rules) && GoodWords(words) && words != [] && forall p :: !Lost(words, p)
    }

    lemma WantedUnlessLost(query: Text, returnAll: bool)
      requires Whole(query)
      ensures Wanted(query, returnAll) == Scanned(query)
    {
      hide Matches, FixWords, Covered, Lost, Transliterates, GoodWords;
      var words := rules.split(query, true);
      forall p | p in words
        ensures Covered(rules, words, p)
      {
        CoveredUnlessLost(rules, words, p);
      }
      WantedScansAll(query, returnAll);
    }

    method AllKeys() returns (r: seq<Key>)
      ensures Distinct(r) && forall k :: k in r <==> k in keyToName
    {
      r := [];
      var rest := keyToName.Keys;
      while rest != {}
        invariant Distinct(r) && rest <= keyToName.Keys
        invariant forall k :: k in r <==> k in keyToName && k !in rest
        decreases |rest|
      {
        ghost var some := Member(rest);
        var k :| k in rest;
        r := r + [k];
        rest := rest - {k};
      }
    }

    /** The answer is that of the direct scan: its size, and its first `limit` keys by rating and key. */
    method Search(query: Text, limit: int, returnAll: bool) returns (total: nat, results: seq<Key>)
      requires Valid()
      ensures limit < 0 ==> total == |keyToName| && results == []
      ensures limit >= 0 ==>
        total == |Wanted(query, returnAll)| && IsTop(keyToRating, results, Wanted(query, returnAll), limit)
      ensures limit >= 0 && Whole(query) ==>
        total == |Scanned(query)| && IsTop(keyToRating, results, Scanned(query), limit)
    {
      hide Indexes, Matches, FixWords, Sort, IsTop, Whole, Scanned;
      if limit < 0 {
        return |keyToName|, [];
      }
      results := [];
      var words := GetWords(query, true);
      if returnAll && words == [] {
        results := AllKeys();
      }
      for i := 0 to |words|
        invariant i == 0 && words != [] ==> results == []
        invariant words == [] ==> Distinct(results) && forall k :: k in results <==> returnAll && k in keyToName
        invariant i > 0 ==> Increasing(results)
        invariant i > 0 ==> forall k :: k in results <==>
          k in keyToName && forall j :: 0 <= j < i ==> Matches(rules, keyToName[k], words[j])
      {
        var keys := SearchWord(words[i]);
        if i == 0 {
          results := keys;
          continue;
        }
        results := Intersect(results, keys);
      }
      total := |results|;
      TopIs(keyToRating, results, Wanted(query, returnAll), limit);
      results := Cut(Sort(results, ByRating(keyToRating)), limit);
      if Whole(query) {
        WantedUnlessLost(query, returnAll);
      }
    }
  }
}
