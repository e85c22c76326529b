/** Query words that fix_words drops (td/utils/Hints.cpp). */
module HintQueries {
  // Hints::search looks up only the words of a query that are no prefix of another. When does a name that matches those
  // match all words of the query? A word of hard and soft signs alone is spelled as itself, while the spellings of a
  // longer word may leave the signs out: of the query words 0x44a and 0x44a 0x430 only the second is looked up, and
  // it finds the name "a", which does not match the first.

  import opened HintIndex
  import opened HintWords
  import opened Sorting
  import opened TranslitText
  import opened Translit
  import opened Utf8

  // ---------------------------------------------------------------------------------------
  // Any way to transliterate
  // ---------------------------------------------------------------------------------------

  /** Every spelling of a longer query word starts with a spelling of its prefix p. */
  ghost predicate Covers(rules: Rules, w: Text, p: Text) {
    p <= w && forall v :: v in rules.translit(w, true) ==> exists u :: u in rules.translit(p, true) && u <= v
  }

  /** Some word that is looked up stands for p. */
  ghost predicate Covered(rules: Rules, words: seq<Text>, p: Text) {
    exists w :: w in FixWords(words) && Covers(rules, w, p)
  }

  ghost predicate AllMatch(rules: Rules, name: Text, words: seq<Text>) {
    forall w :: w in words ==> Matches(rules, name, w)
  }

  /** The two transliterate query words alike; names may be split and transliterated in other ways. */
  ghost predicate SameQueries(rules: Rules, other: Rules) {
    forall w :: rules.translit(w, true) == other.translit(w, true)
  }

  lemma ExtendsShorter(words: seq<Text>, p: Text, w: Text)
    requires p <= w && SomeExtends(words, w)
    ensures SomeExtends(words, p)
  {
    var v :| v in words && w <= v;
    assert p <= v;
  }

  lemma CoversMatches(rules: Rules, name: Text, p: Text, w: Text)
    requires Covers(rules, w, p) && Matches(rules, name, w)
    ensures Matches(rules, name, p)
  {
    hide SomeExtends, FixWords, Others;
    if SomeExtends(Others(rules, NameWords(rules, name)), w) {
      ExtendsShorter(Others(rules, NameWords(rules, name)), p, w);
    } else {
      var v :| v in rules.translit(w, true) && SomeExtends(rules.split(name, false), v);
      var u :| u in rules.translit(p, true) && u <= v;
      ExtendsShorter(rules.split(name, false), u, v);
    }
  }

  lemma KeptSuffice(rules: Rules, name: Text, words: seq<Text>)
    requires forall p :: p in words ==> Covered(rules, words, p)
    ensures AllMatch(rules, name, FixWords(words)) <==> AllMatch(rules, name, words)
  {
    hide Matches, Covers, FixWords;
    forall w | w in FixWords(words)
      ensures w in words
    {
      FixAmong(words, w);
    }
    if AllMatch(rules, name, FixWords(words)) {
      forall p | p in words
        ensures Matches(rules, name, p)
      {
        var w :| w in FixWords(words) && Covers(rules, w, p);
        CoversMatches(rules, name, p, w);
      }
    }
  }

  /** v starts with no spelling of p. */
  ghost predicate Apart(rules: Rules, p: Text, v: Text) { forall u :: u in rules.translit(p, true) ==> !(u <= v) }

  /** One spelling of each word that starts with p, none of which starts with a spelling of p. */
  lemma {:induction false} PickSpellings(rules: Rules, words: seq<Text>, p: Text) returns (vs: seq<Text>)
    requires forall w :: w in words ==> !Covers(rules, w, p)
    ensures forall v :: v in vs ==> Apart(rules, p, v)
    ensures forall w :: w in words && p <= w ==> exists v :: v in vs && v in rules.translit(w, true)
  {
    if words == [] {
      vs := [];
    } else {
      vs := PickSpellings(rules, words[1..], p);
      if p <= words[0] {
        assert !Covers(rules, words[0], p);
        var v :| v in rules.translit(words[0], true) && forall u :: u in rules.translit(p, true) ==> !(u <= v);
        vs := [v] + vs;
      }
      assert words == [words[0]] + words[1..];
    }
  }

  /** The words that do not start with p, made longer than n. */
  function Lengthened(words: seq<Text>, p: Text, n: nat): seq<Text> {
    if words == [] then []
    else (if p <= words[0] then [] else [words[0] + seq(n, _ => 0)]) + Lengthened(words[1..], p, n)
  }

  lemma {:induction false} LengthenedHas(words: seq<Text>, p: Text, n: nat, w: Text)
    requires w in words && !(p <= w)
    ensures SomeExtends(Lengthened(words, p, n), w)
  {
    if w == words[0] {
      assert w + seq(n, _ => 0) in Lengthened(words, p, n);
    } else {
      LengthenedHas(words[1..], p, n, w);
      var v :| v in Lengthened(words[1..], p, n) && w <= v;
      assert v in Lengthened(words, p, n);
    }
  }

  lemma {:induction false} LengthenedAre(words: seq<Text>, p: Text, n: nat, v: Text)
    requires v in Lengthened(words, p, n)
    ensures |v| >= n && exists w :: w in words && !(p <= w) && w <= v
  {
    if v in Lengthened(words[1..], p, n) {
      LengthenedAre(words[1..], p, n, v);
      var w :| w in words[1..] && !(p <= w) && w <= v;
      assert w in words;
    } else {
      assert v == words[0] + seq(n, _ => 0) && !(p <= words[0]);
      assert words[0] in words && words[0] <= v;
    }
  }

  lemma {:induction false} LongerThanAll(vs: seq<Text>) returns (n: nat)
    ensures forall v :: v in vs ==> |v| < n
  {
    if vs == [] {
      n := 0;
    } else {
      var m := LongerThanAll(vs[1..]);
      n := if m > |vs[0]| then m else |vs[0]| + 1;
    }
  }

  lemma {:induction false} DifferingAll(spellings: seq<Text>, word: Text)
    requires word !in spellings
    ensures Differing(spellings, word) == spellings
  {
    if spellings != [] {
      DifferingAll(spellings[1..], word);
    }
  }

  /** When every word has the same other spellings, and none is itself one of them. */
  lemma {:induction false} OthersSame(rules: Rules, words: seq<Text>, some: seq<Text>, v: Text)
    requires forall w :: rules.translit(w, false) == some
    requires forall w :: w in words ==> w !in some
    ensures v in Others(rules, words) <==> words != [] && v in some
  {
    if words != [] {
      DifferingAll(some, words[0]);
      OthersSame(rules, words[1..], some, v);
    }
  }

  /** The words that a name has in a made-up way to split it, with the one list of other spellings. */
  function Other(rules: Rules, vs: seq<Text>, some: seq<Text>): Rules {
    Rules((t, search) => if search then rules.split(t, true) else vs,
          (w, partial) => if partial then rules.translit(w, true) else some)
  }

  /** A kept word is the only kept word that starts with a beginning of it or with itself lengthened. */
  lemma KeptApartFrom(words: seq<Text>, p: Text, w: Text, x: Text, v: Text)
    requires x in FixWords(words) && p <= x && w in FixWords(words) && !(p <= w) && w <= v
    ensures !(p <= v)
  {
    FixApart(words);
    hide FixWords;
    var kept := FixWords(words);
    var i, j :| 0 <= i < |kept| && 0 <= j < |kept| && kept[i] == w && kept[j] == x;
    assert i != j && !(kept[i] <= kept[j]);
  }

  lemma SomeKept(words: seq<Text>, p: Text) returns (x: Text)
    requires p in words
    ensures x in FixWords(words) && p <= x
  {
    assert SomeExtends(words, p);
    FixLosesNothing(words, p);
    x :| x in FixWords(words) && p <= x;
  }

  /** Without a word that stands for p, some name matches all words that are looked up, and not p. */
  lemma UncoveredFails(rules: Rules, words: seq<Text>, p: Text, name: Text) returns (other: Rules)
    requires p in words && !Covered(rules, words, p)
    ensures SameQueries(rules, other) && forall t :: other.split(t, true) == rules.split(t, true)
    ensures AllMatch(other, name, FixWords(words)) && !Matches(other, name, p)
  {
    var kept := FixWords(words);
    var x := SomeKept(words, p);
    hide FixWords;
    forall w | w in kept
      ensures !Covers(rules, w, p)
    {
    }
    var vs := PickSpellings(rules, kept, p);
    var n := LongerThanAll(vs);
    var some := Lengthened(kept, p, n);
    other := Other(rules, vs, some);
    ShortDiffer(kept, p, n, vs);
    NameOthers(rules, vs, some, name);
    forall w | w in kept
      ensures Matches(other, name, w)
    {
      if p <= w {
        var v :| v in vs && v in rules.translit(w, true);
        assert SomeExtends(vs, v);
      } else {
        LengthenedHas(kept, p, n, w);
        var v :| v in some && w <= v;
      }
    }
    forall v | v in some
      ensures !(p <= v)
    {
      LengthenedAre(kept, p, n, v);
      var w :| w in kept && !(p <= w) && w <= v;
      KeptApartFrom(words, p, w, x, v);
    }
  }

  lemma ShortDiffer(words: seq<Text>, p: Text, n: nat, vs: seq<Text>)
    requires forall v :: v in vs ==> |v| < n
    ensures forall v :: v in vs ==> v !in Lengthened(words, p, n)
  {
    forall v | v in vs && v in Lengthened(words, p, n)
      ensures false
    {
      LengthenedAre(words, p, n, v);
    }
  }

  lemma NameOthers(rules: Rules, vs: seq<Text>, some: seq<Text>, name: Text)
    requires vs != [] && forall v :: v in vs ==> v !in some
    ensures var other := Other(rules, vs, some); forall v :: v in Others(other, NameWords(other, name)) <==> v in some
  {
    var other := Other(rules, vs, some);
    assert NameWords(other, name) == FixWords(vs);
    FixEmpty(vs);
    forall w | w in FixWords(vs)
      ensures w in vs
    {
      FixAmong(vs, w);
    }
    hide FixWords, Others, Differing;
    forall v
      ensures v in Others(other, NameWords(other, name)) <==> v in some
    {
      OthersSame(other, FixWords(vs), some, v);
    }
  }

  /** The words that are looked up do for all words of a query, whatever the names, just if each word is covered. */
  lemma KeptSufficeExactly(rules: Rules, words: seq<Text>)
    ensures (forall p :: p in words ==> Covered(rules, words, p))
       <==> (forall other, name :: SameQueries(rules, other) && AllMatch(other, name, FixWords(words))
                               ==> AllMatch(other, name, words))
  {
    hide AllMatch, FixWords, Covers, Matches;
    if forall p :: p in words ==> Covered(rules, words, p) {
      forall other, name | SameQueries(rules, other) && AllMatch(other, name, FixWords(words))
        ensures AllMatch(other, name, words)
      {
        forall p | p in words
          ensures Covered(other, words, p)
        {
          CoveredAlike(rules, other, words, p);
        }
        KeptSuffice(other, name, words);
      }
    } else {
      var p :| p in words && !Covered(rules, words, p);
      var other := UncoveredFails(rules, words, p, []);
      NotAllMatch(other, [], words, p);
    }
  }

  lemma NotAllMatch(rules: Rules, name: Text, words: seq<Text>, p: Text)
    requires p in words && !Matches(rules, name, p)
    ensures !AllMatch(rules, name, words)
  {
    hide Matches;
  }

  lemma CoveredAlike(rules: Rules, other: Rules, words: seq<Text>, p: Text)
    requires SameQueries(rules, other) && Covered(rules, words, p)
    ensures Covered(other, words, p)
  {
    hide FixWords;
    var w :| w in FixWords(words) && Covers(rules, w, p);
    assert Covers(other, w, p);
  }

  // ---------------------------------------------------------------------------------------
  // The transliteration of the code
  // ---------------------------------------------------------------------------------------

  /** Words are transliterated as get_word_transliterations does it. */
  ghost predicate Transliterates(rules: Rules) {
    forall w, partial, v :: WellFormed(w) ==> (v in rules.translit(w, partial) <==> IsSpelling(w, partial, v))
  }

  ghost predicate GoodWords(words: seq<Text>) { forall w :: w in words ==> WellFormed(w) && w != [] }

  /** A word of hard and soft signs that is a prefix of other words, none of which is that. */
  ghost predicate Lost(words: seq<Text>, p: Text) {
    p in words && OnlySigns(p) && forall w :: w in FixWords(words) && p <= w ==> !OnlySigns(w)
  }

  lemma GoodKept(words: seq<Text>)
    requires GoodWords(words)
    ensures GoodWords(FixWords(words))
  {
    hide FixWords, WellFormed;
    forall w | w in FixWords(words)
      ensures w in words
    {
      FixAmong(words, w);
    }
  }

  /** A query word that is not lost is covered. */
  lemma CoveredUnlessLost(rules: Rules, words: seq<Text>, p: Text)
    requires Transliterates(rules) && GoodWords(words) && p in words && !Lost(words, p)
    ensures Covered(rules, words, p)
  {
    GoodKept(words);
    hide FixWords, IsSpelling, OnlySigns, WellFormed;
    var w: Text;
    if OnlySigns(p) {
      w :| w in FixWords(words) && p <= w && OnlySigns(w);
    } else {
      w := SomeKept(words, p);
    }
    forall v | v in rules.translit(w, true)
      ensures exists u :: u in rules.translit(p, true) && u <= v
    {
      var u := p;
      if OnlySigns(p) {
        SignsSpelling(w, true, v);
        SignsSpelling(p, true, p);
      } else {
        u := SpellingExtends(p, w, v);
      }
      assert u in rules.translit(p, true);
    }
    assert Covers(rules, w, p);
  }

  lemma {:induction false} OthersAmong(rules: Rules, words: seq<Text>, v: Text)
    requires v in Others(rules, words)
    ensures exists w :: w in words && v in rules.translit(w, false)
  {
    if v in Others(rules, words[1..]) {
      OthersAmong(rules, words[1..], v);
      var w :| w in words[1..] && v in rules.translit(w, false);
      assert w in words;
    } else {
      DifferingAmong(rules.translit(words[0], false), words[0], v);
      assert words[0] in words;
    }
  }

  lemma {:induction false} DifferingAmong(spellings: seq<Text>, word: Text, v: Text)
    requires v in Differing(spellings, word)
    ensures v in spellings
  {
    if v != spellings[0] || spellings[0] == word {
      DifferingAmong(spellings[1..], word, v);
    }
  }

  /** A query word of signs matches the names with a word that starts with it, and no other. */
  lemma SignsMatch(rules: Rules, name: Text, p: Text)
    requires Transliterates(rules) && GoodWords(rules.split(name, false)) && OnlySigns(p)
    ensures Matches(rules, name, p) <==> SomeExtends(rules.split(name, false), p)
  {
    var ws := rules.split(name, false);
    GoodKept(ws);
    FixLosesNothing(ws, p);
    hide FixWords, IsSpelling, OnlySigns, WellFormed, Others;
    SignsSpelling(p, true, p);
    if SomeExtends(Others(rules, NameWords(rules, name)), p) {
      var v :| v in Others(rules, NameWords(rules, name)) && p <= v;
      OthersAmong(rules, NameWords(rules, name), v);
      var w :| w in FixWords(ws) && v in rules.translit(w, false);
      SpellingFromSigns(w, false, v, p);
    }
    forall v | v in rules.translit(p, true)
      ensures v == p
    {
      SignsSpelling(p, true, v);
    }
  }

  /** No kept word has to be spelled with the signs of a word that is lost. */
  lemma {:induction false} SpellWithout(words: seq<Text>, p: Text) returns (vs: seq<Text>)
    requires GoodWords(words) && OnlySigns(p) && forall w :: w in words && p <= w ==> !OnlySigns(w)
    ensures GoodWords(vs) && !SomeExtends(vs, p)
    ensures forall w :: w in words ==> exists v :: v in vs && IsSpelling(w, true, v)
  {
    hide IsSpelling, OnlySigns, WellFormed;
    if words == [] {
      vs := [];
    } else {
      assert words == [words[0]] + words[1..];
      assert forall w :: w in words[1..] ==> w in words;
      vs := SpellWithout(words[1..], p);
      var v := SomeSpelling(words[0], p);
      vs := [v] + vs;
    }
  }

  /** A name with such spellings as its words matches what is looked up, and not the word that is lost. */
  lemma LostFails(rules: Rules, words: seq<Text>, p: Text, vs: seq<Text>, name: Text)
    requires Transliterates(rules) && GoodWords(words) && Lost(words, p)
    requires GoodWords(vs) && !SomeExtends(vs, p) && rules.split(name, false) == vs
    requires forall w :: w in FixWords(words) ==> exists v :: v in vs && IsSpelling(w, true, v)
    ensures AllMatch(rules, name, FixWords(words)) && !AllMatch(rules, name, words)
  {
    GoodKept(words);
    SignsMatch(rules, name, p);
    NotAllMatch(rules, name, words, p);
    hide FixWords, IsSpelling, OnlySigns, WellFormed;
    forall w | w in FixWords(words)
      ensures Matches(rules, name, w)
    {
      var v :| v in vs && IsSpelling(w, true, v);
      assert v in rules.translit(w, true) && v <= v;
    }
  }

  /** All spellings of a word, in some order. */
  ghost function Spellings(word: Text, partial: bool): seq<Text> {
    var a, b := SpelledIn(Russian, word, partial), SpelledIn(English, word, partial);
    if AllScalars(a) && AllScalars(b) then Texts(a) + Texts(b) else []
  }

  ghost function SpelledIn(to: Alphabet, word: Text, partial: bool): seq<seq<nat>> {
    if WellFormed(word) then Spelled(to, Codes(word), partial) else []
  }

  lemma SpelledInScalars(to: Alphabet, word: Text, partial: bool)
    ensures AllScalars(SpelledIn(to, word, partial))
  {
    if WellFormed(word) {
      CodesAre(word);
      hide Codes, Spelled, WellFormed;
      forall t | t in Spelled(to, Codes(word), partial)
        ensures Scalars(t)
      {
        SpelledScalars(to, Codes(word), partial, t);
      }
    }
  }

  lemma SpellingsAre(word: Text, partial: bool, v: Text)
    requires WellFormed(word)
    ensures v in Spellings(word, partial) <==> IsSpelling(word, partial, v)
  {
    hide Codes, Spelled, WellFormed, IsSpelling, Texts;
    var a, b := SpelledIn(Russian, word, partial), SpelledIn(English, word, partial);
    SpelledInScalars(Russian, word, partial);
    SpelledInScalars(English, word, partial);
    assert [] + Texts(a) == Texts(a);
    BothAlphabets(word, partial, Texts(a), Texts(a) + Texts(b), v);
  }

  lemma SpellingsTransliterate(split: (Text, bool) -> seq<Text>) returns (rules: Rules)
    ensures Transliterates(rules) && rules.split == split
  {
    rules := Rules(split, (w, partial) => Spellings(w, partial));
    hide Spellings, IsSpelling, WellFormed;
    forall w, partial, v | WellFormed(w)
      ensures v in rules.translit(w, partial) <==> IsSpelling(w, partial, v)
    {
      SpellingsAre(w, partial, v);
    }
  }

  /** Some name matches all words that are looked up and not all words of the query just if a word is lost. */
  lemma LostExactly(words: seq<Text>)
    requires GoodWords(words)
    ensures (exists p :: Lost(words, p))
       <==> (exists rules, name :: Transliterates(rules) && GoodWords(rules.split(name, false))
                                && AllMatch(rules, name, FixWords(words)) && !AllMatch(rules, name, words))
  {
    GoodKept(words);
    hide Matches, FixWords, AllMatch, Transliterates, GoodWords;
    if exists p :: Lost(words, p) {
      var p :| Lost(words, p);
      var vs := SpellWithout(FixWords(words), p);
      var rules := SpellingsTransliterate((t, search) => vs);
      LostFails(rules, words, p, vs, []);
    } else {
      forall rules, name | Transliterates(rules) && AllMatch(rules, name, FixWords(words))
        ensures AllMatch(rules, name, words)
      {
        forall p | p in words
          ensures Covered(rules, words, p)
        {
          CoveredUnlessLost(rules, words, p);
        }
        KeptSuffice(rules, name, words);
      }
    }
  }

  // ---------------------------------------------------------------------------------------
  // One query
  // ---------------------------------------------------------------------------------------

  /** The hard sign, the hard sign followed by 0x430, and the letter a. */
  const HARD_SIGN: Text := [0xd1, 0x8a]
  const LONGER: Text := [0xd1, 0x8a, 0xd0, 0xb0]
  const LETTER_A: Text := [0x61]

  lemma TheseTexts()
    ensures EncodeAll([0x44a]) == HARD_SIGN && EncodeAll([0x44a, 0x430]) == LONGER && EncodeAll([0x61]) == LETTER_A
  {
    assert Encode(0x44a) == HARD_SIGN && Encode(0x430) == [0xd0, 0xb0] && Encode(0x61) == LETTER_A;
    assert [0x44a, 0x430][1..] == [0x430];
    assert EncodeAll([0x430]) == [0xd0, 0xb0];
  }

  lemma TheseWords()
    ensures WellFormed(HARD_SIGN) && WellFormed(LONGER) && WellFormed(LETTER_A)
    ensures Codes(HARD_SIGN) == [0x44a] && Codes(LONGER) == [0x44a, 0x430]
  {
    TheseTexts();
    hide Codes, WellFormed, EncodeAll;
    EncodedWellFormed([0x44a]);
    EncodedWellFormed([0x44a, 0x430]);
    EncodedWellFormed([0x61]);
  }

  lemma LongerPlain()
    ensures Plain(English, [0x44a, 0x430]) == [0x61]
  {
    assert [0x44a, 0x430][1..] == [0x430];
    assert Plain(English, [0x430]) == [0x61];
  }

  lemma LongerSpelled()
    ensures IsSpelling(LONGER, true, LETTER_A)
  {
    TheseWords();
    TheseTexts();
    LongerPlain();
    InSpelled(English, [0x44a, 0x430], true, [0x61]);
    hide Spelled, Codes, WellFormed, EncodeAll, Plain;
    assert SpelledBy(English, LONGER, true, [0x61], LETTER_A);
  }

  lemma LongerKept()
    ensures FixWords([HARD_SIGN, LONGER]) == [LONGER]
  {
    var s := [HARD_SIGN, LONGER];
    assert HARD_SIGN <= LONGER;
    PrefixLe(HARD_SIGN, LONGER);
    assert s[1..] == [LONGER];
    assert Sort(s[1..], Le) == [LONGER];
    assert Sort(s, Le) == s;
    assert Kept([LONGER]) == [LONGER];
  }

  /** Search looks up the longer word alone and so finds the name "a", which does not match the hard sign. */
  lemma HardSignIsLost(rules: Rules, name: Text)
    requires Transliterates(rules) && rules.split(name, false) == [LETTER_A]
    ensures var words := [HARD_SIGN, LONGER];
            FixWords(words) == [LONGER] && AllMatch(rules, name, FixWords(words)) && !Matches(rules, name, HARD_SIGN)
  {
    TheseWords();
    LongerSpelled();
    LongerKept();
    hide FixWords, IsSpelling, Codes, WellFormed;
    SignsMatch(rules, name, HARD_SIGN);
    assert LETTER_A in rules.translit(LONGER, true) && LETTER_A <= LETTER_A;
    assert LETTER_A in rules.split(name, false);
    assert SomeExtends(rules.split(name, false), LETTER_A);
  }
}
