/**
  Transliteration of words as td/utils/translit.cpp computes it on UTF-8 bytes, and what it means for words that begin
  with one another.
*/
module TranslitText {
  import opened HintWords
  import opened Sorting
  import opened Translit
  import opened Utf8

  // ---------------------------------------------------------------------------------------
  // Code points and bytes
  // ---------------------------------------------------------------------------------------

  lemma {:induction false} EncodeAppend(a: seq<nat>, b: seq<nat>)
    requires Scalars(a) && Scalars(b)
    ensures Scalars(a + b) && EncodeAll(a + b) == EncodeAll(a) + EncodeAll(b)
  {
    hide Encode;
    if a == [] {
      assert a + b == b;
    } else {
      EncodeAppend(a[1..], b);
      assert (a + b)[1..] == a[1..] + b;
    }
  }

  /** Texts begin with one another just as their code points do. */
  lemma {:induction false} EncodePrefix(a: seq<nat>, b: seq<nat>)
    requires Scalars(a) && Scalars(b)
    ensures EncodeAll(a) <= EncodeAll(b) <==> a <= b
  {
    hide Encode, Decode, Announced;
    if a <= b {
      assert b == a + b[|a|..];
      EncodeAppend(a, b[|a|..]);
    }
    if EncodeAll(a) <= EncodeAll(b) && a != [] {
      var s := EncodeAll(b);
      assert b != [];
      assert Encode(a[0]) <= EncodeAll(a) <= s && Encode(b[0]) <= s;
      DecodeEncode(a[0], s);
      DecodeEncode(b[0], s);
      Cancel(Encode(a[0]), EncodeAll(a[1..]), EncodeAll(b[1..]));
      EncodePrefix(a[1..], b[1..]);
      assert a == [a[0]] + a[1..] && b == [b[0]] + b[1..];
    }
  }

  lemma Cancel(x: Text, a: Text, b: Text)
    requires x + a <= x + b
    ensures a <= b
  {
    assert (x + a)[|x|..] == a && (x + b)[|x|..] == b;
  }

  lemma {:induction false} EncodedWellFormed(a: seq<nat>)
    requires Scalars(a)
    ensures WellFormed(EncodeAll(a)) && Codes(EncodeAll(a)) == a
  {
    hide Encode, Decode, Announced, WellFormed, Codes;
    if a == [] {
      CodesEmpty();
    } else {
      var s := EncodeAll(a);
      EncodedWellFormed(a[1..]);
      assert s[|Encode(a[0])|..] == EncodeAll(a[1..]);
      Joined(a[0], s);
      CodesStep(s);
      DecodeEncode(a[0], s);
    }
  }

  lemma Joined(c: nat, s: Text)
    requires Starts(c, s) && WellFormed(s[|Encode(c)|..])
    ensures WellFormed(s)
  {
  }

  lemma CodesAre(s: Text)
    requires WellFormed(s)
    ensures Scalars(Codes(s)) && EncodeAll(Codes(s)) == s && (s == [] <==> Codes(s) == [])
  {
    CodesEncode(s);
    hide Codes, Encode, WellFormed;
  }

  lemma CodesPrefix(p: Text, w: Text)
    requires WellFormed(p) && WellFormed(w)
    ensures p <= w <==> Codes(p) <= Codes(w)
  {
    hide Codes, WellFormed, EncodeAll;
    CodesAre(p);
    CodesAre(w);
    EncodePrefix(Codes(p), Codes(w));
  }

  // ---------------------------------------------------------------------------------------
  // The spellings of a word
  // ---------------------------------------------------------------------------------------

  ghost predicate SpelledBy(to: Alphabet, word: Text, partial: bool, t: seq<nat>, v: Text)
    requires WellFormed(word)
  {
    t in Spelled(to, Codes(word), partial) && Scalars(t) && v == EncodeAll(t)
  }

  /** What get_word_transliterations has among its answers. */
  ghost predicate IsSpelling(word: Text, partial: bool, v: Text) {
    WellFormed(word) && exists to, t :: SpelledBy(to, word, partial, t, v)
  }

  /** A word of hard and soft signs. */
  ghost predicate OnlySigns(word: Text) { WellFormed(word) && word != [] && AllSigns(Codes(word)) }

  /** Every spelling of a longer word starts with a spelling of the word, if that has more than hard and soft signs. */
  lemma SpellingExtends(p: Text, w: Text, v: Text) returns (u: Text)
    requires WellFormed(p) && p != [] && !OnlySigns(p) && p <= w && IsSpelling(w, true, v)
    ensures IsSpelling(p, true, u) && u <= v
  {
    hide Spelled, Codes, WellFormed, EncodeAll;
    var to, t :| SpelledBy(to, w, true, t, v);
    CodesPrefix(p, w);
    CodesAre(p);
    CodesAre(w);
    var b := SpelledExtends(to, Codes(p), Codes(w), t);
    SpelledScalars(to, Codes(p), true, b);
    EncodePrefix(b, t);
    u := EncodeAll(b);
    assert SpelledBy(to, p, true, b, u);
  }

  /** A word of signs has itself as its one spelling. */
  lemma SignsSpelling(p: Text, partial: bool, v: Text)
    requires OnlySigns(p)
    ensures IsSpelling(p, partial, v) <==> v == p
  {
    hide Spelled, Codes, WellFormed, EncodeAll;
    CodesAre(p);
    var x := Codes(p);
    SpelledSigns(Russian, x, x, partial);
    assert SpelledBy(Russian, p, partial, x, p);
    if IsSpelling(p, partial, v) {
      var to, t :| SpelledBy(to, p, partial, t, v);
      SpelledSigns(to, x, t, partial);
    }
  }

  /** A spelling that starts with signs belongs to a word that starts with them. */
  lemma SpellingFromSigns(word: Text, partial: bool, v: Text, p: Text)
    requires IsSpelling(word, partial, v) && OnlySigns(p) && p <= v
    ensures p <= word
  {
    hide Spelled, Codes, WellFormed, EncodeAll;
    var to, t :| SpelledBy(to, word, partial, t, v);
    CodesAre(p);
    CodesAre(word);
    EncodePrefix(Codes(p), t);
    SpelledFromSigns(to, Codes(word), partial, t, Codes(p));
    CodesPrefix(p, word);
  }

  /** A word that is more than signs has a spelling without any, and every word one that keeps its beginning. */
  lemma SomeSpelling(w: Text, p: Text) returns (v: Text)
    requires WellFormed(w) && w != [] && OnlySigns(p) && (p <= w ==> !OnlySigns(w))
    ensures WellFormed(v) && v != [] && IsSpelling(w, true, v) && !(p <= v)
  {
    var to := if p <= w then English else Russian;
    var x := Codes(w);
    hide Spelled, Codes, WellFormed, EncodeAll, Greedy;
    CodesAre(w);
    CodesAre(p);
    var t := Plain(to, x);
    PlainNothing(to, x);
    InSpelled(to, x, true, t);
    SpelledScalars(to, x, true, t);
    EncodedWellFormed(t);
    v := EncodeAll(t);
    EncodedSome(t);
    assert SpelledBy(to, w, true, t, v);
    if p <= v {
      EncodePrefix(Codes(p), t);
      SpelledFromSigns(to, x, true, t, Codes(p));
      CodesPrefix(p, w);
    }
  }

  // ---------------------------------------------------------------------------------------
  // The code
  // ---------------------------------------------------------------------------------------

  function Encoded(t: seq<nat>): (r: Text)
    requires Scalars(t)
    ensures r == EncodeAll(t)
  {
    EncodeAll(t)
  }

  predicate AllScalars(ts: seq<seq<nat>>) { forall i :: 0 <= i < |ts| ==> Scalars(ts[i]) }

  function Texts(ts: seq<seq<nat>>): (r: seq<Text>)
    requires AllScalars(ts)
    ensures |r| == |ts| && forall i :: 0 <= i < |ts| ==> r[i] == Encoded(ts[i])
  {
    seq(|ts|, i requires 0 <= i < |ts| => Encoded(ts[i]))
  }

  /** r is what was there and the texts with these code points. */
  predicate Appended(given: seq<Text>, ts: seq<seq<nat>>, r: seq<Text>) { AllScalars(ts) && r == given + Texts(ts) }

  lemma AppendedNone(given: seq<Text>)
    ensures Appended(given, [], given)
  {
    assert Texts([]) == [];
  }

  lemma AppendedOne(given: seq<Text>, ts: seq<seq<nat>>, r: seq<Text>, t: seq<nat>)
    requires Appended(given, ts, r) && Scalars(t)
    ensures Appended(given, ts + [t], r + [EncodeAll(t)])
  {
    assert Texts(ts + [t]) == Texts(ts) + [EncodeAll(t)];
  }

  lemma AppendedMore(given: seq<Text>, ts: seq<seq<nat>>, r: seq<Text>, us: seq<seq<nat>>, q: seq<Text>)
    requires Appended(given, ts, r) && Appended(r, us, q)
    ensures Appended(given, ts + us, q)
  {
    assert Texts(ts + us) == Texts(ts) + Texts(us);
  }

  predicate BeginsWith(str: Text, prefix: Text) { |prefix| <= |str| && prefix == str[..|prefix|] }

  /** The first loop of add_word_transliterations. */
  method PlainText(word: Text, to: Alphabet) returns (s: Text)
    requires WellFormed(word)
    ensures Scalars(Plain(to, Codes(word))) && s == EncodeAll(Plain(to, Codes(word)))
  {
    hide Codes, WellFormed, Encode, Decode, Announced, Simple, EncodeAll;
    ghost var x, done := Codes(word), [];
    CodesAre(word);
    PlainScalars(to, x);
    s := [];
    NothingEncoded();
    var pos := 0;
    assert word[0..] == word;
    while pos != |word|
      invariant 0 <= pos <= |word| && WellFormed(word[pos..])
      invariant Scalars(done) && s == EncodeAll(done) && done + Plain(to, Codes(word[pos..])) == Plain(to, x)
      decreases |word| - pos
    {
      ghost var rest := word[pos..];
      CodesStep(rest);
      CodesAre(rest);
      AnnouncedSome(rest[0]);
      var code, n := Decode(word[pos..]), Announced(word[pos]);
      PlainStep(to, Codes(rest), done);
      EncodeAppend(done, Simple(to, code));
      s := s + EncodeAll(Simple(to, code));
      done := done + Simple(to, code);
      assert rest[n..] == word[pos + n..];
      pos := pos + n;
    }
    NoCodesLeft(word[pos..]);
    assert Plain(to, []) == [] && done + [] == done;
  }

  lemma NothingEncoded()
    ensures EncodeAll([]) == [] && Scalars([])
  {
  }

  lemma NoCodesLeft(s: Text)
    requires WellFormed(s) && s == []
    ensures Codes(s) == []
  {
  }

  lemma AnnouncedSome(a: byte)
    ensures Announced(a) > 0
  {
  }

  lemma PlainStep(to: Alphabet, x: seq<nat>, done: seq<nat>)
    requires x != [] && Scalar(x[0])
    ensures Scalars(Simple(to, x[0])) && done + Plain(to, x) == (done + Simple(to, x[0])) + Plain(to, x[1..])
  {
    SimpleIs(to, x[0]);
    hide Simple;
  }

  /** What the second loop still has to append when it has written `done` and is at `x`. */
  function Pending(to: Alphabet, done: seq<nat>, x: seq<nat>, partial: bool): seq<seq<nat>> {
    NotEmpty(Behind(done, Greedy(to, x, partial)))
  }

  lemma {:induction false} NotEmptyAppend(a: seq<seq<nat>>, b: seq<seq<nat>>)
    ensures NotEmpty(a + b) == NotEmpty(a) + NotEmpty(b)
  {
    if a == [] {
      assert a + b == b;
    } else {
      var h := if a[0] == [] then [] else [a[0]];
      NotEmptyAppend(a[1..], b);
      assert (a + b)[0] == a[0] && (a + b)[1..] == a[1..] + b;
      AppendFurther(h, NotEmpty(a[1..]), NotEmpty(b));
    }
  }

  lemma {:induction false} NotEmptyAll(a: seq<seq<nat>>)
    requires forall i :: 0 <= i < |a| ==> a[i] != []
    ensures NotEmpty(a) == a
  {
    if a != [] {
      NotEmptyAll(a[1..]);
    }
  }

  lemma {:induction false} BegunFilled(rules: seq<Rule>, x: seq<nat>)
    requires forall k :: 0 <= k < |rules| ==> RuleOk(rules[k])
    ensures forall i :: 0 <= i < |Begun(rules, x)| ==> Begun(rules, x)[i] != [] && Scalars(Begun(rules, x)[i])
  {
    if rules != [] {
      BegunFilled(rules[1..], x);
    }
  }

  /** What has been appended when the first `i` rules did not apply. */
  function Offered(to: Alphabet, done: seq<nat>, x: seq<nat>, partial: bool, i: nat): seq<seq<nat>>
    requires i <= |Complex(to)|
  {
    Behind(done, if partial then Begun(Complex(to)[..i], x) else [])
  }

  lemma OfferedOk(to: Alphabet, done: seq<nat>, x: seq<nat>, partial: bool, i: nat)
    requires i <= |Complex(to)| && Scalars(done)
    ensures AllScalars(Offered(to, done, x, partial, i))
      && NotEmpty(Offered(to, done, x, partial, i)) == Offered(to, done, x, partial, i)
  {
    BegunFilled(Complex(to)[..i], x);
    hide Complex, Begun, NotEmpty;
    NotEmptyAll(Offered(to, done, x, partial, i));
  }

  /** One round: the begun groups are appended, and the first output is written. */
  lemma PendingStep(to: Alphabet, done: seq<nat>, x: seq<nat>, partial: bool)
    requires x != [] && Scalars(done) && Scalars(x)
    ensures var offered := Offered(to, done, x, partial, FirstRule(Complex(to), x));
            && AllScalars(offered) && Scalars(Output(to, x))
            && Pending(to, done, x, partial) == offered + Pending(to, done + Output(to, x), x[Length(to, x)..], partial)
  {
    var k := FirstRule(Complex(to), x);
    OfferedOk(to, done, x, partial, k);
    OutputScalars(to, x);
    BehindGreedy(to, done, x, partial);
    hide *;
    NotEmptyAppend(Offered(to, done, x, partial, k),
      Behind(done + Output(to, x), Greedy(to, x[Length(to, x)..], partial)));
    PendingIs(to, done, x, partial);
    PendingIs(to, done + Output(to, x), x[Length(to, x)..], partial);
  }

  lemma PendingIs(to: Alphabet, done: seq<nat>, x: seq<nat>, partial: bool)
    ensures Pending(to, done, x, partial) == NotEmpty(Behind(done, Greedy(to, x, partial)))
  {
    hide Greedy, NotEmpty;
  }

  lemma BehindGreedy(to: Alphabet, done: seq<nat>, x: seq<nat>, partial: bool)
    requires x != []
    ensures Behind(done, Greedy(to, x, partial)) == Offered(to, done, x, partial, FirstRule(Complex(to), x))
              + Behind(done + Output(to, x), Greedy(to, x[Length(to, x)..], partial))
  {
    var rules := Complex(to);
    var begun := if partial then Begun(rules[..FirstRule(rules, x)], x) else [];
    var ts := Greedy(to, x[Length(to, x)..], partial);
    assert Greedy(to, x, partial) == begun + Behind(Output(to, x), ts);
    hide Greedy, Complex, Output, Length, Begun, FirstRule;
    BehindTwice(done, begun, Output(to, x), ts);
  }

  lemma BehindTwice(done: seq<nat>, begun: seq<seq<nat>>, y: seq<nat>, ts: seq<seq<nat>>)
    ensures Behind(done, begun + Behind(y, ts)) == Behind(done, begun) + Behind(done + y, ts)
  {
    forall i | 0 <= i < |ts| ensures done + (y + ts[i]) == (done + y) + ts[i] {
    }
  }

  lemma PendingEnds(to: Alphabet, done: seq<nat>, partial: bool)
    ensures Pending(to, done, [], partial) == if done == [] then [] else [done]
  {
    assert Greedy(to, [], partial) == [[]] && done + [] == done;
    assert Behind(done, [[]]) == [done] && [done][1..] == [];
    assert NotEmpty([]) == [];
  }

  lemma PendingStarts(to: Alphabet, x: seq<nat>, partial: bool)
    ensures [] + Pending(to, [], x, partial) == NotEmpty(Greedy(to, x, partial))
  {
    hide Greedy;
    var ts := Greedy(to, x, partial);
    forall i | 0 <= i < |ts| ensures [] + ts[i] == ts[i] {
    }
    assert Behind([], ts) == ts;
  }

  lemma {:induction false} BegunNext(rules: seq<Rule>, x: seq<nat>, i: nat)
    requires i < |rules|
    ensures Begun(rules[..i + 1], x) == Begun(rules[..i], x) + if x <= rules[i].first then [rules[i].second] else []
  {
    if i == 0 {
      assert rules[..1] == [rules[0]] && Begun([], x) == [];
    } else {
      BegunNext(rules[1..], x, i - 1);
      assert rules[..i + 1][1..] == rules[1..][..i] && rules[..i][1..] == rules[1..][..i - 1];
    }
  }

  lemma OfferedNext(to: Alphabet, done: seq<nat>, x: seq<nat>, partial: bool, i: nat)
    requires i < |Complex(to)| && Scalars(done)
    ensures Offered(to, done, x, partial, i + 1) == Offered(to, done, x, partial, i)
              + (if partial && x <= Complex(to)[i].first then [done + Complex(to)[i].second] else [])
  {
    BegunNext(Complex(to), x, i);
    hide Complex, Begun;
  }

  /** The comparisons of bytes are comparisons of code points. */
  lemma Compared(suffix: Text, rule: Rule)
    requires WellFormed(suffix) && RuleOk(rule)
    ensures BeginsWith(suffix, Encoded(rule.first)) <==> Stands(rule, Codes(suffix))
    ensures BeginsWith(Encoded(rule.first), suffix) <==> Begins(Codes(suffix), rule)
  {
    var first := rule.first;
    hide Codes, WellFormed, EncodeAll;
    CodesAre(suffix);
    EncodePrefix(first, Codes(suffix));
    EncodePrefix(Codes(suffix), first);
    BeginsWithIs(suffix, EncodeAll(first));
    BeginsWithIs(EncodeAll(first), suffix);
  }

  /** One more text is appended as one more is offered. */
  lemma OfferText(to: Alphabet, done: seq<nat>, x: seq<nat>, partial: bool, i: nat, given: seq<Text>, r: seq<Text>)
    requires i < |Complex(to)| && Scalars(done) && Appended(given, Offered(to, done, x, partial, i), r)
    ensures Scalars(Complex(to)[i].second)
    ensures Appended(given, Offered(to, done, x, partial, i + 1),
                     if partial && Begins(x, Complex(to)[i])
                     then r + [EncodeAll(done) + Encoded(Complex(to)[i].second)] else r)
  {
    var rule := Complex(to)[i];
    assert RuleOk(rule);
    OfferedNext(to, done, x, partial, i);
    EncodeAppend(done, rule.second);
    hide Complex, Offered, EncodeAll, Appended;
    var before := Offered(to, done, x, partial, i);
    AppendedOne(given, before, r, done + rule.second);
    assert before + [] == before;
  }

  lemma OfferedNone(to: Alphabet, done: seq<nat>, x: seq<nat>, partial: bool)
    ensures Offered(to, done, x, partial, 0) == []
  {
    hide Complex;
  }

  /** The rule's group stands at the start of the text. */
  predicate Stands(rule: Rule, x: seq<nat>) { rule.first <= x }

  /** The text is the beginning of the rule's group. */
  predicate Begins(x: seq<nat>, rule: Rule) { x <= rule.first }

  predicate NoneStands(rules: seq<Rule>, x: seq<nat>, k: nat)
    requires k <= |rules|
  {
    forall j :: 0 <= j < k ==> !Stands(rules[j], x)
  }

  lemma NoneNext(rules: seq<Rule>, x: seq<nat>, k: nat)
    ensures NoneStands(rules, x, 0)
    ensures k < |rules| && NoneStands(rules, x, k) && !Stands(rules[k], x) ==> NoneStands(rules, x, k + 1)
  {
  }

  predicate FirstAt(rules: seq<Rule>, x: seq<nat>, k: nat) {
    k <= |rules| && (k < |rules| ==> Stands(rules[k], x)) && NoneStands(rules, x, k)
  }

  lemma FirstRuleIs(rules: seq<Rule>, x: seq<nat>, k: nat)
    requires FirstAt(rules, x, k)
    ensures k == FirstRule(rules, x)
  {
    hide FirstRule;
    assert forall j :: 0 <= j < k ==> !(rules[j].first <= x) by {
      forall j | 0 <= j < k ensures !(rules[j].first <= x) {
        assert !Stands(rules[j], x);
      }
    }
  }

  lemma BeginsWithIs(a: Text, b: Text)
    ensures BeginsWith(a, b) <==> b <= a
  {
  }

  /** One rule: it applies, or the text that it may make of a begun group is appended. */
  method TryRule(rule: Rule, suffix: Text, s: Text, given: seq<Text>, allowPartial: bool)
    returns (found: bool, r: seq<Text>)
    requires WellFormed(suffix) && RuleOk(rule)
    ensures found <==> Stands(rule, Codes(suffix))
    ensures r == if !found && allowPartial && Begins(Codes(suffix), rule)
                 then given + [s + Encoded(rule.second)] else given
  {
    hide Codes, WellFormed, EncodeAll, Encoded, BeginsWith, Stands, Begins;
    Compared(suffix, rule);
    found, r := BeginsWith(suffix, Encoded(rule.first)), given;
    if !found && allowPartial && BeginsWith(Encoded(rule.first), suffix) {
      r := r + [s + Encoded(rule.second)];
    }
  }

  /** The first k rules do not apply, and what they may make of begun groups has been appended. */
  predicate Tried(to: Alphabet, done: seq<nat>, x: seq<nat>, partial: bool, k: nat, given: seq<Text>, r: seq<Text>) {
    k <= |Complex(to)| && NoneStands(Complex(to), x, k) && Appended(given, Offered(to, done, x, partial, k), r)
  }

  lemma TriedNone(to: Alphabet, done: seq<nat>, x: seq<nat>, partial: bool, given: seq<Text>)
    ensures Tried(to, done, x, partial, 0, given, given)
  {
    OfferedNone(to, done, x, partial);
    AppendedNone(given);
    hide Complex, Offered, Appended;
  }

  lemma GoodRules(to: Alphabet)
    ensures forall k :: 0 <= k < |Complex(to)| ==> RuleOk(Complex(to)[k])
  {
    hide Complex;
  }

  lemma TriedNext(to: Alphabet, done: seq<nat>, x: seq<nat>, partial: bool, k: nat, given: seq<Text>, r: seq<Text>,
          r': seq<Text>)
    requires Scalars(done) && k < |Complex(to)| && Tried(to, done, x, partial, k, given, r)
      && !Stands(Complex(to)[k], x)
    requires Scalars(Complex(to)[k].second)
    requires r' == if partial && Begins(x, Complex(to)[k])
                   then r + [EncodeAll(done) + Encoded(Complex(to)[k].second)] else r
    ensures Tried(to, done, x, partial, k + 1, given, r')
  {
    hide Complex, Offered, Appended, EncodeAll, Encoded, NoneStands, Stands, Begins;
    NoneNext(Complex(to), x, k);
    OfferText(to, done, x, partial, k, given, r);
  }

  /** The inner loop over the complex rules: the first that applies, and what is appended before it. */
  method TryRules(to: Alphabet, suffix: Text, s: Text, result: seq<Text>, allowPartial: bool, ghost done: seq<nat>)
    returns (k: nat, r: seq<Text>)
    requires WellFormed(suffix) && Scalars(done) && s == EncodeAll(done)
    ensures Tried(to, done, Codes(suffix), allowPartial, k, result, r)
    ensures k < |Complex(to)| ==> Stands(Complex(to)[k], Codes(suffix))
  {
    var rules := Complex(to);
    ghost var x := Codes(suffix);
    TriedNone(to, done, x, allowPartial, result);
    GoodRules(to);
    hide *;
    k, r := 0, result;
    while k < |rules|
      invariant Tried(to, done, x, allowPartial, k, result, r)
      invariant k <= |rules|
      decreases |rules| - k
    {
      ghost var was := r;
      var found;
      found, r := TryRule(rules[k], suffix, s, r, allowPartial);
      if found {
        break;
      }
      TriedNext(to, done, x, allowPartial, k, result, was, r);
      k := k + 1;
    }
  }

  lemma TriedIs(to: Alphabet, done: seq<nat>, x: seq<nat>, partial: bool, k: nat, given: seq<Text>, r: seq<Text>)
    requires Tried(to, done, x, partial, k, given, r) && (k < |Complex(to)| ==> Stands(Complex(to)[k], x))
    ensures k == FirstRule(Complex(to), x) && Appended(given, Offered(to, done, x, partial, k), r)
  {
    hide Complex, Offered, Appended;
    FirstRuleIs(Complex(to), x, k);
  }

  /** What the loop writes at the start of a text, and how many bytes it moves on. */
  method WriteOne(to: Alphabet, suffix: Text, s: Text, k: nat, ghost done: seq<nat>) returns (s': Text, n: nat)
    requires WellFormed(suffix) && suffix != [] && Scalars(done) && s == EncodeAll(done)
    requires k == FirstRule(Complex(to), Codes(suffix)) && Codes(suffix) != [] && Scalars(Output(to, Codes(suffix)))
    ensures Scalars(done + Output(to, Codes(suffix))) && s' == EncodeAll(done + Output(to, Codes(suffix)))
    ensures 0 < n <= |suffix| && WellFormed(suffix[n..])
    ensures Codes(suffix[n..]) == Codes(suffix)[Length(to, Codes(suffix))..]
  {
    hide Codes, WellFormed, Encode, Decode, Announced, Simple, EncodeAll, Complex;
    CodesStep(suffix);
    CodesAre(suffix);
    AnnouncedSome(suffix[0]);
    EncodeAppend(done, Output(to, Codes(suffix)));
    if k < |Complex(to)| {
      var rule := Complex(to)[k];
      n := |EncodeAll(rule.first)|;
      s' := s + EncodeAll(rule.second);
      RestCodes(suffix, rule.first);
    } else {
      n := Announced(suffix[0]);
      s' := s + EncodeAll(Simple(to, Decode(suffix)));
    }
  }

  /** The second loop of add_word_transliterations. */
  method GreedyTexts(word: Text, to: Alphabet, allowPartial: bool) returns (r: seq<Text>)
    requires WellFormed(word)
    ensures Appended([], NotEmpty(Greedy(to, Codes(word), allowPartial)), r)
  {
    hide Codes, WellFormed, EncodeAll, Complex, Greedy, Pending, Offered, Appended, Output, Length, Tried;
    ghost var x, done, pushed := Codes(word), [], [];
    CodesAre(word);
    PendingStarts(to, x, allowPartial);
    NothingEncoded();
    var s: Text, pos := [], 0;
    r := [];
    AppendedNone([]);
    assert word[0..] == word;
    while pos != |word|
      invariant 0 <= pos <= |word| && WellFormed(word[pos..]) && Scalars(done) && s == EncodeAll(done)
      invariant Appended([], pushed, r)
      invariant pushed + Pending(to, done, Codes(word[pos..]), allowPartial) == NotEmpty(Greedy(to, x, allowPartial))
      decreases |word| - pos
    {
      ghost var rest := word[pos..];
      CodesAre(rest);
      PendingStep(to, done, Codes(rest), allowPartial);
      var k;
      ghost var was, output := r, Output(to, Codes(rest));
      k, r := TryRules(to, word[pos..], s, r, allowPartial, done);
      TriedIs(to, done, Codes(rest), allowPartial, k, was, r);
      ghost var offered := Offered(to, done, Codes(rest), allowPartial, k);
      AppendedMore([], pushed, was, offered, r);
      AppendFurther(pushed, offered, Pending(to, done + output, Codes(rest)[Length(to, Codes(rest))..], allowPartial));
      pushed := pushed + offered;
      var n: nat;
      s, n := WriteOne(to, word[pos..], s, k, done);
      done := done + output;
      assert rest[n..] == word[pos + n..];
      pos := pos + n;
    }
    NoCodesLeft(word[pos..]);
    PendingEnds(to, done, allowPartial);
    EncodedSome(done);
    assert pushed + [] == pushed;
    if s != [] {
      AppendedOne([], pushed, r, done);
      r := r + [s];
    }
  }

  lemma EncodedSome(t: seq<nat>)
    requires Scalars(t)
    ensures EncodeAll(t) == [] <==> t == []
  {
  }

  lemma AppendFurther(a: seq<seq<nat>>, b: seq<seq<nat>>, c: seq<seq<nat>>)
    ensures a + (b + c) == (a + b) + c
  {
  }

  /** Behind a group of letters at its start the text goes on with the other code points. */
  lemma RestCodes(s: Text, first: seq<nat>)
    requires WellFormed(s) && Scalars(first) && first <= Codes(s) && first != []
    ensures var n := |EncodeAll(first)|; 0 < n <= |s| && WellFormed(s[n..]) && Codes(s[n..]) == Codes(s)[|first|..]
  {
    hide Codes, WellFormed, Encode;
    CodesAre(s);
    var rest := Codes(s)[|first|..];
    assert Codes(s) == first + rest;
    EncodeAppend(first, rest);
    EncodedWellFormed(rest);
    assert s[|EncodeAll(first)|..] == EncodeAll(rest);
  }

  /** add_word_transliterations. */
  method AddWordTransliterations(result: seq<Text>, word: Text, allowPartial: bool, to: Alphabet) returns (r: seq<Text>)
    requires WellFormed(word)
    ensures Appended(result, Spelled(to, Codes(word), allowPartial), r)
  {
    hide Codes, WellFormed, EncodeAll, Greedy, Plain, Appended;
    ghost var x := Codes(word);
    AppendedNone(result);
    r := result;
    var s := PlainText(word, to);
    EncodedSome(Plain(to, x));
    if s != [] {
      AppendedOne(result, [], r, Plain(to, x));
      r := r + [s];
    }
    var more := GreedyTexts(word, to, allowPartial);
    SpelledIs(to, x, allowPartial);
    ghost var first := if Plain(to, x) == [] then [] else [Plain(to, x)];
    assert [] + [Plain(to, x)] == [Plain(to, x)];
    AppendedElsewhere(NotEmpty(Greedy(to, x, allowPartial)), more, r);
    AppendedMore(result, first, r, NotEmpty(Greedy(to, x, allowPartial)), r + more);
    r := r + more;
  }

  lemma AppendedElsewhere(ts: seq<seq<nat>>, more: seq<Text>, given: seq<Text>)
    requires Appended([], ts, more)
    ensures Appended(given, ts, given + more)
  {
    assert [] + Texts(ts) == Texts(ts);
  }

  lemma SpelledIs(to: Alphabet, x: seq<nat>, partial: bool)
    ensures Spelled(to, x, partial)
         == (if Plain(to, x) == [] then [] else [Plain(to, x)]) + NotEmpty(Greedy(to, x, partial))
  {
    hide Plain, Greedy;
    var ts := [Plain(to, x)] + Greedy(to, x, partial);
    assert ts[0] == Plain(to, x) && ts[1..] == Greedy(to, x, partial);
  }

  /** Neighbours that are the same are written once. */
  function Once(s: seq<Text>): seq<Text> {
    if s == [] then [] else if |s| > 1 && s[0] == s[1] then Once(s[1..]) else [s[0]] + Once(s[1..])
  }

  lemma {:induction false} OnceHolds(s: seq<Text>)
    requires Sorted(s, Le)
    ensures Distinct(Once(s)) && forall v :: v in Once(s) <==> v in s
  {
    hide Le;
    if s != [] {
      OnceHolds(s[1..]);
      assert s == [s[0]] + s[1..];
      if !(|s| > 1 && s[0] == s[1]) {
        var rest := Once(s[1..]);
        assert s[0] !in rest by {
          if s[0] in s[1..] {
            var j :| 0 <= j < |s[1..]| && s[1..][j] == s[0];
            assert s[j + 1] == s[0] && Le(s[0], s[1]) && (j > 0 ==> Le(s[1], s[j + 1]));
            LeSelf(s[0]);
            LeAntisymmetric(s[0], s[1]);
          }
        }
        DistinctCons(s[0], rest);
      }
    }
  }

  lemma LeSelf(a: Text)
    ensures Le(a, a)
  {
    LeTotal(a, a);
  }

  lemma DistinctCons(v: Text, s: seq<Text>)
    requires Distinct(s) && v !in s
    ensures Distinct([v] + s)
  {
    var r := [v] + s;
    forall i, j | 0 <= i < j < |r| ensures r[i] != r[j] {
      assert r[j] == s[j - 1] && r[j] in s && (i > 0 ==> r[i] == s[i - 1]);
    }
  }

  /** get_word_transliterations: each spelling once, in order. */
  method GetWordTransliterations(word: Text, allowPartial: bool) returns (r: seq<Text>)
    requires WellFormed(word)
    ensures Distinct(r) && forall v :: v in r <==> IsSpelling(word, allowPartial, v)
  {
    hide Codes, WellFormed, EncodeAll, Spelled, IsSpelling, Sort;
    var result := AddWordTransliterations([], word, allowPartial, Russian);
    ghost var russian := result;
    result := AddWordTransliterations(result, word, allowPartial, English);
    ghost var given := result;
    LeOrders();
    SortSorted(result, Le);
    SortHolds(result, Le);
    result := Sort(result, Le);
    OnceHolds(result);
    r := Once(result);
    forall v ensures v in r <==> IsSpelling(word, allowPartial, v) {
      BothAlphabets(word, allowPartial, russian, given, v);
    }
  }

  lemma BothAlphabets(word: Text, partial: bool, russian: seq<Text>, all: seq<Text>, v: Text)
    requires WellFormed(word) && Appended([], Spelled(Russian, Codes(word), partial), russian)
    requires Appended(russian, Spelled(English, Codes(word), partial), all)
    ensures v in all <==> IsSpelling(word, partial, v)
  {
    var a, b := Spelled(Russian, Codes(word), partial), Spelled(English, Codes(word), partial);
    AppendedTwice(a, russian, b, all, v);
    hide Codes, WellFormed, Spelled, Texts, Appended, SpelledBy;
    OneAlphabet(Russian, word, partial, v);
    OneAlphabet(English, word, partial, v);
    if IsSpelling(word, partial, v) {
      var to, t :| SpelledBy(to, word, partial, t, v);
      assert to == Russian || to == English;
    }
  }

  lemma AppendedTwice(a: seq<seq<nat>>, r: seq<Text>, b: seq<seq<nat>>, q: seq<Text>, v: Text)
    requires Appended([], a, r) && Appended(r, b, q)
    ensures AllScalars(a) && AllScalars(b) && (v in q <==> v in Texts(a) || v in Texts(b))
  {
    hide Texts;
  }

  lemma OneAlphabet(to: Alphabet, word: Text, partial: bool, v: Text)
    requires WellFormed(word) && AllScalars(Spelled(to, Codes(word), partial))
    ensures v in Texts(Spelled(to, Codes(word), partial)) <==> exists t :: SpelledBy(to, word, partial, t, v)
  {
    var ts := Spelled(to, Codes(word), partial);
    InTexts(ts, v);
    hide Codes, WellFormed, Spelled, Texts, EncodeAll;
    if v in Texts(ts) {
      var t :| t in ts && Scalars(t) && v == Encoded(t);
      assert SpelledBy(to, word, partial, t, v);
    }
  }

  lemma InTexts(ts: seq<seq<nat>>, v: Text)
    requires AllScalars(ts)
    ensures v in Texts(ts) <==> exists t :: t in ts && Scalars(t) && v == Encoded(t)
  {
    if v in Texts(ts) {
      var i :| 0 <= i < |ts| && Texts(ts)[i] == v;
      assert ts[i] in ts;
    }
    if exists t :: t in ts && Scalars(t) && v == Encoded(t) {
      var t :| t in ts && Scalars(t) && v == Encoded(t);
      var i :| 0 <= i < |ts| && ts[i] == t;
      assert Texts(ts)[i] == v;
    }
  }
}
