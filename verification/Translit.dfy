/**
  Transliteration of words between the Russian and the English alphabet (td/utils/translit.cpp). The rules are tables of
  letters and of groups of letters; a word that is being typed may end in the middle of a group.
*/
module Translit {
  import opened HintWords
  import opened Sorting
  import opened Utf8

  // ---------------------------------------------------------------------------------------
  // The rules
  // ---------------------------------------------------------------------------------------

  /** The alphabet that a word is written into. */
  datatype Alphabet = Russian | English

  datatype Rule = Rule(first: seq<nat>, second: seq<nat>)

  /** What the letters from a to z become. */
  function RussianLetters(): (r: seq<seq<nat>>)
    ensures |r| == 26 && forall i :: 0 <= i < 26 ==> r[i] != [] && NoSigns(r[i]) && Scalars(r[i])
  {
    [[0x430], [0x431], [0x43a], [0x434], [0x435], [0x444], [0x433], [0x445], [0x438], [0x439], [0x43a], [0x43b],
     [0x43c], [0x43d], [0x43e], [0x43f], [0x43a], [0x440], [0x441], [0x442], [0x443], [0x432], [0x432],
     [0x43a, 0x441], [0x438], [0x437]]
  }

  /** What the letters from 0x430 to 0x44f become; the hard sign 0x44a and the soft sign 0x44c become nothing. */
  function EnglishLetters(): (r: seq<seq<nat>>)
    ensures |r| == 32
    ensures forall i :: 0 <= i < 32 ==> (r[i] == [] <==> i == 26 || i == 28) && NoSigns(r[i]) && Scalars(r[i])
  {
    [[0x61], [0x62], [0x76], [0x67], [0x64], [0x65], [0x7a, 0x68], [0x7a], [0x69], [0x79], [0x6b], [0x6c], [0x6d],
     [0x6e], [0x6f], [0x70], [0x72], [0x73], [0x74], [0x75], [0x66], [0x6b, 0x68], [0x74, 0x73], [0x63, 0x68],
     [0x73, 0x68], [0x73, 0x63, 0x68], [], [0x79], [], [0x65], [0x79, 0x75], [0x79, 0x61]]
  }

  /** A letter of the simple rules, or any other character as it is. */
  function Simple(to: Alphabet, c: nat): seq<nat> {
    match to
    case Russian => if 0x61 <= c <= 0x7a then RussianLetters()[c - 0x61] else [c]
    case English => if 0x430 <= c < 0x450 then EnglishLetters()[c - 0x430] else if c == 0x451 then [0x65] else [c]
  }

  function Complex(to: Alphabet): (r: seq<Rule>)
    ensures forall k :: 0 <= k < |r| ==> RuleOk(r[k])
  {
    match to
    case Russian =>
      [Rule([0x63, 0x68], [0x447]), Rule([0x65, 0x69], [0x435, 0x439]), Rule([0x65, 0x79], [0x435, 0x439]),
       Rule([0x69, 0x61], [0x438, 0x44f]), Rule([0x69, 0x79], [0x438, 0x439]), Rule([0x6a, 0x6f], [0x435]),
       Rule([0x6a, 0x75], [0x44e]), Rule([0x6a, 0x61], [0x44f]), Rule([0x6b, 0x68], [0x445]),
       Rule([0x73, 0x68, 0x63, 0x68], [0x449]), Rule([0x73, 0x68], [0x448]), Rule([0x73, 0x63, 0x68], [0x449]),
       Rule([0x74, 0x73], [0x446]), Rule([0x79, 0x6f], [0x435]), Rule([0x79, 0x75], [0x44e]),
       Rule([0x79, 0x61], [0x44f]), Rule([0x7a, 0x68], [0x436])]
    case English =>
      [Rule([0x438, 0x439], [0x79]), Rule([0x438, 0x44f], [0x69, 0x61]), Rule([0x43a, 0x441], [0x78]),
       Rule([0x79, 0x6f], [0x65]), Rule([0x6a, 0x6f], [0x65])]
  }

  predicate Sign(c: nat) { c == 0x44a || c == 0x44c }

  predicate AllSigns(x: seq<nat>) { forall i :: 0 <= i < |x| ==> Sign(x[i]) }
  predicate NoSigns(x: seq<nat>) { forall i :: 0 <= i < |x| ==> !Sign(x[i]) }
  predicate Scalars(x: seq<nat>) { forall i :: 0 <= i < |x| ==> Scalar(x[i]) }

  predicate RuleOk(r: Rule) {
    && r.first != [] && r.second != [] && !Sign(r.first[0]) && NoSigns(r.second)
    && Scalars(r.first) && Scalars(r.second)
  }

  /** No rule makes a sign, and only the signs become nothing, and that only in the English alphabet. */
  lemma SimpleIs(to: Alphabet, c: nat)
    ensures Simple(to, c) == [] <==> to == English && Sign(c)
    ensures Simple(to, c) == [c] || NoSigns(Simple(to, c))
    ensures to == English ==> NoSigns(Simple(to, c))
    ensures to == Russian && Sign(c) ==> Simple(to, c) == [c]
    ensures Scalar(c) ==> Scalars(Simple(to, c))
  {
    hide RussianLetters, EnglishLetters;
  }

  // ---------------------------------------------------------------------------------------
  // The spellings of a word
  // ---------------------------------------------------------------------------------------

  /** The first loop: letter by letter. */
  function Plain(to: Alphabet, x: seq<nat>): seq<nat> {
    if x == [] then [] else Simple(to, x[0]) + Plain(to, x[1..])
  }

  /** The first rule whose group stands at the start of the text. */
  function FirstRule(rules: seq<Rule>, x: seq<nat>): (k: nat)
    ensures k <= |rules| && (k < |rules| ==> rules[k].first <= x)
    ensures forall j :: 0 <= j < k ==> !(rules[j].first <= x)
  {
    if rules == [] || rules[0].first <= x then 0 else 1 + FirstRule(rules[1..], x)
  }

  /** What the groups become that the text may be the beginning of. */
  function Begun(rules: seq<Rule>, x: seq<nat>): seq<seq<nat>> {
    if rules == [] then []
    else (if x <= rules[0].first then [rules[0].second] else []) + Begun(rules[1..], x)
  }

  /** Every text with `y` in front. */
  function Behind(y: seq<nat>, ts: seq<seq<nat>>): (r: seq<seq<nat>>)
    ensures |r| == |ts| && forall i :: 0 <= i < |ts| ==> r[i] == y + ts[i]
  {
    seq(|ts|, i requires 0 <= i < |ts| => y + ts[i])
  }

  /** The second loop: groups first. With `partial`, also what begun groups at the end of the word may become. */
  function Greedy(to: Alphabet, x: seq<nat>, partial: bool): seq<seq<nat>>
    decreases |x|
  {
    if x == [] then [[]]
    else
      var rules := Complex(to);
      var k := FirstRule(rules, x);
      var begun := if partial then Begun(rules[..k], x) else [];
      if k < |rules| then begun + Behind(rules[k].second, Greedy(to, x[|rules[k].first|..], partial))
      else begun + Behind(Simple(to, x[0]), Greedy(to, x[1..], partial))
  }

  function NotEmpty(ts: seq<seq<nat>>): seq<seq<nat>> {
    if ts == [] then [] else (if ts[0] == [] then [] else [ts[0]]) + NotEmpty(ts[1..])
  }

  function Spelled(to: Alphabet, x: seq<nat>, partial: bool): seq<seq<nat>> {
    NotEmpty([Plain(to, x)] + Greedy(to, x, partial))
  }

  lemma {:induction false} InNotEmpty(ts: seq<seq<nat>>, t: seq<nat>)
    ensures t in NotEmpty(ts) <==> t in ts && t != []
  {
    if ts != [] {
      InNotEmpty(ts[1..], t);
      assert ts == [ts[0]] + ts[1..];
    }
  }

  lemma InSpelled(to: Alphabet, x: seq<nat>, partial: bool, t: seq<nat>)
    ensures t in Spelled(to, x, partial) <==> (t == Plain(to, x) || t in Greedy(to, x, partial)) && t != []
  {
    InNotEmpty([Plain(to, x)] + Greedy(to, x, partial), t);
  }

  lemma {:induction false} InBegun(rules: seq<Rule>, x: seq<nat>, t: seq<nat>)
    ensures t in Begun(rules, x) <==> exists j :: 0 <= j < |rules| && x <= rules[j].first && t == rules[j].second
  {
    if rules != [] {
      InBegun(rules[1..], x, t);
      assert rules == [rules[0]] + rules[1..];
    }
  }

  /** How a text gets into what the second loop makes of a word that is not empty. */
  ghost predicate ByBegun(to: Alphabet, x: seq<nat>, t: seq<nat>, j: nat) {
    var rules := Complex(to);
    j < |rules| && j < FirstRule(rules, x) && x <= rules[j].first && t == rules[j].second
  }

  /** What the loop does at the start of a word: how far it moves, and what it writes. */
  function Length(to: Alphabet, x: seq<nat>): (n: nat)
    requires x != []
    ensures 0 < n <= |x|
  {
    var rules := Complex(to);
    var k := FirstRule(rules, x);
    if k < |rules| then |rules[k].first| else 1
  }

  function Output(to: Alphabet, x: seq<nat>): seq<nat>
    requires x != []
  {
    var rules := Complex(to);
    var k := FirstRule(rules, x);
    if k < |rules| then rules[k].second else Simple(to, x[0])
  }

  lemma GreedyStep(to: Alphabet, x: seq<nat>, partial: bool, t: seq<nat>)
    requires x != []
    ensures t in Greedy(to, x, partial) <==>
              || (partial && exists j: nat :: ByBegun(to, x, t, j))
              || exists rest :: rest in Greedy(to, x[Length(to, x)..], partial) && t == Output(to, x) + rest
  {
    var rules := Complex(to);
    var k := FirstRule(rules, x);
    hide Complex;
    InBegun(rules[..k], x, t);
    var ts := Greedy(to, x[Length(to, x)..], partial);
    var begun := if partial then Begun(rules[..k], x) else [];
    assert Greedy(to, x, partial) == begun + Behind(Output(to, x), ts);
    hide Greedy, Output, Length;
    InBehind(Output(to, x), ts, t);
    if exists j: nat :: ByBegun(to, x, t, j) {
      var j: nat :| ByBegun(to, x, t, j);
      assert rules[..k][j] == rules[j];
    }
    if exists j :: 0 <= j < |rules[..k]| && x <= rules[..k][j].first && t == rules[..k][j].second {
      var j :| 0 <= j < |rules[..k]| && x <= rules[..k][j].first && t == rules[..k][j].second;
      assert ByBegun(to, x, t, j);
    }
  }

  /** Either way: what a begun group becomes, or what the loop writes first and a rest. */
  lemma GreedyCase(to: Alphabet, x: seq<nat>, partial: bool, t: seq<nat>) returns (begun: bool, rest: seq<nat>)
    requires x != [] && t in Greedy(to, x, partial)
    ensures begun ==> partial && t != [] && NoSigns(t) && Scalars(t) && exists j: nat :: ByBegun(to, x, t, j)
    ensures !begun ==> rest in Greedy(to, x[Length(to, x)..], partial) && t == Output(to, x) + rest
  {
    GreedyStep(to, x, partial, t);
    hide Complex, Greedy, Output, Length;
    rest := [];
    begun := partial && exists j: nat :: ByBegun(to, x, t, j);
    if begun {
      var j: nat :| ByBegun(to, x, t, j);
      assert RuleOk(Complex(to)[j]);
    } else {
      rest :| rest in Greedy(to, x[Length(to, x)..], partial) && t == Output(to, x) + rest;
    }
  }

  lemma GreedyEmpty(to: Alphabet, partial: bool, t: seq<nat>)
    ensures t in Greedy(to, [], partial) <==> t == []
  {
  }

  lemma InBehind(y: seq<nat>, ts: seq<seq<nat>>, t: seq<nat>)
    ensures t in Behind(y, ts) <==> exists rest :: rest in ts && t == y + rest
  {
    if exists rest :: rest in ts && t == y + rest {
      var rest :| rest in ts && t == y + rest;
      var i :| 0 <= i < |ts| && ts[i] == rest;
      assert Behind(y, ts)[i] == t;
    }
  }

  // ---------------------------------------------------------------------------------------
  // A longer word
  // ---------------------------------------------------------------------------------------

  lemma {:induction false} PlainExtends(to: Alphabet, p: seq<nat>, w: seq<nat>)
    requires p <= w
    ensures Plain(to, p) <= Plain(to, w)
  {
    if p != [] {
      assert p[0] == w[0] && p[1..] <= w[1..];
      PlainExtends(to, p[1..], w[1..]);
    }
  }

  /**
    A group that stands at the start of the shorter word stands at the start of the longer one, and not the other way
    round.
  */
  lemma SameRule(to: Alphabet, p: seq<nat>, w: seq<nat>)
    requires p != [] && p <= w
    ensures FirstRule(Complex(to), w) <= FirstRule(Complex(to), p)
    ensures Length(to, w) <= |p| ==> Length(to, p) == Length(to, w) && Output(to, p) == Output(to, w)
    ensures |p| < Length(to, w) ==> ByBegun(to, p, Output(to, w), FirstRule(Complex(to), w))
  {
    var rules := Complex(to);
    var i, k := FirstRule(rules, p), FirstRule(rules, w);
    hide Complex;
    if i < |rules| {
      assert rules[i].first <= w;
    }
    if k < |rules| && |rules[k].first| <= |p| {
      assert rules[k].first <= p;
    } else if k < |rules| {
      assert p <= rules[k].first;
      assert rules[k].first != p;
    }
  }

  lemma BegunEarlier(to: Alphabet, p: seq<nat>, w: seq<nat>, t: seq<nat>)
    requires p != [] && p <= w && exists j: nat :: ByBegun(to, w, t, j)
    ensures exists j: nat :: ByBegun(to, p, t, j)
  {
    SameRule(to, p, w);
    hide Complex;
    var j: nat :| ByBegun(to, w, t, j);
    assert ByBegun(to, p, t, j);
  }

  /** What a longer word becomes starts with something that its beginning may become. */
  lemma {:induction false} GreedyExtends(to: Alphabet, p: seq<nat>, w: seq<nat>, t: seq<nat>) returns (u: seq<nat>)
    requires p <= w && t in Greedy(to, w, true)
    ensures u in Greedy(to, p, true) && u <= t
    decreases |w|
  {
    hide Complex, Greedy, Output, Length, Simple, ByBegun;
    if p == [] {
      GreedyEmpty(to, true, []);
      u := [];
    } else {
      SameRule(to, p, w);
      var n := Length(to, w);
      var begun, rest := GreedyCase(to, w, true, t);
      if begun {
        BegunEarlier(to, p, w, t);
        u := t;
      } else if n <= |p| {
        assert p[n..] <= w[n..];
        var v := GreedyExtends(to, p[n..], w[n..], rest);
        u := Output(to, p) + v;
      } else {
        u := Output(to, w);
      }
      GreedyStep(to, p, true, u);
    }
  }

  lemma AllSignsCons(x: seq<nat>)
    requires x != []
    ensures AllSigns(x) <==> Sign(x[0]) && AllSigns(x[1..])
  {
    assert x == [x[0]] + x[1..];
  }

  /** Only words of signs can become nothing, and only in the English alphabet. */
  lemma {:induction false} PlainNothing(to: Alphabet, x: seq<nat>)
    ensures Plain(to, x) == [] <==> x == [] || (to == English && AllSigns(x))
  {
    if x != [] {
      SimpleIs(to, x[0]);
      PlainNothing(to, x[1..]);
      assert x == [x[0]] + x[1..];
    }
  }

  lemma OutputNothing(to: Alphabet, x: seq<nat>)
    requires x != []
    ensures Output(to, x) == [] ==> Length(to, x) == 1 && to == English && Sign(x[0])
  {
    SimpleIs(to, x[0]);
    hide Complex, Simple;
  }

  lemma {:induction false} GreedyNothing(to: Alphabet, x: seq<nat>, partial: bool)
    requires [] in Greedy(to, x, partial)
    ensures x == [] || (to == English && AllSigns(x))
    decreases |x|
  {
    hide Complex, Greedy, Output, Length, Simple, ByBegun;
    if x != [] {
      var begun, rest := GreedyCase(to, x, partial, []);
      OutputNothing(to, x);
      assert rest == [];
      GreedyNothing(to, x[1..], partial);
      AllSignsCons(x);
    }
  }

  /** Every spelling of a longer word starts with a spelling of the shorter one, if that is more than signs. */
  lemma SpelledExtends(to: Alphabet, p: seq<nat>, w: seq<nat>, t: seq<nat>) returns (u: seq<nat>)
    requires p <= w && p != [] && !(to == English && AllSigns(p)) && t in Spelled(to, w, true)
    ensures u in Spelled(to, p, true) && u <= t
  {
    InSpelled(to, w, true, t);
    if t == Plain(to, w) {
      PlainExtends(to, p, w);
      PlainNothing(to, p);
      u := Plain(to, p);
    } else {
      u := GreedyExtends(to, p, w, t);
      if u == [] {
        GreedyNothing(to, p, true);
      }
    }
    InSpelled(to, p, true, u);
  }

  // ---------------------------------------------------------------------------------------
  // Signs
  // ---------------------------------------------------------------------------------------

  /** A word of signs is its own Russian spelling. */
  lemma {:induction false} PlainSigns(x: seq<nat>)
    requires AllSigns(x)
    ensures Plain(Russian, x) == x && Plain(English, x) == []
  {
    PlainNothing(English, x);
    if x != [] {
      SimpleIs(Russian, x[0]);
      PlainSigns(x[1..]);
    }
  }

  lemma SignsMatchNone(to: Alphabet, x: seq<nat>)
    requires x != [] && Sign(x[0])
    ensures FirstRule(Complex(to), x) == |Complex(to)| && forall j, t :: !ByBegun(to, x, t, j)
    ensures Length(to, x) == 1 && Output(to, x) == Simple(to, x[0])
  {
    var rules := Complex(to);
    hide Complex;
    forall k | 0 <= k < |rules| ensures !(rules[k].first <= x) && !(x <= rules[k].first) {
      assert RuleOk(rules[k]);
    }
  }

  lemma {:induction false} GreedySigns(to: Alphabet, x: seq<nat>, partial: bool, t: seq<nat>)
    requires AllSigns(x) && t in Greedy(to, x, partial)
    ensures t == if to == Russian then x else []
  {
    hide Complex, Greedy, Output, Length, Simple, ByBegun;
    if x == [] {
      GreedyEmpty(to, partial, t);
    } else {
      SignsMatchNone(to, x);
      SimpleIs(to, x[0]);
      var begun, rest := GreedyCase(to, x, partial, t);
      AllSignsCons(x);
      GreedySigns(to, x[1..], partial, rest);
      assert x == [x[0]] + x[1..];
    }
  }

  lemma SpelledSigns(to: Alphabet, x: seq<nat>, t: seq<nat>, partial: bool)
    requires AllSigns(x) && x != []
    ensures t in Spelled(to, x, partial) <==> to == Russian && t == x
  {
    InSpelled(to, x, partial, t);
    PlainSigns(x);
    if t in Greedy(to, x, partial) {
      GreedySigns(to, x, partial, t);
    }
  }

  /** No sign is left in the English alphabet. */
  lemma {:induction false} PlainEnglish(x: seq<nat>)
    ensures NoSigns(Plain(English, x))
  {
    if x != [] {
      SimpleIs(English, x[0]);
      PlainEnglish(x[1..]);
    }
  }

  lemma OutputEnglish(x: seq<nat>)
    requires x != []
    ensures NoSigns(Output(English, x))
  {
    SimpleIs(English, x[0]);
    hide Complex, Simple;
  }

  lemma {:induction false} GreedyEnglish(x: seq<nat>, partial: bool, t: seq<nat>)
    requires t in Greedy(English, x, partial)
    ensures NoSigns(t)
    decreases |x|
  {
    hide Complex, Greedy, Output, Length, Simple, ByBegun;
    if x == [] {
      GreedyEmpty(English, partial, t);
    } else {
      var begun, rest := GreedyCase(English, x, partial, t);
      OutputEnglish(x);
      if !begun {
        GreedyEnglish(x[Length(English, x)..], partial, rest);
      }
    }
  }

  /** A spelling that starts with signs is the Russian spelling of a word that starts with them. */
  lemma SpelledFromSigns(to: Alphabet, x: seq<nat>, partial: bool, t: seq<nat>, p: seq<nat>)
    requires t in Spelled(to, x, partial) && p != [] && AllSigns(p) && p <= t
    ensures to == Russian && p <= x
  {
    InSpelled(to, x, partial, t);
    if to == English {
      assert Sign(t[0]);
      if t == Plain(to, x) {
        PlainEnglish(x);
      } else {
        GreedyEnglish(x, partial, t);
      }
    } else if t == Plain(to, x) {
      PlainFromSigns(x, p);
    } else {
      GreedyFromSigns(x, partial, t, p);
    }
  }

  lemma {:induction false} PlainFromSigns(x: seq<nat>, p: seq<nat>)
    requires AllSigns(p) && p <= Plain(Russian, x)
    ensures p <= x
  {
    if p != [] {
      SimpleIs(Russian, x[0]);
      assert Sign(p[0]) && p[0] == Plain(Russian, x)[0] == Simple(Russian, x[0])[0];
      assert p[1..] <= Plain(Russian, x)[1..] == Plain(Russian, x[1..]);
      PlainFromSigns(x[1..], p[1..]);
      assert p == [p[0]] + p[1..] && x == [x[0]] + x[1..];
    }
  }

  lemma {:induction false} GreedyFromSigns(x: seq<nat>, partial: bool, t: seq<nat>, p: seq<nat>)
    requires t in Greedy(Russian, x, partial) && AllSigns(p) && p <= t
    ensures p <= x
    decreases |x|
  {
    hide Complex, Greedy, Output, Length, Simple, ByBegun;
    if p != [] {
      AllSignsCons(p);
      if x == [] {
        GreedyEmpty(Russian, partial, t);
      } else {
        assert t[0] == p[0];
        var begun, rest := GreedyCase(Russian, x, partial, t);
        OutputRussian(x);
        if !begun {
          assert p[1..] <= t[1..] == rest;
          GreedyFromSigns(x[1..], partial, rest, p[1..]);
          assert p == [p[0]] + p[1..] && x == [x[0]] + x[1..];
        }
      }
    }
  }

  /** What is written in the Russian alphabet is new, or the next character as it is. */
  lemma OutputRussian(x: seq<nat>)
    requires x != []
    ensures var y := Output(Russian, x); y != [] && (Sign(y[0]) ==> y == [x[0]] && Length(Russian, x) == 1)
  {
    SimpleIs(Russian, x[0]);
    hide Complex, Simple;
  }

  lemma {:induction false} PlainScalars(to: Alphabet, x: seq<nat>)
    requires Scalars(x)
    ensures Scalars(Plain(to, x))
  {
    if x != [] {
      SimpleIs(to, x[0]);
      PlainScalars(to, x[1..]);
    }
  }

  lemma OutputScalars(to: Alphabet, x: seq<nat>)
    requires x != [] && Scalars(x)
    ensures Scalars(Output(to, x))
  {
    SimpleIs(to, x[0]);
    hide Complex, Simple;
  }

  lemma {:induction false} GreedyScalars(to: Alphabet, x: seq<nat>, partial: bool, t: seq<nat>)
    requires Scalars(x) && t in Greedy(to, x, partial)
    ensures Scalars(t)
    decreases |x|
  {
    hide Complex, Greedy, Output, Length, Simple, ByBegun;
    if x == [] {
      GreedyEmpty(to, partial, t);
    } else {
      var begun, rest := GreedyCase(to, x, partial, t);
      OutputScalars(to, x);
      if !begun {
        GreedyScalars(to, x[Length(to, x)..], partial, rest);
      }
    }
  }

  lemma SpelledScalars(to: Alphabet, x: seq<nat>, partial: bool, t: seq<nat>)
    requires Scalars(x) && t in Spelled(to, x, partial)
    ensures Scalars(t)
  {
    InSpelled(to, x, partial, t);
    PlainScalars(to, x);
    if t != Plain(to, x) {
      GreedyScalars(to, x, partial, t);
    }
  }
}
