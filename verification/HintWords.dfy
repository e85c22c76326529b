/** The words of the Hints index (td/utils/Hints.cpp). */
module HintWords {
  // fix_words, and the order of the map that add_search_results walks. Words are byte strings in their lexicographic
  // order; `p <= w` says that p is a prefix of w.

  import opened Sorting
  import Utf8

  type Text = seq<Utf8.byte>

  predicate Le(a: Text, b: Text) {
    a == [] || (b != [] && (a[0] < b[0] || (a[0] == b[0] && Le(a[1..], b[1..]))))
  }

  lemma {:induction false} LeTotal(a: Text, b: Text)
    ensures Le(a, b) || Le(b, a)
  {
    if a != [] && b != [] && a[0] == b[0] {
      LeTotal(a[1..], b[1..]);
    }
  }

  lemma {:induction false} LeAntisymmetric(a: Text, b: Text)
    requires Le(a, b) && Le(b, a)
    ensures a == b
  {
    if a != [] && b != [] {
      LeAntisymmetric(a[1..], b[1..]);
      assert a == [a[0]] + a[1..] && b == [b[0]] + b[1..];
    }
  }

  lemma {:induction false} LeTransitive(a: Text, b: Text, c: Text)
    requires Le(a, b) && Le(b, c)
    ensures Le(a, c)
  {
    if a != [] && b[0] == a[0] && c[0] == a[0] {
      LeTransitive(a[1..], b[1..], c[1..]);
    }
  }

  lemma LeOrders()
    ensures Total(Le)
  {
    forall a, b
      ensures Le(a, b) || Le(b, a)
    {
      LeTotal(a, b);
    }
    forall a, b, c | Le(a, b) && Le(b, c)
      ensures Le(a, c)
    {
      LeTransitive(a, b, c);
    }
  }

  lemma {:induction false} PrefixLe(p: Text, w: Text)
    requires p <= w
    ensures Le(p, w)
  {
    if p != [] {
      assert p[0] == w[0] && p[1..] <= w[1..];
      PrefixLe(p[1..], w[1..]);
    }
  }

  /** The words with a given prefix lie together in the order. */
  lemma {:induction false} PrefixesTogether(p: Text, y: Text, z: Text)
    requires Le(p, y) && Le(y, z) && p <= z
    ensures p <= y
  {
    if p != [] {
      assert p[0] == z[0] && p[1..] <= z[1..];
      assert y != [] && y[0] == p[0];
      PrefixesTogether(p[1..], y[1..], z[1..]);
      assert p == [p[0]] + p[1..] && y == [y[0]] + y[1..];
    }
  }

  // ---------------------------------------------------------------------------------------
  // fix_words
  // ---------------------------------------------------------------------------------------

  /** The words of s, without those that are a prefix of the next. */
  function Kept(s: seq<Text>): seq<Text> {
    if s == [] then []
    else if |s| > 1 && s[0] <= s[1] then Kept(s[1..])
    else [s[0]] + Kept(s[1..])
  }

  function FixWords(words: seq<Text>): seq<Text> { Kept(Sort(words, Le)) }

  lemma {:induction false} KeptAmong(s: seq<Text>, w: Text)
    requires w in Kept(s)
    ensures w in s
  {
    if |s| > 1 && s[0] <= s[1] {
      KeptAmong(s[1..], w);
    } else if w != s[0] {
      KeptAmong(s[1..], w);
    }
  }

  /** Every word that was dropped is a prefix of one that was kept. */
  lemma {:induction false} KeptExtends(s: seq<Text>, i: nat) returns (w: Text)
    requires i < |s|
    ensures w in Kept(s) && s[i] <= w
  {
    if i > 0 {
      w := KeptExtends(s[1..], i - 1);
    } else if |s| > 1 && s[0] <= s[1] {
      w := KeptExtends(s[1..], 0);
    } else {
      w := s[0];
    }
  }

  ghost predicate SomeExtends(words: seq<Text>, p: Text) { exists w :: w in words && p <= w }

  /** Dropping words that are prefixes of the next sorted word loses no prefix match and invents none. */
  lemma FixLosesNothing(words: seq<Text>, p: Text)
    ensures SomeExtends(FixWords(words), p) <==> SomeExtends(words, p)
  {
    var s := Sort(words, Le);
    SortHolds(words, Le);
    hide Sort;
    if SomeExtends(words, p) {
      var w :| w in words && p <= w;
      assert w in s;
      var i: nat :| i < |s| && s[i] == w;
      var v := KeptExtends(s, i);
      assert p <= v;
    }
    if SomeExtends(FixWords(words), p) {
      var w :| w in FixWords(words) && p <= w;
      KeptAmong(s, w);
      assert w in words;
    }
  }

  lemma FixAmong(words: seq<Text>, w: Text)
    requires w in FixWords(words)
    ensures w in words
  {
    KeptAmong(Sort(words, Le), w);
    SortHolds(words, Le);
  }

  lemma FixEmpty(words: seq<Text>)
    requires words != []
    ensures FixWords(words) != []
  {
    SortHolds(words, Le);
    var w := KeptExtends(Sort(words, Le), 0);
  }

  ghost predicate NoneExtends(s: seq<Text>) {
    forall i, j :: 0 <= i < |s| && 0 <= j < |s| && i != j ==> !(s[i] <= s[j])
  }

  /** A kept word is a prefix of no other word that follows it. */
  lemma KeptHead(s: seq<Text>, w: Text)
    requires Sorted(s, Le) && s != [] && (|s| == 1 || !(s[0] <= s[1])) && w in Kept(s[1..])
    ensures !(s[0] <= w) && !(w <= s[0])
  {
    KeptAmong(s[1..], w);
    var j: nat :| 0 < j < |s| && s[j] == w;
    LeTotal(s[1], s[1]);
    assert Le(s[0], s[1]) && Le(s[0], s[j]) && Le(s[1], s[j]);
    if s[0] <= w {
      PrefixesTogether(s[0], s[1], w);
    } else if w <= s[0] {
      PrefixLe(w, s[0]);
      LeAntisymmetric(w, s[0]);
    }
  }

  /** fix_words leaves no word that is a prefix of another, and so no word twice. */
  lemma {:induction false} KeptApart(s: seq<Text>)
    requires Sorted(s, Le)
    ensures NoneExtends(Kept(s))
  {
    if s != [] {
      assert Sorted(s[1..], Le);
      KeptApart(s[1..]);
      if !(|s| > 1 && s[0] <= s[1]) {
        forall w | w in Kept(s[1..])
          ensures !(s[0] <= w) && !(w <= s[0])
        {
          KeptHead(s, w);
        }
        NoneCons(s[0], Kept(s[1..]));
      }
    }
  }

  lemma NoneCons(x: Text, t: seq<Text>)
    requires NoneExtends(t) && forall w :: w in t ==> !(x <= w) && !(w <= x)
    ensures NoneExtends([x] + t)
  {
    var r := [x] + t;
    forall i, j | 0 <= i < |r| && 0 <= j < |r| && i != j
      ensures !(r[i] <= r[j])
    {
      if i == 0 {
        assert r[j] in t;
      } else if j == 0 {
        assert r[i] in t;
      } else {
        assert r[i] == t[i - 1] && r[j] == t[j - 1];
      }
    }
  }

  lemma FixApart(words: seq<Text>)
    ensures NoneExtends(FixWords(words)) && Distinct(FixWords(words))
  {
    LeOrders();
    SortSorted(words, Le);
    KeptApart(Sort(words, Le));
  }

  lemma Shift(front: seq<Text>, x: Text, rest: seq<Text>, words: seq<Text>, n: nat)
    requires n < |words| && front == words[..n] && words[n] == x
    ensures front + ([x] + rest) == words[..n + 1] + rest
  {
    assert words[..n + 1] == front + [x];
  }

  lemma KeptEmpty()
    ensures Kept([]) == []
  {
  }

  lemma KeptStep(s: seq<Text>, i: nat)
    requires i < |s|
    ensures Kept(s[i..]) == if i < |s| - 1 && s[i] <= s[i + 1] then Kept(s[i + 1..]) else [s[i]] + Kept(s[i + 1..])
  {
    assert s[i..][1..] == s[i + 1..];
  }

  /**
    What the loop has done before word i: the kept words so far are in front, and the words from i on in their places.
  */
  predicate Moved(s: seq<Text>, words: seq<Text>, newSize: nat, i: nat) {
    && newSize <= i <= |words| == |s|
    && (forall j :: i <= j < |s| ==> words[j] == s[j])
    && Kept(s) == words[..newSize] + Kept(s[i..])
  }

  lemma MovedFirst(s: seq<Text>)
    ensures Moved(s, s, 0, 0)
  {
    assert s[0..] == s && s[..0] + Kept(s) == Kept(s);
  }

  lemma MovedOver(s: seq<Text>, words: seq<Text>, newSize: nat, i: nat)
    requires Moved(s, words, newSize, i) && i < |s| - 1 && s[i] <= s[i + 1]
    ensures Moved(s, words, newSize, i + 1)
  {
    KeptStep(s, i);
    hide Kept;
  }

  lemma MovedOne(s: seq<Text>, words: seq<Text>, newSize: nat, i: nat)
    requires i < |s| && Moved(s, words, newSize, i) && !(i < |s| - 1 && s[i] <= s[i + 1])
    ensures Moved(s, words[newSize := s[i]], newSize + 1, i + 1)
  {
    KeptStep(s, i);
    hide Kept;
    Shift(words[..newSize], s[i], Kept(s[i + 1..]), words[newSize := s[i]], newSize);
  }

  lemma MovedAll(s: seq<Text>, words: seq<Text>, newSize: nat)
    requires Moved(s, words, newSize, |s|)
    ensures newSize <= |words| && words[..newSize] == Kept(s)
  {
    KeptEmpty();
    assert s[|s|..] == [] && words[..newSize] + [] == words[..newSize];
  }

  /** The loop that moves the kept words to the front of the sorted vector. */
  method FixWordsInPlace(given: seq<Text>) returns (words: seq<Text>)
    ensures words == FixWords(given)
  {
    words := Sort(given, Le);
    ghost var s := words;
    hide Sort, Kept;
    MovedFirst(s);
    var newSize := 0;
    var i := 0;
    while i != |words|
      invariant Moved(s, words, newSize, i)
      decreases |s| - i
    {
      if i == |words| - 1 || !(words[i] <= words[i + 1]) {
        MovedOne(s, words, newSize, i);
        if i != newSize {
          words := words[newSize := words[i]];
        } else {
          assert words[newSize := s[i]] == words;
        }
        newSize := newSize + 1;
      } else {
        MovedOver(s, words, newSize, i);
      }
      i := i + 1;
    }
    MovedAll(s, words, newSize);
    words := words[..newSize];
  }
}
