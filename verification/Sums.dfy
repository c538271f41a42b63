/** Finite sums over sequences, and the sequence of all words over an alphabet. */
module Sums {

  ghost function Sum<A>(s: seq<A>, f: A -> real): real {
    if s == [] then 0.0 else Sum(s[..|s| - 1], f) + f(s[|s| - 1])
  }

  lemma SumLast<A>(s: seq<A>, a: A, f: A -> real)
    ensures Sum(s + [a], f) == Sum(s, f) + f(a)
  {
    assert (s + [a])[..|s|] == s;
  }

  lemma {:induction false} SumConcat<A>(s: seq<A>, t: seq<A>, f: A -> real)
    ensures Sum(s + t, f) == Sum(s, f) + Sum(t, f)
  {
    if t == [] {
      assert s + t == s;
    } else {
      var n := |t| - 1;
      assert s + t == (s + t[..n]) + [t[n]];
      SumLast(s + t[..n], t[n], f);
      SumConcat(s, t[..n], f);
    }
  }

  lemma {:induction false} SumCongruence<A>(s: seq<A>, f: A -> real, g: A -> real)
    requires forall a <- s :: f(a) == g(a)
    ensures Sum(s, f) == Sum(s, g)
  {
    if s != [] {
      assert forall a <- s[..|s| - 1] :: a in s;
      SumCongruence(s[..|s| - 1], f, g);
    }
  }

  lemma {:induction false} SumMonotone<A>(s: seq<A>, f: A -> real, g: A -> real)
    requires forall a <- s :: f(a) <= g(a)
    ensures Sum(s, f) <= Sum(s, g)
  {
    if s != [] {
      assert forall a <- s[..|s| - 1] :: a in s;
      SumMonotone(s[..|s| - 1], f, g);
    }
  }

  lemma {:induction false} SumZero<A>(s: seq<A>, f: A -> real)
    requires forall a <- s :: f(a) == 0.0
    ensures Sum(s, f) == 0.0
  {
    if s != [] {
      assert forall a <- s[..|s| - 1] :: a in s;
      SumZero(s[..|s| - 1], f);
    }
  }

  lemma {:induction false} SumScale<A>(s: seq<A>, k: real, f: A -> real, g: A -> real)
    requires forall a <- s :: g(a) == k * f(a)
    ensures Sum(s, g) == k * Sum(s, f)
  {
    if s != [] {
      assert forall a <- s[..|s| - 1] :: a in s;
      SumScale(s[..|s| - 1], k, f, g);
    }
  }

  lemma {:induction false} SumAdd<A>(s: seq<A>, f: A -> real, g: A -> real, h: A -> real)
    requires forall a <- s :: h(a) == f(a) + g(a)
    ensures Sum(s, h) == Sum(s, f) + Sum(s, g)
  {
    if s != [] {
      assert forall a <- s[..|s| - 1] :: a in s;
      SumAdd(s[..|s| - 1], f, g, h);
    }
  }

  ghost predicate Distinct<A>(s: seq<A>) {
    forall i, j | 0 <= i < j < |s| :: s[i] != s[j]
  }

  lemma SumRemove<A>(s: seq<A>, i: nat, f: A -> real)
    requires i < |s|
    ensures Sum(s, f) == Sum(s[..i] + s[i + 1..], f) + f(s[i])
  {
    hide Sum;
    assert s == (s[..i] + [s[i]]) + s[i + 1..];
    SumConcat(s[..i] + [s[i]], s[i + 1..], f);
    SumLast(s[..i], s[i], f);
    SumConcat(s[..i], s[i + 1..], f);
  }

  /** A duplicate-free part of s sums to at most s; to exactly s when it is as long as s. */
  lemma {:induction false} SumPart<A>(part: seq<A>, s: seq<A>, f: A -> real)
    requires Distinct(part) && (forall a <- part :: a in s) && (forall a <- s :: f(a) >= 0.0)
    ensures |part| <= |s|
    ensures Sum(part, f) <= Sum(s, f)
    ensures |part| == |s| ==> Sum(part, f) == Sum(s, f)
  {
    if part == [] {
      SumZero(s, a => 0.0);
      SumMonotone(s, a => 0.0, f);
    } else {
      var n := |part| - 1;
      assert part[n] in s;
      var i :| 0 <= i < |s| && s[i] == part[n];
      var rest := s[..i] + s[i + 1..];
      forall a | a in part[..n] ensures a in rest {
        assert a in part;
        var k :| 0 <= k < |s| && s[k] == a;
        assert a == rest[if k < i then k else k - 1];
      }
      SumPart(part[..n], rest, f);
      SumRemove(s, i, f);
    }
  }

  /** A member's value is at most the sum of non-negative values. */
  lemma SumMember<A>(s: seq<A>, a: A, f: A -> real)
    requires a in s && (forall b <- s :: f(b) >= 0.0)
    ensures f(a) <= Sum(s, f)
  {
    SumPart([a], s, f);
    SumLast([], a, f);
    assert [] + [a] == [a];
  }

  /** If what counts in s goes to different members of t that are worth at least as much, s sums to at most t. */
  lemma {:induction false} SumInjected<A, B>(s: seq<A>, f: A -> real, t: seq<B>, g: B -> real, counts: A -> bool, image: A -> B)
    requires Distinct(s) && forall b <- t :: g(b) >= 0.0
    requires forall a <- s :: if counts(a) then image(a) in t && f(a) <= g(image(a)) else f(a) <= 0.0
    requires forall a, b | a in s && b in s && counts(a) && counts(b) && image(a) == image(b) :: a == b
    ensures Sum(s, f) <= Sum(t, g)
  {
    if s == [] {
      SumZero(t, b => 0.0);
      SumMonotone(t, b => 0.0, g);
    } else {
      var n := |s| - 1;
      var front, last := s[..n], s[n];
      assert last in s && forall a <- front :: a in s && a != last;
      if counts(last) {
        var i :| 0 <= i < |t| && t[i] == image(last);
        var rest := t[..i] + t[i + 1..];
        forall a | a in front && counts(a) ensures image(a) in rest {
          var k :| 0 <= k < |t| && t[k] == image(a);
          assert image(a) == rest[if k < i then k else k - 1];
        }
        SumInjected(front, f, rest, g, counts, image);
        SumRemove(t, i, g);
      } else {
        SumInjected(front, f, t, g, counts, image);
      }
    }
  }

  // ---------------------------------------------------------------- words

  function Range(n: nat): seq<nat> {
    seq(n, i => i)
  }

  lemma RangeDistinct(n: nat)
    ensures Distinct(Range(n)) && |Range(n)| == n
    ensures forall c: nat :: c in Range(n) <==> c < n
  {
    forall c: nat ensures c in Range(n) <==> c < n {
      if c < n {
        assert Range(n)[c] == c;
      }
    }
  }

  function Extend<A>(words: seq<seq<A>>, alphabet: seq<A>): seq<seq<A>> {
    if words == [] then []
    else
      Extend(words[..|words| - 1], alphabet)
      + seq(|alphabet|, i requires 0 <= i < |alphabet| => words[|words| - 1] + [alphabet[i]])
  }

  /** Every word of length n over the alphabet, once per way of picking its letters. */
  function Words<A>(alphabet: seq<A>, n: nat): seq<seq<A>> {
    if n == 0 then [[]] else Extend(Words(alphabet, n - 1), alphabet)
  }

  lemma {:induction false} SumMap<A, B>(s: seq<A>, t: seq<B>, f: A -> real, g: B -> real)
    requires |s| == |t| && forall i | 0 <= i < |s| :: f(s[i]) == g(t[i])
    ensures Sum(s, f) == Sum(t, g)
  {
    if s != [] {
      var n := |s| - 1;
      assert forall i | 0 <= i < n :: f(s[..n][i]) == g(t[..n][i]);
      SumMap(s[..n], t[..n], f, g);
    }
  }

  /** f of the word with one more letter, and the sum of that over the alphabet. */
  ghost function After<A>(w: seq<A>, f: seq<A> -> real): A -> real {
    a => f(w + [a])
  }

  ghost function OneMore<A>(alphabet: seq<A>, f: seq<A> -> real): seq<A> -> real {
    w => Sum(alphabet, After(w, f))
  }

  lemma {:induction false} SumExtend<A>(words: seq<seq<A>>, alphabet: seq<A>, f: seq<A> -> real)
    ensures Sum(Extend(words, alphabet), f) == Sum(words, OneMore(alphabet, f))
  {
    if words != [] {
      var n := |words| - 1;
      var tails := seq(|alphabet|, i requires 0 <= i < |alphabet| => words[n] + [alphabet[i]]);
      SumExtend(words[..n], alphabet, f);
      SumConcat(Extend(words[..n], alphabet), tails, f);
      SumMap(tails, alphabet, f, After(words[n], f));
    }
  }

  lemma SumWords<A>(alphabet: seq<A>, n: nat, f: seq<A> -> real)
    ensures Sum(Words(alphabet, n + 1), f) == Sum(Words(alphabet, n), OneMore(alphabet, f))
  {
    SumExtend(Words(alphabet, n), alphabet, f);
  }

  lemma {:induction false} ExtendMembers<A>(words: seq<seq<A>>, alphabet: seq<A>, w: seq<A>)
    ensures w in Extend(words, alphabet) <==> w != [] && w[..|w| - 1] in words && w[|w| - 1] in alphabet
  {
    if words != [] {
      var n := |words| - 1;
      var tails := seq(|alphabet|, i requires 0 <= i < |alphabet| => words[n] + [alphabet[i]]);
      ExtendMembers(words[..n], alphabet, w);
      assert words == words[..n] + [words[n]];
      assert w in Extend(words, alphabet) <==> w in Extend(words[..n], alphabet) || w in tails;
      if w != [] && w[..|w| - 1] == words[n] && w[|w| - 1] in alphabet {
        var i :| 0 <= i < |alphabet| && alphabet[i] == w[|w| - 1];
        assert w == tails[i];
      }
      if w in tails {
        var i :| 0 <= i < |tails| && tails[i] == w;
        assert w[..|w| - 1] == words[n] && w[|w| - 1] == alphabet[i];
      }
    }
  }

  /** `Words` lists exactly the sequences of that length over the alphabet. */
  lemma {:induction false} WordsMembers<A>(alphabet: seq<A>, n: nat, w: seq<A>)
    ensures w in Words(alphabet, n) <==> |w| == n && forall a <- w :: a in alphabet
  {
    if n == 0 {
      assert Words(alphabet, 0) == [[]];
    } else {
      ExtendMembers(Words(alphabet, n - 1), alphabet, w);
      if w != [] {
        WordsMembers(alphabet, n - 1, w[..|w| - 1]);
        assert w == w[..|w| - 1] + [w[|w| - 1]];
      }
    }
  }

  lemma {:induction false} ExtendDistinct<A>(words: seq<seq<A>>, alphabet: seq<A>)
    requires Distinct(words) && Distinct(alphabet)
    ensures Distinct(Extend(words, alphabet))
  {
    if words != [] {
      var n := |words| - 1;
      var front := Extend(words[..n], alphabet);
      var tails := seq(|alphabet|, i requires 0 <= i < |alphabet| => words[n] + [alphabet[i]]);
      ExtendDistinct(words[..n], alphabet);
      forall i, j | 0 <= i < |front| && 0 <= j < |tails| ensures front[i] != tails[j] {
        assert front[i] in front;
        ExtendMembers(words[..n], alphabet, front[i]);
        assert tails[j][..|tails[j]| - 1] == words[n];
      }
      forall i, j | 0 <= i < j < |tails| ensures tails[i] != tails[j] {
        assert tails[i][|words[n]|] == alphabet[i] && tails[j][|words[n]|] == alphabet[j];
      }
    }
  }

  /** ... each of them once. */
  lemma {:induction false} WordsDistinct<A>(alphabet: seq<A>, n: nat)
    requires Distinct(alphabet)
    ensures Distinct(Words(alphabet, n))
  {
    if n != 0 {
      WordsDistinct(alphabet, n - 1);
      ExtendDistinct(Words(alphabet, n - 1), alphabet);
    }
  }
}
