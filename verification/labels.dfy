/** Community labels of the report (the same code in both `GraphRoutine.kt`
    files). Every member's label is split into CamelCase tokens by the
    regular expression `(?<=.)(?=\p{Upper})`. The community's term counts
    (`tf`) are folded into an insertion-ordered map. Its label is the three
    best-scored tokens, lower-cased and joined by `-`. The tf-idf score
    itself is a parameter here. */
module Labels {
  import opened Common
  import opened Sorting

  // ---------------------------------------------------------------------
  // Tokenisation
  // ---------------------------------------------------------------------

  /** `\p{Upper}` of java.util.regex without the Unicode flag: ASCII only. */
  predicate IsUpper(c: char)
  {
    'A' <= c <= 'Z'
  }

  /** Position `p` of `s` matches `(?<=.)(?=\p{Upper})`: some character
      other than a line terminator stands before it, and an uppercase
      letter stands at it. */
  predicate SplitAt(s: string, p: nat)
  {
    1 <= p < |s| && IsUpper(s[p]) && !IsLineTerminator(s[p - 1])
  }

  /** The strings of `ts` one after the other. */
  function Concat(ts: seq<string>): string
  {
    if |ts| == 0 then [] else Concat(ts[..|ts| - 1]) + ts[|ts| - 1]
  }

  /** `label.split("(?<=.)(?=\\p{Upper})".toRegex())`: Kotlin's split keeps
      every piece, so the empty label gives one empty token. */
  function Tokens(s: string): (r: seq<string>)
    ensures |r| >= 1
  {
    TokensUpTo(s, |s|)
  }

  /** The tokens of the first `n` characters of `s`, built character by
      character: a character at a match opens a new token, any other one
      extends the last token. */
  function TokensUpTo(s: string, n: nat): (r: seq<string>)
    requires n <= |s|
    ensures |r| >= 1
    ensures n > 0 ==> |r[|r| - 1]| > 0 && r[|r| - 1][|r[|r| - 1]| - 1] == s[n - 1]
  {
    if n <= 1 then [s[..n]]
    else
      var init := TokensUpTo(s, n - 1);
      var c := s[n - 1];
      if SplitAt(s, n - 1) then init + [[c]]
      else init[..|init| - 1] + [init[|init| - 1] + [c]]
  }

  lemma ConcatAppend(ts: seq<string>, t: string)
    ensures Concat(ts + [t]) == Concat(ts) + t
  {
    assert (ts + [t])[..|ts|] == ts;
  }

  lemma AppendAssoc<T>(p: seq<T>, q: seq<T>, r: seq<T>)
    ensures (p + q) + r == p + (q + r)
  {
  }

  /** A character that opens a new piece is appended to the
      concatenation. */
  lemma ConcatOpens(init: seq<string>, s0: string, c: char)
    requires Concat(init) == s0
    ensures Concat(init + [[c]]) == s0 + [c]
  {
    ConcatAppend(init, [c]);
  }

  /** So is a character that extends the last piece. */
  lemma ConcatGrows(init: seq<string>, s0: string, c: char)
    requires |init| > 0 && Concat(init) == s0
    ensures Concat(init[..|init| - 1] + [init[|init| - 1] + [c]]) == s0 + [c]
  {
    var k := |init| - 1;
    ConcatAppend(init[..k], init[k] + [c]);
    assert Concat(init) == Concat(init[..k]) + init[k];
    AppendAssoc(Concat(init[..k]), init[k], [c]);
  }

  lemma PrefixGrows(s: string, n: nat)
    requires 0 < n <= |s|
    ensures s[..n - 1] + [s[n - 1]] == s[..n]
  {
  }

  /** The tokens put back together give the label. */
  lemma TokensConcat(s: string)
    ensures Concat(Tokens(s)) == s
  {
    TokensUpToConcat(s, |s|);
    assert s[..|s|] == s;
  }

  lemma {:induction false} TokensUpToConcat(s: string, n: nat)
    requires n <= |s|
    ensures Concat(TokensUpTo(s, n)) == s[..n]
  {
    if n <= 1 {
      ConcatAppend([], s[..n]);
      assert [] + [s[..n]] == [s[..n]];
    } else {
      TokensUpToConcat(s, n - 1);
      ConcatOpens(TokensUpTo(s, n - 1), s[..n - 1], s[n - 1]);
      ConcatGrows(TokensUpTo(s, n - 1), s[..n - 1], s[n - 1]);
      PrefixGrows(s, n);
    }
  }

  /** No position inside `t` matches the splitting expression. */
  ghost predicate NoMatchInside(t: string)
  {
    forall p: nat :: !SplitAt(t, p)
  }

  /** Every piece after the first is non-empty and starts at a match (an
      uppercase letter after a character that is not a line terminator),
      and no piece holds a match inside it. */
  ghost predicate CutAtMatches(r: seq<string>)
  {
    && (forall i :: 1 <= i < |r| ==> |r[i]| > 0 && IsUpper(r[i][0]))
    && (forall i :: 0 <= i < |r| - 1 ==> |r[i]| > 0 && !IsLineTerminator(r[i][|r[i]| - 1]))
    && (forall i :: 0 <= i < |r| ==> NoMatchInside(r[i]))
  }

  /** A text of at most one character is cut nowhere. */
  lemma CutSingle(t: string)
    requires |t| <= 1
    ensures CutAtMatches([t])
  {
    assert NoMatchInside(t);
  }

  /** A match right after the last piece opens a new piece. */
  lemma CutOpens(init: seq<string>, prev: char, c: char)
    requires CutAtMatches(init) && |init| > 0
    requires |init[|init| - 1]| > 0 && init[|init| - 1][|init[|init| - 1]| - 1] == prev
    requires IsUpper(c) && !IsLineTerminator(prev)
    ensures CutAtMatches(init + [[c]])
  {
    var r := init + [[c]];
    assert forall i :: 0 <= i < |init| ==> r[i] == init[i];
    assert NoMatchInside([c]);
  }

  /** A character that does not match extends the last piece. */
  lemma CutExtends(init: seq<string>, prev: char, c: char)
    requires CutAtMatches(init) && |init| > 0
    requires |init[|init| - 1]| > 0 && init[|init| - 1][|init[|init| - 1]| - 1] == prev
    requires !(IsUpper(c) && !IsLineTerminator(prev))
    ensures CutAtMatches(init[..|init| - 1] + [init[|init| - 1] + [c]])
  {
    var k := |init| - 1;
    var last := init[k];
    var t := last + [c];
    var r := init[..k] + [t];
    assert forall i :: 0 <= i < k ==> r[i] == init[i];
    assert NoMatchInside(last);
    forall p: nat ensures !SplitAt(t, p) {
      if 1 <= p < |t| - 1 {
        assert t[p] == last[p] && t[p - 1] == last[p - 1];
        assert !SplitAt(last, p);
      } else if p == |t| - 1 && p >= 1 {
        assert t[p - 1] == prev;
      }
    }
    assert NoMatchInside(t);
  }

  /** The cut points are exactly the regular expression's matches: every
      token after the first is non-empty and starts at a match (an
      uppercase letter after a character that is not a line terminator),
      and no token holds a match inside it. */
  lemma TokensAreSplitAtMatches(s: string)
    ensures CutAtMatches(Tokens(s))
  {
    TokensUpToCut(s, |s|);
  }

  lemma {:induction false} TokensUpToCut(s: string, n: nat)
    requires n <= |s|
    ensures CutAtMatches(TokensUpTo(s, n))
  {
    if n <= 1 {
      CutSingle(s[..n]);
    } else {
      var init := TokensUpTo(s, n - 1);
      TokensUpToCut(s, n - 1);
      if SplitAt(s, n - 1) {
        CutOpens(init, s[n - 2], s[n - 1]);
      } else {
        CutExtends(init, s[n - 2], s[n - 1]);
      }
    }
  }

  /** `nodes.flatMap { it.label.split(…) }`: the tokens of all members'
      labels, label after label. */
  function AllTokens(labels: seq<string>): (r: seq<string>)
    ensures forall t :: t in r ==> exists i :: 0 <= i < |labels| && t in Tokens(labels[i])
  {
    if |labels| == 0 then []
    else
      var init := labels[..|labels| - 1];
      var rest := AllTokens(init);
      assert forall t :: t in rest ==> exists i :: 0 <= i < |labels| && t in Tokens(labels[i]) by {
        forall t | t in rest ensures exists i :: 0 <= i < |labels| && t in Tokens(labels[i]) {
          var i :| 0 <= i < |init| && t in Tokens(init[i]);
          assert labels[i] == init[i];
        }
      }
      rest + Tokens(labels[|labels| - 1])
  }

  // ---------------------------------------------------------------------
  // Term counts
  // ---------------------------------------------------------------------

  /** The sum of the counts of `keys` in `m`. */
  function SumCounts(keys: seq<string>, m: map<string, int>): int
  {
    if |keys| == 0 then 0 else SumCounts(keys[..|keys| - 1], m) + Get(m, keys[|keys| - 1])
  }

  /** Raising one count by one raises the sum over distinct keys by one
      when the key is among them. */
  lemma {:induction false} SumCountsBump(keys: seq<string>, m: map<string, int>, x: string)
    requires Distinct(keys)
    ensures SumCounts(keys, m[x := Get(m, x) + 1]) == SumCounts(keys, m) + (if x in keys then 1 else 0)
    decreases |keys|
  {
    if |keys| > 0 {
      var init := keys[..|keys| - 1];
      assert Distinct(init);
      assert keys == init + [keys[|keys| - 1]];
      SumCountsBump(init, m, x);
    }
  }

  /** The `tf` values of a community sum to its number of tokens. */
  lemma {:induction false} TfTotal(xs: seq<string>)
    ensures SumCounts(FirstOccurrences(xs), Tally(xs)) == |xs|
    decreases |xs|
  {
    if |xs| > 0 {
      var init := xs[..|xs| - 1];
      var x := xs[|xs| - 1];
      TfTotal(init);
      var keys := FirstOccurrences(init);
      SumCountsBump(keys, Tally(init), x);
      if x !in keys {
        assert (keys + [x])[..|keys|] == keys;
        assert Get(Tally(xs), x) == 1;
      }
    }
  }

  // ---------------------------------------------------------------------
  // The top-3 label
  // ---------------------------------------------------------------------

  /** The `tfidf` entries `sortedByDescending { it.value }`, then `take(3)`:
      the community's best-scored distinct tokens, as many as there are up
      to three, all from the members' labels. */
  function TopTokens(labels: seq<string>, score: string -> real): (top: seq<string>)
    ensures |top| == Min3(|FirstOccurrences(AllTokens(labels))|)
    ensures Distinct(top)
    ensures forall t :: t in top ==> t in AllTokens(labels)
  {
    var distinct := FirstOccurrences(AllTokens(labels));
    var ranked := SortBy(distinct, ScoreKey(score), true);
    SortKeepsElements(distinct, ScoreKey(score), true);
    Take3(ranked)
  }

  /** `take(3)` of a sequence of distinct elements. */
  function Take3<T>(xs: seq<T>): (r: seq<T>)
    requires Distinct(xs)
    ensures r == xs[..Min3(|xs|)]
    ensures Distinct(r) && forall t :: t in r ==> t in xs
  {
    if |xs| <= 3 then xs else xs[..3]
  }

  /** A token's tf-idf score as a sort key (never NaN). */
  function ScoreKey(score: string -> real): string -> Option<real>
  {
    t => Some(score(t))
  }

  /** No token left out of the label scores higher than a token taken. */
  lemma TopTokensAreBest(labels: seq<string>, score: string -> real)
    ensures forall t, u :: t in AllTokens(labels) && t !in TopTokens(labels, score) && u in TopTokens(labels, score)
                           ==> score(t) <= score(u)
  {
    var key := ScoreKey(score);
    var distinct := FirstOccurrences(AllTokens(labels));
    var ranked := SortBy(distinct, key, true);
    SortKeepsElements(distinct, key, true);
    SortSorted(distinct, key, true);
    TakeBest(ranked, key, score);
  }

  /** The label's tokens stand best score first (`sortedByDescending`),
      and `sortedByDescending` is stable on the insertion-ordered `tfidf`
      map: of two tokens with equal scores, the one that first appears
      earlier among the members' labels comes first, and a token left out
      with the score of a token taken first appears after it. */
  lemma TopTokensOrder(labels: seq<string>, score: string -> real)
    ensures var top := TopTokens(labels, score);
            forall i, j :: 0 <= i < j < |top| ==> score(top[j]) <= score(top[i])
    ensures var top := TopTokens(labels, score);
            var all := AllTokens(labels);
            forall i, j :: 0 <= i < j < |top| ==>
              (score(top[i]) == score(top[j]) ==> IndexOf(all, top[i]) < IndexOf(all, top[j]))
    ensures var top := TopTokens(labels, score);
            var all := AllTokens(labels);
            forall t, u :: t in all && t !in top && u in top ==>
              (score(t) == score(u) ==> IndexOf(all, u) < IndexOf(all, t))
  {
    var all := AllTokens(labels);
    var distinct := FirstOccurrences(all);
    var key := ScoreKey(score);
    var ranked := SortBy(distinct, key, true);
    var top := TopTokens(labels, score);
    assert top == ranked[..|top|];
    SortSorted(distinct, key, true);
    SortStable(distinct, key, true);
    TopPairsInOrder(all, score, ranked, top);
    LeftOutAfter(all, score, ranked, top);
  }

  /** Two tokens of a prefix of the ranking: best score first, ties in
      order of first appearance. */
  lemma TopPairsInOrder(all: seq<string>, score: string -> real, ranked: seq<string>, top: seq<string>)
    requires ranked == SortBy(FirstOccurrences(all), ScoreKey(score), true)
    requires SortedBy(ranked, ScoreKey(score), true)
    requires StableFor(FirstOccurrences(all), ranked, ScoreKey(score))
    requires |top| <= |ranked| && top == ranked[..|top|]
    ensures forall i, j :: 0 <= i < j < |top| ==> score(top[j]) <= score(top[i])
    ensures forall i, j :: 0 <= i < j < |top| ==>
              (score(top[i]) == score(top[j]) ==> IndexOf(all, top[i]) < IndexOf(all, top[j]))
  {
    var key := ScoreKey(score);
    forall i, j | 0 <= i < j < |top|
      ensures score(top[j]) <= score(top[i])
      ensures score(top[i]) == score(top[j]) ==> IndexOf(all, top[i]) < IndexOf(all, top[j])
    {
      assert top[i] == ranked[i] && top[j] == ranked[j];
      assert InOrder(key(ranked[i]), key(ranked[j]), true);
      RankedTie(all, key, ranked, i, j);
    }
  }

  /** A token outside a prefix of the ranking that ties with a token in it
      first appears after that token. */
  lemma LeftOutAfter(all: seq<string>, score: string -> real, ranked: seq<string>, top: seq<string>)
    requires ranked == SortBy(FirstOccurrences(all), ScoreKey(score), true)
    requires StableFor(FirstOccurrences(all), ranked, ScoreKey(score))
    requires |top| <= |ranked| && top == ranked[..|top|]
    ensures forall t, u :: t in all && t !in top && u in top ==>
              (score(t) == score(u) ==> IndexOf(all, u) < IndexOf(all, t))
  {
    forall t, u | t in all && t !in top && u in top
      ensures score(t) == score(u) ==> IndexOf(all, u) < IndexOf(all, t)
    {
      LeftOutPair(all, score, ranked, top, t, u);
    }
  }

  /** One pair of `LeftOutAfter`. */
  lemma LeftOutPair(all: seq<string>, score: string -> real, ranked: seq<string>, top: seq<string>, t: string, u: string)
    requires ranked == SortBy(FirstOccurrences(all), ScoreKey(score), true)
    requires StableFor(FirstOccurrences(all), ranked, ScoreKey(score))
    requires |top| <= |ranked| && top == ranked[..|top|]
    requires t in all && t !in top && u in top
    ensures score(t) == score(u) ==> IndexOf(all, u) < IndexOf(all, t)
  {
    SortKeepsElements(FirstOccurrences(all), ScoreKey(score), true);
    assert t in ranked;
    var i := IndexOf(ranked, t);
    var j := IndexOf(top, u);
    assert ranked[j] == u;
    OutsidePrefix(ranked, top, t);
    RankedTie(all, ScoreKey(score), ranked, j, i);
  }

  /** An element missing from a prefix stands after it. */
  lemma OutsidePrefix(ranked: seq<string>, top: seq<string>, t: string)
    requires t in ranked && t !in top
    requires |top| <= |ranked| && top == ranked[..|top|]
    ensures IndexOf(ranked, t) >= |top|
  {
    assert forall k :: 0 <= k < |top| ==> top[k] == ranked[k];
  }

  /** In the stable ranking of the distinct tokens, two tokens with equal
      scores stand in the order of their first appearance. */
  lemma RankedTie(all: seq<string>, key: string -> Option<real>, ranked: seq<string>, i: nat, j: nat)
    requires ranked == SortBy(FirstOccurrences(all), key, true)
    requires StableFor(FirstOccurrences(all), ranked, key)
    requires i < j < |ranked|
    ensures key(ranked[i]) == key(ranked[j]) ==> IndexOf(all, ranked[i]) < IndexOf(all, ranked[j])
  {
    var distinct := FirstOccurrences(all);
    var a, b := ranked[i], ranked[j];
    SortKeepsElements(distinct, key, true);
    assert a in ranked && b in ranked;
    if key(a) == key(b) {
      FirstOccurrencesRank(all, a, b);
    }
  }

  function Min3(n: nat): nat
  {
    if n <= 3 then n else 3
  }

  /** No token after the first (at most) three of a ranking of distinct
      tokens scores higher than one of them. */
  lemma TakeBest(ranked: seq<string>, key: string -> Option<real>, score: string -> real)
    requires key == ScoreKey(score)
    requires SortedBy(ranked, key, true) && Distinct(ranked)
    ensures forall t, u :: t in ranked && t !in Take3(ranked) && u in Take3(ranked) ==> score(t) <= score(u)
  {
    var top := Take3(ranked);
    forall t, u | t in ranked && t !in top && u in top ensures score(t) <= score(u) {
      var i :| 0 <= i < |ranked| && ranked[i] == t;
      var j :| 0 <= j < |top| && top[j] == u;
      assert ranked[j] == u;
      assert InOrder(key(ranked[j]), key(ranked[i]), true);
    }
  }

  /** Kotlin's `lowercase()` on the ASCII letters. */
  function Lower(s: string): (r: string)
    ensures |r| == |s|
    ensures forall i :: 0 <= i < |s| ==> r[i] == if IsUpper(s[i]) then (s[i] as int + 32) as char else s[i]
  {
    if |s| == 0 then [] else Lower(s[..|s| - 1]) + [if IsUpper(s[|s| - 1]) then (s[|s| - 1] as int + 32) as char else s[|s| - 1]]
  }

  /** `joinToString("-")`. */
  function JoinDash(parts: seq<string>): string
  {
    if |parts| == 0 then ""
    else if |parts| == 1 then parts[0]
    else parts[0] + "-" + JoinDash(parts[1..])
  }

  function LowerAll(ts: seq<string>): (r: seq<string>)
    ensures |r| == |ts|
    ensures forall i :: 0 <= i < |ts| ==> r[i] == Lower(ts[i])
  {
    if |ts| == 0 then [] else LowerAll(ts[..|ts| - 1]) + [Lower(ts[|ts| - 1])]
  }

  /** Kotlin's `split(sep)`: the pieces between the occurrences of `sep`,
      the empty text giving one empty piece. No piece holds `sep`. */
  function SplitOn(s: string, sep: char): (r: seq<string>)
    ensures |r| >= 1
    decreases |s|
  {
    match IndexOfFrom(s, sep, 0)
    case None => [s]
    case Some(i) => [s[..i]] + SplitOn(s[i + 1..], sep)
  }

  /** No piece of a split holds the separator. */
  lemma {:induction false} SplitOnPieces(s: string, sep: char)
    ensures forall k :: 0 <= k < |SplitOn(s, sep)| ==> !ContainsChar(SplitOn(s, sep)[k], sep)
    decreases |s|
  {
    IndexOfFromFirst(s, sep, 0);
    match IndexOfFrom(s, sep, 0)
    case None =>
    case Some(i) =>
      SplitOnPieces(s[i + 1..], sep);
      var r := SplitOn(s, sep);
      assert r == [s[..i]] + SplitOn(s[i + 1..], sep);
      assert forall k :: 0 <= k < i ==> s[..i][k] == s[k];
      assert forall k :: 1 <= k < |r| ==> r[k] == SplitOn(s[i + 1..], sep)[k - 1];
  }

  /** Joining the pieces of a split with `-` gives the text back. */
  lemma {:induction false} SplitOnJoinDash(s: string)
    ensures JoinDash(SplitOn(s, '-')) == s
    decreases |s|
  {
    match IndexOfFrom(s, '-', 0)
    case None =>
    case Some(i) =>
      var rest := s[i + 1..];
      SplitOnJoinDash(rest);
      assert SplitOn(s, '-') == [s[..i]] + SplitOn(rest, '-');
      JoinDashCons(s[..i], SplitOn(rest, '-'));
      assert s == s[..i] + "-" + rest;
  }

  lemma JoinDashCons(first: string, tail: seq<string>)
    requires |tail| >= 1
    ensures JoinDash([first] + tail) == first + "-" + JoinDash(tail)
  {
    assert ([first] + tail)[1..] == tail;
  }

  /** Joining with `-` and splitting on `-` gives the parts back, when no
      part holds a `-` itself: the label determines its tokens. */
  lemma {:induction false} JoinDashSplits(parts: seq<string>)
    requires |parts| >= 1
    requires forall i :: 0 <= i < |parts| ==> !ContainsChar(parts[i], '-')
    ensures SplitOn(JoinDash(parts), '-') == parts
    decreases |parts|
  {
    var first := parts[0];
    if |parts| == 1 {
      assert IndexOfFrom(first, '-', 0).None?;
    } else {
      var tail := parts[1..];
      assert forall i :: 0 <= i < |tail| ==> tail[i] == parts[i + 1];
      JoinDashSplits(tail);
      var rest := JoinDash(tail);
      var s := first + "-" + rest;
      assert forall k :: 0 <= k < |first| ==> s[k] == first[k];
      IndexOfFromUnique(s, '-', 0, |first|);
      assert s[..|first|] == first && s[|first| + 1..] == rest;
      assert parts == [first] + tail;
    }
  }

  /** The community label shown in the report: the lower-cased top tokens
      joined by `-`, from which splitting on `-` recovers them whenever no
      token holds a `-` itself. */
  function CommunityLabel(labels: seq<string>, score: string -> real): (name: string)
    ensures var top := TopTokens(labels, score);
            |top| >= 1 && (forall t :: t in top ==> !ContainsChar(t, '-')) ==>
              SplitOn(name, '-') == LowerAll(top)
  {
    var top := TopTokens(labels, score);
    var lowered := LowerAll(top);
    assert |top| >= 1 && (forall t :: t in top ==> !ContainsChar(t, '-')) ==>
             SplitOn(JoinDash(lowered), '-') == lowered by {
      if |top| >= 1 && (forall t :: t in top ==> !ContainsChar(t, '-')) {
        forall i | 0 <= i < |lowered| ensures !ContainsChar(lowered[i], '-') {
          assert top[i] in top;
        }
        JoinDashSplits(lowered);
      }
    }
    JoinDash(lowered)
  }
}
