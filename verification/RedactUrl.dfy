/** Stripping the userinfo of http(s) URLs out of free text: the leftmost,
    non-overlapping replacement of `(https?://)[^/@\s]+@` by its first group.
    Characters may be read as code points or as the bytes of UTF-8 text: the
    pattern names ASCII characters only, so both readings match alike. */
module RedactUrl {
  import opened Sequences

  predicate Space(c: char) {
    c == ' ' || c == '\t' || c == '\n' || c == '\U{0C}' || c == '\r'
  }

  /** A character that ends a run of userinfo. */
  predicate Delimiter(c: char) {
    c == '/' || c == '@' || Space(c)
  }

  /** Length of "http://" or "https://" at the start of `s`, 0 if neither is. */
  function SchemeLen(s: string): nat {
    if !(7 <= |s| && s[0] == 'h' && s[1] == 't' && s[2] == 't' && s[3] == 'p') then 0
    else if s[4] == ':' && s[5] == '/' && s[6] == '/' then 7
    else if s[4] == 's' && s[5] == ':' && s[6] == '/' && 8 <= |s| && s[7] == '/' then 8
    else 0
  }

  /** Length of the longest prefix without a delimiter. */
  function Run(s: string): (n: nat)
    ensures n <= |s|
    ensures n < |s| ==> Delimiter(s[n])
    ensures forall k :: 0 <= k < n ==> !Delimiter(s[k])
  {
    if s == "" || Delimiter(s[0]) then 0 else 1 + Run(s[1..])
  }

  /** Length of a leading non-empty run with the at-sign that ends it. */
  function UserinfoLen(s: string): (n: nat)
    ensures n <= |s|
    ensures n != 0 ==> n == Run(s) + 1 && s[n - 1] == '@'
  {
    var n := Run(s);
    if 0 < n < |s| && s[n] == '@' then n + 1 else 0
  }

  /** Length of a match at the start of `s`, 0 if there is none. */
  function MatchLen(s: string): (n: nat)
    ensures n <= |s|
    ensures n != 0 ==> SchemeLen(s) != 0 && SchemeLen(s) + 1 < n
  {
    var k := SchemeLen(s);
    if k == 0 || UserinfoLen(s[k..]) == 0 then 0 else k + UserinfoLen(s[k..])
  }

  function RedactURL(s: string): string
    decreases |s|
  {
    if s == "" then ""
    else if MatchLen(s) == 0 then [s[0]] + RedactURL(s[1..])
    else s[..SchemeLen(s)] + RedactURL(s[MatchLen(s)..])
  }

  predicate MatchesHere(s: string) {
    MatchLen(s) != 0
  }

  /** A match directly followed by another run that ends in an at-sign. */
  predicate RepeatsHere(s: string) {
    MatchLen(s) != 0 && UserinfoLen(s[MatchLen(s)..]) != 0
  }

  ghost predicate At(p: string -> bool, s: string, i: int) {
    0 <= i < |s| && p(s[i..])
  }

  /** Some suffix of `s` satisfies `p`. */
  ghost predicate Somewhere(p: string -> bool, s: string) {
    exists i :: At(p, s, i)
  }

  ghost predicate HasMatch(s: string) {
    Somewhere(MatchesHere, s)
  }

  ghost predicate RepeatsAtSign(s: string) {
    Somewhere(RepeatsHere, s)
  }

  ghost predicate MatchAt(s: string, i: int) {
    0 <= i < |s| && MatchLen(s[i..]) != 0
  }

  // ---------------------------------------------------------------------
  // Where matches can begin
  // ---------------------------------------------------------------------

  lemma SchemeShape(s: string)
    requires SchemeLen(s) != 0
    ensures SchemeLen(s) <= |s| && s[0] == 'h'
    ensures forall k :: 0 < k < SchemeLen(s) ==> s[k] != 'h'
    ensures Run(s) == SchemeLen(s) - 2 && s[Run(s)] == '/'
  {
    var n := SchemeLen(s);
    assert forall k :: 0 <= k < n - 2 ==> !Delimiter(s[k]);
  }

  // --- slices ---------------------------------------------------------------

  lemma SliceOfSuffix(s: string, k: nat, n: nat, m: nat)
    requires k + n <= |s| && k + m <= |s|
    ensures s[k..][..n] == s[k..k + n] && s[k..][m..] == s[k + m..]
  {
  }

  lemma ConsSlice(s: string, k: nat, j: nat)
    requires k < j <= |s|
    ensures [s[k]] + s[k + 1..j] == s[k..j]
  {
  }

  lemma PrefixTail(p: string, s: string)
    requires p != "" && s != "" && p[0] == s[0]
    ensures p <= s <==> p[1..] <= s[1..]
  {
    if p[1..] <= s[1..] {
      assert forall k :: 0 < k < |p| ==> p[k] == p[1..][k - 1] && s[k] == s[1..][k - 1];
    }
  }

  // --- matches -----------------------------------------------------------------

  lemma {:induction false} RunOfSuffix(s: string, i: nat)
    requires i <= Run(s)
    ensures Run(s[i..]) == Run(s) - i
  {
    if i != 0 {
      RunOfSuffix(s[1..], i - 1);
      SliceOfSuffix(s, 1, 0, i - 1);
    } else {
      assert s[0..] == s;
    }
  }

  lemma MatchShape(s: string)
    requires MatchLen(s) != 0
    ensures SchemeLen(s) != 0 && MatchLen(s) == SchemeLen(s) + Run(s[SchemeLen(s)..]) + 1
    ensures s[MatchLen(s) - 1] == '@'
  {
  }

  lemma RunIsLocal(x: string, y: string, r: nat)
    requires r == Run(x) && r < |x| && r < |y|
    requires forall k :: 0 <= k <= r ==> x[k] == y[k]
    ensures Run(y) == r
  {
  }

  /** Whether a match stands at the start depends on the matched text alone. */
  lemma MatchIsLocal(u: string, v: string, m: nat)
    requires m == MatchLen(u) && m != 0 && m <= |v|
    requires forall k :: 0 <= k < m ==> u[k] == v[k]
    ensures MatchLen(v) == m
  {
    var n := SchemeLen(u);
    assert SchemeLen(v) == n;
    var x, y := u[n..], v[n..];
    MatchShape(u);
    assert forall k :: 0 <= k <= Run(x) ==> x[k] == u[n + k] && y[k] == v[n + k];
    RunIsLocal(x, y, Run(x));
  }

  // --- the pattern itself -----------------------------------------------------

  /** Free of slash, at-sign and the white space of the pattern. */
  predicate Undelimited(u: string) {
    && '/' !in u && '@' !in u
    && ' ' !in u && '\t' !in u && '\n' !in u && '\U{0C}' !in u && '\r' !in u
  }

  /** A word with the given userinfo. */
  ghost predicate Spells(w: string, userinfo: string) {
    userinfo != "" && Undelimited(userinfo) && (w == "http://" + userinfo + "@" || w == "https://" + userinfo + "@")
  }

  /** The words of the pattern. */
  ghost predicate InPattern(w: string) {
    exists userinfo :: Spells(w, userinfo)
  }

  lemma RunIs(u: string, s: string)
    requires u <= s && Undelimited(u) && |u| < |s| && Delimiter(s[|u|])
    ensures Run(s) == |u|
  {
  }

  lemma SpelledIsMatched(s: string, n: nat, u: string)
    requires n <= |s| && Spells(s[..n], u)
    ensures n == MatchLen(s)
  {
    hide Run;
    var k := n - 1 - |u|;
    var w := s[..n];
    assert w[k..] == u + "@";
    assert forall i :: 0 <= i < n ==> s[i] == w[i];
    assert SchemeLen(s) == k;
    assert u <= s[k..] && s[k..][|u|] == w[k..][|u|] == '@';
    RunIs(u, s[k..]);
  }

  lemma MatchIsSpelled(s: string) returns (u: string)
    requires MatchLen(s) != 0
    ensures Spells(s[..MatchLen(s)], u)
  {
    var k, n := SchemeLen(s), MatchLen(s);
    u := s[k..][..n - 1 - k];
    SchemeSpelled(s);
    hide SchemeLen, MatchLen;
    assert s[..n] == s[..k] + (u + "@");
    Regroup(s[..k], u, "@");
  }

  lemma SchemeSpelled(s: string)
    requires SchemeLen(s) != 0
    ensures s[..SchemeLen(s)] == "http://" || s[..SchemeLen(s)] == "https://"
  {
  }

  /** At every position there is at most one match, and it is the one found. */
  lemma PatternMatchesExactly(s: string, n: nat)
    requires n <= |s|
    ensures InPattern(s[..n]) <==> n != 0 && n == MatchLen(s)
  {
    hide MatchLen;
    if InPattern(s[..n]) {
      var u :| Spells(s[..n], u);
      SpelledIsMatched(s, n, u);
    }
    if n != 0 && n == MatchLen(s) {
      var u := MatchIsSpelled(s);
    }
  }

  /** A scheme does not begin inside a run that ends in an at-sign. */
  lemma NoSchemeInRun(u: string, end: nat)
    requires end < |u| && u[end] == '@' && Run(u) == end
    ensures SchemeLen(u) == 0
  {
    hide SchemeLen, Run;
    if SchemeLen(u) != 0 {
      SchemeShape(u);
    }
  }

  /** Inside a match, past its first character, not even a scheme begins. */
  lemma NoSchemeInsideMatch(s: string, i: nat)
    requires 0 < i < MatchLen(s)
    ensures SchemeLen(s[i..]) == 0
  {
    hide SchemeLen, MatchLen, UserinfoLen, Run;
    var k, u := SchemeLen(s), s[i..];
    SchemeShape(s);
    MatchShape(s);
    if k <= i {
      RunOfSuffix(s[k..], i - k);
      SliceOfSuffix(s, k, 0, i - k);
      NoSchemeInRun(u, MatchLen(s) - 1 - i);
    } else {
      NothingBeginsInScheme(s, i);
    }
  }

  lemma NothingBeginsInScheme(s: string, i: nat)
    requires 0 < i < SchemeLen(s)
    ensures SchemeLen(s[i..]) == 0
  {
    hide SchemeLen;
    SchemeShape(s);
    if SchemeLen(s[i..]) != 0 {
      SchemeShape(s[i..]);
    }
  }

  /** Matches are pairwise disjoint. */
  lemma MatchesAreDisjoint(s: string, i: nat, j: nat)
    requires MatchAt(s, i) && MatchAt(s, j) && i < j
    ensures i + MatchLen(s[i..]) <= j
  {
    SliceOfSuffix(s, i, 0, j - i);
    if j < i + MatchLen(s[i..]) {
      NoSchemeInsideMatch(s[i..], j - i);
    }
  }

  // ---------------------------------------------------------------------
  // How the result begins
  // ---------------------------------------------------------------------

  lemma HeadKept(s: string)
    ensures RedactURL(s) == "" <==> s == ""
    ensures s != "" ==> RedactURL(s)[0] == s[0]
  {
  }

  lemma RedactMatch(s: string)
    requires MatchLen(s) != 0
    ensures RedactURL(s) == s[..SchemeLen(s)] + RedactURL(s[MatchLen(s)..])
  {
  }

  lemma RedactNext(s: string)
    requires s != "" && MatchLen(s) == 0
    ensures RedactURL(s) == [s[0]] + RedactURL(s[1..])
  {
  }

  lemma NoMatchWithoutH(s: string)
    requires s != "" && s[0] != 'h'
    ensures MatchLen(s) == 0
  {
  }

  /** No match begins at a character other than 'h', so those are passed over. */
  lemma {:induction false} PassesOver(s: string, k: nat)
    requires k <= |s| && forall i :: 0 <= i < k ==> s[i] != 'h'
    ensures RedactURL(s) == s[..k] + RedactURL(s[k..])
  {
    hide RedactURL, MatchLen;
    if k == 0 {
      assert s[0..] == s;
    } else {
      NoMatchWithoutH(s);
      RedactNext(s);
      SliceOfSuffix(s, 1, k - 1, k - 1);
      PassesOver(s[1..], k - 1);
      Regroup([s[0]], s[1..k], RedactURL(s[k..]));
      ConsSlice(s, 0, k);
      assert s[0..k] == s[..k];
    }
  }

  /** A text without an 'h' that begins the result also begins the input. */
  lemma {:induction false} BeginsInput(p: string, s: string)
    requires 'h' !in p && p <= RedactURL(s)
    ensures p <= s
  {
    hide RedactURL, MatchLen;
    HeadKept(s);
    if p != "" {
      NoMatchWithoutH(s);
      RedactNext(s);
      assert RedactURL(s)[1..] == RedactURL(s[1..]);
      PrefixTail(p, RedactURL(s));
      BeginsInput(p[1..], s[1..]);
      PrefixTail(p, s);
    }
  }

  lemma RunCons(c: char, u: string)
    ensures Run([c] + u) == if Delimiter(c) then 0 else 1 + Run(u)
  {
    assert ([c] + u)[1..] == u;
  }

  lemma SchemeOfPrefix(s: string, t: string)
    requires SchemeLen(s) != 0
    ensures SchemeLen(s[..SchemeLen(s)] + t) == SchemeLen(s)
  {
  }

  /** The leading run, and the character that ends it, are kept. */
  lemma {:induction false} RunAlike(s: string)
    ensures Run(RedactURL(s)) == Run(s)
    ensures Run(s) < |RedactURL(s)| <==> Run(s) < |s|
    ensures Run(s) < |s| ==> RedactURL(s)[Run(s)] == s[Run(s)]
    decreases |s|
  {
    hide RedactURL, SchemeLen, MatchLen, UserinfoLen, Run;
    var t := RedactURL(s);
    HeadKept(s);
    if s == "" {
    } else if MatchLen(s) != 0 {
      var n := SchemeLen(s);
      RedactMatch(s);
      SchemeOfPrefix(s, RedactURL(s[MatchLen(s)..]));
      SchemeShape(s);
      SchemeShape(t);
    } else {
      RedactNext(s);
      RunAlike(s[1..]);
      RunCons(s[0], s[1..]);
      RunCons(s[0], RedactURL(s[1..]));
      assert [s[0]] + s[1..] == s;
    }
  }

  lemma UserinfoAlike(s: string)
    ensures UserinfoLen(RedactURL(s)) == UserinfoLen(s)
  {
    hide RedactURL, Run;
    RunAlike(s);
  }

  /** A scheme in front of no match is kept, with what follows it. */
  lemma SchemeKept(s: string)
    requires SchemeLen(s) != 0 && MatchLen(s) == 0
    ensures RedactURL(s) == s[..SchemeLen(s)] + RedactURL(s[SchemeLen(s)..])
  {
    hide RedactURL, SchemeLen, MatchLen;
    var n := SchemeLen(s);
    SchemeShape(s);
    RedactNext(s);
    PassesOver(s[1..], n - 1);
    SliceOfSuffix(s, 1, n - 1, n - 1);
    Regroup([s[0]], s[1..n], RedactURL(s[n..]));
    ConsSlice(s, 0, n);
    assert s[0..n] == s[..n];
  }

  lemma SchemeNotMade(s: string)
    requires s != "" && SchemeLen(s) == 0
    ensures SchemeLen(RedactURL(s)) == 0
  {
    hide RedactURL, MatchLen;
    var t := RedactURL(s);
    if SchemeLen(t) != 0 {
      assert MatchLen(s) == 0;
      RedactNext(s);
      HeadKept(s);
      SchemeShape(t);
      var scheme := t[..SchemeLen(t)];
      assert t[1..] == RedactURL(s[1..]);
      PrefixTail(scheme, t);
      BeginsInput(scheme[1..], s[1..]);
      PrefixTail(scheme, s);
    }
  }

  lemma MatchLenAfterScheme(s: string, rest: string)
    requires SchemeLen(s) != 0
    ensures var t := s[..SchemeLen(s)] + rest;
            && SchemeLen(t) == SchemeLen(s)
            && MatchLen(t) == if UserinfoLen(rest) == 0 then 0 else SchemeLen(s) + UserinfoLen(rest)
  {
    hide SchemeLen, UserinfoLen;
    SchemeShape(s);
    SchemeOfPrefix(s, rest);
    assert (s[..SchemeLen(s)] + rest)[SchemeLen(s)..] == rest;
  }

  /** Where no match begins, none begins in the result either, and the schemes
      that begin there are the same. */
  lemma StepAlike(s: string)
    requires s != "" && MatchLen(s) == 0
    ensures SchemeLen(RedactURL(s)) == SchemeLen(s)
    ensures MatchLen(RedactURL(s)) == 0
  {
    hide RedactURL, SchemeLen, UserinfoLen;
    var n := SchemeLen(s);
    if n == 0 {
      SchemeNotMade(s);
    } else {
      SchemeShape(s);
      SchemeKept(s);
      MatchLenAfterScheme(s, RedactURL(s[n..]));
      UserinfoAlike(s[n..]);
    }
  }

  lemma MatchAlike(s: string)
    requires MatchLen(s) != 0
    ensures SchemeLen(RedactURL(s)) == SchemeLen(s)
    ensures var again := UserinfoLen(s[MatchLen(s)..]);
            MatchLen(RedactURL(s)) == if again == 0 then 0 else SchemeLen(s) + again
  {
    hide RedactURL, SchemeLen, MatchLen, UserinfoLen;
    var rest := s[MatchLen(s)..];
    RedactMatch(s);
    MatchLenAfterScheme(s, RedactURL(rest));
    UserinfoAlike(rest);
  }

  // ---------------------------------------------------------------------
  // What the rewrite leaves
  // ---------------------------------------------------------------------

  lemma SomewhereStep(p: string -> bool, s: string)
    requires s != ""
    ensures Somewhere(p, s) <==> p(s) || Somewhere(p, s[1..])
  {
    assert s[0..] == s;
    if i :| At(p, s, i) && i != 0 {
      SliceOfSuffix(s, 1, 0, i - 1);
      assert At(p, s[1..], i - 1);
    }
    if p(s) {
      assert At(p, s, 0);
    } else if i :| At(p, s[1..], i) {
      SliceOfSuffix(s, 1, 0, i);
      assert At(p, s, i + 1);
    }
  }

  /** If none of the `m - 1` suffixes after the first satisfies `p`. */
  lemma {:induction false} SomewhereAfter(p: string -> bool, s: string, m: nat)
    requires 0 < m <= |s| && forall i :: 0 < i < m ==> !p(s[i..])
    ensures Somewhere(p, s) <==> p(s) || Somewhere(p, s[m..])
    decreases m
  {
    hide Somewhere;
    SomewhereStep(p, s);
    if 1 < m {
      var u := s[1..];
      forall i | 0 <= i < m - 1
        ensures !p(u[i..])
      {
        SliceOfSuffix(s, 1, 0, i);
      }
      assert u[0..] == u;
      SomewhereAfter(p, u, m - 1);
      SliceOfSuffix(s, 1, 0, m - 1);
    }
  }

  lemma NothingInsideMatch(s: string, i: nat)
    requires 0 < i < MatchLen(s)
    ensures !MatchesHere(s[i..]) && !RepeatsHere(s[i..])
  {
    NoSchemeInsideMatch(s, i);
  }

  lemma LeftoverOfMatch(s: string)
    requires MatchLen(s) != 0
    ensures HasMatch(RedactURL(s)) <==> RepeatsHere(s) || HasMatch(RedactURL(s[MatchLen(s)..]))
  {
    hide RedactURL, SchemeLen, UserinfoLen, Somewhere;
    var t, n := RedactURL(s), SchemeLen(s);
    MatchAlike(s);
    SchemeShape(t);
    forall i | 0 < i < n
      ensures !MatchesHere(t[i..])
    {
      NothingBeginsInScheme(t, i);
    }
    SomewhereAfter(MatchesHere, t, n);
    RedactMatch(s);
    SchemeShape(s);
    assert t[n..] == RedactURL(s[MatchLen(s)..]);
  }

  lemma RepeatsAfterMatch(s: string)
    requires MatchLen(s) != 0
    ensures RepeatsAtSign(s) <==> RepeatsHere(s) || RepeatsAtSign(s[MatchLen(s)..])
  {
    hide MatchLen, RepeatsHere, Somewhere;
    forall i | 0 < i < MatchLen(s)
      ensures !RepeatsHere(s[i..])
    {
      NothingInsideMatch(s, i);
    }
    SomewhereAfter(RepeatsHere, s, MatchLen(s));
  }

  /** The result still contains credentials exactly when some match was directly
      followed by another run ending in an at-sign. */
  lemma {:induction false} LeftoverExactly(s: string)
    ensures HasMatch(RedactURL(s)) <==> RepeatsAtSign(s)
    decreases |s|
  {
    hide RedactURL, MatchLen, UserinfoLen;
    HeadKept(s);
    if s == "" {
    } else if MatchLen(s) == 0 {
      StepAlike(s);
      RedactNext(s);
      assert RedactURL(s)[1..] == RedactURL(s[1..]);
      SomewhereStep(MatchesHere, RedactURL(s));
      SomewhereStep(RepeatsHere, s);
      LeftoverExactly(s[1..]);
    } else {
      LeftoverOfMatch(s);
      LeftoverExactly(s[MatchLen(s)..]);
      RepeatsAfterMatch(s);
    }
  }

  // --- where leftovers come from ------------------------------------------------

  lemma NoMatchInPrefix(s: string, i: nat)
    requires i <= |s| && MatchLen(s) == 0
    ensures MatchLen(s[..i]) == 0
  {
    hide MatchLen;
    if MatchLen(s[..i]) != 0 {
      MatchIsLocal(s[..i], s, MatchLen(s[..i]));
    }
  }

  lemma MatchInPrefix(s: string, i: nat)
    requires MatchLen(s) != 0 && MatchLen(s) <= i <= |s|
    ensures MatchLen(s[..i]) == MatchLen(s) && SchemeLen(s[..i]) == SchemeLen(s)
  {
    MatchIsLocal(s, s[..i], MatchLen(s));
    assert forall k :: 0 <= k < MatchLen(s) ==> s[..i][k] == s[k];
  }

  lemma PrefixTails(s: string, i: nat, m: nat)
    requires m <= i <= |s|
    ensures s[..i][m..] == s[m..][..i - m] && s[m..][i - m..] == s[i..]
    ensures s[..i][..m] == s[..m]
  {
  }

  /** Text in front of a match is rewritten as if it stood alone. */
  lemma {:induction false} SplitAtMatch(s: string, i: nat)
    requires MatchAt(s, i)
    ensures RedactURL(s) == RedactURL(s[..i]) + RedactURL(s[i..])
    decreases |s|
  {
    hide RedactURL, MatchLen, SchemeLen;
    var front := s[..i];
    if i == 0 {
      HeadKept(front);
      assert s[0..] == s;
    } else if MatchLen(s) == 0 {
      PrefixTails(s, i, 1);
      NoMatchInPrefix(s, i);
      RedactNext(s);
      RedactNext(front);
      SplitAtMatch(s[1..], i - 1);
      Regroup([s[0]], RedactURL(front[1..]), RedactURL(s[i..]));
    } else {
      var n, m := SchemeLen(s), MatchLen(s);
      assert s[0..] == s;
      MatchesAreDisjoint(s, 0, i);
      MatchShape(s);
      PrefixTails(s, i, m);
      PrefixTails(s, i, n);
      MatchInPrefix(s, i);
      RedactMatch(s);
      RedactMatch(front);
      SplitAtMatch(s[m..], i - m);
      Regroup(s[..n], RedactURL(front[m..]), RedactURL(s[i..]));
    }
  }

  lemma NoMatchInScheme(s: string, i: nat)
    requires 0 < i < SchemeLen(s)
    ensures i <= |s| && MatchLen(s[i..]) == 0
  {
    NothingBeginsInScheme(s, i);
  }

  /** Past its first character the result of a match holds that of the rest. */
  lemma PastMatch(s: string, n: nat, m: nat, j: nat)
    requires n == SchemeLen(s) && m == MatchLen(s) && m != 0
    requires 0 < j && MatchAt(RedactURL(s), j)
    ensures n <= j && MatchAt(RedactURL(s[m..]), j - n) && RedactURL(s)[j..] == RedactURL(s[m..])[j - n..]
  {
    hide RedactURL, MatchLen, SchemeLen;
    var t := RedactURL(s);
    MatchAlike(s);
    MatchShape(s);
    if j < n {
      NoMatchInScheme(t, j);
    } else {
      RedactMatch(s);
      SchemeShape(s);
      assert t[n..] == RedactURL(s[m..]);
      SliceOfSuffix(t, n, 0, j - n);
    }
  }

  /** A match left in the result comes from one that was followed by another run. */
  lemma {:induction false} MatchOrigin(s: string, j: nat) returns (i: nat)
    requires MatchAt(RedactURL(s), j)
    ensures At(RepeatsHere, s, i) && RedactURL(s)[j..] == RedactURL(s[i..])
    decreases |s|
  {
    hide RedactURL, MatchLen, SchemeLen, UserinfoLen;
    var t := RedactURL(s);
    HeadKept(s);
    assert t[0..] == t && s[0..] == s;
    if MatchLen(s) == 0 {
      StepAlike(s);
      RedactNext(s);
      assert t[1..] == RedactURL(s[1..]);
      SliceOfSuffix(t, 1, 0, j - 1);
      var k := MatchOrigin(s[1..], j - 1);
      SliceOfSuffix(s, 1, 0, k);
      i := k + 1;
    } else if j == 0 {
      MatchAlike(s);
      i := 0;
    } else {
      var n, m := SchemeLen(s), MatchLen(s);
      PastMatch(s, n, m, j);
      var k := MatchOrigin(s[m..], j - n);
      SliceOfSuffix(s, m, 0, k);
      i := m + k;
    }
  }

  // ---------------------------------------------------------------------
  // What the rewrite keeps
  // ---------------------------------------------------------------------

  /** Position `k` is userinfo, or its at-sign, of some match. */
  ghost predicate IsUserinfo(s: string, k: nat) {
    exists i :: MatchAt(s, i) && i + SchemeLen(s[i..]) <= k < i + MatchLen(s[i..])
  }

  ghost function Userinfo(s: string): set<nat> {
    set k: nat | k < |s| && IsUserinfo(s, k)
  }

  /** The characters from `k` on that are not at a dropped position, in order. */
  function Kept(s: string, dropped: set<nat>, k: nat): string
    requires k <= |s|
    decreases |s| - k
  {
    if k == |s| then ""
    else if k in dropped then Kept(s, dropped, k + 1)
    else [s[k]] + Kept(s, dropped, k + 1)
  }

  lemma {:induction false} KeptThrough(s: string, dropped: set<nat>, k: nat, j: nat)
    requires k <= j <= |s| && forall i: nat :: k <= i < j ==> i !in dropped
    ensures Kept(s, dropped, k) == s[k..j] + Kept(s, dropped, j)
    decreases j - k
  {
    if k == j {
      assert s[k..j] == "";
    } else {
      hide Kept;
      KeptHead(s, dropped, k);
      KeptThrough(s, dropped, k + 1, j);
      ConsSlice(s, k, j);
      Regroup([s[k]], s[k + 1..j], Kept(s, dropped, j));
    }
  }

  lemma KeptHead(s: string, dropped: set<nat>, k: nat)
    requires k < |s| && k !in dropped
    ensures Kept(s, dropped, k) == [s[k]] + Kept(s, dropped, k + 1)
  {
  }

  lemma {:induction false} DroppedThrough(s: string, dropped: set<nat>, k: nat, j: nat)
    requires k <= j <= |s| && forall i: nat :: k <= i < j ==> i in dropped
    ensures Kept(s, dropped, k) == Kept(s, dropped, j)
    decreases j - k
  {
    if k < j {
      DroppedThrough(s, dropped, k + 1, j);
    }
  }

  /** No match reaches across position `k`. */
  ghost predicate Boundary(s: string, k: nat) {
    forall i :: MatchAt(s, i) && i < k ==> i + MatchLen(s[i..]) <= k
  }

  lemma BoundaryAfterMatch(s: string, k: nat, m: nat)
    requires Boundary(s, k) && MatchAt(s, k) && m == MatchLen(s[k..])
    ensures Boundary(s, k + m)
  {
    forall i | MatchAt(s, i) && i < k + m
      ensures i + MatchLen(s[i..]) <= k + m
    {
      if k < i {
        MatchesAreDisjoint(s, k, i);
      }
    }
  }

  lemma UserinfoOfMatch(s: string, k: nat, n: nat, m: nat)
    requires Boundary(s, k) && MatchAt(s, k) && n == SchemeLen(s[k..]) && m == MatchLen(s[k..])
    ensures forall j: nat :: k <= j < k + n ==> j !in Userinfo(s)
    ensures forall j: nat :: k + n <= j < k + m ==> j in Userinfo(s)
  {
    forall j: nat | k <= j < k + n
      ensures j !in Userinfo(s)
    {
      if i :| MatchAt(s, i) && i + SchemeLen(s[i..]) <= j < i + MatchLen(s[i..]) {
        if k < i {
          MatchesAreDisjoint(s, k, i);
        }
      }
    }
  }

  lemma NoMatchAtBoundary(s: string, k: nat)
    requires Boundary(s, k) && k < |s| && MatchLen(s[k..]) == 0
    ensures Boundary(s, k + 1) && !IsUserinfo(s, k)
  {
  }

  lemma StepOverMatch(s: string, k: nat, n: nat, m: nat)
    requires k < |s| && m == MatchLen(s[k..]) && m != 0 && n == SchemeLen(s[k..])
    ensures RedactURL(s[k..]) == s[k..k + n] + RedactURL(s[k + m..])
  {
    SliceOfSuffix(s, k, n, m);
    RedactMatch(s[k..]);
  }

  lemma KeptStep(s: string, dropped: set<nat>, k: nat, n: nat, m: nat, rest: string)
    requires k + n <= k + m <= |s| && rest == Kept(s, dropped, k + m)
    requires forall i: nat :: k <= i < k + n ==> i !in dropped
    requires forall i: nat :: k + n <= i < k + m ==> i in dropped
    ensures s[k..k + n] + rest == Kept(s, dropped, k)
  {
    KeptThrough(s, dropped, k, k + n);
    DroppedThrough(s, dropped, k + n, k + m);
  }

  lemma KeptOverMatch(s: string, dropped: set<nat>, k: nat, n: nat, m: nat, end: nat, tail: string)
    requires Boundary(s, k) && MatchAt(s, k) && n == SchemeLen(s[k..]) && m == MatchLen(s[k..])
    requires end == k + m && tail == s[end..] && dropped == Userinfo(s) && RedactURL(tail) == Kept(s, dropped, end)
    ensures RedactURL(s[k..]) == Kept(s, dropped, k)
  {
    hide RedactURL, SchemeLen, Userinfo, Boundary, Kept;
    StepOverMatch(s, k, n, m);
    UserinfoOfMatch(s, k, n, m);
    KeptStep(s, dropped, k, n, m, RedactURL(tail));
  }

  lemma KeptOverNext(s: string, dropped: set<nat>, k: nat, tail: string)
    requires Boundary(s, k) && k < |s| && MatchLen(s[k..]) == 0
    requires tail == s[k + 1..] && dropped == Userinfo(s) && RedactURL(tail) == Kept(s, dropped, k + 1)
    ensures RedactURL(s[k..]) == Kept(s, dropped, k)
  {
    NoMatchAtBoundary(s, k);
    SliceOfSuffix(s, k, 0, 1);
    RedactNext(s[k..]);
  }

  lemma {:induction false} KeptFromBoundary(s: string, dropped: set<nat>, k: nat, rest: string)
    requires k <= |s| && Boundary(s, k) && dropped == Userinfo(s) && rest == s[k..]
    ensures RedactURL(rest) == Kept(s, dropped, k)
    decreases |s| - k
  {
    if k == |s| {
    } else if MatchLen(rest) == 0 {
      hide RedactURL, MatchLen, Boundary, Kept;
      var tail := s[k + 1..];
      NoMatchAtBoundary(s, k);
      KeptFromBoundary(s, dropped, k + 1, tail);
      KeptOverNext(s, dropped, k, tail);
    } else {
      hide RedactURL, SchemeLen, Boundary, Kept;
      var n, m := SchemeLen(rest), MatchLen(rest);
      var end := k + m;
      var tail := s[end..];
      BoundaryAfterMatch(s, k, m);
      KeptFromBoundary(s, dropped, end, tail);
      KeptOverMatch(s, dropped, k, n, m, end, tail);
    }
  }

  /** The scan removes the userinfo of every match there is, and nothing else;
      the rest stays in order. */
  lemma RemovesExactlyUserinfo(s: string)
    ensures RedactURL(s) == Kept(s, Userinfo(s), 0)
  {
    assert s[0..] == s;
    KeptFromBoundary(s, Userinfo(s), 0, s);
  }

  // --- schemes ---------------------------------------------------------------

  function Schemes(s: string): nat {
    if s == "" then 0 else (if SchemeLen(s) != 0 then 1 else 0) + Schemes(s[1..])
  }

  lemma {:induction false} SchemesAfter(s: string, m: nat)
    requires 0 < m <= |s| && forall i :: 0 < i < m ==> SchemeLen(s[i..]) == 0
    ensures Schemes(s) == (if SchemeLen(s) != 0 then 1 else 0) + Schemes(s[m..])
    decreases m
  {
    hide SchemeLen;
    if 1 < m {
      var u := s[1..];
      forall i | 0 <= i < m - 1
        ensures SchemeLen(u[i..]) == 0
      {
        SliceOfSuffix(s, 1, 0, i);
      }
      assert u[0..] == u;
      SchemesAfter(u, m - 1);
      SliceOfSuffix(s, 1, 0, m - 1);
    }
  }

  lemma SchemesPastMatch(s: string)
    requires MatchLen(s) != 0
    ensures Schemes(s) == 1 + Schemes(s[MatchLen(s)..])
  {
    hide SchemeLen, MatchLen, Schemes;
    MatchShape(s);
    forall i | 0 < i < MatchLen(s)
      ensures SchemeLen(s[i..]) == 0
    {
      NoSchemeInsideMatch(s, i);
    }
    SchemesAfter(s, MatchLen(s));
  }

  lemma SchemesPastScheme(t: string)
    requires SchemeLen(t) != 0
    ensures SchemeLen(t) <= |t| && Schemes(t) == 1 + Schemes(t[SchemeLen(t)..])
  {
    hide SchemeLen, Schemes;
    SchemeShape(t);
    forall i | 0 < i < SchemeLen(t)
      ensures SchemeLen(t[i..]) == 0
    {
      NothingBeginsInScheme(t, i);
    }
    SchemesAfter(t, SchemeLen(t));
  }

  /** The rewrite neither makes nor removes a scheme. */
  lemma {:induction false} SchemesKept(s: string)
    ensures Schemes(RedactURL(s)) == Schemes(s)
    decreases |s|
  {
    hide RedactURL, SchemeLen, MatchLen;
    HeadKept(s);
    if s == "" {
    } else if MatchLen(s) == 0 {
      StepAlike(s);
      SchemesKept(s[1..]);
      RedactNext(s);
      assert RedactURL(s)[1..] == RedactURL(s[1..]);
    } else {
      var rest := s[MatchLen(s)..];
      MatchAlike(s);
      MatchShape(s);
      SchemesPastMatch(s);
      SchemesKept(rest);
      SchemesPastScheme(RedactURL(s));
      RedactMatch(s);
      SchemeShape(s);
      assert RedactURL(s)[SchemeLen(s)..] == RedactURL(rest);
    }
  }

  // --- repetition -----------------------------------------------------------

  /** Text without a match is unchanged; any other gets shorter. */
  lemma {:induction false} ShrinksOrStays(s: string)
    ensures if HasMatch(s) then |RedactURL(s)| < |s| else RedactURL(s) == s
    decreases |s|
  {
    hide RedactURL, MatchLen, SchemeLen;
    HeadKept(s);
    if s == "" {
    } else if MatchLen(s) == 0 {
      SomewhereStep(MatchesHere, s);
      ShrinksOrStays(s[1..]);
      RedactNext(s);
      assert [s[0]] + s[1..] == s;
    } else {
      MatchShape(s);
      SchemeShape(s);
      assert s[0..] == s;
      assert At(MatchesHere, s, 0);
      ShrinksOrStays(s[MatchLen(s)..]);
      RedactMatch(s);
    }
  }

  /** Redacting once is enough exactly when no userinfo repeats the at-sign. */
  lemma IdempotentExactly(s: string)
    ensures RedactURL(RedactURL(s)) == RedactURL(s) <==> !RepeatsAtSign(s)
  {
    hide RedactURL, Somewhere;
    LeftoverExactly(s);
    ShrinksOrStays(RedactURL(s));
  }

  function RedactTimes(s: string, n: nat): string
    decreases n
  {
    if n == 0 then s else RedactTimes(RedactURL(s), n - 1)
  }

  /** Repeating the rewrite as often as the text is long reaches a text that is
      free of credentials. */
  lemma {:induction false} RepetitionCleans(s: string, n: nat)
    requires |s| <= n
    ensures !HasMatch(RedactTimes(s, n))
    decreases n
  {
    hide RedactURL, MatchLen;
    if n != 0 {
      ShrinksOrStays(s);
      if HasMatch(s) {
        RepetitionCleans(RedactURL(s), n - 1);
      } else {
        CleanStaysClean(s, n);
      }
    }
  }

  lemma {:induction false} CleanStaysClean(s: string, n: nat)
    requires !HasMatch(s)
    ensures RedactTimes(s, n) == s
  {
    if n != 0 {
      ShrinksOrStays(s);
      CleanStaysClean(s, n - 1);
    }
  }

  /** One pass can leave credentials behind. */
  lemma OnePassCanLeak()
    ensures RedactURL("http://a@b@c") == "http://b@c"
    ensures HasMatch("http://b@c")
  {
    var s := "http://a@b@c";
    var t := "http://b@c";
    ShortMatch(s);
    ShortMatch(t);
    assert s[9..] == "b@c";
    PassesOver(s[9..], 3);
    assert s[9..][3..] == "";
    RedactMatch(s);
    assert t[0..] == t && At(MatchesHere, t, 0);
  }

  lemma ShortMatch(s: string)
    requires 9 <= |s| && SchemeLen(s) == 7 && !Delimiter(s[7]) && s[8] == '@'
    ensures MatchLen(s) == 9
  {
    var u := s[7..];
    assert !Delimiter(u[0]) && Delimiter(u[1..][0]);
    assert Run(u) == 1;
  }
}
