/** The access log's argument pipeline: serialised input, stripped of control
    and direction characters, redacted, and cut to a bounded length. */
module RedactArgs {
  import opened RedactUrl
  import opened Sequences
  import opened Sanitize

  const MAX_ARGS := 512
  const ELLIPSIS := "..."

  datatype Serialized = Unserializable | Json(text: string)

  /** Go strings are bytes: the cut may fall inside a character. */
  function Cut(s: string): string {
    if MAX_ARGS < |s| then s[..MAX_ARGS] + ELLIPSIS else s
  }

  /** The bytes handed to the redaction. */
  function CleanBytes(text: string): string {
    Utf8(SanitizeLog(text))
  }

  function RedactArgs(input: Serialized): string {
    match input
    case Unserializable => "<unserializable>"
    case Json(text) => Cut(RedactURL(CleanBytes(text)))
  }

  /** Stripping keeps the other characters in order. */
  lemma {:induction false} StrippingKeepsOrder(s: string, stripped: set<nat>, k: nat)
    requires k <= |s| && forall i: nat :: i < |s| ==> (i in stripped <==> StrippedFromLog(s[i]))
    ensures SanitizeLog(s[k..]) == Kept(s, stripped, k)
    decreases |s| - k
  {
    if k < |s| {
      StrippingKeepsOrder(s, stripped, k + 1);
      assert s[k..][1..] == s[k + 1..];
    }
  }

  // ---------------------------------------------------------------------
  // Bounded length
  // ---------------------------------------------------------------------

  lemma LineIsBounded(input: Serialized)
    ensures |RedactArgs(input)| <= 515
    ensures input.Json? && |RedactURL(CleanBytes(input.text))| <= 512 ==>
              RedactArgs(input) == RedactURL(CleanBytes(input.text))
  {
    assert |"<unserializable>"| == 16;
  }

  // ---------------------------------------------------------------------
  // No stripped character survives
  // ---------------------------------------------------------------------

  function Begins(w: string): string -> bool {
    s => w <= s
  }

  /** The bytes `w` occur in `s`. */
  ghost predicate Occurs(w: string, s: string) {
    Somewhere(Begins(w), s)
  }

  lemma OccursInTail(w: string, s: string, k: nat)
    requires k <= |s| && Occurs(w, s[k..])
    ensures Occurs(w, s)
  {
    var i :| At(Begins(w), s[k..], i);
    SliceOfSuffix(s, k, 0, i);
    assert At(Begins(w), s, k + i);
  }

  lemma LeadInsideCharacter(c: char, d: char, rest: string, i: nat)
    requires 0 < i < |Utf8Char(d)|
    ensures !Begins(Utf8Char(c))((Utf8Char(d) + rest)[i..])
  {
    Utf8Shape(c);
    Utf8Shape(d);
    var u := (Utf8Char(d) + rest)[i..];
    assert u[0] == Utf8Char(d)[i];
  }

  /** UTF-8 is self-synchronising: a character's bytes occur in the encoding of a
      text only where the character does. */
  lemma {:induction false} BytesComeFromCharacter(c: char, s: string)
    requires Occurs(Utf8Char(c), Utf8(s))
    ensures c in s
  {
    if s != "" {
      var w, d, rest := Utf8Char(c), Utf8Char(s[0]), Utf8(s[1..]);
      forall i | 0 < i < |d|
        ensures !Begins(w)((d + rest)[i..])
      {
        LeadInsideCharacter(c, s[0], rest, i);
      }
      SomewhereAfter(Begins(w), d + rest, |d|);
      if w <= d + rest {
        Utf8PrefixFree(c, s[0], rest);
      } else {
        assert (d + rest)[|d|..] == rest;
        BytesComeFromCharacter(c, s[1..]);
      }
    }
  }

  /** Letters and marks of a scheme. */
  predicate InScheme(c: char) {
    c == 'h' || c == 't' || c == 'p' || c == 's' || c == ':' || c == '/'
  }

  lemma SchemeCharacters(s: string)
    requires SchemeLen(s) != 0
    ensures forall k :: 0 <= k < SchemeLen(s) ==> InScheme(s[k])
  {
  }

  lemma NotFromScheme(w: string, t: string, i: nat)
    requires w != "" && !InScheme(w[0]) && i < SchemeLen(t)
    ensures !Begins(w)(t[i..])
  {
    hide SchemeLen;
    SchemeCharacters(t);
    SchemeShape(t);
    assert t[i..][0] == t[i];
  }

  /** The redaction joins no bytes into a sequence that was not there before, as
      long as the sequence has no 'h' and cannot begin inside a scheme. */
  lemma {:induction false} RedactionMakesNothing(w: string, t: string)
    requires w != "" && 'h' !in w && !InScheme(w[0])
    requires Occurs(w, RedactURL(t))
    ensures Occurs(w, t)
    decreases |t|
  {
    hide RedactURL, SchemeLen, MatchLen, UserinfoLen, InScheme;
    var u := RedactURL(t);
    HeadKept(t);
    if t == "" {
    } else if MatchLen(t) == 0 {
      RedactNext(t);
      assert u[1..] == RedactURL(t[1..]);
      SomewhereStep(Begins(w), u);
      SomewhereStep(Begins(w), t);
      if w <= u {
        BeginsInput(w, t);
      } else {
        RedactionMakesNothing(w, t[1..]);
      }
    } else {
      var n, m := SchemeLen(t), MatchLen(t);
      RedactMatch(t);
      MatchAlike(t);
      MatchShape(t);
      SchemeShape(t);
      forall i | 0 <= i < n
        ensures !Begins(w)(u[i..])
      {
        NotFromScheme(w, u, i);
      }
      assert u[0..] == u;
      SomewhereAfter(Begins(w), u, n);
      assert u[n..] == RedactURL(t[m..]);
      RedactionMakesNothing(w, t[m..]);
      OccursInTail(w, t, m);
    }
  }

  /** Nor does the cut. */
  lemma CutMakesNothing(w: string, s: string)
    requires w != "" && '.' !in w && Occurs(w, Cut(s))
    ensures Occurs(w, s)
  {
    if MAX_ARGS < |s| {
      var t := s[..MAX_ARGS] + ELLIPSIS;
      var i :| At(Begins(w), t, i);
      assert forall k :: 0 <= k < |w| ==> w[k] == t[i..][k] == t[i + k];
      assert w[|w| - 1] in w;
      assert t[i + |w| - 1] != '.';
      assert forall k :: MAX_ARGS <= k < |t| ==> t[k] == '.';
      assert forall k :: 0 <= k < |w| ==> w[k] == s[i..][k];
      assert At(Begins(w), s, i);
    }
  }

  lemma StrippedBytes(c: char)
    requires StrippedFromLog(c)
    ensures var w := Utf8Char(c);
            w != "" && 'h' !in w && '.' !in w && !InScheme(w[0])
  {
    var w := Utf8Char(c);
    Utf8Shape(c);
    if Control(c) {
      assert w == [Byte(c as int)];
    } else {
      assert w[0] == Byte(0xE2);
    }
  }

  /** The line is short, and no character the log strips has its bytes anywhere in
      it, even though redaction and the cut come after the stripping and work on
      bytes. */
  lemma LineIsClean(input: Serialized, c: char)
    requires StrippedFromLog(c)
    ensures |RedactArgs(input)| <= 515
    ensures input.Unserializable? ==> RedactArgs(input) == "<unserializable>"
    ensures !Occurs(Utf8Char(c), RedactArgs(input))
  {
    var w, line := Utf8Char(c), RedactArgs(input);
    LineIsBounded(input);
    StrippedBytes(c);
    if Occurs(w, line) {
      if input.Json? {
        var clean := CleanBytes(input.text);
        CutMakesNothing(w, RedactURL(clean));
        RedactionMakesNothing(w, clean);
        BytesComeFromCharacter(c, SanitizeLog(input.text));
        LogIsClean(input.text);
      } else {
        AsciiIsItself(line);
        BytesComeFromCharacter(c, line);
      }
    }
  }

  // ---------------------------------------------------------------------
  // Credentials in the line
  // ---------------------------------------------------------------------

  /** A match that ends before the cut. */
  ghost predicate MatchWithin(s: string, i: int) {
    At(MatchesHere, s, i) && i + MatchLen(s[i..]) <= MAX_ARGS
  }

  lemma MatchBeforeCut(s: string, i: nat)
    requires MAX_ARGS < |s| && At(MatchesHere, Cut(s), i)
    ensures MatchWithin(s, i)
  {
    hide MatchLen;
    var t := Cut(s);
    var m := MatchLen(t[i..]);
    MatchShape(t[i..]);
    assert t[i..][m - 1] == t[i + m - 1] == '@';
    assert forall k :: MAX_ARGS <= k < |t| ==> t[k] == '.';
    assert i + m <= MAX_ARGS;
    assert forall k :: 0 <= k < m ==> t[i..][k] == s[i..][k];
    MatchIsLocal(t[i..], s[i..], m);
  }

  lemma MatchSurvivesCut(s: string, i: nat)
    requires MAX_ARGS < |s| && MatchWithin(s, i)
    ensures At(MatchesHere, Cut(s), i)
  {
    hide MatchLen;
    var t, m := Cut(s), MatchLen(s[i..]);
    assert forall k :: 0 <= k < m ==> t[i..][k] == s[i..][k];
    MatchIsLocal(s[i..], t[i..], m);
  }

  /** The cut neither makes a match nor keeps one that it cuts off. */
  lemma CutMatches(s: string)
    ensures HasMatch(Cut(s)) <==> exists i :: MatchWithin(s, i)
  {
    hide MatchLen;
    if |s| <= MAX_ARGS {
      if i :| At(MatchesHere, s, i) {
        assert MatchWithin(s, i);
      }
    } else {
      if i :| At(MatchesHere, Cut(s), i) {
        MatchBeforeCut(s, i);
      }
      if i :| MatchWithin(s, i) {
        MatchSurvivesCut(s, i);
      }
    }
  }

  /** The text repeats an at-sign at `i`, early enough for what is left of it to
      come before the cut. */
  ghost predicate LeaksAt(s: string, i: int) {
    && At(RepeatsHere, s, i)
    && |RedactURL(s[..i])| + SchemeLen(s[i..]) + UserinfoLen(s[i..][MatchLen(s[i..])..]) <= MAX_ARGS
  }

  lemma LeakSurvives(s: string, i: nat)
    requires LeaksAt(s, i)
    ensures MatchWithin(RedactURL(s), |RedactURL(s[..i])|)
  {
    hide RedactURL, SchemeLen, MatchLen, UserinfoLen;
    SplitAtMatch(s, i);
    MatchAlike(s[i..]);
    var t, j := RedactURL(s), |RedactURL(s[..i])|;
    assert t[j..] == RedactURL(s[i..]);
  }

  lemma LeakCameFrom(s: string, j: nat) returns (i: nat)
    requires MatchWithin(RedactURL(s), j)
    ensures LeaksAt(s, i)
  {
    hide RedactURL, SchemeLen, MatchLen, UserinfoLen;
    i := MatchOrigin(s, j);
    SplitAtMatch(s, i);
    MatchAlike(s[i..]);
  }

  /** The line holds a whole match exactly when the stripped text has one that is
      directly followed by another run ending in an at-sign, and what the single
      redaction pass leaves up to that at-sign fits before the cut; so none at all
      if no userinfo of the stripped text repeats the at-sign. */
  lemma LineLeaksExactly(text: string)
    ensures HasMatch(RedactArgs(Json(text))) <==> exists i :: LeaksAt(CleanBytes(text), i)
    ensures !RepeatsAtSign(CleanBytes(text)) ==> !HasMatch(RedactArgs(Json(text)))
  {
    hide RedactURL, MatchLen, UserinfoLen;
    var s := CleanBytes(text);
    CutMatches(RedactURL(s));
    if j :| MatchWithin(RedactURL(s), j) {
      var i := LeakCameFrom(s, j);
    }
    if i :| LeaksAt(s, i) {
      LeakSurvives(s, i);
    }
    LeftoverExactly(s);
  }

  // --- userinfo without its at-sign -----------------------------------------------

  /** A character of userinfo stands in front of the cut, whether or not the
      at-sign that ends it does too. */
  ghost predicate ShowsUserinfo(redacted: string) {
    exists k: nat :: k < MAX_ARGS && k < |redacted| && IsUserinfo(redacted, k)
  }

  ghost predicate ShowsAt(s: string, i: int) {
    At(RepeatsHere, s, i) && |RedactURL(s[..i])| + SchemeLen(s[i..]) < MAX_ARGS
  }

  /** Up to the cut the line is the redacted text. */
  lemma LineBegins(text: string)
    ensures var line, redacted := RedactArgs(Json(text)), RedactURL(CleanBytes(text));
            forall k :: 0 <= k < MAX_ARGS && k < |redacted| ==> k < |line| && line[k] == redacted[k]
  {
  }

  /** The line shows credentials, be they cut off or not, exactly when the stripped
      text has a match that is directly followed by another run ending in an
      at-sign, and the scheme that is left of it ends before the cut. */
  lemma LineShowsExactly(text: string)
    ensures ShowsUserinfo(RedactURL(CleanBytes(text))) <==> exists i :: ShowsAt(CleanBytes(text), i)
  {
    hide RedactURL, SchemeLen, MatchLen, UserinfoLen;
    var s := CleanBytes(text);
    var t := RedactURL(s);
    if ShowsUserinfo(t) {
      var k: nat :| k < MAX_ARGS && k < |t| && IsUserinfo(t, k);
      var j :| MatchAt(t, j) && j + SchemeLen(t[j..]) <= k < j + MatchLen(t[j..]);
      var i := MatchOrigin(s, j);
      SplitAtMatch(s, i);
      MatchAlike(s[i..]);
      assert ShowsAt(s, i);
    }
    if i :| ShowsAt(s, i) {
      var j := |RedactURL(s[..i])|;
      SplitAtMatch(s, i);
      MatchAlike(s[i..]);
      assert t[j..] == RedactURL(s[i..]);
      MatchShape(t[j..]);
      assert IsUserinfo(t, j + SchemeLen(t[j..]));
    }
  }

  lemma MatchHasAtSign(s: string)
    requires MatchLen(s) != 0
    ensures '@' in s
  {
    MatchShape(s);
  }

  lemma NoAtSignNoMatch(s: string)
    requires '@' !in s
    ensures !HasMatch(s)
  {
    hide MatchLen;
    if i :| At(MatchesHere, s, i) {
      MatchHasAtSign(s[i..]);
    }
  }

  /** ASCII that the log keeps. */
  predicate Plain(s: string) {
    forall k :: 0 <= k < |s| ==> s[k] < '\U{80}' && !StrippedFromLog(s[k])
  }

  lemma PlainIsItself(s: string)
    requires Plain(s)
    ensures SanitizeLog(s) == s && Utf8(s) == s
  {
    CleanIsKept(s);
    AsciiIsItself(s);
  }

  lemma PlainConcat(a: string, b: string)
    requires Plain(a) && Plain(b)
    ensures Plain(a + b)
  {
    hide StrippedFromLog;
  }

  lemma PlainWords()
    ensures Plain("http://a@") && Plain("@b") && Plain("a@b") && Plain("b")
  {
  }

  /** Both happen: a second userinfo whose at-sign falls behind the cut fills the
      line to its end, and yet the line holds no match. */
  lemma CutOffCredentials(userinfo: string)
    requires |userinfo| == 505 && Undelimited(userinfo) && 'h' !in userinfo && Plain(userinfo)
    ensures var text := "http://a@" + (userinfo + "@b");
            && RedactArgs(Json(text)) == "http://" + userinfo + "..."
            && !HasMatch(RedactArgs(Json(text)))
            && ShowsUserinfo(RedactURL(CleanBytes(text)))
  {
    hide RedactURL, SanitizeLog, Utf8, ShowsUserinfo, Somewhere, Plain, RepeatsHere, SchemeLen;
    var tail := userinfo + "@b";
    var text := "http://a@" + tail;
    PlainWords();
    PlainConcat(userinfo, "@b");
    PlainConcat("http://a@", tail);
    PlainIsItself(text);
    RepeatedIsLeft(userinfo);
    CutAtSign(userinfo);
    NoAtSignNoMatch("http://" + userinfo + "...");
    ShownAtStart(text);
    LineShowsExactly(text);
  }

  lemma CutAtSign(userinfo: string)
    requires |userinfo| == 505 && Undelimited(userinfo)
    ensures Cut("http://" + (userinfo + "@b")) == "http://" + userinfo + "..."
    ensures '@' !in "http://" + userinfo + "..."
  {
    var t := "http://" + (userinfo + "@b");
    assert t[..MAX_ARGS] == "http://" + userinfo;
  }

  lemma ShownAtStart(s: string)
    requires s != "" && RepeatsHere(s)
    ensures ShowsAt(s, 0)
  {
    hide RedactURL;
    assert s[..0] == "" && s[0..] == s;
    HeadKept("");
    SchemeShape(s);
  }

  lemma RepeatedIsLeft(userinfo: string)
    requires userinfo != "" && Undelimited(userinfo) && 'h' !in userinfo
    ensures var text := "http://a@" + (userinfo + "@b");
            && SchemeLen(text) == 7 && RepeatsHere(text)
            && RedactURL(text) == "http://" + (userinfo + "@b")
  {
    hide RedactURL;
    var tail := userinfo + "@b";
    var text := "http://a@" + tail;
    ShortMatch(text);
    RedactMatch(text);
    assert text[9..] == tail && text[..7] == "http://";
    RunIs(userinfo, tail);
    PassesOver(tail, |tail|);
    assert tail[..|tail|] == tail && tail[|tail|..] == "";
    HeadKept("");
  }

  // ---------------------------------------------------------------------
  // Why stripping comes first
  // ---------------------------------------------------------------------

  lemma {:induction false} CleanIsKept(s: string)
    requires forall i :: 0 <= i < |s| ==> !StrippedFromLog(s[i])
    ensures SanitizeLog(s) == s
  {
    if s != "" {
      CleanIsKept(s[1..]);
      assert [s[0]] + s[1..] == s;
    }
  }

  lemma {:induction false} AsciiIsItself(s: string)
    requires forall i :: 0 <= i < |s| ==> s[i] < '\U{80}'
    ensures Utf8(s) == s
  {
    if s != "" {
      AsciiIsItself(s[1..]);
      assert [s[0]] + s[1..] == s;
    }
  }

  function Scheme(secure: bool): string {
    if secure then "https://" else "http://"
  }

  /** Credentials with a character put into their scheme at `k`. */
  function Hidden(c: char, secure: bool, k: nat): string
    requires k <= |Scheme(secure)|
  {
    Scheme(secure)[..k] + ([c] + (Scheme(secure)[k..] + "a@b"))
  }

  lemma StrippedAlone(c: char)
    requires StrippedFromLog(c)
    ensures SanitizeLog([c]) == ""
  {
    OneCharacter(c);
  }

  lemma SchemeParts(secure: bool, k: nat)
    requires k <= |Scheme(secure)|
    ensures 7 <= |Scheme(secure)| <= 8 && '@' !in Scheme(secure)
    ensures Plain(Scheme(secure)) && Plain(Scheme(secure)[..k]) && Plain(Scheme(secure)[k..])
    ensures 0 < k ==> 'h' !in Scheme(secure)[1..k] && 'h' !in Scheme(secure)[k..]
  {
    hide StrippedFromLog;
    assert Plain(Scheme(secure)) by {
      PlainSchemes();
    }
  }

  lemma PlainSchemes()
    ensures Plain("http://") && Plain("https://")
  {
  }

  lemma StripOne(front: string, c: char, back: string)
    requires Plain(front) && StrippedFromLog(c) && Plain(back)
    ensures SanitizeLog(front + ([c] + back)) == front + back
  {
    hide SanitizeLog, StrippedFromLog, Plain;
    LogConcat(front, [c] + back);
    LogConcat([c], back);
    StrippedAlone(c);
    PlainIsItself(front);
    PlainIsItself(back);
    assert "" + back == back;
  }

  lemma StrippingShows(c: char, secure: bool, k: nat)
    requires StrippedFromLog(c) && k <= |Scheme(secure)|
    ensures SanitizeLog(Hidden(c, secure, k)) == Scheme(secure) + "a@b"
  {
    hide SanitizeLog, StrippedFromLog, Scheme, Plain;
    var front, back := Scheme(secure)[..k], Scheme(secure)[k..];
    SchemeParts(secure, k);
    PlainWords();
    PlainConcat(back, "a@b");
    StripOne(front, c, back + "a@b");
    Regroup(front, back, "a@b");
    assert front + back == Scheme(secure);
  }

  lemma SchemeFirst(secure: bool, rest: string)
    ensures var n := |Scheme(secure)|;
            SchemeLen(Scheme(secure) + rest) == n && (Scheme(secure) + rest)[n..] == rest
  {
  }

  /** A userinfo of so many characters behind the scheme is matched. */
  lemma MatchFirst(secure: bool, userinfo: string, host: string)
    requires userinfo != "" && Undelimited(userinfo) && 'h' !in host
    ensures var text := Scheme(secure) + (userinfo + "@" + host);
            HasMatch(text) && RedactURL(text) == Scheme(secure) + host
  {
    hide RedactURL, Scheme, SchemeLen, MatchLen, Run;
    var n, m, rest := |Scheme(secure)|, |userinfo| + 1, userinfo + "@" + host;
    var text := Scheme(secure) + rest;
    var end := n + m;
    SchemeFirst(secure, rest);
    SchemeParts(secure, 0);
    RunIs(userinfo, rest);
    MatchBehind(text, n, m);
    assert text[0..] == text && At(MatchesHere, text, 0);
    RedactMatch(text);
    assert text[..n] == Scheme(secure) && text[end..] == host;
    NoMatchWithoutScheme(host);
  }

  lemma MatchBehind(text: string, n: nat, m: nat)
    requires n != 0 && SchemeLen(text) == n <= |text| && UserinfoLen(text[n..]) == m != 0
    ensures MatchLen(text) == n + m
  {
  }

  lemma NoMatchWithoutScheme(s: string)
    requires 'h' !in s
    ensures RedactURL(s) == s
  {
    PassesOver(s, |s|);
    assert s[..|s|] == s && s[|s|..] == "";
  }

  lemma NoMatchIsUntouched(text: string)
    requires text != "" && MatchLen(text) == 0 && 'h' !in text[1..]
    ensures RedactURL(text) == text
  {
    hide RedactURL, MatchLen;
    RedactNext(text);
    NoMatchWithoutScheme(text[1..]);
    assert [text[0]] + text[1..] == text;
  }

  lemma HiddenHead(c: char, secure: bool, k: nat)
    requires 0 < k <= |Scheme(secure)| && c != 'h'
    ensures var text := Hidden(c, secure, k);
            text != "" && text[k] == c && 'h' !in text[1..]
  {
    hide Scheme;
    SchemeParts(secure, k);
    var front, back := Scheme(secure)[1..k], Scheme(secure)[k..] + "a@b";
    assert 'h' !in back;
    assert Hidden(c, secure, k)[1..] == front + ([c] + back);
  }

  /** Inside the scheme the character hides the credentials, and so it does right
      behind it if it is white space. */
  lemma HiddenIsUntouched(c: char, secure: bool, k: nat)
    requires StrippedFromLog(c) && 0 < k <= |Scheme(secure)|
    requires k == |Scheme(secure)| ==> Space(c)
    ensures RedactURL(Hidden(c, secure, k)) == Hidden(c, secure, k)
  {
    hide RedactURL;
    var text := Hidden(c, secure, k);
    HiddenHead(c, secure, k);
    if k == |Scheme(secure)| {
      SchemeFirst(secure, [c] + "a@b");
      assert text == Scheme(secure) + ([c] + "a@b");
    } else {
      SplitScheme(c, secure, k);
    }
    NoMatchIsUntouched(text);
  }

  lemma SplitScheme(c: char, secure: bool, k: nat)
    requires !InScheme(c) && 0 < k < |Scheme(secure)|
    ensures SchemeLen(Hidden(c, secure, k)) == 0
  {
    var text := Hidden(c, secure, k);
    assert text[k] == c && (secure && 4 < k ==> text[4] == 's');
    if SchemeLen(text) != 0 {
      SchemeCharacters(text);
    }
  }

  /** In front of the scheme, or behind it as a part of the userinfo, it does not. */
  lemma ExposedIsRedacted(c: char, secure: bool, k: nat)
    requires StrippedFromLog(c)
    requires k == 0 || (k == |Scheme(secure)| && !Space(c))
    ensures SanitizeLog(RedactURL(Hidden(c, secure, k))) == Scheme(secure) + "b"
  {
    hide RedactURL, SanitizeLog, Scheme, StrippedFromLog, Plain, Somewhere;
    var text, clean := Hidden(c, secure, k), Scheme(secure) + "b";
    SchemeParts(secure, k);
    PlainWords();
    PlainConcat(Scheme(secure), "b");
    PlainIsItself(clean);
    if k == 0 {
      var shown := Scheme(secure) + ("a" + "@" + "b");
      MatchFirst(secure, "a", "b");
      assert text == [c] + shown && text[1..] == shown;
      StrippedIsNoH(c);
      NoMatchWithoutH(text);
      RedactNext(text);
      LogConcat([c], clean);
      StrippedAlone(c);
    } else {
      StrippedIsNoH(c);
      MatchFirst(secure, [c] + "a", "b");
      assert text == Scheme(secure) + ([c] + "a" + "@" + "b");
    }
  }

  lemma StrippedIsNoH(c: char)
    requires StrippedFromLog(c)
    ensures !InScheme(c) && c != '@'
  {
  }

  /** Redacting before stripping would not do: exactly if the stripped character
      stands inside the scheme, or is white space right behind it, it hides the
      credentials from the redaction, and stripping it then shows them. In the
      pipeline's order they are always removed. */
  lemma OrderMatters(c: char, secure: bool, k: nat)
    requires StrippedFromLog(c) && k <= |Scheme(secure)|
    ensures HasMatch(SanitizeLog(RedactURL(Hidden(c, secure, k)))) <==>
            0 < k < |Scheme(secure)| || (k == |Scheme(secure)| && Space(c))
    ensures RedactArgs(Json(Hidden(c, secure, k))) == Scheme(secure) + "b"
  {
    hide RedactURL, SanitizeLog, Utf8, Somewhere, StrippedFromLog, Scheme, Hidden, Plain;
    var shown := Scheme(secure) + "a@b";
    assert "a" + "@" + "b" == "a@b";
    SchemeParts(secure, k);
    PlainWords();
    PlainConcat(Scheme(secure), "a@b");
    PlainIsItself(shown);
    StrippingShows(c, secure, k);
    MatchFirst(secure, "a", "b");
    if k == 0 || (k == |Scheme(secure)| && !Space(c)) {
      ExposedIsRedacted(c, secure, k);
      NoAtSignNoMatch(Scheme(secure) + "b");
    } else {
      HiddenIsUntouched(c, secure, k);
    }
  }
}
