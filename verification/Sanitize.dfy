/** Stripping control and direction characters, and UTF-8. */
module Sanitize {

  /** Direction marks, embeddings and isolates. */
  predicate Bidi(c: char) {
    || '\U{200E}' <= c <= '\U{200F}'
    || '\U{202A}' <= c <= '\U{202E}'
    || '\U{2066}' <= c <= '\U{2069}'
  }

  predicate Control(c: char) {
    c < ' ' || c == '\U{7F}'
  }

  predicate StrippedFromLog(c: char) {
    c != '\t' && (Control(c) || Bidi(c))
  }

  predicate StrippedFromOutput(c: char) {
    c != '\t' && c != '\n' && c != '\r' && (Control(c) || Bidi(c))
  }

  function SanitizeLog(s: string): string {
    if s == "" then "" else (if StrippedFromLog(s[0]) then "" else [s[0]]) + SanitizeLog(s[1..])
  }

  function SanitizeOutput(s: string): string {
    if s == "" then "" else (if StrippedFromOutput(s[0]) then "" else [s[0]]) + SanitizeOutput(s[1..])
  }

  lemma {:induction false} LogIsClean(s: string)
    ensures forall c :: c in SanitizeLog(s) <==> c in s && !StrippedFromLog(c)
  {
    if s != "" {
      LogIsClean(s[1..]);
      assert s == [s[0]] + s[1..];
    }
  }

  /** What the tools strip from their output the log strips as well, and more:
      sanitising a sanitised output for the log is sanitising the original. */
  lemma {:induction false} LogAfterOutput(s: string)
    ensures SanitizeLog(SanitizeOutput(s)) == SanitizeLog(s)
  {
    if s != "" {
      var rest := SanitizeOutput(s[1..]);
      LogAfterOutput(s[1..]);
      if !StrippedFromOutput(s[0]) {
        assert ([s[0]] + rest)[1..] == rest;
      } else {
        assert "" + rest == rest;
      }
    }
  }

  // --- by code point -----------------------------------------------------------

  /** The control characters below the space, DEL, and the direction marks, by
      number. */
  predicate Unwanted(code: int) {
    || code < 0x20 || code == 0x7F
    || code == 0x200E || code == 0x200F
    || 0x202A <= code <= 0x202E
    || 0x2066 <= code <= 0x2069
  }

  predicate KeptInOutput(code: int) {
    code == 9 || code == 10 || code == 13 || !Unwanted(code)
  }

  /** Exactly which characters the log keeps: the tab and all that are wanted. */
  lemma LogKeepsExactly(s: string, c: char)
    ensures c in SanitizeLog(s) <==> c in s && (c as int == 9 || !Unwanted(c as int))
  {
    LogIsClean(s);
  }

  /** And which a tool's output keeps: the line feed and the carriage return too. */
  lemma {:induction false} OutputKeepsExactly(s: string, c: char)
    ensures c in SanitizeOutput(s) <==> c in s && KeptInOutput(c as int)
  {
    if s != "" {
      OutputKeepsExactly(s[1..], c);
      assert s == [s[0]] + s[1..];
    }
  }

  /** Both take a text piece by piece, so what they keep stays in order, as often as
      it was there. */
  lemma {:induction false} LogConcat(a: string, b: string)
    ensures SanitizeLog(a + b) == SanitizeLog(a) + SanitizeLog(b)
  {
    if a == "" {
      assert a + b == b;
    } else {
      assert (a + b)[1..] == a[1..] + b;
      LogConcat(a[1..], b);
    }
  }

  lemma {:induction false} OutputConcat(a: string, b: string)
    ensures SanitizeOutput(a + b) == SanitizeOutput(a) + SanitizeOutput(b)
  {
    if a == "" {
      assert a + b == b;
    } else {
      assert (a + b)[1..] == a[1..] + b;
      OutputConcat(a[1..], b);
    }
  }

  lemma OneCharacter(c: char)
    ensures SanitizeLog([c]) == if c as int == 9 || !Unwanted(c as int) then [c] else ""
    ensures SanitizeOutput([c]) == if KeptInOutput(c as int) then [c] else ""
  {
    assert [c][1..] == "";
  }

  /** Exactly the texts without such characters come through unchanged. */
  lemma OutputUnchanged(s: string)
    ensures SanitizeOutput(s) == s <==> forall k :: 0 <= k < |s| ==> KeptInOutput(s[k] as int)
  {
    if SanitizeOutput(s) == s {
      forall k | 0 <= k < |s|
        ensures KeptInOutput(s[k] as int)
      {
        OutputKeepsExactly(s, s[k]);
      }
    }
    if forall k :: 0 <= k < |s| ==> KeptInOutput(s[k] as int) {
      WantedIsKept(s);
    }
  }

  lemma {:induction false} WantedIsKept(s: string)
    requires forall k :: 0 <= k < |s| ==> KeptInOutput(s[k] as int)
    ensures SanitizeOutput(s) == s
  {
    if s != "" {
      WantedIsKept(s[1..]);
      assert s == [s[0]] + s[1..];
    }
  }

  // --- UTF-8 (sections 3 and 4 of RFC 3629) -----------------------------------

  /** A byte, as the character with that code. */
  function Byte(n: int): (b: char)
    requires 0 <= n < 256
    ensures b as int == n
  {
    n as char
  }

  function Utf8Char(c: char): (w: string)
    ensures 1 <= |w| <= 4
  {
    var n := c as int;
    if n < 0x80 then [Byte(n)]
    else if n < 0x800 then [Byte(0xC0 + n / 64), Byte(0x80 + n % 64)]
    else if n < 0x10000 then [Byte(0xE0 + n / 4096), Byte(0x80 + n / 64 % 64), Byte(0x80 + n % 64)]
    else [Byte(0xF0 + n / 262144), Byte(0x80 + n / 4096 % 64), Byte(0x80 + n / 64 % 64), Byte(0x80 + n % 64)]
  }

  function Utf8(s: string): string {
    if s == "" then "" else Utf8Char(s[0]) + Utf8(s[1..])
  }

  predicate Continues(b: char) {
    0x80 <= b as int < 0xC0
  }

  lemma Utf8Shape(c: char)
    ensures var w := Utf8Char(c);
            !Continues(w[0]) && forall k :: 0 < k < |w| ==> Continues(w[k])
  {
  }

  /** The encoding is the shortest, and its first byte is in the range of its
      length. */
  lemma Utf8Shortest(c: char)
    ensures var w, code := Utf8Char(c), c as int;
            if code < 0x80 then w == [c]
            else if code < 0x800 then |w| == 2 && 0xC2 <= w[0] as int <= 0xDF
            else if code < 0x10000 then |w| == 3 && 0xE0 <= w[0] as int <= 0xEF
            else |w| == 4 && 0xF0 <= w[0] as int <= 0xF4
  {
  }

  /** The first byte tells how many follow. */
  lemma LeadTellsLength(c: char, d: char)
    requires Utf8Char(c)[0] == Utf8Char(d)[0]
    ensures |Utf8Char(c)| == |Utf8Char(d)|
  {
  }

  /** The code point the bytes stand for. */
  function CodePoint(w: string): int
    requires 1 <= |w| <= 4
  {
    var b0 := w[0] as int;
    if |w| == 1 then b0
    else if |w| == 2 then (b0 - 0xC0) * 64 + (w[1] as int - 0x80)
    else if |w| == 3 then (b0 - 0xE0) * 4096 + (w[1] as int - 0x80) * 64 + (w[2] as int - 0x80)
    else (b0 - 0xF0) * 262144 + (w[1] as int - 0x80) * 4096 + (w[2] as int - 0x80) * 64 + (w[3] as int - 0x80)
  }

  lemma CodePointOfUtf8(c: char)
    ensures CodePoint(Utf8Char(c)) == c as int
  {
    var n := c as int;
    assert n / 64 == n / 4096 * 64 + n / 64 % 64;
    assert n / 4096 == n / 262144 * 64 + n / 4096 % 64;
  }

  /** Where one character's bytes begin, only that character's bytes begin. */
  lemma Utf8PrefixFree(c: char, d: char, rest: string)
    requires Utf8Char(c) <= Utf8Char(d) + rest
    ensures c == d
  {
    var v, w := Utf8Char(c), Utf8Char(d);
    assert v[0] == (w + rest)[0] == w[0];
    LeadTellsLength(c, d);
    assert v == (w + rest)[..|v|] == w;
    CodePointOfUtf8(c);
    CodePointOfUtf8(d);
  }
}
