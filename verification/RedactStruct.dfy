/** Redaction driven by struct annotations: fields marked secret are masked,
    nested structs are redacted in turn, unexported fields are dropped. */
module RedactStruct {
  import opened Sequences
  import opened Wrappers

  // ---------------------------------------------------------------------
  // Http(s) URLs with a host
  // ---------------------------------------------------------------------

  /** `tail` is the path, query and fragment. */
  datatype Url = Url(secure: bool, user: Option<string>, host: string, tail: string)

  function Lead(secure: bool): string {
    if secure then "https://" else "http://"
  }

  function Lower(c: char): char {
    if 'A' <= c <= 'Z' then (c as int + 32) as char else c
  }

  function LowerAll(s: string): (r: string)
    ensures |r| == |s|
  {
    seq(|s|, i requires 0 <= i < |s| => Lower(s[i]))
  }

  /** The scheme is recognised in any case. */
  predicate HasLead(secure: bool, s: string) {
    |Lead(secure)| <= |s| && LowerAll(s[..|Lead(secure)|]) == Lead(secure)
  }

  predicate EndsAuthority(c: char) {
    c == '/' || c == '?' || c == '#'
  }

  function AuthorityLen(s: string): (n: nat)
    ensures n <= |s|
    ensures forall k :: 0 <= k < n ==> !EndsAuthority(s[k])
    ensures n < |s| ==> EndsAuthority(s[n])
  {
    if s == "" || EndsAuthority(s[0]) then 0 else 1 + AuthorityLen(s[1..])
  }

  /** Position of the last at-sign, if there is one. */
  function LastAt(s: string): (r: Option<nat>)
    ensures r.Some? ==> r.value < |s| && s[r.value] == '@' && '@' !in s[r.value + 1..]
    ensures r.None? ==> '@' !in s
  {
    if s == "" then None
    else if s[|s| - 1] == '@' then Some(|s| - 1)
    else
      var r := LastAt(s[..|s| - 1]);
      assert s == s[..|s| - 1] + [s[|s| - 1]];
      assert r.Some? ==> s[r.value + 1..] == s[..|s| - 1][r.value + 1..] + [s[|s| - 1]];
      r
  }

  function ParseAfterScheme(secure: bool, s: string): Option<Url> {
    var n := AuthorityLen(s);
    var authority := s[..n];
    var at := LastAt(authority);
    var host := if at.Some? then authority[at.value + 1..] else authority;
    if host == "" then None
    else Some(Url(secure, if at.Some? then Some(authority[..at.value]) else None, host, s[n..]))
  }

  function ParseUrl(s: string): Option<Url> {
    if HasLead(false, s) then ParseAfterScheme(false, s[|Lead(false)|..])
    else if HasLead(true, s) then ParseAfterScheme(true, s[|Lead(true)|..])
    else None
  }

  function AfterScheme(u: Url): string {
    (if u.user.Some? then u.user.value + "@" else "") + u.host + u.tail
  }

  function Print(u: Url): string {
    Lead(u.secure) + AfterScheme(u)
  }

  ghost predicate Proper(u: Url) {
    && u.host != "" && (forall c :: c in u.host ==> c != '@' && !EndsAuthority(c))
    && (u.tail != "" ==> EndsAuthority(u.tail[0]))
  }

  lemma AuthorityOf(host: string, tail: string)
    requires forall c :: c in host ==> !EndsAuthority(c)
    requires tail != "" ==> EndsAuthority(tail[0])
    ensures AuthorityLen(host + tail) == |host|
  {
    var s, n := host + tail, AuthorityLen(host + tail);
    assert forall k :: 0 <= k < |host| ==> s[k] == host[k] && host[k] in host;
    assert tail != "" ==> s[|host|] == tail[0];
  }

  lemma ParseIsProper(secure: bool, s: string)
    requires ParseAfterScheme(secure, s).Some?
    ensures Proper(ParseAfterScheme(secure, s).value)
    ensures AfterScheme(ParseAfterScheme(secure, s).value) == s
  {
    hide LastAt, Lead;
    var u := ParseAfterScheme(secure, s).value;
    var n := AuthorityLen(s);
    var authority := s[..n];
    HostIsProper(authority);
    AuthorityIsClear(s);
    hide *;
    assert s == authority + s[n..];
  }

  lemma AuthorityIsClear(s: string)
    ensures forall c :: c in s[..AuthorityLen(s)] ==> !EndsAuthority(c)
    ensures s[AuthorityLen(s)..] != "" ==> EndsAuthority(s[AuthorityLen(s)..][0])
  {
  }

  lemma HostIsProper(authority: string)
    ensures var at := LastAt(authority);
            && (at.Some? ==> authority == authority[..at.value] + "@" + authority[at.value + 1..])
            && (at.Some? ==> forall c :: c in authority[at.value + 1..] ==> c != '@' && c in authority)
  {
  }

  /** Parsing loses nothing but the case of the scheme: printing gives the text
      back with that in lower case. */
  lemma PrintUndoesParse(s: string)
    requires ParseUrl(s).Some?
    ensures var u := ParseUrl(s).value;
            var n := |Lead(u.secure)|;
            Proper(u) && n <= |s| && Print(u) == LowerAll(s[..n]) + s[n..]
  {
    hide Lead, ParseAfterScheme, Proper, AfterScheme, LowerAll;
    var secure := !HasLead(false, s);
    ParseIsProper(secure, s[|Lead(secure)|..]);
    SecureIsKept(secure, s[|Lead(secure)|..]);
  }

  lemma SecureIsKept(secure: bool, s: string)
    requires ParseAfterScheme(secure, s).Some?
    ensures ParseAfterScheme(secure, s).value.secure == secure
  {
  }

  lemma ParseBare(u: Url)
    requires Proper(u) && u.user == None
    ensures ParseAfterScheme(u.secure, u.host + u.tail) == Some(u)
  {
    var s := u.host + u.tail;
    AuthorityOf(u.host, u.tail);
    assert s[..|u.host|] == u.host && s[|u.host|..] == u.tail;
    assert '@' !in u.host;
  }

  lemma LeadsDiffer(rest: string)
    ensures !HasLead(false, Lead(true) + rest)
  {
    var s := Lead(true) + rest;
    assert s[..|Lead(false)|][4] == 's' && Lead(false)[4] == ':';
    assert LowerAll(s[..|Lead(false)|])[4] == 's';
  }

  lemma LeadIsLead(secure: bool, rest: string)
    ensures HasLead(secure, Lead(secure) + rest)
  {
    assert (Lead(secure) + rest)[..|Lead(secure)|] == Lead(secure);
    assert LowerAll(Lead(secure)) == Lead(secure);
  }

  /** A URL printed without userinfo is read back as it was. */
  lemma ParseUndoesPrint(u: Url)
    requires Proper(u) && u.user == None
    ensures ParseUrl(Print(u)) == Some(u)
  {
    hide Lead, ParseAfterScheme, Proper, HasLead;
    var s, rest := Print(u), u.host + u.tail;
    assert AfterScheme(u) == rest by {
      assert "" + u.host == u.host;
    }
    ParseBare(u);
    LeadsDiffer(rest);
    LeadIsLead(u.secure, rest);
    assert s[|Lead(u.secure)|..] == rest;
  }

  // --- what is read, as plain text -------------------------------------------------

  predicate SameButCase(s: string, lower: string) {
    && |s| == |lower|
    && forall k :: 0 <= k < |s| ==>
         s[k] == lower[k] || ('A' <= s[k] <= 'Z' && s[k] as int + 32 == lower[k] as int)
  }

  /** No slash, question mark or number sign. */
  predicate InAuthority(s: string) {
    forall k :: 0 <= k < |s| ==> s[k] != '/' && s[k] != '?' && s[k] != '#'
  }

  function SchemeText(secure: bool): string {
    if secure then "https://" else "http://"
  }

  function Before(user: Option<string>): string {
    if user.Some? then user.value + "@" else ""
  }

  /** The text is a scheme in any case, perhaps a userinfo and an at-sign, a host
      without one, and nothing or what a slash, question mark or number sign
      begins. A userinfo may hold at-signs itself. */
  ghost predicate Reads(s: string, u: Url) {
    var n := |SchemeText(u.secure)|;
    && n <= |s| && SameButCase(s[..n], SchemeText(u.secure))
    && s[n..] == Before(u.user) + u.host + u.tail
    && (u.user.Some? ==> InAuthority(u.user.value))
    && u.host != "" && InAuthority(u.host) && '@' !in u.host
    && (u.tail != "" ==> u.tail[0] == '/' || u.tail[0] == '?' || u.tail[0] == '#')
  }

  lemma LeadExactly(secure: bool, s: string)
    ensures HasLead(secure, s) <==>
            |SchemeText(secure)| <= |s| && SameButCase(s[..|SchemeText(secure)|], SchemeText(secure))
  {
    var n := |Lead(secure)|;
    if n <= |s| {
      LowerExactly(s[..n], Lead(secure));
    }
  }

  lemma LowerExactly(s: string, lower: string)
    requires forall k :: 0 <= k < |lower| ==> !('A' <= lower[k] <= 'Z')
    ensures LowerAll(s) == lower <==> SameButCase(s, lower)
  {
    if LowerAll(s) == lower {
      assert forall k :: 0 <= k < |s| ==> Lower(s[k]) == lower[k];
    }
    if SameButCase(s, lower) {
      forall k | 0 <= k < |s|
        ensures Lower(s[k]) == lower[k]
      {
      }
    }
  }

  lemma OneLead(s: string)
    ensures !(HasLead(false, s) && HasLead(true, s))
  {
    if |Lead(true)| <= |s| {
      assert LowerAll(s[..|Lead(false)|])[4] == Lower(s[4]) == LowerAll(s[..|Lead(true)|])[4];
    }
  }

  lemma {:induction false} LastAtIs(s: string, k: nat)
    requires k < |s| && s[k] == '@' && '@' !in s[k + 1..]
    ensures LastAt(s) == Some(k)
  {
    var n := |s| - 1;
    if k < n {
      assert s[n] == s[k + 1..][n - k - 1];
      assert s[..n][k + 1..] == s[k + 1..][..n - k - 1];
      LastAtIs(s[..n], k);
    }
  }

  lemma AuthorityOfText(authority: string, tail: string)
    requires InAuthority(authority)
    requires tail != "" ==> tail[0] == '/' || tail[0] == '?' || tail[0] == '#'
    ensures AuthorityLen(authority + tail) == |authority|
  {
    forall c | c in authority
      ensures !EndsAuthority(c)
    {
      var k :| 0 <= k < |authority| && authority[k] == c;
    }
    AuthorityOf(authority, tail);
  }

  lemma AuthorityParts(user: Option<string>, host: string)
    requires (user.Some? ==> InAuthority(user.value)) && InAuthority(host) && '@' !in host
    ensures var authority := Before(user) + host;
            && InAuthority(authority)
            && LastAt(authority) == (if user.Some? then Some(|user.value|) else None)
            && (user.Some? ==> authority[..|user.value|] == user.value && authority[|user.value| + 1..] == host)
            && (user.None? ==> authority == host)
  {
    var authority := Before(user) + host;
    if user.Some? {
      assert authority[|user.value| + 1..] == host;
      LastAtIs(authority, |user.value|);
    } else {
      assert authority == host;
    }
  }

  lemma AfterSchemeIsParsed(u: Url)
    requires (u.user.Some? ==> InAuthority(u.user.value)) && u.host != "" && InAuthority(u.host) && '@' !in u.host
    requires u.tail != "" ==> u.tail[0] == '/' || u.tail[0] == '?' || u.tail[0] == '#'
    ensures ParseAfterScheme(u.secure, Before(u.user) + u.host + u.tail) == Some(u)
  {
    hide LastAt, AuthorityLen, InAuthority;
    var authority := Before(u.user) + u.host;
    var rest := authority + u.tail;
    AuthorityParts(u.user, u.host);
    AuthorityOfText(authority, u.tail);
    assert rest[..|authority|] == authority && rest[|authority|..] == u.tail;
  }

  /** Whatever is of this form is read as such; userinfo and host are parted at the
      last at-sign. */
  lemma ReadsIsParsed(s: string, u: Url)
    requires Reads(s, u)
    ensures ParseUrl(s) == Some(u)
  {
    hide HasLead, ParseAfterScheme, SameButCase, InAuthority, Before;
    LeadExactly(u.secure, s);
    OneLead(s);
    LeadIsText(u.secure);
    AfterSchemeIsParsed(u);
  }

  lemma AfterSchemeReads(secure: bool, rest: string)
    requires ParseAfterScheme(secure, rest).Some?
    ensures var u := ParseAfterScheme(secure, rest).value;
            && u.secure == secure && rest == Before(u.user) + u.host + u.tail
            && (u.user.Some? ==> InAuthority(u.user.value))
            && u.host != "" && InAuthority(u.host) && '@' !in u.host
            && (u.tail != "" ==> u.tail[0] == '/' || u.tail[0] == '?' || u.tail[0] == '#')
  {
    hide LastAt, Lead, InAuthority;
    var n := AuthorityLen(rest);
    var authority := rest[..n];
    var at := LastAt(authority);
    ParseIsProper(secure, rest);
    SecureIsKept(secure, rest);
    AuthorityIsText(rest);
    HostIsText(ParseAfterScheme(secure, rest).value.host);
    hide AuthorityLen;
    if at.Some? {
      PartInAuthority(authority, at.value);
    }
  }

  lemma AuthorityIsText(s: string)
    ensures InAuthority(s[..AuthorityLen(s)])
  {
  }

  lemma HostIsText(host: string)
    requires forall c :: c in host ==> !EndsAuthority(c)
    ensures InAuthority(host)
  {
    assert forall k :: 0 <= k < |host| ==> host[k] in host;
  }

  lemma PartInAuthority(authority: string, k: nat)
    requires k <= |authority| && InAuthority(authority)
    ensures InAuthority(authority[..k])
  {
  }

  lemma ParsedReads(s: string)
    requires ParseUrl(s).Some?
    ensures Reads(s, ParseUrl(s).value)
  {
    hide HasLead, ParseAfterScheme, SameButCase, InAuthority, Before;
    var secure := !HasLead(false, s);
    LeadExactly(secure, s);
    LeadIsText(secure);
    AfterSchemeReads(secure, s[|Lead(secure)|..]);
  }

  lemma LeadIsText(secure: bool)
    ensures Lead(secure) == SchemeText(secure)
  {
  }

  /** Exactly which texts are read as which URL. */
  lemma ReadsExactly(s: string, u: Url)
    ensures ParseUrl(s) == Some(u) <==> Reads(s, u)
  {
    if ParseUrl(s) == Some(u) {
      ParsedReads(s);
    }
    if Reads(s, u) {
      ReadsIsParsed(s, u);
    }
  }

  // ---------------------------------------------------------------------
  // Types and values
  // ---------------------------------------------------------------------

  /** `TOther` stands for every type whose values are neither structs, nor the
      predeclared strings, nor held in an empty interface. */
  datatype Type = TString | TOther(name: string) | TAny | TStruct(fields: seq<FieldType>)

  datatype FieldType = FieldType(typ: Type, exported: bool, secret: bool)

  /** The empty payload of another type stands for its zero value. */
  datatype Value =
    | VString(s: string)
    | VOther(name: string, payload: string)
    | VNil
    | VAny(dynamic: Type, content: Value)
    | VStruct(fields: seq<Value>)

  predicate HasType(v: Value, t: Type)
    decreases v
  {
    match t
    case TString => v.VString?
    case TOther(name) => v.VOther? && v.name == name
    case TAny => v.VNil? || (v.VAny? && v.dynamic != TAny && HasType(v.content, v.dynamic))
    case TStruct(fields) =>
      v.VStruct? && |v.fields| == |fields| &&
      forall i :: 0 <= i < |fields| ==> HasType(v.fields[i], fields[i].typ)
  }

  function Zero(t: Type): (v: Value)
    ensures HasType(v, t)
    decreases t
  {
    match t
    case TString => VString("")
    case TOther(name) => VOther(name, "")
    case TAny => VNil
    case TStruct(fields) =>
      VStruct(seq(|fields|, i requires 0 <= i < |fields| => Zero(fields[i].typ)))
  }

  // ---------------------------------------------------------------------
  // Masking
  // ---------------------------------------------------------------------

  const MARKER := "<redacted>"

  /** What an empty interface holds is looked at, not the interface. */
  function Content(v: Value): Value {
    if v.VAny? then v.content else v
  }

  /** An http(s) URL without its userinfo, or the marker for anything else. */
  function RedactValue(v: Value): string {
    if v.VString? && ParseUrl(v.s).Some? then Print(ParseUrl(v.s).value.(user := None)) else MARKER
  }

  /** A secret that is such a text shows all of it but the userinfo; every other
      one shows nothing. */
  lemma MaskByText(v: Value)
    ensures forall u :: v.VString? && Reads(v.s, u) ==>
              RedactValue(v) == SchemeText(u.secure) + u.host + u.tail
    ensures (forall u :: v.VString? ==> !Reads(v.s, u)) ==> RedactValue(v) == "<redacted>"
  {
    forall u | v.VString? && Reads(v.s, u)
      ensures RedactValue(v) == SchemeText(u.secure) + u.host + u.tail
    {
      ReadsIsParsed(v.s, u);
      assert "" + u.host == u.host;
      Regroup(SchemeText(u.secure), u.host, u.tail);
    }
    if v.VString? && ParseUrl(v.s).Some? {
      ParsedReads(v.s);
    }
  }

  /** Credentials in front of a host disappear, at-signs of their own included. */
  lemma CredentialsAreDropped(secure: bool, user: string, host: string, tail: string)
    requires InAuthority(user) && host != "" && InAuthority(host) && '@' !in host
    requires tail != "" ==> tail[0] == '/' || tail[0] == '?' || tail[0] == '#'
    ensures RedactValue(VString(SchemeText(secure) + (user + "@" + host + tail))) == SchemeText(secure) + host + tail
    ensures RedactValue(VString(SchemeText(secure) + (host + tail))) == SchemeText(secure) + host + tail
  {
    var n := |SchemeText(secure)|;
    var full, bare := SchemeText(secure) + (user + "@" + host + tail), SchemeText(secure) + (host + tail);
    assert full[..n] == SchemeText(secure) && full[n..] == user + "@" + host + tail;
    assert bare[..n] == SchemeText(secure) && bare[n..] == host + tail;
    assert "" + host == host;
    assert Reads(full, Url(secure, Some(user), host, tail));
    assert Reads(bare, Url(secure, None, host, tail));
    MaskByText(VString(full));
    MaskByText(VString(bare));
  }

  /** The masked string if the field can hold a string, and zero otherwise. */
  function Mask(t: Type, v: Value): Value {
    match t
    case TString => VString(RedactValue(Content(v)))
    case TAny => VAny(TString, VString(RedactValue(Content(v))))
    case _ => Zero(t)
  }

  function RedactField(f: FieldType, v: Value): Value
    requires HasType(v, f.typ)
    decreases f.typ, 1
  {
    if !f.exported then Zero(f.typ)
    else if f.secret then Mask(f.typ, v)
    else RedactStruct(f.typ, v)
  }

  /** A redacted copy of a struct; any other value as it is. */
  function RedactStruct(t: Type, v: Value): Value
    requires HasType(v, t)
    decreases t, 0
  {
    if t.TStruct? then
      VStruct(seq(|t.fields|, i requires 0 <= i < |t.fields| => RedactField(t.fields[i], v.fields[i])))
    else v
  }

  // ---------------------------------------------------------------------
  // The code's loop
  // ---------------------------------------------------------------------

  /** Assigning a field of the copy: the type must fit, or it would panic. */
  method SetField(out: seq<Value>, fields: seq<FieldType>, i: nat, v: Value) returns (r: seq<Value>)
    requires i < |out| == |fields| && HasType(v, fields[i].typ)
    ensures r == out[i := v]
  {
    r := out[i := v];
  }

  /** Starts from the zero struct and sets the exported fields one by one. */
  method RedactStructInPlace(t: Type, v: Value) returns (r: Value)
    requires HasType(v, t)
    ensures HasType(r, t)
    ensures r == RedactStruct(t, v)
    decreases t
  {
    if !t.TStruct? {
      return v;
    }
    var out := Zero(t).fields;
    for i := 0 to |t.fields|
      invariant |out| == |t.fields|
      invariant forall k :: 0 <= k < |t.fields| ==> HasType(out[k], t.fields[k].typ)
      invariant forall k :: 0 <= k < i ==> out[k] == RedactField(t.fields[k], v.fields[k])
      invariant forall k :: i <= k < |t.fields| ==> out[k] == Zero(t.fields[k].typ)
    {
      var f := t.fields[i];
      if !f.exported {
        continue;
      }
      if f.secret {
        var redacted := RedactValue(Content(v.fields[i]));
        if f.typ.TString? {
          out := SetField(out, t.fields, i, VString(redacted));
        } else if f.typ.TAny? {
          out := SetField(out, t.fields, i, VAny(TString, VString(redacted)));
        } else {
          out := SetField(out, t.fields, i, Zero(f.typ));
        }
      } else if f.typ.TStruct? {
        var nested := RedactStructInPlace(f.typ, v.fields[i]);
        out := SetField(out, t.fields, i, nested);
      } else {
        out := SetField(out, t.fields, i, v.fields[i]);
      }
    }
    r := VStruct(out);
  }

  /** The copy has the type of the original. */
  lemma {:induction false} TypePreserved(t: Type, v: Value)
    requires HasType(v, t)
    ensures HasType(RedactStruct(t, v), t)
    decreases t
  {
    if t.TStruct? {
      forall i | 0 <= i < |t.fields|
        ensures HasType(RedactField(t.fields[i], v.fields[i]), t.fields[i].typ)
      {
        TypePreserved(t.fields[i].typ, v.fields[i]);
      }
    }
  }

  // ---------------------------------------------------------------------
  // What the copy reveals
  // ---------------------------------------------------------------------

  /** All of a secret that may be seen: an http(s) URL up to its userinfo. */
  function Visible(v: Value): Option<Url> {
    if v.VString? && ParseUrl(v.s).Some? then Some(ParseUrl(v.s).value.(user := None)) else None
  }

  ghost predicate SameVisibleField(f: FieldType, v: Value, w: Value)
    requires HasType(v, f.typ) && HasType(w, f.typ)
    decreases f.typ, 1
  {
    if !f.exported then true
    else if f.secret then f.typ.TString? || f.typ.TAny? ==> Visible(Content(v)) == Visible(Content(w))
    else SameVisible(f.typ, v, w)
  }

  /** The values differ at most in unexported fields, in secrets that are not
      http(s) URLs, and in the userinfo of secrets that are. */
  ghost predicate SameVisible(t: Type, v: Value, w: Value)
    requires HasType(v, t) && HasType(w, t)
    decreases t, 0
  {
    if t.TStruct? then
      forall i :: 0 <= i < |t.fields| ==> SameVisibleField(t.fields[i], v.fields[i], w.fields[i])
    else v == w
  }

  lemma MaskShowsVisible(v: Value, w: Value)
    ensures RedactValue(v) == RedactValue(w) <==> Visible(v) == Visible(w)
  {
    MaskIsParsed(v);
    MaskIsParsed(w);
  }

  /** A masked URL is the URL without userinfo, and the marker is no URL. */
  lemma MaskIsParsed(v: Value)
    ensures ParseUrl(RedactValue(v)) == Visible(v)
    ensures Visible(v).None? ==> RedactValue(v) == MARKER
  {
    hide ParseUrl, Print, Proper;
    if Visible(v).Some? {
      PrintUndoesParse(v.s);
      BareIsProper(ParseUrl(v.s).value);
      ParseUndoesPrint(Visible(v).value);
    } else {
      MarkerIsNoUrl();
    }
  }

  lemma MaskTwice(v: Value)
    ensures RedactValue(VString(RedactValue(v))) == RedactValue(v)
  {
    hide ParseUrl, Print;
    MaskIsParsed(v);
  }

  lemma BareIsProper(u: Url)
    requires Proper(u)
    ensures Proper(u.(user := None))
  {
  }

  lemma MarkerIsNoUrl()
    ensures ParseUrl(MARKER) == None
  {
    assert LowerAll(MARKER[..7])[0] == '<' && LowerAll(MARKER[..8])[0] == '<';
  }

  /** The redacted copies of two values are equal exactly when the values agree
      on all that may be seen: nothing more of a secret shows, and nothing else is
      lost. */
  lemma {:induction false} RevealsExactlyVisible(t: Type, v: Value, w: Value)
    requires HasType(v, t) && HasType(w, t)
    ensures RedactStruct(t, v) == RedactStruct(t, w) <==> SameVisible(t, v, w)
    decreases t, 0
  {
    if t.TStruct? {
      forall i | 0 <= i < |t.fields|
        ensures RedactField(t.fields[i], v.fields[i]) == RedactField(t.fields[i], w.fields[i])
            <==> SameVisibleField(t.fields[i], v.fields[i], w.fields[i])
      {
        FieldRevealsExactlyVisible(t.fields[i], v.fields[i], w.fields[i]);
      }
      var a, b := RedactStruct(t, v).fields, RedactStruct(t, w).fields;
      assert forall i :: 0 <= i < |t.fields| ==>
        a[i] == RedactField(t.fields[i], v.fields[i]) && b[i] == RedactField(t.fields[i], w.fields[i]);
      if RedactStruct(t, v) == RedactStruct(t, w) {
        assert forall i :: 0 <= i < |t.fields| ==> a[i] == b[i];
        assert SameVisible(t, v, w);
      }
      if SameVisible(t, v, w) {
        assert a == b;
      }
    }
  }

  lemma {:induction false} FieldRevealsExactlyVisible(f: FieldType, v: Value, w: Value)
    requires HasType(v, f.typ) && HasType(w, f.typ)
    ensures RedactField(f, v) == RedactField(f, w) <==> SameVisibleField(f, v, w)
    decreases f.typ, 1
  {
    if f.exported && f.secret {
      MaskShowsVisible(Content(v), Content(w));
    } else if f.exported {
      RevealsExactlyVisible(f.typ, v, w);
    }
  }

  /** Redacting a copy again changes nothing. */
  lemma {:induction false} Idempotent(t: Type, v: Value)
    requires HasType(v, t)
    ensures HasType(RedactStruct(t, v), t)
    ensures RedactStruct(t, RedactStruct(t, v)) == RedactStruct(t, v)
    decreases t, 0
  {
    TypePreserved(t, v);
    if t.TStruct? {
      var r := RedactStruct(t, v);
      forall i | 0 <= i < |t.fields|
        ensures RedactField(t.fields[i], r.fields[i]) == r.fields[i]
      {
        FieldIdempotent(t.fields[i], v.fields[i]);
      }
      assert RedactStruct(t, r).fields == r.fields;
    }
  }

  lemma {:induction false} FieldIdempotent(f: FieldType, v: Value)
    requires HasType(v, f.typ)
    ensures HasType(RedactField(f, v), f.typ)
    ensures RedactField(f, RedactField(f, v)) == RedactField(f, v)
    decreases f.typ, 1
  {
    if f.exported && f.secret {
      MaskTwice(Content(v));
    } else if f.exported {
      Idempotent(f.typ, v);
    }
  }

  // ---------------------------------------------------------------------
  // What is copied through unchanged
  // ---------------------------------------------------------------------

  /** A text that masking leaves alone: the marker, or a URL without userinfo whose
      scheme is in lower case. */
  predicate Harmless(s: string) {
    || s == MARKER
    || (ParseUrl(s).Some? && ParseUrl(s).value.user == None && Lead(ParseUrl(s).value.secure) <= s)
  }

  lemma HarmlessExactly(s: string)
    ensures RedactValue(VString(s)) == s <==> Harmless(s)
  {
    hide Lead, ParseAfterScheme, AfterScheme, HasLead, LowerAll;
    MarkerIsNoUrl();
    if ParseUrl(s).Some? {
      var u := ParseUrl(s).value;
      var n := |Lead(u.secure)|;
      PrintUndoesParse(s);
      BareIsProper(u);
      ParseUndoesPrint(u.(user := None));
      LeadIsLowered(s, u.secure);
      if u.user == None {
        assert u.(user := None) == u;
        assert s == s[..n] + s[n..];
        assert Print(u)[..n] == Lead(u.secure);
      }
    }
  }

  lemma LeadIsLowered(s: string, secure: bool)
    ensures |Lead(secure)| <= |s| && HasLead(secure, s) ==> LowerAll(s[..|Lead(secure)|]) == Lead(secure)
  {
  }

  predicate UntouchedField(f: FieldType, v: Value)
    requires HasType(v, f.typ)
    decreases f.typ, 1
  {
    if !f.exported then v == Zero(f.typ)
    else if f.secret then
      match f.typ
      case TString => Harmless(v.s)
      case TAny => v.VAny? && v.dynamic == TString && v.content.VString? && Harmless(v.content.s)
      case _ => v == Zero(f.typ)
    else Untouched(f.typ, v)
  }

  /** Unexported fields and secrets of other types are zero, secret texts harmless,
      and so on inside nested structs. */
  predicate Untouched(t: Type, v: Value)
    requires HasType(v, t)
    decreases t, 0
  {
    t.TStruct? ==> forall i :: 0 <= i < |t.fields| ==> UntouchedField(t.fields[i], v.fields[i])
  }

  /** Exactly which values come through unchanged. */
  lemma {:induction false} UnchangedExactly(t: Type, v: Value)
    requires HasType(v, t)
    ensures RedactStruct(t, v) == v <==> Untouched(t, v)
    decreases t, 0
  {
    if t.TStruct? {
      forall i | 0 <= i < |t.fields|
        ensures RedactField(t.fields[i], v.fields[i]) == v.fields[i] <==> UntouchedField(t.fields[i], v.fields[i])
      {
        FieldUnchangedExactly(t.fields[i], v.fields[i]);
      }
      var r := RedactStruct(t, v);
      assert forall i :: 0 <= i < |t.fields| ==> r.fields[i] == RedactField(t.fields[i], v.fields[i]);
      if Untouched(t, v) {
        assert r.fields == v.fields;
      }
    }
  }

  lemma {:induction false} FieldUnchangedExactly(f: FieldType, v: Value)
    requires HasType(v, f.typ)
    ensures RedactField(f, v) == v <==> UntouchedField(f, v)
    decreases f.typ, 1
  {
    if f.exported && f.secret {
      if f.typ.TString? {
        HarmlessExactly(v.s);
      } else if f.typ.TAny? && v.VAny? && v.dynamic.TString? {
        HarmlessExactly(v.content.s);
      }
    } else if f.exported {
      UnchangedExactly(f.typ, v);
    }
  }

  /** The type has a value besides its zero. */
  predicate HasChoice(t: Type)
    decreases t
  {
    t.TStruct? ==> exists i :: 0 <= i < |t.fields| && HasChoice(t.fields[i].typ)
  }

  /** No field, at any depth, could lose something: those that are unexported or
      secret can hold nothing. */
  predicate CopiesThrough(t: Type)
    decreases t
  {
    t.TStruct? ==> forall i :: 0 <= i < |t.fields| ==> FieldCopiesThrough(t.fields[i])
  }

  predicate FieldCopiesThrough(f: FieldType)
    decreases f
  {
    if f.exported && !f.secret then CopiesThrough(f.typ) else !HasChoice(f.typ)
  }

  const CHOSEN := "x"

  /** Some value of the type other than its zero. */
  function Choice(t: Type): (v: Value)
    requires HasChoice(t)
    ensures HasType(v, t) && v != Zero(t)
    decreases t
  {
    match t
    case TString => VString(CHOSEN)
    case TOther(name) => VOther(name, "x")
    case TAny => VAny(TString, VString("x"))
    case TStruct(fields) =>
      var i := FirstChoice(fields, 0);
      var v := VStruct(Zero(t).fields[i := Choice(fields[i].typ)]);
      assert v.fields[i] != Zero(t).fields[i];
      v
  }

  function FirstChoice(fields: seq<FieldType>, from: nat): (i: nat)
    requires exists i :: from <= i < |fields| && HasChoice(fields[i].typ)
    ensures i < |fields| && HasChoice(fields[i].typ)
    decreases |fields| - from
  {
    if HasChoice(fields[from].typ) then from else FirstChoice(fields, from + 1)
  }

  lemma {:induction false} NoChoiceIsZero(t: Type, v: Value)
    requires HasType(v, t) && !HasChoice(t)
    ensures v == Zero(t)
    decreases t
  {
    forall i | 0 <= i < |t.fields|
      ensures v.fields[i] == Zero(t).fields[i]
    {
      NoChoiceIsZero(t.fields[i].typ, v.fields[i]);
    }
    assert v.fields == Zero(t).fields;
  }

  lemma {:induction false} CopiedValue(t: Type, v: Value)
    requires HasType(v, t) && CopiesThrough(t)
    ensures Untouched(t, v)
    decreases t
  {
    if t.TStruct? {
      forall i | 0 <= i < |t.fields|
        ensures UntouchedField(t.fields[i], v.fields[i])
      {
        var f := t.fields[i];
        assert FieldCopiesThrough(f);
        if f.exported && !f.secret {
          CopiedValue(f.typ, v.fields[i]);
        } else {
          NoChoiceIsZero(f.typ, v.fields[i]);
        }
      }
    }
  }

  lemma {:induction false} TouchedValue(t: Type) returns (v: Value)
    requires !CopiesThrough(t)
    ensures HasType(v, t) && !Untouched(t, v)
    decreases t
  {
    var i :| 0 <= i < |t.fields| && !FieldCopiesThrough(t.fields[i]);
    var f := t.fields[i];
    var w;
    if f.exported && !f.secret {
      w := TouchedValue(f.typ);
    } else if f.exported && f.typ.TAny? {
      w := VNil;
    } else {
      w := Choice(f.typ);
      ChosenTextIsTouched();
    }
    assert !UntouchedField(f, w);
    v := VStruct(Zero(t).fields[i := w]);
    assert v.fields[i] == w;
  }

  lemma ChosenTextIsTouched()
    ensures !Harmless(CHOSEN)
  {
  }

  /** Exactly which types come through unchanged, whatever their values. */
  lemma AlwaysUnchangedExactly(t: Type)
    ensures (forall v :: HasType(v, t) ==> RedactStruct(t, v) == v) <==> CopiesThrough(t)
  {
    if CopiesThrough(t) {
      forall v | HasType(v, t)
        ensures RedactStruct(t, v) == v
      {
        CopiedValue(t, v);
        UnchangedExactly(t, v);
      }
    } else {
      var v := TouchedValue(t);
      UnchangedExactly(t, v);
    }
  }

  // --- what zero is ---------------------------------------------------------------

  /** Nothing in it: empty texts and payloads, no interface content. */
  predicate IsBlank(v: Value)
    decreases v
  {
    match v
    case VString(s) => s == ""
    case VOther(_, payload) => payload == ""
    case VNil => true
    case VAny(_, _) => false
    case VStruct(fields) => forall i :: 0 <= i < |fields| ==> IsBlank(fields[i])
  }

  lemma {:induction false} ZeroExactly(t: Type, v: Value)
    requires HasType(v, t)
    ensures v == Zero(t) <==> IsBlank(v)
    decreases t
  {
    if t.TStruct? {
      forall i | 0 <= i < |t.fields|
        ensures v.fields[i] == Zero(t).fields[i] <==> IsBlank(v.fields[i])
      {
        ZeroExactly(t.fields[i].typ, v.fields[i]);
      }
      if IsBlank(v) {
        assert v.fields == Zero(t).fields;
      }
    }
  }

  /** What the copy holds, field by field: nothing in place of an unexported field
      or of a secret that cannot hold a text, the masked text in place of any other
      secret, the redacted copy of a struct, and everything else itself. */
  lemma CopyFieldByField(t: Type, v: Value, i: nat)
    requires t.TStruct? && HasType(v, t) && i < |t.fields|
    ensures RedactStruct(t, v).VStruct? && |RedactStruct(t, v).fields| == |t.fields|
    ensures var f, from, to' := t.fields[i], v.fields[i], RedactStruct(t, v).fields[i];
            && (!f.exported ==> IsBlank(to'))
            && (f.exported && f.secret && f.typ.TString? ==> to' == VString(RedactValue(from)))
            && (f.exported && f.secret && f.typ.TAny? ==>
                  to' == VAny(TString, VString(RedactValue(if from.VAny? then from.content else from))))
            && (f.exported && f.secret && !f.typ.TString? && !f.typ.TAny? ==> IsBlank(to'))
            && (f.exported && !f.secret && !f.typ.TStruct? ==> to' == from)
            && (f.exported && !f.secret && f.typ.TStruct? ==> to' == RedactStruct(f.typ, from))
  {
    ZeroExactly(t.fields[i].typ, Zero(t.fields[i].typ));
    if !t.fields[i].typ.TStruct? {
      OtherIsItself(t.fields[i].typ, v.fields[i]);
    }
  }

  lemma OtherIsItself(t: Type, v: Value)
    requires HasType(v, t) && !t.TStruct?
    ensures RedactStruct(t, v) == v
  {
  }
}
