/** Which texts are origins, what their canonical form is, and that the case of letters never matters. */
module OriginTexts {
  import opened Wrappers
  import opened Text
  import opened Origins

  // ---- How an origin is written -----------------------------------------------------------------

  /** The parts of scheme://[user@]host[:digits][tail]; `digits` is None where there is no colon. */
  datatype Written = Written(scheme: string, user: string, host: string, digits: Option<string>, tail: string)

  function PortPart(digits: Option<string>): string {
    if digits == None then "" else [':'] + digits.value
  }

  function AuthorityPart(w: Written): string {
    w.user + (w.host + PortPart(w.digits))
  }

  function Spelling(w: Written): string {
    w.scheme + [':'] + ("//" + (AuthorityPart(w) + w.tail))
  }

  predicate IsHostText(s: string) {
    s != "" && forall c :: c in s ==> InAuthority(c) && c != '@' && c != ':' && c != '[' && c != ']'
  }

  /** What is written before the host: nothing, or something that ends in the last '@'. */
  predicate IsUserText(s: string) {
    IsUserEnd(s) && forall c :: c in s ==> InAuthority(c) && c != '[' && c != ']'
  }

  predicate IsTail(s: string) {
    s == "" || s[0] == '/' || s[0] == '?' || s[0] == '#'
  }

  predicate IsWritten(w: Written) {
    && Lower(w.scheme) in {"http", "https"} && IsUserText(w.user) && IsHostText(w.host)
    && (w.digits.Some? ==> IsPort(w.digits.value)) && IsTail(w.tail)
  }

  /** The scheme and the host in lower case, and the port unless it is missing, empty or the default one. */
  function Form(w: Written): string
    requires IsWritten(w)
  {
    var shown := w.digits.Some? && w.digits.value != "" && Value(w.digits.value) != (if Lower(w.scheme) == "http" then 80 else 443);
    Lower(w.scheme) + "://" + Lower(w.host) + (if shown then ":" + Decimal(Value(w.digits.value)) else "")
  }

  function OriginWritten(w: Written): Origin
    requires IsWritten(w)
  {
    var scheme := if Lower(w.scheme) == "http" then Http else Https;
    Origin(scheme, Lower(w.host),
           if w.digits.Some? && w.digits.value != "" && Value(w.digits.value) != DefaultPort(scheme)
           then Some(Value(w.digits.value)) else None)
  }

  lemma FormIsPrinted(w: Written)
    requires IsWritten(w)
    ensures Print(OriginWritten(w)) == Form(w)
  {
    var o := OriginWritten(w);
    var port := PortText(o.port);
    assert SchemeText(o.scheme) == Lower(w.scheme);
    assert Lower(w.scheme) + [':'] + ("//" + (o.host + port)) == Lower(w.scheme) + "://" + o.host + port;
  }

  lemma {:induction false} LastAtEndsUser(user: string, rest: string)
    requires (user == "" || user[|user| - 1] == '@') && '@' !in rest
    ensures AfterLastAt(user + rest) == rest
    decreases |user|
  {
    if user == "" {
      assert user + rest == rest;
    } else {
      var i := IndexOf(user, '@');
      assert i < |user| by { assert user[..|user|] == user; assert user[|user| - 1] in user; }
      assert user + rest == user[..i] + ['@'] + (user[i + 1..] + rest);
      IndexOfJoin(user[..i], '@', user[i + 1..] + rest);
      LastAtEndsUser(user[i + 1..], rest);
    }
  }

  lemma HostAndPortWritten(host: string, digits: Option<string>)
    requires IsHostText(host) && (digits.Some? ==> AllDigits(digits.value))
    ensures HostAndPort(host + PortPart(digits)) == (host, if digits.Some? then digits.value else "")
  {
    var s := host + PortPart(digits);
    assert '[' !in s;
    assert IndexOf(s, '[') == |s|;
    if digits.Some? {
      assert s == host + [':'] + digits.value;
      IndexOfJoin(host, ':', digits.value);
    } else {
      assert s == host && ':' !in host;
      assert IndexOf(s, ':') == |s|;
    }
  }

  lemma AuthorityChars(w: Written)
    requires IsWritten(w)
    ensures forall i :: 0 <= i < |AuthorityPart(w)| ==> InAuthority(AuthorityPart(w)[i])
    ensures '[' !in AuthorityPart(w) && ']' !in AuthorityPart(w)
    ensures '@' !in w.host + PortPart(w.digits)
  {
    forall c | c in PortPart(w.digits) ensures IsDigit(c) || c == ':' {
      if c != ':' { var k :| 0 <= k < |w.digits.value| && w.digits.value[k] == c; }
    }
    forall c | c in AuthorityPart(w) ensures InAuthority(c) && c != '[' && c != ']' {
      assert c in w.user || c in w.host || c in PortPart(w.digits);
    }
  }

  lemma OriginOfParts(w: Written, scheme: Scheme)
    requires IsWritten(w) && SchemeText(scheme) == Lower(w.scheme)
    ensures OriginFrom(scheme, (w.host, if w.digits.Some? then w.digits.value else "")) == Some(OriginWritten(w))
  {}

  lemma AuthorityWritten(w: Written, scheme: Scheme, bracketsOk: BracketCheck)
    requires IsWritten(w) && SchemeText(scheme) == Lower(w.scheme)
    ensures ParseAuthority(scheme, AuthorityPart(w), bracketsOk) == Some(OriginWritten(w))
  {
    AuthorityChars(w);
    LastAtEndsUser(w.user, w.host + PortPart(w.digits));
    HostAndPortWritten(w.host, w.digits);
    OriginOfParts(w, scheme);
  }

  lemma RestWritten(w: Written, scheme: Scheme, bracketsOk: BracketCheck)
    requires IsWritten(w) && SchemeText(scheme) == Lower(w.scheme)
    ensures ParseRest(scheme, "//" + (AuthorityPart(w) + w.tail), bracketsOk) == Some(OriginWritten(w))
  {
    var x := AuthorityPart(w);
    AuthorityChars(w);
    RunLengthIs(x + w.tail, InAuthority, |x|);
    assert ("//" + (x + w.tail))[2..] == x + w.tail && (x + w.tail)[..|x|] == x;
    AuthorityWritten(w, scheme, bracketsOk);
  }

  /** A text of this form is accepted, and its canonical form keeps scheme, host and port and nothing else. */
  lemma WrittenIsAccepted(raw: string, w: Written, bracketsOk: BracketCheck)
    requires IsWritten(w) && Cleaned(raw) == Spelling(w)
    ensures Canonicalize(raw, bracketsOk) == Some(Form(w))
  {
    var scheme := if Lower(w.scheme) == "http" then Http else Https;
    LowerKeeps(w.scheme, ':');
    UrlReachesRest(scheme, w.scheme, "//" + (AuthorityPart(w) + w.tail), bracketsOk);
    RestWritten(w, scheme, bracketsOk);
    FormIsPrinted(w);
  }

  lemma {:induction false} UserBeforeLastAt(s: string) returns (user: string)
    ensures s == user + AfterLastAt(s) && IsUserEnd(user)
    decreases |s|
  {
    user := "";
    if '@' in s {
      var i := IndexOf(s, '@');
      assert i < |s| by { assert s[..|s|] == s; }
      var more := UserBeforeLastAt(s[i + 1..]);
      user := s[..i + 1] + more;
      OneMoreAt(s, i, more);
      Assoc(s[..i + 1], more, AfterLastAt(s));
    }
  }

  predicate IsUserEnd(user: string) {
    user == "" || user[|user| - 1] == '@'
  }

  lemma OneMoreAt(s: string, i: nat, more: string)
    requires i < |s| && s[i] == '@' && IsUserEnd(more)
    ensures s == s[..i + 1] + s[i + 1..] && IsUserEnd(s[..i + 1] + more)
  {}

  lemma HostBeforeColon(s: string) returns (host: string, digits: Option<string>)
    requires '[' !in s
    ensures s == host + PortPart(digits) && HostAndPort(s) == (host, if digits.Some? then digits.value else "")
    ensures ':' !in host
  {
    assert IndexOf(s, '[') == |s|;
    var i := IndexOf(s, ':');
    host, digits := s[..i], if i < |s| then Some(s[i + 1..]) else None;
  }

  lemma AcceptedAuthority(scheme: Scheme, x: string, bracketsOk: BracketCheck) returns (user: string, host: string, digits: Option<string>)
    requires ParseAuthority(scheme, x, bracketsOk).Some? && forall c :: c in x ==> InAuthority(c) && c != '[' && c != ']'
    ensures x == user + (host + PortPart(digits))
    ensures IsUserText(user) && IsHostText(host) && (digits.Some? ==> IsPort(digits.value))
  {
    user := UserBeforeLastAt(x);
    host, digits := HostBeforeColon(AfterLastAt(x));
    forall c | c in host ensures c in AfterLastAt(x) && c in x {}
    forall c | c in user ensures c in x {}
  }

  lemma UrlParts(url: string, i: nat, n: nat)
    requires i + 3 + n <= |url| && url[i] == ':' && url[i + 1] == '/' && url[i + 2] == '/'
    ensures url == url[..i] + [':'] + ("//" + (url[i + 3..][..n] + url[i + 3..][n..]))
  {}

  /** What is accepted without brackets is of this form, after control characters in front and all tabs and
      line breaks are gone. */
  lemma AcceptedIsWritten(raw: string, bracketsOk: BracketCheck) returns (w: Written)
    requires Canonicalize(raw, bracketsOk).Some? && '[' !in raw && ']' !in raw
    ensures IsWritten(w) && Cleaned(raw) == Spelling(w)
  {
    var url := Cleaned(raw);
    assert '[' !in url && ']' !in url;
    w := AcceptedUrl(url, bracketsOk);
  }

  lemma AuthorityOfUrl(url: string, bracketsOk: BracketCheck, i: nat, n: nat)
    requires ParseUrl(url, bracketsOk).Some? && i == IndexOf(url, ':')
    requires i + 3 <= |url| ==> n == RunLength(url[i + 3..], InAuthority)
    ensures i + 3 + n <= |url| && url[i] == ':' && url[i + 1] == '/' && url[i + 2] == '/' && SchemeOf(url[..i]).Some?
    ensures ParseAuthority(SchemeOf(url[..i]).value, url[i + 3..][..n], bracketsOk).Some?
  {
    assert url[i + 1..][2..] == url[i + 3..];
  }

  lemma AcceptedUrl(url: string, bracketsOk: BracketCheck) returns (w: Written)
    requires ParseUrl(url, bracketsOk).Some? && '[' !in url && ']' !in url
    ensures IsWritten(w) && url == Spelling(w)
  {
    var i := IndexOf(url, ':');
    assert i + 3 <= |url|;
    var after := url[i + 3..];
    var n := RunLength(after, InAuthority);
    var x := after[..n];
    AuthorityOfUrl(url, bracketsOk, i, n);
    forall c | c in x ensures InAuthority(c) && c != '[' && c != ']' { assert c in after && c in url; }
    var user, host, digits := AcceptedAuthority(SchemeOf(url[..i]).value, x, bracketsOk);
    w := Written(url[..i], user, host, digits, after[n..]);
    UrlParts(url, i, n);
    assert IsTail(w.tail) by { assert n < |after| ==> w.tail[0] == after[n]; }
    assert AuthorityPart(w) == x;
  }

  // ---- Upper and lower case ---------------------------------------------------------------------

  /** Neither case of a letter. */
  predicate IsCaseless(c: char) {
    !('a' <= c <= 'z') && !('A' <= c <= 'Z')
  }

  /** The bracket check does not tell cases apart. */
  ghost predicate IgnoresCase(bracketsOk: BracketCheck) {
    forall a, b :: SameButCase(a, b) ==> bracketsOk(a) == bracketsOk(b)
  }

  lemma SamePlaces(a: string, b: string, c: char)
    requires SameButCase(a, b) && IsCaseless(c)
    ensures c in a <==> c in b
  {
    forall i | 0 <= i < |a| ensures a[i] == c <==> b[i] == c {}
  }

  lemma {:induction false} SameIndex(a: string, b: string, c: char)
    requires SameButCase(a, b) && IsCaseless(c)
    ensures IndexOf(a, c) == IndexOf(b, c)
  {
    if a != "" && a[0] != c { SameIndex(a[1..], b[1..], c); }
  }

  lemma {:induction false} SameRun(a: string, b: string, keep: char -> bool)
    requires SameButCase(a, b) && forall x, y :: SameLetter(x, y) ==> keep(x) == keep(y)
    ensures RunLength(a, keep) == RunLength(b, keep)
  {
    if a != "" {
      assert SameLetter(a[0], b[0]);
      if keep(a[0]) { SameRun(a[1..], b[1..], keep); }
    }
  }

  lemma {:induction false} SameWithoutBreaks(a: string, b: string)
    requires SameButCase(a, b)
    ensures SameButCase(WithoutBreaks(a), WithoutBreaks(b))
  {
    if a != "" { SameWithoutBreaks(a[1..], b[1..]); }
  }

  lemma {:induction false} SameAfterLastAt(a: string, b: string)
    requires SameButCase(a, b)
    ensures SameButCase(AfterLastAt(a), AfterLastAt(b))
    decreases |a|
  {
    SamePlaces(a, b, '@');
    SameIndex(a, b, '@');
    if '@' in a { SameAfterLastAt(a[IndexOf(a, '@') + 1..], b[IndexOf(b, '@') + 1..]); }
  }

  lemma SameAfterColon(a: string, b: string)
    requires SameButCase(a, b)
    ensures SameButCase(AfterColon(a), AfterColon(b))
  {
    SameIndex(a, b, ':');
  }

  lemma SamePrefix(a: string, b: string, n: nat)
    requires SameButCase(a, b) && n <= |a|
    ensures SameButCase(a[..n], b[..n])
  {}

  lemma SameRemainder(a: string, b: string, i: nat)
    requires SameButCase(a, b) && i <= |a|
    ensures SameButCase(a[i..], b[i..])
  {}

  /** Two parts that are the same but for their case. */
  ghost predicate SameParts(p: (string, string), q: (string, string)) {
    SameButCase(p.0, q.0) && SameButCase(p.1, q.1)
  }

  /** The port text behind a closing bracket at this place. */
  function PortBehind(s: string, close: nat): string {
    if close < |s| then AfterColon(s[close + 1..]) else ""
  }

  lemma SamePortBehind(a: string, b: string, close: nat)
    requires SameButCase(a, b)
    ensures SameButCase(PortBehind(a, close), PortBehind(b, close))
  {
    if close < |a| {
      SameRemainder(a, b, close + 1);
      SameAfterColon(a[close + 1..], b[close + 1..]);
    }
  }

  lemma PartsInBrackets(s: string, close: nat)
    requires close == IndexOf(s, ']')
    ensures InBrackets(s) == (s[..close], PortBehind(s, close))
  {}

  lemma SameInBrackets(a: string, b: string)
    requires SameButCase(a, b)
    ensures SameParts(InBrackets(a), InBrackets(b))
  {
    var close := IndexOf(a, ']');
    SameIndex(a, b, ']');
    PartsInBrackets(a, close);
    PartsInBrackets(b, close);
    SamePrefix(a, b, close);
    SamePortBehind(a, b, close);
  }

  lemma SamePlain(a: string, b: string)
    requires SameButCase(a, b) && IndexOf(a, '[') == |a| && IndexOf(b, '[') == |b|
    ensures SameParts(HostAndPort(a), HostAndPort(b))
  {
    var colon := IndexOf(a, ':');
    SameIndex(a, b, ':');
    SamePrefix(a, b, colon);
    SameAfterColon(a, b);
    PlainParts(a, colon);
    PlainParts(b, colon);
  }

  lemma PlainParts(s: string, colon: nat)
    requires IndexOf(s, '[') == |s| && colon == IndexOf(s, ':')
    ensures HostAndPort(s) == (s[..colon], AfterColon(s))
  {}

  lemma SameRemainders(a: string, b: string, i: nat, j: nat)
    requires SameButCase(a, b) && i == j <= |a|
    ensures SameButCase(a[i..], b[j..])
  {}

  lemma SameBracketed(a: string, b: string)
    requires SameButCase(a, b) && IndexOf(a, '[') == IndexOf(b, '[') < |a|
    ensures SameParts(HostAndPort(a), HostAndPort(b))
  {
    SameRemainders(a, b, IndexOf(a, '[') + 1, IndexOf(b, '[') + 1);
    SameInBrackets(a[IndexOf(a, '[') + 1..], b[IndexOf(b, '[') + 1..]);
    BracketedParts(a);
    BracketedParts(b);
  }

  lemma BracketedParts(s: string)
    requires IndexOf(s, '[') < |s|
    ensures HostAndPort(s) == InBrackets(s[IndexOf(s, '[') + 1..])
  {}

  lemma SameHostAndPort(a: string, b: string)
    requires SameButCase(a, b)
    ensures SameParts(HostAndPort(a), HostAndPort(b))
  {
    SameIndex(a, b, '[');
    if IndexOf(a, '[') < |a| { SameBracketed(a, b); } else { SamePlain(a, b); }
  }

  lemma SamePort(a: string, b: string)
    requires SameButCase(a, b)
    ensures AllDigits(a) <==> AllDigits(b)
    ensures AllDigits(a) ==> a == b
  {
    forall i | 0 <= i < |a| ensures (IsDigit(a[i]) <==> IsDigit(b[i])) && (IsDigit(a[i]) ==> a[i] == b[i]) {}
  }

  lemma SameOrigin(scheme: Scheme, p: (string, string), q: (string, string))
    requires SameParts(p, q)
    ensures OriginFrom(scheme, p) == OriginFrom(scheme, q)
  {
    SamePort(p.1, q.1);
    LowerForgetsCase(p.0, q.0);
  }

  lemma SameAuthority(scheme: Scheme, a: string, b: string, bracketsOk: BracketCheck)
    requires SameButCase(a, b) && IgnoresCase(bracketsOk)
    ensures ParseAuthority(scheme, a, bracketsOk) == ParseAuthority(scheme, b, bracketsOk)
  {
    SamePlaces(a, b, '[');
    SamePlaces(a, b, ']');
    SameAfterLastAt(a, b);
    SameHostAndPort(AfterLastAt(a), AfterLastAt(b));
    SameOrigin(scheme, HostAndPort(AfterLastAt(a)), HostAndPort(AfterLastAt(b)));
  }

  lemma SameRest(scheme: Scheme, a: string, b: string, bracketsOk: BracketCheck)
    requires SameButCase(a, b) && IgnoresCase(bracketsOk)
    ensures ParseRest(scheme, a, bracketsOk) == ParseRest(scheme, b, bracketsOk)
  {
    if |a| >= 2 && a[0] == '/' && a[1] == '/' {
      assert SameLetter(a[0], b[0]) && SameLetter(a[1], b[1]);
      SameRun(a[2..], b[2..], InAuthority);
      var n := RunLength(a[2..], InAuthority);
      SameAuthority(scheme, a[2..][..n], b[2..][..n], bracketsOk);
    }
  }

  lemma SameUrl(a: string, b: string, bracketsOk: BracketCheck)
    requires SameButCase(a, b) && IgnoresCase(bracketsOk)
    ensures ParseUrl(a, bracketsOk) == ParseUrl(b, bracketsOk)
  {
    SameIndex(a, b, ':');
    var i := IndexOf(a, ':');
    LowerForgetsCase(a[..i], b[..i]);
    if i < |a| && SchemeOf(a[..i]).Some? { SameRest(SchemeOf(a[..i]).value, a[i + 1..], b[i + 1..], bracketsOk); }
  }

  /** Origins that differ in the case of letters only have one canonical form, or are both refused. */
  lemma CaseIsIgnored(a: string, b: string, bracketsOk: BracketCheck)
    requires SameButCase(a, b) && IgnoresCase(bracketsOk)
    ensures Canonicalize(a, bracketsOk) == Canonicalize(b, bracketsOk)
  {
    SameRun(a, b, IsControl);
    SameWithoutBreaks(a[RunLength(a, IsControl)..], b[RunLength(b, IsControl)..]);
    SameUrl(Cleaned(a), Cleaned(b), bracketsOk);
  }

  /** A tab or line break is dropped wherever it stands. */
  lemma {:induction false} BreaksAreDropped(a: string, c: char, b: string)
    requires IsBreak(c)
    ensures WithoutBreaks(a + [c] + b) == WithoutBreaks(a + b)
  {
    if a == "" {
      assert (a + [c] + b)[1..] == b && a + b == b;
    } else {
      BreaksAreDropped(a[1..], c, b);
      assert (a + [c] + b)[1..] == a[1..] + [c] + b && (a + b)[1..] == a[1..] + b;
    }
  }

  /** A text that begins with no control character and holds no line break is parsed as it stands, whatever
      control characters precede it. */
  lemma {:induction false} FrontIsDropped(front: string, url: string)
    requires (forall i :: 0 <= i < |front| ==> IsControl(front[i]))
    requires url != "" && !IsControl(url[0]) && forall c :: c in url ==> !IsBreak(c)
    ensures Cleaned(front + url) == url
  {
    var raw := front + url;
    RunLengthIs(raw, IsControl, |front|);
    assert raw[|front|..] == url;
    NothingToRemove(url);
  }
}
