/** Widget origins: canonicalisation, the save path that stores them, and the check that serves them. */
module Origins {
  import opened Wrappers
  import opened Text

  datatype Scheme = Http | Https

  /** Scheme, host and port; a default port is no port. */
  datatype Origin = Origin(scheme: Scheme, host: string, port: Option<nat>)

  /** urlsplit's opinion of an authority that contains both brackets; it rests on address parsing, which
      is not part of this model, so every opinion is allowed. */
  type BracketCheck = string -> bool

  function SchemeText(s: Scheme): string {
    if s.Http? then "http" else "https"
  }

  function DefaultPort(s: Scheme): nat {
    if s.Http? then 80 else 443
  }

  // ---- Decimal numbers --------------------------------------------------------------------------

  predicate IsDigit(c: char) { '0' <= c <= '9' }

  predicate AllDigits(s: string) { forall i :: 0 <= i < |s| ==> IsDigit(s[i]) }

  function Value(s: string): nat
    requires AllDigits(s)
  {
    if s == [] then 0 else 10 * Value(s[..|s| - 1]) + (s[|s| - 1] - '0') as nat
  }

  function Decimal(n: nat): (s: string)
    ensures s != [] && AllDigits(s) && Value(s) == n
  {
    var last := [(n % 10) as char + '0'];
    if n < 10 then last else
      var front := Decimal(n / 10);
      assert (front + last)[..|front|] == front;
      front + last
  }

  // ---- Splitting an origin ----------------------------------------------------------------------

  /** C0 control or space: what is stripped from the front. */
  predicate IsControl(c: char) { c <= ' ' }

  /** Tabs and line breaks are removed wherever they stand. */
  predicate IsBreak(c: char) { c == '\t' || c == '\r' || c == '\n' }

  function WithoutBreaks(s: string): (r: string)
    ensures forall c :: c in r <==> c in s && !IsBreak(c)
  {
    if s == [] then []
    else
      assert s == [s[0]] + s[1..];
      (if IsBreak(s[0]) then [] else [s[0]]) + WithoutBreaks(s[1..])
  }

  predicate InAuthority(c: char) { c != '/' && c != '?' && c != '#' }

  /** The part after the last '@'. */
  function AfterLastAt(s: string): (r: string)
    ensures '@' !in r && forall c :: c in r ==> c in s
    decreases |s|
  {
    if '@' in s then AfterLastAt(s[IndexOf(s, '@') + 1..]) else s
  }

  /** The part after the first ':', if there is one. */
  function AfterColon(s: string): (r: string)
    ensures forall c :: c in r ==> c in s
  {
    var i := IndexOf(s, ':');
    if i < |s| then s[i + 1..] else ""
  }

  /** Host and port text of what follows an opening bracket. */
  function InBrackets(inside: string): (string, string) {
    var close := IndexOf(inside, ']');
    (inside[..close], if close < |inside| then AfterColon(inside[close + 1..]) else "")
  }

  /** Host and port text of what follows the user information. */
  function HostAndPort(s: string): (string, string) {
    if IndexOf(s, '[') < |s| then InBrackets(s[IndexOf(s, '[') + 1..]) else (s[..IndexOf(s, ':')], AfterColon(s))
  }

  lemma HostAndPortChars(s: string)
    ensures forall c :: c in HostAndPort(s).0 || c in HostAndPort(s).1 ==> c in s
    ensures !('[' in HostAndPort(s).0 && ']' in HostAndPort(s).0)
    ensures '[' !in s ==> ':' !in HostAndPort(s).0
  {
    var open := IndexOf(s, '[');
    if open < |s| {
      var inside := s[open + 1..];
      assert forall c :: c in inside[..IndexOf(inside, ']')] ==> c in inside;
      assert forall c :: c in inside ==> c in s;
    }
  }

  predicate IsPort(text: string) {
    AllDigits(text) && Value(text) <= 65535
  }

  function ParseAuthority(scheme: Scheme, authority: string, bracketsOk: BracketCheck): Option<Origin> {
    if ('[' in authority || ']' in authority) && !('[' in authority && ']' in authority && bracketsOk(authority)) then None
    else OriginFrom(scheme, HostAndPort(AfterLastAt(authority)))
  }

  function OriginFrom(scheme: Scheme, hostAndPort: (string, string)): Option<Origin> {
    var (host, port) := hostAndPort;
    if host == "" || !IsPort(port) then None
    else
      var number := if port == "" || Value(port) == DefaultPort(scheme) then None else Some(Value(port));
      Some(Origin(scheme, Lower(host), number))
  }

  function SchemeOf(text: string): Option<Scheme> {
    if Lower(text) == "http" then Some(Http) else if Lower(text) == "https" then Some(Https) else None
  }

  /** What follows the scheme: an authority is introduced by two slashes. */
  function ParseRest(scheme: Scheme, rest: string, bracketsOk: BracketCheck): Option<Origin> {
    if |rest| < 2 || rest[0] != '/' || rest[1] != '/' then None
    else ParseAuthority(scheme, rest[2..][..RunLength(rest[2..], InAuthority)], bracketsOk)
  }

  function ParseUrl(url: string, bracketsOk: BracketCheck): Option<Origin> {
    var i := IndexOf(url, ':');
    if i == |url| || SchemeOf(url[..i]) == None then None
    else ParseRest(SchemeOf(url[..i]).value, url[i + 1..], bracketsOk)
  }

  /** The url after leading control characters and all tabs and line breaks are gone. */
  function Cleaned(raw: string): (r: string)
    ensures forall c :: c in r ==> c in raw && !IsBreak(c)
  {
    var stripped := raw[RunLength(raw, IsControl)..];
    assert forall c :: c in stripped ==> c in raw;
    WithoutBreaks(stripped)
  }

  function Parse(raw: string, bracketsOk: BracketCheck): Option<Origin> {
    ParseUrl(Cleaned(raw), bracketsOk)
  }

  function PortText(port: Option<nat>): string {
    if port == None then "" else ":" + Decimal(port.value)
  }

  function Authority(o: Origin): string { o.host + PortText(o.port) }

  /** scheme://host[:port] */
  function Print(o: Origin): string {
    SchemeText(o.scheme) + [':'] + ("//" + Authority(o))
  }

  /** The canonical form of an origin, or None when it is refused. */
  function Canonicalize(raw: string, bracketsOk: BracketCheck): Option<string> {
    var o := Parse(raw, bracketsOk);
    if o == None then None else Some(Print(o.value))
  }

  // ---- What a parsed origin looks like ----------------------------------------------------------

  predicate IsHostChar(c: char) {
    InAuthority(c) && c != '@' && !IsBreak(c) && LowerChar(c) == c
  }

  predicate IsOrigin(o: Origin) {
    && o.host != "" && (forall i :: 0 <= i < |o.host| ==> IsHostChar(o.host[i]))
    && !('[' in o.host && ']' in o.host)
    && (o.port.Some? ==> o.port.value <= 65535 && o.port.value != DefaultPort(o.scheme))
  }

  /** No colon and no bracket: the host of an origin written without brackets. */
  predicate IsPlain(host: string) {
    ':' !in host && '[' !in host && ']' !in host
  }

  lemma LowerKeeps(s: string, c: char)
    requires LowerChar(c) == c && !('a' <= c <= 'z')
    ensures c in Lower(s) <==> c in s
  {}

  lemma AuthorityIsOrigin(scheme: Scheme, authority: string, bracketsOk: BracketCheck)
    requires forall c :: c in authority ==> InAuthority(c) && !IsBreak(c)
    requires ParseAuthority(scheme, authority, bracketsOk).Some?
    ensures IsOrigin(ParseAuthority(scheme, authority, bracketsOk).value)
    ensures '[' !in authority && ']' !in authority ==> IsPlain(ParseAuthority(scheme, authority, bracketsOk).value.host)
  {
    var host := HostAndPort(AfterLastAt(authority)).0;
    HostAndPortChars(AfterLastAt(authority));
    LowerKeeps(host, ':');
    LowerKeeps(host, '[');
    LowerKeeps(host, ']');
    forall i | 0 <= i < |host| ensures IsHostChar(Lower(host)[i]) {
      assert host[i] in host;
    }
  }

  /** What parsing yields is an origin, and brackets in its host come from brackets in the text. */
  lemma ParseIsOrigin(raw: string, bracketsOk: BracketCheck)
    requires Parse(raw, bracketsOk).Some?
    ensures IsOrigin(Parse(raw, bracketsOk).value)
    ensures '[' !in raw && ']' !in raw ==> IsPlain(Parse(raw, bracketsOk).value.host)
  {
    var url := Cleaned(raw);
    var i := IndexOf(url, ':');
    var rest := url[i + 1..][2..];
    var n := RunLength(rest, InAuthority);
    forall c | c in rest[..n] ensures c in raw && InAuthority(c) && !IsBreak(c) {
      assert c in rest && c in url;
    }
    AuthorityIsOrigin(SchemeOf(url[..i]).value, rest[..n], bracketsOk);
  }

  // ---- Printing and parsing again ---------------------------------------------------------------

  lemma {:induction false} NothingToRemove(s: string)
    requires forall c :: c in s ==> !IsBreak(c)
    ensures WithoutBreaks(s) == s
  {
    if s != [] {
      assert s[0] in s;
      NothingToRemove(s[1..]);
    }
  }

  lemma LowerIsFixed(s: string)
    requires forall i :: 0 <= i < |s| ==> LowerChar(s[i]) == s[i]
    ensures Lower(s) == s
  {}

  lemma AuthorityChars(o: Origin)
    requires IsOrigin(o)
    ensures forall i :: 0 <= i < |Authority(o)| ==> InAuthority(Authority(o)[i]) && Authority(o)[i] != '@' && !IsBreak(Authority(o)[i])
    ensures '[' in Authority(o) <==> '[' in o.host
    ensures ']' in Authority(o) <==> ']' in o.host
  {}

  lemma SchemeRoundTrip(s: Scheme)
    ensures SchemeOf(SchemeText(s)) == Some(s) && ':' !in SchemeText(s) && SchemeText(s)[0] == 'h'
    ensures forall c :: c in SchemeText(s) ==> !IsBreak(c)
  {}

  lemma RestReachesAuthority(scheme: Scheme, x: string, bracketsOk: BracketCheck)
    requires forall i :: 0 <= i < |x| ==> InAuthority(x[i])
    ensures ParseRest(scheme, "//" + x, bracketsOk) == ParseAuthority(scheme, x, bracketsOk)
  {
    RunLengthIs(x, InAuthority, |x|);
    assert ("//" + x)[2..] == x && x[..|x|] == x;
  }

  lemma UrlIsClean(scheme: Scheme, x: string)
    requires forall i :: 0 <= i < |x| ==> !IsBreak(x[i])
    ensures Cleaned(SchemeText(scheme) + [':'] + ("//" + x)) == SchemeText(scheme) + [':'] + ("//" + x)
  {
    var c := SchemeText(scheme) + [':'] + ("//" + x);
    SchemeRoundTrip(scheme);
    RunLengthIs(c, IsControl, 0);
    assert c[0..] == c;
    NothingToRemove(c);
  }

  lemma UrlReachesRest(scheme: Scheme, text: string, rest: string, bracketsOk: BracketCheck)
    requires SchemeOf(text) == Some(scheme) && ':' !in text
    ensures ParseUrl(text + [':'] + rest, bracketsOk) == ParseRest(scheme, rest, bracketsOk)
  {
    IndexOfJoin(text, ':', rest);
  }

  /** A scheme in its own text, two slashes and an authority: exactly the authority is parsed. */
  lemma ParseReachesAuthority(scheme: Scheme, x: string, bracketsOk: BracketCheck)
    requires forall i :: 0 <= i < |x| ==> InAuthority(x[i]) && !IsBreak(x[i])
    ensures Parse(SchemeText(scheme) + [':'] + ("//" + x), bracketsOk) == ParseAuthority(scheme, x, bracketsOk)
  {
    UrlIsClean(scheme, x);
    SchemeRoundTrip(scheme);
    UrlReachesRest(scheme, SchemeText(scheme), "//" + x, bracketsOk);
    RestReachesAuthority(scheme, x, bracketsOk);
  }

  // ---- What a printed origin parses to ----------------------------------------------------------

  /** Everything that a printed origin can parse to again: a plain host comes back; of a host that lost its
      brackets, the part before the first colon becomes the host and the rest must be the port. */
  function Reparsed(o: Origin): Option<Origin> {
    if IsPlain(o.host) then Some(o)
    else
      var name, rest := o.host[..IndexOf(o.host, ':')], AfterColon(o.host);
      if '[' in o.host || ']' in o.host || o.port.Some? || name == "" || !IsPort(rest) then None
      else Some(Origin(o.scheme, name, if rest == "" || Value(rest) == DefaultPort(o.scheme) then None else Some(Value(rest))))
  }

  lemma PrintThenParses(o: Origin, bracketsOk: BracketCheck)
    requires IsOrigin(o)
    ensures Parse(Print(o), bracketsOk) == Reparsed(o)
  {
    var x := Authority(o);
    AuthorityChars(o);
    ParseReachesAuthority(o.scheme, x, bracketsOk);
    if '[' !in o.host && ']' !in o.host {
      assert AfterLastAt(x) == x && IndexOf(x, '[') == |x|;
      if ':' in o.host { UnbracketedAuthority(o, bracketsOk); } else { PlainAuthority(o, bracketsOk); }
    }
  }

  lemma PlainAuthority(o: Origin, bracketsOk: BracketCheck)
    requires IsOrigin(o) && IsPlain(o.host)
    ensures ParseAuthority(o.scheme, Authority(o), bracketsOk) == Some(o)
  {
    AuthorityChars(o);
    assert AfterLastAt(Authority(o)) == Authority(o);
    PlainHostAndPort(o);
    LowerIsFixed(o.host);
  }

  lemma PlainHostAndPort(o: Origin)
    requires IsOrigin(o) && IsPlain(o.host)
    ensures HostAndPort(Authority(o)) == (o.host, if o.port == None then "" else Decimal(o.port.value))
  {
    var x := Authority(o);
    AuthorityChars(o);
    assert IndexOf(x, '[') == |x|;
    if o.port == None {
      assert x == o.host && IndexOf(x, ':') == |x|;
    } else {
      assert x == o.host + [':'] + Decimal(o.port.value);
      IndexOfJoin(o.host, ':', Decimal(o.port.value));
    }
  }

  /** The host of a bracketed address without its brackets. */
  lemma UnbracketedAuthority(o: Origin, bracketsOk: BracketCheck)
    requires IsOrigin(o) && ':' in o.host && '[' !in o.host && ']' !in o.host
    ensures ParseAuthority(o.scheme, Authority(o), bracketsOk) == Reparsed(o)
  {
    var x, name, rest := Authority(o), o.host[..IndexOf(o.host, ':')], AfterColon(o.host);
    AuthorityChars(o);
    assert AfterLastAt(x) == x && IndexOf(x, '[') == |x|;
    ColonComesFirst(o.host, PortText(o.port));
    assert HostAndPort(x) == (name, rest + PortText(o.port));
    if o.port.Some? {
      assert (rest + PortText(o.port))[|rest|] == ':';
    } else {
      assert rest + PortText(o.port) == rest;
    }
    forall i | 0 <= i < |name| ensures LowerChar(name[i]) == name[i] { assert IsHostChar(o.host[i]); }
    LowerIsFixed(name);
  }

  lemma ColonComesFirst(host: string, tail: string)
    requires ':' in host
    ensures IndexOf(host + tail, ':') == IndexOf(host, ':') < |host|
    ensures (host + tail)[..IndexOf(host, ':')] == host[..IndexOf(host, ':')]
    ensures AfterColon(host + tail) == AfterColon(host) + tail
  {
    var i := IndexOf(host, ':');
    assert i < |host| by { assert host[..|host|] == host; }
    assert host + tail == host[..i] + [':'] + (host[i + 1..] + tail);
    IndexOfJoin(host[..i], ':', host[i + 1..] + tail);
  }

  /** Parsing is the inverse of printing exactly on hosts without colons and brackets.  An IPv6 address
      loses its brackets when it is printed. */
  lemma PrintThenParse(o: Origin, bracketsOk: BracketCheck)
    requires IsOrigin(o)
    ensures Parse(Print(o), bracketsOk) == Some(o) <==> IsPlain(o.host)
  {
    PrintThenParses(o, bracketsOk);
    if !IsPlain(o.host) && Reparsed(o).Some? { assert ':' in o.host; ColonComesFirst(o.host, ""); }
  }

  /** Whatever a printed origin parses to has a plain host, and is an origin like any other. */
  lemma ReparsedIsPlain(o: Origin)
    requires IsOrigin(o) && Reparsed(o).Some?
    ensures IsPlain(Reparsed(o).value.host) && IsOrigin(Reparsed(o).value)
  {
    if !IsPlain(o.host) {
      var name := o.host[..IndexOf(o.host, ':')];
      forall i | 0 <= i < |name| ensures IsHostChar(name[i]) && name[i] != ':' && name[i] in o.host {
        assert name[i] == o.host[i];
      }
    }
  }

  /** Hosts with a bracket or with two colons, every IPv6 address among them, never parse again. */
  lemma AddressNeverParsesAgain(o: Origin, bracketsOk: BracketCheck)
    requires IsOrigin(o) && ('[' in o.host || ']' in o.host || ':' in AfterColon(o.host))
    ensures Parse(Print(o), bracketsOk) == None
  {
    PrintThenParses(o, bracketsOk);
    if ':' in AfterColon(o.host) {
      var rest := AfterColon(o.host);
      var k :| 0 <= k < |rest| && rest[k] == ':';
      assert !IsDigit(rest[k]);
    }
  }

  /** The canonical form is its own canonical form: the host is plain, or what follows its only colon reads
      like a port that is printed as it stands. */
  predicate IsStable(o: Origin) {
    || IsPlain(o.host)
    || (&& '[' !in o.host && ']' !in o.host && o.port == None && IndexOf(o.host, ':') > 0
        && IsPort(AfterColon(o.host)) && AfterColon(o.host) == Decimal(Value(AfterColon(o.host)))
        && Value(AfterColon(o.host)) != DefaultPort(o.scheme))
  }

  /** Printing what was parsed again gives the same text exactly for stable origins. */
  lemma StableIff(o: Origin)
    requires IsOrigin(o)
    ensures Reparsed(o).Some? && Print(Reparsed(o).value) == Print(o) <==> IsStable(o)
  {
    if !IsPlain(o.host) && Reparsed(o).Some? {
      var i, rest, r := IndexOf(o.host, ':'), AfterColon(o.host), Reparsed(o).value;
      ColonComesFirst(o.host, "");
      assert Authority(o) == o.host == o.host[..i] + ([':'] + rest);
      SameScheme(o, r);
      SamePort(o.host[..i], rest, r.port);
    }
  }

  lemma PrefixCancels(prefix: string, a: string, b: string)
    ensures prefix + a == prefix + b <==> a == b
  {
    if prefix + a == prefix + b { assert (prefix + a)[|prefix|..] == a && (prefix + b)[|prefix|..] == b; }
  }

  lemma SamePort(name: string, rest: string, port: Option<nat>)
    ensures name + PortText(port) == name + ([':'] + rest) <==> port.Some? && Decimal(port.value) == rest
  {
    PrefixCancels(name, PortText(port), [':'] + rest);
    if port.Some? { PrefixCancels([':'], Decimal(port.value), rest); }
  }

  lemma SameScheme(o: Origin, r: Origin)
    requires o.scheme == r.scheme
    ensures Print(r) == Print(o) <==> Authority(r) == Authority(o)
  {
    PrefixCancels("//", Authority(r), Authority(o));
    PrefixCancels(SchemeText(o.scheme) + [':'], "//" + Authority(r), "//" + Authority(o));
  }

  /** For every accepted origin: canonicalising twice is canonicalising once exactly if it is stable, and a
      second canonicalisation, where it is possible, is always final. */
  lemma CanonicalIsStable(raw: string, bracketsOk: BracketCheck)
    requires Parse(raw, bracketsOk).Some?
    ensures var once := Canonicalize(raw, bracketsOk);
      var twice := Canonicalize(once.value, bracketsOk);
      && (twice == once <==> IsStable(Parse(raw, bracketsOk).value))
      && (twice.Some? ==> Canonicalize(twice.value, bracketsOk) == twice)
  {
    var o := Parse(raw, bracketsOk).value;
    ParseIsOrigin(raw, bracketsOk);
    PrintThenParses(o, bracketsOk);
    StableIff(o);
    if Reparsed(o).Some? {
      ReparsedIsPlain(o);
      PrintThenParses(Reparsed(o).value, bracketsOk);
    }
  }

  /** Two unbracketed origins have one canonical form only if scheme, host and port are the same: there
      is no subdomain rollup, and no port or scheme is confused with another. */
  lemma CanonicalFormIsExact(a: string, b: string, bracketsOk: BracketCheck)
    requires '[' !in a && ']' !in a && '[' !in b && ']' !in b
    requires Parse(a, bracketsOk).Some? && Parse(b, bracketsOk).Some?
    ensures Canonicalize(a, bracketsOk) == Canonicalize(b, bracketsOk) <==> Parse(a, bracketsOk) == Parse(b, bracketsOk)
  {
    ParseIsOrigin(a, bracketsOk);
    ParseIsOrigin(b, bracketsOk);
    PrintThenParse(Parse(a, bracketsOk).value, bracketsOk);
    PrintThenParse(Parse(b, bracketsOk).value, bracketsOk);
  }

  // ---- Saving: normalise and drop duplicates ----------------------------------------------------

  /** The save path and the token endpoint share one canonicalisation. */
  type Canon = string -> Option<string>

  function CanonOf(bracketsOk: BracketCheck): Canon {
    raw => Canonicalize(raw, bracketsOk)
  }

  datatype Saved = Saved(origins: seq<string>) | Invalid(raw: string)

  predicate AllValid(raws: seq<string>, canon: Canon) {
    forall k :: 0 <= k < |raws| ==> canon(raws[k]).Some?
  }

  function Canonicals(raws: seq<string>, canon: Canon): (r: seq<string>)
    requires AllValid(raws, canon)
    ensures |r| == |raws| && forall k :: 0 <= k < |raws| ==> r[k] == canon(raws[k]).value
  {
    if raws == [] then []
    else Canonicals(raws[..|raws| - 1], canon) + [canon(raws[|raws| - 1]).value]
  }

  /** Each element once, at its first occurrence. */
  function FirstOccurrences(s: seq<string>): (r: seq<string>)
    ensures forall c :: c in r <==> c in s
    ensures forall i, j :: 0 <= i < j < |r| ==> r[i] != r[j]
  {
    if s == [] then []
    else
      var front := s[..|s| - 1];
      assert s == front + [s[|s| - 1]];
      if s[|s| - 1] in front then FirstOccurrences(front) else FirstOccurrences(front) + [s[|s| - 1]]
  }

  /** The origins that a valid submission stores. */
  function Stored(raws: seq<string>, canon: Canon): seq<string>
    requires AllValid(raws, canon)
  {
    FirstOccurrences(Canonicals(raws, canon))
  }

  lemma StoredStep(raws: seq<string>, k: nat, canon: Canon)
    requires k < |raws| && AllValid(raws[..k], canon) && canon(raws[k]).Some?
    ensures AllValid(raws[..k + 1], canon)
    ensures var before, c := Stored(raws[..k], canon), canon(raws[k]).value;
      Stored(raws[..k + 1], canon) == if c in before then before else before + [c]
  {
    var next := raws[..k + 1];
    assert next[..k] == raws[..k];
    forall j | 0 <= j < |next| ensures canon(next[j]).Some? { if j < k { assert next[j] == raws[..k][j]; } }
    var all, c := Canonicals(raws[..k], canon), canon(raws[k]).value;
    assert Canonicals(next, canon) == all + [c];
    assert (all + [c])[..k] == all;
  }

  /** The request validator: canonical forms without duplicates, in order, or the first invalid item. */
  method NormalizeOrigins(raws: seq<string>, canon: Canon) returns (r: Saved)
    ensures r.Saved? <==> AllValid(raws, canon)
    ensures r.Saved? ==> r.origins == Stored(raws, canon)
    ensures r.Invalid? ==> exists k :: 0 <= k < |raws| && IsFirstInvalid(raws, k, canon) && r.raw == raws[k]
  {
    var seen: set<string>, out: seq<string> := {}, [];
    for k := 0 to |raws|
      invariant AllValid(raws[..k], canon)
      invariant out == Stored(raws[..k], canon)
      invariant forall c :: c in seen <==> c in out
    {
      var canonical := canon(raws[k]);
      if canonical == None {
        assert IsFirstInvalid(raws, k, canon);
        return Invalid(raws[k]);
      }
      StoredStep(raws, k, canon);
      if canonical.value !in seen {
        seen := seen + {canonical.value};
        out := out + [canonical.value];
      }
    }
    assert raws[..|raws|] == raws;
    r := Saved(out);
  }

  ghost predicate IsFirstInvalid(raws: seq<string>, k: nat, canon: Canon)
    requires k < |raws|
  {
    canon(raws[k]) == None && AllValid(raws[..k], canon)
  }

  // ---- Serving: the token endpoint's origin check -----------------------------------------------

  /** The request's origin is compared with the canonical forms of the stored origins. */
  predicate Admits(allowed: seq<string>, origin: string, canon: Canon) {
    canon(origin).Some? && exists k :: 0 <= k < |allowed| && canon(allowed[k]) == canon(origin)
  }

  lemma StoredAre(raws: seq<string>, canon: Canon)
    requires AllValid(raws, canon)
    ensures forall k :: 0 <= k < |raws| ==> canon(raws[k]).value in Stored(raws, canon)
    ensures forall c :: c in Stored(raws, canon) ==> exists k :: 0 <= k < |raws| && canon(raws[k]) == Some(c)
  {}

  /** Serving what was saved is asking for the twice canonicalised submission. */
  lemma AdmitsStored(raws: seq<string>, origin: string, canon: Canon)
    requires AllValid(raws, canon)
    ensures Admits(Stored(raws, canon), origin, canon) <==>
      canon(origin).Some? && exists k :: 0 <= k < |raws| && canon(canon(raws[k]).value) == canon(origin)
  {
    var allowed := Stored(raws, canon);
    StoredAre(raws, canon);
    if Admits(allowed, origin, canon) {
      var j :| 0 <= j < |allowed| && canon(allowed[j]) == canon(origin);
      assert allowed[j] in allowed;
      var k :| 0 <= k < |raws| && canon(raws[k]) == Some(allowed[j]);
      assert canon(canon(raws[k]).value) == canon(origin);
    }
    if canon(origin).Some? && exists k :: 0 <= k < |raws| && canon(canon(raws[k]).value) == canon(origin) {
      var k :| 0 <= k < |raws| && canon(canon(raws[k]).value) == canon(origin);
      var j :| 0 <= j < |allowed| && allowed[j] == canon(raws[k]).value;
      assert canon(allowed[j]) == canon(origin);
    }
  }

  function OriginOf(raw: string, bracketsOk: BracketCheck): Origin
    requires CanonOf(bracketsOk)(raw).Some?
  {
    Parse(raw, bracketsOk).value
  }

  ghost predicate AllStable(raws: seq<string>, bracketsOk: BracketCheck)
    requires AllValid(raws, CanonOf(bracketsOk))
  {
    forall k :: 0 <= k < |raws| ==> IsStable(OriginOf(raws[k], bracketsOk))
  }

  /** Save and serve agree on every request, that is, the endpoint admits a request exactly when some
      submitted origin has the request's canonical form. */
  ghost predicate Agrees(raws: seq<string>, canon: Canon)
    requires AllValid(raws, canon)
  {
    forall origin :: Admits(Stored(raws, canon), origin, canon) <==> Admits(raws, origin, canon)
  }

  /** A canonicalisation whose second application is final. */
  ghost predicate IsFinalAfterTwo(raws: seq<string>, canon: Canon)
    requires AllValid(raws, canon)
  {
    forall k :: 0 <= k < |raws| ==>
      var twice := canon(canon(raws[k]).value); twice.Some? ==> canon(twice.value) == twice
  }

  ghost predicate IsFixed(raw: string, canon: Canon)
    requires canon(raw).Some?
  {
    canon(canon(raw).value) == canon(raw)
  }

  /** Then a submission is refused by the endpoint, whatever else was submitted, unless it is fixed. */
  lemma UnfixedIsRefused(raws: seq<string>, k: nat, canon: Canon)
    requires AllValid(raws, canon) && IsFinalAfterTwo(raws, canon) && k < |raws| && !IsFixed(raws[k], canon)
    ensures Admits(raws, raws[k], canon) && !Admits(Stored(raws, canon), raws[k], canon)
  {
    AdmitsStored(raws, raws[k], canon);
    forall j | 0 <= j < |raws| ensures canon(canon(raws[j]).value) != canon(raws[k]) {}
  }

  lemma AgreesIffFixed(raws: seq<string>, canon: Canon)
    requires AllValid(raws, canon) && IsFinalAfterTwo(raws, canon)
    ensures Agrees(raws, canon) <==> forall k :: 0 <= k < |raws| ==> IsFixed(raws[k], canon)
  {
    if forall k :: 0 <= k < |raws| ==> IsFixed(raws[k], canon) {
      forall origin ensures Admits(Stored(raws, canon), origin, canon) <==> Admits(raws, origin, canon) {
        AdmitsStored(raws, origin, canon);
      }
    } else {
      var k :| 0 <= k < |raws| && !IsFixed(raws[k], canon);
      UnfixedIsRefused(raws, k, canon);
    }
  }

  lemma CanonIsFinalAfterTwo(raws: seq<string>, bracketsOk: BracketCheck)
    requires AllValid(raws, CanonOf(bracketsOk))
    ensures IsFinalAfterTwo(raws, CanonOf(bracketsOk))
    ensures forall k :: 0 <= k < |raws| ==> (IsFixed(raws[k], CanonOf(bracketsOk)) <==> IsStable(OriginOf(raws[k], bracketsOk)))
  {
    forall k | 0 <= k < |raws|
      ensures IsFixed(raws[k], CanonOf(bracketsOk)) <==> IsStable(OriginOf(raws[k], bracketsOk))
      ensures var twice := Canonicalize(Canonicalize(raws[k], bracketsOk).value, bracketsOk);
        twice.Some? ==> Canonicalize(twice.value, bracketsOk) == twice
    {
      CanonicalIsStable(raws[k], bracketsOk);
    }
  }

  /** For every valid submission: save and serve agree on every request exactly when each submitted origin
      is stable. */
  lemma AgreementIff(raws: seq<string>, bracketsOk: BracketCheck)
    requires AllValid(raws, CanonOf(bracketsOk))
    ensures Agrees(raws, CanonOf(bracketsOk)) <==> AllStable(raws, bracketsOk)
  {
    CanonIsFinalAfterTwo(raws, bracketsOk);
    AgreesIffFixed(raws, CanonOf(bracketsOk));
  }

  /** An origin that is not stable is accepted on saving and then refused, whatever else was submitted. */
  lemma AddressIsRefused(raws: seq<string>, k: nat, bracketsOk: BracketCheck)
    requires AllValid(raws, CanonOf(bracketsOk)) && k < |raws| && !IsStable(OriginOf(raws[k], bracketsOk))
    ensures Admits(raws, raws[k], CanonOf(bracketsOk)) && !Admits(Stored(raws, CanonOf(bracketsOk)), raws[k], CanonOf(bracketsOk))
  {
    CanonIsFinalAfterTwo(raws, bracketsOk);
    UnfixedIsRefused(raws, k, CanonOf(bracketsOk));
  }

  /** Unbracketed origins need no further condition. */
  lemma SaveServeAgreement(raws: seq<string>, bracketsOk: BracketCheck)
    requires AllValid(raws, CanonOf(bracketsOk))
    requires forall k :: 0 <= k < |raws| ==> '[' !in raws[k] && ']' !in raws[k]
    ensures Agrees(raws, CanonOf(bracketsOk)) && AllStable(raws, bracketsOk)
  {
    forall k | 0 <= k < |raws| ensures IsStable(OriginOf(raws[k], bracketsOk)) { ParseIsOrigin(raws[k], bracketsOk); }
    AgreementIff(raws, bracketsOk);
  }

  // ---- Two concrete submissions -----------------------------------------------------------------

  lemma BracketedHostAndPort(host: string, tail: string)
    requires ']' !in host
    ensures HostAndPort(['['] + (host + [']'] + tail)) == (host, AfterColon(tail))
  {
    var s := ['['] + (host + [']'] + tail);
    assert IndexOf(s, '[') == 0 && s[1..] == host + [']'] + tail;
    IndexOfJoin(host, ']', tail);
  }

  /** http://[host] and http://host */
  function Bracketed(host: string): string {
    SchemeText(Http) + [':'] + ("//" + (['['] + (host + [']'])))
  }

  function Unbracketed(host: string): string {
    SchemeText(Http) + [':'] + ("//" + host)
  }

  predicate IsBracketable(host: string) {
    host != "" && (forall i :: 0 <= i < |host| ==> IsHostChar(host[i]) && host[i] != '[' && host[i] != ']')
  }

  lemma BracketedChars(host: string, x: string)
    requires IsBracketable(host) && x == ['['] + (host + [']'])
    ensures '[' in x && ']' in x && '@' !in x
    ensures forall i :: 0 <= i < |x| ==> InAuthority(x[i]) && !IsBreak(x[i])
  {
    assert x[0] == '[' && x[|host| + 1] == ']';
    forall i | 0 <= i < |x| ensures InAuthority(x[i]) && !IsBreak(x[i]) && x[i] != '@' {
      if 0 < i <= |host| { assert x[i] == host[i - 1] && IsHostChar(host[i - 1]); }
    }
  }

  lemma BracketedOrigin(host: string)
    requires IsBracketable(host)
    ensures OriginFrom(Http, (host, AfterColon(""))) == Some(Origin(Http, host, None))
  {
    LowerIsFixed(host);
  }

  lemma BracketedAuthority(host: string, x: string, bracketsOk: BracketCheck)
    requires IsBracketable(host) && x == ['['] + (host + [']']) && bracketsOk(x)
    ensures ParseAuthority(Http, x, bracketsOk) == Some(Origin(Http, host, None))
  {
    BracketedChars(host, x);
    assert AfterLastAt(x) == x;
    assert ['['] + (host + [']'] + "") == x && ']' !in host;
    BracketedHostAndPort(host, "");
    BracketedOrigin(host);
  }

  lemma BracketedReaches(host: string, x: string, bracketsOk: BracketCheck)
    requires IsBracketable(host) && x == ['['] + (host + [']'])
    ensures Parse(Bracketed(host), bracketsOk) == ParseAuthority(Http, x, bracketsOk)
  {
    BracketedChars(host, x);
    ParseReachesAuthority(Http, x, bracketsOk);
  }

  lemma BracketedParses(host: string, bracketsOk: BracketCheck)
    requires IsBracketable(host) && bracketsOk(['['] + (host + [']']))
    ensures Parse(Bracketed(host), bracketsOk) == Some(Origin(Http, host, None))
    ensures Print(Origin(Http, host, None)) == Unbracketed(host)
  {
    var x := ['['] + (host + [']']);
    BracketedReaches(host, x, bracketsOk);
    BracketedAuthority(host, x, bracketsOk);
    assert host + PortText(None) == host;
  }

  lemma OneIsStored(raw: string, canon: Canon)
    requires canon(raw).Some?
    ensures AllValid([raw], canon) && Stored([raw], canon) == [canon(raw).value]
  {
    var raws, all := [raw], [canon(raw).value];
    assert raws[..0] == [] && Canonicals(raws[..0], canon) == [];
    assert Canonicals(raws, canon) == all;
    assert all[..0] == [] && FirstOccurrences(all[..0]) == [];
    assert FirstOccurrences(all) == FirstOccurrences(all[..0]) + [all[0]];
  }

  /** Saved, and then refused. */
  ghost predicate IsSavedInVain(raw: string, saved: string, canon: Canon) {
    && AllValid([raw], canon) && Stored([raw], canon) == [saved]
    && Admits([raw], raw, canon) && !Admits(Stored([raw], canon), raw, canon)
  }

  lemma BracketedIsRefused(host: string, bracketsOk: BracketCheck)
    requires IsBracketable(host) && bracketsOk(['['] + (host + [']'])) && !IsStable(Origin(Http, host, None))
    ensures IsSavedInVain(Bracketed(host), Unbracketed(host), CanonOf(bracketsOk))
    ensures Parse(Unbracketed(host), bracketsOk) == Reparsed(Origin(Http, host, None))
  {
    BracketedParses(host, bracketsOk);
    OneIsStored(Bracketed(host), CanonOf(bracketsOk));
    AddressIsRefused([Bracketed(host)], 0, bracketsOk);
    PrintThenParses(Origin(Http, host, None), bracketsOk);
  }

  /** http://[::1] is saved as http://::1, which the endpoint cannot parse: it refuses http://[::1]. */
  lemma LoopbackIsRefused(bracketsOk: BracketCheck)
    requires bracketsOk("[::1]")
    ensures IsSavedInVain("http://[::1]", "http://::1", CanonOf(bracketsOk))
    ensures Canonicalize("http://::1", bracketsOk) == None
  {
    var host := "::1";
    assert "[::1]" == ['['] + (host + [']']) && "http://[::1]" == Bracketed(host) && "http://::1" == Unbracketed(host);
    assert IndexOf(host, ':') == 0 && !IsPlain(host);
    BracketedIsRefused(host, bracketsOk);
  }

  lemma ReparsedDefault(name: string, rest: string)
    requires IsBracketable(name) && ':' !in name && IsPort(rest) && Value(rest) == DefaultPort(Http)
    ensures var o := Origin(Http, name + [':'] + rest, None);
      IsBracketable(o.host) && Reparsed(o) == Some(Origin(Http, name, None)) && !IsStable(o)
  {
    var host := name + [':'] + rest;
    IndexOfJoin(name, ':', rest);
    assert host[|name|] == ':';
    forall i | 0 <= i < |host| ensures IsHostChar(host[i]) && host[i] != '[' && host[i] != ']' {
      if i > |name| { assert IsDigit(rest[i - |name| - 1]); }
    }
  }

  /** A bracketed host that ends in the number of the default port is saved as the host without it. */
  lemma DefaultPortIsDropped(name: string, rest: string, bracketsOk: BracketCheck)
    requires IsBracketable(name) && ':' !in name && IsPort(rest) && Value(rest) == DefaultPort(Http)
    requires bracketsOk(['['] + (name + [':'] + rest + [']']))
    ensures IsSavedInVain(Bracketed(name + [':'] + rest), Unbracketed(name + [':'] + rest), CanonOf(bracketsOk))
    ensures Canonicalize(Unbracketed(name + [':'] + rest), bracketsOk) == Some(Unbracketed(name))
    ensures Canonicalize(Unbracketed(name), bracketsOk) == Some(Unbracketed(name))
  {
    ReparsedDefault(name, rest);
    BracketedIsRefused(name + [':'] + rest, bracketsOk);
    PlainIsFixed(name, bracketsOk);
  }

  lemma PlainIsFixed(name: string, bracketsOk: BracketCheck)
    requires IsBracketable(name) && ':' !in name
    ensures Print(Origin(Http, name, None)) == Unbracketed(name)
    ensures Canonicalize(Unbracketed(name), bracketsOk) == Some(Unbracketed(name))
  {
    assert name + PortText(None) == name;
    PrintThenParses(Origin(Http, name, None), bracketsOk);
  }

  lemma AdmitsOther(raw: string, saved: string, other: string, canon: Canon)
    requires IsSavedInVain(raw, saved, canon) && canon(saved) == canon(other) == Some(other) && saved != other
    ensures Admits(Stored([raw], canon), other, canon) && !Admits([raw], other, canon)
  {
    OneIsStored(raw, canon);
    assert canon(Stored([raw], canon)[0]) == canon(other);
  }

  lemma Spelled()
    ensures "http://[v1.a:80]" == Bracketed("v1.a:80") && "http://v1.a:80" == Unbracketed("v1.a:80") && "http://v1.a" == Unbracketed("v1.a")
    ensures "v1.a:80" == "v1.a" + [':'] + "80" && "[v1.a:80]" == ['['] + ("v1.a:80" + [']'])
  {
  }

  lemma EightyIsDefault()
    ensures IsPort("80") && Value("80") == DefaultPort(Http)
  {
    assert "80"[..1] == "8" && "8"[..0] == "";
    assert Value("") == 0 && Value("8") == 8;
  }

  /** http://[v1.a:80] is saved as http://v1.a:80, which the endpoint takes for a host with its default port:
      it admits http://v1.a, which nobody submitted, and refuses what was. */
  lemma AnotherOriginIsAdmitted(bracketsOk: BracketCheck)
    requires bracketsOk("[v1.a:80]")
    ensures IsSavedInVain("http://[v1.a:80]", "http://v1.a:80", CanonOf(bracketsOk))
    ensures Admits(Stored(["http://[v1.a:80]"], CanonOf(bracketsOk)), "http://v1.a", CanonOf(bracketsOk))
    ensures !Admits(["http://[v1.a:80]"], "http://v1.a", CanonOf(bracketsOk))
  {
    Spelled();
    EightyIsDefault();
    DefaultPortIsDropped("v1.a", "80", bracketsOk);
    AdmitsOther("http://[v1.a:80]", "http://v1.a:80", "http://v1.a", CanonOf(bracketsOk));
  }
}
