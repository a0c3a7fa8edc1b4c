/** The URL parser: scheme, authority, path and query of ws, wss, http and https URLs. */
module Url {
  import opened Bytes
  import opened Frames
  import opened Text

  datatype Error =
    | NoUrlCharacter | InvalidSchemeName | NoDoubleSlash
    | MissingClosingBracket | InvalidCharacterAfterHost | MissingHost | InvalidPort
    | UnmatchedClosingBracket | InvalidOpeningBracket | InvalidPortSeparator
    | MissingPortAfterColon | EmptyIPv6Host | UnbracketedIPv6Host | MultipleAtSigns

  datatype Result<T> = Ok(value: T) | Err(error: Error)

  datatype Authority = Authority(userName: string, password: string, host: string, port: string)

  datatype UserInfo = UserInfo(userName: string, password: string, rest: string) | TwoAtSigns

  datatype Tail = Tail(path: string, query: string, fragment: string)

  datatype Url = Url(scheme: string, authority: Authority, tail: Tail)

  // ---- The parts of a URL, by the text they are in ----

  /** A text up to the first of some characters. */
  function Before(s: string, any: string): string { s[..FindAny(s, any)] }

  /** A text from the first of some characters on. */
  function From(s: string, any: string): string { s[FindAny(s, any)..] }

  /** A text behind the first of some characters. */
  function Behind(s: string, any: string): string {
    var t := From(s, any);
    if t == "" then "" else t[1..]
  }

  predicate IsAlpha(c: char) { 'a' <= c <= 'z' || 'A' <= c <= 'Z' }

  predicate IsSchemeValid(s: string) {
    forall i :: 0 <= i < |s| ==> IsAlpha(s[i]) || s[i] == '+' || s[i] == '-' || s[i] == '.'
  }

  function Lower(s: string): (r: string)
    ensures |r| == |s|
  {
    seq(|s|, i requires 0 <= i < |s| => if 'A' <= s[i] <= 'Z' then (s[i] as int + 32) as char else s[i])
  }

  function Count(s: string, c: char): nat {
    if s == "" then 0 else (if s[0] == c then 1 else 0) + Count(s[1..], c)
  }

  predicate Only(s: string, any: string) { forall i :: 0 <= i < |s| ==> s[i] in any }

  const DIGITS := "0123456789"
  const HEX_AND_COLON := "0123456789abcdefABCDEF:"

  predicate LooksLikeIPv6(s: string) { '.' !in s && Only(s, HEX_AND_COLON) }

  function ParseBracketed(s: string): Result<(string, string)>
    requires s != "" && s[0] == '['
  {
    var close := FindAny(s[1..], "]");
    if close == |s| - 1 then Err(MissingClosingBracket)
    else if close == 0 then Err(EmptyIPv6Host)
    else PortBehind(s[1..close + 1], s[close + 2..])
  }

  function PortBehind(host: string, s: string): Result<(string, string)> {
    if s == "" then Ok((host, ""))
    else if s[0] != ':' then Err(InvalidCharacterAfterHost)
    else if s[1..] == "" then Err(MissingPortAfterColon)
    else Ok((host, s[1..]))
  }

  function ParseRegular(s: string): Result<(string, string)> {
    var colon := FindAny(s, ":");
    if colon == |s| then Ok((s, ""))
    else if s[colon + 1..] == "" then Err(MissingPortAfterColon)
    else Ok((s[..colon], s[colon + 1..]))
  }

  /** The host, and the port as text. */
  function ParseHost(s: string): Result<(string, string)> {
    var open, close := FindAny(s, "["), FindAny(s, "]");
    if close < |s| && open == |s| then Err(UnmatchedClosingBracket)
    else if 0 < open < |s| then Err(InvalidOpeningBracket)
    else if open == |s| && Count(s, ':') > 1 then
      Err(if LooksLikeIPv6(s) then UnbracketedIPv6Host else InvalidPortSeparator)
    else
      match if s != "" && s[0] == '[' then ParseBracketed(s) else ParseRegular(s)
      case Err(e) => Err(e)
      case Ok(parts) =>
        if parts.0 == "" then Err(MissingHost)
        else if !Only(parts.1, DIGITS) then Err(InvalidPort)
        else Ok(parts)
  }

  /** An authority: user name and password, if there are any, and the host with its port. */
  function SplitAuthority(s: string): UserInfo {
    var behind := From(s, "@");
    if behind == "" then UserInfo("", "", s)
    else if From(behind[1..], "@") != "" then TwoAtSigns
    else
      var user := Before(s, "@");
      UserInfo(Before(user, ":"), Behind(user, ":"), behind[1..])
  }

  function ParseAuthority(s: string): Result<Authority> {
    match SplitAuthority(s)
    case TwoAtSigns => Err(MultipleAtSigns)
    case UserInfo(userName, password, rest) => WithHost(userName, password, rest)
  }

  function WithHost(userName: string, password: string, s: string): Result<Authority> {
    match ParseHost(s)
    case Err(e) => Err(e)
    case Ok(parts) => Ok(Authority(userName, password, parts.0, parts.1))
  }

  /** Path, query and fragment, from the first '/' or '?' behind the authority. */
  function ParseTail(t: string): Tail {
    var s := if t != "" && t[0] == '/' then t[1..] else t;
    ParseBehindPath(Before(s, "?#"), From(s, "?#"))
  }

  function ParseBehindPath(path: string, s: string): Tail {
    if s == "" then Tail(path, "", "")
    else if s[0] == '#' then Tail(path, "", s[1..])
    else Tail(path, Before(s[1..], "#"), Behind(s[1..], "#"))
  }

  function ParseBehindScheme(scheme: string, rest: string): Result<Url> {
    if |rest| < 2 || rest[0] != '/' || rest[1] != '/' then Err(NoDoubleSlash)
    else
      match ParseAuthority(Before(rest[2..], "/?"))
      case Err(e) => Err(e)
      case Ok(a) => Ok(Url(Lower(scheme), a, ParseTail(From(rest[2..], "/?"))))
  }

  function ParseUrl(url: string): Result<Url> {
    var behind := From(url, ":");
    if behind == "" then Err(NoUrlCharacter)
    else if !IsSchemeValid(Before(url, ":")) then Err(InvalidSchemeName)
    else ParseBehindScheme(Before(url, ":"), behind[1..])
  }

  // ---- What the caller is told ----

  datatype Target = Target(protocol: string, host: string, path: string, query: string, port: int, isDefault: bool)

  function ProtocolPort(protocol: string): int {
    if protocol == "ws" || protocol == "http" then 80
    else if protocol == "wss" || protocol == "https" then 443
    else -1
  }

  /** The number of a text of decimal digits. */
  function Number(s: string): nat {
    if s == "" then 0
    else 10 * Number(s[..|s| - 1]) + if s[|s| - 1] in DIGITS then s[|s| - 1] as int - 48 else 0
  }

  /** A port that is missing, 0 or above 65535 is the protocol's own. */
  function PortOf(text: string, protocol: string): int {
    var n := Number(text);
    if 0 < n <= 65535 then n else ProtocolPort(protocol)
  }

  function FullPath(path: string, query: string): string {
    var p := if path == "" then "/" else if path[0] != '/' then "/" + path else path;
    if query == "" then p else p + ("?" + query)
  }

  function TargetOf(u: Url): Target {
    var port := PortOf(u.authority.port, u.scheme);
    Target(u.scheme, u.authority.host, FullPath(u.tail.path, u.tail.query), u.tail.query, port,
           port == ProtocolPort(u.scheme))
  }

  function Parse(url: string): Option<Target> {
    match ParseUrl(url)
    case Err(_) => None
    case Ok(u) => Some(TargetOf(u))
  }

  // ---- The round trip ----

  function BracketedIfNeeded(host: string): string { if ':' in host then "[" + (host + "]") else host }

  function QueryPart(query: string): string { if query == "" then "" else "?" + query }

  /** Sections 3.2.2 and 5.3 of RFC 3986. */
  function Printed(scheme: string, host: string, port: nat, path: string, query: string): string {
    scheme + (":" + ("//" + (BracketedIfNeeded(host) + (":" + Decimal(port)) + (path + QueryPart(query)))))
  }

  predicate Free(s: string, any: string) { forall c :: c in s ==> c !in any }

  predicate Printable(scheme: string, host: string, port: nat, path: string, query: string) {
    && IsSchemeValid(scheme)
    && host != "" && Free(host, "/?@[]")
    && 1 <= port <= 65535
    && path != "" && path[0] == '/' && Free(path, "?#")
    && Free(query, "#")
  }

  lemma {:induction false} DecimalIsNumber(n: nat)
    ensures var s := Decimal(n); Only(s, DIGITS) && Number(s) == n && Count(s, ':') == 0
    decreases n
  {
    var s := Decimal(n);
    assert DigitChar(n % 10) as int == 48 + n % 10;
    DigitIsDigit(n % 10);
    if n < 10 {
      assert s[..0] == "";
    } else {
      DecimalIsNumber(n / 10);
      assert s[..|s| - 1] == Decimal(n / 10);
      CountConcat(Decimal(n / 10), [DigitChar(n % 10)], ':');
    }
  }

  lemma DigitIsDigit(d: nat)
    requires d < 10
    ensures DigitChar(d) in DIGITS && Count([DigitChar(d)], ':') == 0
  {
    assert DIGITS[d] == DigitChar(d);
    assert [DigitChar(d)][1..] == "";
  }

  lemma {:induction false} CountConcat(a: string, b: string, c: char)
    ensures Count(a + b, c) == Count(a, c) + Count(b, c)
    decreases |a|
  {
    if a == "" {
      assert a + b == b;
    } else {
      CountConcat(a[1..], b, c);
      TailOfConcat(a, b);
    }
  }

  lemma {:induction false} CountNone(s: string, c: char)
    requires c !in s
    ensures Count(s, c) == 0
    decreases |s|
  {
    if s != "" {
      CountNone(s[1..], c);
    }
  }

  lemma FreeIsAbsent(s: string, any: string)
    requires Free(s, any)
    ensures FindAny(s, any) == |s|
  {
    assert s + "" == s;
    FindBehind(s, "", any);
  }

  lemma DecimalIsFree(n: nat, any: string)
    requires forall c :: c in any ==> c !in DIGITS
    ensures Free(Decimal(n), any)
  {
    DecimalIsNumber(n);
    forall c | c in Decimal(n) ensures c !in any {
      var k :| 0 <= k < |Decimal(n)| && Decimal(n)[k] == c;
    }
  }

  lemma HostIsRead(host: string, port: nat)
    requires host != "" && Free(host, "/?@[]")
    ensures ParseHost(BracketedIfNeeded(host) + (":" + Decimal(port))) == Ok((host, Decimal(port)))
  {
    DecimalIsNumber(port);
    if ':' in host {
      BracketedIsRead(host, Decimal(port));
    } else {
      RegularIsRead(host, Decimal(port));
    }
  }

  lemma BracketedIsRead(host: string, port: string)
    requires host != "" && Free(host, "/?@[]") && port != "" && Only(port, DIGITS)
    ensures ParseHost("[" + (host + "]") + (":" + port)) == Ok((host, port))
  {
    var behind := ":" + port;
    var s := "[" + (host + "]") + behind;
    assert s[0] == '[' && s[1..] == host + ("]" + behind);
    assert Free(host, "]");
    FindBehind(host, "]" + behind, "]");
    assert FindAny(s, "[") == 0;
    assert s[|host| + 1] == ']';
    assert s[1..|host| + 1] == host && s[|host| + 2..] == behind;
    assert behind[1..] == port;
  }

  lemma RegularIsRead(host: string, port: string)
    requires host != "" && Free(host, "/?@[]") && ':' !in host && port != "" && Only(port, DIGITS)
    ensures ParseHost(host + (":" + port)) == Ok((host, port))
  {
    var s := host + (":" + port);
    CountNone(host, ':');
    OnlyIsFree(port, ":[]@");
    CountNone(port, ':');
    CountConcat(host, ":" + port, ':');
    assert (":" + port)[1..] == port;
    FindBehind(host, ":" + port, ":");
    assert s[..|host|] == host && s[|host| + 1..] == port;
    FreeConcat(host, port, "[");
    FreeConcat(host, port, "]");
    FreeIsAbsent(s, "[");
    FreeIsAbsent(s, "]");
    assert s[0] == host[0] && host[0] in host;
  }

  lemma OnlyIsFree(port: string, any: string)
    requires Only(port, DIGITS) && forall c :: c in any ==> c !in DIGITS
    ensures forall c :: c in port ==> c !in any
  {
  }

  lemma FreePlus(a: string, b: string, any: string)
    requires Free(a, any) && Free(b, any)
    ensures Free(a + b, any)
  {
  }

  lemma FreeConcat(host: string, port: string, any: string)
    requires Free(host, any) && Free(port, any) && ':' !in any
    ensures Free(host + (":" + port), any)
  {
    FreePlus(":", port, any);
    FreePlus(host, ":" + port, any);
  }

  lemma BracketedIsFree(host: string, any: string)
    requires Free(host, any) && '[' !in any && ']' !in any
    ensures Free(BracketedIfNeeded(host), any)
  {
    FreePlus(host, "]", any);
    FreePlus("[", host + "]", any);
  }

  lemma AuthorityIsRead(host: string, port: nat)
    requires host != "" && Free(host, "/?@[]")
    ensures var s := BracketedIfNeeded(host) + (":" + Decimal(port));
      && ParseAuthority(s) == Ok(Authority("", "", host, Decimal(port)))
      && Free(s, "/?")
  {
    var s := BracketedIfNeeded(host) + (":" + Decimal(port));
    HostIsRead(host, port);
    AuthorityIsFree(host, port, "/?");
    AuthorityIsFree(host, port, "@");
    FreeIsAbsent(s, "@");
  }

  lemma AuthorityIsFree(host: string, port: nat, any: string)
    requires Free(host, "/?@[]") && (any == "/?" || any == "@")
    ensures Free(BracketedIfNeeded(host) + (":" + Decimal(port)), any)
  {
    DecimalIsFree(port, any);
    BracketedIsFree(host, any);
    FreeConcat(BracketedIfNeeded(host), Decimal(port), any);
  }

  lemma BeforeAndFrom(a: string, b: string, any: string)
    requires Free(a, any) && (b == "" || b[0] in any)
    ensures Before(a + b, any) == a && From(a + b, any) == b
  {
    FindBehind(a, b, any);
  }

  lemma FreeIsNotSplit(s: string, any: string)
    requires Free(s, any)
    ensures Before(s, any) == s && Behind(s, any) == ""
  {
    assert s + "" == s;
    BeforeAndFrom(s, "", any);
  }

  lemma TailIsRead(path: string, query: string)
    requires path != "" && path[0] == '/' && Free(path, "?#") && Free(query, "#")
    ensures ParseTail(path + QueryPart(query)) == Tail(path[1..], query, "")
  {
    TailOfConcat(path, QueryPart(query));
    assert Free(path[1..], "?#");
    BeforeAndFrom(path[1..], QueryPart(query), "?#");
    if query != "" {
      TailOfConcat("?", query);
      FreeIsNotSplit(query, "#");
    }
  }

  lemma SchemeIsRead(scheme: string, rest: string)
    requires IsSchemeValid(scheme)
    ensures ParseUrl(scheme + (":" + rest)) == ParseBehindScheme(scheme, rest)
  {
    BeforeAndFrom(scheme, ":" + rest, ":");
    TailOfConcat(":", rest);
  }

  lemma RestIsRead(scheme: string, authority: string, tail: string, a: Authority)
    requires ParseAuthority(authority) == Ok(a) && Free(authority, "/?") && tail != "" && tail[0] == '/'
    ensures ParseBehindScheme(scheme, "//" + (authority + tail)) == Ok(Url(Lower(scheme), a, ParseTail(tail)))
  {
    var s := authority + tail;
    BeforeAndFrom(authority, tail, "/?");
    assert ("//" + s)[2..] == s && ("//" + s)[0] == '/' && ("//" + s)[1] == '/';
  }

  /** Every part of a printed URL is read back. */
  lemma PartsAreRead(scheme: string, host: string, port: nat, path: string, query: string)
    requires Printable(scheme, host, port, path, query)
    ensures ParseUrl(Printed(scheme, host, port, path, query))
         == Ok(Url(Lower(scheme), Authority("", "", host, Decimal(port)), Tail(path[1..], query, "")))
  {
    var authority := BracketedIfNeeded(host) + (":" + Decimal(port));
    var tail := path + QueryPart(query);
    SchemeIsRead(scheme, "//" + (authority + tail));
    AuthorityIsRead(host, port);
    RestIsRead(scheme, authority, tail, Authority("", "", host, Decimal(port)));
    TailIsRead(path, query);
  }

  predicate SecondSlash(path: string) { |path| > 1 && path[1] == '/' }

  lemma PathIsRestored(path: string, query: string)
    requires path != "" && path[0] == '/'
    ensures FullPath(path[1..], query) == (if SecondSlash(path) then path[1..] else path) + QueryPart(query)
  {
    assert path == "/" + path[1..];
    assert path + "" == path;
  }

  /**
    * Sections 3.2.2 and 5.3 of RFC 3986. What is printed of a scheme, a host (in brackets if it holds a colon), a
    * port, a path and a query is read back: the scheme in lower case, the host, the port and the query unchanged,
    * and the path with the query behind it. The path is unchanged exactly when no second slash follows its first.
    */
  lemma UrlRoundTrip(scheme: string, host: string, port: nat, path: string, query: string)
    requires Printable(scheme, host, port, path, query)
    ensures var r := Parse(Printed(scheme, host, port, path, query));
      && r.Some?
      && r.value.protocol == Lower(scheme) && r.value.host == host && r.value.port == port
      && r.value.query == query && r.value.isDefault == (port == ProtocolPort(Lower(scheme)))
      && (r.value.path == path + QueryPart(query) <==> !SecondSlash(path))
  {
    PartsAreRead(scheme, host, port, path, query);
    DecimalIsNumber(port);
    PathIsRestored(path, query);
    if SecondSlash(path) {
      assert |path[1..] + QueryPart(query)| < |path + QueryPart(query)|;
    }
  }

  // ---- The parser as it is written: one cursor over the whole URL ----

  /** Where the first of some characters is, from a position on; the length of the URL if there is none. */
  function FindFrom(url: string, any: string, from: nat): (p: nat)
    requires from <= |url|
    ensures from <= p <= |url| && (p < |url| ==> url[p] in any)
    decreases |url| - from
  {
    if from == |url| || url[from] in any then from else FindFrom(url, any, from + 1)
  }

  lemma {:induction false} NoneBefore(url: string, any: string, from: nat)
    requires from <= |url|
    ensures forall k :: from <= k < FindFrom(url, any, from) ==> url[k] !in any
    decreases |url| - from
  {
    if from < |url| && url[from] !in any {
      NoneBefore(url, any, from + 1);
    }
  }

  /** A search through the whole URL that is then bounded is a search in the part before the bound. */
  lemma FoundWithin(url: string, any: string, from: nat, end: nat)
    requires from <= end <= |url|
    ensures var p := FindFrom(url, any, from);
      from + FindAny(url[from..end], any) == if p < end then p else end
  {
    var part := url[from..end];
    var p, j := FindFrom(url, any, from), FindAny(part, any);
    NoneBefore(url, any, from);
    FindsFirst(part, any);
    assert p < end ==> part[p - from] == url[p];
    assert j < |part| ==> part[j] == url[from + j];
  }

  lemma FoundBehind(url: string, any: string, from: nat)
    requires from <= |url|
    ensures FindFrom(url, any, from) == from + FindAny(url[from..], any)
  {
    FoundWithin(url, any, from, |url|);
    assert url[from..|url|] == url[from..];
  }

  /** A bracketed host and what follows it, in terms of positions. */
  lemma BracketedAt(url: string, start: nat, end: nat)
    requires start < end <= |url| && url[start] == '['
    ensures var close := FindFrom(url, "]", start + 1);
      ParseBracketed(url[start..end]) ==
        if close >= end then Err(MissingClosingBracket)
        else if close == start + 1 then Err(EmptyIPv6Host)
        else PortBehind(url[start + 1..close], url[close + 1..end])
  {
    var close := FindFrom(url, "]", start + 1);
    FoundWithin(url, "]", start + 1, end);
    RestOfPart(url, start, end, 1);
    if close < end {
      PartOfPart(url, start, end, 1, close - start);
      RestOfPart(url, start, end, close - start + 1);
    }
  }

  /** Step 5a. */
  method ReadBracketed(url: string, current: nat, authorityEnd: nat) returns (r: Result<(string, string)>)
    requires current < authorityEnd <= |url| && url[current] == '['
    ensures r == ParseBracketed(url[current..authorityEnd])
  {
    BracketedAt(url, current, authorityEnd);
    var closeBracket := FindFrom(url, "]", current + 1);
    if closeBracket >= authorityEnd {
      return Err(MissingClosingBracket);
    }
    var host := url[current + 1..closeBracket];
    if host == "" {
      return Err(EmptyIPv6Host);
    }
    var port := "";
    var afterBracket := closeBracket + 1;
    if afterBracket < authorityEnd {
      if url[afterBracket] != ':' {
        return Err(InvalidCharacterAfterHost);
      }
      port := url[afterBracket + 1..authorityEnd];
      RestOfPart(url, afterBracket, authorityEnd, 1);
      if port == "" {
        return Err(MissingPortAfterColon);
      }
    }
    return Ok((host, port));
  }

  /** Step 5b. */
  method ReadRegular(url: string, current: nat, authorityEnd: nat) returns (r: Result<(string, string)>)
    requires current <= authorityEnd <= |url|
    ensures r == ParseRegular(url[current..authorityEnd])
  {
    var colonPos := FindFrom(url, ":", current);
    FoundWithin(url, ":", current, authorityEnd);
    if colonPos < authorityEnd {
      PartOfPart(url, current, authorityEnd, 0, colonPos - current);
      RestOfPart(url, current, authorityEnd, colonPos - current + 1);
      var port := url[colonPos + 1..authorityEnd];
      if port == "" {
        return Err(MissingPortAfterColon);
      }
      return Ok((url[current..colonPos], port));
    }
    return Ok((url[current..authorityEnd], ""));
  }

  /** Step 5. */
  method ReadHost(url: string, current: nat, authorityEnd: nat) returns (r: Result<(string, string)>)
    requires current <= authorityEnd <= |url|
    ensures r == ParseHost(url[current..authorityEnd])
  {
    var authority := url[current..authorityEnd];
    var openingBracketPos, closingBracketPos := FindAny(authority, "["), FindAny(authority, "]");
    if closingBracketPos < |authority| && openingBracketPos == |authority| {
      return Err(UnmatchedClosingBracket);
    }
    if openingBracketPos < |authority| && openingBracketPos != 0 {
      return Err(InvalidOpeningBracket);
    }
    if openingBracketPos == |authority| {
      var colonCount := Count(authority, ':');
      if colonCount > 1 {
        return Err(if LooksLikeIPv6(authority) then UnbracketedIPv6Host else InvalidPortSeparator);
      }
    }
    if current < authorityEnd && url[current] == '[' {
      r := ReadBracketed(url, current, authorityEnd);
    } else {
      r := ReadRegular(url, current, authorityEnd);
    }
    if r.Ok? {
      if r.value.0 == "" {
        return Err(MissingHost);
      }
      if !Only(r.value.1, DIGITS) {
        return Err(InvalidPort);
      }
    }
  }

  lemma CutWithin(url: string, any: string, start: nat, end: nat)
    requires start <= end <= |url| && FindFrom(url, any, start) < end
    ensures var p, s := FindFrom(url, any, start), url[start..end];
      Before(s, any) == url[start..p] && From(s, any) != "" && From(s, any)[1..] == url[p + 1..end]
  {
    var p := FindFrom(url, any, start);
    FoundWithin(url, any, start, end);
    PartOfPart(url, start, end, 0, p - start);
    RestOfPart(url, start, end, p - start);
    RestOfPart(url, p, end, 1);
  }

  lemma NoCutWithin(url: string, any: string, start: nat, end: nat)
    requires start <= end <= |url| && end <= FindFrom(url, any, start)
    ensures Before(url[start..end], any) == url[start..end] && From(url[start..end], any) == ""
  {
    FoundWithin(url, any, start, end);
  }

  /** What is before and what is behind the first of some characters, between two positions. */
  method ReadSplit(url: string, any: string, start: nat, end: nat) returns (front: string, back: string)
    requires start <= end <= |url|
    ensures front == Before(url[start..end], any) && back == Behind(url[start..end], any)
  {
    var p := FindFrom(url, any, start);
    if p >= end {
      NoCutWithin(url, any, start, end);
      return url[start..end], "";
    }
    CutWithin(url, any, start, end);
    return url[start..p], url[p + 1..end];
  }

  /** The user information of an authority, in terms of positions. */
  ghost function UserAt(url: string, start: nat, end: nat): UserInfo
    requires start <= end <= |url|
  {
    var at := FindFrom(url, "@", start);
    if at >= end then UserInfo("", "", url[start..end])
    else if FindFrom(url, "@", at + 1) < end then TwoAtSigns
    else UserInfo(Before(url[start..at], ":"), Behind(url[start..at], ":"), url[at + 1..end])
  }

  lemma SplitByPosition(url: string, start: nat, end: nat)
    requires start <= end <= |url|
    ensures SplitAuthority(url[start..end]) == UserAt(url, start, end)
  {
    var at := FindFrom(url, "@", start);
    if at >= end {
      NoCutWithin(url, "@", start, end);
    } else {
      CutWithin(url, "@", start, end);
      if FindFrom(url, "@", at + 1) < end {
        CutWithin(url, "@", at + 1, end);
      } else {
        NoCutWithin(url, "@", at + 1, end);
      }
    }
  }

  /** Step 4: user name, password, and where the host starts. */
  method ReadUser(url: string, start: nat, authorityEnd: nat)
    returns (valid: bool, userName: string, password: string, current: nat)
    requires start <= authorityEnd <= |url|
    ensures start <= current <= authorityEnd
    ensures UserAt(url, start, authorityEnd)
         == if valid then UserInfo(userName, password, url[current..authorityEnd]) else TwoAtSigns
  {
    valid, userName, password, current := true, "", "", start;
    var atPos := FindFrom(url, "@", start);
    if atPos >= authorityEnd {
      return;
    }
    if FindFrom(url, "@", atPos + 1) < authorityEnd {
      valid := false;
      return;
    }
    userName, password := ReadSplit(url, ":", start, atPos);
    current := atPos + 1;
  }

  /** Steps 4 and 5. */
  method ReadAuthority(url: string, start: nat, authorityEnd: nat) returns (r: Result<Authority>)
    requires start <= |url| && authorityEnd == FindFrom(url, "/?", start)
    ensures r == ParseAuthority(url[start..authorityEnd])
  {
    SplitByPosition(url, start, authorityEnd);
    var valid, userName, password, current := ReadUser(url, start, authorityEnd);
    if !valid {
      return Err(MultipleAtSigns);
    }
    var end := FindFrom(url, "/?", current);
    SameEnd(url, start, current);
    var host := ReadHost(url, current, end);
    match host
    case Err(e) => return Err(e);
    case Ok(parts) => return Ok(Authority(userName, password, parts.0, parts.1));
  }

  /** The authority ends at the same place when it is looked for behind the user information. */
  lemma {:induction false} SameEnd(url: string, start: nat, current: nat)
    requires start <= |url| && start <= current <= FindFrom(url, "/?", start)
    ensures FindFrom(url, "/?", current) == FindFrom(url, "/?", start)
    decreases current - start
  {
    if start < current {
      SameEnd(url, start + 1, current);
    }
  }

  lemma CutAt(url: string, any: string, start: nat)
    requires start <= |url|
    ensures var end := FindFrom(url, any, start);
      Before(url[start..], any) == url[start..end] && From(url[start..], any) == url[end..]
  {
    var end := FindFrom(url, any, start);
    FoundBehind(url, any, start);
    StartOfRest(url, start, end - start);
    RestOfRest(url, start, end - start);
  }

  lemma CutAtStart(url: string, any: string)
    ensures var end := FindFrom(url, any, 0);
      && Before(url, any) == url[..end]
      && (From(url, any) == "" <==> end == |url|)
      && (end < |url| ==> From(url, any)[1..] == url[end + 1..])
  {
    assert url[0..] == url;
    CutAt(url, any, 0);
    var end := FindFrom(url, any, 0);
    if end < |url| {
      RestOfRest(url, end, 1);
    }
  }

  /** Steps 9 and 10. */
  method ReadBehindPath(path: string, url: string, current: nat) returns (tail: Tail)
    requires current <= |url| && (current < |url| ==> url[current] in "?#")
    ensures tail == ParseBehindPath(path, url[current..])
  {
    var query, fragment := "", "";
    if current < |url| {
      RestOfRest(url, current, 1);
      if url[current] == '?' {
        assert url[current + 1..|url|] == url[current + 1..];
        query, fragment := ReadSplit(url, "#", current + 1, |url|);
      } else {
        fragment := url[current + 1..];
      }
    }
    return Tail(path, query, fragment);
  }

  /** Steps 6 to 10. The error of step 7, that neither '/' nor '?' follows the authority, cannot occur. */
  method ReadTail(url: string, authorityEnd: nat) returns (tail: Tail)
    requires authorityEnd <= |url|
    requires authorityEnd < |url| ==> url[authorityEnd] in "/?"
    ensures tail == ParseTail(url[authorityEnd..])
  {
    var current := authorityEnd;
    if current >= |url| {
      return Tail("", "", "");
    }
    if url[current] == '/' {
      RestOfRest(url, current, 1);
      current := current + 1;
    }
    CutAt(url, "?#", current);
    var pathEnd := FindFrom(url, "?#", current);
    var path := url[current..pathEnd];
    tail := ReadBehindPath(path, url, pathEnd);
  }

  /** Steps 2 to 10. */
  method ReadBehindScheme(scheme: string, url: string, start: nat) returns (r: Result<Url>)
    requires start <= |url|
    ensures r == ParseBehindScheme(scheme, url[start..])
  {
    var current := start;
    if current + 1 >= |url| || url[current] != '/' || url[current + 1] != '/' {
      return Err(NoDoubleSlash);
    }
    RestOfRest(url, current, 2);
    current := current + 2;
    CutAt(url, "/?", current);
    var authorityEnd := FindFrom(url, "/?", current);
    var authority := ReadAuthority(url, current, authorityEnd);
    match authority
    case Err(e) => return Err(e);
    case Ok(a) =>
      var tail := ReadTail(url, authorityEnd);
      return Ok(Url(Lower(scheme), a, tail));
  }

  /** Steps 1 to 10: what the parser finds with its one cursor is what the parts of the text say. */
  method ParseURL(url: string) returns (r: Result<Url>)
    ensures r == ParseUrl(url)
  {
    CutAtStart(url, ":");
    var schemeEnd := FindFrom(url, ":", 0);
    if schemeEnd == |url| {
      return Err(NoUrlCharacter);
    }
    var scheme := url[..schemeEnd];
    if !IsSchemeValid(scheme) {
      return Err(InvalidSchemeName);
    }
    r := ReadBehindScheme(scheme, url, schemeEnd + 1);
  }

  /** The port as a number, and whether it is one from 1 to 65535. */
  method GetPort(text: string) returns (found: bool, port: int)
    ensures found <==> 0 < Number(text) <= 65535
    ensures found ==> port == Number(text)
  {
    port := Number(text);
    found := !(port <= 0 || port > 65535);
  }

  /** What the caller is told: nothing new if the URL does not parse, and otherwise each part of its target. */
  method ParseTarget(url: string) returns (r: Option<Target>)
    ensures r == Parse(url)
  {
    var res := ParseURL(url);
    if res.Err? {
      return None;
    }
    var protocol, path, query := res.value.scheme, res.value.tail.path, res.value.tail.query;
    var protocolPort := ProtocolPort(protocol);
    var found, port := GetPort(res.value.authority.port);
    if !found {
      port := protocolPort;
    }
    if path == "" {
      path := "/";
    } else if path[0] != '/' {
      path := "/" + path;
    }
    if query != "" {
      path := path + ("?" + query);
    }
    return Some(Target(protocol, res.value.authority.host, path, query, port, port == protocolPort));
  }
}
