/** Building a database URL from a secret, and reading it back as RFC 3986 says. */
module DatabaseUrl {
  import opened Text
  import opened Wrappers
  import opened PercentEncoding

  // ---------- cutting at delimiters ----------

  /** Where the first of these characters stands, or the length of the text. */
  function Span(s: string, stops: set<char>): (i: nat)
    ensures i <= |s| && (i < |s| ==> s[i] in stops) && forall j :: 0 <= j < i ==> s[j] !in stops
  {
    if s == "" || s[0] in stops then 0 else 1 + Span(s[1..], stops)
  }

  lemma SpanStops(a: string, c: char, b: string, stops: set<char>)
    requires c in stops && forall x :: x in a ==> x !in stops
    ensures Span(a + [c] + b, stops) == |a|
  {
    var s := a + [c] + b;
    assert s[|a|] == c;
    assert forall j :: 0 <= j < |a| ==> s[j] == a[j];
  }

  // ---------- the reader: sections 3.2 and 2.1 of RFC 3986 ----------

  /** The sub-delimiters of section 2.2. */
  predicate SubDelim(c: char) { c in "!$&'()*+,;=" }

  /** A registered name (section 3.2.2): unreserved characters, sub-delimiters and percent-encoded octets, decoded. */
  function ReadHost(s: string): Option<string> {
    if exists i :: 0 <= i < |s| && !Plain(s[i]) && !SubDelim(s[i]) then None else Read(s)
  }

  datatype Parts = Parts(scheme: string, user: string, password: string, host: string, port: int, database: string)

  /** `scheme "://" user ":" password "@" host ":" port "/" database`, with its parts decoded. */
  function ReadUrl(url: string): Option<Parts> {
    var i := Span(url, {':'});
    if |url| < i + 3 || url[i..i + 3] != "://" then None else ReadRest(url[..i], url[i + 3..])
  }

  function ReadRest(scheme: string, rest: string): Option<Parts> {
    var j := Span(rest, {'/', '?', '#'});
    var authority, tail := rest[..j], rest[j..];
    var k := Span(authority, {'@'});
    if k == |authority| || tail == "" || tail[0] != '/' then None
    else ReadParts(scheme, authority[..k], authority[k + 1..], UntilQuery(tail[1..]))
  }

  function UntilQuery(path: string): string { path[..Span(path, {'?', '#'})] }

  function ReadParts(scheme: string, userinfo: string, hostport: string, path: string): Option<Parts> {
    var u, h := Span(userinfo, {':'}), Span(hostport, {':'});
    if u == |userinfo| || h == |hostport| || !IsDigits(hostport[h + 1..]) then None
    else
      var user, password := Read(userinfo[..u]), Read(userinfo[u + 1..]);
      var host, database := ReadHost(hostport[..h]), Read(path);
      if user == None || password == None || host == None || database == None then None
      else Some(Parts(scheme, user.value, password.value, host.value, Number(hostport[h + 1..]), database.value))
  }

  // ---------- the checks of the builder ----------

  predicate IsControl(c: char) { c < ' ' || c == '\U{7F}' }

  predicate HasControl(s: string) { exists i :: 0 <= i < |s| && IsControl(s[i]) }

  predicate HasSpace(s: string) { exists i :: 0 <= i < |s| && IsSpace(s[i]) }

  predicate ForbiddenInHost(c: char) { c == '/' || c == '@' || c == '?' || c == '#' }

  function ValidHost(value: string): string {
    var host := Strip(value);
    if LowerAscii(host) in {"", "null", "undefined", "none"} || HasControl(host) then ""
    else if exists i :: 0 <= i < |host| && ForbiddenInHost(host[i]) then ""
    else host
  }

  /**
   * What the URL library decides by itself: an authority it refuses for its Unicode form, and what it makes of
   * an authority with brackets (a host and a port, or an error).
   */
  datatype Library = Library(odd: string -> bool, bracketed: string -> Option<(string, Option<int>)>)

  predicate SchemeText(s: string) {
    && s != "" && ('a' <= s[0] <= 'z' || 'A' <= s[0] <= 'Z')
    && forall i :: 0 <= i < |s| ==>
         'a' <= s[i] <= 'z' || 'A' <= s[i] <= 'Z' || '0' <= s[i] <= '9' || s[i] == '+' || s[i] == '-' || s[i] == '.'
  }

  function SchemeOf(url: string): string {
    var i := Span(url, {':'});
    if i < |url| && SchemeText(url[..i]) then LowerAscii(url[..i]) else ""
  }

  function NetlocOf(rest: string): string {
    if !StartsWith(rest, "//") then "" else rest[2..][..Span(rest[2..], {'/', '?', '#'})]
  }

  function AuthorityOf(url: string): string {
    NetlocOf(if SchemeOf(url) == "" then url else url[Span(url, {':'}) + 1..])
  }

  function AfterLast(s: string, c: char): string {
    if s == "" then "" else if c in s[1..] then AfterLast(s[1..], c) else if s[0] == c then s[1..] else s
  }

  /** The port after the first colon: absent, a number in range, or an error. */
  function PortOf(text: string): Option<Option<int>> {
    if text == "" then Some(None)
    else if IsDigits(text) && Number(text) <= 65535 then Some(Some(Number(text)))
    else None
  }

  function HostAndPort(lib: Library, authority: string): Option<(string, Option<int>)> {
    var info := AfterLast(authority, '@');
    if lib.odd(authority) then None
    else if '[' in authority || ']' in authority then lib.bracketed(info)
    else
      var i := Span(info, {':'});
      var port := PortOf(if i < |info| then info[i + 1..] else "");
      if port == None then None else Some((info[..i], port.value))
  }

  const SCHEMES: set<string> := {"postgres", "postgresql", "mysql", "mysql2", "mariadb"}

  /** The URL names no usable database host. */
  predicate Rejects(lib: Library, value: string) {
    var raw := Strip(value);
    var authority := AuthorityOf(raw);
    var parsed := HostAndPort(lib, authority);
    || raw == "" || parsed == None
    || SchemeOf(raw) !in SCHEMES || authority == ""
    || ValidHost(parsed.value.0) == ""
    || (parsed.value.1.Some? && !(1 <= parsed.value.1.value <= 65535))
    || HasControl(raw) || HasSpace(raw) || Contains(raw, "@:")
  }

  // ---------- the builder ----------

  /**
   * `port` is the number its text stands for (5432 when there is none), if it stands for one; `engine` is
   * `postgres` when there is none.
   */
  datatype Secret = Secret(user: string, password: string, host: string, port: Option<int>, database: string, engine: string)

  datatype ErrorCode = InvalidConfiguration | MissingHost | InvalidPort | IncompleteCredentials

  datatype Built = Built(lines: seq<string>, url: string) | Refused(code: ErrorCode)

  predicate IsMySql(s: Secret) {
    var engine := LowerAscii(s.engine);
    Contains(engine, "mysql") || Contains(engine, "mariadb")
  }

  function Scheme(mysql: bool): string { if mysql then "mysql" else "postgresql" }

  function UrlText(scheme: string, user: string, password: string, host: string, port: nat, database: string): string {
    scheme + ":" + ("//" + (Quote(user) + ":" + Quote(password) + "@" + (host + ":" + Decimal(port))) + "/" + Quote(database))
  }

  function HostOf(secret: Secret, endpoint: string): string { OrElse(ValidHost(secret.host), ValidHost(endpoint)) }

  function DatabaseOf(s: Secret): string { OrElse(Strip(s.database), "appdb") }

  function UrlOf(s: Secret, endpoint: string): string
    requires s.port.Some? && s.port.value >= 0
  {
    UrlText(Scheme(IsMySql(s)), Strip(s.user), Strip(s.password), HostOf(s, endpoint), s.port.value, DatabaseOf(s))
  }

  /** The error for an incomplete secret, if it is one. */
  function Incomplete(s: Secret, endpoint: string): Option<ErrorCode> {
    if HostOf(s, endpoint) == "" then Some(MissingHost)
    else if s.port == None || !(1 <= s.port.value <= 65535) then Some(InvalidPort)
    else if Strip(s.user) == "" || Strip(s.password) == "" then Some(IncompleteCredentials)
    else if HasControl(Strip(s.user)) || HasControl(Strip(s.password)) || HasControl(DatabaseOf(s)) then
      Some(InvalidConfiguration)
    else None
  }

  function Lines(s: Secret, host: string, url: string): seq<string>
    requires s.port.Some? && s.port.value >= 0
  {
    ["PGHOST=" + host, "PGPORT=" + Decimal(s.port.value), "PGUSER=" + Strip(s.user), "PGPASSWORD=" + Strip(s.password),
     "PGDATABASE=" + DatabaseOf(s), "DATABASE_URL=" + url]
  }

  function Build(lib: Library, secret: Option<Secret>, endpoint: string, explicitUrl: string): Built {
    if explicitUrl != "" then
      if Rejects(lib, Strip(explicitUrl)) then Refused(InvalidConfiguration)
      else Built(["DATABASE_URL=" + Strip(explicitUrl)], Strip(explicitUrl))
    else if secret == None then Refused(InvalidConfiguration)
    else if Incomplete(secret.value, endpoint).Some? then Refused(Incomplete(secret.value, endpoint).value)
    else if Rejects(lib, UrlOf(secret.value, endpoint)) then Refused(InvalidConfiguration)
    else
      var s := secret.value;
      Built(Lines(s, HostOf(s, endpoint), UrlOf(s, endpoint)), UrlOf(s, endpoint))
  }

  // ---------- the shape of a built URL ----------

  ghost predicate FreeOf(s: string, stops: set<char>) { forall c :: c in s ==> c !in stops }

  const DELIMITERS: set<char> := {':', '/', '?', '#', '@', '[', ']'}

  lemma QuotedIsFree(s: string)
    ensures FreeOf(Quote(s), DELIMITERS)
  {
    QuotedIsPlain(Utf8(s));
  }

  lemma DecimalIsFree(n: nat)
    ensures FreeOf(Decimal(n), DELIMITERS)
  {
    DecimalReadsBack(n);
  }

  lemma ValidHostIsFree(value: string)
    ensures FreeOf(ValidHost(value), {'/', '?', '#', '@'})
    ensures ValidHost(value) != "" ==> ValidHost(value) == Strip(value) && !HasControl(ValidHost(value))
  {
    var host := Strip(value);
    if ValidHost(value) != "" {
      forall c | c in host ensures c !in {'/', '?', '#', '@'} {
        var i :| 0 <= i < |host| && host[i] == c;
        assert !ForbiddenInHost(host[i]);
      }
    }
  }

  lemma HostOfIsFree(secret: Secret, endpoint: string)
    ensures FreeOf(HostOf(secret, endpoint), {'/', '?', '#', '@'})
    ensures HostOf(secret, endpoint) != "" ==> !HasControl(HostOf(secret, endpoint))
    ensures HostOf(secret, endpoint) != "" ==> ValidHost(HostOf(secret, endpoint)) == HostOf(secret, endpoint)
  {
    ValidHostIsFree(secret.host);
    ValidHostIsFree(endpoint);
    StripIsIdempotent(secret.host);
    StripIsIdempotent(endpoint);
  }

  /** The text between the two slashes of the authority and the slash of the path. */
  function Authority(user: string, password: string, host: string, port: nat): string {
    Quote(user) + ":" + Quote(password) + "@" + (host + ":" + Decimal(port))
  }

  lemma AuthorityIsFree(user: string, password: string, host: string, port: nat)
    requires FreeOf(host, {'/', '?', '#', '@'})
    ensures FreeOf(Authority(user, password, host, port), {'/', '?', '#'})
    ensures FreeOf(Quote(user) + ":" + Quote(password), {'@'}) && FreeOf(host + ":" + Decimal(port), {'@'})
  {
    QuotedIsFree(user);
    QuotedIsFree(password);
    DecimalIsFree(port);
  }

  lemma AuthorityCuts(user: string, password: string, host: string, port: nat)
    requires FreeOf(host, {'/', '?', '#', '@'})
    ensures var authority, info := Authority(user, password, host, port), Quote(user) + ":" + Quote(password);
      && Span(authority, {'@'}) == |info| < |authority|
      && authority[..|info|] == info && authority[|info| + 1..] == host + ":" + Decimal(port)
      && Span(info, {':'}) == |Quote(user)| < |info|
      && info[..|Quote(user)|] == Quote(user) && info[|Quote(user)| + 1..] == Quote(password)
  {
    var info := Quote(user) + ":" + Quote(password);
    AuthorityIsFree(user, password, host, port);
    SpanStops(info, '@', host + ":" + Decimal(port), {'@'});
    QuotedIsFree(user);
    SpanStops(Quote(user), ':', Quote(password), {':'});
  }

  lemma HostCuts(host: string, port: nat)
    requires FreeOf(host, {':'})
    ensures var hostport := host + ":" + Decimal(port);
      Span(hostport, {':'}) == |host| < |hostport| && hostport[..|host|] == host && hostport[|host| + 1..] == Decimal(port)
  {
    SpanStops(host, ':', Decimal(port), {':'});
  }

  function WithHost(
      scheme: string, user: string, password: string, host: Option<string>, port: int, database: string): Option<Parts> {
    if host == None then None else Some(Parts(scheme, user, password, host.value, port, database))
  }

  lemma RestReadsBack(scheme: string, user: string, password: string, host: string, port: nat, database: string)
    requires FreeOf(scheme, {':'}) && FreeOf(host, {'/', '?', '#', '@', ':'})
    ensures ReadRest(scheme, Authority(user, password, host, port) + "/" + Quote(database))
         == WithHost(scheme, user, password, ReadHost(host), port, database)
  {
    var info, hostport := Quote(user) + ":" + Quote(password), host + ":" + Decimal(port);
    AuthorityIsFree(user, password, host, port);
    assert Authority(user, password, host, port) == info + "@" + hostport;
    QuotedIsFree(user);
    QuotedIsFree(password);
    QuotedIsFree(database);
    RestIsParts(scheme, info, hostport, Quote(database));
    PartsReadBack(scheme, user, password, host, port, database);
  }

  lemma RestIsParts(scheme: string, info: string, hostport: string, path: string)
    requires FreeOf(info, {'/', '?', '#', '@'}) && FreeOf(hostport, {'/', '?', '#'}) && FreeOf(path, {'?', '#'})
    ensures ReadRest(scheme, info + "@" + hostport + "/" + path) == ReadParts(scheme, info, hostport, path)
  {
    var authority := info + "@" + hostport;
    var rest := authority + "/" + path;
    SpanStops(authority, '/', path, {'/', '?', '#'});
    SpanStops(info, '@', hostport, {'@'});
    assert rest[..|authority|] == authority && rest[|authority|..] == "/" + path && ("/" + path)[1..] == path;
    assert authority[..|info|] == info && authority[|info| + 1..] == hostport;
    assert UntilQuery(path) == path;
  }

  lemma SchemeCuts(scheme: string, rest: string)
    ensures var url := scheme + ":" + ("//" + rest); var n := |scheme|;
      n + 3 <= |url| && url[..n] == scheme && url[n..n + 3] == "://" && url[n + 3..] == rest
  {
    var url := scheme + ":" + ("//" + rest);
    assert url == scheme + ("://" + rest);
  }

  lemma ReadsPastTheScheme(scheme: string, rest: string)
    requires FreeOf(scheme, {':'})
    ensures ReadUrl(scheme + ":" + ("//" + rest)) == ReadRest(scheme, rest)
  {
    SpanStops(scheme, ':', "//" + rest, {':'});
    SchemeCuts(scheme, rest);
  }

  lemma RegroupPath(authority: string, path: string)
    ensures "//" + authority + "/" + path == "//" + (authority + "/" + path)
  {
  }

  /** When the host has no colon, the reader gives back what went into the URL, and what it makes of the host. */
  lemma UrlReadsBack(scheme: string, user: string, password: string, host: string, port: nat, database: string)
    requires FreeOf(scheme, {':'}) && FreeOf(host, {'/', '?', '#', '@', ':'})
    ensures ReadUrl(UrlText(scheme, user, password, host, port, database))
         == WithHost(scheme, user, password, ReadHost(host), port, database)
  {
    var authority := Authority(user, password, host, port);
    RegroupPath(authority, Quote(database));
    ReadsPastTheScheme(scheme, authority + "/" + Quote(database));
    RestReadsBack(scheme, user, password, host, port, database);
  }

  lemma PartsReadBack(scheme: string, user: string, password: string, host: string, port: nat, database: string)
    requires FreeOf(host, {'/', '?', '#', '@', ':'})
    ensures ReadParts(scheme, Quote(user) + ":" + Quote(password), host + ":" + Decimal(port), Quote(database))
         == WithHost(scheme, user, password, ReadHost(host), port, database)
  {
    AuthorityCuts(user, password, host, port);
    HostCuts(host, port);
    QuoteReadsBack(user);
    QuoteReadsBack(password);
    QuoteReadsBack(database);
    DecimalReadsBack(port);
  }

  // ---------- what the check accepts ----------

  lemma {:induction false} AfterLastAt(a: string, b: string, c: char)
    requires c !in b
    ensures AfterLast(a + [c] + b, c) == b
  {
    var s := a + [c] + b;
    if a == "" {
      assert s[1..] == b;
    } else {
      assert s[1..] == a[1..] + [c] + b;
      assert s[1..][|a| - 1] == c;
      AfterLastAt(a[1..], b, c);
    }
  }

  lemma SchemeIsSupported(mysql: bool)
    ensures SchemeText(Scheme(mysql)) && LowerAscii(Scheme(mysql)) == Scheme(mysql) && FreeOf(Scheme(mysql), {':'})
    ensures Scheme(mysql) in SCHEMES
  {
    SchemeIsLowercase(mysql);
    LowercaseIsAScheme(Scheme(mysql));
    LowerIsLower(Scheme(mysql));
  }

  ghost predicate Lowercase(s: string) { s != "" && forall i :: 0 <= i < |s| ==> 'a' <= s[i] <= 'z' }

  lemma SchemeIsLowercase(mysql: bool)
    ensures Lowercase(Scheme(mysql)) && Scheme(mysql) in SCHEMES
  {
  }

  lemma LowercaseIsAScheme(s: string)
    requires Lowercase(s)
    ensures SchemeText(s) && FreeOf(s, {':'})
  {
  }

  lemma {:induction false} LowerIsLower(s: string)
    requires forall i :: 0 <= i < |s| ==> 'a' <= s[i] <= 'z'
    ensures LowerAscii(s) == s
  {
    if s != "" {
      LowerIsLower(s[1..]);
      assert [s[0]] + s[1..] == s;
    }
  }

  lemma SchemeParses(scheme: string, rest: string)
    requires SchemeText(scheme) && LowerAscii(scheme) == scheme && FreeOf(scheme, {':'})
    ensures SchemeOf(scheme + ":" + rest) == scheme
  {
    SpanStops(scheme, ':', rest, {':'});
    var url := scheme + ":" + rest;
    assert url == scheme + [':'] + rest && url[..|scheme|] == scheme;
  }

  lemma NetlocParses(authority: string, path: string)
    requires FreeOf(authority, {'/', '?', '#'})
    ensures NetlocOf("//" + authority + "/" + path) == authority
  {
    var after, rest := "//" + authority + "/" + path, authority + "/" + path;
    SpanStops(authority, '/', path, {'/', '?', '#'});
    assert after == "//" + rest && after[2..] == rest && rest[..|authority|] == authority;
  }

  lemma AuthorityParses(scheme: string, authority: string, path: string)
    requires SchemeText(scheme) && LowerAscii(scheme) == scheme && FreeOf(scheme, {':'})
    requires FreeOf(authority, {'/', '?', '#'})
    ensures AuthorityOf(scheme + ":" + ("//" + authority + "/" + path)) == authority
  {
    var after := "//" + authority + "/" + path;
    SchemeParses(scheme, after);
    SpanStops(scheme, ':', after, {':'});
    NetlocParses(authority, path);
    var url := scheme + ":" + after;
    assert url[|scheme| + 1..] == after;
  }

  /** The library finds the scheme and the authority of a built URL. */
  lemma BuiltUrlParses(scheme: string, user: string, password: string, host: string, port: nat, database: string)
    requires SchemeText(scheme) && LowerAscii(scheme) == scheme && FreeOf(scheme, {':'})
    requires FreeOf(host, {'/', '?', '#', '@'})
    ensures var url := UrlText(scheme, user, password, host, port, database);
      SchemeOf(url) == scheme && AuthorityOf(url) == Authority(user, password, host, port)
  {
    var authority := Authority(user, password, host, port);
    AuthorityIsFree(user, password, host, port);
    SchemeParses(scheme, "//" + authority + "/" + Quote(database));
    AuthorityParses(scheme, authority, Quote(database));
  }

  lemma PortOfDecimal(port: nat)
    requires port <= 65535
    ensures PortOf(Decimal(port)) == Some(Some(port))
  {
    DecimalReadsBack(port);
  }

  predicate Bracketed(host: string) { '[' in host || ']' in host }

  lemma NoBracketsInAuthority(user: string, password: string, host: string, port: nat)
    ensures Bracketed(Authority(user, password, host, port)) <==> Bracketed(host)
  {
    QuotedIsFree(user);
    QuotedIsFree(password);
    DecimalIsFree(port);
  }

  lemma InfoOfAuthority(user: string, password: string, host: string, port: nat)
    requires FreeOf(host, {'/', '?', '#', '@'})
    ensures AfterLast(Authority(user, password, host, port), '@') == host + ":" + Decimal(port)
  {
    AuthorityIsFree(user, password, host, port);
    AfterLastAt(Quote(user) + ":" + Quote(password), host + ":" + Decimal(port), '@');
  }

  /** Without brackets the library finds the host and the port, unless the host has a colon: then it finds an error. */
  lemma HostAndPortOfBuilt(lib: Library, user: string, password: string, host: string, port: nat)
    requires FreeOf(host, {'/', '?', '#', '@'}) && !Bracketed(host) && port <= 65535
    ensures var authority := Authority(user, password, host, port);
      HostAndPort(lib, authority) == if lib.odd(authority) || ':' in host then None else Some((host, Some(port)))
  {
    var authority, info := Authority(user, password, host, port), host + ":" + Decimal(port);
    NoBracketsInAuthority(user, password, host, port);
    InfoOfAuthority(user, password, host, port);
    var i := Span(info, {':'});
    if ':' in host {
      ColonStaysInPort(host, port);
    } else {
      HostCuts(host, port);
      PortOfDecimal(port);
    }
  }

  lemma ColonStaysInPort(host: string, port: nat)
    requires ':' in host
    ensures var info := host + ":" + Decimal(port);
      Span(info, {':'}) < |info| && PortOf(info[Span(info, {':'}) + 1..]) == None
  {
    var info := host + ":" + Decimal(port);
    var k :| 0 <= k < |host| && host[k] == ':';
    var i := Span(info, {':'});
    assert info[k] == ':' && i <= k;
    var text := info[i + 1..];
    assert text[|host| - i - 1] == info[|host|] == ':';
  }

  predicate UrlChar(c: char) { Plain(c) || c == ':' || c == '/' || c == '@' }

  lemma PlainHasNoBlanks(s: string)
    requires forall c :: c in s ==> UrlChar(c)
    ensures !HasControl(s) && !HasSpace(s)
  {
    forall i | 0 <= i < |s| ensures !IsControl(s[i]) && !IsSpace(s[i]) { assert UrlChar(s[i]); }
  }

  lemma BlanksOfConcat(a: string, b: string)
    ensures HasControl(a + b) <==> HasControl(a) || HasControl(b)
    ensures HasSpace(a + b) <==> HasSpace(a) || HasSpace(b)
  {
    var s := a + b;
    assert forall i :: 0 <= i < |a| ==> s[i] == a[i];
    assert forall i :: 0 <= i < |b| ==> s[|a| + i] == b[i];
    if HasControl(b) { var i :| 0 <= i < |b| && IsControl(b[i]); assert IsControl(s[|a| + i]); }
    if HasSpace(b) { var i :| 0 <= i < |b| && IsSpace(b[i]); assert IsSpace(s[|a| + i]); }
    if HasControl(a) { var i :| 0 <= i < |a| && IsControl(a[i]); assert IsControl(s[i]); }
    if HasSpace(a) { var i :| 0 <= i < |a| && IsSpace(a[i]); assert IsSpace(s[i]); }
  }

  function Front(mysql: bool, user: string, password: string): string {
    Scheme(mysql) + "://" + (Quote(user) + ":" + Quote(password))
  }

  function Back(port: nat, database: string): string { ":" + Decimal(port) + "/" + Quote(database) }

  lemma UrlAroundHost(mysql: bool, user: string, password: string, host: string, port: nat, database: string)
    ensures UrlText(Scheme(mysql), user, password, host, port, database)
         == (Front(mysql, user, password) + "@") + host + Back(port, database)
  {
    Regroup(Scheme(mysql), Quote(user) + ":" + Quote(password), host, Decimal(port), Quote(database));
  }

  lemma Regroup(a: string, b: string, c: string, d: string, e: string)
    ensures a + ":" + ("//" + (b + "@" + (c + ":" + d)) + "/" + e) == ((a + "://" + b) + "@") + c + (":" + d + "/" + e)
  {
  }

  /** Characters of a URL, and no at sign. */
  ghost predicate Bare(s: string) { forall c :: c in s ==> UrlChar(c) && c != '@' }

  lemma QuotedIsBare(s: string)
    ensures Bare(Quote(s))
  {
    QuotedIsPlain(Utf8(s));
  }

  lemma FrontAndBackArePlain(mysql: bool, user: string, password: string, port: nat, database: string)
    ensures Bare(Front(mysql, user, password)) && Bare(Back(port, database))
  {
    QuotedIsBare(user);
    QuotedIsBare(password);
    QuotedIsBare(database);
    SchemeIsBare(mysql);
    DecimalIsBare(port);
    BareConcat(Quote(user), ":");
    BareConcat(Quote(user) + ":", Quote(password));
    BareConcat(Scheme(mysql), "://");
    BareConcat(Scheme(mysql) + "://", Quote(user) + ":" + Quote(password));
    BareConcat(":", Decimal(port));
    BareConcat(":" + Decimal(port), "/");
    BareConcat(":" + Decimal(port) + "/", Quote(database));
  }

  lemma BareConcat(a: string, b: string)
    requires Bare(a) && Bare(b)
    ensures Bare(a + b)
  {
  }

  lemma SchemeIsBare(mysql: bool)
    ensures Bare(Scheme(mysql)) && Bare("://") && Bare(":") && Bare("/")
  {
    SchemeIsLowercase(mysql);
    forall c | c in Scheme(mysql) ensures UrlChar(c) && c != '@' {
      var i :| 0 <= i < |Scheme(mysql)| && Scheme(mysql)[i] == c;
    }
  }

  lemma DecimalIsBare(n: nat)
    ensures Bare(Decimal(n))
  {
    DecimalReadsBack(n);
    forall c | c in Decimal(n) ensures UrlChar(c) && c != '@' {
      var i :| 0 <= i < |Decimal(n)| && Decimal(n)[i] == c;
    }
  }

  lemma UrlBlanksAreTheHosts(mysql: bool, user: string, password: string, host: string, port: nat, database: string)
    ensures var url := UrlText(Scheme(mysql), user, password, host, port, database);
      (HasControl(url) <==> HasControl(host)) && (HasSpace(url) <==> HasSpace(host))
  {
    var front, back := Front(mysql, user, password) + "@", Back(port, database);
    UrlAroundHost(mysql, user, password, host, port, database);
    FrontAndBackArePlain(mysql, user, password, port, database);
    PlainHasNoBlanks(front);
    PlainHasNoBlanks(back);
    BlanksOfConcat(front, host);
    BlanksOfConcat(front + host, back);
  }

  lemma OnlyOneAt(front: string, host: string, back: string)
    requires '@' !in front && '@' !in host && '@' !in back && host != "" && host[0] != ':'
    ensures !Contains((front + "@") + host + back, "@:")
  {
    var url := (front + "@") + host + back;
    forall i | 0 <= i <= |url| ensures !StartsWith(url[i..], "@:") {
      var t := url[i..];
      if i < |front| {
        assert t[0] == front[i];
      } else if i == |front| {
        assert t[1] == host[0];
      } else if i < |url| {
        assert t[0] == (host + back)[i - |front| - 1];
      }
    }
  }

  lemma NoEmptyHostMark(mysql: bool, user: string, password: string, host: string, port: nat, database: string)
    requires FreeOf(host, {'/', '?', '#', '@'}) && host != "" && host[0] != ':'
    ensures !Contains(UrlText(Scheme(mysql), user, password, host, port, database), "@:")
  {
    UrlAroundHost(mysql, user, password, host, port, database);
    FrontAndBackArePlain(mysql, user, password, port, database);
    OnlyOneAt(Front(mysql, user, password), host, Back(port, database));
  }

  lemma UrlIsStripped(mysql: bool, user: string, password: string, host: string, port: nat, database: string)
    ensures var url := UrlText(Scheme(mysql), user, password, host, port, database); url != "" && Strip(url) == url
  {
    var url := UrlText(Scheme(mysql), user, password, host, port, database);
    var front, back := Front(mysql, user, password), Back(port, database);
    UrlAroundHost(mysql, user, password, host, port, database);
    FrontAndBackArePlain(mysql, user, password, port, database);
    assert front[0] in front && back[|back| - 1] in back;
    assert url[0] == front[0] && url[|url| - 1] == back[|back| - 1];
    StripNothing(url);
  }

  lemma RejectsByHost(lib: Library, url: string, authority: string, host: string, port: nat)
    requires url != "" && Strip(url) == url && AuthorityOf(url) == authority != "" && SchemeOf(url) in SCHEMES
    requires host != "" && ValidHost(host) == host && 1 <= port <= 65535
    requires HostAndPort(lib, authority) == if lib.odd(authority) || ':' in host then None else Some((host, Some(port)))
    requires !HasControl(url) && (HasSpace(url) <==> HasSpace(host)) && (':' !in host ==> !Contains(url, "@:"))
    ensures Rejects(lib, url) <==> ':' in host || HasSpace(host) || lib.odd(authority)
  {
  }

  /** The check turns a built URL down exactly for a colon or a blank in the host, or for its Unicode form. */
  lemma RejectsExactly(lib: Library, mysql: bool, user: string, password: string, host: string, port: nat, database: string)
    requires FreeOf(host, {'/', '?', '#', '@'}) && !Bracketed(host) && 1 <= port <= 65535
    requires host != "" && ValidHost(host) == host && !HasControl(host)
    ensures Rejects(lib, UrlText(Scheme(mysql), user, password, host, port, database))
       <==> ':' in host || HasSpace(host) || lib.odd(Authority(user, password, host, port))
  {
    var authority := Authority(user, password, host, port);
    UrlIsStripped(mysql, user, password, host, port, database);
    SchemeIsSupported(mysql);
    BuiltUrlParses(Scheme(mysql), user, password, host, port, database);
    HostAndPortOfBuilt(lib, user, password, host, port);
    UrlBlanksAreTheHosts(mysql, user, password, host, port, database);
    if ':' !in host { NoEmptyHostMark(mysql, user, password, host, port, database); }
    RejectsByHost(lib, UrlText(Scheme(mysql), user, password, host, port, database), authority, host, port);
  }

  ghost predicate Complete(s: Secret, endpoint: string) {
    && HostOf(s, endpoint) != "" && s.port.Some? && 1 <= s.port.value <= 65535
    && Strip(s.user) != "" && Strip(s.password) != ""
    && !HasControl(Strip(s.user)) && !HasControl(Strip(s.password)) && !HasControl(DatabaseOf(s))
  }

  lemma IncompleteOrComplete(s: Secret, endpoint: string)
    ensures Incomplete(s, endpoint) == None <==> Complete(s, endpoint)
  {
  }

  lemma RejectsSecretExactly(lib: Library, s: Secret, endpoint: string)
    requires Complete(s, endpoint) && !Bracketed(HostOf(s, endpoint))
    ensures var host := HostOf(s, endpoint);
      Rejects(lib, UrlOf(s, endpoint)) <==>
        (':' in host || HasSpace(host) || lib.odd(Authority(Strip(s.user), Strip(s.password), host, s.port.value)))
  {
    HostOfIsFree(s, endpoint);
    RejectsExactly(lib, IsMySql(s), Strip(s.user), Strip(s.password), HostOf(s, endpoint), s.port.value, DatabaseOf(s));
  }

  /** For a host without brackets: exactly which secrets become a URL. */
  lemma BuildsExactly(lib: Library, s: Secret, endpoint: string)
    requires !Bracketed(HostOf(s, endpoint))
    ensures Build(lib, Some(s), endpoint, "").Built? <==>
      (&& Complete(s, endpoint) && ':' !in HostOf(s, endpoint) && !HasSpace(HostOf(s, endpoint))
       && !lib.odd(Authority(Strip(s.user), Strip(s.password), HostOf(s, endpoint), s.port.value)))
  {
    IncompleteOrComplete(s, endpoint);
    if Complete(s, endpoint) { RejectsSecretExactly(lib, s, endpoint); }
  }

  lemma SecretUrlReadsBack(s: Secret, endpoint: string)
    requires s.port.Some? && s.port.value >= 0 && ':' !in HostOf(s, endpoint)
    ensures ReadUrl(UrlOf(s, endpoint)) == SecretWithHost(s, ReadHost(HostOf(s, endpoint)))
  {
    HostOfIsFree(s, endpoint);
    SchemeIsSupported(IsMySql(s));
    UrlReadsBack(Scheme(IsMySql(s)), Strip(s.user), Strip(s.password), HostOf(s, endpoint), s.port.value, DatabaseOf(s));
  }

  /** The fields of a secret as a URL names them, with this host. */
  function SecretWithHost(s: Secret, host: Option<string>): Option<Parts>
    requires s.port.Some?
  {
    WithHost(Scheme(IsMySql(s)), Strip(s.user), Strip(s.password), host, s.port.value, DatabaseOf(s))
  }

  /** A host that a URL can name as it is written: unreserved characters and sub-delimiters only. */
  predicate PlainHost(host: string) {
    forall i :: 0 <= i < |host| ==> host[i] != '%' && (Plain(host[i]) || SubDelim(host[i]))
  }

  lemma PlainHostReadsItself(host: string)
    ensures ReadHost(host) == Some(host) <==> PlainHost(host)
  {
    ReadsItselfIff(host);
    assert forall c: char :: Plain(c) || SubDelim(c) ==> c as int < 0x80;
    if PlainHost(host) {
      assert forall i :: 0 <= i < |host| ==> Literal(host[i]);
    }
  }

  lemma BuildGivesTheUrl(lib: Library, s: Secret, endpoint: string, b: Built)
    requires b == Build(lib, Some(s), endpoint, "") && b.Built?
    ensures s.port.Some? && 1 <= s.port.value <= 65535 && b.url == UrlOf(s, endpoint)
  {
  }

  /**
   * A URL built from a secret reads back, by sections 2.1 and 3.2 of RFC 3986, to the same user, password, port
   * and database name, with the host the reader makes of the secret's; that is the secret's own host exactly when
   * the host is plain.
   */
  lemma BuiltUrlReadsBack(lib: Library, s: Secret, endpoint: string, b: Built)
    requires b == Build(lib, Some(s), endpoint, "") && b.Built? && !Bracketed(HostOf(s, endpoint))
    ensures s.port.Some? && 1 <= s.port.value <= 65535
    ensures ReadUrl(b.url) == SecretWithHost(s, ReadHost(HostOf(s, endpoint)))
    ensures ReadUrl(b.url) == SecretWithHost(s, Some(HostOf(s, endpoint))) <==> PlainHost(HostOf(s, endpoint))
  {
    BuildGivesTheUrl(lib, s, endpoint, b);
    BuiltHasNoColon(lib, s, endpoint, b);
    SecretUrlReadsBack(s, endpoint);
    PlainHostReadsItself(HostOf(s, endpoint));
  }

  lemma BuiltHasNoColon(lib: Library, s: Secret, endpoint: string, b: Built)
    requires b == Build(lib, Some(s), endpoint, "") && b.Built? && !Bracketed(HostOf(s, endpoint))
    ensures ':' !in HostOf(s, endpoint)
  {
    BuildsExactly(lib, s, endpoint);
  }

  /** The lines that a program would write from the parts of a URL. */
  function LinesFrom(p: Parts, url: string): seq<string>
    requires p.port >= 0
  {
    ["PGHOST=" + p.host, "PGPORT=" + Decimal(p.port), "PGUSER=" + p.user, "PGPASSWORD=" + p.password,
     "PGDATABASE=" + p.database, "DATABASE_URL=" + url]
  }

  /** The other lines name what the URL line reads back to exactly when the host is plain. */
  lemma LinesAgreeWithTheUrl(lib: Library, s: Secret, endpoint: string, b: Built)
    requires b == Build(lib, Some(s), endpoint, "") && b.Built? && !Bracketed(HostOf(s, endpoint))
    ensures (ReadUrl(b.url).Some? && ReadUrl(b.url).value.port >= 0 && b.lines == LinesFrom(ReadUrl(b.url).value, b.url))
       <==> PlainHost(HostOf(s, endpoint))
  {
    BuiltUrlReadsBack(lib, s, endpoint, b);
    BuildGivesTheLines(lib, s, endpoint, b);
    var host, read := HostOf(s, endpoint), ReadHost(HostOf(s, endpoint));
    PlainHostReadsItself(host);
    if read.Some? { SamePrefix("PGHOST=", host, read.value); }
  }

  lemma SamePrefix(prefix: string, a: string, b: string)
    ensures prefix + a == prefix + b <==> a == b
  {
    assert (prefix + a)[|prefix|..] == a && (prefix + b)[|prefix|..] == b;
  }

  lemma BuildGivesTheLines(lib: Library, s: Secret, endpoint: string, b: Built)
    requires b == Build(lib, Some(s), endpoint, "") && b.Built?
    ensures s.port.Some? && s.port.value >= 0 && b.lines == Lines(s, HostOf(s, endpoint), b.url)
  {
  }

  /** A host is accepted, written out as it is, and named differently by the URL. */
  lemma HostReadsAs(lib: Library, s: Secret, host: string, other: string)
    requires HostOf(s, "") == host && Complete(s, "") && !Bracketed(host) && ':' !in host && !HasSpace(host)
    requires !lib.odd(Authority(Strip(s.user), Strip(s.password), host, s.port.value)) && ReadHost(host) == Some(other)
    ensures var b := Build(lib, Some(s), "", "");
      b.Built? && "PGHOST=" + host in b.lines && ReadUrl(b.url) == SecretWithHost(s, Some(other))
  {
    var b := Build(lib, Some(s), "", "");
    BuildsExactly(lib, s, "");
    BuiltUrlReadsBack(lib, s, "", b);
    BuildGivesTheLines(lib, s, "", b);
    assert Lines(s, host, b.url)[0] == "PGHOST=" + host;
  }

  /** A percent sign in the host: the URL names another host than the line beside it. */
  lemma PercentNamesAnotherHost(lib: Library, s: Secret)
    requires s == Secret("u", "p", "d%41", Some(5432), "db", "postgres") && !lib.odd(Authority("u", "p", "d%41", 5432))
    ensures var b := Build(lib, Some(s), "", "");
      && b.Built? && "PGHOST=" + "d%41" in b.lines
      && ReadUrl(b.url) == Some(Parts("postgresql", "u", "p", "dA", 5432, "db"))
  {
    PercentHostIsAccepted(s);
    PercentHostIsValid();
    PercentHostReads();
    PercentSecretIsPostgres(s);
    HostReadsAs(lib, s, "d%41", "dA");
  }

  lemma PercentSecretIsPostgres(s: Secret)
    requires s.engine == "postgres"
    ensures !IsMySql(s)
  {
    assert Lowercase("postgres");
    assert 'm' !in "postgres";
    NoMIsNotMySql(s);
  }

  lemma PercentHostReads()
    ensures ReadHost("d%41") == Some("dA")
  {
    var host := "d%41";
    var octet := "%41";
    assert |octet| == 3 && octet[0] == '%' && octet[1] == '4' && octet[2] == '1';
    assert octet[3..] == "" && HexValue('4') == 4 && HexValue('1') == 1;
    var a: seq<Byte>, bs: seq<Byte> := [0x41], [0x64, 0x41];
    assert a + [] == a && [0x64] + a == bs;
    assert Unquote(octet) == Some(a);
    assert host[1..] == octet;
    assert Unquote(host) == Some(bs);
    assert bs[1..] == a && a[1..] == [] && FromUtf8(a[1..]) == Some("");
    assert ['A'] + "" == "A" && ['d'] + "A" == "dA";
    assert FromUtf8(a) == Some("A");
  }

  lemma PercentHostIsValid()
    ensures ValidHost("d%41") == "d%41" && !Bracketed("d%41") && !HasSpace("d%41") && ':' !in "d%41"
  {
    StripNothing("d%41");
    LowerKeepsLength("d%41");
    assert LowerAscii("d%41")[1] == '%';
  }

  lemma {:induction false} LowerKeepsLength(s: string)
    ensures |LowerAscii(s)| == |s| && forall i :: 0 <= i < |s| && !('A' <= s[i] <= 'Z') ==> LowerAscii(s)[i] == s[i]
  {
    if s != "" { LowerKeepsLength(s[1..]); }
  }

  lemma PercentHostIsAccepted(s: Secret)
    requires s == Secret("u", "p", "d%41", Some(5432), "db", "postgres")
    ensures HostOf(s, "") == "d%41" && Complete(s, "")
    ensures Strip(s.user) == "u" && Strip(s.password) == "p" && DatabaseOf(s) == "db"
  {
    PercentHostIsValid();
    StripNothing("u");
    StripNothing("p");
    StripNothing("db");
  }

  lemma NoMIsNotMySql(s: Secret)
    requires Lowercase(s.engine) && 'm' !in s.engine
    ensures !IsMySql(s)
  {
    LowerIsLower(s.engine);
    NoMNoMySql(s.engine);
  }

  lemma NoMNoMySql(engine: string)
    requires 'm' !in engine
    ensures !Contains(engine, "mysql") && !Contains(engine, "mariadb")
  {
    ContainsIffOccurs(engine, "mysql");
    ContainsIffOccurs(engine, "mariadb");
    if Occurs("mysql", engine) { HoldsItsFirst("mysql", engine); }
    if Occurs("mariadb", engine) { HoldsItsFirst("mariadb", engine); }
  }

  lemma HoldsItsFirst(part: string, s: string)
    requires part != "" && Occurs(part, s)
    ensures part[0] in s
  {
    var front, back :| s == front + part + back;
    assert s[|front|] == part[0];
  }

  // ---------- what is taken from the secret ----------

  /** The trimmed text can be a host. */
  ghost predicate UsableHost(text: string) {
    var host := Strip(text);
    && host != "" && LowerAscii(host) !in {"null", "undefined", "none"}
    && (forall i :: 0 <= i < |host| ==>
          host[i] >= ' ' && host[i] != '\U{7F}' && host[i] != '/' && host[i] != '@' && host[i] != '?' && host[i] != '#')
  }

  lemma ValidIffUsable(text: string)
    ensures ValidHost(text) == if UsableHost(text) then Strip(text) else ""
  {
    LowerKeepsLength(Strip(text));
  }

  /** The secret names a MySQL engine, in any case. */
  ghost predicate NamesMySql(s: Secret) {
    Occurs("mysql", LowerAscii(s.engine)) || Occurs("mariadb", LowerAscii(s.engine))
  }

  /**
   * Where the parts come from: the secret's own host if it can be one, else the endpoint; the scheme by the
   * engine; and a database called appdb when none is named.
   */
  lemma PartsComeFromTheSecret(s: Secret, endpoint: string, host: Option<string>)
    requires s.port.Some?
    ensures HostOf(s, endpoint)
         == if UsableHost(s.host) then Strip(s.host) else if UsableHost(endpoint) then Strip(endpoint) else ""
    ensures host.Some? ==> SecretWithHost(s, host) == Some(Parts(
      if NamesMySql(s) then "mysql" else "postgresql", Strip(s.user), Strip(s.password), host.value, s.port.value,
      if Strip(s.database) == "" then "appdb" else Strip(s.database)))
  {
    ValidIffUsable(s.host);
    ValidIffUsable(endpoint);
    ContainsIffOccurs(LowerAscii(s.engine), "mysql");
    ContainsIffOccurs(LowerAscii(s.engine), "mariadb");
  }

  ghost predicate Clear(text: string) { forall i :: 0 <= i < |text| ==> text[i] >= ' ' && text[i] != '\U{7F}' }

  lemma ClearIffNoControl(text: string)
    ensures Clear(text) <==> !HasControl(text)
  {
  }

  /** Without an explicit URL: why a secret is refused, or the lack of one. The first of these faults decides. */
  lemma RefusalSaysWhy(lib: Library, s: Secret, endpoint: string)
    ensures var b := Build(lib, Some(s), endpoint, "");
      var hostless := !UsableHost(s.host) && !UsableHost(endpoint);
      var portless := !(s.port.Some? && 1 <= s.port.value <= 65535);
      var user, password := Strip(s.user), Strip(s.password);
      && (b == Refused(MissingHost) <==> hostless)
      && (b == Refused(InvalidPort) <==> !hostless && portless)
      && (b == Refused(IncompleteCredentials) <==> !hostless && !portless && (user == "" || password == ""))
      && (b == Refused(InvalidConfiguration) <==>
            && !hostless && !portless && user != "" && password != ""
            && (!Clear(user) || !Clear(password) || !Clear(DatabaseOf(s)) || Rejects(lib, UrlOf(s, endpoint))))
    ensures Build(lib, None, endpoint, "") == Refused(InvalidConfiguration)
  {
    ValidIffUsable(s.host);
    ValidIffUsable(endpoint);
    ClearIffNoControl(Strip(s.user));
    ClearIffNoControl(Strip(s.password));
    ClearIffNoControl(DatabaseOf(s));
  }

  /** The text before some colon is this name, in any case. */
  ghost predicate HasScheme(url: string, name: string) {
    exists front: string, rest: string :: url == front + ":" + rest && LowerAscii(front) == name
  }

  lemma NamesAreSchemes(front: string)
    requires LowerAscii(front) in {"postgres", "postgresql", "mysql", "mysql2", "mariadb"}
    ensures SchemeText(front) && ':' !in front
  {
    LowerKeepsLength(front);
    var low := LowerAscii(front);
    assert low[0] == 'p' || low[0] == 'm';
    assert forall i :: 0 <= i < |low| ==> 'a' <= low[i] <= 'z' || low[i] == '2';
    LetterByLetter(front);
  }

  lemma {:induction false} LetterByLetter(s: string)
    ensures |LowerAscii(s)| == |s|
    ensures forall i :: 0 <= i < |s| ==>
      LowerAscii(s)[i] == s[i] || ('A' <= s[i] <= 'Z' && 'a' <= LowerAscii(s)[i] <= 'z')
  {
    if s != "" { LetterByLetter(s[1..]); }
  }

  /** A URL has one of the five schemes exactly when it begins with its name, in any case, and a colon. */
  lemma SchemeIff(url: string, name: string)
    requires name in {"postgres", "postgresql", "mysql", "mysql2", "mariadb"}
    ensures SchemeOf(url) == name <==> HasScheme(url, name)
  {
    if SchemeOf(url) == name {
      var i := Span(url, {':'});
      assert url == url[..i] + ":" + url[i + 1..];
    }
    if HasScheme(url, name) {
      var front, rest :| url == front + ":" + rest && LowerAscii(front) == name;
      NamesAreSchemes(front);
      SpanStops(front, ':', rest, {':'});
      assert url[..|front|] == front;
    }
  }

  ghost predicate InRange(port: Option<int>) { port.Some? ==> 1 <= port.value <= 65535 }

  /** The authority names a usable host, and a port in range if any. */
  ghost predicate UsableAuthority(lib: Library, authority: string) {
    var parsed := HostAndPort(lib, authority);
    authority != "" && parsed.Some? && UsableHost(parsed.value.0) && InRange(parsed.value.1)
  }

  /** No blank, no control character, and no `@` right before a `:`. */
  ghost predicate Sound(url: string) {
    Clear(url) && (forall i :: 0 <= i < |url| ==> !IsSpace(url[i])) && !Occurs("@:", url)
  }

  lemma RejectedAuthority(lib: Library, authority: string)
    ensures var parsed := HostAndPort(lib, authority);
      UsableAuthority(lib, authority) <==> authority != "" && parsed.Some? && ValidHost(parsed.value.0) != ""
                                           && !(parsed.value.1.Some? && !(1 <= parsed.value.1.value <= 65535))
  {
    var parsed := HostAndPort(lib, authority);
    if parsed.Some? { ValidIffUsable(parsed.value.0); }
  }

  lemma RejectedText(url: string)
    ensures Sound(url) <==> !HasControl(url) && !HasSpace(url) && !Contains(url, "@:")
  {
    ClearIffNoControl(url);
    ContainsIffOccurs(url, "@:");
  }

  lemma RejectsIff(lib: Library, url: string)
    requires Strip(url) == url
    ensures !Rejects(lib, url) <==>
      (&& url != "" && SchemeOf(url) in {"postgres", "postgresql", "mysql", "mysql2", "mariadb"}
       && UsableAuthority(lib, AuthorityOf(url)) && Sound(url))
  {
    RejectedAuthority(lib, AuthorityOf(url));
    RejectedText(url);
  }

  /**
   * An explicit URL is taken as it is, trimmed, exactly when it has one of the five schemes, an authority whose
   * host is usable and whose port is in range, no blank or control character, and no `@` right before a `:`.
   * Otherwise the configuration is refused; the secret and the endpoint make no difference.
   */
  lemma ExplicitUrlIsChecked(lib: Library, secret: Option<Secret>, endpoint: string, explicitUrl: string)
    requires explicitUrl != ""
    ensures var url := Strip(explicitUrl);
      Build(lib, secret, endpoint, explicitUrl) ==
        if && url != "" && SchemeOf(url) in {"postgres", "postgresql", "mysql", "mysql2", "mariadb"}
           && UsableAuthority(lib, AuthorityOf(url)) && Sound(url)
        then Built(["DATABASE_URL=" + url], url)
        else Refused(InvalidConfiguration)
  {
    StripIsIdempotent(explicitUrl);
    RejectsIff(lib, Strip(explicitUrl));
  }
}
