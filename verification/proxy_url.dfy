/** Printing and parsing of proxy URLs, and the ids built from them. */
module ProxyUrls {
  import opened Domain
  import opened Percent
  import Text
  import Decimal

  datatype Error =
    | InvalidBrackets        // escapes as the ValueError of urlparse; the others are the parser's own error
    | UnsupportedScheme
    | HostRequired
    | PortInvalid
    | PortRequired
    | InvalidEndpoint

  datatype Parsed = Ok(proxy: Proxy) | Err(error: Error)

  // ---------------------------------------------------------------- splitting

  /** The first position of `c`, or the length. */
  function IndexOf(s: string, c: char): (i: nat)
    ensures i <= |s| && (i < |s| ==> s[i] == c)
    ensures forall k :: 0 <= k < i ==> s[k] != c
  {
    if s == "" || s[0] == c then 0 else 1 + IndexOf(s[1..], c)
  }

  /** The last position of `c`, or -1. */
  function LastIndexOf(s: string, c: char): (i: int)
    ensures -1 <= i < |s| && (i >= 0 ==> s[i] == c)
    ensures forall k :: i < k < |s| ==> s[k] != c
  {
    if s == "" then -1 else if s[|s| - 1] == c then |s| - 1 else LastIndexOf(s[..|s| - 1], c)
  }

  predicate Free(s: string, c: char) { forall i :: 0 <= i < |s| ==> s[i] != c }

  predicate IsDelimiter(c: char) { c == '/' || c == '?' || c == '#' }

  predicate IsStripped(c: char) { c == '\t' || c == '\n' || c == '\r' }

  /** The text up to the first path, query or fragment delimiter. */
  function UntilDelimiter(s: string): (r: string)
    ensures r <= s
    ensures forall i :: 0 <= i < |r| ==> !IsDelimiter(r[i])
    ensures |r| < |s| ==> IsDelimiter(s[|r|])
  {
    if s == "" || IsDelimiter(s[0]) then "" else [s[0]] + UntilDelimiter(s[1..])
  }

  /** urlsplit drops tabs and line breaks wherever they are. */
  function WithoutBreaks(s: string): (r: string)
    ensures forall i :: 0 <= i < |r| ==> !IsStripped(r[i])
    ensures (forall i :: 0 <= i < |s| ==> !IsStripped(s[i])) ==> r == s
  {
    if s == "" then ""
    else if IsStripped(s[0]) then WithoutBreaks(s[1..])
    else [s[0]] + WithoutBreaks(s[1..])
  }

  /** urlsplit also drops leading control characters and spaces. */
  function WithoutLeadingControls(s: string): string {
    if s != "" && s[0] <= ' ' then WithoutLeadingControls(s[1..]) else s
  }

  predicate SchemeChar(c: char) { IsLetter(c) || '0' <= c <= '9' || c == '+' || c == '-' || c == '.' }

  /** The lower-cased scheme and what follows it. */
  function SplitScheme(url: string): (string, string) {
    var i := IndexOf(url, ':');
    if 0 < i < |url| && IsLetter(url[0]) && forall k :: 0 <= k < i ==> SchemeChar(url[k])
    then (Text.Lower(url[..i]), url[i + 1..])
    else ("", url)
  }

  function NetlocOf(rest: string): string {
    if "//" <= rest then UntilDelimiter(rest[2..]) else ""
  }

  function UserinfoOf(netloc: string): Option<string> {
    var at := LastIndexOf(netloc, '@');
    if at < 0 then None else Some(netloc[..at])
  }

  function HostinfoOf(netloc: string): string { netloc[LastIndexOf(netloc, '@') + 1..] }

  function UsernameOf(userinfo: Option<string>): Option<string> {
    if userinfo.None? then None else Some(userinfo.value[..IndexOf(userinfo.value, ':')])
  }

  function PasswordOf(userinfo: Option<string>): Option<string> {
    if userinfo.None? || IndexOf(userinfo.value, ':') == |userinfo.value| then None
    else Some(userinfo.value[IndexOf(userinfo.value, ':') + 1..])
  }

  /** The host part of `host:port` or `[literal]:port`. */
  function HostPartOf(hostinfo: string): string {
    var open := IndexOf(hostinfo, '[');
    if open == |hostinfo| then hostinfo[..IndexOf(hostinfo, ':')]
    else
      var bracketed := hostinfo[open + 1..];
      bracketed[..IndexOf(bracketed, ']')]
  }

  /** Lower case up to a zone mark. */
  function HostnameOf(hostinfo: string): string { LowerToZone(HostPartOf(hostinfo)) }

  function LowerToZone(h: string): string {
    var zone := IndexOf(h, '%');
    Text.Lower(h[..zone]) + h[zone..]
  }

  function AfterFirst(s: string, c: char): string {
    var i := IndexOf(s, c);
    if i == |s| then "" else s[i + 1..]
  }

  function PortTextOf(hostinfo: string): string {
    if IndexOf(hostinfo, '[') == |hostinfo| then AfterFirst(hostinfo, ':')
    else AfterFirst(AfterFirst(AfterFirst(hostinfo, '['), ']'), ':')
  }

  function SchemeFrom(text: string): Option<Scheme> {
    if text == "http" then Some(Http)
    else if text == "https" then Some(Https)
    else if text == "socks4" then Some(Socks4)
    else if text == "socks5" then Some(Socks5)
    else None
  }

  function BuildProxyId(scheme: string, host: string, port: nat): string {
    scheme + "-" + Text.Lower(host) + "-" + Decimal.Print(port)
  }

  function UnquoteAll(s: Option<string>): Option<string> { if s.None? then None else Some(Unquote(s.value)) }

  function NetlocIn(url: string): string { NetlocOf(SplitScheme(url).1) }

  function Cleaned(raw: string): string { WithoutBreaks(WithoutLeadingControls(Text.Strip(raw))) }

  /** `literalOk` is urlsplit's check of a network location with both brackets: whether the bracketed part is
      an address literal. */
  function ParseProxyUrl(literalOk: string -> bool, raw: string, source: string): Parsed {
    var url := Cleaned(raw);
    ParseNetloc(literalOk, SplitScheme(url).0, NetlocIn(url), source)
  }

  /** Brackets come in pairs, around an address literal. */
  predicate BracketsOk(literalOk: string -> bool, netloc: string) {
    if Free(netloc, '[') then Free(netloc, ']') else !Free(netloc, ']') && literalOk(netloc)
  }

  /** Why a location is refused, if it is. */
  function Refusal(literalOk: string -> bool, scheme: string, netloc: string, source: string): (e: Option<Error>)
    ensures e.None? ==> Decimal.AllDigits(PortTextOf(HostinfoOf(netloc))) && SchemeFrom(scheme).Some?
  {
    var hostname, port := HostnameOf(HostinfoOf(netloc)), PortTextOf(HostinfoOf(netloc));
    if !BracketsOk(literalOk, netloc) then Some(InvalidBrackets)
    else if SchemeFrom(scheme).None? then Some(UnsupportedScheme)
    else if hostname == "" then Some(HostRequired)
    else if port == "" then Some(PortRequired)
    else if !Decimal.AllDigits(port) || Decimal.Parse(port) > 65535 then Some(PortInvalid)
    else if Decimal.Parse(port) < 1 || source == "" then Some(InvalidEndpoint)
    else None
  }

  function ParseNetloc(literalOk: string -> bool, scheme: string, netloc: string, source: string): Parsed {
    var refusal := Refusal(literalOk, scheme, netloc, source);
    if refusal.Some? then Err(refusal.value)
    else Ok(NewProxy(SchemeFrom(scheme).value, HostnameOf(HostinfoOf(netloc)),
                     Decimal.Parse(PortTextOf(HostinfoOf(netloc))),
                     UnquoteAll(UsernameOf(UserinfoOf(netloc))), UnquoteAll(PasswordOf(UserinfoOf(netloc))), source))
  }

  function NewProxy(scheme: Scheme, host: string, port: nat, username: Option<string>, password: Option<string>,
                    source: string): (p: Proxy)
    ensures Fresh(p) && p.status == Raw
  {
    Proxy(BuildProxyId(SchemeText(scheme), host, port), scheme, host, port, username, password, source,
          None, None, Unknown, None, 0, 0, 0, 0, None, None, None, None, Raw)
  }

  // ---------------------------------------------------------------- printing

  function Credentials(p: Proxy): string {
    if p.username.None? then ""
    else Quote(p.username.value) + (if p.password.Some? then ":" + Quote(p.password.value) else "") + "@"
  }

  function NetlocText(p: Proxy): string
    requires p.port >= 0
  {
    Credentials(p) + p.host + ":" + Decimal.Print(p.port)
  }

  function FormatProxyUrl(p: Proxy, includeCredentials: bool): string
    requires p.port >= 0
  {
    SchemeText(p.scheme) + "://" + NetlocText(if includeCredentials then p else Anonymously(p))
  }

  function Anonymously(p: Proxy): Proxy { p.(username := None, password := None) }

  // ---------------------------------------------------------------- what a host must be

  predicate NetlocChar(c: char) { !IsDelimiter(c) && !IsStripped(c) && c != '[' && c != ']' }

  predicate HostChar(c: char) { NetlocChar(c) && c != '@' && c != ':' }

  /** A host as urlparse gives it back: no delimiter in it, and lower case up to a zone mark. */
  predicate CleanHost(h: string) {
    && h != ""
    && (forall i :: 0 <= i < |h| ==> HostChar(h[i]))
    && (forall i :: 0 <= i < IndexOf(h, '%') ==> !Text.IsUpper(h[i]))
  }

  lemma LowerIsClean(h: string)
    requires forall i :: 0 <= i < |h| ==> HostChar(h[i])
    ensures var r := LowerToZone(h);
            && |r| == |h| && (r != "" ==> CleanHost(r))
            && (CleanHost(h) ==> r == h)
  {
    var zone := IndexOf(h, '%');
    var r := Text.Lower(h[..zone]) + h[zone..];
    forall i | 0 <= i < |h| ensures r[i] == if i < zone then Text.LowerChar(h[i]) else h[i] {}
    assert forall i :: 0 <= i < zone ==> r[i] != '%' && HostChar(r[i]);
    assert IndexOf(r, '%') <= zone;
    assert zone < |h| ==> r[zone] == '%';
    assert IndexOf(r, '%') == zone;
  }

  // ---------------------------------------------------------------- the printer and the parser

  lemma StripKeeps(s: string)
    requires s != "" && !Text.IsSpace(s[0]) && !Text.IsSpace(s[|s| - 1])
    ensures Text.Strip(s) == s
  {}

  /** What is parsed is the host part, from a location whose brackets are in order. */
  lemma HostOfParsed(literalOk: string -> bool, scheme: string, netloc: string, source: string)
    ensures var r := ParseNetloc(literalOk, scheme, netloc, source);
            r.Ok? ==> r.proxy.host == HostnameOf(HostinfoOf(netloc)) != "" && BracketsOk(literalOk, netloc)
  {}

  lemma HostPartChars(hostinfo: string)
    requires Free(hostinfo, '@') && forall i :: 0 <= i < |hostinfo| ==> NetlocChar(hostinfo[i])
    ensures forall i :: 0 <= i < |HostPartOf(hostinfo)| ==> HostChar(HostPartOf(hostinfo)[i])
  {}

  lemma HostinfoIsPart(netloc: string)
    ensures var at, h := LastIndexOf(netloc, '@'), HostinfoOf(netloc);
            && h == netloc[at + 1..|netloc|] && Free(h, '@')
            && forall i :: 0 <= i < |h| ==> h[i] == netloc[at + 1 + i]
  {
    TailOf(netloc, LastIndexOf(netloc, '@') + 1, '@');
  }

  lemma TailOf(s: string, k: nat, c: char)
    requires k <= |s| && forall i :: k <= i < |s| ==> s[i] != c
    ensures s[k..] == s[k..|s|] && Free(s[k..], c)
    ensures forall i :: 0 <= i < |s[k..]| ==> s[k..][i] == s[k + i]
  {}

  /** Every host that comes out of the parser is clean, unless its location was bracketed. */
  lemma UnbracketedHostIsClean(netloc: string)
    requires forall i :: 0 <= i < |netloc| ==> NetlocChar(netloc[i])
    ensures HostnameOf(HostinfoOf(netloc)) != "" ==> CleanHost(HostnameOf(HostinfoOf(netloc)))
  {
    var hostinfo := HostinfoOf(netloc);
    HostinfoIsPart(netloc);
    forall i | 0 <= i < |hostinfo| ensures NetlocChar(hostinfo[i]) {}
    HostPartChars(hostinfo);
    LowerIsClean(HostPartOf(hostinfo));
  }

  /** Splitting `host:port` gives both back, when the host is clean. */
  lemma HostinfoSplits(host: string, port: string)
    requires CleanHost(host) && Decimal.AllDigits(port)
    ensures var info := host + ":" + port;
            HostnameOf(info) == host && PortTextOf(info) == port
  {
    var info := host + ":" + port;
    assert info[|host|] == ':';
    assert IndexOf(info, ':') == |host|;
    forall i | 0 <= i < |info| ensures info[i] != '[' {
      if i > |host| {
        assert info[i] == port[i - |host| - 1];
      }
    }
    assert IndexOf(info, '[') == |info|;
    assert info[..|host|] == host && info[|host| + 1..] == port;
    LowerIsClean(host);
  }

  lemma FirstSplits(front: string, back: string, c: char)
    requires Free(front, c)
    ensures var s := front + [c] + back;
            IndexOf(s, c) == |front| && s[..|front|] == front && s[|front| + 1..] == back && AfterFirst(s, c) == back
  {
    var s := front + [c] + back;
    assert s[|front|] == c && forall i :: 0 <= i < |front| ==> s[i] == front[i];
  }

  lemma LastAt(front: string, back: string, c: char)
    requires Free(back, c)
    ensures LastIndexOf(front + [c] + back, c) == |front|
  {
    var s := front + [c] + back;
    var last := LastIndexOf(s, c);
    assert s[|front|] == c && last >= |front|;
  }

  lemma NoAt(s: string)
    requires Free(s, '@')
    ensures LastIndexOf(s, '@') == -1
  {}

  /** The network location of a printed URL splits into what was printed. */
  lemma NetlocSplits(p: Proxy)
    requires p.port >= 0 && CleanHost(p.host)
    ensures var netloc := NetlocText(p);
            && HostinfoOf(netloc) == p.host + ":" + Decimal.Print(p.port)
            && UnquoteAll(UsernameOf(UserinfoOf(netloc))) == p.username
            && UnquoteAll(PasswordOf(UserinfoOf(netloc))) == if p.username.Some? then p.password else None
  {
    var back := p.host + ":" + Decimal.Print(p.port);
    HostinfoHasNoAt(p.host, Decimal.Print(p.port));
    if p.username.None? {
      NoAt(back);
      assert NetlocText(p) == back;
    } else {
      CredentialsSplit(p.username.value, p.password, back);
      CredentialsJoin(p, back);
    }
  }

  function Colon(q: string, r: Option<string>): string { q + if r.Some? then ":" + r.value else "" }

  function Userinfo(u: string, w: Option<string>): string {
    Colon(Quote(u), if w.Some? then Some(Quote(w.value)) else None)
  }

  lemma ColonSplits(q: string, r: Option<string>)
    requires Free(q, ':')
    ensures UsernameOf(Some(Colon(q, r))) == Some(q) && PasswordOf(Some(Colon(q, r))) == r
  {
    if r.Some? {
      FirstSplits(q, r.value, ':');
      assert Colon(q, r) == q + [':'] + r.value;
    } else {
      assert Colon(q, r) == q && IndexOf(q, ':') == |q| && q[..|q|] == q;
    }
  }

  lemma QuotedIsFree(q: string)
    requires QuotedText(q)
    ensures Free(q, ':')
  {
    forall i | 0 <= i < |q| ensures q[i] != ':' {
      assert QuotedChar(q[i]);
    }
  }

  /** Splitting the printed user information gives the quoted user name and password back. */
  lemma UserinfoSplits(u: string, w: Option<string>)
    ensures UnquoteAll(UsernameOf(Some(Userinfo(u, w)))) == Some(u)
    ensures UnquoteAll(PasswordOf(Some(Userinfo(u, w)))) == w
  {
    UnquoteQuote(u);
    QuotedIsFree(Quote(u));
    if w.Some? {
      UnquoteQuote(w.value);
      ColonSplits(Quote(u), Some(Quote(w.value)));
    } else {
      ColonSplits(Quote(u), None);
    }
  }

  lemma CredentialsJoin(p: Proxy, back: string)
    requires p.port >= 0 && p.username.Some? && back == p.host + ":" + Decimal.Print(p.port)
    ensures NetlocText(p) == Userinfo(p.username.value, p.password) + ['@'] + back
  {}

  lemma CredentialsSplit(u: string, w: Option<string>, back: string)
    requires Free(back, '@')
    ensures var netloc := Userinfo(u, w) + ['@'] + back;
            && HostinfoOf(netloc) == back
            && UnquoteAll(UsernameOf(UserinfoOf(netloc))) == Some(u)
            && UnquoteAll(PasswordOf(UserinfoOf(netloc))) == w
  {
    AtSplits(Userinfo(u, w), back);
    UserinfoSplits(u, w);
  }

  lemma AtSplits(info: string, back: string)
    requires Free(back, '@')
    ensures HostinfoOf(info + ['@'] + back) == back && UserinfoOf(info + ['@'] + back) == Some(info)
  {
    LastAt(info, back, '@');
    assert (info + ['@'] + back)[..|info|] == info && (info + ['@'] + back)[|info| + 1..] == back;
  }

  lemma HostinfoHasNoAt(host: string, digits: string)
    requires CleanHost(host) && Decimal.AllDigits(digits)
    ensures Free(host + ":" + digits, '@')
  {
    var back := host + ":" + digits;
    forall i | 0 <= i < |back| ensures back[i] != '@' {
      if i < |host| {
        assert HostChar(host[i]);
      } else if i > |host| {
        assert Decimal.IsDigit(digits[i - |host| - 1]);
      }
    }
  }

  lemma CredentialChars(p: Proxy)
    ensures forall i :: 0 <= i < |Credentials(p)| ==>
              var c := Credentials(p)[i]; QuotedChar(c) || c == ':' || c == '@'
  {
    if p.username.Some? {
      UnquoteQuote(p.username.value);
      if p.password.Some? {
        UnquoteQuote(p.password.value);
      }
    }
  }

  lemma QuotedIsNetlocChar(c: char)
    requires QuotedChar(c) || c == ':' || c == '@' || HostChar(c) || Decimal.IsDigit(c)
    ensures NetlocChar(c)
  {}

  lemma NetlocChars(p: Proxy)
    requires p.port >= 0 && CleanHost(p.host)
    ensures forall i :: 0 <= i < |NetlocText(p)| ==> NetlocChar(NetlocText(p)[i])
    ensures NetlocText(p) != "" && Decimal.IsDigit(NetlocText(p)[|NetlocText(p)| - 1])
  {
    var cred, digits := Credentials(p), Decimal.Print(p.port);
    CredentialChars(p);
    AllNetlocChars(cred, p.host, digits);
  }

  lemma AllNetlocChars(cred: string, host: string, digits: string)
    requires forall i :: 0 <= i < |cred| ==> QuotedChar(cred[i]) || cred[i] == ':' || cred[i] == '@'
    requires forall i :: 0 <= i < |host| ==> HostChar(host[i])
    requires digits != "" && Decimal.AllDigits(digits)
    ensures var all := cred + host + ":" + digits;
            (forall i :: 0 <= i < |all| ==> NetlocChar(all[i])) && Decimal.IsDigit(all[|all| - 1])
  {
    var all := cred + host + ":" + digits;
    forall i | 0 <= i < |all| ensures NetlocChar(all[i]) {
      QuotedIsNetlocChar(
        if i < |cred| then cred[i]
        else if i < |cred| + |host| then host[i - |cred|]
        else if i == |cred| + |host| then ':'
        else digits[i - |cred| - |host| - 1]);
    }
  }

  /** The scheme and the network location come apart again. */
  lemma SchemeSplits(scheme: Scheme, netloc: string)
    requires forall i :: 0 <= i < |netloc| ==> !IsDelimiter(netloc[i])
    ensures var url := SchemeText(scheme) + "://" + netloc;
            && SplitScheme(url) == (SchemeText(scheme), "//" + netloc)
            && NetlocOf("//" + netloc) == netloc
            && SchemeFrom(SchemeText(scheme)) == Some(scheme)
  {
    var text := SchemeText(scheme);
    var url := text + "://" + netloc;
    assert url[|text|] == ':';
    assert forall k :: 0 <= k < |text| ==> url[k] == text[k] && SchemeChar(text[k]) && text[k] != ':';
    assert IndexOf(url, ':') == |text|;
    assert url[..|text|] == text && url[|text| + 1..] == "//" + netloc;
    assert Text.Lower(text) == text;
    assert ("//" + netloc)[2..] == netloc;
    assert UntilDelimiter(netloc) == netloc;
  }

  /** Text that stripping and cleaning leave alone. */
  lemma CleaningKeeps(url: string)
    requires url != "" && url[0] > ' ' && !Text.IsSpace(url[0]) && !Text.IsSpace(url[|url| - 1])
    requires forall i :: 0 <= i < |url| ==> !IsStripped(url[i])
    ensures WithoutBreaks(WithoutLeadingControls(Text.Strip(url))) == url
  {
    StripKeeps(url);
  }

  predicate UrlChar(c: char) { !IsStripped(c) }

  lemma SchemeTextChars(scheme: Scheme)
    ensures var front := SchemeText(scheme) + "://";
            && front[0] > ' ' && !Text.IsSpace(front[0])
            && forall i :: 0 <= i < |front| ==> UrlChar(front[i])
  {
    match scheme case Http => case Https => case Socks4 => case Socks5 =>
  }

  /** For a clean host the printed URL reaches the parser's second half unchanged. */
  lemma {:induction false} PrintedReaches(literalOk: string -> bool, p: Proxy, source: string)
    requires p.port >= 0 && CleanHost(p.host)
    ensures ParseProxyUrl(literalOk, FormatProxyUrl(p, true), source)
            == ParseNetloc(literalOk, SchemeText(p.scheme), NetlocText(p), source)
  {
    var url, front, netloc := FormatProxyUrl(p, true), SchemeText(p.scheme) + "://", NetlocText(p);
    NetlocChars(p);
    SchemeTextChars(p.scheme);
    Joined(url, front, netloc);
    CleaningKeeps(url);
    SchemeSplits(p.scheme, netloc);
  }

  lemma Joined(url: string, front: string, netloc: string)
    requires url == front + netloc && front != "" && netloc != ""
    requires front[0] > ' ' && !Text.IsSpace(front[0]) && Decimal.IsDigit(netloc[|netloc| - 1])
    requires forall i :: 0 <= i < |front| ==> UrlChar(front[i])
    requires forall i :: 0 <= i < |netloc| ==> UrlChar(netloc[i])
    ensures url[0] > ' ' && !Text.IsSpace(url[0]) && !Text.IsSpace(url[|url| - 1])
    ensures forall i :: 0 <= i < |url| ==> !IsStripped(url[i])
  {
    forall i | 0 <= i < |url| ensures UrlChar(url[i]) {
      if i >= |front| {
        assert url[i] == netloc[i - |front|];
      }
    }
  }

  /** What the round trip should give back. */
  predicate GivesBack(r: Parsed, p: Proxy) {
    && r.Ok?
    && r.proxy.scheme == p.scheme && r.proxy.host == p.host && r.proxy.port == p.port
    && r.proxy.username == p.username && r.proxy.password == p.password
  }

  lemma {:induction false} CleanRoundTrip(literalOk: string -> bool, p: Proxy, source: string)
    requires 1 <= p.port <= 65535 && source != "" && CleanHost(p.host)
    ensures ParseProxyUrl(literalOk, FormatProxyUrl(p, true), source)
            == Ok(NewProxy(p.scheme, p.host, p.port, p.username, if p.username.Some? then p.password else None, source))
  {
    PrintedReaches(literalOk, p, source);
    NetlocParses(literalOk, p, source);
  }

  lemma NetlocParses(literalOk: string -> bool, p: Proxy, source: string)
    requires 1 <= p.port <= 65535 && source != "" && CleanHost(p.host)
    ensures ParseNetloc(literalOk, SchemeText(p.scheme), NetlocText(p), source)
            == Ok(NewProxy(p.scheme, p.host, p.port, p.username, if p.username.Some? then p.password else None, source))
  {
    NetlocChars(p);
    NetlocSplits(p);
    HostinfoSplits(p.host, Decimal.Print(p.port));
    Decimal.ParsePrint(p.port);
    SchemeSplits(p.scheme, "");
    PartsParse(literalOk, p.scheme, NetlocText(p), p.host, Decimal.Print(p.port), source);
  }

  lemma PartsParse(literalOk: string -> bool, scheme: Scheme, netloc: string, host: string, port: string,
                   source: string)
    requires BracketsOk(literalOk, netloc) && SchemeFrom(SchemeText(scheme)) == Some(scheme)
    requires HostnameOf(HostinfoOf(netloc)) == host && PortTextOf(HostinfoOf(netloc)) == port
    requires host != "" && port != "" && source != ""
    requires Decimal.AllDigits(port) && 1 <= Decimal.Parse(port) <= 65535
    ensures ParseNetloc(literalOk, SchemeText(scheme), netloc, source)
            == Ok(NewProxy(scheme, host, Decimal.Parse(port), UnquoteAll(UsernameOf(UserinfoOf(netloc))),
                           UnquoteAll(PasswordOf(UserinfoOf(netloc))), source))
  {}

  // ---------------------------------------------------------------- brackets

  /** How many opening brackets a text holds. */
  function Opens(s: string): nat {
    if s == "" then 0 else (if s[0] == '[' then 1 else 0) + Opens(s[1..])
  }

  lemma {:induction false} OpensConcat(a: string, b: string)
    ensures Opens(a + b) == Opens(a) + Opens(b)
  {
    if a == "" {
      assert a + b == b;
    } else {
      OpensConcat(a[1..], b);
      assert (a + b)[1..] == a[1..] + b;
    }
  }

  lemma OpensSlice(s: string, i: nat, j: nat)
    requires i <= j <= |s|
    ensures Opens(s[i..j]) <= Opens(s)
  {
    OpensConcat(s[..i], s[i..j]);
    OpensConcat(s[..j], s[j..]);
    assert s == s[..j] + s[j..] && s[..j] == s[..i] + s[i..j];
  }

  lemma {:induction false} NoOpens(s: string)
    ensures Free(s, '[') <==> Opens(s) == 0
  {
    if s != "" {
      NoOpens(s[1..]);
      assert Free(s, '[') <==> s[0] != '[' && Free(s[1..], '[');
    }
  }

  lemma {:induction false} OpensLower(s: string)
    ensures Opens(Text.Lower(s)) == Opens(s)
  {
    if s != "" {
      OpensLower(s[1..]);
      assert Text.Lower(s)[1..] == Text.Lower(s[1..]);
    }
  }

  lemma OpensLowerToZone(h: string)
    ensures Opens(LowerToZone(h)) == Opens(h)
  {
    var zone := IndexOf(h, '%');
    OpensConcat(Text.Lower(h[..zone]), h[zone..]);
    OpensLower(h[..zone]);
    OpensConcat(h[..zone], h[zone..]);
    assert h == h[..zone] + h[zone..];
  }

  lemma {:induction false} OpensWithoutBreaks(s: string)
    ensures Opens(WithoutBreaks(s)) <= Opens(s)
  {
    if s != "" {
      OpensWithoutBreaks(s[1..]);
      if !IsStripped(s[0]) {
        assert WithoutBreaks(s)[1..] == WithoutBreaks(s[1..]);
      }
    }
  }

  lemma {:induction false} OpensWithoutLeading(s: string)
    ensures Opens(WithoutLeadingControls(s)) <= Opens(s) && Opens(Text.LStrip(s)) <= Opens(s)
  {
    if s != "" {
      OpensWithoutLeading(s[1..]);
    }
  }

  lemma {:induction false} OpensRStrip(s: string)
    ensures Opens(Text.RStrip(s)) <= Opens(s)
  {
    if s != "" {
      OpensRStrip(s[..|s| - 1]);
      OpensSlice(s, 0, |s| - 1);
    }
  }

  lemma OpensCleaned(raw: string)
    ensures Opens(Cleaned(raw)) <= Opens(raw)
  {
    OpensWithoutLeading(raw);
    OpensRStrip(Text.LStrip(raw));
    OpensWithoutLeading(Text.Strip(raw));
    OpensWithoutBreaks(WithoutLeadingControls(Text.Strip(raw)));
  }

  lemma OpensRest(url: string)
    ensures Opens(SplitScheme(url).1) <= Opens(url)
  {
    var i := IndexOf(url, ':');
    if i < |url| {
      OpensSlice(url, i + 1, |url|);
      assert url[i + 1..|url|] == url[i + 1..];
    }
  }

  /** Cutting the network location out of a text adds no bracket. */
  lemma OpensNetloc(url: string)
    ensures Opens(NetlocIn(url)) <= Opens(url)
  {
    var rest := SplitScheme(url).1;
    OpensRest(url);
    if "//" <= rest {
      var netloc := UntilDelimiter(rest[2..]);
      OpensSlice(rest, 2, |rest|);
      OpensSlice(rest[2..], 0, |netloc|);
      assert rest[2..|rest|] == rest[2..] && rest[2..][0..|netloc|] == netloc;
    }
  }

  /** The host of a bracketed location has lost a bracket. */
  lemma BracketedHostLosesABracket(hostinfo: string)
    requires !Free(hostinfo, '[')
    ensures Opens(HostnameOf(hostinfo)) < Opens(hostinfo)
  {
    var open := IndexOf(hostinfo, '[');
    var bracketed := hostinfo[open + 1..];
    assert hostinfo == hostinfo[..open] + (['['] + bracketed);
    OpensConcat(hostinfo[..open], ['['] + bracketed);
    OpensSlice(bracketed, 0, IndexOf(bracketed, ']'));
    assert bracketed[0..IndexOf(bracketed, ']')] == HostPartOf(hostinfo);
    OpensLowerToZone(HostPartOf(hostinfo));
  }

  lemma UnbracketedHostHasNone(hostinfo: string)
    requires Free(hostinfo, '[')
    ensures Opens(HostnameOf(hostinfo)) == 0
  {
    NoOpens(hostinfo);
    OpensSlice(hostinfo, 0, IndexOf(hostinfo, ':'));
    OpensLowerToZone(HostPartOf(hostinfo));
  }

  lemma HostBrackets(literalOk: string -> bool, netloc: string)
    requires forall i :: 0 <= i < |netloc| ==> !IsDelimiter(netloc[i]) && !IsStripped(netloc[i])
    requires BracketsOk(literalOk, netloc) && HostnameOf(HostinfoOf(netloc)) != ""
    ensures CleanHost(HostnameOf(HostinfoOf(netloc))) || Opens(HostnameOf(HostinfoOf(netloc))) < Opens(netloc)
  {
    var hostinfo := HostinfoOf(netloc);
    if Free(netloc, '[') {
      UnbracketedHostIsClean(netloc);
    } else {
      NoOpens(netloc);
      HostinfoIsPart(netloc);
      OpensSlice(netloc, LastIndexOf(netloc, '@') + 1, |netloc|);
      if Free(hostinfo, '[') {
        UnbracketedHostHasNone(hostinfo);
      } else {
        BracketedHostLosesABracket(hostinfo);
      }
    }
  }

  /** The host that comes out of the parser is clean or has lost a bracket of the text. */
  lemma ParsedHostBrackets(literalOk: string -> bool, raw: string, source: string)
    ensures var r := ParseProxyUrl(literalOk, raw, source);
            r.Ok? ==> CleanHost(r.proxy.host) || Opens(r.proxy.host) < Opens(raw)
  {
    var netloc := NetlocIn(Cleaned(raw));
    NetlocIsPart(Cleaned(raw));
    OpensCleaned(raw);
    OpensNetloc(Cleaned(raw));
    HostOfParsed(literalOk, SplitScheme(Cleaned(raw)).0, netloc, source);
    if ParseProxyUrl(literalOk, raw, source).Ok? {
      HostBrackets(literalOk, netloc);
    }
  }

  lemma {:induction false} OpensPrinted(p: Proxy)
    requires p.port >= 0
    ensures Opens(FormatProxyUrl(p, true)) == Opens(p.host)
  {
    var front, cred, digits := SchemeText(p.scheme) + "://", Credentials(p), Decimal.Print(p.port);
    CredentialChars(p);
    forall i | 0 <= i < |cred| ensures cred[i] != '[' {
      QuotedIsNetlocChar(cred[i]);
    }
    SchemeTextChars(p.scheme);
    NoOpens(front);
    NoOpens(cred);
    NoOpens(digits);
    OpensConcat(cred + p.host + ":", digits);
    OpensConcat(cred + p.host, ":");
    OpensConcat(cred, p.host);
    OpensConcat(front, NetlocText(p));
  }

  // ---------------------------------------------------------------- the results

  predicate Ascii(s: string) { forall i :: 0 <= i < |s| ==> s[i] < '\U{80}' }

  /** Whatever is parsed from a location without brackets, the host that comes back is clean. */
  lemma {:induction false} ParsedHost(literalOk: string -> bool, raw: string, source: string)
    requires Free(NetlocIn(Cleaned(raw)), '[')
    ensures var r := ParseProxyUrl(literalOk, raw, source); r.Ok? ==> CleanHost(r.proxy.host)
  {
    var netloc := NetlocIn(Cleaned(raw));
    NetlocIsPart(Cleaned(raw));
    HostOfParsed(literalOk, SplitScheme(Cleaned(raw)).0, netloc, source);
    if Free(netloc, ']') {
      UnbracketedHostIsClean(netloc);
    }
  }

  /** Round trip: parsing the printed URL of a proxy gives scheme, host, port, user name and password back,
      whatever characters the credentials hold, exactly when the host is clean and a password does not come
      without a user name. */
  lemma {:induction false} RoundTrip(literalOk: string -> bool, p: Proxy, source: string)
    requires 1 <= p.port <= 65535 && source != "" && Ascii(p.host)
    ensures GivesBack(ParseProxyUrl(literalOk, FormatProxyUrl(p, true), source), p)
            <==> CleanHost(p.host) && (p.username.Some? || p.password.None?)
  {
    if CleanHost(p.host) {
      CleanRoundTrip(literalOk, p, source);
    } else {
      ParsedHostBrackets(literalOk, FormatProxyUrl(p, true), source);
      OpensPrinted(p);
    }
  }

  /** Without credentials the printed URL gives back the endpoint alone. */
  lemma {:induction false} RoundTripWithoutCredentials(literalOk: string -> bool, p: Proxy, source: string)
    requires 1 <= p.port <= 65535 && source != "" && Ascii(p.host)
    ensures GivesBack(ParseProxyUrl(literalOk, FormatProxyUrl(p, false), source), Anonymously(p)) <==> CleanHost(p.host)
  {
    RoundTrip(literalOk, Anonymously(p), source);
  }

  predicate NoLiteralMark(h: string) { Free(h, ':') && Free(h, '[') && Free(h, ']') }

  lemma LowerMarks(h: string)
    ensures NoLiteralMark(LowerToZone(h)) <==> NoLiteralMark(h)
  {
    var r, zone := LowerToZone(h), IndexOf(h, '%');
    forall i | 0 <= i < |h| ensures r[i] == if i < zone then Text.LowerChar(h[i]) else h[i] {}
    forall c | c == ':' || c == '[' || c == ']' ensures Free(r, c) <==> Free(h, c) {
      assert forall i :: 0 <= i < |h| ==> (r[i] == c <==> h[i] == c);
    }
  }

  lemma HostIsCleanIff(netloc: string)
    requires forall i :: 0 <= i < |netloc| ==> !IsDelimiter(netloc[i]) && !IsStripped(netloc[i])
    ensures var host := HostnameOf(HostinfoOf(netloc)); host != "" ==> (CleanHost(host) <==> NoLiteralMark(host))
  {
    var hostinfo := HostinfoOf(netloc);
    HostinfoIsPart(netloc);
    forall i | 0 <= i < |hostinfo| ensures PlainChar(hostinfo[i]) {}
    HostPartIsPlain(hostinfo);
    var h := HostPartOf(hostinfo);
    LowerMarks(h);
    if NoLiteralMark(h) {
      forall i | 0 <= i < |h| ensures HostChar(h[i]) {
        assert PlainChar(h[i]);
      }
      LowerIsClean(h);
    }
  }

  predicate PlainChar(c: char) { !IsDelimiter(c) && !IsStripped(c) && c != '@' }

  lemma HostPartIsPlain(hostinfo: string)
    requires forall i :: 0 <= i < |hostinfo| ==> PlainChar(hostinfo[i])
    ensures forall i :: 0 <= i < |HostPartOf(hostinfo)| ==> PlainChar(HostPartOf(hostinfo)[i])
  {
    var open := IndexOf(hostinfo, '[');
    var h := HostPartOf(hostinfo);
    forall i | 0 <= i < |h| ensures PlainChar(h[i]) {
      assert h[i] == hostinfo[if open == |hostinfo| then i else open + 1 + i];
    }
  }

  lemma ParsedCredentials(literalOk: string -> bool, scheme: string, netloc: string, source: string)
    ensures var r := ParseNetloc(literalOk, scheme, netloc, source);
            r.Ok? ==> 1 <= r.proxy.port <= 65535 && r.proxy.source == source != ""
                      && (r.proxy.username.Some? || r.proxy.password.None?)
  {}

  /** A parsed record survives being printed and parsed again exactly when its host holds no colon and no
      bracket: every record from a location without brackets does, and none with an IPv6 address does, since
      the printer leaves the brackets out. */
  lemma {:induction false} ParsedSurvives(literalOk: string -> bool, raw: string, source: string)
    requires ParseProxyUrl(literalOk, raw, source).Ok? && Ascii(ParseProxyUrl(literalOk, raw, source).proxy.host)
    ensures var p := ParseProxyUrl(literalOk, raw, source).proxy;
            && (1 <= p.port <= 65535)
            && (GivesBack(ParseProxyUrl(literalOk, FormatProxyUrl(p, true), source), p) <==> NoLiteralMark(p.host))
            && (Free(NetlocIn(Cleaned(raw)), '[') ==> NoLiteralMark(p.host))
  {
    var scheme, netloc := SplitScheme(Cleaned(raw)).0, NetlocIn(Cleaned(raw));
    NetlocIsPart(Cleaned(raw));
    HostOfParsed(literalOk, scheme, netloc, source);
    ParsedCredentials(literalOk, scheme, netloc, source);
    HostIsCleanIff(netloc);
    RoundTrip(literalOk, ParseProxyUrl(literalOk, raw, source).proxy, source);
    if Free(netloc, '[') {
      ParsedHost(literalOk, raw, source);
    }
  }

  /** What an address literal is made of, as far as splitting goes; lower case up to a zone mark. */
  predicate LiteralHost(h: string) {
    && (forall i :: 0 <= i < |h| ==> NetlocChar(h[i]) && h[i] != '@')
    && LowerToZone(h) == h
  }

  function Bracketed(h: string, port: nat): string { "[" + h + "]:" + Decimal.Print(port) }

  lemma BracketedParts(h: string, digits: string)
    requires Free(h, ']')
    ensures var info := "[" + h + "]:" + digits; HostPartOf(info) == h && PortTextOf(info) == digits
  {
    var info, inside, tail := "[" + h + "]:" + digits, h + "]:" + digits, ":" + digits;
    FirstSplits("", inside, '[');
    assert info == "" + ['['] + inside;
    FirstSplits(h, tail, ']');
    assert inside == h + [']'] + tail;
    FirstSplits("", digits, ':');
    assert tail == "" + [':'] + digits;
  }

  lemma BracketedSplits(h: string, digits: string)
    requires LiteralHost(h)
    ensures var info := "[" + h + "]:" + digits;
            HostnameOf(info) == h && PortTextOf(info) == digits && !Free(info, '[') && !Free(info, ']')
  {
    var info := "[" + h + "]:" + digits;
    assert Free(h, ']');
    BracketedParts(h, digits);
    assert info[0] == '[' && info[|h| + 1] == ']';
  }

  lemma BracketedHasNoAt(h: string, digits: string)
    requires LiteralHost(h) && Decimal.AllDigits(digits)
    ensures var info := "[" + h + "]:" + digits;
            HostinfoOf(info) == info && forall i :: 0 <= i < |info| ==> !IsDelimiter(info[i]) && !IsStripped(info[i])
  {
    var info := "[" + h + "]:" + digits;
    forall i | 0 <= i < |info| ensures info[i] != '@' && !IsDelimiter(info[i]) && !IsStripped(info[i]) {
      if 0 < i <= |h| {
        assert info[i] == h[i - 1];
      } else if i > |h| + 2 {
        assert info[i] == digits[i - |h| - 3];
      }
    }
    NoAt(info);
  }

  lemma BracketedParses(literalOk: string -> bool, scheme: Scheme, h: string, port: nat, source: string)
    requires LiteralHost(h) && h != "" && 1 <= port <= 65535 && source != "" && literalOk(Bracketed(h, port))
    ensures var r := ParseNetloc(literalOk, SchemeText(scheme), Bracketed(h, port), source);
            r.Ok? && r.proxy.host == h && r.proxy.port == port
  {
    BracketedSplits(h, Decimal.Print(port));
    BracketedHasNoAt(h, Decimal.Print(port));
    Decimal.ParsePrint(port);
    SchemeSplits(scheme, "");
    PartsParse(literalOk, scheme, Bracketed(h, port), h, Decimal.Print(port), source);
  }

  lemma BracketedReaches(literalOk: string -> bool, scheme: Scheme, h: string, port: nat, source: string)
    requires LiteralHost(h)
    ensures ParseProxyUrl(literalOk, SchemeText(scheme) + "://" + Bracketed(h, port), source)
            == ParseNetloc(literalOk, SchemeText(scheme), Bracketed(h, port), source)
  {
    var front, netloc := SchemeText(scheme) + "://", Bracketed(h, port);
    var digits := Decimal.Print(port);
    BracketedHasNoAt(h, digits);
    SchemeTextChars(scheme);
    assert netloc[|netloc| - 1] == digits[|digits| - 1];
    Joined(front + netloc, front, netloc);
    CleaningKeeps(front + netloc);
    SchemeSplits(scheme, netloc);
  }

  /** The case exists for every address literal with a colon: written in brackets it is accepted, and its
      record does not survive. */
  lemma AddressLiteralIsLost(literalOk: string -> bool, scheme: Scheme, h: string, port: nat, source: string)
    requires LiteralHost(h) && Ascii(h) && !Free(h, ':') && 1 <= port <= 65535 && source != ""
    requires literalOk(Bracketed(h, port))
    ensures var r := ParseProxyUrl(literalOk, SchemeText(scheme) + "://" + Bracketed(h, port), source);
            && r.Ok? && r.proxy.host == h && r.proxy.port == port
            && !GivesBack(ParseProxyUrl(literalOk, FormatProxyUrl(r.proxy, true), source), r.proxy)
  {
    BracketedReaches(literalOk, scheme, h, port, source);
    BracketedParses(literalOk, scheme, h, port, source);
    ParsedSurvives(literalOk, SchemeText(scheme) + "://" + Bracketed(h, port), source);
  }

  // ---------------------------------------------------------------- what is read, in whatever case

  /** The texts of the four schemes, and no others, are read as schemes. */
  lemma SupportedSchemes(text: string)
    ensures SchemeFrom(text) == (if text == "http" then Some(Http) else if text == "https" then Some(Https)
                                 else if text == "socks4" then Some(Socks4) else if text == "socks5" then Some(Socks5)
                                 else None)
    ensures SchemeFrom(text).Some? ==> SchemeText(SchemeFrom(text).value) == text
  {}

  lemma BreaksHead(c: char, s: string)
    ensures WithoutBreaks([c] + s) == (if IsStripped(c) then "" else [c]) + WithoutBreaks(s)
  {
    assert ([c] + s)[1..] == s;
  }

  lemma {:induction false} BreaksConcat(a: string, b: string)
    ensures WithoutBreaks(a + b) == WithoutBreaks(a) + WithoutBreaks(b)
  {
    if a == "" {
      assert a + b == b;
    } else {
      BreaksConcat(a[1..], b);
      BreaksConsConcat(a[0], a[1..], b);
      assert a == [a[0]] + a[1..];
    }
  }

  lemma BreaksConsConcat(c: char, rest: string, b: string)
    requires WithoutBreaks(rest + b) == WithoutBreaks(rest) + WithoutBreaks(b)
    ensures WithoutBreaks(([c] + rest) + b) == WithoutBreaks([c] + rest) + WithoutBreaks(b)
  {
    BreaksHead(c, rest);
    BreaksHead(c, rest + b);
    Associates([c], rest, b);
    Associates(if IsStripped(c) then "" else [c], WithoutBreaks(rest), WithoutBreaks(b));
  }

  lemma Associates(x: string, y: string, z: string)
    ensures (x + y) + z == x + (y + z)
  {}

  /** Tabs and line breaks count for nothing wherever they stand, and nothing else is dropped. */
  lemma BreaksDropped(a: string, c: char, b: string)
    ensures WithoutBreaks(a + [c] + b)
            == WithoutBreaks(a) + (if c == '\t' || c == '\n' || c == '\r' then "" else [c]) + WithoutBreaks(b)
  {
    BreaksConcat(a + [c], b);
    BreaksConcat(a, [c]);
    assert [c][1..] == "";
  }

  /** Spaces and control characters in front count for nothing. */
  lemma ControlsDropped(c: char, s: string)
    ensures WithoutLeadingControls([c] + s) == if c as int <= 32 then WithoutLeadingControls(s) else [c] + s
  {
    assert ([c] + s)[1..] == s;
  }

  /** Why a location is refused, first reason first: brackets out of order, another scheme, no host, no port,
      a port that is no number up to 65535, the port zero or a missing source. */
  lemma RefusedBecause(literalOk: string -> bool, scheme: string, netloc: string, source: string)
    ensures var r := ParseNetloc(literalOk, scheme, netloc, source);
            var host, port := HostnameOf(HostinfoOf(netloc)), PortTextOf(HostinfoOf(netloc));
            var number := (forall i :: 0 <= i < |port| ==> '0' <= port[i] <= '9');
            r.Err? ==>
              match r.error
              case InvalidBrackets => !BracketsOk(literalOk, netloc)
              case UnsupportedScheme => scheme !in {"http", "https", "socks4", "socks5"}
              case HostRequired => host == ""
              case PortRequired => host != "" && port == ""
              case PortInvalid => host != "" && port != "" && (number ==> Decimal.Parse(port) > 65535)
              case InvalidEndpoint => host != "" && port != "" && number && (Decimal.Parse(port) == 0 || source == "")
  {}

  lemma LowerToZoneAt(h: string, i: nat)
    requires i < |h|
    ensures |LowerToZone(h)| == |h|
    ensures LowerToZone(h)[i] == if i < IndexOf(h, '%') then Text.LowerChar(h[i]) else h[i]
  {}

  /** The host as it is kept: the same letters, in lower case up to a zone mark and untouched from there on. */
  lemma LowerToZoneText(h: string, i: nat)
    requires i < |h|
    ensures var r := LowerToZone(h);
            && |r| == |h| && Text.SameLetter(r[i], h[i])
            && (if i < IndexOf(h, '%') then !('A' <= r[i] <= 'Z') else r[i] == h[i])
  {
    LowerToZoneAt(h, i);
  }

  /** A text of host characters, in whatever case. */
  predicate HostText(h: string) { h != "" && forall i :: 0 <= i < |h| ==> HostChar(h[i]) }

  lemma HostTextSplits(h: string, digits: string)
    requires HostText(h) && Decimal.AllDigits(digits)
    ensures var info := h + ":" + digits;
            && HostnameOf(info) == LowerToZone(h) && PortTextOf(info) == digits
            && Free(info, '[') && Free(info, ']') && Free(info, '@')
            && forall i :: 0 <= i < |info| ==> NetlocChar(info[i])
  {
    var info := h + ":" + digits;
    forall i | 0 <= i < |info| ensures NetlocChar(info[i]) && info[i] != '@' {
      if i < |h| {
        assert HostChar(h[i]);
      } else if i > |h| {
        assert Decimal.IsDigit(digits[i - |h| - 1]);
      }
    }
    FirstSplits(h, digits, ':');
    assert info == h + [':'] + digits && IndexOf(info, '[') == |info|;
  }

  lemma HostTextParses(literalOk: string -> bool, scheme: Scheme, h: string, port: nat, source: string)
    requires HostText(h) && 1 <= port <= 65535 && source != ""
    ensures ParseNetloc(literalOk, SchemeText(scheme), h + ":" + Decimal.Print(port), source)
            == Ok(NewProxy(scheme, LowerToZone(h), port, None, None, source))
  {
    var netloc := h + ":" + Decimal.Print(port);
    HostTextSplits(h, Decimal.Print(port));
    Decimal.ParsePrint(port);
    NoAt(netloc);
    assert HostinfoOf(netloc) == netloc && UserinfoOf(netloc) == None;
    SchemeSplits(scheme, "");
    LowerToZoneText(h, 0);
    PartsParse(literalOk, scheme, netloc, LowerToZone(h), Decimal.Print(port), source);
  }

  /** A scheme in whatever case, a host and a port, and what may follow them. */
  predicate UrlParts(scheme: Scheme, text: string, netloc: string, tail: string) {
    && Text.Lower(text) == SchemeText(scheme)
    && (forall i :: 0 <= i < |netloc| ==> NetlocChar(netloc[i]))
    && (tail != "" ==> IsDelimiter(tail[0]))
  }

  lemma LowerLetter(c: char)
    ensures 'a' <= Text.LowerChar(c) <= 'z' ==> IsLetter(c)
    ensures '0' <= Text.LowerChar(c) <= '9' ==> Text.LowerChar(c) == c
  {}

  lemma SchemeInAnyCase(scheme: Scheme, text: string)
    requires Text.Lower(text) == SchemeText(scheme)
    ensures text != "" && IsLetter(text[0]) && forall i :: 0 <= i < |text| ==> SchemeChar(text[i]) && text[i] != ':'
  {
    var lower := SchemeText(scheme);
    assert forall i :: 0 <= i < |lower| ==> 'a' <= lower[i] <= 'z' || '0' <= lower[i] <= '9';
    assert 'a' <= lower[0] <= 'z';
    forall i | 0 <= i < |text| ensures SchemeChar(text[i]) && text[i] != ':' && (i == 0 ==> IsLetter(text[0])) {
      assert lower[i] == Text.LowerChar(text[i]);
      LowerLetter(text[i]);
    }
  }

  lemma {:induction false} StopsAtTail(netloc: string, tail: string)
    requires (forall i :: 0 <= i < |netloc| ==> NetlocChar(netloc[i])) && (tail != "" ==> IsDelimiter(tail[0]))
    ensures UntilDelimiter(netloc + tail) == netloc
  {
    if netloc != "" {
      StopsAtTail(netloc[1..], tail);
      assert (netloc + tail)[1..] == netloc[1..] + tail;
    } else {
      assert netloc + tail == tail;
    }
  }

  lemma UrlSplits(scheme: Scheme, text: string, netloc: string, tail: string)
    requires UrlParts(scheme, text, netloc, tail)
    ensures var url := text + "://" + netloc + tail;
            SplitScheme(url).0 == SchemeText(scheme) && NetlocIn(url) == netloc
  {
    var url, rest := text + "://" + netloc + tail, "//" + (netloc + tail);
    assert url == text + [':'] + rest;
    SchemeComesOff(scheme, text, rest);
    assert rest[2..] == netloc + tail;
    StopsAtTail(netloc, tail);
  }

  lemma SchemeComesOff(scheme: Scheme, text: string, rest: string)
    requires Text.Lower(text) == SchemeText(scheme)
    ensures SplitScheme(text + [':'] + rest) == (SchemeText(scheme), rest)
  {
    var url := text + [':'] + rest;
    SchemeInAnyCase(scheme, text);
    FirstSplits(text, rest, ':');
    assert forall k :: 0 <= k < |text| ==> url[k] == text[k];
  }

  lemma {:induction false} StripsPadding(left: string, core: string, right: string)
    requires core != "" && !Text.IsSpace(core[0]) && !Text.IsSpace(core[|core| - 1])
    requires forall i :: 0 <= i < |left| ==> Text.IsSpace(left[i])
    requires forall i :: 0 <= i < |right| ==> Text.IsSpace(right[i])
    ensures Text.Strip(left + core + right) == core
    decreases |left| + |right|
  {
    if left != "" {
      StripsPadding(left[1..], core, right);
      assert (left + core + right)[1..] == left[1..] + core + right;
    } else if right != "" {
      var all := core + right;
      assert left + core + right == all && Text.LStrip(all) == all;
      StripsPadding("", core, right[..|right| - 1]);
      var shorter := core + right[..|right| - 1];
      assert "" + core + right[..|right| - 1] == shorter && Text.LStrip(shorter) == shorter;
      assert all[..|all| - 1] == shorter;
    } else {
      assert left + core + right == core;
    }
  }

  /** A proxy is read from a URL with spaces around it, a scheme and a host in whatever case, and a path, query
      or fragment behind the port: the scheme, the host in lower case up to a zone mark, and the port. */
  lemma {:induction false} ReadInAnyCase(literalOk: string -> bool, left: string, scheme: Scheme, text: string,
                                         h: string, port: nat, tail: string, right: string, source: string)
    requires forall i :: 0 <= i < |left| ==> left[i] as int in Text.SPACES
    requires forall i :: 0 <= i < |right| ==> right[i] as int in Text.SPACES
    requires Text.Lower(text) == SchemeText(scheme) && HostText(h) && 1 <= port <= 65535 && source != ""
    requires tail != "" ==> (tail[0] == '/' || tail[0] == '?' || tail[0] == '#') && tail[|tail| - 1] > ' '
    requires forall i :: 0 <= i < |tail| ==> tail[i] != '\t' && tail[i] != '\n' && tail[i] != '\r'
    ensures ParseProxyUrl(literalOk, left + (text + "://" + (h + ":" + Decimal.Print(port)) + tail) + right, source)
            == Ok(NewProxy(scheme, LowerToZone(h), port, None, None, source))
  {
    var netloc := h + ":" + Decimal.Print(port);
    HostTextSplits(h, Decimal.Print(port));
    CoreParses(literalOk, left, scheme, text, netloc, tail, right, source);
    HostTextParses(literalOk, scheme, h, port, source);
  }

  lemma CoreParses(literalOk: string -> bool, left: string, scheme: Scheme, text: string, netloc: string,
                   tail: string, right: string, source: string)
    requires UrlParts(scheme, text, netloc, tail) && netloc != "" && Decimal.IsDigit(netloc[|netloc| - 1])
    requires forall i :: 0 <= i < |left| ==> left[i] as int in Text.SPACES
    requires forall i :: 0 <= i < |right| ==> right[i] as int in Text.SPACES
    requires tail != "" ==> tail[|tail| - 1] > ' '
    requires forall i :: 0 <= i < |tail| ==> !IsStripped(tail[i])
    ensures ParseProxyUrl(literalOk, left + (text + "://" + netloc + tail) + right, source)
            == ParseNetloc(literalOk, SchemeText(scheme), netloc, source)
  {
    var core := text + "://" + netloc + tail;
    CoreIsClean(scheme, text, netloc, tail);
    StripsPadding(left, core, right);
    UrlSplits(scheme, text, netloc, tail);
  }

  lemma CoreIsClean(scheme: Scheme, text: string, netloc: string, tail: string)
    requires UrlParts(scheme, text, netloc, tail) && netloc != "" && Decimal.IsDigit(netloc[|netloc| - 1])
    requires tail != "" ==> !Text.IsSpace(tail[|tail| - 1])
    requires forall i :: 0 <= i < |tail| ==> !IsStripped(tail[i])
    ensures var core := text + "://" + netloc + tail;
            && core != "" && !Text.IsSpace(core[0]) && !Text.IsSpace(core[|core| - 1])
            && WithoutBreaks(WithoutLeadingControls(core)) == core
  {
    var core := text + "://" + netloc + tail;
    SchemeInAnyCase(scheme, text);
    forall i | 0 <= i < |core| ensures !IsStripped(core[i]) {
      if i < |text| {
        assert core[i] == text[i] && SchemeChar(text[i]);
      } else if i >= |text| + 3 + |netloc| {
        assert core[i] == tail[i - |text| - 3 - |netloc|];
      } else if i >= |text| + 3 {
        assert core[i] == netloc[i - |text| - 3];
      }
    }
    assert core[|core| - 1] == if tail != "" then tail[|tail| - 1] else netloc[|netloc| - 1];
    CleaningKeeps(core);
    StripKeeps(core);
  }

  /** An id spells out scheme, lower-cased host and port, with dashes between. */
  lemma IdText(scheme: Scheme, host: string, port: nat) returns (middle: string)
    ensures BuildProxyId(SchemeText(scheme), host, port)
            == SchemeText(scheme) + "-" + middle + "-" + Decimal.Print(port)
    ensures |middle| == |host|
    ensures forall i :: 0 <= i < |host| ==> Text.SameLetter(middle[i], host[i]) && !('A' <= middle[i] <= 'Z')
  {
    middle := Text.Lower(host);
  }

  lemma NetlocIsPart(url: string)
    requires forall i :: 0 <= i < |url| ==> !IsStripped(url[i])
    ensures var netloc := NetlocOf(SplitScheme(url).1);
            forall i :: 0 <= i < |netloc| ==> !IsDelimiter(netloc[i]) && !IsStripped(netloc[i])
  {
    var rest := SplitScheme(url).1;
    var netloc := NetlocOf(rest);
    if "//" <= rest {
      forall i | 0 <= i < |netloc| ensures !IsStripped(netloc[i]) {
        assert netloc[i] == rest[2..][i] == rest[i + 2];
        assert rest[i + 2] == url[i + 2 + (|url| - |rest|)];
      }
    }
  }

  // ---------------------------------------------------------------- ids

  lemma SplitAtLast(a: string, b: string, x: string, y: string, c: char)
    requires Free(x, c) && Free(y, c) && a + [c] + x == b + [c] + y
    ensures a == b && x == y
  {
    var s := a + [c] + x;
    assert s[|a|] == c && s[|b|] == c;
    assert |a| == |b|;
    assert s[..|a|] == a && (b + [c] + y)[..|b|] == b;
    assert s[|a| + 1..] == x && (b + [c] + y)[|b| + 1..] == y;
  }

  lemma SplitAtFirst(a: string, b: string, x: string, y: string, c: char)
    requires Free(a, c) && Free(b, c) && a + [c] + x == b + [c] + y
    ensures a == b && x == y
  {
    var s := a + [c] + x;
    assert s[|a|] == c && s[|b|] == c;
    assert |a| == |b|;
    assert s[..|a|] == a && (b + [c] + y)[..|b|] == b;
    assert s[|a| + 1..] == x && (b + [c] + y)[|b| + 1..] == y;
  }

  lemma SchemeTextIsInjective(a: Scheme, b: Scheme)
    requires SchemeText(a) == SchemeText(b)
    ensures a == b
  {
    assert SchemeFrom(SchemeText(a)) == Some(a) && SchemeFrom(SchemeText(b)) == Some(b);
  }

  /** An id determines the endpoint, although hosts may contain the separator. */
  lemma IdIsInjective(a: Scheme, h: string, m: nat, b: Scheme, g: string, n: nat)
    ensures BuildProxyId(SchemeText(a), h, m) == BuildProxyId(SchemeText(b), g, n)
            <==> a == b && Text.Lower(h) == Text.Lower(g) && m == n
  {
    if BuildProxyId(SchemeText(a), h, m) == BuildProxyId(SchemeText(b), g, n) {
      var front, back := SchemeText(a) + "-" + Text.Lower(h), SchemeText(b) + "-" + Text.Lower(g);
      assert Free(Decimal.Print(m), '-') && Free(Decimal.Print(n), '-');
      SplitAtLast(front, back, Decimal.Print(m), Decimal.Print(n), '-');
      Decimal.ParsePrint(m);
      Decimal.ParsePrint(n);
      assert Free(SchemeText(a), '-') && Free(SchemeText(b), '-');
      SplitAtFirst(SchemeText(a), SchemeText(b), Text.Lower(h), Text.Lower(g), '-');
      SchemeTextIsInjective(a, b);
    }
  }

  /** A parsed record is fresh, valid, and carries the id of its endpoint. */
  lemma {:induction false} ParsedIsFresh(literalOk: string -> bool, raw: string, source: string)
    ensures var r := ParseProxyUrl(literalOk, raw, source);
            r.Ok? ==>
              var p := r.proxy;
              && Fresh(p) && p.status == Raw && p.source == source && p.host != "" && 1 <= p.port <= 65535
              && p.id == BuildProxyId(SchemeText(p.scheme), p.host, p.port)
  {
    NetlocIsFresh(literalOk, SplitScheme(Cleaned(raw)).0, NetlocIn(Cleaned(raw)), source);
  }

  lemma NetlocIsFresh(literalOk: string -> bool, scheme: string, netloc: string, source: string)
    ensures var r := ParseNetloc(literalOk, scheme, netloc, source);
            r.Ok? ==>
              var p := r.proxy;
              && Fresh(p) && p.status == Raw && p.source == source && p.host != "" && 1 <= p.port <= 65535
              && p.id == BuildProxyId(SchemeText(p.scheme), p.host, p.port)
  {}
}
