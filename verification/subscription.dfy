/** Classification and accounting of subscription content. Decoders, regular expressions and the URL parser
    are oracles; dispatch, classification and counting are not. */
module Subscriptions {
  import opened Domain
  import Text
  import Decimal

  datatype Mode = Direct | CoreAdapter | Unsupported

  datatype Entry = Entry(protocol: string, mode: Mode, proxy: Option<Proxy>)

  datatype Format = PlainText | ClashYaml | V2rayUriList | Base64UriList

  datatype FileType = Auto | HttpList | Socks5List | AllTypes | Clash | V2ray

  datatype Result = Result(format: Format, entries: seq<Entry>, fetched: nat, invalid: nat)

  /** A parse either returns or lets a ValueError of urlparse escape. */
  datatype Outcome<T> = Returned(value: T) | Raised

  /** parse_proxy_url: a record, its own error, or another ValueError. */
  datatype Attempt = Accepted(proxy: Proxy) | Rejected | Escaped

  datatype Node =
    | NotADict
    | ClashNode(kind: string, server: Option<string>, port: Option<Option<int>>,
                username: Option<string>, password: Option<string>)

  /** What lies outside: the scheme of a line is missing where urlparse raises; the YAML reader gives the list
      under `proxies`, nothing for other content, or raises what is no YAMLError; the decodings of a content are
      the texts its base64 readings decode to, none for content that cannot be base64. */
  datatype Oracles = Oracles(
    splitLines: string -> seq<string>,
    fullMatch: string -> Option<string>,
    bareMatch: string -> Option<string>,
    parseUrl: string -> Attempt,
    schemeOf: string -> Option<string>,
    hasAuthority: string -> bool,
    vmessDecodes: string -> bool,
    ssrDecodes: string -> bool,
    decodings: string -> seq<string>,
    yamlProxies: string -> Outcome<Option<seq<Node>>>)

  const DIRECT_SCHEMES := {"http", "https", "socks4", "socks5"}
  const CLASH_DIRECT_TYPES := {"http", "socks4", "socks5"}
  const ADAPTER_SCHEMES :=
    {"vmess", "vless", "trojan", "ss", "ssr", "hysteria", "hysteria2", "hy2", "tuic", "wireguard", "snell"}

  function NormalizeProtocol(p: string): string { if p == "hy2" then "hysteria2" else p }

  function IntText(n: int): string { if n < 0 then "-" + Decimal.Print(-n) else Decimal.Print(n) }

  // ---------------------------------------------------------------- one line, one node

  predicate Skipped(line: string) { line == "" || "#" <= line || ";" <= line || "//" <= line }

  function ExtractCandidate(o: Oracles, line: string, defaultScheme: Option<string>): Option<string> {
    if o.fullMatch(line).Some? then o.fullMatch(line)
    else if o.bareMatch(line).None? || defaultScheme.None? then None
    else Some(defaultScheme.value + "://" + o.bareMatch(line).value)
  }

  function DirectEntry(o: Oracles, url: string): Outcome<Option<Entry>> {
    match o.parseUrl(url)
    case Accepted(p) => Returned(Some(Entry(SchemeText(p.scheme), Direct, Some(p))))
    case Rejected => Returned(None)
    case Escaped => Raised
  }

  function AdapterEntry(o: Oracles, line: string, scheme: string): Option<Entry> {
    var decodes :=
      if scheme == "vmess" then o.vmessDecodes(line)
      else if scheme == "ssr" then o.ssrDecodes(line)
      else o.hasAuthority(line);
    if decodes then Some(Entry(NormalizeProtocol(scheme), CoreAdapter, None)) else None
  }

  /** The entry of a line, nothing when the line is invalid. */
  function ParseLine(o: Oracles, line: string, defaultScheme: Option<string>): Outcome<Option<Entry>> {
    var candidate := ExtractCandidate(o, line, defaultScheme);
    if candidate.Some? then DirectEntry(o, candidate.value)
    else
      match o.schemeOf(line)
      case None => Raised
      case Some(scheme) =>
        if scheme in DIRECT_SCHEMES then DirectEntry(o, line)
        else if scheme in ADAPTER_SCHEMES then Returned(AdapterEntry(o, line, scheme))
        else Returned(None)
  }

  function ClashUrl(node: Node): string
    requires node.ClashNode? && node.server.Some? && node.port.Some? && node.port.value.Some?
  {
    var credentials :=
      if node.username.None? then ""
      else node.username.value + (if node.password.Some? then ":" + node.password.value else "") + "@";
    node.kind + "://" + credentials + node.server.value + ":" + IntText(node.port.value.value)
  }

  /** A clash node is direct, needs an adapter, is unsupported, or is invalid; nothing escapes. */
  function ParseClashNode(o: Oracles, node: Node): Option<Entry>
    requires node.ClashNode?
  {
    if node.kind in CLASH_DIRECT_TYPES then
      if node.server.None? || node.port.None? || node.port.value.None? then None
      else match o.parseUrl(ClashUrl(node))
        case Accepted(p) => Some(Entry(node.kind, Direct, Some(p)))
        case _ => None
    else if node.kind in ADAPTER_SCHEMES then Some(Entry(NormalizeProtocol(node.kind), CoreAdapter, None))
    else if node.kind != "" then Some(Entry(node.kind, Unsupported, None))
    else None
  }

  // ---------------------------------------------------------------- counts

  function Count(entries: seq<Entry>, mode: Mode): nat {
    if entries == [] then 0
    else Count(entries[..|entries| - 1], mode) + if entries[|entries| - 1].mode == mode then 1 else 0
  }

  function ProxiesOf(entries: seq<Entry>): seq<Proxy> {
    if entries == [] then []
    else ProxiesOf(entries[..|entries| - 1])
         + if entries[|entries| - 1].proxy.Some? then [entries[|entries| - 1].proxy.value] else []
  }

  predicate EntryOk(e: Entry) { e.proxy.Some? <==> e.mode == Direct }

  /** A direct entry carries a proxy and no other does, and everything fetched is counted exactly once. */
  predicate Accounted(r: Result) {
    && (forall i :: 0 <= i < |r.entries| ==> EntryOk(r.entries[i]))
    && r.fetched == Count(r.entries, Direct) + Count(r.entries, CoreAdapter) + Count(r.entries, Unsupported) + r.invalid
    && |ProxiesOf(r.entries)| == Count(r.entries, Direct)
    && (r.format != ClashYaml ==> Count(r.entries, Unsupported) == 0)
  }

  lemma ParseLineOk(o: Oracles, line: string, defaultScheme: Option<string>)
    ensures var r := ParseLine(o, line, defaultScheme);
            r.Returned? && r.value.Some? ==> EntryOk(r.value.value) && r.value.value.mode != Unsupported
  {}

  /** One more line or node: an entry, or one more invalid. */
  function Tally(r: Result, e: Option<Entry>): Result {
    if e.Some? then r.(fetched := r.fetched + 1, entries := r.entries + [e.value])
    else r.(fetched := r.fetched + 1, invalid := r.invalid + 1)
  }

  lemma TallyAccounted(r: Result, e: Option<Entry>)
    requires Accounted(r) && (e.Some? ==> EntryOk(e.value) && (r.format != ClashYaml ==> e.value.mode != Unsupported))
    ensures Accounted(Tally(r, e))
  {
    if e.Some? {
      var entries := r.entries + [e.value];
      assert entries[..|r.entries|] == r.entries;
      assert Count(entries, e.value.mode) == Count(r.entries, e.value.mode) + 1;
    }
  }

  /** The lines that count, stripped. */
  function Relevant(lines: seq<string>): seq<string> {
    if lines == [] then []
    else
      var line := Text.Strip(lines[|lines| - 1]);
      Relevant(lines[..|lines| - 1]) + if Skipped(line) then [] else [line]
  }

  function Dicts(nodes: seq<Node>): (r: seq<Node>)
    ensures forall i :: 0 <= i < |r| ==> r[i].ClashNode?
  {
    if nodes == [] then []
    else Dicts(nodes[..|nodes| - 1]) + if nodes[|nodes| - 1].ClashNode? then [nodes[|nodes| - 1]] else []
  }

  /** What the lines of a URI list add up to; a line that lets an error escape has no entry here. */
  function TallyLines(o: Oracles, lines: seq<string>, format: Format, defaultScheme: Option<string>): Result {
    if lines == [] then Result(format, [], 0, 0)
    else
      var parsed := ParseLine(o, lines[|lines| - 1], defaultScheme);
      Tally(TallyLines(o, lines[..|lines| - 1], format, defaultScheme), if parsed.Returned? then parsed.value else None)
  }

  function TallyNodes(o: Oracles, nodes: seq<Node>): Result
    requires forall i :: 0 <= i < |nodes| ==> nodes[i].ClashNode?
  {
    if nodes == [] then Result(ClashYaml, [], 0, 0)
    else Tally(TallyNodes(o, nodes[..|nodes| - 1]), ParseClashNode(o, nodes[|nodes| - 1]))
  }

  /** Every URI list is fully accounted for. */
  lemma {:induction false} LinesAccounted(o: Oracles, lines: seq<string>, format: Format, defaultScheme: Option<string>)
    requires format != ClashYaml
    ensures var r := TallyLines(o, lines, format, defaultScheme);
            Accounted(r) && r.format == format && r.fetched == |lines|
  {
    if lines != [] {
      var init, line := lines[..|lines| - 1], lines[|lines| - 1];
      LinesAccounted(o, init, format, defaultScheme);
      ParseLineOk(o, line, defaultScheme);
      var parsed := ParseLine(o, line, defaultScheme);
      TallyAccounted(TallyLines(o, init, format, defaultScheme), if parsed.Returned? then parsed.value else None);
    }
  }

  /** Every clash document is fully accounted for. */
  lemma {:induction false} NodesAccounted(o: Oracles, nodes: seq<Node>)
    requires forall i :: 0 <= i < |nodes| ==> nodes[i].ClashNode?
    ensures var r := TallyNodes(o, nodes);
            Accounted(r) && r.format == ClashYaml && r.fetched == |nodes|
  {
    if nodes != [] {
      NodesAccounted(o, nodes[..|nodes| - 1]);
      TallyAccounted(TallyNodes(o, nodes[..|nodes| - 1]), ParseClashNode(o, nodes[|nodes| - 1]));
    }
  }

  /** The meaning of a URI list: its tally, unless the error of some line escapes. */
  ghost function UriList(o: Oracles, content: string, format: Format, defaultScheme: Option<string>): Outcome<Result> {
    var lines := Relevant(o.splitLines(content));
    if exists line :: line in lines && ParseLine(o, line, defaultScheme).Raised? then Raised
    else Returned(TallyLines(o, lines, format, defaultScheme))
  }

  lemma UriListAccounted(o: Oracles, content: string, format: Format, defaultScheme: Option<string>)
    requires format != ClashYaml
    ensures var r := UriList(o, content, format, defaultScheme);
            r.Returned? ==> Accounted(r.value) && r.value.format == format
  {
    LinesAccounted(o, Relevant(o.splitLines(content)), format, defaultScheme);
  }

  /** The nodes, when the content is to be read as a clash document; the YAML reader may let an error escape. */
  function ClashReading(o: Oracles, content: string, fileType: FileType): Outcome<Option<seq<Node>>> {
    if fileType in {Clash, Auto} then o.yamlProxies(content) else Returned(None)
  }

  predicate KnownScheme(o: Oracles, line: string) {
    o.schemeOf(line).Some? && o.schemeOf(line).value in DIRECT_SCHEMES + ADAPTER_SCHEMES
  }

  /** Whether some line has a known scheme, found before a line on which urlparse raises. */
  function UrisIn(o: Oracles, lines: seq<string>): Outcome<bool> {
    if lines == [] then Returned(false)
    else
      var before := UrisIn(o, lines[..|lines| - 1]);
      var last := lines[|lines| - 1];
      if before != Returned(false) then before
      else if o.schemeOf(last).None? then Raised
      else Returned(KnownScheme(o, last))
  }

  function UriText(o: Oracles, content: string): Outcome<bool> { UrisIn(o, Relevant(o.splitLines(content))) }

  /** The first line that decides: no scheme at all raises, a known one says yes. */
  ghost predicate DecidesAt(o: Oracles, lines: seq<string>, i: int) {
    && 0 <= i < |lines| && (o.schemeOf(lines[i]).None? || KnownScheme(o, lines[i]))
    && forall j :: 0 <= j < i ==> o.schemeOf(lines[j]).Some? && !KnownScheme(o, lines[j])
  }

  lemma {:induction false} UrisInDecides(o: Oracles, lines: seq<string>)
    ensures UrisIn(o, lines) == Returned(false) <==> forall i :: !DecidesAt(o, lines, i)
    ensures forall i :: DecidesAt(o, lines, i) ==>
              UrisIn(o, lines) == if o.schemeOf(lines[i]).None? then Raised else Returned(true)
  {
    if lines != [] {
      var init, last := lines[..|lines| - 1], |lines| - 1;
      UrisInDecides(o, init);
      forall i ensures DecidesAt(o, init, i) ==> DecidesAt(o, lines, i)
               ensures DecidesAt(o, lines, i) && i < last ==> DecidesAt(o, init, i) {}
      if UrisIn(o, init) == Returned(false) {
        AllUndecided(o, init, last);
        assert DecidesAt(o, lines, last) <==> o.schemeOf(lines[last]).None? || KnownScheme(o, lines[last]);
        assert forall i :: DecidesAt(o, lines, i) ==> i == last;
      }
    }
  }

  lemma {:induction false} AllUndecided(o: Oracles, lines: seq<string>, n: nat)
    requires n <= |lines| && forall i :: !DecidesAt(o, lines, i)
    ensures forall j :: 0 <= j < n ==> o.schemeOf(lines[j]).Some? && !KnownScheme(o, lines[j])
  {
    if n > 0 {
      AllUndecided(o, lines, n - 1);
      assert !DecidesAt(o, lines, n - 1);
    }
  }

  predicate ReadsAsSubscription(text: string, looks: bool) { looks || Text.Contains(text, "proxies:") }

  /** What a decoding is read as: itself if it reads as a subscription; an error of the test escapes. */
  function ReadingOf(o: Oracles, text: string): Outcome<Option<string>> {
    match UriText(o, text)
    case Raised => Raised
    case Returned(looks) => Returned(if ReadsAsSubscription(text, looks) then Some(text) else None)
  }

  function Readings(o: Oracles, texts: seq<string>): (rs: seq<Outcome<Option<string>>>)
    ensures |rs| == |texts| && forall i :: 0 <= i < |rs| ==> rs[i] == ReadingOf(o, texts[i])
  {
    seq(|texts|, i requires 0 <= i < |texts| => ReadingOf(o, texts[i]))
  }

  /** The first outcome that is not nothing, if there is one. */
  function FirstSettled(rs: seq<Outcome<Option<string>>>): Outcome<Option<string>> {
    if rs == [] then Returned(None)
    else
      var before := FirstSettled(rs[..|rs| - 1]);
      if before != Returned(None) then before else rs[|rs| - 1]
  }

  ghost predicate SettlesAt(rs: seq<Outcome<Option<string>>>, i: int) {
    0 <= i < |rs| && rs[i] != Returned(None) && forall j :: 0 <= j < i ==> rs[j] == Returned(None)
  }

  /** The first decoding that reads as a subscription, or on which the test raises, decides. */
  lemma {:induction false} FirstReadingDecides(rs: seq<Outcome<Option<string>>>)
    ensures FirstSettled(rs) == Returned(None) <==> forall i :: 0 <= i < |rs| ==> rs[i] == Returned(None)
    ensures forall i :: SettlesAt(rs, i) ==> FirstSettled(rs) == rs[i]
  {
    if rs != [] {
      var init := rs[..|rs| - 1];
      FirstReadingDecides(init);
      forall i | SettlesAt(rs, i) ensures FirstSettled(rs) == rs[i] {
        if i < |init| {
          assert SettlesAt(init, i);
        }
      }
    }
  }

  function FirstReading(o: Oracles, texts: seq<string>): Outcome<Option<string>> { FirstSettled(Readings(o, texts)) }

  /** The decoded text, when the content is to be read as base64. */
  function Base64Reading(o: Oracles, content: string, fileType: FileType): Outcome<Option<string>> {
    if fileType !in {V2ray, Auto} then Returned(None)
    else
      match FirstReading(o, o.decodings(content))
      case Raised => Raised
      case Returned(None) => Returned(None)
      case Returned(Some(text)) =>
        if fileType == V2ray then Returned(if text == "" then None else Some(text))
        else match UriText(o, text)
          case Raised => Raised
          case Returned(looks) => Returned(if looks then Some(text) else None)
  }

  /** The meaning of content that is no clash document. */
  ghost function TextSubscription(o: Oracles, content: string, fileType: FileType): Outcome<Result> {
    match Base64Reading(o, content, fileType)
    case Raised => Raised
    case Returned(Some(text)) => UriList(o, text, Base64UriList, None)
    case Returned(None) =>
      if fileType == V2ray then UriList(o, content, V2rayUriList, None)
      else UriList(o, content, PlainText, Some(if fileType == Socks5List then "socks5" else "http"))
  }

  /** The format a subscription is read in: clash before base64 before plain text. Only plain text gives
      bare entries a scheme. */
  ghost function Subscription(o: Oracles, content: string, fileType: FileType): Outcome<Result> {
    match ClashReading(o, content, fileType)
    case Raised => Raised
    case Returned(Some(nodes)) => Returned(TallyNodes(o, Dicts(nodes)))
    case Returned(None) => TextSubscription(o, content, fileType)
  }

  /** Whatever the content, the requested type and the format detected, a result that is returned accounts
      for everything fetched: fetched is direct plus adapter plus unsupported plus invalid, the proxy list is
      as long as the direct count, exactly the direct entries carry a proxy, and only clash content can hold
      unsupported entries. */
  lemma SubscriptionAccounted(o: Oracles, content: string, fileType: FileType)
    ensures var r := Subscription(o, content, fileType);
            r.Returned? ==>
              && Accounted(r.value)
              && (r.value.format == ClashYaml <==> ClashReading(o, content, fileType) != Returned(None))
  {
    match ClashReading(o, content, fileType) {
      case Raised =>
      case Returned(Some(nodes)) => NodesAccounted(o, Dicts(nodes));
      case Returned(None) => TextAccounted(o, content, fileType);
    }
  }

  lemma TextAccounted(o: Oracles, content: string, fileType: FileType)
    ensures var r := TextSubscription(o, content, fileType);
            r.Returned? ==> Accounted(r.value) && r.value.format != ClashYaml
  {
    match Base64Reading(o, content, fileType) {
      case Raised =>
      case Returned(Some(text)) => UriListAccounted(o, text, Base64UriList, None);
      case Returned(None) =>
        UriListAccounted(o, content, V2rayUriList, None);
        UriListAccounted(o, content, PlainText, Some(if fileType == Socks5List then "socks5" else "http"));
    }
  }

  // ---------------------------------------------------------------- what is read how

  ghost predicate IsLineOf(lines: seq<string>, line: string) {
    exists i :: 0 <= i < |lines| && line == Text.Strip(lines[i])
  }

  lemma OneMoreLine(lines: seq<string>, line: string)
    requires lines != []
    ensures IsLineOf(lines, line) <==>
              IsLineOf(lines[..|lines| - 1], line) || line == Text.Strip(lines[|lines| - 1])
  {
    var init := lines[..|lines| - 1];
    assert forall i :: 0 <= i < |init| ==> init[i] == lines[i];
  }

  /** The lines that count: those that are not blank and do not start with `#`, `;` or `//`, stripped. */
  lemma {:induction false} RelevantAre(lines: seq<string>, line: string)
    ensures line in Relevant(lines) <==>
              && IsLineOf(lines, line)
              && line != "" && line[0] != '#' && line[0] != ';' && !(|line| >= 2 && line[0] == '/' && line[1] == '/')
  {
    if lines != [] {
      RelevantAre(lines[..|lines| - 1], line);
      OneMoreLine(lines, line);
      SkippedMeans(Text.Strip(lines[|lines| - 1]));
    }
  }

  /** Each counts as often as it occurs, in its place. */
  lemma RelevantAppends(lines: seq<string>, raw: string)
    ensures Relevant([]) == []
    ensures var line := Text.Strip(raw);
            var counts := line != "" && line[0] != '#' && line[0] != ';'
                          && !(|line| >= 2 && line[0] == '/' && line[1] == '/');
            Relevant(lines + [raw]) == Relevant(lines) + if counts then [line] else []
  {
    assert (lines + [raw])[..|lines|] == lines;
    SkippedMeans(Text.Strip(raw));
  }

  /** The nodes that count are the dictionaries, each as often as it occurs. */
  lemma {:induction false} DictsAre(nodes: seq<Node>, node: Node)
    ensures multiset(Dicts(nodes))[node] == if node.ClashNode? then multiset(nodes)[node] else 0
  {
    if nodes != [] {
      var init := nodes[..|nodes| - 1];
      DictsAre(init, node);
      assert nodes == init + [nodes[|nodes| - 1]];
    }
  }

  /** The entries stand in the order of the lines they come from: one more line adds its entry at the end. */
  lemma LineAddsEntry(o: Oracles, lines: seq<string>, line: string, format: Format, defaultScheme: Option<string>)
    requires ParseLine(o, line, defaultScheme).Returned?
    ensures var r := TallyLines(o, lines, format, defaultScheme);
            var r' := TallyLines(o, lines + [line], format, defaultScheme);
            var e := ParseLine(o, line, defaultScheme).value;
            && r'.entries == r.entries + (if e.Some? then [e.value] else [])
            && r'.fetched == r.fetched + 1 && r'.invalid == r.invalid + (if e.Some? then 0 else 1)
  {
    assert (lines + [line])[..|lines|] == lines;
  }

  /** The same for the nodes of a clash document. */
  lemma NodeAddsEntry(o: Oracles, nodes: seq<Node>, node: Node)
    requires (forall i :: 0 <= i < |nodes| ==> nodes[i].ClashNode?) && node.ClashNode?
    ensures var r, r' := TallyNodes(o, nodes), TallyNodes(o, nodes + [node]); var e := ParseClashNode(o, node);
            && r'.entries == r.entries + (if e.Some? then [e.value] else [])
            && r'.fetched == r.fetched + 1 && r'.invalid == r.invalid + (if e.Some? then 0 else 1)
  {
    assert (nodes + [node])[..|nodes|] == nodes;
  }

  /** The schemes by which a list is recognised. */
  lemma KnownMeans(o: Oracles, line: string)
    ensures KnownScheme(o, line) <==>
              && o.schemeOf(line).Some?
              && o.schemeOf(line).value in {"http", "https", "socks4", "socks5", "vmess", "vless", "trojan", "ss",
                                            "ssr", "hysteria", "hysteria2", "hy2", "tuic", "wireguard", "snell"}
  {}

  /** A decoding is taken if it looks like a list, or if the text `proxies:` stands in it. */
  lemma ReadingMeans(o: Oracles, text: string)
    ensures ReadingOf(o, text) ==
              if UriText(o, text).Raised? then Raised
              else if UriText(o, text).value || (exists i :: Text.OccursAt(text, "proxies:", i))
              then Returned(Some(text)) else Returned(None)
  {
    Text.ContainsOccurs(text, "proxies:");
  }

  /** Decoded content is read for v2ray, if there is any, and for auto, if it looks like a list; a clash document
      for clash and auto. */
  lemma FormatMeans(o: Oracles, content: string, fileType: FileType)
    ensures ClashReading(o, content, fileType)
            == if fileType == Clash || fileType == Auto then o.yamlProxies(content) else Returned(None)
    ensures fileType != V2ray && fileType != Auto ==> Base64Reading(o, content, fileType) == Returned(None)
    ensures fileType == V2ray ==>
              Base64Reading(o, content, fileType)
              == var read := FirstReading(o, o.decodings(content));
                 if read == Returned(Some("")) then Returned(None) else read
    ensures fileType == Auto ==>
              Base64Reading(o, content, fileType)
              == match FirstReading(o, o.decodings(content))
                 case Returned(Some(text)) =>
                   if UriText(o, text) == Returned(false) then Returned(None)
                   else if UriText(o, text).Raised? then Raised else Returned(Some(text))
                 case read => read
  {}

  lemma SkippedMeans(line: string)
    ensures Skipped(line) <==>
              || line == "" || line[0] == '#' || line[0] == ';'
              || (|line| >= 2 && line[0] == '/' && line[1] == '/')
  {
    if |line| >= 2 {
      assert "//" <= line <==> line[0] == '/' && line[1] == '/';
    }
  }

  /** What one line of a list is: a URL in it is read as it stands, a bare endpoint with the scheme the list
      gives it; without either, the scheme decides: four are read as proxies, eleven need an adapter, all else
      is invalid. */
  lemma LineMeans(o: Oracles, line: string, defaultScheme: Option<string>)
    ensures var url := o.fullMatch(line); var bare := o.bareMatch(line); var r := ParseLine(o, line, defaultScheme);
            && (url.Some? ==> r == DirectEntry(o, url.value))
            && (url.None? && bare.Some? && defaultScheme.Some? ==>
                  r == DirectEntry(o, defaultScheme.value + "://" + bare.value))
            && (url.None? && (bare.None? || defaultScheme.None?) ==>
                  match o.schemeOf(line)
                  case None => r == Raised
                  case Some(scheme) =>
                    && (scheme in {"http", "https", "socks4", "socks5"} ==> r == DirectEntry(o, line))
                    && (scheme == "vmess" ==> r.Returned? && (r.value.Some? <==> o.vmessDecodes(line)))
                    && (scheme == "ssr" ==> r.Returned? && (r.value.Some? <==> o.ssrDecodes(line)))
                    && (var others := {"vless", "trojan", "ss", "hysteria", "hysteria2", "hy2", "tuic", "wireguard",
                                       "snell"};
                        scheme in others ==> r.Returned? && (r.value.Some? <==> o.hasAuthority(line)))
                    && (scheme !in {"http", "https", "socks4", "socks5"} && r.Returned? && r.value.Some? ==>
                          r.value.value == Entry(if scheme == "hy2" then "hysteria2" else scheme, CoreAdapter, None))
                    && (scheme !in {"http", "https", "socks4", "socks5", "vmess", "vless", "trojan", "ss", "ssr",
                                    "hysteria", "hysteria2", "hy2", "tuic", "wireguard", "snell"} ==>
                          r == Returned(None)))
  {}

  /** Reading a URL as a proxy: an entry under its scheme, an invalid line, or an escaping error. */
  lemma DirectMeans(o: Oracles, url: string)
    ensures match o.parseUrl(url)
            case Accepted(p) => DirectEntry(o, url) == Returned(Some(Entry(SchemeText(p.scheme), Direct, Some(p))))
            case Rejected => DirectEntry(o, url) == Returned(None)
            case Escaped => DirectEntry(o, url) == Raised
  {}

  /** The scheme of bare endpoints: socks5 in a socks5 list, http in any other text; in a v2ray list and in
      decoded content they have none. */
  lemma BareScheme(o: Oracles, content: string, fileType: FileType)
    ensures var decoded := Base64Reading(o, content, fileType);
            && (decoded.Raised? ==> TextSubscription(o, content, fileType) == Raised)
            && (decoded.Returned? && decoded.value.Some? ==>
                  && fileType in {V2ray, Auto}
                  && TextSubscription(o, content, fileType) == UriList(o, decoded.value.value, Base64UriList, None))
            && (decoded == Returned(None) ==>
                  TextSubscription(o, content, fileType)
                  == match fileType
                     case V2ray => UriList(o, content, V2rayUriList, None)
                     case Socks5List => UriList(o, content, PlainText, Some("socks5"))
                     case _ => UriList(o, content, PlainText, Some("http")))
  {}

  /** What one node of a clash document is: three kinds are read as proxies, under the URL spelled out here, if
      server and a numeric port are given; eleven need an adapter; any other is unsupported, one without a kind
      invalid. */
  lemma NodeMeans(o: Oracles, node: Node)
    requires node.ClashNode?
    ensures var r := ParseClashNode(o, node); var kind := node.kind;
            && (kind in {"http", "socks4", "socks5"} ==>
                  && (r.Some? ==> node.server.Some? && node.port.Some? && node.port.value.Some?)
                  && (node.server.Some? && node.port.Some? && node.port.value.Some? ==>
                        var endpoint := node.server.value + ":" + IntText(node.port.value.value);
                        var user := if node.username.None? then ""
                                    else if node.password.None? then node.username.value + "@"
                                    else node.username.value + ":" + node.password.value + "@";
                        var parsed := o.parseUrl(kind + "://" + user + endpoint);
                        r == if parsed.Accepted? then Some(Entry(kind, Direct, Some(parsed.proxy))) else None))
            && (kind in {"vmess", "vless", "trojan", "ss", "ssr", "hysteria", "hysteria2", "hy2", "tuic",
                         "wireguard", "snell"} ==>
                  r == Some(Entry(if kind == "hy2" then "hysteria2" else kind, CoreAdapter, None)))
            && (kind == "" ==> r == None)
            && (kind !in {"", "http", "socks4", "socks5", "vmess", "vless", "trojan", "ss", "ssr", "hysteria",
                          "hysteria2", "hy2", "tuic", "wireguard", "snell"} ==>
                  r == Some(Entry(kind, Unsupported, None)))
  {
    if node.server.Some? && node.port.Some? && node.port.value.Some? {
      SameUrl(node);
    }
  }

  lemma SameUrl(node: Node)
    requires node.ClashNode? && node.server.Some? && node.port.Some? && node.port.value.Some?
    ensures var endpoint := node.server.value + ":" + IntText(node.port.value.value);
            var user := if node.username.None? then ""
                        else if node.password.None? then node.username.value + "@"
                        else node.username.value + ":" + node.password.value + "@";
            ClashUrl(node) == node.kind + "://" + user + endpoint
  {
    var endpoint := node.server.value + ":" + IntText(node.port.value.value);
    var front := node.kind + "://";
    if node.username.Some? {
      var u := node.username.value;
      if node.password.Some? {
        var w := node.password.value;
        assert u + (":" + w) + "@" == u + ":" + w + "@";
      } else {
        assert u + "" + "@" == u + "@";
      }
    }
    var user := if node.username.None? then ""
                else if node.password.None? then node.username.value + "@"
                else node.username.value + ":" + node.password.value + "@";
    assert front + user + node.server.value + ":" + IntText(node.port.value.value) == front + user + endpoint;
  }

  // ---------------------------------------------------------------- the loops

  /** Skipped lines count for nothing, every other line once; an escaping error ends the parse. */
  method ParseUriText(o: Oracles, content: string, format: Format, defaultScheme: Option<string>)
    returns (r: Outcome<Result>)
    ensures r == UriList(o, content, format, defaultScheme)
  {
    var lines := o.splitLines(content);
    var result := Result(format, [], 0, 0);
    for k := 0 to |lines|
      invariant result == TallyLines(o, Relevant(lines[..k]), format, defaultScheme)
      invariant forall line :: line in Relevant(lines[..k]) ==> !ParseLine(o, line, defaultScheme).Raised?
    {
      RelevantSnoc(lines, k);
      var line := Text.Strip(lines[k]);
      if !Skipped(line) {
        var parsed := ParseLine(o, line, defaultScheme);
        if parsed.Raised? {
          RelevantPrefix(lines, k + 1, line);
          return Raised;
        }
        result := Tally(result, parsed.value);
      }
    }
    assert lines[..|lines|] == lines;
    r := Returned(result);
  }

  lemma RelevantSnoc(lines: seq<string>, k: nat)
    requires k < |lines|
    ensures var line := Text.Strip(lines[k]); var before := Relevant(lines[..k]);
            if Skipped(line) then Relevant(lines[..k + 1]) == before
            else && Relevant(lines[..k + 1]) == before + [line]
                 && (before + [line])[..|before|] == before
  {
    assert lines[..k + 1][..k] == lines[..k];
  }

  lemma {:induction false} RelevantPrefix(lines: seq<string>, k: nat, line: string)
    requires k <= |lines| && line in Relevant(lines[..k])
    ensures line in Relevant(lines)
  {
    if k == |lines| {
      assert lines[..k] == lines;
    } else {
      assert lines[..|lines| - 1][..k] == lines[..k];
      RelevantPrefix(lines[..|lines| - 1], k, line);
    }
  }

  method TryParseClash(o: Oracles, content: string) returns (r: Outcome<Option<Result>>)
    ensures r == match o.yamlProxies(content)
                 case Raised => Raised
                 case Returned(None) => Returned(None)
                 case Returned(Some(nodes)) => Returned(Some(TallyNodes(o, Dicts(nodes))))
  {
    var read := o.yamlProxies(content);
    if read.Raised? {
      return Raised;
    }
    if read.value.None? {
      return Returned(None);
    }
    var nodes := read.value.value;
    var result := Result(ClashYaml, [], 0, 0);
    for k := 0 to |nodes|
      invariant result == TallyNodes(o, Dicts(nodes[..k]))
    {
      assert nodes[..k + 1][..k] == nodes[..k];
      ghost var before := Dicts(nodes[..k]);
      if nodes[k].ClashNode? {
        assert (before + [nodes[k]])[..|before|] == before;
        result := Tally(result, ParseClashNode(o, nodes[k]));
      } else {
        assert Dicts(nodes[..k + 1]) == before + [] == before;
      }
    }
    assert nodes[..|nodes|] == nodes;
    r := Returned(Some(result));
  }

  lemma UrisInSnoc(o: Oracles, lines: seq<string>, line: string)
    ensures UrisIn(o, lines + [line])
            == if UrisIn(o, lines) != Returned(false) then UrisIn(o, lines)
               else if o.schemeOf(line).None? then Raised else Returned(KnownScheme(o, line))
  {
    assert (lines + [line])[..|lines|] == lines;
  }

  lemma {:induction false} DecidedStays(o: Oracles, lines: seq<string>, k: nat)
    requires k <= |lines| && UrisIn(o, Relevant(lines[..k])) != Returned(false)
    ensures UrisIn(o, Relevant(lines)) == UrisIn(o, Relevant(lines[..k]))
    decreases |lines| - k
  {
    if k == |lines| {
      assert lines[..k] == lines;
    } else {
      RelevantSnoc(lines, k);
      UrisInSnoc(o, Relevant(lines[..k]), Text.Strip(lines[k]));
      DecidedStays(o, lines, k + 1);
    }
  }

  /** The test runs over the lines until one decides. */
  method LooksLikeUris(o: Oracles, content: string) returns (r: Outcome<bool>)
    ensures r == UriText(o, content)
  {
    var lines := o.splitLines(content);
    for k := 0 to |lines|
      invariant UrisIn(o, Relevant(lines[..k])) == Returned(false)
    {
      RelevantSnoc(lines, k);
      var line := Text.Strip(lines[k]);
      if !Skipped(line) {
        UrisInSnoc(o, Relevant(lines[..k]), line);
        var scheme := o.schemeOf(line);
        if scheme.None? {
          DecidedStays(o, lines, k + 1);
          return Raised;
        }
        if scheme.value in DIRECT_SCHEMES + ADAPTER_SCHEMES {
          DecidedStays(o, lines, k + 1);
          return Returned(true);
        }
      }
    }
    assert lines[..|lines|] == lines;
    r := Returned(false);
  }

  lemma {:induction false} SettledStays(rs: seq<Outcome<Option<string>>>, k: nat)
    requires k < |rs| && FirstSettled(rs[..k]) == Returned(None)
    ensures FirstSettled(rs[..k + 1]) == rs[k]
    ensures rs[k] != Returned(None) ==> FirstSettled(rs) == rs[k]
  {
    assert rs[..k + 1][..k] == rs[..k];
    FirstReadingDecides(rs[..k]);
    FirstReadingDecides(rs);
    if rs[k] != Returned(None) {
      assert forall j :: 0 <= j < k ==> rs[..k][j] == rs[j];
      assert SettlesAt(rs, k);
    }
  }

  method MaybeDecode(o: Oracles, content: string) returns (r: Outcome<Option<string>>)
    ensures r == FirstReading(o, o.decodings(content))
  {
    var texts := o.decodings(content);
    ghost var rs := Readings(o, texts);
    for k := 0 to |texts|
      invariant FirstSettled(rs[..k]) == Returned(None)
    {
      SettledStays(rs, k);
      var looks := LooksLikeUris(o, texts[k]);
      if looks.Raised? {
        return Raised;
      }
      if looks.value || Text.Contains(texts[k], "proxies:") {
        return Returned(Some(texts[k]));
      }
    }
    assert rs[..|texts|] == rs;
    r := Returned(None);
  }

  method ParseAuto(o: Oracles, content: string) returns (r: Outcome<Result>)
    ensures r == Subscription(o, content, Auto)
  {
    var clash := TryParseClash(o, content);
    if clash.Raised? {
      return Raised;
    }
    if clash.value.Some? {
      return Returned(clash.value.value);
    }
    var decoded := MaybeDecode(o, content);
    if decoded.Raised? {
      return Raised;
    }
    if decoded.value.Some? {
      var looks := LooksLikeUris(o, decoded.value.value);
      if looks.Raised? {
        return Raised;
      }
      if looks.value {
        r := ParseUriText(o, decoded.value.value, Base64UriList, None);
        return;
      }
    }
    r := ParseUriText(o, content, PlainText, Some("http"));
  }

  method ParseSubscriptionContent(o: Oracles, content: string, fileType: FileType) returns (r: Outcome<Result>)
    ensures r == Subscription(o, content, fileType)
  {
    if fileType == Clash {
      var clash := TryParseClash(o, content);
      if clash.Raised? {
        return Raised;
      }
      if clash.value.Some? {
        return Returned(clash.value.value);
      }
      r := ParseUriText(o, content, PlainText, Some("http"));
      return;
    }
    if fileType == V2ray {
      var decoded := MaybeDecode(o, content);
      if decoded.Raised? {
        return Raised;
      }
      if decoded.value.Some? && decoded.value.value != "" {
        r := ParseUriText(o, decoded.value.value, Base64UriList, None);
      } else {
        r := ParseUriText(o, content, V2rayUriList, None);
      }
      return;
    }
    if fileType == Auto {
      r := ParseAuto(o, content);
      return;
    }
    var defaultScheme := if fileType == Socks5List then "socks5" else "http";
    r := ParseUriText(o, content, PlainText, Some(defaultScheme));
  }

  // ---------------------------------------------------------------- plain extraction

  datatype Extraction = Extraction(proxies: seq<Proxy>, fetched: nat, invalid: nat)

  /** What becomes of a line when only records are wanted: nothing for a line without a candidate. */
  function CandidateOf(o: Oracles, line: string, scheme: string): Option<Attempt> {
    var candidate := ExtractCandidate(o, line, Some(scheme));
    if candidate.None? then None else Some(o.parseUrl(candidate.value))
  }

  predicate EscapesOn(o: Oracles, line: string, scheme: string) { CandidateOf(o, line, scheme) == Some(Escaped) }

  /** One more line: a record, a rejected candidate, or no candidate at all. */
  function Take(r: Extraction, attempt: Option<Attempt>): Extraction {
    match attempt
    case None => r.(invalid := r.invalid + 1)
    case Some(Accepted(p)) => r.(proxies := r.proxies + [p], fetched := r.fetched + 1)
    case Some(_) => r.(fetched := r.fetched + 1, invalid := r.invalid + 1)
  }

  function Extracted(o: Oracles, lines: seq<string>, scheme: string): Extraction {
    if lines == [] then Extraction([], 0, 0)
    else Take(Extracted(o, lines[..|lines| - 1], scheme), CandidateOf(o, lines[|lines| - 1], scheme))
  }

  /** Every line is a record or invalid, and what is fetched is the records and the rejected candidates. */
  lemma {:induction false} ExtractionAccounted(o: Oracles, lines: seq<string>, scheme: string)
    ensures var r := Extracted(o, lines, scheme);
            && |r.proxies| + r.invalid == |lines|
            && |r.proxies| <= r.fetched <= |lines|
            && (forall p :: p in r.proxies <==>
                  exists line :: line in lines && CandidateOf(o, line, scheme) == Some(Accepted(p)))
  {
    if lines != [] {
      var init, last := lines[..|lines| - 1], lines[|lines| - 1];
      ExtractionAccounted(o, init, scheme);
      assert lines == init + [last];
    }
  }

  lemma ExtractedSnoc(o: Oracles, lines: seq<string>, line: string, scheme: string)
    ensures Extracted(o, lines + [line], scheme) == Take(Extracted(o, lines, scheme), CandidateOf(o, line, scheme))
  {
    assert (lines + [line])[..|lines|] == lines;
  }

  ghost predicate SomeEscapes(o: Oracles, lines: seq<string>, scheme: string) {
    exists line :: line in lines && EscapesOn(o, line, scheme)
  }

  lemma EscapesSnoc(o: Oracles, lines: seq<string>, line: string, scheme: string)
    ensures SomeEscapes(o, lines + [line], scheme) <==> SomeEscapes(o, lines, scheme) || EscapesOn(o, line, scheme)
  {
    assert line in lines + [line];
  }

  lemma EscapesStay(o: Oracles, lines: seq<string>, k: nat, scheme: string)
    requires k < |lines| && !Skipped(Text.Strip(lines[k])) && EscapesOn(o, Text.Strip(lines[k]), scheme)
    ensures SomeEscapes(o, Relevant(lines), scheme)
  {
    RelevantSnoc(lines, k);
    RelevantPrefix(lines, k + 1, Text.Strip(lines[k]));
  }

  /** extract_proxies_from_text: the records of the relevant lines in their order; an escaping error ends it. */
  method ExtractProxies(o: Oracles, content: string, fileType: FileType) returns (r: Outcome<Extraction>)
    ensures var lines := Relevant(o.splitLines(content));
            var scheme := if fileType == Socks5List then "socks5" else "http";
            && (r.Raised? <==> SomeEscapes(o, lines, scheme))
            && (r.Returned? ==> r.value == Extracted(o, lines, scheme))
  {
    var lines := o.splitLines(content);
    var scheme := if fileType == Socks5List then "socks5" else "http";
    var result := Extraction([], 0, 0);
    for k := 0 to |lines|
      invariant result == Extracted(o, Relevant(lines[..k]), scheme)
      invariant !SomeEscapes(o, Relevant(lines[..k]), scheme)
    {
      RelevantSnoc(lines, k);
      var line := Text.Strip(lines[k]);
      if !Skipped(line) {
        ExtractedSnoc(o, Relevant(lines[..k]), line, scheme);
        EscapesSnoc(o, Relevant(lines[..k]), line, scheme);
        var attempt := CandidateOf(o, line, scheme);
        if attempt == Some(Escaped) {
          EscapesStay(o, lines, k, scheme);
          return Raised;
        }
        result := Take(result, attempt);
      }
    }
    assert lines[..|lines|] == lines;
    r := Returned(result);
  }
}

/** Importing a subscription into the raw pool. */
module UrlImport {
  import opened Domain
  import opened Tables
  import opened Storage
  import opened Services
  import opened Geo
  import opened Subscriptions
  import ProxyUrls
  import Text

  datatype Response = Response(
    format: Format,
    fetchedCount: nat,
    validCount: nat,
    storedCount: nat,
    duplicateCount: nat,
    invalidCount: nat,
    directCount: nat,
    adapterCount: nat,
    unsupportedCount: nat)

  class UrlImportService {
    const store: Store
    const resolver: GeoResolver?

    constructor (store: Store, resolver: GeoResolver?)
      ensures this.store == store && this.resolver == resolver
    {
      this.store, this.resolver := store, resolver;
    }

    function GeoFile(): Option<seq<GeoRecord>> { if resolver == null then None else Some(resolver.file) }

    /** Stores the first record of every endpoint in raw. Everything fetched is stored, a duplicate, left to
        an adapter, unsupported or invalid, and the subtraction behind the duplicates never has to be clamped. */
    method ImportFromUrl(o: Oracles, content: string, fileType: FileType, ips: string -> Option<Ip>)
      returns (response: Option<Response>)
      requires store.Valid()
      requires resolver != null ==> resolver.Valid()
      modifies store`rows
      ensures store.Valid()
      ensures response.None? <==> Subscription(o, content, fileType).Raised?
      ensures response.None? ==> store.rows == old(store.rows)
      ensures response.Some? ==>
                var parsed := Subscription(o, content, fileType).value;
                var unique := FirstOccurrences(ProxiesOf(parsed.entries));
                var r := response.value;
                && store.rows == WriteAll(old(store.rows), RawWrites(EnrichAll(GeoFile(), unique, ips)))
                && r.format == parsed.format && r.storedCount == |unique|
                && r.storedCount + r.duplicateCount == r.directCount == Count(parsed.entries, Direct)
                && r.validCount == r.directCount + r.adapterCount
                && r.adapterCount == Count(parsed.entries, CoreAdapter)
                && r.unsupportedCount == Count(parsed.entries, Unsupported)
                && r.fetchedCount == parsed.fetched && r.invalidCount == parsed.invalid
                && r.fetchedCount
                   == r.storedCount + r.duplicateCount + r.adapterCount + r.unsupportedCount + r.invalidCount
    {
      var parsed := ParseSubscriptionContent(o, content, fileType);
      if parsed.Raised? {
        return None;
      }
      SubscriptionAccounted(o, content, fileType);
      var result := parsed.value;
      var kept := Deduplicate(ProxiesOf(result.entries));
      ghost var _ := KeepsFirstOccurrences(ProxiesOf(result.entries));
      StoreRaw(kept, ips);
      response := Some(Respond(result, |kept|));
    }

    function Respond(result: Result, stored: nat): Response {
      var direct, adapter := Count(result.entries, Direct), Count(result.entries, CoreAdapter);
      Response(result.format, result.fetched, direct + adapter, stored, Max(direct - stored, 0),
               result.invalid, direct, adapter, Count(result.entries, Unsupported))
    }

    method StoreRaw(kept: seq<Proxy>, ips: string -> Option<Ip>)
      requires store.Valid()
      requires resolver != null ==> resolver.Valid()
      modifies store`rows
      ensures store.Valid()
      ensures store.rows == WriteAll(old(store.rows), RawWrites(EnrichAll(GeoFile(), kept, ips)))
    {
      ghost var writes := RawWrites(EnrichAll(GeoFile(), kept, ips));
      for k := 0 to |kept|
        invariant store.Valid()
        invariant store.rows == WriteAll(old(store.rows), writes[..k])
      {
        var p := kept[k];
        if resolver != null {
          p := resolver.Enrich(p, ips(p.host));
        }
        assert writes[k] == Write(Raw, p);
        var _ := store.AddProxy(Raw, p);
        assert writes[..k + 1] == writes[..k] + [writes[k]];
        WriteAllSnoc(old(store.rows), writes[..k], writes[k]);
      }
      assert writes[..|kept|] == writes;
    }
  }

  predicate SameEndpoint(p: Proxy, q: Proxy) {
    p.scheme == q.scheme && Text.Lower(p.host) == Text.Lower(q.host) && p.port == q.port
  }

  /** For parsed records de-duplication by id is de-duplication by endpoint: what is kept is the first record
      of each scheme, host and port. */
  lemma FirstOfEachEndpoint(ps: seq<Proxy>, i: int)
    requires forall k :: 0 <= k < |ps| ==>
               ps[k].port >= 0 && ps[k].id == ProxyUrls.BuildProxyId(SchemeText(ps[k].scheme), ps[k].host, ps[k].port)
    ensures OccursFirstAt(ps, i) <==> 0 <= i < |ps| && forall j :: 0 <= j < i ==> !SameEndpoint(ps[j], ps[i])
  {
    if 0 <= i < |ps| {
      forall j | 0 <= j < i ensures ps[j].id == ps[i].id <==> SameEndpoint(ps[j], ps[i]) {
        ProxyUrls.IdIsInjective(ps[j].scheme, ps[j].host, ps[j].port, ps[i].scheme, ps[i].host, ps[i].port);
      }
    }
  }
}
