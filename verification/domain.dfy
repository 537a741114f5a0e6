/** The values the services pass around: proxy records, validation results, reports and filters. */
module Domain {

  datatype Option<+T> = None | Some(value: T)

  datatype Scheme = Http | Https | Socks4 | Socks5

  datatype Anonymity = Unknown | Transparent | Anonymous | EliteAnonymity

  /** A pool names a section of the table; the status field of a record takes the same values. */
  datatype Pool = Raw | Checked | Elite | Dead | Cooldown

  /** A proxy record. Times are integers on one clock. */
  datatype Proxy = Proxy(
    id: string,
    scheme: Scheme,
    host: string,
    port: int,
    username: Option<string>,
    password: Option<string>,
    source: string,
    country: Option<string>,
    asn: Option<string>,
    anonymity: Anonymity,
    latencyMs: Option<nat>,
    successCount: nat,
    failCount: nat,
    consecutiveFailCount: nat,
    score: int,
    lastCheckedAt: Option<int>,
    lastSuccessAt: Option<int>,
    lastError: Option<string>,
    cooldownUntil: Option<int>,
    status: Pool)

  /** A record as the parsers build it: no history, no score, no cooldown. */
  predicate Fresh(p: Proxy) {
    && p.score == 0
    && p.successCount == 0
    && p.failCount == 0
    && p.consecutiveFailCount == 0
    && p.cooldownUntil.None?
  }

  datatype ValidationResult = ValidationResult(
    ok: bool,
    latencyMs: Option<nat>,
    statusCode: Option<nat>,
    error: Option<string>,
    anonymity: Option<Anonymity>)

  datatype Report = Report(ok: bool, latencyMs: Option<nat>, error: Option<string>)

  datatype Filters = Filters(
    scheme: Option<Scheme>,
    anonymity: Option<Anonymity>,
    country: Option<string>,
    source: Option<string>,
    query: Option<string>,
    minScore: Option<int>)

  function SchemeText(s: Scheme): string {
    match s
    case Http => "http"
    case Https => "https"
    case Socks4 => "socks4"
    case Socks5 => "socks5"
  }

  function Max(a: int, b: int): int { if a < b then b else a }

  function Min(a: int, b: int): int { if a < b then a else b }
}
