/**
 * Signed result links: SignResult, the grant codec, ResultAuthMiddleware and the cookie
 * it sets, and a browser that visits reports over time. HMAC-SHA256 (RFC 2104) is left
 * uninterpreted. Times are nanoseconds since 1970.
 */
module ResultAuth {
  import opened Wrappers
  import opened Text
  import opened Decimal
  import Base64Url

  /** The MAC of a message under a secret: 32 bytes. */
  type Mac = (string, string) -> Bytes

  ghost predicate IsMac(mac: Mac) {
    forall secret, message :: |mac(secret, message)| == 32
  }

  /** No two messages share a MAC under this secret. */
  ghost predicate CollisionFree(mac: Mac, secret: string) {
    forall m, n | mac(secret, m) == mac(secret, n) :: m == n
  }

  function Message(id: string, expires: int): string {
    id + ['\n'] + FormatInt(expires)
  }

  function SignResult(mac: Mac, secret: string, id: string, expires: int): string {
    Base64Url.Encode(mac(secret, Message(id, expires)))
  }

  datatype Grant = Grant(sig: string, expires: int)

  function Encode(g: Grant): string {
    FormatInt(g.expires) + ['.'] + g.sig
  }

  function ParseGrant(s: string): Option<Grant> {
    if '.' !in s then None
    else
      var i := IndexOf(s, '.');
      var sig := s[i + 1..];
      if sig == "" then None
      else match ParseInt(s[..i])
        case None => None
        case Some(expires) => if expires < 0 then None else Some(Grant(sig, expires))
  }

  const NANO: int := 1_000_000_000

  /** Seconds from the year 1 to 1970, the origin of Go's internal clock. */
  const ORIGIN: int := 62135596800

  function Wrap64(x: int): int {
    (x + 0x8000_0000_0000_0000) % 0x1_0000_0000_0000_0000 - 0x8000_0000_0000_0000
  }

  /** time.Unix(expires, 0), with the internal second counter wrapping at 64 bits. */
  function Instant(expires: int): int {
    (Wrap64(expires + ORIGIN) - ORIGIN) * NANO
  }

  predicate ValidGrant(mac: Mac, g: Grant, secret: string, id: string, now: int) {
    && g.sig != ""
    && (g.expires != 0 ==> now < Instant(g.expires))
    && SignResult(mac, secret, id, g.expires) == g.sig
  }

  /** The grant in a request's query, if it is well formed. */
  function GrantFromQuery(sig: string, exp: string): Option<Grant> {
    if sig == "" then None
    else if exp == "" then Some(Grant(sig, 0))
    else match ParseInt(exp)
      case None => None
      case Some(expires) => Some(Grant(sig, expires))
  }

  // ----- the cookie's lifetime -----

  const DEFAULT_TTL: int := 3600 * NANO

  /** The lifetime before the link's own expiry is considered; setting is RESULT_AUTH_TTL if it parses. */
  function BaseTTL(setting: Option<int>): int {
    if setting.Some? && setting.value > 0 then setting.value else DEFAULT_TTL
  }

  /** time.Time.Sub saturates at the range of a Duration. */
  function Sub(t: int, u: int): int {
    if t - u > MAX64 then MAX64 else if t - u < MIN64 then MIN64 else t - u
  }

  method CookieTTL(g: Grant, now: int, setting: Option<int>) returns (ttl: int)
    ensures ttl >= 0
    ensures g.expires == 0 ==> ttl == BaseTTL(setting)
    ensures g.expires != 0 && Sub(Instant(g.expires), now) <= 0 ==> ttl == 0
    ensures g.expires != 0 && Sub(Instant(g.expires), now) > 0 ==>
      ttl <= BaseTTL(setting) && ttl <= Sub(Instant(g.expires), now)
      && (ttl == BaseTTL(setting) || ttl == Sub(Instant(g.expires), now))
    ensures ttl == TTL(g, now, setting)
  {
    ttl := DEFAULT_TTL;
    if setting.Some? {
      if setting.value > 0 { ttl := setting.value; }
    }
    if g.expires != 0 {
      var remaining := Sub(Instant(g.expires), now);
      if remaining < ttl { ttl := remaining; }
    }
    if ttl <= 0 { ttl := 0; }
  }

  function TTL(g: Grant, now: int, setting: Option<int>): int {
    var left := if g.expires == 0 then BaseTTL(setting) else Sub(Instant(g.expires), now);
    if left <= 0 then 0 else if left < BaseTTL(setting) then left else BaseTTL(setting)
  }

  /** The whole seconds sent as Max-Age; 0 is sent as no Max-Age at all. */
  function MaxAge(ttl: int): int {
    ttl / NANO
  }

  /**
   * For an accepted grant the cookie is always set, lives no longer than the configured
   * lifetime, and never outlives the link.
   */
  lemma CookieLifetime(mac: Mac, g: Grant, secret: string, id: string, now: int, setting: Option<int>)
    requires ValidGrant(mac, g, secret, id, now)
    ensures var ttl := TTL(g, now, setting);
      && 0 < ttl <= BaseTTL(setting)
      && (g.expires != 0 ==> now + ttl <= Instant(g.expires))
      && MaxAge(ttl) * NANO <= ttl < (MaxAge(ttl) + 1) * NANO
      && (MaxAge(ttl) == 0 <==> ttl < NANO)
  {
  }

  // ----- messages and signatures -----

  lemma LastIndexUnique(s: string, c: char, i: nat, j: nat)
    requires i < |s| && j < |s| && s[i] == c && s[j] == c
    requires c !in s[i + 1..] && c !in s[j + 1..]
    ensures i == j
  {
    assert forall k | i < k < |s| :: s[k] in s[i + 1..] by {
      assert forall k | i < k < |s| :: s[i + 1..][k - i - 1] == s[k];
    }
    assert forall k | j < k < |s| :: s[k] in s[j + 1..] by {
      assert forall k | j < k < |s| :: s[j + 1..][k - j - 1] == s[k];
    }
  }

  lemma SeparatorAt(x: string, y: string, c: char)
    ensures var s := x + [c] + y; s[|x|] == c && s[..|x|] == x && s[|x| + 1..] == y
  {
  }

  lemma LastSeparator(x: string, y: string, u: string, v: string, c: char)
    requires x + [c] + y == u + [c] + v && c !in y && c !in v
    ensures x == u && y == v
  {
    SeparatorAt(x, y, c);
    SeparatorAt(u, v, c);
    LastIndexUnique(x + [c] + y, c, |x|, |u|);
  }

  /** No two (id, expiry) pairs are signed as the same message, even for ids with line breaks. */
  lemma MessageInjective(a: string, e: int, b: string, f: int)
    requires MIN64 <= e <= MAX64 && MIN64 <= f <= MAX64
    requires Message(a, e) == Message(b, f)
    ensures a == b && e == f
  {
    FormatChars(e);
    FormatChars(f);
    LastSeparator(a, FormatInt(e), b, FormatInt(f), '\n');
    ParseFormat(e);
    ParseFormat(f);
  }

  /** A signature is 43 URL-safe characters. */
  lemma SignatureShape(mac: Mac, secret: string, id: string, expires: int)
    requires IsMac(mac)
    ensures var s := SignResult(mac, secret, id, expires);
      |s| == 43 && forall c | c in s :: Base64Url.InAlphabet(c) && c !in {'.', '+', '/', '=', '%', '&'}
  {
    Base64Url.EncodedLength(mac(secret, Message(id, expires)));
    Base64Url.DecodeEncode(mac(secret, Message(id, expires)));
  }

  /** A signature opens one id, with one expiry; and each of those has one signature. */
  lemma SignatureBinds(mac: Mac, secret: string, a: string, g: Grant, b: string, h: Grant, now: int, later: int)
    requires CollisionFree(mac, secret)
    requires MIN64 <= g.expires <= MAX64 && MIN64 <= h.expires <= MAX64
    requires ValidGrant(mac, g, secret, a, now) && ValidGrant(mac, h, secret, b, later)
    ensures g.sig == h.sig <==> a == b && g.expires == h.expires
  {
    if g.sig == h.sig {
      Base64Url.EncodeInjective(mac(secret, Message(a, g.expires)), mac(secret, Message(b, h.expires)));
      MessageInjective(a, g.expires, b, h.expires);
    }
  }

  // ----- the grant codec -----

  lemma GrantRoundTrip(g: Grant)
    requires g.sig != "" && 0 <= g.expires <= MAX64
    ensures ParseGrant(Encode(g)) == Some(g)
  {
    FormatChars(g.expires);
    var head := FormatInt(g.expires);
    assert Encode(g)[|head|] == '.' && Encode(g)[..|head|] == head && Encode(g)[|head| + 1..] == g.sig;
    IndexOfUnique(Encode(g), '.', |head|);
    ParseFormat(g.expires);
  }

  lemma ParsedRange(s: string)
    requires ParseInt(s).Some?
    ensures MIN64 <= ParseInt(s).value <= MAX64
  {
  }

  lemma PastInstant(expires: int)
    requires MIN64 <= expires < 0
    ensures Instant(expires) < 0
  {
  }

  /** Every grant accepted from a query survives the cookie: it parses back to itself. */
  lemma AcceptedRoundTrip(mac: Mac, sig: string, exp: string, secret: string, id: string, now: int)
    requires now >= 0
    requires GrantFromQuery(sig, exp).Some? && ValidGrant(mac, GrantFromQuery(sig, exp).value, secret, id, now)
    ensures var g := GrantFromQuery(sig, exp).value;
      0 <= g.expires <= MAX64 && ParseGrant(Encode(g)) == Some(g)
  {
    var g := GrantFromQuery(sig, exp).value;
    if exp != "" { ParsedRange(exp); }
    if g.expires < 0 { PastInstant(g.expires); }
    GrantRoundTrip(g);
  }

  // ----- the cookie on its way through net/http -----

  /** The bytes http.SetCookie keeps in a value and sends without quotes. */
  predicate CookieSafe(c: char) {
    ' ' < c <= '~' && c != '"' && c != ';' && c != '\\' && c != ','
  }

  /** http.SetCookie drops what is not allowed in a cookie value. */
  function Sanitized(s: string): string {
    if s == "" then ""
    else (if CookieSafe(s[0]) then [s[0]] else []) + Sanitized(s[1..])
  }

  lemma {:induction false} SafeKept(s: string)
    requires forall c | c in s :: CookieSafe(c)
    ensures Sanitized(s) == s
  {
    if s != "" {
      SafeKept(s[1..]);
      assert s == [s[0]] + s[1..];
    }
  }

  lemma AcceptedIsSafe(mac: Mac, g: Grant, secret: string, id: string, now: int)
    requires ValidGrant(mac, g, secret, id, now)
    ensures Sanitized(Encode(g)) == Encode(g)
  {
    Base64Url.DecodeEncode(mac(secret, Message(id, g.expires)));
    FormatChars(g.expires);
    SafeKept(Encode(g));
  }

  // ----- the middleware -----

  /** A request to a report endpoint: path id, bearer token, query parameters and cookie. */
  datatype Request = Request(id: string, bearer: string, sig: string, exp: string, cookie: Option<string>)

  datatype Cookie = Cookie(value: string, maxAge: int)

  datatype Config = Config(mac: Mac, secret: string, token: string, ttl: Option<int>)

  predicate ValidIn(c: Config, g: Option<Grant>, id: string, now: int) {
    g.Some? && ValidGrant(c.mac, g.value, c.secret, id, now)
  }

  function CookieGrant(cookie: Option<string>): Option<Grant> {
    if cookie.Some? then ParseGrant(cookie.value) else None
  }

  predicate SignedFor(c: Config, id: string, e: int, sig: string) {
    sig == Base64Url.Encode(c.mac(c.secret, id + ['\n'] + FormatInt(e))) && sig != ""
  }

  /**
   * The request carries a link for its id that expires at the second e (0: never), signed by
   * whoever holds the secret: the MAC of the id, a line break and the expiry, in base64url.
   */
  predicate Minted(c: Config, r: Request, e: int) {
    && SignedFor(c, r.id, e, r.sig)
    && (r.exp == FormatInt(e) || (e == 0 && r.exp == ""))
    && MIN64 <= e <= MAX64 && MIN64 <= e + ORIGIN <= MAX64
  }

  /** A link is good until its second begins. */
  predicate Unexpired(e: int, now: int) {
    e == 0 || now < e * 1_000_000_000
  }

  /** The whole seconds for which the browser is to keep the cookie of such a link. */
  function KeptSeconds(e: int, now: int, setting: Option<int>): int {
    var ttl := if setting.Some? && setting.value > 0 then setting.value else 3600 * 1_000_000_000;
    var left := e * 1_000_000_000 - now;
    (if e == 0 || ttl < left then ttl else left) / 1_000_000_000
  }

  lemma MintedQuery(c: Config, r: Request, e: int)
    requires Minted(c, r, e)
    ensures GrantFromQuery(r.sig, r.exp) == Some(Grant(r.sig, e))
  {
    ParseFormat(e);
    FormatNatDigits(if e < 0 then -e else e);
  }

  lemma PlainInstant(e: int)
    requires MIN64 <= e + ORIGIN <= MAX64
    ensures Instant(e) == e * 1_000_000_000
  {
    var x := e + ORIGIN + 0x8000_0000_0000_0000;
    assert 0 <= x < 0x1_0000_0000_0000_0000;
    assert x % 0x1_0000_0000_0000_0000 == x;
  }

  lemma MintedValid(c: Config, r: Request, e: int, now: int)
    requires Minted(c, r, e)
    ensures ValidIn(c, GrantFromQuery(r.sig, r.exp), r.id, now) <==> Unexpired(e, now)
  {
    MintedQuery(c, r, e);
    PlainInstant(e);
  }

  lemma MintedCookie(c: Config, r: Request, e: int, now: int)
    requires Minted(c, r, e) && Unexpired(e, now) && (c.ttl.Some? ==> c.ttl.value <= MAX64)
    ensures SetFor(c, r, now) == [Cookie(FormatInt(e) + ['.'] + r.sig, KeptSeconds(e, now, c.ttl))]
  {
    MintedQuery(c, r, e);
    MintedValid(c, r, e, now);
    PlainInstant(e);
  }

  /** An expiry in the query that is not a number. */
  lemma BadExpiry(c: Config, r: Request, now: int)
    requires r.exp != "" && ParseInt(r.exp) == None
    ensures !ValidIn(c, GrantFromQuery(r.sig, r.exp), r.id, now) && SetFor(c, r, now) == []
  {
  }

  lemma NoSignature(c: Config, r: Request, now: int)
    requires r.sig == ""
    ensures !ValidIn(c, GrantFromQuery(r.sig, r.exp), r.id, now) && SetFor(c, r, now) == []
  {
  }

  /** What a cookie's value says, told by its two sides of the first ".". */
  lemma CookieRead(head: string, sig: string)
    requires '.' !in head
    ensures ParseGrant(head) == None
    ensures ParseGrant(head + ['.'] + sig) ==
      if sig != "" && ParseInt(head).Some? && ParseInt(head).value >= 0 then Some(Grant(sig, ParseInt(head).value))
      else None
  {
    var s := head + ['.'] + sig;
    assert s[|head|] == '.' && s[..|head|] == head && s[|head| + 1..] == sig;
    IndexOfUnique(s, '.', |head|);
  }

  class ResponseWriter {
    var served: bool
    var unauthorized: bool
    var cookies: seq<Cookie>

    constructor ()
      ensures !served && !unauthorized && cookies == []
    {
      served, unauthorized, cookies := false, false, [];
    }

    method SetResultAuthCookie(c: Config, g: Grant, now: int)
      modifies this`cookies
      ensures var ttl := TTL(g, now, c.ttl);
        cookies == old(cookies) + if ttl <= 0 then [] else [Cookie(Sanitized(Encode(g)), MaxAge(ttl))]
    {
      var ttl := CookieTTL(g, now, c.ttl);
      if ttl <= 0 { return; }
      cookies := cookies + [Cookie(Sanitized(Encode(g)), MaxAge(ttl))];
    }

    method ResultAuthMiddleware(c: Config, r: Request, now: int)
      requires !served && !unauthorized && cookies == []
      modifies this
      ensures served == !unauthorized
      ensures c.secret == "" ==> served && cookies == []
      ensures c.secret != "" && (r.id == "" || (c.token != "" && r.bearer == c.token)) ==>
        served == (r.id != "") && cookies == []
      ensures c.secret != "" && r.id != "" && !(c.token != "" && r.bearer == c.token) ==>
        Answered(c, r, now, served, cookies) && AnsweredPlainly(c, r, now, served, cookies)
    {
      if c.secret == "" {
        served := true;
        return;
      }
      if r.id == "" {
        unauthorized := true;
        return;
      }
      if c.token != "" && r.bearer == c.token {
        served := true;
        return;
      }
      CheckGrants(c, r, now);
      PlainAnswer(c, r, now, served, cookies);
    }

    /** The signed part: a grant in the query, else one in the cookie. */
    method CheckGrants(c: Config, r: Request, now: int)
      requires !served && !unauthorized && cookies == []
      modifies this
      ensures served == !unauthorized
      ensures Answered(c, r, now, served, cookies)
    {
      var grant := GrantFromQuery(r.sig, r.exp);
      if grant.Some? && ValidGrant(c.mac, grant.value, c.secret, r.id, now) {
        CookieLifetime(c.mac, grant.value, c.secret, r.id, now, c.ttl);
        AcceptedIsSafe(c.mac, grant.value, c.secret, r.id, now);
        SetResultAuthCookie(c, grant.value, now);
        served := true;
        return;
      }
      if r.cookie.Some? {
        var held := ParseGrant(r.cookie.value);
        if held.Some? && ValidGrant(c.mac, held.value, c.secret, r.id, now) {
          served := true;
          return;
        }
      }
      unauthorized := true;
    }
  }

  /** The answer to a request without bearer token, by its grants. */
  predicate Answered(c: Config, r: Request, now: int, served: bool, cookies: seq<Cookie>) {
    && served == (ValidIn(c, GrantFromQuery(r.sig, r.exp), r.id, now) || ValidIn(c, CookieGrant(r.cookie), r.id, now))
    && cookies == SetFor(c, r, now)
  }

  /**
   * The same in plain terms. A request with a minted link is served until the link expires, with
   * one cookie that holds the link's expiry and signature; without a cookie of its own it is
   * served only then. A request without signature, or with an expiry that is no number, is not;
   * nor is one whose signature is of no expiry of its id. And a request that brings such a
   * cookie, and no signature, is served until the link expires.
   */
  ghost predicate AnsweredPlainly(c: Config, r: Request, now: int, served: bool, cookies: seq<Cookie>) {
    && (forall e | Minted(c, r, e) && Unexpired(e, now) ::
         && served
         && ((c.ttl.Some? ==> c.ttl.value <= MAX64) ==>
              cookies == [Cookie(FormatInt(e) + ['.'] + r.sig, KeptSeconds(e, now, c.ttl))]))
    && (forall e | Minted(c, r, e) && !Unexpired(e, now) :: cookies == [] && (r.cookie.None? ==> !served))
    && (r.sig == "" || (r.exp != "" && ParseInt(r.exp) == None) ==> cookies == [] && (r.cookie.None? ==> !served))
    && (served && r.cookie.None? ==> exists e :: SignedFor(c, r.id, e, r.sig))
    && (forall e, sig | r.sig == "" && Brings(c, r, e, sig) :: served <==> Unexpired(e, now))
  }

  /** The request's cookie is that of a link for its id. */
  predicate Brings(c: Config, r: Request, e: int, sig: string) {
    SignedFor(c, r.id, e, sig) && r.cookie == Some(FormatInt(e) + ['.'] + sig) && 0 <= e <= MAX64 - ORIGIN
  }

  lemma BroughtCookie(c: Config, r: Request, now: int, e: int, sig: string)
    requires r.sig == "" && Brings(c, r, e, sig)
    ensures ValidIn(c, CookieGrant(r.cookie), r.id, now) <==> Unexpired(e, now)
  {
    FormatChars(e);
    ParseFormat(e);
    CookieRead(FormatInt(e), sig);
    PlainInstant(e);
  }

  lemma PlainAnswer(c: Config, r: Request, now: int, served: bool, cookies: seq<Cookie>)
    requires Answered(c, r, now, served, cookies)
    ensures AnsweredPlainly(c, r, now, served, cookies)
  {
    forall e | Minted(c, r, e) && Unexpired(e, now) && (c.ttl.Some? ==> c.ttl.value <= MAX64)
      ensures cookies == [Cookie(FormatInt(e) + ['.'] + r.sig, KeptSeconds(e, now, c.ttl))]
    {
      MintedCookie(c, r, e, now);
    }
    forall e | Minted(c, r, e)
      ensures Unexpired(e, now) ==> served
      ensures !Unexpired(e, now) ==> cookies == [] && (r.cookie.None? ==> !served)
    {
      MintedValid(c, r, e, now);
    }
    if served && r.cookie.None? {
      var g := GrantFromQuery(r.sig, r.exp).value;
      assert SignedFor(c, r.id, g.expires, r.sig);
    }
    forall e, sig | r.sig == "" && Brings(c, r, e, sig) ensures served <==> Unexpired(e, now) {
      NoSignature(c, r, now);
      BroughtCookie(c, r, now, e, sig);
    }
    if r.sig == "" {
      NoSignature(c, r, now);
    } else if r.exp != "" && ParseInt(r.exp) == None {
      BadExpiry(c, r, now);
    }
  }

  /** The cookies a response sets: exactly one, for a request with a valid signature. */
  function SetFor(c: Config, r: Request, now: int): seq<Cookie> {
    var g := GrantFromQuery(r.sig, r.exp);
    if ValidIn(c, g, r.id, now) then [Cookie(Encode(g.value), MaxAge(TTL(g.value, now, c.ttl)))] else []
  }

  // ----- a browser over time -----

  /** What the browser keeps: a value, and until when (None: for the session). */
  datatype Jar = Jar(value: string, until: Option<int>)

  /** A visit without bearer token, or the loss of the cookie. */
  datatype Act = Visit(id: string, sig: string, exp: string, now: int) | Forget

  function Presented(jar: Option<Jar>, now: int): Option<string> {
    if jar.Some? && (jar.value.until.Some? ==> now < jar.value.until.value) then Some(jar.value.value) else None
  }

  function KeptAs(cookie: Cookie, now: int): Jar {
    Jar(cookie.value, if cookie.maxAge > 0 then Some(now + cookie.maxAge * NANO) else None)
  }

  function Kept(c: Config, jar: Option<Jar>, act: Act): Option<Jar> {
    match act
    case Forget => None
    case Visit(id, sig, exp, now) =>
      var cookies := SetFor(c, Request(id, "", sig, exp, Presented(jar, now)), now);
      if cookies == [] then jar else Some(KeptAs(cookies[|cookies| - 1], now))
  }

  function JarAfter(c: Config, acts: seq<Act>): Option<Jar> {
    if acts == [] then None else Kept(c, JarAfter(c, acts[..|acts| - 1]), acts[|acts| - 1])
  }

  /** Whether the last act is a visit that is served. */
  predicate Unlocked(c: Config, acts: seq<Act>, id: string, sig: string, exp: string, now: int) {
    || ValidIn(c, GrantFromQuery(sig, exp), id, now)
    || ValidIn(c, CookieGrant(Presented(JarAfter(c, acts), now)), id, now)
  }

  /** The last grant accepted from a query, for which id and when, since the cookie was last lost. */
  datatype Last = Last(grant: Grant, id: string, at: int)

  function LastAccepted(c: Config, acts: seq<Act>): Option<Last> {
    if acts == [] then None
    else match acts[|acts| - 1]
      case Forget => None
      case Visit(id, sig, exp, now) =>
        if ValidIn(c, GrantFromQuery(sig, exp), id, now) then Some(Last(GrantFromQuery(sig, exp).value, id, now))
        else LastAccepted(c, acts[..|acts| - 1])
  }

  predicate After1970(acts: seq<Act>) {
    forall i | 0 <= i < |acts| && acts[i].Visit? :: acts[i].now >= 0
  }

  function JarOf(c: Config, l: Last): Jar {
    KeptAs(Cookie(Encode(l.grant), MaxAge(TTL(l.grant, l.at, c.ttl))), l.at)
  }

  /** The cookie held is always the encoding of the last grant accepted from a query. */
  lemma {:induction false} CookieIsLastGrant(c: Config, acts: seq<Act>)
    ensures JarAfter(c, acts) == match LastAccepted(c, acts)
                                 case None => None
                                 case Some(l) => Some(JarOf(c, l))
  {
    if acts != [] { CookieIsLastGrant(c, acts[..|acts| - 1]); }
  }

  lemma {:induction false} LastWasValid(c: Config, acts: seq<Act>)
    requires After1970(acts) && LastAccepted(c, acts).Some?
    ensures var l := LastAccepted(c, acts).value;
      && l.at >= 0 && ValidGrant(c.mac, l.grant, c.secret, l.id, l.at)
      && 0 <= l.grant.expires <= MAX64 && ParseGrant(Encode(l.grant)) == Some(l.grant)
  {
    var act := acts[|acts| - 1];
    if act.Visit? && ValidIn(c, GrantFromQuery(act.sig, act.exp), act.id, act.now) {
      AcceptedRoundTrip(c.mac, act.sig, act.exp, c.secret, act.id, act.now);
    } else {
      LastWasValid(c, acts[..|acts| - 1]);
    }
  }

  /** The browser still holds the cookie set for the last grant. */
  predicate StillHeld(c: Config, l: Last, now: int) {
    var age := MaxAge(TTL(l.grant, l.at, c.ttl));
    age > 0 ==> now < l.at + age * NANO
  }

  /**
   * After any sequence of visits, a request without a signature is served exactly when the
   * last accepted grant is still held and still valid for the id asked for.
   */
  lemma UnsignedVisitExactly(c: Config, acts: seq<Act>, id: string, exp: string, now: int)
    requires After1970(acts)
    ensures Unlocked(c, acts, id, "", exp, now) <==>
      var l := LastAccepted(c, acts);
      l.Some? && StillHeld(c, l.value, now) && ValidGrant(c.mac, l.value.grant, c.secret, id, now)
  {
    CookieIsLastGrant(c, acts);
    if LastAccepted(c, acts).Some? { LastWasValid(c, acts); }
  }

  /**
   * Without a signature of its own a request reaches only the report of the last link
   * followed: a link to one report never unlocks another, and following a second link
   * ends the access the first one gave.
   */
  lemma OneReportAtATime(c: Config, acts: seq<Act>, id: string, exp: string, now: int)
    requires CollisionFree(c.mac, c.secret) && After1970(acts)
    requires Unlocked(c, acts, id, "", exp, now)
    ensures LastAccepted(c, acts).Some? && LastAccepted(c, acts).value.id == id
  {
    UnsignedVisitExactly(c, acts, id, exp, now);
    LastWasValid(c, acts);
    var l := LastAccepted(c, acts).value;
    SignatureBinds(c.mac, c.secret, l.id, l.grant, id, l.grant, l.at, now);
  }
}
