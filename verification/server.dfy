/** The configuration rules of backend/server.js: which browser origins the
    CORS layer admits, and the attributes of the session cookie. The
    process environment is a parameter. */
module Server {
  import opened Common
  import opened Text

  /** The variables the server reads; `None` is an unset variable. */
  datatype Env = Env(frontendUrls: Option<string>, frontendUrl: Option<string>, nodeEnv: Option<string>)

  const LocalFrontend := "http://localhost:5173"

  /** `FRONTEND_URLS || FRONTEND_URL || 'http://localhost:5173'`: an empty
      variable counts as unset. */
  function OriginSource(env: Env): (r: string)
    ensures r != ""
    ensures Truthy(env.frontendUrls) ==> r == env.frontendUrls.value
    ensures !Truthy(env.frontendUrls) && Truthy(env.frontendUrl) ==> r == env.frontendUrl.value
    ensures !Truthy(env.frontendUrls) && !Truthy(env.frontendUrl) ==> r == LocalFrontend
  {
    if Truthy(env.frontendUrls) then env.frontendUrls.value
    else if Truthy(env.frontendUrl) then env.frontendUrl.value
    else LocalFrontend
  }

  /** `.filter(Boolean)` over strings: the non-empty ones, in order. */
  function DropEmpty(xs: seq<string>): (r: seq<string>)
    ensures forall k :: 0 <= k < |r| ==> r[k] != "" && r[k] in xs
    ensures forall k :: 0 <= k < |xs| && xs[k] != "" ==> xs[k] in r
    ensures |r| <= |xs|
  {
    if |xs| == 0 then []
    else
      var rest := DropEmpty(xs[1..]);
      assert forall k :: 1 <= k < |xs| ==> xs[k] == xs[1..][k - 1];
      if xs[0] == "" then rest else [xs[0]] + rest
  }

  /** `.map((o) => o.trim())`. */
  function TrimEach(xs: seq<string>): (r: seq<string>)
    ensures |r| == |xs|
    ensures forall k :: 0 <= k < |xs| ==> r[k] == Trim(xs[k])
  {
    seq(|xs|, k requires 0 <= k < |xs| => Trim(xs[k]))
  }

  /** `allowedOrigins`: the source split on commas, each entry trimmed,
      empty entries dropped. */
  function AllowList(env: Env): (r: seq<string>)
    ensures forall k :: 0 <= k < |r| ==> r[k] != "" && Trimmed(r[k]) && ',' !in r[k]
  {
    Kept(Split(OriginSource(env), ','))
  }

  /** The pieces of the source that survive trimming and the filter; the
      pieces come from a split on commas, so none holds one. */
  function Kept(pieces: seq<string>): (r: seq<string>)
    requires forall k :: 0 <= k < |pieces| ==> ',' !in pieces[k]
    ensures forall k :: 0 <= k < |r| ==> r[k] != "" && Trimmed(r[k]) && ',' !in r[k]
  {
    var trimmed := TrimEach(pieces);
    var r := DropEmpty(trimmed);
    forall k | 0 <= k < |r|
      ensures Trimmed(r[k]) && ',' !in r[k]
    {
      var j :| 0 <= j < |trimmed| && r[k] == trimmed[j];
      TrimWithin(pieces[j]);
    }
    r
  }

  /** A trimmed string holds only characters of the original. */
  lemma TrimWithin(s: string)
    ensures forall ch :: ch in Trim(s) ==> ch in s
  {
    var r := Trim(s);
    var i, j :| 0 <= i <= j <= |s| && r == s[i..j] && AllSpace(s[..i]) && AllSpace(s[j..]);
  }

  /** Piece `j` of `pieces` trims to `origin`. */
  predicate PieceTrimsTo(pieces: seq<string>, j: int, origin: string) {
    0 <= j < |pieces| && Trim(pieces[j]) == origin
  }

  lemma KeptPieces(pieces: seq<string>, origin: string)
    requires forall k :: 0 <= k < |pieces| ==> ',' !in pieces[k]
    ensures origin in Kept(pieces) <==>
      origin != "" && exists j :: PieceTrimsTo(pieces, j, origin)
  {
    var trimmed := TrimEach(pieces);
    var kept := Kept(pieces);
    if origin in kept {
      var k :| 0 <= k < |kept| && kept[k] == origin;
      var j :| 0 <= j < |trimmed| && trimmed[j] == origin;
      assert PieceTrimsTo(pieces, j, origin);
    }
    if origin != "" && exists j :: PieceTrimsTo(pieces, j, origin) {
      var j :| PieceTrimsTo(pieces, j, origin);
      assert trimmed[j] == origin;
    }
  }

  /** Some comma-separated piece of `source` trims to the non-empty
      `origin`. */
  ghost predicate ListedIn(source: string, origin: string) {
    origin != "" && exists j :: PieceTrimsTo(Split(source, ','), j, origin)
  }

  /** An origin is in the allow-list exactly when some comma-separated piece
      of the source trims to it. */
  lemma AllowListMembers(env: Env, origin: string)
    ensures origin in AllowList(env) <==> ListedIn(OriginSource(env), origin)
  {
    var pieces := Split(OriginSource(env), ',');
    KeptPieces(pieces, origin);
    if origin in AllowList(env) {
      assert origin in Kept(pieces);
    }
  }

  /** A list written as trimmed, non-empty, comma-free entries joined by
      commas reads back as exactly those entries, in order. */
  lemma {:induction false} AllowListOfJoinedEntries(env: Env, entries: seq<string>)
    requires |entries| >= 1
    requires forall k :: 0 <= k < |entries| ==> entries[k] != "" && Trimmed(entries[k]) && ',' !in entries[k]
    requires env.frontendUrls == Some(Join(entries, ","))
    ensures AllowList(env) == entries
  {
    SplitJoin(entries, ',');
    assert Split(OriginSource(env), ',') == entries;
    forall k | 0 <= k < |entries|
      ensures Trim(entries[k]) == entries[k]
    {
      TrimFixesTrimmed(entries[k]);
    }
    assert TrimEach(entries) == entries;
    DropEmptyKeepsNonEmpty(entries);
  }

  lemma {:induction false} DropEmptyKeepsNonEmpty(xs: seq<string>)
    requires forall k :: 0 <= k < |xs| ==> xs[k] != ""
    ensures DropEmpty(xs) == xs
  {
    if |xs| > 0 {
      DropEmptyKeepsNonEmpty(xs[1..]);
      assert [xs[0]] + xs[1..] == xs;
    }
  }

  /** With neither variable set only the local development frontend is
      admitted (besides requests without an origin). */
  lemma DefaultAllowsLocalFrontendOnly(env: Env)
    requires !Truthy(env.frontendUrls) && !Truthy(env.frontendUrl)
    ensures AllowList(env) == [LocalFrontend]
  {
    AllowListOfJoinedEntries(Env(Some(LocalFrontend), None, env.nodeEnv), [LocalFrontend]);
    assert Join([LocalFrontend], ",") == LocalFrontend;
  }

  /** The CORS `origin` callback: a request without an origin (or with an
      empty one) is admitted, as is one whose origin is listed verbatim. */
  function OriginAllowed(allowed: seq<string>, origin: Option<string>): (r: bool)
    ensures origin.None? ==> r
    ensures origin.Some? && origin.value != "" ==> (r <==> origin.value in allowed)
  {
    !Truthy(origin) || origin.value in allowed
  }

  /** Against the server's own list, a listed origin is admitted and an
      origin that carries surrounding blanks or a comma never is. */
  lemma OriginDecision(env: Env, origin: string)
    ensures OriginAllowed(AllowList(env), Some(origin)) <==> origin == "" || origin in AllowList(env)
    ensures origin != "" && (!Trimmed(origin) || ',' in origin) ==> !OriginAllowed(AllowList(env), Some(origin))
  {
  }

  // ------------------------------------------------------------ the cookie

  datatype SameSite = Lax | NoRestriction

  /** The `cookie` options of the session middleware. */
  datatype CookieOptions = CookieOptions(maxAgeMs: int, httpOnly: bool, secure: bool, sameSite: SameSite)

  const MsPerWeek := 7 * 24 * 60 * 60 * 1000

  predicate Production(env: Env) {
    env.nodeEnv == Some("production")
  }

  /** One week, hidden from scripts; cross-site and secure in production
      only. */
  function SessionCookie(env: Env): (r: CookieOptions)
    ensures r.maxAgeMs == MsPerWeek && r.httpOnly
    ensures r.secure <==> Production(env)
    ensures r.sameSite == NoRestriction <==> Production(env)
  {
    var production := Production(env);
    CookieOptions(MsPerWeek, true, production, if production then NoRestriction else Lax)
  }

  /** Browsers drop a `SameSite=None` cookie that is not `Secure`; the
      configuration never produces one, and the week is 604800000 ms. */
  lemma CrossSiteCookieIsSecure(env: Env)
    ensures SessionCookie(env).sameSite == NoRestriction ==> SessionCookie(env).secure
    ensures SessionCookie(env).maxAgeMs == 604_800_000
  {
  }
}
