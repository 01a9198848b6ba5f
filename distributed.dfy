/**
 * The distributed-workload tests: the check that a custom resource
 * definition is established, the OAuth token pair made for the Ray
 * dashboard, and the dashboard URL taken from the route.
 */
module Distributed {
  import opened Optional
  import opened Readiness
  import JavaFormat

  // ---------------------------------------------------------------------------
  // CRD established (CUSTOM_RESOURCE_DEFINITION_PREDICATE)
  // ---------------------------------------------------------------------------

  datatype CrdCondition = CrdCondition(conditionType: string, status: string)
  datatype CrdStatus = CrdStatus(conditions: Option<seq<CrdCondition>>)
  datatype Crd = Crd(status: Option<CrdStatus>)

  const Established: string := "Established"
  const ConditionTrue: string := "True"

  predicate IsEstablished(c: CrdCondition) {
    c.conditionType == Established && c.status == ConditionTrue
  }

  /** `anyMatch` over the condition list: checked in order, stopping at the first match. */
  function AnyEstablished(conditions: seq<CrdCondition>): (r: bool)
    ensures r <==> exists i :: 0 <= i < |conditions| && IsEstablished(conditions[i])
  {
    if conditions == [] then false
    else IsEstablished(conditions[0]) || AnyEstablished(conditions[1..])
  }

  /** The predicate the CRD wait is given: null-safe down to the condition list. */
  predicate CrdEstablished(crd: Option<Crd>)
    ensures CrdEstablished(crd) <==>
      && crd.Some? && crd.value.status.Some? && crd.value.status.value.conditions.Some?
      && var conditions := crd.value.status.value.conditions.value;
         exists i :: 0 <= i < |conditions| && IsEstablished(conditions[i])
  {
    && crd.Some?
    && crd.value.status.Some?
    && crd.value.status.value.conditions.Some?
    && AnyEstablished(crd.value.status.value.conditions.value)
  }

  /** A CRD, status or condition list that is null, or an empty list, never satisfies the predicate. */
  lemma CrdMissingPartsNotEstablished()
    ensures !CrdEstablished(None)
    ensures !CrdEstablished(Some(Crd(None)))
    ensures !CrdEstablished(Some(Crd(Some(CrdStatus(None)))))
    ensures !CrdEstablished(Some(Crd(Some(CrdStatus(Some([]))))))
  {
  }

  /** Only the exact pair ("Established", "True") counts; "False", "Unknown" or another type do not. */
  lemma CrdConditionMustBeExact(conditionType: string, status: string)
    ensures IsEstablished(CrdCondition(conditionType, status)) <==> conditionType == "Established" && status == "True"
    ensures !IsEstablished(CrdCondition(Established, "False"))
    ensures !IsEstablished(CrdCondition(Established, "Unknown"))
  {
  }

  /** Where the matching condition sits does not matter: any reordering gives the same answer. */
  lemma CrdEstablishedIgnoresOrder(a: seq<CrdCondition>, b: seq<CrdCondition>)
    requires multiset(a) == multiset(b)
    ensures AnyEstablished(a) == AnyEstablished(b)
  {
    if AnyEstablished(a) {
      var i :| 0 <= i < |a| && IsEstablished(a[i]);
      assert a[i] in multiset(b);
      var j :| 0 <= j < |b| && b[j] == a[i];
    }
    if AnyEstablished(b) {
      var j :| 0 <= j < |b| && IsEstablished(b[j]);
      assert b[j] in multiset(a);
      var i :| 0 <= i < |a| && a[i] == b[j];
    }
  }

  /** Inserting a condition that does not match (or removing one) leaves the answer unchanged. */
  lemma CrdEstablishedIgnoresNonMatching(front: seq<CrdCondition>, c: CrdCondition, back: seq<CrdCondition>)
    requires !IsEstablished(c)
    ensures AnyEstablished(front + [c] + back) == AnyEstablished(front + back)
  {
    var with, without := front + [c] + back, front + back;
    if AnyEstablished(with) {
      var i :| 0 <= i < |with| && IsEstablished(with[i]);
      if i < |front| {
        assert without[i] == with[i];
      } else {
        assert i > |front| && without[i - 1] == with[i];
      }
    }
    if AnyEstablished(without) {
      var i :| 0 <= i < |without| && IsEstablished(without[i]);
      if i < |front| {
        assert with[i] == without[i];
      } else {
        assert with[i + 1] == without[i];
      }
    }
  }

  // ---------------------------------------------------------------------------
  // OAuth token pair
  // ---------------------------------------------------------------------------

  newtype byte = x: int | 0 <= x < 256

  const Sha256Prefix: string := "sha256~"
  const RandomTokenStem: string := "nottoorandom"
  /** SHA-256 digests are 32 bytes long. */
  const DigestLength: nat := 32

  /** `getBytes(UTF_8)` of an ASCII string: one byte per character, its code. */
  function AsciiBytes(s: string): (b: seq<byte>)
    requires JavaFormat.IsAscii(s)
    ensures |b| == |s|
    ensures forall i :: 0 <= i < |s| ==> b[i] as int == s[i] as int
  {
    if s == [] then [] else [s[0] as int as byte] + AsciiBytes(s[1..])
  }

  /** `"nottoorandom%d".formatted(n)` for the int `n` drawn from `Random.nextInt()`. */
  function RandomToken(n: int): (t: string)
    requires JavaFormat.IsInt32(n)
    ensures JavaFormat.IsAscii(t) && |RandomTokenStem| < |t| <= |RandomTokenStem| + 11
    ensures t[..|RandomTokenStem|] == RandomTokenStem && JavaFormat.ParseInt(t[|RandomTokenStem|..]) == Some(n)
  {
    var digits := JavaFormat.FormatInt(n);
    JavaFormat.FormatIntLength(n);
    JavaFormat.ParseFormatRoundTrip(n);
    JavaFormat.FormatIntIsAscii(n);
    var t := RandomTokenStem + digits;
    assert t[..|RandomTokenStem|] == RandomTokenStem && t[|RandomTokenStem|..] == digits;
    assert JavaFormat.IsAscii(RandomTokenStem);
    t
  }

  /** Different random ints give different random tokens. */
  lemma RandomTokenInjective(a: int, b: int)
    requires JavaFormat.IsInt32(a) && JavaFormat.IsInt32(b)
    requires a != b
    ensures RandomToken(a) != RandomToken(b)
  {
  }

  /** The text after the "sha256~" prefix, or None when the prefix is absent. */
  function StripSha256Prefix(s: string): (r: Option<string>)
    ensures r.Some? <==> |s| >= |Sha256Prefix| && s[..|Sha256Prefix|] == Sha256Prefix
    ensures r.Some? ==> Sha256Prefix + r.value == s
  {
    if |s| >= |Sha256Prefix| && s[..|Sha256Prefix|] == Sha256Prefix then Some(s[|Sha256Prefix|..]) else None
  }

  datatype OAuthTokens = OAuthTokens(randomToken: string, privateToken: string, publicToken: string)

  /**
   * The token pair: the private token is the prefix and the random token,
   * the public token the prefix and the unpadded base64url text of the
   * SHA-256 digest of the random token's UTF-8 bytes. The digest and the
   * encoder are library calls, passed in.
   */
  function MakeTokens(n: int, sha256: seq<byte> -> seq<byte>, base64Url: seq<byte> -> string): (t: OAuthTokens)
    requires JavaFormat.IsInt32(n)
    ensures t.randomToken == RandomToken(n)
    ensures StripSha256Prefix(t.privateToken) == Some(t.randomToken)
    ensures StripSha256Prefix(t.publicToken) == Some(base64Url(sha256(AsciiBytes(t.randomToken))))
  {
    var random := RandomToken(n);
    var hashed := sha256(AsciiBytes(random));
    var t := OAuthTokens(random, Sha256Prefix + random, Sha256Prefix + base64Url(hashed));
    assert t.privateToken[|Sha256Prefix|..] == random;
    assert t.publicToken[|Sha256Prefix|..] == base64Url(hashed);
    t
  }

  /** Unpadded base64 of `n` bytes is ceil(4n/3) characters long. */
  ghost predicate UnpaddedBase64Length(base64Url: seq<byte> -> string) {
    forall b :: |base64Url(b)| == (4 * |b| + 2) / 3
  }

  ghost predicate DigestOfFixedLength(sha256: seq<byte> -> seq<byte>) {
    forall b :: |sha256(b)| == DigestLength
  }

  /**
   * With a 32-byte digest and an unpadded encoder, the public token is 50
   * characters long and the private token at most 30, so the two differ.
   */
  lemma PrivateTokenIsNotPublic(n: int, sha256: seq<byte> -> seq<byte>, base64Url: seq<byte> -> string)
    requires JavaFormat.IsInt32(n)
    requires DigestOfFixedLength(sha256) && UnpaddedBase64Length(base64Url)
    ensures var t := MakeTokens(n, sha256, base64Url);
      |t.publicToken| == 50 && |t.privateToken| <= 30 && t.privateToken != t.publicToken
  {
  }

  /** What the OAuth step leaves behind: the access-token object's name, and the token it returns. */
  datatype OAuthSetup = OAuthSetup(accessTokenName: string, returnedToken: string)

  function CreateOAuthToken(t: OAuthTokens): OAuthSetup {
    OAuthSetup(t.publicToken, t.privateToken)
  }

  /** The client for the Ray API: the dashboard URL and the bearer token it sends (null for none). */
  datatype RayClient = RayClient(url: string, bearerToken: Option<string>)

  /** The Kueue test hands the OAuth step's returned token to the Ray client. */
  function KueueRayClient(url: string, setup: OAuthSetup): RayClient {
    RayClient(url, Some(setup.returnedToken))
  }

  /** The AppWrapper test sends no token. */
  function AppWrapperRayClient(url: string): RayClient {
    RayClient(url, None)
  }

  /**
   * The Ray client authenticates with the private token, which carries the
   * random token, and never with the public name of the access-token object.
   */
  lemma RayClientGetsPrivateToken(url: string, n: int, sha256: seq<byte> -> seq<byte>, base64Url: seq<byte> -> string)
    requires JavaFormat.IsInt32(n)
    requires DigestOfFixedLength(sha256) && UnpaddedBase64Length(base64Url)
    ensures var t := MakeTokens(n, sha256, base64Url);
      var setup := CreateOAuthToken(t);
      var ray := KueueRayClient(url, setup);
      && setup.accessTokenName == t.publicToken
      && ray.bearerToken == Some(t.privateToken)
      && ray.bearerToken != Some(setup.accessTokenName)
      && StripSha256Prefix(ray.bearerToken.value) == Some(RandomToken(n))
  {
  }

  /** The AppWrapper test's Ray client sends no token, where the Kueue test's sends the private token. */
  lemma AppWrapperRayClientSendsNoToken(url: string, n: int, sha256: seq<byte> -> seq<byte>, base64Url: seq<byte> -> string)
    requires JavaFormat.IsInt32(n)
    ensures AppWrapperRayClient(url).bearerToken.None?
    ensures var kueue := KueueRayClient(url, CreateOAuthToken(MakeTokens(n, sha256, base64Url)));
      kueue.bearerToken.Some? && AppWrapperRayClient(url) != kueue
  {
  }

  // ---------------------------------------------------------------------------
  // Ray dashboard URL
  // ---------------------------------------------------------------------------

  datatype Ingress = Ingress(host: Option<string>)
  datatype RouteStatus = RouteStatus(ingress: seq<Ingress>)
  datatype Route = Route(status: Option<RouteStatus>)

  const AppWrapperScheme: string := "http://"
  const KueueScheme: string := "https://"

  /**
   * `scheme + route.getStatus().getIngress().get(0).getHost()`: a null route
   * or status throws a NullPointerException, an empty ingress list an
   * IndexOutOfBoundsException, and a null host is spelled "null".
   */
  function DashboardUrl(scheme: string, route: Option<Route>): (r: Result<string, Failure>)
    ensures r.Err? <==> route.None? || route.value.status.None? || route.value.status.value.ingress == []
    ensures r.Ok? ==> (|r.value| >= |scheme| && r.value[..|scheme|] == scheme
      && r.value[|scheme|..] == JavaText(route.value.status.value.ingress[0].host))
  {
    if route.None? || route.value.status.None? then Err(NullDereference)
    else if route.value.status.value.ingress == [] then Err(IndexOutOfBounds)
    else
      var host := JavaText(route.value.status.value.ingress[0].host);
      var url := scheme + host;
      assert url[..|scheme|] == scheme && url[|scheme|..] == host;
      Ok(url)
  }

  /** Only the first ingress counts; the two tests differ only in the scheme. */
  lemma DashboardUrlsShareHost(first: Ingress, rest: seq<Ingress>, other: seq<Ingress>)
    ensures var route := Some(Route(Some(RouteStatus([first] + rest))));
      && DashboardUrl(AppWrapperScheme, route) == Ok("http://" + JavaText(first.host))
      && DashboardUrl(KueueScheme, route) == Ok("https://" + JavaText(first.host))
      && DashboardUrl(KueueScheme, route) == DashboardUrl(KueueScheme, Some(Route(Some(RouteStatus([first] + other)))))
      && DashboardUrl(AppWrapperScheme, route) != DashboardUrl(KueueScheme, route)
  {
  }
}
