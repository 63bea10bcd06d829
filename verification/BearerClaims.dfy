/**
`authorize_claims`: from the claims of a token whose signature is valid to a principal. Strings are
sequences of characters; a claim token must be ASCII, so its length in bytes is its length here.
*/
module BearerClaims {
  import opened Wrappers
  import opened Ordering

  const MAX_CLAIM_ITEMS: nat := 128
  const CLOCK_SKEW_SECONDS: nat := 15
  const U64_MAX: nat := 0xFFFF_FFFF_FFFF_FFFF

  type U8 = n: int | 0 <= n <= 0xFF

  type U64 = n: int | 0 <= n <= U64_MAX

  datatype Failure = InvalidCredential | Forbidden

  datatype Audience = One(value: string) | Many(values: seq<string>)

  datatype AalClaim = Number(n: U8) | Text(value: string)

  datatype Level = Aal1 | Aal2 | Aal3

  datatype RealmClaim = Realm | Project | TenantId

  datatype Claims = Claims(
    sub: string, aud: Audience, iat: U64, nbf: U64, exp: U64,
    sid: Option<string>, azp: Option<string>, clientId: Option<string>,
    realm: Option<string>, project: Option<string>, tenantId: Option<string>,
    scope: Option<string>, roles: seq<string>, amr: seq<string>,
    acr: Option<string>, aal: Option<AalClaim>)

  datatype Policy = Policy(
    resource: string, authorizedClients: set<string>, realmClaim: RealmClaim, realm: string,
    minimumAssurance: Level, requiredScopes: set<string>, anyRole: set<string>)

  datatype Principal = Principal(
    subject: string, sessionId: string, authorizedClient: string, realm: string,
    assurance: Level, authenticationMethods: set<string>, roles: set<string>, scopes: set<string>)

  // ----- tokens and sets of tokens

  predicate Graphic(c: char) {
    '\U{21}' <= c <= '\U{7E}'
  }

  predicate ValidClaimToken(value: string, maximum: nat) {
    && value != [] && |value| <= maximum
    && forall i :: 0 <= i < |value| ==> Graphic(value[i]) && value[i] !in {',', '"', '\''}
  }

  function Elements(values: seq<string>): set<string> {
    set v | v in values
  }

  /** One to 128 valid tokens, no two alike. */
  predicate Listed(values: seq<string>, maximum: nat) {
    && 0 < |values| <= MAX_CLAIM_ITEMS
    && (forall v :: v in values ==> ValidClaimToken(v, maximum))
    && NoRepeats(values)
  }

  function ClaimSet(values: seq<string>, maximum: nat): Result<set<string>, Failure> {
    if Listed(values, maximum) then Ok(Elements(values)) else Err(Forbidden)
  }

  /** The loop of `claim_set`: it stops at the first invalid or repeated value. */
  method ClaimSetLoop(values: seq<string>, maximum: nat) returns (r: Result<set<string>, Failure>)
    ensures r == ClaimSet(values, maximum)
  {
    if |values| == 0 || |values| > MAX_CLAIM_ITEMS {
      return Err(Forbidden);
    }
    var result := {};
    for i := 0 to |values|
      invariant result == Elements(values[..i])
      invariant NoRepeats(values[..i]) && forall v :: v in values[..i] ==> ValidClaimToken(v, maximum)
    {
      assert values[i] in values;
      if !ValidClaimToken(values[i], maximum) || values[i] in result {
        assert values[i] in result ==> !NoRepeats(values) by {
          if values[i] in result {
            var k :| 0 <= k < i && values[..i][k] == values[i];
            assert values[k] == values[i];
          }
        }
        return Err(Forbidden);
      }
      assert values[..i + 1] == values[..i] + [values[i]];
      result := result + {values[i]};
    }
    assert values[..|values|] == values;
    r := Ok(result);
  }

  // ----- scopes

  predicate AsciiSpace(c: char) {
    c in {' ', '\t', '\n', '\r', '\U{0C}'}
  }

  function WordLength(s: string): (n: nat)
    ensures n <= |s|
  {
    if s == [] || AsciiSpace(s[0]) then 0 else 1 + WordLength(s[1..])
  }

  /** `split_ascii_whitespace`. */
  function Words(s: string): seq<string>
    decreases |s|
  {
    if s == [] then []
    else if AsciiSpace(s[0]) then Words(s[1..])
    else [s[..WordLength(s)]] + Words(s[WordLength(s)..])
  }

  predicate Blank(s: string) {
    forall i :: 0 <= i < |s| ==> AsciiSpace(s[i])
  }

  predicate IsWord(s: string) {
    s != [] && forall i :: 0 <= i < |s| ==> !AsciiSpace(s[i])
  }

  /** The words with a gap before each and one after the last. */
  function Spaced(words: seq<string>, gaps: seq<string>): string
    requires |gaps| == |words| + 1
  {
    if words == [] then gaps[0] else gaps[0] + words[0] + Spaced(words[1..], gaps[1..])
  }

  lemma {:induction false} SkipBlank(gap: string, s: string)
    requires Blank(gap)
    ensures Words(gap + s) == Words(s)
  {
    if gap == [] {
      assert gap + s == s;
    } else {
      assert (gap + s)[1..] == gap[1..] + s;
      SkipBlank(gap[1..], s);
    }
  }

  lemma {:induction false} TakeWord(word: string, s: string)
    requires forall i :: 0 <= i < |word| ==> !AsciiSpace(word[i])
    requires s == [] || AsciiSpace(s[0])
    ensures WordLength(word + s) == |word|
  {
    if word == [] {
      assert word + s == s;
    } else {
      assert (word + s)[1..] == word[1..] + s;
      TakeWord(word[1..], s);
    }
  }

  /** Splitting recovers the words, whatever white space separates them. */
  lemma {:induction false} SplitRecoversWords(words: seq<string>, gaps: seq<string>)
    requires |gaps| == |words| + 1
    requires forall i :: 0 <= i < |words| ==> IsWord(words[i])
    requires forall i :: 0 <= i < |gaps| ==> Blank(gaps[i])
    requires forall i :: 0 < i < |words| ==> gaps[i] != []
    ensures Words(Spaced(words, gaps)) == words
  {
    if words == [] {
      SkipBlank(gaps[0], []);
      assert gaps[0] + [] == gaps[0];
    } else {
      var rest := Spaced(words[1..], gaps[1..]);
      SplitRecoversWords(words[1..], gaps[1..]);
      SkipBlank(gaps[0], words[0] + rest);
      assert gaps[0] + (words[0] + rest) == Spaced(words, gaps);
      if rest != [] {
        assert rest[0] == gaps[1][0];
      }
      TakeWord(words[0], rest);
      assert (words[0] + rest)[..|words[0]|] == words[0] && (words[0] + rest)[|words[0]|..] == rest;
    }
  }

  function ParseScope(value: Option<string>): Result<set<string>, Failure> {
    match value
    case None => Err(Forbidden)
    case Some(s) => ClaimSet(Words(s), 160)
  }

  // ----- the other claims

  predicate IsExact(aud: Audience, expected: string) {
    match aud
    case One(value) => value == expected
    case Many(values) => |values| == 1 && values[0] == expected
  }

  function SaturatingAdd(a: U64, b: nat): U64 {
    if a + b > U64_MAX then U64_MAX else a + b
  }

  function AuthorizedClient(c: Claims): Result<string, Failure> {
    if c.azp.Some? && c.clientId.Some? && c.azp != c.clientId then Err(Forbidden)
    else
      var chosen := if c.azp.Some? then c.azp else c.clientId;
      if chosen.Some? && ValidClaimToken(chosen.value, 512) then Ok(chosen.value) else Err(Forbidden)
  }

  function LevelOfAal(aal: Option<AalClaim>): Option<Level> {
    match aal
    case Some(Number(n)) =>
      if n == 1 then Some(Aal1) else if n == 2 then Some(Aal2) else if n == 3 then Some(Aal3) else None
    case Some(Text(v)) =>
      if v in {"1", "aal1"} then Some(Aal1)
      else if v in {"2", "aal2"} then Some(Aal2)
      else if v in {"3", "aal3"} then Some(Aal3)
      else None
    case None => None
  }

  function LevelOfAcr(acr: Option<string>): Option<Level> {
    match acr
    case Some(v) =>
      if v in {"urn:oresoftware:loa:1", "aal1"} then Some(Aal1)
      else if v in {"urn:oresoftware:loa:2", "aal2"} then Some(Aal2)
      else if v in {"urn:oresoftware:loa:3", "aal3"} then Some(Aal3)
      else None
    case None => None
  }

  function AssuranceLevel(c: Claims): Option<Level> {
    match (LevelOfAal(c.aal), LevelOfAcr(c.acr))
    case (Some(left), Some(right)) => if left == right then Some(left) else None
    case (Some(level), None) => Some(level)
    case (None, Some(level)) => Some(level)
    case (None, None) => None
  }

  function Order(l: Level): nat {
    match l case Aal1 => 1 case Aal2 => 2 case Aal3 => 3
  }

  function RealmOf(c: Claims, claim: RealmClaim): Option<string> {
    match claim
    case Realm => c.realm
    case Project => c.project
    case TenantId => c.tenantId
  }

  function ValidOnly(value: Option<string>, maximum: nat): Option<string> {
    if value.Some? && ValidClaimToken(value.value, maximum) then value else None
  }

  // ----- the decision

  function AuthorizeClaims(c: Claims, p: Policy, now: U64): Result<Principal, Failure> {
    if !ValidClaimToken(c.sub, 200) then Err(Forbidden)
    else if !IsExact(c.aud, p.resource) || c.iat > SaturatingAdd(now, CLOCK_SKEW_SECONDS)
            || c.iat > c.exp || c.nbf > c.exp
    then Err(InvalidCredential)
    else
      var client := AuthorizedClient(c);
      var sid := ValidOnly(c.sid, 200);
      var realm := ValidOnly(RealmOf(c, p.realmClaim), 200);
      var assurance := AssuranceLevel(c);
      if client.Err? then Err(Forbidden)
      else if sid.None? then Err(Forbidden)
      else if client.value !in p.authorizedClients then Err(Forbidden)
      else if realm.None? || realm.value != p.realm then Err(Forbidden)
      else if assurance.None? || Order(assurance.value) < Order(p.minimumAssurance) then Err(Forbidden)
      else
        var scopes := ParseScope(c.scope);
        if scopes.Err? || !(p.requiredScopes <= scopes.value) then Err(Forbidden)
        else
          var roles := ClaimSet(c.roles, 160);
          if roles.Err? || p.anyRole * roles.value == {} then Err(Forbidden)
          else
            var methods := ClaimSet(c.amr, 160);
            if methods.Err? then Err(Forbidden)
            else Ok(Principal(c.sub, sid.value, client.value, realm.value, assurance.value,
                              methods.value, roles.value, scopes.value))
  }

  // ----- what acceptance means

  /** The token is addressed to this resource alone, and its times are in order. */
  ghost predicate Admissible(c: Claims, p: Policy, now: U64) {
    && (c.aud == One(p.resource) || c.aud == Many([p.resource]))
    && c.iat <= now + 15 && c.iat <= c.exp && c.nbf <= c.exp
  }

  /** Each client claim that is present names `client`, and at least one is. */
  ghost predicate NamesClient(c: Claims, client: string) {
    && (c.azp.Some? || c.clientId.Some?)
    && (c.azp.Some? ==> c.azp.value == client) && (c.clientId.Some? ==> c.clientId.value == client)
  }

  /** What the `aal` claim may say for a level, and what the `acr` claim may. */
  predicate AalSays(aal: Option<AalClaim>, level: Level) {
    match level
    case Aal1 => aal in {Some(Number(1)), Some(Text("1")), Some(Text("aal1"))}
    case Aal2 => aal in {Some(Number(2)), Some(Text("2")), Some(Text("aal2"))}
    case Aal3 => aal in {Some(Number(3)), Some(Text("3")), Some(Text("aal3"))}
  }

  predicate AcrSays(acr: Option<string>, level: Level) {
    match level
    case Aal1 => acr in {Some("urn:oresoftware:loa:1"), Some("aal1")}
    case Aal2 => acr in {Some("urn:oresoftware:loa:2"), Some("aal2")}
    case Aal3 => acr in {Some("urn:oresoftware:loa:3"), Some("aal3")}
  }

  /** At least one claim says `level`, and neither says another one. An unrecognised claim says nothing. */
  ghost predicate Assures(c: Claims, level: Level) {
    && (AalSays(c.aal, level) || AcrSays(c.acr, level))
    && forall other :: AalSays(c.aal, other) || AcrSays(c.acr, other) ==> other == level
  }

  /** The levels that a floor admits. */
  predicate Admits(floor: Level, level: Level) {
    match floor
    case Aal1 => true
    case Aal2 => level != Aal1
    case Aal3 => level == Aal3
  }

  /** The claim that the policy selects carries exactly the policy's realm. */
  predicate InRealm(c: Claims, p: Policy) {
    match p.realmClaim
    case Realm => c.realm == Some(p.realm)
    case Project => c.project == Some(p.realm)
    case TenantId => c.tenantId == Some(p.realm)
  }

  /** The claims entitle exactly this principal under the policy. */
  ghost predicate Entitles(c: Claims, p: Policy, who: Principal) {
    && who.subject == c.sub && c.sid == Some(who.sessionId) && ValidClaimToken(who.sessionId, 200)
    && NamesClient(c, who.authorizedClient) && ValidClaimToken(who.authorizedClient, 512)
    && who.authorizedClient in p.authorizedClients
    && InRealm(c, p) && who.realm == p.realm && ValidClaimToken(who.realm, 200)
    && Assures(c, who.assurance) && Admits(p.minimumAssurance, who.assurance)
    && c.scope.Some? && Listed(Words(c.scope.value), 160) && who.scopes == Elements(Words(c.scope.value))
    && (forall s :: s in p.requiredScopes ==> s in who.scopes)
    && Listed(c.roles, 160) && who.roles == Elements(c.roles)
    && (exists role :: role in p.anyRole && role in who.roles)
    && Listed(c.amr, 160) && who.authenticationMethods == Elements(c.amr)
  }

  lemma AssuranceIff(c: Claims, level: Level)
    ensures AssuranceLevel(c) == Some(level) <==> Assures(c, level)
  {
    AalIff(c.aal);
    AcrIff(c.acr);
  }

  lemma AalIff(aal: Option<AalClaim>)
    ensures forall level :: LevelOfAal(aal) == Some(level) <==> AalSays(aal, level)
  {
    if aal.Some? && aal.value.Text? {
      assert aal.value.value in {"1", "aal1"} ==> aal.value.value !in {"2", "aal2", "3", "aal3"};
      assert aal.value.value in {"2", "aal2"} ==> aal.value.value !in {"3", "aal3"};
    }
  }

  lemma AcrIff(acr: Option<string>)
    ensures forall level :: LevelOfAcr(acr) == Some(level) <==> AcrSays(acr, level)
  {
  }

  // ----- what a list of tokens and a token are

  lemma {:induction false} NoRepeatsIff(values: seq<string>)
    ensures |Elements(values)| <= |values|
    ensures NoRepeats(values) <==> |Elements(values)| == |values|
  {
    if values != [] {
      var front, last := values[..|values| - 1], values[|values| - 1];
      NoRepeatsIff(front);
      assert values == front + [last];
      assert Elements(values) == Elements(front) + {last};
      if last in front {
        var k :| 0 <= k < |front| && front[k] == last;
        assert values[k] == values[|front|];
      } else {
        assert forall i :: 0 <= i < |front| ==> values[i] == front[i];
      }
    }
  }

  /** One to 128 tokens, as many as different ones. */
  lemma ListedIff(values: seq<string>, maximum: nat)
    ensures Listed(values, maximum) <==>
            && 1 <= |values| <= 128 && |Elements(values)| == |values|
            && forall v :: v in values ==> ValidClaimToken(v, maximum)
  {
    NoRepeatsIff(values);
  }

  predicate TokenCharacter(c: char) {
    var code := c as int;
    33 <= code <= 126 && code !in {34, 39, 44}
  }

  /** The printable ASCII characters without the space, the comma and the two quotes. */
  lemma TokenIff(value: string, maximum: nat)
    ensures ValidClaimToken(value, maximum) <==>
            1 <= |value| <= maximum && forall c :: c in value ==> TokenCharacter(c)
  {
    assert forall c :: TokenCharacter(c) <==> Graphic(c) && c !in {',', '"', '\''};
    assert forall i :: 0 <= i < |value| ==> value[i] in value;
  }

  /** White space between scopes: tab, line feed, form feed, carriage return, space. */
  lemma SpaceIff(c: char)
    ensures AsciiSpace(c) <==> c as int in {9, 10, 12, 13, 32}
  {
  }

  /** Acceptance is exactly the conjunction of all the boundaries, for exactly the principal that the
      claims describe. */
  lemma AcceptedIff(c: Claims, p: Policy, now: U64, who: Principal)
    ensures AuthorizeClaims(c, p, now) == Ok(who) <==>
            ValidClaimToken(c.sub, 200) && Admissible(c, p, now) && Entitles(c, p, who)
  {
    forall level ensures AssuranceLevel(c) == Some(level) <==> Assures(c, level) {
      AssuranceIff(c, level);
    }
    var shared := p.anyRole * Elements(c.roles);
    if shared != {} {
      var role :| role in shared;
      assert role in p.anyRole && role in Elements(c.roles);
    }
    assert forall role :: role in p.anyRole && role in Elements(c.roles) ==> role in shared;
    assert c.aud.Many? && |c.aud.values| == 1 ==> c.aud.values == [c.aud.values[0]];
  }

  /** The credential itself is blamed exactly when a valid subject presents a token for another
      audience or with its times out of order; every other refusal is a policy matter. */
  lemma InvalidCredentialIff(c: Claims, p: Policy, now: U64)
    ensures AuthorizeClaims(c, p, now) == Err(InvalidCredential) <==>
            ValidClaimToken(c.sub, 200) && !Admissible(c, p, now)
  {
    assert c.aud.Many? && |c.aud.values| == 1 ==> c.aud.values == [c.aud.values[0]];
  }

  predicate Weaker(q: Policy, p: Policy) {
    && q.resource == p.resource && q.realmClaim == p.realmClaim && q.realm == p.realm
    && p.authorizedClients <= q.authorizedClients
    && Admits(q.minimumAssurance, p.minimumAssurance)
    && q.requiredScopes <= p.requiredScopes && p.anyRole <= q.anyRole
  }

  /** Weakening the policy never turns acceptance into rejection, nor changes the principal. */
  lemma WeakerPolicyAccepts(c: Claims, p: Policy, q: Policy, now: U64)
    requires Weaker(q, p) && AuthorizeClaims(c, p, now).Ok?
    ensures AuthorizeClaims(c, q, now) == AuthorizeClaims(c, p, now)
  {
    var who := AuthorizeClaims(c, p, now).value;
    AcceptedIff(c, p, now, who);
    AcceptedIff(c, q, now, who);
  }
}
