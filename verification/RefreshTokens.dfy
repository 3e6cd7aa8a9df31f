/** Refresh-token rotation: each family of tokens is one chain in which a token is replaced by its successor,
    and presenting a token that was already replaced takes the whole family out of use. */
module RefreshTokens {
  import opened Prelude

  /** A row of the token table, filed under the token (the table stores the token's keyed hash). */
  datatype TokenRow = TokenRow(
    principal: string,
    family: string,
    parent: Option<string>,
    replacedBy: Option<string>,
    expiresAt: int,
    revoked: bool)

  /** What a signed token carries. */
  datatype Claims = Claims(subject: string, family: Option<string>)

  /** The table, and the claims of every token ever signed. */
  datatype Tokens = Tokens(rows: map<string, TokenRow>, issued: map<string, Claims>)

  datatype AuthError =
    | InvalidKey | Undecodable | NotFound | Revoked | ReplayDetected | Expired | TokenExists

  /** A request with what the code draws or looks up on the way: the owner of a valid API key, the claims the
      presented token decodes to, the new token, the new family, the clock. */
  datatype Request =
    | Exchange(owner: Option<string>, newToken: string, newFamily: string, now: int)
    | Refresh(token: string, claims: Option<Claims>, newToken: string, now: int)
    | Revoke(token: string)

  // ---- the effects

  function Insert(s: Tokens, token: string, row: TokenRow): Tokens {
    Tokens(s.rows[token := row], s.issued[token := Claims(row.principal, Some(row.family))])
  }

  function RevokeOne(rows: map<string, TokenRow>, token: string): map<string, TokenRow> {
    if token in rows then rows[token := rows[token].(revoked := true)] else rows
  }

  function RevokeFamily(rows: map<string, TokenRow>, family: string): map<string, TokenRow> {
    map t | t in rows :: if rows[t].family == family then rows[t].(revoked := true) else rows[t]
  }

  function ExchangeResult(s: Tokens, q: Request): Result<string, AuthError>
    requires q.Exchange?
  {
    if q.owner.None? then Err(InvalidKey)
    else if q.newToken in s.rows then Err(TokenExists)
    else Ok(q.newToken)
  }

  function ExchangeEffect(s: Tokens, q: Request, ttl: nat): Tokens
    requires q.Exchange?
  {
    if ExchangeResult(s, q).Err? then s
    else Insert(s, q.newToken, TokenRow(q.owner.value, q.newFamily, None, None, q.now + ttl, false))
  }

  function RefreshResult(s: Tokens, q: Request): Result<string, AuthError>
    requires q.Refresh?
  {
    if q.claims.None? then Err(Undecodable)
    else if q.token !in s.rows then Err(NotFound)
    else
      var row := s.rows[q.token];
      if row.revoked then Err(Revoked)
      else if row.replacedBy.Some? then Err(ReplayDetected)
      else if row.expiresAt <= q.now then Err(Expired)
      else if q.newToken in s.rows then Err(TokenExists)
      else Ok(q.newToken)
  }

  /** Insert the successor, then mark the presented token replaced. */
  function Rotate(s: Tokens, q: Request, ttl: nat): Tokens
    requires q.Refresh? && RefreshResult(s, q).Ok?
  {
    var family := q.claims.value.family.GetOr(s.rows[q.token].family);
    var inserted := Insert(s, q.newToken,
                           TokenRow(q.claims.value.subject, family, Some(q.token), None, q.now + ttl, false));
    inserted.(rows := inserted.rows[q.token := inserted.rows[q.token].(replacedBy := Some(q.newToken))])
  }

  function RefreshEffect(s: Tokens, q: Request, ttl: nat): Tokens
    requires q.Refresh?
  {
    match RefreshResult(s, q)
    case Ok(_) => Rotate(s, q, ttl)
    case Err(e) =>
      if e == ReplayDetected then s.(rows := RevokeFamily(s.rows, s.rows[q.token].family))
      else if e == Expired then s.(rows := RevokeOne(s.rows, q.token))
      else s
  }

  function Effect(s: Tokens, q: Request, ttl: nat): Tokens {
    match q
    case Exchange(_, _, _, _) => ExchangeEffect(s, q, ttl)
    case Refresh(_, _, _, _) => RefreshEffect(s, q, ttl)
    case Revoke(token) => s.(rows := RevokeOne(s.rows, token))
  }

  /** A family id is drawn afresh, and only a token the service signed decodes, to the claims it was signed with. */
  ghost predicate Legal(s: Tokens, q: Request) {
    match q
    case Exchange(_, _, family, _) => forall t :: t in s.rows ==> s.rows[t].family != family
    case Refresh(token, claims, _, _) => claims.Some? ==> token in s.issued && s.issued[token] == claims.value
    case Revoke(_) => true
  }

  class AuthService {
    const ttl: nat
    var rows: map<string, TokenRow>
    ghost var issued: map<string, Claims>

    ghost function State(): Tokens
      reads this
    {
      Tokens(rows, issued)
    }

    constructor (ttl: nat)
      ensures this.ttl == ttl && State() == Tokens(map[], map[])
    {
      this.ttl := ttl;
      rows, issued := map[], map[];
    }

    /** Start a family: the first token has no parent. */
    method ExchangeKeyForTokens(owner: Option<string>, newToken: string, newFamily: string, now: int)
      returns (r: Result<string, AuthError>)
      modifies this
      ensures r == ExchangeResult(old(State()), Exchange(owner, newToken, newFamily, now))
      ensures State() == Effect(old(State()), Exchange(owner, newToken, newFamily, now), ttl)
    {
      if owner.None? {
        return Err(InvalidKey);
      }
      r := InsertToken(newToken, TokenRow(owner.value, newFamily, None, None, now + ttl, false));
    }

    method InsertToken(token: string, row: TokenRow) returns (r: Result<string, AuthError>)
      modifies this
      ensures r == if token in old(rows) then Err(TokenExists) else Ok(token)
      ensures State() == if token in old(rows) then old(State()) else Insert(old(State()), token, row)
    {
      if token in rows {
        return Err(TokenExists);
      }
      rows, issued := rows[token := row], issued[token := Claims(row.principal, Some(row.family))];
      return Ok(token);
    }

    /** Rotate a token. The checks come in this order: revoked, replaced, expired. */
    method RefreshTokens(token: string, claims: Option<Claims>, newToken: string, now: int)
      returns (r: Result<string, AuthError>)
      modifies this
      ensures r == RefreshResult(old(State()), Refresh(token, claims, newToken, now))
      ensures State() == Effect(old(State()), Refresh(token, claims, newToken, now), ttl)
    {
      if claims.None? {
        return Err(Undecodable);
      }
      if token !in rows {
        return Err(NotFound);
      }
      var stored := rows[token];
      if stored.revoked {
        return Err(Revoked);
      }
      if stored.replacedBy.Some? {
        rows := RevokeFamily(rows, stored.family);
        return Err(ReplayDetected);
      }
      if stored.expiresAt <= now {
        var _ := RevokeRefreshToken(token);
        return Err(Expired);
      }
      var family := claims.value.family.GetOr(stored.family);
      r := InsertToken(newToken, TokenRow(claims.value.subject, family, Some(token), None, now + ttl, false));
      if r.Ok? {
        rows := rows[token := rows[token].(replacedBy := Some(newToken))];
      }
    }

    /** Revoke one token; false when there is none or it is revoked already. */
    method RevokeRefreshToken(token: string) returns (changed: bool)
      modifies this
      ensures State() == Effect(old(State()), Revoke(token), ttl)
      ensures changed <==> token in old(rows) && !old(rows)[token].revoked
    {
      changed := token in rows && !rows[token].revoked;
      if changed {
        rows := rows[token := rows[token].(revoked := true)];
      }
    }
  }

  // ---- runs

  ghost predicate IsRun(states: seq<Tokens>, requests: seq<Request>, ttl: nat) {
    && |states| == |requests| + 1
    && forall k {:trigger requests[k]} :: 0 <= k < |requests| ==>
         Legal(states[k], requests[k]) && states[k + 1] == Effect(states[k], requests[k], ttl)
  }

  const EMPTY := Tokens(map[], map[])

  // ---- each family is one chain

  /** Neighbours in the chain know each other: the older names its successor, the newer its parent. */
  ghost predicate LinkedBothWays(rows: map<string, TokenRow>, chain: seq<string>, k: nat)
    requires k < |chain| && forall t :: t in chain ==> t in rows
  {
    && rows[chain[k]].parent == (if k == 0 then None else Some(chain[k - 1]))
    && rows[chain[k]].replacedBy == (if k == |chain| - 1 then None else Some(chain[k + 1]))
  }

  /** The chain lists exactly the family's tokens, each once, in order of issue. */
  ghost predicate IsChain(rows: map<string, TokenRow>, family: string, chain: seq<string>) {
    && (forall t :: t in chain <==> t in rows && rows[t].family == family)
    && NoDuplicates(chain)
    && forall k {:trigger LinkedBothWays(rows, chain, k)} :: 0 <= k < |chain| ==> LinkedBothWays(rows, chain, k)
  }

  ghost predicate HasChain(rows: map<string, TokenRow>, family: string) {
    exists chain :: IsChain(rows, family, chain)
  }

  ghost predicate FamiliesAreChains(rows: map<string, TokenRow>) {
    forall family :: HasChain(rows, family)
  }

  /** Rows and signed claims agree. */
  ghost predicate ClaimsMatch(s: Tokens) {
    forall t :: t in s.rows ==> t in s.issued && s.issued[t] == Claims(s.rows[t].principal, Some(s.rows[t].family))
  }

  ghost predicate Sound(s: Tokens) {
    FamiliesAreChains(s.rows) && ClaimsMatch(s)
  }

  /** Updates of `revoked` alone leave every chain as it is. */
  ghost predicate SameButRevoked(rows: map<string, TokenRow>, rows': map<string, TokenRow>) {
    rows'.Keys == rows.Keys && forall t :: t in rows ==> rows'[t].(revoked := false) == rows[t].(revoked := false)
  }

  lemma RevokingKeepsChains(rows: map<string, TokenRow>, rows': map<string, TokenRow>)
    requires FamiliesAreChains(rows) && SameButRevoked(rows, rows')
    ensures FamiliesAreChains(rows')
  {
    assert forall t :: t in rows ==>
        && rows'[t].family == rows[t].family && rows'[t].parent == rows[t].parent
        && rows'[t].replacedBy == rows[t].replacedBy;
    forall family
      ensures HasChain(rows', family)
    {
      assert HasChain(rows, family);
      var chain :| IsChain(rows, family, chain);
      forall k | 0 <= k < |chain|
        ensures LinkedBothWays(rows', chain, k)
      {
        assert LinkedBothWays(rows, chain, k);
      }
      assert IsChain(rows', family, chain);
    }
  }

  lemma ExchangeKeepsChains(s: Tokens, q: Request, ttl: nat)
    requires Sound(s) && q.Exchange? && Legal(s, q)
    ensures FamiliesAreChains(ExchangeEffect(s, q, ttl).rows)
  {
    var rows, rows' := s.rows, ExchangeEffect(s, q, ttl).rows;
    if ExchangeResult(s, q).Ok? {
      forall family
        ensures HasChain(rows', family)
      {
        assert HasChain(rows, family);
        var chain :| IsChain(rows, family, chain);
        if family == q.newFamily {
          assert IsChain(rows', family, [q.newToken]) by {
            assert LinkedBothWays(rows', [q.newToken], 0);
          }
        } else {
          OtherRowsKeepChain(rows, rows', family, chain);
        }
      }
    }
  }

  lemma OtherRowsKeepChain(rows: map<string, TokenRow>, rows': map<string, TokenRow>, family: string,
                           chain: seq<string>)
    requires IsChain(rows, family, chain)
    requires forall t :: t in rows && rows[t].family == family ==> t in rows' && rows'[t] == rows[t]
    requires forall t :: t in rows' && rows'[t].family == family ==> t in rows && rows[t].family == family
    ensures IsChain(rows', family, chain)
  {
    forall k | 0 <= k < |chain|
      ensures LinkedBothWays(rows', chain, k)
    {
      assert LinkedBothWays(rows, chain, k);
      assert chain[k] in chain;
    }
  }

  /** A token that is not replaced is the last of its chain. */
  lemma UnreplacedIsLast(rows: map<string, TokenRow>, family: string, chain: seq<string>, t: string)
    requires IsChain(rows, family, chain) && t in rows && rows[t].family == family && rows[t].replacedBy.None?
    ensures chain != [] && t == Last(chain)
  {
    assert t in chain;
    var k :| 0 <= k < |chain| && chain[k] == t;
    assert LinkedBothWays(rows, chain, k);
  }

  lemma RotateExtendsChain(s: Tokens, q: Request, ttl: nat, chain: seq<string>)
    requires q.Refresh? && RefreshResult(s, q).Ok? && ClaimsMatch(s) && Legal(s, q)
    requires IsChain(s.rows, s.rows[q.token].family, chain)
    ensures IsChain(Rotate(s, q, ttl).rows, s.rows[q.token].family, chain + [q.newToken])
  {
    var rows, rows', family := s.rows, Rotate(s, q, ttl).rows, s.rows[q.token].family;
    var longer := chain + [q.newToken];
    UnreplacedIsLast(rows, family, chain, q.token);
    assert q.newToken !in chain;
    assert rows'[q.newToken] == TokenRow(q.claims.value.subject, family, Some(q.token), None, q.now + ttl, false);
    forall t
      ensures t in longer <==> t in rows' && rows'[t].family == family
    {
      assert t in longer <==> t in chain || t == q.newToken;
    }
    forall k | 0 <= k < |longer|
      ensures LinkedBothWays(rows', longer, k)
    {
      if k < |chain| {
        assert LinkedBothWays(rows, chain, k);
        assert chain[k] in chain;
      }
    }
  }

  lemma RefreshKeepsChains(s: Tokens, q: Request, ttl: nat)
    requires Sound(s) && q.Refresh? && Legal(s, q)
    ensures FamiliesAreChains(RefreshEffect(s, q, ttl).rows)
  {
    var rows, rows' := s.rows, RefreshEffect(s, q, ttl).rows;
    if RefreshResult(s, q).Ok? {
      forall family
        ensures HasChain(rows', family)
      {
        assert HasChain(rows, family);
        var chain :| IsChain(rows, family, chain);
        if family == rows[q.token].family {
          RotateExtendsChain(s, q, ttl, chain);
        } else {
          assert q.claims.value.family == Some(rows[q.token].family);
          OtherRowsKeepChain(rows, rows', family, chain);
        }
      }
    } else {
      RevokingKeepsChains(rows, rows');
    }
  }

  lemma StepKeepsSound(s: Tokens, q: Request, ttl: nat)
    requires Sound(s) && Legal(s, q)
    ensures Sound(Effect(s, q, ttl))
  {
    match q
    case Exchange(_, _, _, _) => ExchangeKeepsChains(s, q, ttl);
    case Refresh(_, _, _, _) => RefreshKeepsChains(s, q, ttl);
    case Revoke(token) => RevokingKeepsChains(s.rows, RevokeOne(s.rows, token));
  }

  lemma {:induction false} RunKeepsSound(states: seq<Tokens>, requests: seq<Request>, ttl: nat)
    requires IsRun(states, requests, ttl) && Sound(states[0])
    ensures Sound(Last(states))
  {
    if requests != [] {
      RunKeepsSound(states[..|requests|], requests[..|requests| - 1], ttl);
      StepKeepsSound(states[|requests| - 1], Last(requests), ttl);
    }
  }

  lemma EmptyIsSound()
    ensures Sound(EMPTY)
  {
    forall family
      ensures HasChain(EMPTY.rows, family)
    {
      assert IsChain(EMPTY.rows, family, []);
    }
  }

  // ---- who may still rotate

  /** The token can still be exchanged for a successor, its expiry aside. */
  predicate Usable(rows: map<string, TokenRow>, t: string) {
    t in rows && !rows[t].revoked && rows[t].replacedBy.None?
  }

  /** In every run, each family is a single doubly linked chain, and at most one of its tokens, the last,
      is neither replaced nor revoked. */
  lemma FamiliesStayChains(states: seq<Tokens>, requests: seq<Request>, ttl: nat, family: string)
    returns (chain: seq<string>)
    requires IsRun(states, requests, ttl) && states[0] == EMPTY
    ensures IsChain(Last(states).rows, family, chain)
    ensures forall t :: Usable(Last(states).rows, t) && Last(states).rows[t].family == family ==>
              chain != [] && t == Last(chain)
  {
    EmptyIsSound();
    RunKeepsSound(states, requests, ttl);
    var rows := Last(states).rows;
    assert HasChain(rows, family);
    chain :| IsChain(rows, family, chain);
    forall t | Usable(rows, t) && rows[t].family == family
      ensures chain != [] && t == Last(chain)
    {
      UnreplacedIsLast(rows, family, chain, t);
    }
  }

  ghost predicate Exhausted(rows: map<string, TokenRow>, family: string) {
    forall t :: t in rows && rows[t].family == family ==> !Usable(rows, t)
  }

  /** A family that exists and has no usable token never gets one again. */
  ghost predicate Retired(rows: map<string, TokenRow>, family: string) {
    Exhausted(rows, family) && exists t :: t in rows && rows[t].family == family
  }

  /** A new token starts its own family or comes from a usable token of its family. */
  lemma NewTokenHasUsableParent(s: Tokens, q: Request, ttl: nat, t: string)
    requires ClaimsMatch(s) && Legal(s, q) && t in Effect(s, q, ttl).rows && t !in s.rows
    ensures var family := Effect(s, q, ttl).rows[t].family;
            || (q.Exchange? && forall u :: u in s.rows ==> s.rows[u].family != family)
            || (q.Refresh? && Usable(s.rows, q.token) && s.rows[q.token].family == family)
  {
  }

  lemma UnusableStays(s: Tokens, q: Request, ttl: nat, t: string)
    requires ClaimsMatch(s) && Legal(s, q) && t in s.rows && !Usable(s.rows, t)
    ensures t in Effect(s, q, ttl).rows && Effect(s, q, ttl).rows[t].family == s.rows[t].family
    ensures !Usable(Effect(s, q, ttl).rows, t)
  {
  }

  lemma StepKeepsRetired(s: Tokens, q: Request, ttl: nat, family: string)
    requires ClaimsMatch(s) && Legal(s, q) && Retired(s.rows, family)
    ensures Retired(Effect(s, q, ttl).rows, family)
  {
    var t :| t in s.rows && s.rows[t].family == family;
    var rows' := Effect(s, q, ttl).rows;
    assert t in rows' && rows'[t].family == family;
    forall u | u in rows' && u !in s.rows
      ensures rows'[u].family != family
    {
      NewTokenHasUsableParent(s, q, ttl, u);
    }
    forall u | u in s.rows && s.rows[u].family == family
      ensures !Usable(rows', u)
    {
      assert !Usable(s.rows, u);
      UnusableStays(s, q, ttl, u);
    }
  }

  lemma {:induction false} RetiredForever(states: seq<Tokens>, requests: seq<Request>, ttl: nat, family: string)
    requires IsRun(states, requests, ttl) && Sound(states[0]) && Retired(states[0].rows, family)
    ensures Retired(Last(states).rows, family)
  {
    if requests != [] {
      var front := requests[..|requests| - 1];
      RetiredForever(states[..|requests|], front, ttl, family);
      RunKeepsSound(states[..|requests|], front, ttl);
      StepKeepsRetired(states[|requests| - 1], Last(requests), ttl, family);
    }
  }

  /** Presenting a replaced token that is not itself revoked leaves its family without a usable token, at
      once and in every continuation, whatever is presented, exchanged or revoked later. */
  lemma ReplayRetiresFamily(states: seq<Tokens>, requests: seq<Request>, ttl: nat, token: string)
    requires IsRun(states, requests, ttl) && Sound(states[0])
    requires requests != [] && requests[0].Refresh? && requests[0].token == token && requests[0].claims.Some?
    requires token in states[0].rows && states[0].rows[token].replacedBy.Some? && !states[0].rows[token].revoked
    ensures RefreshResult(states[0], requests[0]) == Err(ReplayDetected)
    ensures Exhausted(Last(states).rows, states[0].rows[token].family)
  {
    var family := states[0].rows[token].family;
    assert Legal(states[0], requests[0]) && states[1] == Effect(states[0], requests[0], ttl);
    assert states[1].rows[token].family == family;
    assert Retired(states[1].rows, family);
    StepKeepsSound(states[0], requests[0], ttl);
    forall k | 0 <= k < |requests| - 1
      ensures Legal(states[1..][k], requests[1..][k])
      ensures states[1..][k + 1] == Effect(states[1..][k], requests[1..][k], ttl)
    {
      assert requests[1..][k] == requests[k + 1];
    }
    RetiredForever(states[1..], requests[1..], ttl, family);
  }

  /** A replaced token takes its family out of use exactly when it is not revoked, or the family was out of
      use before: a revoked token is turned away before the replay is noticed. */
  lemma ReplayIsNoticedIff(s: Tokens, q: Request, ttl: nat)
    requires q.Refresh? && q.claims.Some? && q.token in s.rows && s.rows[q.token].replacedBy.Some?
    ensures var family := s.rows[q.token].family;
            Exhausted(Effect(s, q, ttl).rows, family) <==> !s.rows[q.token].revoked || Exhausted(s.rows, family)
  {
    if !s.rows[q.token].revoked {
      var rows' := Effect(s, q, ttl).rows;
      assert forall t :: t in rows' && rows'[t].family == s.rows[q.token].family ==> rows'[t].revoked;
    }
  }

  /** A run in which the replay of a revoked token leaves its successor usable. */
  lemma RevokedReplayGoesUnnoticed(ttl: nat) returns (states: seq<Tokens>, requests: seq<Request>)
    requires ttl > 0
    ensures IsRun(states, requests, ttl) && states[0] == EMPTY && |requests| == 4
    ensures requests[3].Refresh? && requests[3].token == "a" && states[3].rows.Keys == {"a", "b"}
    ensures states[3].rows["a"].replacedBy == Some("b") && Usable(states[4].rows, "b")
  {
    var claims := Some(Claims("me", Some("f")));
    var q0, q1 := Exchange(Some("me"), "a", "f", 0), Refresh("a", claims, "b", 0);
    var q2, q3 := Revoke("a"), Refresh("a", claims, "c", 0);
    var s1 := Effect(EMPTY, q0, ttl);
    assert RefreshResult(s1, q1) == Ok("b");
    var s2 := Effect(s1, q1, ttl);
    var s3 := Effect(s2, q2, ttl);
    requests, states := [q0, q1, q2, q3], [EMPTY, s1, s2, s3, Effect(s3, q3, ttl)];
  }

  /** A presented token is rotated exactly when it decodes and is the last of its family's chain, unrevoked and
      unexpired. The successor has its owner and family, becomes the new end of the chain, and is then the only
      usable one of the two. */
  lemma RotationIffLastAndLive(s: Tokens, q: Request, ttl: nat, chain: seq<string>)
    requires Sound(s) && Legal(s, q) && q.Refresh? && q.newToken !in s.rows
    requires q.token in s.rows ==> IsChain(s.rows, s.rows[q.token].family, chain)
    ensures RefreshResult(s, q).Ok? <==>
            && q.claims.Some? && q.token in s.rows && chain != [] && q.token == Last(chain)
            && !s.rows[q.token].revoked && q.now < s.rows[q.token].expiresAt
    ensures RefreshResult(s, q).Ok? ==>
              var was, after := s.rows[q.token], Effect(s, q, ttl).rows;
              && after[q.newToken].family == was.family && after[q.newToken].principal == was.principal
              && IsChain(after, was.family, chain + [q.newToken])
              && !Usable(after, q.token) && Usable(after, q.newToken)
  {
    if q.token in s.rows {
      var family := s.rows[q.token].family;
      if s.rows[q.token].replacedBy.None? {
        UnreplacedIsLast(s.rows, family, chain, q.token);
      } else if chain != [] {
        assert LinkedBothWays(s.rows, chain, |chain| - 1);
      }
      if RefreshResult(s, q).Ok? {
        RotateExtendsChain(s, q, ttl, chain);
      }
    }
  }

  // ---- how long a token lasts

  /** What each request is answered, from the presented token's row alone. */
  lemma RequestAnswers(s: Tokens, q: Request)
    ensures q.Exchange? ==>
              ExchangeResult(s, q) == if q.owner.None? then Err(InvalidKey)
                                      else if q.newToken in s.rows then Err(TokenExists) else Ok(q.newToken)
    ensures q.Refresh? && (q.claims.None? || q.token !in s.rows) ==>
              RefreshResult(s, q) == Err(if q.claims.None? then Undecodable else NotFound)
    ensures q.Refresh? && q.claims.Some? && q.token in s.rows ==>
              var row := s.rows[q.token];
              RefreshResult(s, q) ==
              if row.revoked then Err(Revoked)
              else if row.replacedBy.Some? then Err(ReplayDetected)
              else if q.now >= row.expiresAt then Err(Expired)
              else if q.newToken in s.rows then Err(TokenExists) else Ok(q.newToken)
  {
  }

  /** What each request does to the rows: an exchange adds a token that starts a family; a rotation adds the successor
      and links the two; a replay revokes the family and no other; an expired token, or one that is to be revoked, is
      revoked alone; any other refusal changes nothing. */
  lemma RequestDoes(s: Tokens, q: Request, ttl: nat)
    ensures var after := Effect(s, q, ttl).rows;
            match q
            case Exchange(owner, token, family, now) =>
              after == if ExchangeResult(s, q).Err? then s.rows
                       else s.rows[token := TokenRow(owner.value, family, None, None, now + ttl, false)]
            case Revoke(token) =>
              after == if token in s.rows then s.rows[token := s.rows[token].(revoked := true)] else s.rows
            case Refresh(token, claims, newToken, now) =>
              match RefreshResult(s, q)
              case Ok(_) =>
                var row := s.rows[token];
                after == s.rows[newToken := TokenRow(claims.value.subject, claims.value.family.GetOr(row.family),
                                                     Some(token), None, now + ttl, false)]
                               [token := row.(replacedBy := Some(newToken))]
              case Err(ReplayDetected) =>
                && after.Keys == s.rows.Keys
                && (forall t :: t in s.rows && s.rows[t].family == s.rows[token].family ==>
                      after[t] == s.rows[t].(revoked := true))
                && (forall t :: t in s.rows && s.rows[t].family != s.rows[token].family ==> after[t] == s.rows[t])
              case Err(Expired) => after == s.rows[token := s.rows[token].(revoked := true)]
              case Err(_) => after == s.rows
  {
  }

  /** The request issued the token: it was not there before, and is now. */
  predicate Issues(s: Tokens, s': Tokens, token: string) {
    token !in s.rows && token in s'.rows
  }

  lemma IssuedUntil(s: Tokens, q: Request, ttl: nat, token: string)
    requires Issues(s, Effect(s, q, ttl), token)
    ensures !q.Revoke? && q.newToken == token && Effect(s, q, ttl).rows[token].expiresAt == q.now + ttl
    ensures Usable(Effect(s, q, ttl).rows, token)
  {
  }

  lemma ExpiryStays(s: Tokens, q: Request, ttl: nat, token: string)
    requires token in s.rows
    ensures token in Effect(s, q, ttl).rows && Effect(s, q, ttl).rows[token].expiresAt == s.rows[token].expiresAt
  {
  }

  lemma {:induction false} IssuedExpiry(states: seq<Tokens>, requests: seq<Request>, ttl: nat, k: nat, j: nat,
                                        token: string)
    requires IsRun(states, requests, ttl) && k < j < |states| && Issues(states[k], states[k + 1], token)
    ensures !requests[k].Revoke? && requests[k].newToken == token
    ensures token in states[j].rows && states[j].rows[token].expiresAt == requests[k].now + ttl
    decreases j
  {
    if j == k + 1 {
      assert states[k + 1] == Effect(states[k], requests[k], ttl);
      IssuedUntil(states[k], requests[k], ttl, token);
    } else {
      IssuedExpiry(states, requests, ttl, k, j - 1, token);
      assert states[j - 1 + 1] == Effect(states[j - 1], requests[j - 1], ttl);
      ExpiryStays(states[j - 1], requests[j - 1], ttl, token);
    }
  }

  /** A token issued at some time, by exchange or by rotation, is good for its lifetime: while it is neither replaced
      nor revoked, presenting it earlier than that rotates it, to a new token that is then in the same place;
      presenting it later is refused as expired and revokes it. */
  lemma TokenLastsItsTime(states: seq<Tokens>, requests: seq<Request>, ttl: nat, k: nat, q: Request)
    requires IsRun(states, requests, ttl) && states[0] == EMPTY && k < |requests|
    requires q.Refresh? && q.claims.Some? && Legal(Last(states), q) && q.newToken !in Last(states).rows
    requires Issues(states[k], states[k + 1], q.token)
    requires var rows := Last(states).rows;
             q.token in rows ==> !rows[q.token].revoked && rows[q.token].replacedBy.None?
    ensures !requests[k].Revoke?
    ensures var s, until := Last(states), requests[k].now + ttl;
            var after := Effect(s, q, ttl).rows;
            && q.token in s.rows
            && (q.now < until ==>
                  && RefreshResult(s, q) == Ok(q.newToken)
                  && after == s.rows[q.token := s.rows[q.token].(replacedBy := Some(q.newToken))]
                                    [q.newToken := TokenRow(s.rows[q.token].principal, s.rows[q.token].family,
                                                            Some(q.token), None, q.now + ttl, false)])
            && (q.now >= until ==>
                  && RefreshResult(s, q) == Err(Expired)
                  && after == s.rows[q.token := s.rows[q.token].(revoked := true)])
  {
    IssuedExpiry(states, requests, ttl, k, |states| - 1, q.token);
    EmptyIsSound();
    RunKeepsSound(states, requests, ttl);
    RequestAnswers(Last(states), q);
  }
}
