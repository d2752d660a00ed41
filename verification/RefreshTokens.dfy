/**
 * The refresh-token revocation ledger and the calls that use it, each running
 * undisturbed. A token is the unforgeable triple of its user, its `jti` and its
 * `exp` (sections 4.1.7 and 4.1.4 of RFC 7519). Times are milliseconds, except
 * `exp`, which is whole seconds.
 */
module RefreshTokens {
  import opened Prelude

  type Jti = nat

  datatype Row = Row(user: int, expiresAt: int, revoked: bool)

  type Rows = map<Jti, Row>

  datatype Token = Token(user: int, jti: Jti, exp: int)

  function RevokeOne(rows: Rows, jti: Jti): Rows {
    if jti in rows then rows[jti := rows[jti].(revoked := true)] else rows
  }

  function RevokeAll(rows: Rows, user: int): Rows {
    map j | j in rows :: if rows[j].user == user then rows[j].(revoked := true) else rows[j]
  }

  function WithoutExpired(rows: Rows, asOf: int): Rows {
    map j | j in rows && rows[j].expiresAt > asOf :: rows[j]
  }

  predicate IsActive(rows: Rows, jti: Jti) {
    jti in rows && !rows[jti].revoked
  }

  datatype GuardResult = TokenExpired | Unknown | Reused | RowExpired | UserInactive | Accepted

  /** Signature expiry first, then what the ledger says about the token. */
  function GuardDecision(rows: Rows, token: Token, now: int, userActive: bool): GuardResult {
    if now / 1000 >= token.exp then TokenExpired
    else if token.jti !in rows then Unknown
    else if rows[token.jti].revoked then Reused
    else if rows[token.jti].expiresAt <= now then RowExpired
    else if !userActive then UserInactive
    else Accepted
  }

  /** Signing stamps `exp` from the second it happens in; the ledger row is written no earlier. */
  function SignedToken(user: int, jti: Jti, signedAt: int, lifetime: nat): Token {
    Token(user, jti, signedAt / 1000 + lifetime)
  }

  function IssuedRow(user: int, issuedAt: int, lifetime: nat): Row {
    Row(user, issuedAt + lifetime * 1000, false)
  }

  class RefreshTokenLedger {
    var rows: Rows

    constructor ()
      ensures rows == map[]
    {
      rows := map[];
    }

    /** The `jti` column is unique, so a second row for one token cannot be inserted. */
    method Issue(user: int, jti: Jti, expiresAt: int) returns (ok: bool)
      modifies this
      ensures ok == (jti !in old(rows))
      ensures rows == if ok then old(rows)[jti := Row(user, expiresAt, false)] else old(rows)
    {
      ok := jti !in rows;
      if ok {
        rows := rows[jti := Row(user, expiresAt, false)];
      }
    }

    method FindByJti(jti: Jti) returns (row: Option<Row>)
      ensures row == if jti in rows then Some(rows[jti]) else None
    {
      if jti in rows {
        row := Some(rows[jti]);
      } else {
        row := None;
      }
    }

    method RevokeIfActive(jti: Jti) returns (rotated: bool)
      modifies this
      ensures rotated == IsActive(old(rows), jti)
      ensures rows == if rotated then RevokeOne(old(rows), jti) else old(rows)
    {
      rotated := jti in rows && !rows[jti].revoked;
      if rotated {
        rows := rows[jti := rows[jti].(revoked := true)];
      }
    }

    method RevokeAllForUser(user: int)
      modifies this
      ensures rows == RevokeAll(old(rows), user)
      ensures forall j :: IsActive(rows, j) ==> IsActive(old(rows), j) && rows[j].user != user
    {
      rows := map j | j in rows ::
        if rows[j].user == user && !rows[j].revoked then rows[j].(revoked := true) else rows[j];
    }

    method DeleteExpired(asOf: int) returns (removed: nat)
      modifies this
      ensures rows == WithoutExpired(old(rows), asOf)
      ensures removed == |old(rows)| - |rows|
    {
      var kept := map j | j in rows && rows[j].expiresAt > asOf :: rows[j];
      assert kept.Keys <= rows.Keys;
      assert |rows.Keys| == |kept.Keys| + |rows.Keys - kept.Keys|;
      removed := |rows.Keys| - |kept.Keys|;
      rows := kept;
    }
  }

  /** What a call reports to its client. */
  datatype Outcome = Minted(token: Token) | Denied(why: GuardResult) | ReuseDetected

  /** One refresh: the guard, then the rotation, with nothing in between. */
  function RefreshOutcome(rows: Rows, token: Token, now: int, userActive: bool, newJti: Jti, lifetime: nat): Outcome {
    var g := GuardDecision(rows, token, now, userActive);
    if g == Accepted then Minted(SignedToken(token.user, newJti, now, lifetime)) else Denied(g)
  }

  function RefreshRows(rows: Rows, token: Token, now: int, userActive: bool, newJti: Jti, issuedAt: int,
                       lifetime: nat): Rows {
    match GuardDecision(rows, token, now, userActive)
    case Reused => RevokeAll(rows, rows[token.jti].user)
    case Accepted => RevokeOne(rows, token.jti)[newJti := IssuedRow(token.user, issuedAt, lifetime)]
    case _ => rows
  }

  /** What a refresh reports, each answer exactly when it is due, without naming the guard. */
  lemma RefreshReportsExactly(rows: Rows, token: Token, now: int, userActive: bool, newJti: Jti, lifetime: nat)
    ensures var outcome := RefreshOutcome(rows, token, now, userActive, newJti, lifetime);
            var signatureHolds, known := now / 1000 < token.exp, token.jti in rows;
            && (outcome == Denied(TokenExpired) <==> !signatureHolds)
            && (outcome == Denied(Unknown) <==> signatureHolds && !known)
            && (outcome == Denied(Reused) <==> signatureHolds && known && rows[token.jti].revoked)
            && (outcome == Denied(RowExpired) <==>
                  signatureHolds && known && !rows[token.jti].revoked && rows[token.jti].expiresAt <= now)
            && (outcome == Denied(UserInactive) <==>
                  && signatureHolds && known && !rows[token.jti].revoked && now < rows[token.jti].expiresAt
                  && !userActive)
            && (outcome.Minted? <==>
                  && signatureHolds && known && !rows[token.jti].revoked && now < rows[token.jti].expiresAt
                  && userActive)
            && (outcome.Minted? ==> outcome.token == Token(token.user, newJti, now / 1000 + lifetime))
  {
  }

  /** And what it leaves behind: a rotation, the revocation of the family, or nothing. */
  lemma RefreshLeavesExactly(rows: Rows, token: Token, now: int, userActive: bool, newJti: Jti, at: int, lifetime: nat)
    requires newJti !in rows
    ensures var outcome := RefreshOutcome(rows, token, now, userActive, newJti, lifetime);
            var after := RefreshRows(rows, token, now, userActive, newJti, at, lifetime);
            && (outcome.Minted? ==>
                  && after.Keys == rows.Keys + {newJti}
                  && after[newJti] == Row(token.user, at + 1000 * lifetime, false)
                  && after[token.jti] == rows[token.jti].(revoked := true)
                  && forall j :: j in rows && j != token.jti ==> after[j] == rows[j])
            && (outcome == Denied(Reused) ==>
                  && after.Keys == rows.Keys
                  && forall j :: j in rows ==>
                       after[j] == if rows[j].user == rows[token.jti].user then rows[j].(revoked := true) else rows[j])
            && (!outcome.Minted? && outcome != Denied(Reused) ==> after == rows)
  {
    RefreshReportsExactly(rows, token, now, userActive, newJti, lifetime);
  }

  class AuthService {
    const ledger: RefreshTokenLedger
    const lifetime: nat

    constructor (ledger: RefreshTokenLedger, lifetime: nat)
      ensures this.ledger == ledger && this.lifetime == lifetime
    {
      this.ledger := ledger;
      this.lifetime := lifetime;
    }

    /** `validate`: a revoked token revokes the whole family before it is refused. */
    method Validate(token: Token, now: int, userActive: bool) returns (g: GuardResult)
      modifies ledger
      ensures g == GuardDecision(old(ledger.rows), token, now, userActive)
      ensures ledger.rows == if g == Reused then RevokeAll(old(ledger.rows), old(ledger.rows)[token.jti].user)
                             else old(ledger.rows)
    {
      if now / 1000 >= token.exp {
        return TokenExpired;
      }
      var row := ledger.FindByJti(token.jti);
      if row.None? {
        return Unknown;
      }
      if row.value.revoked {
        ledger.RevokeAllForUser(row.value.user);
        return Reused;
      }
      if row.value.expiresAt <= now {
        return RowExpired;
      }
      if !userActive {
        return UserInactive;
      }
      return Accepted;
    }

    /** `refresh` after the guard: rotate the presented token or, having lost the race, revoke the family. */
    method Refresh(user: int, jti: Jti, now: int, newJti: Jti, issuedAt: int) returns (token: Option<Token>)
      requires newJti !in ledger.rows
      modifies ledger
      ensures IsActive(old(ledger.rows), jti) ==>
                && token == Some(SignedToken(user, newJti, now, lifetime))
                && ledger.rows == RevokeOne(old(ledger.rows), jti)[newJti := IssuedRow(user, issuedAt, lifetime)]
      ensures !IsActive(old(ledger.rows), jti) ==>
                token == None && ledger.rows == RevokeAll(old(ledger.rows), user)
    {
      var rotated := ledger.RevokeIfActive(jti);
      if !rotated {
        ledger.RevokeAllForUser(user);
        return None;
      }
      var signed := SignTokens(user, now, newJti, issuedAt);
      return Some(signed);
    }

    method SignTokens(user: int, now: int, newJti: Jti, issuedAt: int) returns (token: Token)
      requires newJti !in ledger.rows
      modifies ledger
      ensures token == SignedToken(user, newJti, now, lifetime)
      ensures ledger.rows == old(ledger.rows)[newJti := IssuedRow(user, issuedAt, lifetime)]
    {
      token := Token(user, newJti, now / 1000 + lifetime);
      var ok := ledger.Issue(user, newJti, issuedAt + lifetime * 1000);
    }

    /** The guarded endpoint: validate, then refresh. */
    method RefreshEndpoint(token: Token, now: int, userActive: bool, newJti: Jti, issuedAt: int)
      returns (outcome: Outcome)
      requires newJti !in ledger.rows
      modifies ledger
      ensures outcome == RefreshOutcome(old(ledger.rows), token, now, userActive, newJti, lifetime)
      ensures ledger.rows == RefreshRows(old(ledger.rows), token, now, userActive, newJti, issuedAt, lifetime)
    {
      var g := Validate(token, now, userActive);
      if g != Accepted {
        return Denied(g);
      }
      var signed := Refresh(token.user, token.jti, now, newJti, issuedAt);
      if signed.None? {
        return ReuseDetected;
      }
      return Minted(signed.value);
    }

    method Login(user: int, now: int, newJti: Jti, issuedAt: int) returns (token: Token)
      requires newJti !in ledger.rows
      modifies ledger
      ensures token == SignedToken(user, newJti, now, lifetime)
      ensures ledger.rows
              == WithoutExpired(old(ledger.rows)[newJti := IssuedRow(user, issuedAt, lifetime)], issuedAt)
    {
      token := SignTokens(user, now, newJti, issuedAt);
      var removed := ledger.DeleteExpired(issuedAt);
    }

    method Logout(user: int)
      modifies ledger
      ensures ledger.rows == RevokeAll(old(ledger.rows), user)
    {
      ledger.RevokeAllForUser(user);
    }
  }

  // ----- pruning -----

  datatype Call =
    | LoginCall(user: int, newJti: Jti, signedAt: int, at: int)
    | RefreshCall(token: Token, now: int, userActive: bool, newJti: Jti, at: int)
    | LogoutCall(user: int, at: int)
    | PruneCall(asOf: int, at: int)

  /** The ledger, the tokens handed out so far, the clock, and what each call but a prune reported. */
  datatype World = World(rows: Rows, minted: set<Token>, clock: int, outcomes: seq<Outcome>)

  /**
   * The clock never runs backwards, presented tokens were handed out by this
   * service, and a new `jti` is new.
   */
  predicate Possible(w: World, call: Call) {
    match call
    case LoginCall(_, newJti, signedAt, at) => w.clock <= signedAt <= at && FreshJti(w, newJti)
    case RefreshCall(token, now, _, newJti, at) => w.clock <= now <= at && token in w.minted && FreshJti(w, newJti)
    case LogoutCall(_, at) => w.clock <= at
    case PruneCall(asOf, at) => w.clock <= at && asOf <= at
  }

  predicate FreshJti(w: World, newJti: Jti) {
    forall t :: t in w.minted ==> t.jti != newJti
  }

  function Serve(w: World, call: Call, lifetime: nat): World {
    match call
    case LoginCall(user, newJti, signedAt, at) =>
      var token := SignedToken(user, newJti, signedAt, lifetime);
      World(w.rows[newJti := IssuedRow(user, at, lifetime)], w.minted + {token}, at, w.outcomes + [Minted(token)])
    case RefreshCall(token, now, userActive, newJti, at) =>
      var outcome := RefreshOutcome(w.rows, token, now, userActive, newJti, lifetime);
      World(RefreshRows(w.rows, token, now, userActive, newJti, at, lifetime),
            w.minted + (if outcome.Minted? then {outcome.token} else {}), at, w.outcomes + [outcome])
    case LogoutCall(user, at) => World(RevokeAll(w.rows, user), w.minted, at, w.outcomes)
    case PruneCall(asOf, at) => World(WithoutExpired(w.rows, asOf), w.minted, at, w.outcomes)
  }

  /** Every login and every refresh reports, a login the token it issued. */
  lemma EveryCallReports(w: World, call: Call, lifetime: nat)
    ensures Serve(w, call, lifetime).outcomes
            == w.outcomes
               + match call
                 case LoginCall(user, newJti, signedAt, _) => [Minted(Token(user, newJti, signedAt / 1000 + lifetime))]
                 case RefreshCall(token, now, userActive, newJti, _) =>
                   [RefreshOutcome(w.rows, token, now, userActive, newJti, lifetime)]
                 case _ => []
  {
  }

  function ServeAll(w: World, calls: seq<Call>, lifetime: nat): Option<World> {
    if calls == [] then Some(w)
    else
      var before := ServeAll(w, calls[..|calls| - 1], lifetime);
      var call := calls[|calls| - 1];
      if before.Some? && Possible(before.value, call) then Some(Serve(before.value, call, lifetime)) else None
  }

  function WithoutPrunes(calls: seq<Call>): seq<Call> {
    if calls == [] then []
    else
      var call := calls[|calls| - 1];
      WithoutPrunes(calls[..|calls| - 1]) + (if call.PruneCall? then [] else [call])
  }

  /** A handed-out token never outlives its ledger row. */
  predicate RowsOutliveTokens(w: World) {
    && (forall t :: t in w.minted ==>
          t.jti in w.rows && w.rows[t.jti].user == t.user && t.exp * 1000 <= w.rows[t.jti].expiresAt)
    && (forall j :: j in w.rows ==> exists t :: t in w.minted && t.jti == j)
  }

  /** The pruned world lacks only rows that have already expired. */
  predicate PrunedFrom(full: World, pruned: World) {
    && full.minted == pruned.minted
    && full.outcomes == pruned.outcomes
    && full.clock <= pruned.clock
    && (forall j :: j in pruned.rows ==> j in full.rows && pruned.rows[j] == full.rows[j])
    && (forall j :: j in full.rows && j !in pruned.rows ==> full.rows[j].expiresAt <= pruned.clock)
  }

  lemma ServeKeepsRows(w: World, call: Call, lifetime: nat)
    requires RowsOutliveTokens(w) && Possible(w, call) && !call.PruneCall?
    ensures RowsOutliveTokens(Serve(w, call, lifetime))
  {
  }

  lemma ServeBoth(full: World, pruned: World, call: Call, lifetime: nat)
    requires RowsOutliveTokens(full) && PrunedFrom(full, pruned)
    requires Possible(pruned, call) && !call.PruneCall?
    ensures Possible(full, call)
    ensures PrunedFrom(Serve(full, call, lifetime), Serve(pruned, call, lifetime))
  {
  }

  /**
   * Pruning is invisible: a run with prunes anywhere reports, call by call,
   * exactly what the same run without them reports.
   */
  lemma {:induction false} PruningIsInvisible(w: World, calls: seq<Call>, lifetime: nat)
    requires RowsOutliveTokens(w)
    requires ServeAll(w, calls, lifetime).Some?
    ensures ServeAll(w, WithoutPrunes(calls), lifetime).Some?
    ensures var full, pruned := ServeAll(w, WithoutPrunes(calls), lifetime).value, ServeAll(w, calls, lifetime).value;
            RowsOutliveTokens(full) && PrunedFrom(full, pruned) && full.outcomes == pruned.outcomes
  {
    if calls != [] {
      var init, call := calls[..|calls| - 1], calls[|calls| - 1];
      PruningIsInvisible(w, init, lifetime);
      var full, pruned := ServeAll(w, WithoutPrunes(init), lifetime).value, ServeAll(w, init, lifetime).value;
      if !call.PruneCall? {
        assert WithoutPrunes(calls)[..|WithoutPrunes(init)|] == WithoutPrunes(init);
        ServeBoth(full, pruned, call, lifetime);
        ServeKeepsRows(full, call, lifetime);
      } else {
        assert WithoutPrunes(calls) == WithoutPrunes(init);
      }
    }
  }
}
