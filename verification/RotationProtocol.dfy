/**
 * Refresh-token rotation under concurrency: one-time tokens with reuse
 * detection, the scheme of section 4.14.2 of RFC 9700. Logins and refreshes are
 * handlers whose database calls interleave: a refresh checks the ledger, later
 * revokes the presented token atomically, and later still, outside any
 * transaction, issues the new row; logouts, family revocations, prunes and
 * crashes may fall anywhere between.
 */
module RotationProtocol {
  import opened Prelude
  import opened RefreshTokens

  type Session = nat
  type Handler = nat

  /** What a request in flight does next. */
  datatype Pending =
    | ToRotate(user: int, jti: Jti)
    | ToKillFamily(user: int)
    | ToIssue(user: int, session: Session)

  /**
   * `sessions` remembers, for every token ever issued, the login it descends
   * from and `exps` the `exp` it carries; `logins` the user of each login;
   * `rotated` the successful rotations in order. The service stores none of the
   * four.
   */
  datatype State = State(
    rows: Rows,
    sessions: map<Jti, Session>,
    exps: map<Jti, int>,
    logins: map<Session, int>,
    pending: map<Handler, Pending>,
    rotated: seq<Jti>)

  function UserOf(s: State, jti: Jti): int
    requires jti in s.sessions && s.sessions[jti] in s.logins
  {
    s.logins[s.sessions[jti]]
  }

  datatype Event =
    | Login(handler: Handler, user: int, session: Session)
    | Guard(handler: Handler, jti: Jti, now: int, userActive: bool)
    | Rotate(handler: Handler)
    | KillFamily(handler: Handler)
    | Issue(handler: Handler, newJti: Jti, expiresAt: int, exp: int)
    | Crash(handler: Handler)
    | Logout(user: int)
    | Prune(asOf: int)

  /** Presented tokens are unforgeable: only an issued `jti` reaches the guard. No row ends before its token. */
  predicate Enabled(s: State, e: Event) {
    match e
    case Login(h, _, session) => h !in s.pending && session !in s.logins
    case Guard(h, jti, _, _) =>
      h !in s.pending && jti in s.sessions && s.sessions[jti] in s.logins && jti in s.exps
    case Rotate(h) => h in s.pending && s.pending[h].ToRotate?
    case KillFamily(h) => h in s.pending && s.pending[h].ToKillFamily?
    case Issue(h, newJti, expiresAt, exp) =>
      h in s.pending && s.pending[h].ToIssue? && newJti !in s.sessions && exp * 1000 <= expiresAt
    case Crash(h) => h in s.pending
    case Logout(_) => true
    case Prune(_) => true
  }

  /** What the guard says about a presented token. */
  function Judged(s: State, jti: Jti, now: int, userActive: bool): GuardResult
    requires jti in s.sessions && s.sessions[jti] in s.logins && jti in s.exps
  {
    GuardDecision(s.rows, Token(UserOf(s, jti), jti, s.exps[jti]), now, userActive)
  }

  function Step(s: State, e: Event): State
    requires Enabled(s, e)
  {
    match e
    case Login(h, user, session) =>
      s.(logins := s.logins[session := user], pending := s.pending[h := ToIssue(user, session)])
    case Guard(h, jti, now, userActive) =>
      match Judged(s, jti, now, userActive) {
        case Reused => s.(pending := s.pending[h := ToKillFamily(s.rows[jti].user)])
        case Accepted => s.(pending := s.pending[h := ToRotate(UserOf(s, jti), jti)])
        case _ => s
      }
    case Rotate(h) =>
      var p := s.pending[h];
      if IsActive(s.rows, p.jti) && p.jti in s.sessions then
        s.(rows := RevokeOne(s.rows, p.jti), rotated := s.rotated + [p.jti],
           pending := s.pending[h := ToIssue(p.user, s.sessions[p.jti])])
      else s.(pending := s.pending[h := ToKillFamily(p.user)])
    case KillFamily(h) =>
      s.(rows := RevokeAll(s.rows, s.pending[h].user), pending := s.pending - {h})
    case Issue(h, newJti, expiresAt, exp) =>
      var p := s.pending[h];
      s.(rows := s.rows[newJti := Row(p.user, expiresAt, false)], sessions := s.sessions[newJti := p.session],
         exps := s.exps[newJti := exp], pending := s.pending - {h})
    case Crash(h) => s.(pending := s.pending - {h})
    case Logout(user) => s.(rows := RevokeAll(s.rows, user))
    case Prune(asOf) => s.(rows := WithoutExpired(s.rows, asOf))
  }

  function Run(s: State, events: seq<Event>): Option<State> {
    if events == [] then Some(s)
    else
      var before := Run(s, events[..|events| - 1]);
      var e := events[|events| - 1];
      if before.Some? && Enabled(before.value, e) then Some(Step(before.value, e)) else None
  }

  const EMPTY := State(map[], map[], map[], map[], map[], [])

  /** A live holder of a session: an active row, or a handler about to issue one. */
  datatype Holder = RowHolder(jti: Jti) | MintHolder(handler: Handler)

  predicate Holds(s: State, h: Holder, session: Session) {
    match h
    case RowHolder(jti) => IsActive(s.rows, jti) && jti in s.sessions && s.sessions[jti] == session
    case MintHolder(handler) =>
      handler in s.pending && s.pending[handler].ToIssue? && s.pending[handler].session == session
  }

  /** Every row belongs to an issued token of its user and never ends before the token does. */
  ghost predicate RowsFit(s: State) {
    forall j :: j in s.rows ==>
      && j in s.sessions && s.sessions[j] in s.logins && s.rows[j].user == UserOf(s, j)
      && j in s.exps && s.exps[j] * 1000 <= s.rows[j].expiresAt
  }

  ghost predicate PendingFits(s: State) {
    forall h :: h in s.pending ==>
      match s.pending[h]
      case ToIssue(user, session) => session in s.logins && s.logins[session] == user
      case ToRotate(user, jti) => jti in s.sessions && s.sessions[jti] in s.logins && user == UserOf(s, jti)
      case ToKillFamily(_) => true
  }

  ghost predicate WellFormed(s: State) {
    && (forall j :: j in s.sessions ==> s.sessions[j] in s.logins)
    && RowsFit(s)
    && PendingFits(s)
  }

  /** No login session ever has two live holders. */
  ghost predicate NeverForked(s: State) {
    forall a, b, session :: Holds(s, a, session) && Holds(s, b, session) ==> a == b
  }

  ghost predicate RotatesOnce(s: State) {
    && Distinct(s.rotated)
    && (forall i :: 0 <= i < |s.rotated| ==> s.rotated[i] in s.sessions && !IsActive(s.rows, s.rotated[i]))
  }

  ghost predicate Inv(s: State) {
    WellFormed(s) && NeverForked(s) && RotatesOnce(s)
  }

  lemma StepKeepsRows(s: State, e: Event)
    requires WellFormed(s) && Enabled(s, e)
    ensures RowsFit(Step(s, e))
  {
    hide PendingFits, GuardDecision;
    if e.Issue? {
      assert PendingFits(s) && s.logins[s.pending[e.handler].session] == s.pending[e.handler].user by {
        IssuerFits(s, e.handler);
      }
    }
  }

  lemma IssuerFits(s: State, h: Handler)
    requires PendingFits(s) && h in s.pending && s.pending[h].ToIssue?
    ensures s.pending[h].session in s.logins && s.logins[s.pending[h].session] == s.pending[h].user
  {
  }

  lemma StepKeepsPending(s: State, e: Event)
    requires WellFormed(s) && Enabled(s, e)
    ensures PendingFits(Step(s, e))
  {
  }

  lemma StepStaysWellFormed(s: State, e: Event)
    requires WellFormed(s) && Enabled(s, e)
    ensures WellFormed(Step(s, e))
  {
    StepKeepsRows(s, e);
    StepKeepsPending(s, e);
    hide RowsFit;
  }

  /** A step passes each session on: whoever holds it afterwards was handed it by the one who held it before. */
  lemma HoldersDescend(s: State, e: Event, h: Holder, session: Session)
    requires WellFormed(s) && Enabled(s, e)
    requires Holds(Step(s, e), h, session)
    ensures || Holds(s, h, session)
            || (e.Login? && session == e.session && h == MintHolder(e.handler))
            || (e.Rotate? && h == MintHolder(e.handler) && s.pending[e.handler].ToRotate?
                && Holds(s, RowHolder(s.pending[e.handler].jti), session)
                && !Holds(Step(s, e), RowHolder(s.pending[e.handler].jti), session))
            || (e.Issue? && h == RowHolder(e.newJti) && Holds(s, MintHolder(e.handler), session)
                && !Holds(Step(s, e), MintHolder(e.handler), session))
  {
  }

  lemma StepNeverForks(s: State, e: Event)
    requires Inv(s) && Enabled(s, e)
    ensures NeverForked(Step(s, e))
  {
    var after := Step(s, e);
    forall a, b, session | Holds(after, a, session) && Holds(after, b, session)
      ensures a == b
    {
      HoldersDescend(s, e, a, session);
      HoldersDescend(s, e, b, session);
      if e.Login? && session == e.session {
        assert !Holds(s, a, session) && !Holds(s, b, session);
      }
    }
  }

  lemma StepRotatesOnce(s: State, e: Event)
    requires Inv(s) && Enabled(s, e)
    ensures RotatesOnce(Step(s, e))
  {
  }

  lemma {:induction false} RunKeepsInv(s: State, events: seq<Event>)
    requires Inv(s)
    ensures Run(s, events).Some? ==> Inv(Run(s, events).value)
  {
    if events != [] {
      RunKeepsInv(s, events[..|events| - 1]);
      if Run(s, events).Some? {
        var before := Run(s, events[..|events| - 1]).value;
        StepStaysWellFormed(before, events[|events| - 1]);
        StepNeverForks(before, events[|events| - 1]);
        StepRotatesOnce(before, events[|events| - 1]);
      }
    }
  }

  function ActiveRowsOf(s: State, user: int): set<Holder> {
    set j | j in s.rows && !s.rows[j].revoked && s.rows[j].user == user :: RowHolder(j)
  }

  /** The requests of `user` between their revoke (or their password check) and their issue. */
  function MintingFor(s: State, user: int): set<Holder> {
    set h | h in s.pending && s.pending[h].ToIssue? && s.pending[h].user == user :: MintHolder(h)
  }

  function LoginsOf(s: State, user: int): set<Session> {
    set x | x in s.logins && s.logins[x] == user
  }

  function SessionOf(s: State, h: Holder): Session {
    match h
    case RowHolder(j) => if j in s.sessions then s.sessions[j] else 0
    case MintHolder(x) => if x in s.pending && s.pending[x].ToIssue? then s.pending[x].session else 0
  }

  /**
   * Rotation never forks: in every reachable state, a user's active ledger rows
   * together with that user's requests still to issue one are no more than that
   * user's logins, and each token was rotated at most once.
   */
  lemma RotationNeverForks(events: seq<Event>, user: int)
    requires Run(EMPTY, events).Some?
    ensures var s := Run(EMPTY, events).value;
            |ActiveRowsOf(s, user)| + |MintingFor(s, user)| <= |LoginsOf(s, user)| && Distinct(s.rotated)
  {
    RunKeepsInv(EMPTY, events);
    var s := Run(EMPTY, events).value;
    var (rows, mints) := (ActiveRowsOf(s, user), MintingFor(s, user));
    var image := map h | h in rows + mints :: SessionOf(s, h);
    forall h | h in rows + mints
      ensures Holds(s, h, image[h]) && image[h] in LoginsOf(s, user)
    {
    }
    assert rows !! mints;
    InjectionBound(rows + mints, image, LoginsOf(s, user));
  }

  /** Every token of `user` issued so far is inactive: what a revocation of all of them establishes. */
  predicate AllDead(s: State, jtis: set<Jti>) {
    forall j :: j in jtis ==> j in s.sessions && !IsActive(s.rows, j)
  }

  function IssuedTo(s: State, user: int): set<Jti> {
    set j | j in s.sessions && s.sessions[j] in s.logins && s.logins[s.sessions[j]] == user
  }

  lemma RevokingAllKills(s: State, e: Event, user: int)
    requires Inv(s) && Enabled(s, e)
    requires e == Logout(user) || (e.KillFamily? && s.pending[e.handler].user == user)
    ensures AllDead(Step(s, e), IssuedTo(s, user)) && IssuedTo(Step(s, e), user) == IssuedTo(s, user)
  {
  }

  lemma DeadStayDead(s: State, dead: set<Jti>, e: Event)
    requires AllDead(s, dead) && Enabled(s, e)
    ensures AllDead(Step(s, e), dead)
    ensures Step(s, e).rotated == s.rotated
            || exists j :: j !in dead && Step(s, e).rotated == s.rotated + [j]
  {
  }

  /** The dead stay dead: no token that existed when its user's tokens were revoked ever rotates again. */
  lemma {:induction false} RevokedTokensNeverRotate(s: State, dead: set<Jti>, events: seq<Event>)
    requires AllDead(s, dead)
    requires Run(s, events).Some?
    ensures AllDead(Run(s, events).value, dead)
    ensures var rotated := Run(s, events).value.rotated;
            |s.rotated| <= |rotated| && forall i :: |s.rotated| <= i < |rotated| ==> rotated[i] !in dead
  {
    if events != [] {
      RevokedTokensNeverRotate(s, dead, events[..|events| - 1]);
      DeadStayDead(Run(s, events[..|events| - 1]).value, dead, events[|events| - 1]);
    }
  }

  predicate SignedOut(s: State, user: int) {
    && (forall j :: j in s.rows && s.rows[j].user == user ==> s.rows[j].revoked)
    && (forall h :: h in s.pending && s.pending[h].ToIssue? ==> s.pending[h].user != user)
  }

  predicate NoLoginOf(events: seq<Event>, user: int) {
    forall i :: 0 <= i < |events| && events[i].Login? ==> events[i].user != user
  }

  lemma SignedOutStep(s: State, e: Event, user: int)
    requires WellFormed(s) && SignedOut(s, user) && Enabled(s, e)
    requires e.Login? ==> e.user != user
    ensures SignedOut(Step(s, e), user)
  {
  }

  /** A logout that finds none of the user's tokens being minted lasts until the user logs in again. */
  lemma {:induction false} LogoutLasts(s: State, user: int, events: seq<Event>)
    requires WellFormed(s) && SignedOut(s, user)
    requires NoLoginOf(events, user) && Run(s, events).Some?
    ensures WellFormed(Run(s, events).value) && SignedOut(Run(s, events).value, user)
  {
    if events != [] {
      var init := events[..|events| - 1];
      LogoutLasts(s, user, init);
      StepStaysWellFormed(Run(s, init).value, events[|events| - 1]);
      SignedOutStep(Run(s, init).value, events[|events| - 1], user);
    }
  }

  /**
   * Exactly when a logout lasts: some later run without a login leaves the user
   * an active row if and only if one of the user's tokens was being minted,
   * after its revoke and before its issue, when the logout ran.
   */
  lemma LogoutLastsUnlessMinting(s: State, user: int)
    requires Inv(s)
    ensures (exists events ::
               && NoLoginOf(events, user) && Run(Step(s, Logout(user)), events).Some?
               && ActiveRowsOf(Run(Step(s, Logout(user)), events).value, user) != {})
            <==> MintingFor(s, user) != {}
  {
    var out := Step(s, Logout(user));
    StepStaysWellFormed(s, Logout(user));
    if MintingFor(s, user) != {} {
      var holder :| holder in MintingFor(s, user);
      var h := holder.handler;
      var newJti := Unused(s.sessions.Keys);
      assert newJti !in s.sessions.Keys;
      var e := Issue(h, newJti, 0, 0);
      assert Run(out, []) == Some(out);
      assert [e][..0] == [];
      assert Run(out, [e]) == Some(Step(out, e));
      assert RowHolder(newJti) in ActiveRowsOf(Step(out, e), user);
      assert NoLoginOf([e], user);
    } else {
      assert forall h :: h in s.pending && s.pending[h].ToIssue? && s.pending[h].user == user
                         ==> MintHolder(h) in MintingFor(s, user);
      forall events | NoLoginOf(events, user) && Run(out, events).Some?
        ensures ActiveRowsOf(Run(out, events).value, user) == {}
      {
        LogoutLasts(out, user, events);
      }
    }
  }

  lemma {:induction false} Unused(jtis: set<Jti>) returns (j: Jti)
    ensures forall i :: i in jtis ==> i < j
  {
    j := 0;
    if jtis != {} {
      var some :| some in jtis;
      var bound := Unused(jtis - {some});
      j := if some < bound then bound else some + 1;
      assert forall i :: i in jtis ==> i == some || i in jtis - {some};
    }
  }

  // ----- what a rotation rests on -----

  /** What each step leaves its handler to do: reuse and lost races go on to revoke the family, nothing acts twice. */
  lemma HandlersMoveOn(s: State, e: Event)
    requires Enabled(s, e)
    ensures match e
            case Guard(h, jti, now, userActive) =>
              var asked := now / 1000 < s.exps[jti] && jti in s.rows;
              if asked && s.rows[jti].revoked then
                Step(s, e) == s.(pending := s.pending[h := ToKillFamily(s.rows[jti].user)])
              else if asked && now < s.rows[jti].expiresAt && userActive then
                Step(s, e) == s.(pending := s.pending[h := ToRotate(s.logins[s.sessions[jti]], jti)])
              else Step(s, e) == s
            case Rotate(h) =>
              var (user, jti) := (s.pending[h].user, s.pending[h].jti);
              Step(s, e).pending == s.pending[h := if jti in s.rows && !s.rows[jti].revoked && jti in s.sessions
                                                   then ToIssue(user, s.sessions[jti]) else ToKillFamily(user)]
            case Login(h, user, session) => Step(s, e).pending == s.pending[h := ToIssue(user, session)]
            case Logout(_) => Step(s, e).pending == s.pending
            case Prune(_) => Step(s, e).pending == s.pending
            case _ => Step(s, e).pending == s.pending - {e.handler}
  {
  }

  /** The k-th step was the guard that let the handler through: a live token of an active user. */
  ghost predicate PassedAt(s: State, events: seq<Event>, h: Handler, jti: Jti, k: nat)
    requires k < |events|
  {
    var e, before := events[k], Run(s, events[..k]);
    && e.Guard? && e.handler == h && e.jti == jti && e.userActive
    && before.Some? && jti in before.value.rows && !before.value.rows[jti].revoked
    && e.now < before.value.rows[jti].expiresAt
    && jti in before.value.exps && e.now / 1000 < before.value.exps[jti]
  }

  lemma OnlyGuardsLetThrough(s: State, e: Event, h: Handler)
    requires Enabled(s, e) && h in Step(s, e).pending && Step(s, e).pending[h].ToRotate?
    requires h !in s.pending || s.pending[h] != Step(s, e).pending[h]
    ensures e.Guard? && e.handler == h && e.jti == Step(s, e).pending[h].jti && e.userActive
    ensures e.jti in s.rows && !s.rows[e.jti].revoked && e.now < s.rows[e.jti].expiresAt
    ensures e.jti in s.exps && e.now / 1000 < s.exps[e.jti]
  {
  }

  /** Over every run, whoever is about to rotate a token has passed such a guard with it. */
  lemma {:induction false} RotatorsWereGuarded(events: seq<Event>, h: Handler)
    requires Run(EMPTY, events).Some?
    requires h in Run(EMPTY, events).value.pending && Run(EMPTY, events).value.pending[h].ToRotate?
    ensures exists k :: 0 <= k < |events| && PassedAt(EMPTY, events, h, Run(EMPTY, events).value.pending[h].jti, k)
  {
    var n := |events| - 1;
    var init, last := events[..n], events[n];
    var before, after := Run(EMPTY, init).value, Run(EMPTY, events).value;
    assert Enabled(before, last) && after == Step(before, last);
    hide Step, Enabled;
    if h in before.pending && before.pending[h] == after.pending[h] {
      RotatorsWereGuarded(init, h);
      var k :| 0 <= k < n && PassedAt(EMPTY, init, h, after.pending[h].jti, k);
      assert init[..k] == events[..k] && init[k] == events[k];
      assert PassedAt(EMPTY, events, h, after.pending[h].jti, k);
    } else {
      OnlyGuardsLetThrough(before, last, h);
      assert PassedAt(EMPTY, events, h, after.pending[h].jti, n);
    }
  }

  // ----- what a prune changes -----

  /** What the caller of one step is told. */
  datatype Report = Verdict(result: GuardResult) | RotationDone | ReuseReported | NothingSaid

  function ReportOf(s: State, e: Event): Report
    requires Enabled(s, e)
  {
    match e
    case Guard(_, jti, now, userActive) => Verdict(Judged(s, jti, now, userActive))
    case Rotate(h) => if Step(s, e).pending[h].ToIssue? then RotationDone else ReuseReported
    case _ => NothingSaid
  }

  /**
   * Between the guard and the rotation: an accepted, active token still rotates
   * after a prune exactly when its row has not expired by then; otherwise reuse
   * is reported and the user's whole family is revoked.
   */
  lemma PruneBetweenGuardAndRotation(s: State, h: Handler, asOf: int)
    requires WellFormed(s) && h in s.pending && s.pending[h].ToRotate? && IsActive(s.rows, s.pending[h].jti)
    ensures ReportOf(s, Rotate(h)) == RotationDone
    ensures var pruned := Step(s, Prune(asOf));
            && (ReportOf(pruned, Rotate(h)) == RotationDone <==> asOf < s.rows[s.pending[h].jti].expiresAt)
            && (ReportOf(pruned, Rotate(h)) != RotationDone ==>
                  ActiveRowsOf(Step(Step(pruned, Rotate(h)), KillFamily(h)), s.pending[h].user) == {})
  {
  }

  /** The tokens whose rows a prune deletes. */
  function Reached(s: State, asOf: int): set<Jti> {
    set j | j in s.rows && s.rows[j].expiresAt <= asOf
  }

  /** The same run with and without the prune: only the rows it reached are missing. */
  ghost predicate DiffersBy(full: State, pruned: State, gone: set<Jti>, asOf: int) {
    && pruned.sessions == full.sessions && pruned.exps == full.exps && pruned.logins == full.logins
    && pruned.pending == full.pending && pruned.rotated == full.rotated
    && (forall j :: j in pruned.rows <==> j in full.rows && j !in gone)
    && (forall j :: j in pruned.rows ==> pruned.rows[j] == full.rows[j])
    && (forall j :: j in gone ==> j in full.sessions)
    && (forall j :: j in gone && j in full.rows ==> full.rows[j].expiresAt <= asOf)
  }

  /** A rotation of an accepted token whose row is still active, but which the prune reached. */
  predicate RotatesReached(s: State, gone: set<Jti>, e: Event) {
    && e.Rotate? && e.handler in s.pending && s.pending[e.handler].ToRotate?
    && s.pending[e.handler].jti in gone && IsActive(s.rows, s.pending[e.handler].jti)
  }

  /** The guard says the same of every token. */
  lemma SameVerdict(full: State, pruned: State, gone: set<Jti>, asOf: int, jti: Jti, now: int, userActive: bool)
    requires WellFormed(full) && DiffersBy(full, pruned, gone, asOf) && asOf <= now
    requires jti in full.sessions && full.sessions[jti] in full.logins && jti in full.exps
    ensures Judged(full, jti, now, userActive) == Judged(pruned, jti, now, userActive)
    ensures Judged(full, jti, now, userActive).Accepted? ==> jti !in gone
  {
  }

  lemma GuardBoth(full: State, pruned: State, gone: set<Jti>, asOf: int, e: Event)
    requires WellFormed(full) && DiffersBy(full, pruned, gone, asOf) && Enabled(full, e) && e.Guard? && asOf <= e.now
    ensures Enabled(pruned, e) && ReportOf(full, e) == ReportOf(pruned, e)
    ensures DiffersBy(Step(full, e), Step(pruned, e), gone, asOf)
  {
    SameVerdict(full, pruned, gone, asOf, e.jti, e.now, e.userActive);
    assert Judged(full, e.jti, e.now, e.userActive).Reused? ==> e.jti in full.rows && e.jti in pruned.rows;
    hide Judged, GuardDecision, WellFormed;
  }

  lemma RotateBoth(full: State, pruned: State, gone: set<Jti>, asOf: int, e: Event)
    requires WellFormed(full) && DiffersBy(full, pruned, gone, asOf) && Enabled(full, e) && e.Rotate?
    ensures Enabled(pruned, e)
    ensures ReportOf(full, e) == ReportOf(pruned, e) <==> !RotatesReached(full, gone, e)
    ensures !RotatesReached(full, gone, e) ==> DiffersBy(Step(full, e), Step(pruned, e), gone, asOf)
  {
  }

  /** One step of both runs; the clock does not run back behind the prune. */
  lemma StepBoth(full: State, pruned: State, gone: set<Jti>, asOf: int, e: Event)
    requires WellFormed(full) && DiffersBy(full, pruned, gone, asOf) && Enabled(full, e)
    requires e.Guard? ==> asOf <= e.now
    ensures Enabled(pruned, e)
    ensures ReportOf(full, e) == ReportOf(pruned, e) <==> !RotatesReached(full, gone, e)
    ensures !RotatesReached(full, gone, e) ==> DiffersBy(Step(full, e), Step(pruned, e), gone, asOf)
  {
    if e.Guard? {
      GuardBoth(full, pruned, gone, asOf, e);
    } else if e.Rotate? {
      RotateBoth(full, pruned, gone, asOf, e);
    } else {
      OtherBoth(full, pruned, gone, asOf, e);
    }
    hide WellFormed, DiffersBy, Step, Enabled, ReportOf;
  }

  lemma OtherBoth(full: State, pruned: State, gone: set<Jti>, asOf: int, e: Event)
    requires WellFormed(full) && DiffersBy(full, pruned, gone, asOf) && Enabled(full, e)
    requires !e.Guard? && !e.Rotate?
    ensures Enabled(pruned, e) && ReportOf(full, e) == ReportOf(pruned, e)
    ensures DiffersBy(Step(full, e), Step(pruned, e), gone, asOf)
  {
    hide RowsFit, PendingFits;
  }

  predicate ClockAfter(events: seq<Event>, asOf: int) {
    forall i :: 0 <= i < |events| && events[i].Guard? ==> asOf <= events[i].now
  }

  /** Step `k` of the run without the prune rotates a token the prune reached. */
  predicate HitAt(s: State, asOf: int, events: seq<Event>, k: int) {
    && 0 <= k < |events| && Run(s, events[..k]).Some?
    && RotatesReached(Run(s, events[..k]).value, Reached(s, asOf), events[k])
  }

  /** Step `k` is possible with and without the prune and tells its caller something else. */
  predicate TellsApart(s: State, asOf: int, events: seq<Event>, k: int) {
    && 0 <= k < |events|
    && Run(s, events[..k]).Some? && Run(Step(s, Prune(asOf)), events[..k]).Some?
    && var full, pruned := Run(s, events[..k]).value, Run(Step(s, Prune(asOf)), events[..k]).value;
       && Enabled(full, events[k]) && Enabled(pruned, events[k])
       && ReportOf(full, events[k]) != ReportOf(pruned, events[k])
  }

  lemma {:induction false} PrefixRuns(s: State, events: seq<Event>, k: nat)
    requires Run(s, events).Some? && k <= |events|
    ensures Run(s, events[..k]).Some?
    ensures k < |events| ==> Enabled(Run(s, events[..k]).value, events[k])
  {
    var n := |events| - 1;
    if k < n {
      PrefixRuns(s, events[..n], k);
      assert events[..n][..k] == events[..k];
    } else if k > n {
      assert events[..k] == events;
    }
  }

  /** Until the first hit both runs go the same way. */
  lemma {:induction false} TogetherUntilHit(s: State, asOf: int, events: seq<Event>)
    requires Inv(s) && Run(s, events).Some? && ClockAfter(events, asOf)
    requires forall k :: 0 <= k < |events| ==> !HitAt(s, asOf, events, k)
    ensures Inv(Run(s, events).value) && Run(Step(s, Prune(asOf)), events).Some?
    ensures DiffersBy(Run(s, events).value, Run(Step(s, Prune(asOf)), events).value, Reached(s, asOf), asOf)
  {
    RunKeepsInv(s, events);
    if events != [] {
      var n := |events| - 1;
      var init := events[..n];
      forall k | 0 <= k < n
        ensures !HitAt(s, asOf, init, k)
      {
        assert init[..k] == events[..k] && !HitAt(s, asOf, events, k);
      }
      TogetherUntilHit(s, asOf, init);
      assert !HitAt(s, asOf, events, n);
      StepBoth(Run(s, init).value, Run(Step(s, Prune(asOf)), init).value, Reached(s, asOf), asOf, events[n]);
    }
  }

  lemma PrefixHits(s: State, asOf: int, events: seq<Event>, k: nat, j: int)
    requires k <= |events| && j < k
    ensures HitAt(s, asOf, events[..k], j) <==> HitAt(s, asOf, events, j)
  {
    if 0 <= j {
      assert events[..k][..j] == events[..j];
    }
  }

  /** At a step no earlier step of which hit, the callers are told different things exactly if this one hits. */
  lemma FirstHitTells(s: State, asOf: int, events: seq<Event>, k: nat)
    requires Inv(s) && Run(s, events).Some? && ClockAfter(events, asOf) && k < |events|
    requires forall j :: 0 <= j < k ==> !HitAt(s, asOf, events, j)
    ensures TellsApart(s, asOf, events, k) <==> HitAt(s, asOf, events, k)
  {
    PrefixRuns(s, events, k);
    forall j | 0 <= j < k
      ensures !HitAt(s, asOf, events[..k], j)
    {
      PrefixHits(s, asOf, events, k, j);
    }
    TogetherUntilHit(s, asOf, events[..k]);
    StepBoth(Run(s, events[..k]).value, Run(Step(s, Prune(asOf)), events[..k]).value, Reached(s, asOf), asOf,
             events[k]);
  }

  lemma {:induction false} SomeFirstHit(s: State, asOf: int, events: seq<Event>, k: nat) returns (first: nat)
    requires HitAt(s, asOf, events, k)
    ensures first <= k && HitAt(s, asOf, events, first)
    ensures forall j :: 0 <= j < first ==> !HitAt(s, asOf, events, j)
  {
    first := k;
    if j :| 0 <= j < k && HitAt(s, asOf, events, j) {
      first := SomeFirstHit(s, asOf, events, j);
    }
  }

  /**
   * Exactly when a prune is visible: from any reachable state, with a clock that
   * does not run back behind it, some caller is told something else than without
   * the prune if and only if the prune reached the row of an accepted token and
   * that row is still active when the token rotates.
   */
  lemma PruneIsVisibleExactly(s: State, asOf: int, events: seq<Event>)
    requires Inv(s) && Run(s, events).Some? && ClockAfter(events, asOf)
    ensures (exists k :: TellsApart(s, asOf, events, k)) <==> (exists k :: HitAt(s, asOf, events, k))
  {
    if k :| HitAt(s, asOf, events, k) {
      var first := SomeFirstHit(s, asOf, events, k);
      FirstHitTells(s, asOf, events, first);
      assert TellsApart(s, asOf, events, first);
    } else if k :| TellsApart(s, asOf, events, k) {
      FirstHitTells(s, asOf, events, k);
    }
  }

  /** Issued tokens whose rows, if still there, have expired. */
  predicate AllExpired(s: State, gone: set<Jti>, asOf: int) {
    forall j :: j in gone ==> j in s.sessions && (j in s.rows ==> s.rows[j].expiresAt <= asOf)
  }

  lemma ExpiredStayExpired(s: State, gone: set<Jti>, asOf: int, e: Event)
    requires AllExpired(s, gone, asOf) && Enabled(s, e)
    ensures AllExpired(Step(s, e), gone, asOf)
  {
  }

  lemma ExpiredAreNotAccepted(s: State, gone: set<Jti>, asOf: int, e: Event, h: Handler)
    requires AllExpired(s, gone, asOf) && Enabled(s, e) && (e.Guard? ==> asOf <= e.now)
    requires h in Step(s, e).pending && Step(s, e).pending[h].ToRotate? && Step(s, e).pending[h].jti in gone
    ensures h in s.pending && s.pending[h] == Step(s, e).pending[h]
  {
  }

  /** A reached token that rotates was accepted before the prune: afterwards no guard accepts it. */
  lemma {:induction false} HitsWereAccepted(s: State, asOf: int, events: seq<Event>)
    requires Inv(s) && Run(s, events).Some? && ClockAfter(events, asOf)
    ensures AllExpired(Run(s, events).value, Reached(s, asOf), asOf)
    ensures var end := Run(s, events).value;
            forall h :: h in end.pending && end.pending[h].ToRotate? && end.pending[h].jti in Reached(s, asOf) ==>
              h in s.pending && s.pending[h] == end.pending[h]
  {
    if events != [] {
      var init, last := events[..|events| - 1], events[|events| - 1];
      HitsWereAccepted(s, asOf, init);
      var before := Run(s, init).value;
      ExpiredStayExpired(before, Reached(s, asOf), asOf, last);
      hide Step, Enabled, AllExpired;
      var end := Step(before, last);
      forall h | h in end.pending && end.pending[h].ToRotate? && end.pending[h].jti in Reached(s, asOf)
        ensures h in s.pending && s.pending[h] == end.pending[h]
      {
        ExpiredAreNotAccepted(before, Reached(s, asOf), asOf, last, h);
      }
    }
  }

  const SIGNING_IN := State(map[], map[], map[], map[0 := 7], map[0 := ToIssue(7, 0)], [])
  const SIGNED_IN := State(map[1 := Row(7, 1000, false)], map[1 := 0], map[1 := 1], map[0 := 7], map[], [])
  const REFRESHING := SIGNED_IN.(pending := map[1 := ToRotate(7, 1)])

  lemma ExampleLogin()
    ensures Enabled(EMPTY, Login(0, 7, 0)) && Step(EMPTY, Login(0, 7, 0)) == SIGNING_IN
  {
  }

  lemma ExampleIssue()
    ensures Enabled(SIGNING_IN, Issue(0, 1, 1000, 1)) && Step(SIGNING_IN, Issue(0, 1, 1000, 1)) == SIGNED_IN
  {
  }

  lemma ExampleGuard()
    ensures Enabled(SIGNED_IN, Guard(1, 1, 500, true)) && Step(SIGNED_IN, Guard(1, 1, 500, true)) == REFRESHING
  {
  }

  lemma ExampleTells()
    ensures TellsApart(REFRESHING, 1000, [Rotate(1)], 0)
  {
    assert WellFormed(REFRESHING);
    PruneBetweenGuardAndRotation(REFRESHING, 1, 1000);
    assert [Rotate(1)][..0] == [];
  }

  /** A run in which it happens: a login, its guard, the prune as the row expires, and the rotation. */
  lemma PrunedRotationExample()
    ensures var before := [Login(0, 7, 0), Issue(0, 1, 1000, 1), Guard(1, 1, 500, true)];
            && Run(EMPTY, before) == Some(REFRESHING)
            && TellsApart(REFRESHING, 1000, [Rotate(1)], 0)
  {
    ExampleLogin();
    ExampleIssue();
    ExampleGuard();
    ExampleTells();
    hide Step, Enabled, TellsApart;
    assert Run(EMPTY, []) == Some(EMPTY);
    RunMore(EMPTY, [], Login(0, 7, 0));
    assert [] + [Login(0, 7, 0)] == [Login(0, 7, 0)];
    RunMore(EMPTY, [Login(0, 7, 0)], Issue(0, 1, 1000, 1));
    assert [Login(0, 7, 0)] + [Issue(0, 1, 1000, 1)] == [Login(0, 7, 0), Issue(0, 1, 1000, 1)];
    RunMore(EMPTY, [Login(0, 7, 0), Issue(0, 1, 1000, 1)], Guard(1, 1, 500, true));
  }

  const SIGNED_OUT := State(map[1 := Row(7, 1000, true)], map[1 := 0], map[1 := 1], map[0 := 7],
                            map[1 := ToIssue(7, 0)], [1])

  lemma ExampleRotateAndLogout()
    ensures Enabled(REFRESHING, Rotate(1)) && Enabled(Step(REFRESHING, Rotate(1)), Logout(7))
    ensures Step(Step(REFRESHING, Rotate(1)), Logout(7)) == SIGNED_OUT
    ensures ActiveRowsOf(SIGNED_OUT, 7) == {}
  {
  }

  lemma ExampleLateIssue()
    ensures Enabled(SIGNED_OUT, Issue(1, 2, 2000, 2))
    ensures RowHolder(2) in ActiveRowsOf(Step(SIGNED_OUT, Issue(1, 2, 2000, 2)), 7)
  {
  }

  /** A run in which a logout does not last: the rotation under way issues its row afterwards. */
  lemma LogoutExample()
    ensures var before := [Login(0, 7, 0), Issue(0, 1, 1000, 1), Guard(1, 1, 500, true), Rotate(1), Logout(7)];
            && Run(EMPTY, before) == Some(SIGNED_OUT) && ActiveRowsOf(SIGNED_OUT, 7) == {}
            && Run(EMPTY, before + [Issue(1, 2, 2000, 2)]).Some?
            && ActiveRowsOf(Run(EMPTY, before + [Issue(1, 2, 2000, 2)]).value, 7) != {}
  {
    PrunedRotationExample();
    ExampleRotateAndLogout();
    ExampleLateIssue();
    hide Step, Enabled, TellsApart, ActiveRowsOf;
    var refreshing := [Login(0, 7, 0), Issue(0, 1, 1000, 1), Guard(1, 1, 500, true)];
    RunMore(EMPTY, refreshing, Rotate(1));
    RunMore(EMPTY, refreshing + [Rotate(1)], Logout(7));
    assert refreshing + [Rotate(1)] + [Logout(7)]
        == [Login(0, 7, 0), Issue(0, 1, 1000, 1), Guard(1, 1, 500, true), Rotate(1), Logout(7)];
    RunMore(EMPTY, refreshing + [Rotate(1)] + [Logout(7)], Issue(1, 2, 2000, 2));
  }

  lemma RunMore(s: State, events: seq<Event>, e: Event)
    requires Run(s, events).Some? && Enabled(Run(s, events).value, e)
    ensures Run(s, events + [e]) == Some(Step(Run(s, events).value, e))
  {
  }
}
