/**
 Admin sessions: tokens that expire by themselves, a denylist and a cutoff that end them early,
 and the session records the panel shows of them.

 Times are milliseconds since the epoch; a token's expiry is in whole seconds. Each step reads a
 clock no earlier than the step before; two may read the same millisecond. A login is two steps,
 for other calls may come between the minting of its token and the writing of its record. A session
 goes by its token's id.
 */
module Sessions {
  import opened Wrappers

  type Id = nat
  type Jti = nat

  datatype Role = SuperAdmin | OtherRole(name: string)

  datatype Admin = Admin(roles: set<Role>, active: bool, cutoff: Option<nat>)

  /** `ims` is when it was issued; `exp` is in seconds. */
  datatype Token = Token(sub: Id, ims: nat, exp: nat)

  datatype Reason = SignedOut | EndedByAdmin | LoggedOutAll | PasswordReset

  datatype Session = Session(admin: Id, expiresAt: nat, createdAt: nat, ended: Option<Reason>)

  /** `denied` holds when each denylist entry lapses. */
  datatype State = State(ttl: nat, now: nat, admins: map<Id, Admin>, tokens: map<Jti, Token>, rows: map<Jti, Session>, denied: map<Jti, nat>)

  datatype Outcome = Ok | NotFound | Conflict | Forbidden | LastSuperAdmin

  /** What an update asks to change; None leaves a field as it is. */
  datatype Change = Change(roles: Option<set<Role>>, active: Option<bool>)

  // ---------------------------------------------------------------------------
  // Tokens
  // ---------------------------------------------------------------------------

  predicate Denied(s: State, jti: Jti) {
    jti in s.denied && s.now < s.denied[jti]
  }

  predicate CutOff(a: Admin, ims: nat) {
    a.cutoff.Some? && ims < a.cutoff.value
  }

  /** The token validator: expiry, denylist, the admin's status and cutoff. */
  predicate Accepts(s: State, jti: Jti, t: Token) {
    s.now / 1000 < t.exp && !Denied(s, jti) && t.sub in s.admins && s.admins[t.sub].active && !CutOff(s.admins[t.sub], t.ims)
  }

  predicate Accepted(s: State, jti: Jti) {
    jti in s.tokens && Accepts(s, jti, s.tokens[jti])
  }

  function Mint(s: State, admin: Id, jti: Jti, lag: nat): State {
    s.(now := s.now + lag, tokens := s.tokens[jti := Token(admin, s.now, (s.now + lag) / 1000 + s.ttl)])
  }

  function Denylist(s: State, jti: Jti, expSeconds: nat): State {
    var left := expSeconds - s.now / 1000;
    s.(denied := s.denied[jti := s.now + 1000 * if left < 1 then 1 else left])
  }

  // ---------------------------------------------------------------------------
  // Sessions
  // ---------------------------------------------------------------------------

  function Start(s: State, admin: Id, jti: Jti, lag: nat): State {
    s.(now := s.now + lag, rows := s.rows[jti := Session(admin, s.now + s.ttl * 1000, s.now + lag, None)])
  }

  function Marked(s: State, jti: Jti, reason: Reason): State {
    if jti in s.rows && s.rows[jti].ended.None?
    then s.(rows := s.rows[jti := s.rows[jti].(ended := Some(reason))])
    else s
  }

  /** Denylisted, and the record marked ended. */
  function Denying(s: State, jti: Jti, expSeconds: nat, reason: Reason): State {
    Marked(Denylist(s, jti, expSeconds), jti, reason)
  }

  function EndedAll(rows: map<Jti, Session>, admin: Id, now: nat, reason: Reason): map<Jti, Session> {
    map j | j in rows ::
      if rows[j].admin == admin && rows[j].ended.None? && rows[j].expiresAt > now
      then rows[j].(ended := Some(reason)) else rows[j]
  }

  function EndAllFor(s: State, admin: Id, reason: Reason): State {
    s.(rows := EndedAll(s.rows, admin, s.now, reason))
  }

  /** Whether the panel shows a session as active. */
  predicate IsActive(row: Session, admin: Admin, now: nat) {
    row.ended.None? && row.expiresAt > now && row.createdAt >= if admin.cutoff.Some? then admin.cutoff.value else 0
  }

  predicate ShownActive(s: State, jti: Jti) {
    jti in s.rows && s.rows[jti].admin in s.admins && IsActive(s.rows[jti], s.admins[s.rows[jti].admin], s.now)
  }

  function EndOutcome(s: State, admin: Id, jti: Jti): Outcome {
    if admin !in s.admins || jti !in s.rows || s.rows[jti].admin != admin then NotFound
    else if !IsActive(s.rows[jti], s.admins[admin], s.now) then Conflict
    else Ok
  }

  function End(s: State, admin: Id, jti: Jti): State {
    if EndOutcome(s, admin, jti).Ok? then Denying(s, jti, s.rows[jti].expiresAt / 1000, EndedByAdmin) else s
  }

  function Logout(s: State, jti: Jti): State {
    Denying(s, jti, LastSecond(s), SignedOut)
  }

  /** When a token minted now would expire, in seconds; no token lasts longer. */
  function LastSecond(s: State): nat {
    s.now / 1000 + s.ttl
  }

  function Cut(s: State, admin: Id): State
    requires admin in s.admins
  {
    s.(admins := s.admins[admin := s.admins[admin].(cutoff := Some(s.now))])
  }

  function LogoutAll(s: State, admin: Id): State {
    if admin in s.admins then EndAllFor(Cut(s, admin), admin, LoggedOutAll) else s
  }

  function ResetPassword(s: State, admin: Id): State {
    if admin in s.admins then EndAllFor(Cut(s, admin), admin, PasswordReset) else s
  }

  // ---------------------------------------------------------------------------
  // Admins
  // ---------------------------------------------------------------------------

  predicate IsSuper(a: Admin) {
    a.active && SuperAdmin in a.roles
  }

  predicate LosesSuper(c: Change) {
    (c.roles.Some? && SuperAdmin !in c.roles.value) || c.active == Some(false)
  }

  function UpdateOutcome(s: State, admin: Id, c: Change, actor: Id): Outcome {
    if admin !in s.admins then NotFound
    else if admin == actor && c.active == Some(false) then Forbidden
    else if admin == actor && c.roles.Some? && SuperAdmin !in c.roles.value then Forbidden
    else if SuperAdmin in s.admins[admin].roles && LosesSuper(c) && !(exists o :: o in s.admins && o != admin && IsSuper(s.admins[o]))
    then LastSuperAdmin
    else Ok
  }

  function Changed(a: Admin, c: Change, now: nat): Admin {
    Admin(if c.roles.Some? then c.roles.value else a.roles,
          if c.active.Some? then c.active.value else a.active,
          if c.active == Some(false) then Some(now) else a.cutoff)
  }

  function Save(s: State, admin: Id, c: Change): State
    requires admin in s.admins
  {
    s.(admins := s.admins[admin := Changed(s.admins[admin], c, s.now)])
  }

  function Update(s: State, admin: Id, c: Change, actor: Id): State {
    if UpdateOutcome(s, admin, c, actor).Ok? then Save(s, admin, c) else s
  }

  // ---------------------------------------------------------------------------
  // Runs
  // ---------------------------------------------------------------------------

  datatype Step =
    | DoMint(admin: Id, jti: Jti, lag: nat)
    | DoStart(jti: Jti, lag: nat)
    | DoLogout(jti: Jti)
    | DoEnd(admin: Id, jti: Jti)
    | DoLogoutAll(admin: Id)
    | DoReset(admin: Id)
    | DoUpdate(admin: Id, change: Change, actor: Id)
    | Idle

  /** A step and the time its clock reads. */
  datatype Timed = Timed(at: nat, step: Step)

  function At(s: State, at: nat): State {
    s.(now := at)
  }

  /**
   Tokens are minted with a new id, recorded once, and signing out takes a token that works. A login looks at its
   admin's status and password before it mints, so by then the admin may have been disabled or the password reset.
   */
  predicate Enabled(s: State, t: Timed) {
    t.at >= s.now &&
    match t.step
    case DoMint(admin, jti, _) => admin in s.admins && jti !in s.tokens
    case DoStart(jti, _) => jti in s.tokens && jti !in s.rows
    case DoLogout(jti) => jti in s.rows && Accepted(At(s, t.at), jti)
    case _ => true
  }

  function Next(s: State, t: Timed): State
    requires Enabled(s, t)
  {
    var s' := At(s, t.at);
    match t.step
    case DoMint(admin, jti, lag) => Mint(s', admin, jti, lag)
    case DoStart(jti, lag) => Start(s', s.tokens[jti].sub, jti, lag)
    case DoLogout(jti) => Logout(s', jti)
    case DoEnd(admin, jti) => End(s', admin, jti)
    case DoLogoutAll(admin) => LogoutAll(s', admin)
    case DoReset(admin) => ResetPassword(s', admin)
    case DoUpdate(admin, change, actor) => Update(s', admin, change, actor)
    case Idle => s'
  }

  ghost predicate IsRun(s: State, steps: seq<Timed>)
    decreases |steps|
  {
    steps == [] || (Enabled(s, steps[0]) && IsRun(Next(s, steps[0]), steps[1..]))
  }

  ghost function Run(s: State, steps: seq<Timed>): State
    requires IsRun(s, steps)
    decreases |steps|
  {
    if steps == [] then s else Run(Next(s, steps[0]), steps[1..])
  }

  /** Its denylist entry outlives it. */
  predicate DeniedForGood(s: State, jti: Jti) {
    jti in s.tokens && jti in s.denied && s.denied[jti] >= s.tokens[jti].exp * 1000
  }

  /** It is from before its admin's cutoff. */
  predicate BeforeCutoff(s: State, jti: Jti) {
    jti in s.tokens && s.tokens[jti].sub in s.admins && CutOff(s.admins[s.tokens[jti].sub], s.tokens[jti].ims)
  }

  predicate Dead(s: State, jti: Jti) {
    DeniedForGood(s, jti) || BeforeCutoff(s, jti)
  }

  predicate AdminOk(s: State, a: Admin) {
    a.cutoff.Some? ==> a.cutoff.value <= s.now
  }

  predicate TokenOk(s: State, t: Token) {
    t.sub in s.admins && t.ims <= s.now && t.exp <= LastSecond(s)
  }

  predicate RowOk(s: State, jti: Jti, row: Session) {
    && jti in s.tokens && row.admin == s.tokens[jti].sub
    && s.tokens[jti].ims <= row.createdAt <= s.now
    && row.expiresAt / 1000 >= s.tokens[jti].exp
  }

  ghost predicate Inv(s: State) {
    && (forall a :: a in s.admins ==> AdminOk(s, s.admins[a]))
    && (forall j :: j in s.tokens ==> TokenOk(s, s.tokens[j]))
    && (forall j :: j in s.rows ==> RowOk(s, j, s.rows[j]))
    && (forall j :: j in s.denied ==> j in s.rows && s.rows[j].ended.Some?)
  }

  // --- What every step keeps

  lemma LaterKeepsInv(s: State, at: nat)
    requires Inv(s) && at >= s.now
    ensures Inv(At(s, at))
  {
  }

  lemma MintKeepsInv(s: State, admin: Id, jti: Jti, lag: nat)
    requires Inv(s) && admin in s.admins && jti !in s.tokens
    ensures Inv(Mint(s, admin, jti, lag))
  {
  }

  lemma StartKeepsInv(s: State, jti: Jti, lag: nat)
    requires Inv(s) && jti in s.tokens && jti !in s.rows
    ensures Inv(Start(s, s.tokens[jti].sub, jti, lag))
  {
  }

  /** A denylist entry made for the token's expiry, or later, lapses only after it. */
  lemma DenylistOutlives(now: nat, expSeconds: nat, exp: nat)
    requires expSeconds >= exp
    ensures now + 1000 * (if expSeconds - now / 1000 < 1 then 1 else expSeconds - now / 1000) >= exp * 1000
  {
  }

  /** It is made to last a while in any case, and no second longer than that. */
  lemma DenylistLapses(s: State, jti: Jti, expSeconds: nat)
    ensures jti in Denylist(s, jti, expSeconds).denied && Denylist(s, jti, expSeconds).rows == s.rows
    ensures var lapses := Denylist(s, jti, expSeconds).denied[jti];
            s.now < lapses && expSeconds * 1000 <= lapses && (lapses < expSeconds * 1000 + 1000 || lapses == s.now + 1000)
    ensures forall j :: j != jti ==> (j in Denylist(s, jti, expSeconds).denied <==> j in s.denied)
  {
  }

  lemma DenyKeepsInv(s: State, jti: Jti, expSeconds: nat, reason: Reason)
    requires Inv(s) && jti in s.rows && s.tokens[jti].exp <= expSeconds
    ensures DeniedForGood(Denying(s, jti, expSeconds, reason), jti)
    ensures Inv(Denying(s, jti, expSeconds, reason))
  {
    var s' := Denying(s, jti, expSeconds, reason);
    assert RowOk(s, jti, s.rows[jti]);
    DenylistOutlives(s.now, expSeconds, s.tokens[jti].exp);
    forall a | a in s'.admins ensures AdminOk(s', s'.admins[a]) {
      assert AdminOk(s, s.admins[a]);
    }
    forall j | j in s'.tokens ensures TokenOk(s', s'.tokens[j]) {
      assert TokenOk(s, s.tokens[j]);
    }
    forall j | j in s'.rows ensures RowOk(s', j, s'.rows[j]) {
      assert RowOk(s, j, s.rows[j]);
    }
  }

  lemma CutKeepsInv(s: State, admin: Id)
    requires Inv(s) && admin in s.admins
    ensures Inv(Cut(s, admin))
  {
  }

  lemma EndAllKeepsInv(s: State, admin: Id, reason: Reason)
    requires Inv(s)
    ensures Inv(EndAllFor(s, admin, reason))
  {
    var s' := EndAllFor(s, admin, reason);
    forall j | j in s'.rows ensures RowOk(s', j, s'.rows[j]) {
      assert RowOk(s, j, s.rows[j]);
    }
  }

  lemma SaveKeepsInv(s: State, admin: Id, c: Change)
    requires Inv(s) && admin in s.admins
    ensures Inv(Save(s, admin, c))
  {
  }

  lemma LogoutKeepsInv(s: State, jti: Jti)
    requires Inv(s) && jti in s.rows && jti in s.tokens
    ensures Inv(Logout(s, jti)) && DeniedForGood(Logout(s, jti), jti)
  {
    assert TokenOk(s, s.tokens[jti]);
    DenyKeepsInv(s, jti, LastSecond(s), SignedOut);
  }

  lemma EndKeepsInv(s: State, admin: Id, jti: Jti)
    requires Inv(s)
    ensures Inv(End(s, admin, jti)) && (EndOutcome(s, admin, jti).Ok? ==> DeniedForGood(End(s, admin, jti), jti))
  {
    if EndOutcome(s, admin, jti).Ok? {
      assert RowOk(s, jti, s.rows[jti]);
      DenyKeepsInv(s, jti, s.rows[jti].expiresAt / 1000, EndedByAdmin);
    }
  }

  lemma StepKeepsInv(s: State, t: Timed)
    requires Inv(s) && Enabled(s, t)
    ensures Inv(Next(s, t)) && Next(s, t).ttl == s.ttl
  {
    var s' := At(s, t.at);
    LaterKeepsInv(s, t.at);
    match t.step
    case DoMint(admin, jti, lag) => MintKeepsInv(s', admin, jti, lag);
    case DoStart(jti, lag) => StartKeepsInv(s', jti, lag);
    case DoLogout(jti) => LogoutKeepsInv(s', jti);
    case DoEnd(admin, jti) => EndKeepsInv(s', admin, jti);
    case DoLogoutAll(admin) => CutAllKeepsInv(s', admin, LoggedOutAll);
    case DoReset(admin) => CutAllKeepsInv(s', admin, PasswordReset);
    case DoUpdate(admin, change, actor) =>
      if admin in s.admins {
        SaveKeepsInv(s', admin, change);
      }
    case Idle =>
  }

  lemma CutAllKeepsInv(s: State, admin: Id, reason: Reason)
    requires Inv(s)
    ensures admin in s.admins ==> Inv(EndAllFor(Cut(s, admin), admin, reason))
  {
    if admin in s.admins {
      CutKeepsInv(s, admin);
      EndAllKeepsInv(Cut(s, admin), admin, reason);
    }
  }

  lemma {:induction false} RunKeepsInv(s: State, steps: seq<Timed>)
    requires Inv(s) && IsRun(s, steps)
    ensures Inv(Run(s, steps)) && Run(s, steps).ttl == s.ttl
    decreases |steps|
  {
    if steps != [] {
      StepKeepsInv(s, steps[0]);
      RunKeepsInv(Next(s, steps[0]), steps[1..]);
    }
  }

  // ---------------------------------------------------------------------------
  // Ended for good
  // ---------------------------------------------------------------------------

  lemma DeadIsRefused(s: State, jti: Jti)
    requires Dead(s, jti)
    ensures !Accepted(s, jti)
  {
  }

  /** A denylist entry is never cut short. */
  lemma DeniedStaysDenied(s: State, t: Timed, jti: Jti)
    requires Inv(s) && Enabled(s, t) && DeniedForGood(s, jti)
    ensures DeniedForGood(Next(s, t), jti)
  {
    assert TokenOk(s, s.tokens[jti]);
    var s' := At(s, t.at);
    DeadIsRefused(s', jti);
    assert s.rows[jti].ended.Some?;
  }

  /** A cutoff only ever moves forward. */
  lemma CutoffStays(s: State, t: Timed, jti: Jti)
    requires Inv(s) && Enabled(s, t) && BeforeCutoff(s, jti)
    ensures BeforeCutoff(Next(s, t), jti)
  {
    assert AdminOk(s, s.admins[s.tokens[jti].sub]);
  }

  lemma DeadStaysDead(s: State, t: Timed, jti: Jti)
    requires Inv(s) && Enabled(s, t) && Dead(s, jti)
    ensures Dead(Next(s, t), jti)
  {
    if DeniedForGood(s, jti) {
      DeniedStaysDenied(s, t, jti);
    } else {
      CutoffStays(s, t, jti);
    }
  }

  /** What a step ends: the session signed out or ended, or every token the admin had. */
  predicate Ends(s: State, t: Timed, jti: Jti) {
    jti in s.tokens &&
    match t.step
    case DoLogout(j) => j == jti
    case DoEnd(admin, j) => j == jti && EndOutcome(At(s, t.at), admin, j).Ok?
    case DoLogoutAll(admin) => s.tokens[jti].sub == admin
    case DoReset(admin) => s.tokens[jti].sub == admin
    case DoUpdate(admin, change, actor) =>
      s.tokens[jti].sub == admin && change.active == Some(false) && UpdateOutcome(At(s, t.at), admin, change, actor).Ok?
    case _ => false
  }

  /** A sign-out or an end by another admin takes hold at once; a cutoff, of tokens from before its own millisecond. */
  predicate TakesHold(s: State, t: Timed, jti: Jti) {
    Ends(s, t, jti) && (t.step.DoLogout? || t.step.DoEnd? || s.tokens[jti].ims < t.at)
  }

  lemma EndsIsDead(s: State, t: Timed, jti: Jti)
    requires Inv(s) && Enabled(s, t) && TakesHold(s, t, jti)
    ensures Dead(Next(s, t), jti)
  {
    var s' := At(s, t.at);
    LaterKeepsInv(s, t.at);
    assert TokenOk(s, s.tokens[jti]);
    match t.step
    case DoLogout(j) => LogoutKeepsInv(s', jti);
    case DoEnd(admin, j) => EndKeepsInv(s', admin, jti);
    case _ =>
  }

  lemma {:induction false} DeadForGood(s: State, steps: seq<Timed>, jti: Jti)
    requires Inv(s) && IsRun(s, steps) && Dead(s, jti)
    ensures !Accepted(Run(s, steps), jti)
    decreases |steps|
  {
    DeadIsRefused(s, jti);
    if steps != [] {
      StepKeepsInv(s, steps[0]);
      DeadStaysDead(s, steps[0], jti);
      DeadForGood(Next(s, steps[0]), steps[1..], jti);
    }
  }

  /** A session once ended, by whom or however, is never accepted again, whatever comes after. */
  lemma EndedForGood(s: State, t: Timed, steps: seq<Timed>, jti: Jti)
    requires Inv(s) && Enabled(s, t) && TakesHold(s, t, jti) && IsRun(Next(s, t), steps)
    ensures !Accepted(Run(Next(s, t), steps), jti)
  {
    StepKeepsInv(s, t);
    EndsIsDead(s, t, jti);
    DeadForGood(Next(s, t), steps, jti);
  }

  /** Signing out everywhere or a reset leaves accepted what was, if it was minted in that same millisecond, and nothing else. */
  lemma SameMillisecond(s: State, t: Timed, jti: Jti)
    requires Inv(s) && Enabled(s, t) && Ends(s, t, jti) && (t.step.DoLogoutAll? || t.step.DoReset?)
    ensures Accepted(Next(s, t), jti) <==> Accepted(At(s, t.at), jti) && s.tokens[jti].ims == t.at
  {
    assert TokenOk(s, s.tokens[jti]);
    assert AdminOk(s, s.admins[s.tokens[jti].sub]);
  }

  lemma MintedWorks(s: State, mint: Timed)
    requires Inv(s) && s.ttl > 0 && Enabled(s, mint) && mint.step.DoMint?
    ensures Accepted(Next(s, mint), mint.step.jti) <==> s.admins[mint.step.admin].active
  {
    assert AdminOk(s, s.admins[mint.step.admin]);
    assert mint.step.jti !in s.denied;
  }

  /**
   A login already past its checks when a cutoff falls, however long before it mints and whatever comes between, gets a
   token that works, just if its admin is active by then.
   */
  lemma LoginUnderWay(s: State, cut: Timed, between: seq<Timed>, mint: Timed)
    requires Inv(s) && s.ttl > 0 && Enabled(s, cut) && IsRun(Next(s, cut), between)
    requires Enabled(Run(Next(s, cut), between), mint) && mint.step.DoMint?
    requires cut.step == DoReset(mint.step.admin) || cut.step == DoLogoutAll(mint.step.admin)
    ensures var before := Run(Next(s, cut), between);
            Accepted(Next(before, mint), mint.step.jti) <==> before.admins[mint.step.admin].active
  {
    StepKeepsInv(s, cut);
    RunKeepsInv(Next(s, cut), between);
    MintedWorks(Run(Next(s, cut), between), mint);
  }

  // ---------------------------------------------------------------------------
  // Good until then
  // ---------------------------------------------------------------------------

  /** Nothing stands against a token but its expiry. */
  predicate Standing(s: State, jti: Jti) {
    && jti in s.tokens && jti !in s.denied
    && s.tokens[jti].sub in s.admins && s.admins[s.tokens[jti].sub].active && !CutOff(s.admins[s.tokens[jti].sub], s.tokens[jti].ims)
  }

  lemma MintedStands(s: State, mint: Timed)
    requires Inv(s) && Enabled(s, mint) && mint.step.DoMint? && s.admins[mint.step.admin].active
    ensures var s', jti := Next(s, mint), mint.step.jti;
            && Standing(s', jti) && s'.tokens[jti] == Token(mint.step.admin, mint.at, s'.now / 1000 + s.ttl)
  {
    assert AdminOk(s, s.admins[mint.step.admin]);
    assert mint.step.jti !in s.denied;
  }

  lemma NoneDeniesIt(s: State, t: Timed, jti: Jti)
    requires Enabled(s, t) && jti in s.tokens && jti !in s.denied && !Ends(s, t, jti)
    ensures jti !in Next(s, t).denied && jti in Next(s, t).tokens && Next(s, t).tokens[jti] == s.tokens[jti]
  {
  }

  lemma StepKeepsStanding(s: State, t: Timed, jti: Jti)
    requires Inv(s) && Enabled(s, t) && Standing(s, jti) && !Ends(s, t, jti)
    ensures Standing(Next(s, t), jti) && Next(s, t).tokens[jti] == s.tokens[jti]
  {
    NoneDeniesIt(s, t, jti);
    AdminStays(s, t, s.tokens[jti].sub, jti);
  }

  lemma AdminStays(s: State, t: Timed, admin: Id, jti: Jti)
    requires Enabled(s, t) && Standing(s, jti) && s.tokens[jti].sub == admin && !Ends(s, t, jti)
    ensures admin in Next(s, t).admins && Next(s, t).admins[admin].active && Next(s, t).admins[admin].cutoff == s.admins[admin].cutoff
  {
  }

  /** No step of the run ends the session. */
  ghost predicate LeftAlone(s: State, steps: seq<Timed>, jti: Jti)
    requires IsRun(s, steps)
    decreases |steps|
  {
    steps == [] || (!Ends(s, steps[0], jti) && LeftAlone(Next(s, steps[0]), steps[1..], jti))
  }

  /** None falls in the millisecond of its minting that would end it otherwise. */
  ghost predicate EndsTakeHold(s: State, steps: seq<Timed>, jti: Jti)
    requires IsRun(s, steps)
    decreases |steps|
  {
    steps == [] || ((Ends(s, steps[0], jti) ==> TakesHold(s, steps[0], jti)) && EndsTakeHold(Next(s, steps[0]), steps[1..], jti))
  }

  lemma {:induction false} StandsUntilEnded(s: State, steps: seq<Timed>, jti: Jti)
    requires Inv(s) && IsRun(s, steps) && Standing(s, jti) && EndsTakeHold(s, steps, jti)
    ensures Accepted(Run(s, steps), jti) <==> LeftAlone(s, steps, jti) && Run(s, steps).now / 1000 < s.tokens[jti].exp
    decreases |steps|
  {
    if steps != [] {
      if Ends(s, steps[0], jti) {
        EndedForGood(s, steps[0], steps[1..], jti);
      } else {
        StepKeepsInv(s, steps[0]);
        StepKeepsStanding(s, steps[0], jti);
        StandsUntilEnded(Next(s, steps[0]), steps[1..], jti);
      }
    }
  }

  /**
   A sign-in lasts. The token of an active admin is accepted after any run just if none of its steps ended the session and
   the second that is a lifetime after its signing has not come.
   */
  lemma SignInLasts(s: State, mint: Timed, steps: seq<Timed>)
    requires Inv(s) && Enabled(s, mint) && mint.step.DoMint? && s.admins[mint.step.admin].active
    requires IsRun(Next(s, mint), steps) && EndsTakeHold(Next(s, mint), steps, mint.step.jti)
    ensures var s', end := Next(s, mint), Run(Next(s, mint), steps);
            Accepted(end, mint.step.jti) <==> LeftAlone(s', steps, mint.step.jti) && end.now / 1000 < s'.now / 1000 + s.ttl
  {
    MintedStands(s, mint);
    StepKeepsInv(s, mint);
    StandsUntilEnded(Next(s, mint), steps, mint.step.jti);
  }

  // ---------------------------------------------------------------------------
  // What the panel shows
  // ---------------------------------------------------------------------------

  /** A record marked ended is of a token that is dead. */
  predicate EndedIsDead(s: State, jti: Jti) {
    jti in s.rows && s.rows[jti].ended.Some? ==> Dead(s, jti)
  }

  /**
   A recorded session's token is accepted just if the panel shows it active, its second of expiry has not come, its
   admin is active, and it was not minted before a cutoff that its record was written after.
   */
  lemma AcceptedIsShown(s: State, jti: Jti)
    requires Inv(s) && jti in s.rows && EndedIsDead(s, jti)
    ensures jti in s.tokens && s.tokens[jti].sub in s.admins
    ensures Accepted(s, jti) <==>
              && ShownActive(s, jti) && s.now / 1000 < s.tokens[jti].exp
              && s.admins[s.tokens[jti].sub].active && !CutOff(s.admins[s.tokens[jti].sub], s.tokens[jti].ims)
  {
    assert RowOk(s, jti, s.rows[jti]);
    assert TokenOk(s, s.tokens[jti]);
  }

  /** A sign-in nothing came between is shown active for a lifetime: all the while its token is accepted, and less than a second longer than it took. */
  lemma SignInIsShown(s: State, mint: Timed, start: Timed, at: nat)
    requires Inv(s) && Enabled(s, mint) && mint.step.DoMint? && s.admins[mint.step.admin].active
    requires Enabled(Next(s, mint), start) && start.step.DoStart? && start.step.jti == mint.step.jti
    requires at >= Next(Next(s, mint), start).now
    ensures var minted, jti := Next(s, mint), mint.step.jti;
            var later := At(Next(minted, start), at);
            && (ShownActive(later, jti) <==> at < start.at + s.ttl * 1000)
            && (Accepted(later, jti) ==> ShownActive(later, jti))
            && (ShownActive(later, jti) && !Accepted(later, jti) ==> at > minted.now + s.ttl * 1000 - 1000)
  {
    MintedStands(s, mint);
    assert AdminOk(s, s.admins[mint.step.admin]);
  }

  /** Why a step ends a session's record, if it does. */
  function WhyEnded(s: State, t: Timed, jti: Jti): Option<Reason>
    requires jti in s.rows
  {
    var row := s.rows[jti];
    match t.step
    case DoLogout(j) => if j == jti then Some(SignedOut) else None
    case DoEnd(admin, j) => if j == jti && EndOutcome(At(s, t.at), admin, j).Ok? then Some(EndedByAdmin) else None
    case DoLogoutAll(admin) => if admin == row.admin && admin in s.admins && row.expiresAt > t.at then Some(LoggedOutAll) else None
    case DoReset(admin) => if admin == row.admin && admin in s.admins && row.expiresAt > t.at then Some(PasswordReset) else None
    case _ => None
  }

  ghost predicate RecordTells(s: State, t: Timed, jti: Jti)
    requires Enabled(s, t) && jti in s.rows
  {
    && jti in Next(s, t).rows
    && Next(s, t).rows[jti] == if s.rows[jti].ended.Some? then s.rows[jti] else s.rows[jti].(ended := WhyEnded(s, t, jti))
  }

  lemma SweepTellsWhy(s: State, t: Timed, jti: Jti)
    requires Enabled(s, t) && jti in s.rows && (t.step.DoLogoutAll? || t.step.DoReset?)
    ensures RecordTells(s, t, jti)
  {
  }

  lemma OneByOneTellsWhy(s: State, t: Timed, jti: Jti)
    requires Enabled(s, t) && jti in s.rows && !t.step.DoLogoutAll? && !t.step.DoReset?
    ensures RecordTells(s, t, jti)
  {
  }

  /** A record says once and for all why its session ended: what first ended it. */
  lemma RecordTellsWhy(s: State, t: Timed, jti: Jti)
    requires Enabled(s, t) && jti in s.rows
    ensures jti in Next(s, t).rows
    ensures Next(s, t).rows[jti] == if s.rows[jti].ended.Some? then s.rows[jti] else s.rows[jti].(ended := WhyEnded(s, t, jti))
  {
    if t.step.DoLogoutAll? || t.step.DoReset? {
      SweepTellsWhy(s, t, jti);
    } else {
      OneByOneTellsWhy(s, t, jti);
    }
  }

  /** A session can be ended, by its admin's panel, just if it is shown active there; and one whose token is accepted is. */
  lemma ShownCanBeEnded(s: State, admin: Id, jti: Jti)
    ensures EndOutcome(s, admin, jti).Ok? <==> jti in s.rows && s.rows[jti].admin == admin && ShownActive(s, jti)
    ensures Inv(s) && EndedIsDead(s, jti) && jti in s.rows && Accepted(s, jti) ==> EndOutcome(s, s.rows[jti].admin, jti).Ok?
  {
    if Inv(s) && EndedIsDead(s, jti) && jti in s.rows {
      AcceptedIsShown(s, jti);
    }
  }

  /** A cutoff in the millisecond of the token's own minting, which marks its record and leaves the token. */
  predicate Crosses(s: State, t: Timed, jti: Jti) {
    Ends(s, t, jti) && (t.step.DoLogoutAll? || t.step.DoReset?) && s.tokens[jti].ims >= t.at
    && jti in s.rows && s.rows[jti].ended.None? && s.rows[jti].expiresAt > t.at
  }

  lemma EndedStaysDead(s: State, t: Timed, jti: Jti)
    requires Inv(s) && Enabled(s, t) && EndedIsDead(s, jti) && !Crosses(s, t, jti)
    ensures EndedIsDead(Next(s, t), jti)
  {
    if jti in s.rows {
      assert RowOk(s, jti, s.rows[jti]);
      if s.rows[jti].ended.Some? {
        DeadStaysDead(s, t, jti);
      } else if TakesHold(s, t, jti) {
        EndsIsDead(s, t, jti);
      }
    }
  }

  lemma NotHidden(s: State, t: Timed, jti: Jti)
    requires Inv(s) && Enabled(s, t) && EndedIsDead(s, jti) && !Crosses(s, t, jti)
    requires jti in Next(s, t).rows && Accepted(Next(s, t), jti)
    ensures ShownActive(Next(s, t), jti)
  {
    StepKeepsInv(s, t);
    EndedStaysDead(s, t, jti);
    AcceptedIsShown(Next(s, t), jti);
  }

  /** A step hides an accepted token's session just if it is such a cutoff. */
  lemma HiddenByCrossing(s: State, t: Timed, jti: Jti)
    requires Inv(s) && Enabled(s, t) && EndedIsDead(s, jti) && jti in s.rows && Accepted(Next(s, t), jti)
    ensures !ShownActive(Next(s, t), jti) <==> Crosses(s, t, jti)
  {
    if Crosses(s, t, jti) {
      CrossingEnds(s, t, jti);
    } else {
      NotHidden(s, t, jti);
    }
  }

  ghost predicate NeverCrosses(s: State, steps: seq<Timed>, jti: Jti)
    requires IsRun(s, steps)
    decreases |steps|
  {
    steps == [] || (!Crosses(s, steps[0], jti) && NeverCrosses(Next(s, steps[0]), steps[1..], jti))
  }

  lemma {:induction false} EndedStaysDeadInRun(s: State, steps: seq<Timed>, jti: Jti)
    requires Inv(s) && IsRun(s, steps) && EndedIsDead(s, jti) && NeverCrosses(s, steps, jti)
    ensures EndedIsDead(Run(s, steps), jti)
    decreases |steps|
  {
    if steps != [] {
      StepKeepsInv(s, steps[0]);
      EndedStaysDead(s, steps[0], jti);
      EndedStaysDeadInRun(Next(s, steps[0]), steps[1..], jti);
    }
  }

  /** Nobody has signed in yet, and no cutoff is in the future. */
  ghost predicate IsStart(s: State) {
    s.tokens == map[] && s.rows == map[] && s.denied == map[] && forall a :: a in s.admins ==> AdminOk(s, s.admins[a])
  }

  lemma {:induction false} EndedStaysEnded(s: State, steps: seq<Timed>, jti: Jti)
    requires Inv(s) && IsRun(s, steps) && jti in s.rows && s.rows[jti].ended.Some?
    ensures jti in Run(s, steps).rows && Run(s, steps).rows[jti].ended.Some?
    decreases |steps|
  {
    if steps != [] {
      StepKeepsInv(s, steps[0]);
      RecordTellsWhy(s, steps[0], jti);
      EndedStaysEnded(Next(s, steps[0]), steps[1..], jti);
    }
  }

  lemma CrossingEnds(s: State, t: Timed, jti: Jti)
    requires Inv(s) && Enabled(s, t) && Crosses(s, t, jti)
    ensures jti in Next(s, t).rows && Next(s, t).rows[jti].ended.Some?
  {
    assert RowOk(s, jti, s.rows[jti]);
    assert TokenOk(s, s.tokens[jti]);
  }

  lemma {:induction false} CrossedIsEnded(s: State, steps: seq<Timed>, jti: Jti)
    requires Inv(s) && IsRun(s, steps) && !NeverCrosses(s, steps, jti)
    ensures jti in Run(s, steps).rows && Run(s, steps).rows[jti].ended.Some?
    decreases |steps|
  {
    StepKeepsInv(s, steps[0]);
    if Crosses(s, steps[0], jti) {
      CrossingEnds(s, steps[0], jti);
      EndedStaysEnded(Next(s, steps[0]), steps[1..], jti);
    } else {
      CrossedIsEnded(Next(s, steps[0]), steps[1..], jti);
    }
  }

  /** Over any run from an empty one, a recorded session's token that is still accepted is shown active, just if no cutoff crossed it. */
  lemma AcceptedIsActive(s: State, steps: seq<Timed>, jti: Jti)
    requires IsStart(s) && IsRun(s, steps) && jti in Run(s, steps).rows && Accepted(Run(s, steps), jti)
    ensures ShownActive(Run(s, steps), jti) <==> NeverCrosses(s, steps, jti)
  {
    if NeverCrosses(s, steps, jti) {
      RunKeepsInv(s, steps);
      EndedStaysDeadInRun(s, steps, jti);
      AcceptedIsShown(Run(s, steps), jti);
    } else {
      CrossedIsEnded(s, steps, jti);
    }
  }

  ghost predicate ClockMovesOn(s: State, steps: seq<Timed>)
    requires IsRun(s, steps)
    decreases |steps|
  {
    steps == [] || (s.now < steps[0].at && ClockMovesOn(Next(s, steps[0]), steps[1..]))
  }

  /** With a clock that moves on at every step no cutoff crosses anything. */
  lemma {:induction false} MovingClockNeverCrosses(s: State, steps: seq<Timed>, jti: Jti)
    requires Inv(s) && IsRun(s, steps) && ClockMovesOn(s, steps)
    ensures NeverCrosses(s, steps, jti)
    decreases |steps|
  {
    if steps != [] {
      if jti in s.tokens {
        assert TokenOk(s, s.tokens[jti]);
      }
      StepKeepsInv(s, steps[0]);
      MovingClockNeverCrosses(Next(s, steps[0]), steps[1..], jti);
    }
  }

  /** No two records were written at the same time. */
  ghost predicate DistinctStarts(s: State) {
    forall j, k :: j in s.rows && k in s.rows && s.rows[j].createdAt == s.rows[k].createdAt ==> j == k
  }

  lemma NewStartIsLater(s: State, t: Timed, j: Jti)
    requires Enabled(s, t) && j in Next(s, t).rows && j !in s.rows
    ensures t.step.DoStart? && t.step.jti == j && Next(s, t).rows[j].createdAt == Next(s, t).now >= t.at
  {
  }

  lemma StartsStayDistinct(s: State, t: Timed)
    requires Inv(s) && Enabled(s, t) && s.now < t.at && DistinctStarts(s)
    ensures DistinctStarts(Next(s, t))
  {
    var rows := Next(s, t).rows;
    forall j, k | j in rows && k in rows && rows[j].createdAt == rows[k].createdAt ensures j == k {
      PlacedApart(s, t, j, k);
      PlacedApart(s, t, k, j);
    }
  }

  lemma PlacedApart(s: State, t: Timed, j: Jti, k: Jti)
    requires Inv(s) && Enabled(s, t) && s.now < t.at && DistinctStarts(s)
    requires j in Next(s, t).rows && k in Next(s, t).rows && Next(s, t).rows[j].createdAt == Next(s, t).rows[k].createdAt
    ensures j in s.rows ==> j == k
    ensures j !in s.rows && k !in s.rows ==> j == k
  {
    if j in s.rows {
      RecordTellsWhy(s, t, j);
      assert RowOk(s, j, s.rows[j]);
    } else {
      NewStartIsLater(s, t, j);
    }
    if k in s.rows {
      RecordTellsWhy(s, t, k);
    } else {
      NewStartIsLater(s, t, k);
    }
  }

  lemma {:induction false} StartsAreDistinct(s: State, steps: seq<Timed>)
    requires Inv(s) && DistinctStarts(s) && IsRun(s, steps) && ClockMovesOn(s, steps)
    ensures DistinctStarts(Run(s, steps))
    decreases |steps|
  {
    if steps != [] {
      StepKeepsInv(s, steps[0]);
      StartsStayDistinct(s, steps[0]);
      StartsAreDistinct(Next(s, steps[0]), steps[1..]);
    }
  }

  /** What a query for an admin's sessions, newest first, promises. */
  ghost predicate NewestFirst(rows: map<Jti, Session>, admin: Id, docs: seq<Jti>) {
    && (forall j :: j in docs <==> j in rows && rows[j].admin == admin)
    && (forall i, k :: 0 <= i < k < |docs| ==> docs[i] != docs[k] && rows[docs[i]].createdAt >= rows[docs[k]].createdAt)
  }

  function First<T>(xs: seq<T>, n: nat): seq<T> {
    if |xs| <= n then xs else xs[..n]
  }

  /** Those of some sessions the panel shows as active, or those it does not, in their order. */
  function Pick(docs: seq<Jti>, s: State, shown: bool): seq<Jti> {
    if docs == [] then []
    else Pick(docs[..|docs| - 1], s, shown) + if ShownActive(s, docs[|docs| - 1]) == shown then [docs[|docs| - 1]] else []
  }

  lemma {:induction false} PickedFrom(docs: seq<Jti>, s: State, shown: bool)
    ensures forall j :: j in Pick(docs, s, shown) <==> j in docs && ShownActive(s, j) == shown
  {
    if docs != [] {
      PickedFrom(docs[..|docs| - 1], s, shown);
      assert docs == docs[..|docs| - 1] + [docs[|docs| - 1]];
    }
  }

  ghost function Newer(rows: map<Jti, Session>, jti: Jti): set<Jti>
    requires jti in rows
  {
    set j | j in rows && rows[j].admin == rows[jti].admin && rows[j].createdAt > rows[jti].createdAt
  }

  function Elements(docs: seq<Jti>): set<Jti> {
    set j | j in docs
  }

  lemma {:induction false} NoneTwice(docs: seq<Jti>)
    requires forall a, b :: 0 <= a < b < |docs| ==> docs[a] != docs[b]
    ensures |Elements(docs)| == |docs|
  {
    if docs != [] {
      var init, last := docs[..|docs| - 1], docs[|docs| - 1];
      assert docs == init + [last];
      NoneTwice(init);
      assert Elements(docs) == Elements(init) + {last};
      assert last !in Elements(init);
    }
  }

  /** The other sessions of the admin that are no older: those that a tie may put before it. */
  ghost function NoOlder(rows: map<Jti, Session>, jti: Jti): set<Jti>
    requires jti in rows
  {
    set j | j in rows && j != jti && rows[j].admin == rows[jti].admin && rows[j].createdAt >= rows[jti].createdAt
  }

  lemma PlaceIsNewer(rows: map<Jti, Session>, admin: Id, docs: seq<Jti>, i: nat)
    requires NewestFirst(rows, admin, docs) && i < |docs|
    ensures docs[i] in rows && |Newer(rows, docs[i])| <= i <= |NoOlder(rows, docs[i])|
  {
    var jti := docs[i];
    assert jti in docs;
    var before := Elements(docs[..i]);
    forall j | j in before ensures j in NoOlder(rows, jti) {
      assert j in docs;
    }
    forall j | j in Newer(rows, jti) ensures j in before {
      assert j in docs;
      var k :| 0 <= k < |docs| && docs[k] == j;
      assert k < i;
    }
    NoneTwice(docs[..i]);
    SizeWithin(Newer(rows, jti), before);
    SizeWithin(before, NoOlder(rows, jti));
  }

  lemma SizeWithin(a: set<Jti>, b: set<Jti>)
    requires a <= b
    ensures |a| <= |b|
  {
    assert b == a + (b - a);
  }

  /**
   The panel lists the latest hundred of an admin's sessions. One whose token is still accepted is listed as active if
   fewer than a hundred others are no older, and is not if a hundred are newer; with no two records of one time, that is
   just if fewer than a hundred are newer.
   */
  lemma AcceptedIsListed(s: State, docs: seq<Jti>, jti: Jti)
    requires Inv(s) && EndedIsDead(s, jti) && jti in s.rows && Accepted(s, jti)
    requires NewestFirst(s.rows, s.rows[jti].admin, docs)
    ensures |NoOlder(s.rows, jti)| < 100 ==> jti in Pick(First(docs, 100), s, true)
    ensures |Newer(s.rows, jti)| >= 100 ==> jti !in Pick(First(docs, 100), s, true)
    ensures DistinctStarts(s) ==> (jti in Pick(First(docs, 100), s, true) <==> |Newer(s.rows, jti)| < 100)
  {
    AcceptedIsShown(s, jti);
    PickedFrom(First(docs, 100), s, true);
    var i :| 0 <= i < |docs| && docs[i] == jti;
    PlaceIsNewer(s.rows, s.rows[jti].admin, docs, i);
    assert i < 100 ==> First(docs, 100)[i] == jti;
    if DistinctStarts(s) {
      assert Newer(s.rows, jti) == NoOlder(s.rows, jti);
    }
  }

  // ---------------------------------------------------------------------------
  // Somebody can always administer
  // ---------------------------------------------------------------------------

  ghost predicate HasSuper(admins: map<Id, Admin>) {
    exists a :: a in admins && IsSuper(admins[a])
  }

  /** No update, whoever makes it, leaves the panel without an active super-admin; nor does any other step. */
  lemma SuperRemains(s: State, t: Timed)
    requires Enabled(s, t) && HasSuper(s.admins)
    ensures HasSuper(Next(s, t).admins)
  {
    var a :| a in s.admins && IsSuper(s.admins[a]);
    var admins := Next(s, t).admins;
    if t.step.DoUpdate? && t.step.admin == a && LosesSuper(t.step.change) && UpdateOutcome(At(s, t.at), a, t.step.change, t.step.actor).Ok? {
      var o :| o in s.admins && o != a && IsSuper(s.admins[o]);
      assert o in admins && IsSuper(admins[o]);
    } else {
      assert a in admins && IsSuper(admins[a]);
    }
  }

  lemma {:induction false} SuperAlwaysRemains(s: State, steps: seq<Timed>)
    requires IsRun(s, steps) && HasSuper(s.admins)
    ensures HasSuper(Run(s, steps).admins)
    decreases |steps|
  {
    if steps != [] {
      SuperRemains(s, steps[0]);
      SuperAlwaysRemains(Next(s, steps[0]), steps[1..]);
    }
  }

  /** While there is an active super-admin, an update is let through just if it leaves one and takes nothing of the kind from who makes it. */
  lemma UpdateIsAllowed(s: State, admin: Id, c: Change, actor: Id)
    requires HasSuper(s.admins) && admin in s.admins
    ensures UpdateOutcome(s, admin, c, actor).Ok? <==> !(admin == actor && LosesSuper(c)) && HasSuper(Save(s, admin, c).admins)
  {
    var a :| a in s.admins && IsSuper(s.admins[a]);
    var admins := Save(s, admin, c).admins;
    assert forall o :: o in s.admins && o != admin ==> o in admins && admins[o] == s.admins[o];
    assert admin in admins && (a == admin && !LosesSuper(c) ==> IsSuper(admins[admin]));
    assert a != admin ==> IsSuper(admins[a]);
  }

  /** And makes of the admin what it asks, and of nobody else anything. */
  lemma UpdateTakesEffect(s: State, admin: Id, c: Change, actor: Id)
    requires UpdateOutcome(s, admin, c, actor).Ok?
    ensures var s' := Update(s, admin, c, actor);
            && s'.admins.Keys == s.admins.Keys && (forall o :: o in s.admins && o != admin ==> s'.admins[o] == s.admins[o])
            && (c.roles.Some? ==> s'.admins[admin].roles == c.roles.value) && (c.active.Some? ==> s'.admins[admin].active == c.active.value)
            && (c.roles.None? ==> s'.admins[admin].roles == s.admins[admin].roles) && (c.active.None? ==> s'.admins[admin].active == s.admins[admin].active)
            && s'.rows == s.rows && s'.tokens == s.tokens && s'.denied == s.denied
  {
  }

  ghost predicate AnotherSuper(admins: map<Id, Admin>, a: Id, b: Id) {
    exists o :: o in admins && o != a && o != b && IsSuper(admins[o])
  }

  /**
   The guard is checked before the save. Two updates of two admins, both let through before either is saved, leave an
   active super-admin just if one of the two still is one, or there is a third.
   */
  lemma OverlappingUpdates(s: State, a: Id, c: Change, x: Id, b: Id, d: Change, y: Id)
    requires a != b && HasSuper(s.admins)
    requires UpdateOutcome(s, a, c, x).Ok? && UpdateOutcome(s, b, d, y).Ok?
    ensures HasSuper(Save(Save(s, a, c), b, d).admins) <==>
              || IsSuper(Changed(s.admins[a], c, s.now))
              || IsSuper(Changed(s.admins[b], d, s.now))
              || AnotherSuper(s.admins, a, b)
  {
    var admins := Save(Save(s, a, c), b, d).admins;
    assert admins[a] == Changed(s.admins[a], c, s.now) && admins[b] == Changed(s.admins[b], d, s.now);
    assert forall o :: o in admins && o != a && o != b ==> o in s.admins && admins[o] == s.admins[o];
    if AnotherSuper(s.admins, a, b) {
      var o :| o in s.admins && o != a && o != b && IsSuper(s.admins[o]);
      assert o in admins && IsSuper(admins[o]);
    }
  }

  /** Two such updates of one and the same admin always leave one. */
  lemma OverlappingOnOne(s: State, a: Id, c: Change, x: Id, d: Change, y: Id)
    requires HasSuper(s.admins)
    requires UpdateOutcome(s, a, c, x).Ok? && UpdateOutcome(s, a, d, y).Ok?
    ensures HasSuper(Save(Save(s, a, c), a, d).admins)
  {
    var admins := Save(Save(s, a, c), a, d).admins;
    var o :| o in s.admins && IsSuper(s.admins[o]);
    if o == a && (LosesSuper(c) || LosesSuper(d)) {
      var other :| other in s.admins && other != a && IsSuper(s.admins[other]);
      assert other in admins && IsSuper(admins[other]);
    } else {
      assert o in admins && IsSuper(admins[o]);
    }
  }

  /** Two super-admins who demote each other at once are both let through, and none remains. */
  lemma TwoAtOnce(s: State, a: Id, b: Id)
    requires a != b && s.admins == map[a := Admin({SuperAdmin}, true, None), b := Admin({SuperAdmin}, true, None)]
    ensures var demote := Change(Some({}), None);
            && UpdateOutcome(s, a, demote, b).Ok? && UpdateOutcome(s, b, demote, a).Ok?
            && b in Save(s, a, demote).admins
            && !HasSuper(Save(Save(s, a, demote), b, demote).admins)
  {
    assert IsSuper(s.admins[a]) && IsSuper(s.admins[b]);
    OverlappingUpdates(s, a, Change(Some({}), None), b, b, Change(Some({}), None), a);
  }

  // ---------------------------------------------------------------------------
  // The services
  // ---------------------------------------------------------------------------

  /** The admin, token and session services over the collections and the cache they share. */
  class AdminAuth {
    const ttl: nat
    var now: nat
    var admins: map<Id, Admin>
    var rows: map<Jti, Session>
    var denied: map<Jti, nat>
    var tokens: map<Jti, Token>    // those handed out: the clients hold them

    function Now(): State
      reads this
    {
      State(ttl, now, admins, tokens, rows, denied)
    }

    constructor (ttl: nat, admins: map<Id, Admin>)
      ensures Now() == State(ttl, 0, admins, map[], map[], map[])
    {
      this.ttl, this.now, this.admins, this.rows, this.denied, this.tokens := ttl, 0, admins, map[], map[], map[];
    }

    /** What other calls do between two steps of one, the passing of time among it. */
    method Meanwhile(change: State -> State)
      modifies this
      ensures Now() == change(old(Now())).(ttl := ttl)
    {
      var s := change(Now());
      now, admins, rows, denied, tokens := s.now, s.admins, s.rows, s.denied, s.tokens;
    }

    method Validate(jti: Jti, payload: Token) returns (ok: bool)
      ensures ok == Accepts(Now(), jti, payload)
    {
      if now / 1000 >= payload.exp {
        return false;
      }
      if jti in denied && now < denied[jti] {
        return false;
      }
      if payload.sub !in admins || !admins[payload.sub].active {
        return false;
      }
      var admin := admins[payload.sub];
      if admin.cutoff.Some? && payload.ims < admin.cutoff.value {
        return false;
      }
      ok := true;
    }

    method MintToken(admin: Id, jti: Jti, lag: nat) returns (token: Token)
      modifies this
      ensures Now() == Mint(old(Now()), admin, jti, lag) && token == tokens[jti]
    {
      var ims := now;
      now := now + lag;
      token := Token(admin, ims, now / 1000 + ttl);
      tokens := tokens[jti := token];
    }

    method StartSession(admin: Id, jti: Jti, lag: nat)
      modifies this
      ensures Now() == Start(old(Now()), admin, jti, lag)
    {
      var started := now;
      now := now + lag;
      rows := rows[jti := Session(admin, started + ttl * 1000, now, None)];
    }

    /**
     A sign-in: its checks, its token and its record, other calls coming between; or nothing, for anyone who may not.
     Once past its checks it does not look at the admin again.
     */
    method Login(admin: Option<Id>, passwordFits: bool, jti: Jti, lag: nat, checked: State -> State, minted: State -> State)
      returns (token: Option<Token>)
      modifies this
      ensures token.Some? <==> admin.Some? && admin.value in old(admins) && old(admins)[admin.value].active && passwordFits
      ensures token.None? ==> Now() == old(Now())
      ensures token.Some? ==>
                var minting := Mint(checked(old(Now())).(ttl := ttl), admin.value, jti, lag);
                && Now() == Start(minted(minting).(ttl := ttl), admin.value, jti, 0)
                && token.value == minting.tokens[jti]
    {
      if admin.None? || admin.value !in admins || !admins[admin.value].active || !passwordFits {
        return None;
      }
      Meanwhile(checked);
      var issued := MintToken(admin.value, jti, lag);
      Meanwhile(minted);
      StartSession(admin.value, jti, 0);
      token := Some(issued);
    }

    method Deny(jti: Jti, expSeconds: nat)
      modifies this`denied
      ensures Now() == Denylist(old(Now()), jti, expSeconds)
    {
      var left := expSeconds - now / 1000;
      var life := if left < 1 then 1 else left;
      denied := denied[jti := now + 1000 * life];
    }

    method SignOut(jti: Jti)
      modifies this
      ensures Now() == Logout(old(Now()), jti)
    {
      Deny(jti, now / 1000 + ttl);
      if jti in rows && rows[jti].ended.None? {
        rows := rows[jti := rows[jti].(ended := Some(SignedOut))];
      }
    }

    method EndSession(admin: Id, jti: Jti) returns (outcome: Outcome)
      modifies this
      ensures outcome == EndOutcome(old(Now()), admin, jti) && Now() == End(old(Now()), admin, jti)
    {
      if admin !in admins || jti !in rows || rows[jti].admin != admin {
        return NotFound;
      }
      if !IsActive(rows[jti], admins[admin], now) {
        return Conflict;
      }
      Deny(jti, rows[jti].expiresAt / 1000);
      rows := rows[jti := rows[jti].(ended := Some(EndedByAdmin))];
      outcome := Ok;
    }

    method EndAll(admin: Id, reason: Reason) returns (count: nat)
      modifies this`rows
      ensures Now() == EndAllFor(old(Now()), admin, reason)
      ensures count == |set j | j in old(rows) && old(rows)[j] != rows[j]|
    {
      var open := set j | j in rows && rows[j].admin == admin && rows[j].ended.None? && rows[j].expiresAt > now;
      count := |open|;
      rows := map j | j in rows :: if j in open then rows[j].(ended := Some(reason)) else rows[j];
      assert rows == EndedAll(old(rows), admin, now, reason);
      assert open == set j | j in old(rows) && old(rows)[j] != rows[j];
    }

    method SignOutEverywhere(admin: Id) returns (ended: Option<nat>)
      modifies this
      ensures Now() == LogoutAll(old(Now()), admin) && (ended.Some? <==> admin in old(admins))
      ensures ended.Some? ==> ended.value == |set j | j in old(rows) && old(rows)[j] != rows[j]|
    {
      if admin !in admins {
        return None;
      }
      admins := admins[admin := admins[admin].(cutoff := Some(now))];
      var count := EndAll(admin, LoggedOutAll);
      ended := Some(count);
    }

    method Reset(admin: Id) returns (found: bool)
      modifies this
      ensures Now() == ResetPassword(old(Now()), admin) && (found <==> admin in old(admins))
    {
      if admin !in admins {
        return false;
      }
      admins := admins[admin := admins[admin].(cutoff := Some(now))];
      var _ := EndAll(admin, PasswordReset);
      found := true;
    }

    method UpdateAdmin(admin: Id, change: Change, actor: Id) returns (outcome: Outcome)
      modifies this`admins
      ensures outcome == UpdateOutcome(old(Now()), admin, change, actor) && Now() == Update(old(Now()), admin, change, actor)
    {
      if admin !in admins {
        return NotFound;
      }
      var isSelf := admin == actor;
      if isSelf && change.active == Some(false) {
        return Forbidden;
      }
      if isSelf && change.roles.Some? && SuperAdmin !in change.roles.value {
        return Forbidden;
      }
      if SuperAdmin in admins[admin].roles && LosesSuper(change) {
        var others := set o | o in admins && o != admin && IsSuper(admins[o]);
        assert forall o :: o in admins && o != admin && IsSuper(admins[o]) ==> o in others;
        if others == {} {
          return LastSuperAdmin;
        }
        assert exists o :: o in others;
      }
      var a := admins[admin];
      if change.roles.Some? {
        a := a.(roles := change.roles.value);
      }
      if change.active.Some? {
        a := a.(active := change.active.value);
        if !change.active.value {
          a := a.(cutoff := Some(now));
        }
      }
      admins := admins[admin := a];
      outcome := Ok;
    }

    /** The active of the latest hundred, and the latest twenty of the others; `docs` is the query's result. */
    method List(admin: Id, docs: seq<Jti>) returns (active: seq<Jti>, recent: seq<Jti>)
      requires admin in admins && NewestFirst(rows, admin, docs)
      ensures active == Pick(First(docs, 100), Now(), true)
      ensures recent == First(Pick(First(docs, 100), Now(), false), 20)
    {
      active := [];
      var latest, others := First(docs, 100), [];
      for i := 0 to |latest|
        invariant active == Pick(latest[..i], Now(), true) && others == Pick(latest[..i], Now(), false)
      {
        var j := latest[i];
        assert j in docs && latest[..i + 1][..i] == latest[..i];
        if IsActive(rows[j], admins[admin], now) {
          active := active + [j];
        } else {
          others := others + [j];
        }
      }
      assert latest[..|latest|] == latest;
      recent := First(others, 20);
    }
  }
}
