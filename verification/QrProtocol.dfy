/**
 The QR absentee fallback as a protocol: backend/app/qr_api.py, backend/app/ws.py
 (`_QRVerifier`) and the token and window operations of backend/app/store.py.

 Each step is one request to the database, which serialises requests; any number of
 issuers, claims, selfie requests and cameras interleave. Requests may fail, and whoever
 made one may never make the next.
 */
module QrProtocol {
  import opened Wrappers

  datatype Session = Session(id: int)
  datatype Student = Student(id: int)
  datatype TokenId = TokenId(id: int)
  datatype WindowId = WindowId(id: int)

  datatype Config = Config(claimTtl: real, windowTtl: real, refreshS: real)

  datatype Token = Token(session: Session, expiresAt: real, usedAt: Option<real>, usedBy: Option<Student>)

  datatype VerifyWindow = VerifyWindow(session: Session, student: Student, expiresAt: real, satisfiedAt: Option<real>)

  /** A via='qr' presence row. */
  datatype PresenceRow = PresenceRow(session: Session, student: Student, at: real)

  /** A claim in flight: past its lookups, or past the update that used the token. */
  datatype Claim = Looked(token: TokenId, student: Student) | Won(token: TokenId, student: Student, at: real)

  /** A selfie request or a camera working on a window: when it saw the window open, when it
      set to work on it, how long that was by its own clock, and whether its update satisfied
      the window. */
  datatype Agent = Agent(window: WindowId, student: Student, session: Session, seenAt: real, begunAt: real, age: real,
                         won: bool)

  /** `refreshedTs` is the camera's own clock, which need not run with the database's. */
  datatype Camera = Camera(session: Session, targets: map<Student, WindowId>, refreshedAt: real, refreshedTs: real)

  /** `rowWindow`, `windowToken` and `work` are history: the window behind each row, the token
      behind each window, and the agent that satisfied each satisfied window. */
  datatype State = State(clock: real, tokens: map<TokenId, Token>, windows: map<WindowId, VerifyWindow>,
                         rows: seq<PresenceRow>, issuing: map<int, Session>, claims: map<int, Claim>,
                         agents: map<int, Agent>, cameras: map<int, Camera>,
                         rowWindow: seq<WindowId>, windowToken: map<WindowId, TokenId>, work: map<WindowId, Agent>)

  datatype Action =
    | Tick(to: real)
    | Expire(issuer: int, session: Session)
    | Mint(issuer: int, token: TokenId)
    | AbandonIssue(issuer: int)
    | CloseQr(session: Session)
    | Lookup(claim: int, token: TokenId, student: Student, answered: bool)
    | UseToken(claim: int)
    | OpenWindow(claim: int, window: WindowId, persisted: bool)
    | AbandonClaim(claim: int)
    | ReadWindow(agent: int, window: WindowId, student: Student)
    | Refresh(camera: int, session: Session, targets: map<Student, WindowId>, answered: bool, ts: real)
    | Take(camera: int, student: Student, agent: int, ts: real)
    | Satisfy(agent: int)
    | GiveUp(agent: int)
    | WriteRow(agent: int, persisted: bool)

  function Init(now: real): State {
    State(now, map[], map[], [], map[], map[], map[], map[], [], map[], map[])
  }

  function Unused(t: Token): bool {
    t.usedAt.None?
  }

  /** `_invalidate_tokens`. */
  function Invalidate(tokens: map<TokenId, Token>, session: Session, now: real): map<TokenId, Token> {
    map t | t in tokens ::
      if tokens[t].session == session && Unused(tokens[t]) then tokens[t].(expiresAt := now) else tokens[t]
  }

  predicate HasAttempt(s: State, session: Session, student: Student) {
    exists w :: w in s.windows && s.windows[w].session == session && s.windows[w].student == student
  }

  /** Open and unexpired right now. */
  predicate IsOpen(s: State, w: WindowId) {
    w in s.windows && s.windows[w].satisfiedAt.None? && s.windows[w].expiresAt > s.clock
  }

  /** A possible answer of `open_verification_targets`: one open window for each student with any. */
  predicate AreTargets(s: State, session: Session, targets: map<Student, WindowId>) {
    && (forall st :: st in targets ==>
         IsOpen(s, targets[st]) && s.windows[targets[st]].session == session && s.windows[targets[st]].student == st)
    && (forall w :: w in s.windows ==> IsOpen(s, w) && s.windows[w].session == session ==>
        s.windows[w].student in targets)
  }

  function DoExpire(s: State, i: int, session: Session): State {
    if i in s.issuing then s
    else s.(tokens := Invalidate(s.tokens, session, s.clock), issuing := s.issuing[i := session])
  }

  function DoMint(c: Config, s: State, i: int, t: TokenId): State {
    if i !in s.issuing || t in s.tokens then s
    else s.(tokens := s.tokens[t := Token(s.issuing[i], s.clock + c.claimTtl, None, None)], issuing := s.issuing - {i})
  }

  function DoLookup(s: State, k: int, t: TokenId, student: Student, answered: bool): State {
    if k in s.claims || t !in s.tokens then s
    else if answered && HasAttempt(s, s.tokens[t].session, student) then s
    else s.(claims := s.claims[k := Looked(t, student)])
  }

  function UsedBy(tokens: map<TokenId, Token>, t: TokenId, student: Student, now: real): map<TokenId, Token>
    requires t in tokens
  {
    tokens[t := tokens[t].(usedAt := Some(now), usedBy := Some(student))]
  }

  function WonBy(claims: map<int, Claim>, k: int, now: real): map<int, Claim>
    requires k in claims
  {
    claims[k := Won(claims[k].token, claims[k].student, now)]
  }

  function DoUseToken(s: State, k: int): State {
    if k !in s.claims || s.claims[k].Won? || s.claims[k].token !in s.tokens then s
    else
      var t, student := s.claims[k].token, s.claims[k].student;
      if Unused(s.tokens[t]) && s.tokens[t].expiresAt > s.clock then
        s.(tokens := UsedBy(s.tokens, t, student, s.clock),
           claims := WonBy(s.claims, k, s.clock))
      else s.(claims := s.claims - {k})
  }

  function DoOpenWindow(c: Config, s: State, k: int, w: WindowId, persisted: bool): State {
    if k !in s.claims || s.claims[k].Looked? || s.claims[k].token !in s.tokens || w in s.windows then s
    else if !persisted then s.(claims := s.claims - {k})
    else
      var t := s.claims[k].token;
      s.(windows := s.windows[w := VerifyWindow(s.tokens[t].session, s.claims[k].student,
                                                s.claims[k].at + c.windowTtl, None)],
         windowToken := s.windowToken[w := t], claims := s.claims - {k})
  }

  function DoReadWindow(s: State, g: int, w: WindowId, student: Student): State {
    if g in s.agents || !IsOpen(s, w) || s.windows[w].student != student then s
    else s.(agents := s.agents[g := Agent(w, student, s.windows[w].session, s.clock, s.clock, 0.0, false)])
  }

  function DoRefresh(s: State, m: int, session: Session, targets: map<Student, WindowId>, answered: bool,
                     ts: real): State {
    if m in s.cameras && s.cameras[m].session != session then s
    else if answered && !AreTargets(s, session, targets) then s
    else s.(cameras := s.cameras[m := Camera(session, if answered then targets else map[], s.clock, ts)])
  }

  /** A camera sets to work only on targets refreshed less than `refreshS` ago. */
  function DoTake(c: Config, s: State, m: int, student: Student, g: int, ts: real): State {
    if m !in s.cameras || student !in s.cameras[m].targets || g in s.agents
       || ts - s.cameras[m].refreshedTs >= c.refreshS
    then s
    else
      var cam := s.cameras[m];
      s.(cameras := s.cameras[m := cam.(targets := cam.targets - {student})],
         agents := s.agents[g := Agent(cam.targets[student], student, cam.session, cam.refreshedAt, s.clock,
                                       ts - cam.refreshedTs, false)])
  }

  function DoSatisfy(s: State, g: int): State {
    if g !in s.agents || s.agents[g].won || s.agents[g].window !in s.windows then s
    else
      var w := s.agents[g].window;
      if s.windows[w].satisfiedAt.None? then
        s.(windows := s.windows[w := s.windows[w].(satisfiedAt := Some(s.clock))],
           agents := s.agents[g := s.agents[g].(won := true)], work := s.work[w := s.agents[g]])
      else s.(agents := s.agents - {g})
  }

  function DoWriteRow(s: State, g: int, persisted: bool): State {
    if g !in s.agents || !s.agents[g].won then s
    else if !persisted then s.(agents := s.agents - {g})
    else
      s.(rows := s.rows + [PresenceRow(s.agents[g].session, s.agents[g].student, s.clock)],
         rowWindow := s.rowWindow + [s.agents[g].window], agents := s.agents - {g})
  }

  /** One step; an action whose request makes no sense in the state changes nothing. */
  function Apply(c: Config, s: State, a: Action): State {
    match a
    case Tick(to) => if to > s.clock then s.(clock := to) else s
    case Expire(i, session) => DoExpire(s, i, session)
    case Mint(i, t) => DoMint(c, s, i, t)
    case AbandonIssue(i) => s.(issuing := s.issuing - {i})
    case CloseQr(session) => s.(tokens := Invalidate(s.tokens, session, s.clock))
    case Lookup(k, t, student, answered) => DoLookup(s, k, t, student, answered)
    case UseToken(k) => DoUseToken(s, k)
    case OpenWindow(k, w, persisted) => DoOpenWindow(c, s, k, w, persisted)
    case AbandonClaim(k) => s.(claims := s.claims - {k})
    case ReadWindow(g, w, student) => DoReadWindow(s, g, w, student)
    case Refresh(m, session, targets, answered, ts) => DoRefresh(s, m, session, targets, answered, ts)
    case Take(m, student, g, ts) => DoTake(c, s, m, student, g, ts)
    case Satisfy(g) => DoSatisfy(s, g)
    case GiveUp(g) => s.(agents := s.agents - {g})
    case WriteRow(g, persisted) => DoWriteRow(s, g, persisted)
  }

  function Run(c: Config, s: State, actions: seq<Action>): State {
    if actions == [] then s else Apply(c, Run(c, s, actions[..|actions| - 1]), actions[|actions| - 1])
  }

  // ---------- The invariant ----------

  /** A used token was used before it expired, and by someone. */
  ghost predicate TokenOk(now: real, t: Token) {
    (t.usedAt.Some? <==> t.usedBy.Some?) && (t.usedAt.Some? ==> t.usedAt.value < t.expiresAt && t.usedAt.value <= now)
  }

  ghost predicate ClaimOk(tokens: map<TokenId, Token>, windowToken: map<WindowId, TokenId>, k: Claim) {
    && k.token in tokens
    && (k.Won? ==>
         && tokens[k.token].usedBy == Some(k.student) && tokens[k.token].usedAt == Some(k.at)
         && forall w :: w in windowToken ==> windowToken[w] != k.token)
  }

  ghost predicate TokensInOrder(now: real, tokens: map<TokenId, Token>) {
    forall t :: t in tokens ==> TokenOk(now, tokens[t])
  }

  ghost predicate ClaimsInOrder(tokens: map<TokenId, Token>, windowToken: map<WindowId, TokenId>,
                                claims: map<int, Claim>) {
    && (forall k :: k in claims ==> ClaimOk(tokens, windowToken, claims[k]))
    && (forall j, k :: j in claims && k in claims && j != k && claims[j].Won? && claims[k].Won? ==>
        claims[j].token != claims[k].token)
  }

  /** A window was opened by its student's use of a token of its session. */
  ghost predicate WindowOk(c: Config, tokens: map<TokenId, Token>, t: TokenId, w: VerifyWindow) {
    && t in tokens && tokens[t].session == w.session && tokens[t].usedBy == Some(w.student) && tokens[t].usedAt.Some?
    && w.expiresAt == tokens[t].usedAt.value + c.windowTtl
  }

  ghost predicate WindowsFromTokens(c: Config, tokens: map<TokenId, Token>, windows: map<WindowId, VerifyWindow>,
                                    windowToken: map<WindowId, TokenId>)
  {
    && windowToken.Keys == windows.Keys
    && (forall w :: w in windows ==> WindowOk(c, tokens, windowToken[w], windows[w]))
    && (forall v, w :: v in windowToken && w in windowToken && v != w ==> windowToken[v] != windowToken[w])
  }

  ghost predicate AgentOk(c: Config, now: real, windows: map<WindowId, VerifyWindow>, g: Agent) {
    && g.window in windows && windows[g.window].session == g.session && windows[g.window].student == g.student
    && g.seenAt < windows[g.window].expiresAt && g.seenAt <= g.begunAt <= now
    && (g.age == 0.0 || g.age < c.refreshS)
  }

  ghost predicate CameraOk(now: real, windows: map<WindowId, VerifyWindow>, m: Camera) {
    && m.refreshedAt <= now
    && forall st :: st in m.targets ==>
         && m.targets[st] in windows && windows[m.targets[st]].session == m.session
         && windows[m.targets[st]].student == st
         && m.refreshedAt < windows[m.targets[st]].expiresAt
  }

  ghost predicate AgentsInOrder(c: Config, now: real, windows: map<WindowId, VerifyWindow>, agents: map<int, Agent>) {
    forall g :: g in agents ==> AgentOk(c, now, windows, agents[g])
  }

  ghost predicate CamerasInOrder(now: real, windows: map<WindowId, VerifyWindow>, cameras: map<int, Camera>) {
    forall m :: m in cameras ==> CameraOk(now, windows, cameras[m])
  }

  /** A satisfied window was satisfied by an agent that had seen it open, and after that agent
      set to work. */
  ghost predicate WorkInOrder(c: Config, now: real, windows: map<WindowId, VerifyWindow>, work: map<WindowId, Agent>) {
    forall w :: w in windows && windows[w].satisfiedAt.Some? ==>
      && w in work && work[w].window == w && AgentOk(c, now, windows, work[w])
      && work[w].begunAt <= windows[w].satisfiedAt.value <= now
  }

  ghost predicate RowOk(now: real, windows: map<WindowId, VerifyWindow>, row: PresenceRow, w: WindowId) {
    && w in windows && windows[w].satisfiedAt.Some? && windows[w].satisfiedAt.value <= row.at <= now
    && row.session == windows[w].session && row.student == windows[w].student
  }

  ghost predicate RowsFromWindows(now: real, windows: map<WindowId, VerifyWindow>, rows: seq<PresenceRow>,
                                  rowWindow: seq<WindowId>) {
    && |rows| == |rowWindow|
    && (forall k :: 0 <= k < |rows| ==> RowOk(now, windows, rows[k], rowWindow[k]))
    && (forall j, k :: 0 <= j < k < |rowWindow| ==> rowWindow[j] != rowWindow[k])
  }

  /** The agents about to write a row own their satisfied windows, apart from one another and
      from the rows already written. */
  ghost predicate WinnersInOrder(now: real, windows: map<WindowId, VerifyWindow>, agents: map<int, Agent>,
                                 rowWindow: seq<WindowId>) {
    && (forall g :: g in agents && agents[g].won ==>
         && agents[g].window in windows && windows[agents[g].window].satisfiedAt.Some? && agents[g].window !in rowWindow
         && windows[agents[g].window].satisfiedAt.value <= now)
    && (forall f, g :: f in agents && g in agents && f != g && agents[f].won && agents[g].won ==>
        agents[f].window != agents[g].window)
  }

  ghost predicate Inv(c: Config, s: State) {
    && TokensInOrder(s.clock, s.tokens) && ClaimsInOrder(s.tokens, s.windowToken, s.claims)
    && WindowsFromTokens(c, s.tokens, s.windows, s.windowToken)
    && AgentsInOrder(c, s.clock, s.windows, s.agents) && CamerasInOrder(s.clock, s.windows, s.cameras)
    && WorkInOrder(c, s.clock, s.windows, s.work)
    && RowsFromWindows(s.clock, s.windows, s.rows, s.rowWindow)
    && WinnersInOrder(s.clock, s.windows, s.agents, s.rowWindow)
  }

  lemma InvalidateKeeps(c: Config, s: State, session: Session)
    requires Inv(c, s)
    ensures Inv(c, s.(tokens := Invalidate(s.tokens, session, s.clock)))
  {
    hide AgentsInOrder, CamerasInOrder, WorkInOrder, RowsFromWindows, WinnersInOrder;
  }

  lemma TickKeeps(c: Config, s: State, to: real)
    requires Inv(c, s)
    ensures Inv(c, Apply(c, s, Tick(to)))
  {
    hide ClaimsInOrder, WindowsFromTokens;
  }

  lemma MintKeeps(c: Config, s: State, i: int, t: TokenId)
    requires Inv(c, s)
    ensures Inv(c, DoMint(c, s, i, t))
  {
    hide AgentsInOrder, CamerasInOrder, WorkInOrder, RowsFromWindows, WinnersInOrder;
  }

  lemma LookupKeeps(c: Config, s: State, k: int, t: TokenId, student: Student, answered: bool)
    requires Inv(c, s)
    ensures Inv(c, DoLookup(s, k, t, student, answered))
  {
    hide TokensInOrder, WindowsFromTokens, AgentsInOrder, CamerasInOrder, WorkInOrder, RowsFromWindows,
        WinnersInOrder, HasAttempt;
  }

  lemma UnusedOpensNothing(c: Config, s: State, t: TokenId)
    requires WindowsFromTokens(c, s.tokens, s.windows, s.windowToken) && t in s.tokens && Unused(s.tokens[t])
    ensures forall w :: w in s.windowToken ==> s.windowToken[w] != t
  {
  }

  lemma UnusedWasNotWon(tokens: map<TokenId, Token>, windowToken: map<WindowId, TokenId>, claims: map<int, Claim>,
                        t: TokenId)
    requires ClaimsInOrder(tokens, windowToken, claims) && t in tokens && Unused(tokens[t])
    ensures forall k :: k in claims && claims[k].Won? ==> claims[k].token != t
  {
  }

  /** The token goes from unused to used by the claim that holds it. */
  lemma UsedKeepsClaims(now: real, tokens: map<TokenId, Token>, windowToken: map<WindowId, TokenId>,
                        claims: map<int, Claim>, k: int, t: TokenId, student: Student)
    requires ClaimsInOrder(tokens, windowToken, claims) && t in tokens
    requires forall w :: w in windowToken ==> windowToken[w] != t
    requires forall j :: j in claims && claims[j].Won? ==> claims[j].token != t
    ensures ClaimsInOrder(UsedBy(tokens, t, student, now), windowToken, claims[k := Won(t, student, now)])
  {
  }

  lemma UsedKeepsTokens(now: real, tokens: map<TokenId, Token>, t: TokenId, student: Student)
    requires TokensInOrder(now, tokens) && t in tokens && tokens[t].expiresAt > now
    ensures TokensInOrder(now, UsedBy(tokens, t, student, now))
  {
  }

  lemma UsedKeepsWindows(c: Config, now: real, tokens: map<TokenId, Token>, windows: map<WindowId, VerifyWindow>,
                         windowToken: map<WindowId, TokenId>, t: TokenId, student: Student)
    requires WindowsFromTokens(c, tokens, windows, windowToken) && t in tokens
    requires forall w :: w in windowToken ==> windowToken[w] != t
    ensures WindowsFromTokens(c, UsedBy(tokens, t, student, now), windows, windowToken)
  {
  }

  lemma ClaimEnds(s: State, k: int)
    requires ClaimsInOrder(s.tokens, s.windowToken, s.claims)
    ensures ClaimsInOrder(s.tokens, s.windowToken, s.claims - {k})
  {
  }

  lemma UseTokenKeeps(c: Config, s: State, k: int)
    requires Inv(c, s)
    ensures Inv(c, DoUseToken(s, k))
  {
    hide UsedBy, Unused, TokensInOrder, ClaimsInOrder, WindowsFromTokens, AgentsInOrder, CamerasInOrder, WorkInOrder,
        RowsFromWindows, WinnersInOrder;
    ClaimEnds(s, k);
    if k in s.claims && s.claims[k].token in s.tokens && Unused(s.tokens[s.claims[k].token])
        && s.tokens[s.claims[k].token].expiresAt > s.clock {
      var t, student := s.claims[k].token, s.claims[k].student;
      UnusedOpensNothing(c, s, t);
      UnusedWasNotWon(s.tokens, s.windowToken, s.claims, t);
      UsedKeepsTokens(s.clock, s.tokens, t, student);
      UsedKeepsClaims(s.clock, s.tokens, s.windowToken, s.claims, k, t, student);
      UsedKeepsWindows(c, s.clock, s.tokens, s.windows, s.windowToken, t, student);
    }
  }

  /** Windows are never removed, and all of a window but `satisfiedAt` is fixed; that is fixed
      once set. */
  ghost predicate WindowsGrow(before: map<WindowId, VerifyWindow>, after: map<WindowId, VerifyWindow>) {
    forall w :: w in before ==>
      && w in after && after[w].session == before[w].session && after[w].student == before[w].student
      && after[w].expiresAt == before[w].expiresAt && (before[w].satisfiedAt.Some? ==> after[w] == before[w])
  }

  lemma AgentsStay(c: Config, now: real, before: map<WindowId, VerifyWindow>, after: map<WindowId, VerifyWindow>,
                   agents: map<int, Agent>)
    requires WindowsGrow(before, after) && AgentsInOrder(c, now, before, agents)
    ensures AgentsInOrder(c, now, after, agents)
  {
  }

  lemma CamerasStay(now: real, before: map<WindowId, VerifyWindow>, after: map<WindowId, VerifyWindow>,
                    cameras: map<int, Camera>)
    requires WindowsGrow(before, after) && CamerasInOrder(now, before, cameras)
    ensures CamerasInOrder(now, after, cameras)
  {
    forall m | m in cameras
      ensures CameraOk(now, after, cameras[m])
    {
      assert CameraOk(now, before, cameras[m]);
      CameraStays(now, before, after, cameras[m]);
    }
  }

  lemma CameraStays(now: real, before: map<WindowId, VerifyWindow>, after: map<WindowId, VerifyWindow>, m: Camera)
    requires WindowsGrow(before, after) && CameraOk(now, before, m)
    ensures CameraOk(now, after, m)
  {
    forall st | st in m.targets
      ensures var w := m.targets[st];
        w in after && after[w].session == m.session && after[w].student == st && m.refreshedAt < after[w].expiresAt
    {
      var w := m.targets[st];
      assert w in before;
    }
  }

  lemma RowsStay(now: real, before: map<WindowId, VerifyWindow>, after: map<WindowId, VerifyWindow>,
                 rows: seq<PresenceRow>, rowWindow: seq<WindowId>)
    requires WindowsGrow(before, after) && RowsFromWindows(now, before, rows, rowWindow)
    ensures RowsFromWindows(now, after, rows, rowWindow)
  {
  }

  lemma WinnersStay(now: real, before: map<WindowId, VerifyWindow>, after: map<WindowId, VerifyWindow>,
                    agents: map<int, Agent>, rowWindow: seq<WindowId>)
    requires WindowsGrow(before, after) && WinnersInOrder(now, before, agents, rowWindow)
    ensures WinnersInOrder(now, after, agents, rowWindow)
  {
  }

  lemma WorkStays(c: Config, now: real, before: map<WindowId, VerifyWindow>, w: WindowId, v: VerifyWindow,
                  work: map<WindowId, Agent>)
    requires w !in before && v.satisfiedAt.None? && WorkInOrder(c, now, before, work)
    ensures WorkInOrder(c, now, before[w := v], work)
  {
  }

  /** A fresh, unsatisfied window disturbs no work and no rows. */
  lemma NewWindow(c: Config, s: State, w: WindowId, v: VerifyWindow)
    requires w !in s.windows && v.satisfiedAt.None? && Inv(c, s)
    ensures AgentsInOrder(c, s.clock, s.windows[w := v], s.agents)
      && CamerasInOrder(s.clock, s.windows[w := v], s.cameras)
    ensures WorkInOrder(c, s.clock, s.windows[w := v], s.work)
    ensures RowsFromWindows(s.clock, s.windows[w := v], s.rows, s.rowWindow)
      && WinnersInOrder(s.clock, s.windows[w := v], s.agents, s.rowWindow)
  {
    hide TokensInOrder, ClaimsInOrder, WindowsFromTokens, AgentsInOrder, CamerasInOrder, WorkInOrder, RowsFromWindows,
        WinnersInOrder;
    AgentsStay(c, s.clock, s.windows, s.windows[w := v], s.agents);
    CamerasStay(s.clock, s.windows, s.windows[w := v], s.cameras);
    WorkStays(c, s.clock, s.windows, w, v, s.work);
    RowsStay(s.clock, s.windows, s.windows[w := v], s.rows, s.rowWindow);
    WinnersStay(s.clock, s.windows, s.windows[w := v], s.agents, s.rowWindow);
  }

  lemma WindowFromToken(c: Config, s: State, k: int, w: WindowId, v: VerifyWindow)
    requires ClaimsInOrder(s.tokens, s.windowToken, s.claims)
      && WindowsFromTokens(c, s.tokens, s.windows, s.windowToken)
    requires k in s.claims && s.claims[k].Won? && w !in s.windows && s.claims[k].token in s.tokens
    requires v
      == VerifyWindow(s.tokens[s.claims[k].token].session, s.claims[k].student, s.claims[k].at + c.windowTtl, None)
    ensures WindowsFromTokens(c, s.tokens, s.windows[w := v], s.windowToken[w := s.claims[k].token])
    ensures ClaimsInOrder(s.tokens, s.windowToken[w := s.claims[k].token], s.claims - {k})
  {
  }

  lemma OpenWindowKeeps(c: Config, s: State, k: int, w: WindowId, persisted: bool)
    requires Inv(c, s)
    ensures Inv(c, DoOpenWindow(c, s, k, w, persisted))
  {
    hide TokensInOrder, ClaimsInOrder, WindowsFromTokens, AgentsInOrder, CamerasInOrder, WorkInOrder, RowsFromWindows,
        WinnersInOrder;
    if k in s.claims && s.claims[k].Won? && s.claims[k].token in s.tokens && w !in s.windows {
      var v := VerifyWindow(s.tokens[s.claims[k].token].session, s.claims[k].student, s.claims[k].at + c.windowTtl,
                            None);
      WindowFromToken(c, s, k, w, v);
      ClaimEnds(s, k);
      NewWindow(c, s, w, v);
    }
  }

  lemma ReadWindowKeeps(c: Config, s: State, g: int, w: WindowId, student: Student)
    requires Inv(c, s)
    ensures Inv(c, DoReadWindow(s, g, w, student))
  {
    hide TokensInOrder, ClaimsInOrder, WindowsFromTokens, CamerasInOrder, WorkInOrder, RowsFromWindows;
  }

  lemma RefreshKeeps(c: Config, s: State, m: int, session: Session, targets: map<Student, WindowId>, answered: bool,
                     ts: real)
    requires Inv(c, s)
    ensures Inv(c, DoRefresh(s, m, session, targets, answered, ts))
  {
    hide TokensInOrder, ClaimsInOrder, WindowsFromTokens, AgentsInOrder, WorkInOrder, RowsFromWindows, WinnersInOrder;
  }

  lemma TakeKeeps(c: Config, s: State, m: int, student: Student, g: int, ts: real)
    requires Inv(c, s)
    ensures Inv(c, DoTake(c, s, m, student, g, ts))
  {
    hide TokensInOrder, ClaimsInOrder, WindowsFromTokens, WorkInOrder, RowsFromWindows;
  }

  /** The window `w`, satisfied just now by `g`. */
  lemma WorkDone(c: Config, now: real, before: map<WindowId, VerifyWindow>, work: map<WindowId, Agent>, g: Agent)
    requires WorkInOrder(c, now, before, work) && AgentOk(c, now, before, g)
    ensures WorkInOrder(c, now, before[g.window := before[g.window].(satisfiedAt := Some(now))], work[g.window := g])
  {
  }

  lemma AgentWins(c: Config, now: real, windows: map<WindowId, VerifyWindow>, agents: map<int, Agent>, g: int)
    requires AgentsInOrder(c, now, windows, agents) && g in agents
    ensures AgentsInOrder(c, now, windows, agents[g := agents[g].(won := true)])
      && AgentsInOrder(c, now, windows, agents - {g})
  {
  }

  /** A window satisfied just now has no row yet and no other winner. */
  lemma NewWinner(now: real, before: map<WindowId, VerifyWindow>, agents: map<int, Agent>, g: int,
                  rows: seq<PresenceRow>, rowWindow: seq<WindowId>)
    requires WinnersInOrder(now, before, agents, rowWindow) && RowsFromWindows(now, before, rows, rowWindow)
    requires g in agents && agents[g].window in before && before[agents[g].window].satisfiedAt.None?
    ensures var w := agents[g].window;
      WinnersInOrder(now, before[w := before[w].(satisfiedAt := Some(now))], agents[g := agents[g].(won := true)],
                     rowWindow)
  {
    var w := agents[g].window;
    forall k | 0 <= k < |rowWindow|
      ensures rowWindow[k] != w
    {
      assert RowOk(now, before, rows[k], rowWindow[k]);
    }
    WinnersStay(now, before, before[w := before[w].(satisfiedAt := Some(now))], agents, rowWindow);
  }

  lemma LoserLeaves(now: real, windows: map<WindowId, VerifyWindow>, agents: map<int, Agent>, g: int,
                    rowWindow: seq<WindowId>)
    requires WinnersInOrder(now, windows, agents, rowWindow)
    ensures WinnersInOrder(now, windows, agents - {g}, rowWindow)
  {
  }

  lemma SatisfyKeeps(c: Config, s: State, g: int)
    requires Inv(c, s)
    ensures Inv(c, DoSatisfy(s, g))
  {
    hide TokensInOrder, ClaimsInOrder, WindowsFromTokens, CamerasInOrder, WorkInOrder, RowsFromWindows,
        WinnersInOrder, AgentOk;
    if g in s.agents && !s.agents[g].won && s.agents[g].window in s.windows {
      var w := s.agents[g].window;
      LoserLeaves(s.clock, s.windows, s.agents, g, s.rowWindow);
      AgentWins(c, s.clock, s.windows, s.agents, g);
      if s.windows[w].satisfiedAt.None? {
        var after := s.windows[w := s.windows[w].(satisfiedAt := Some(s.clock))];
        SatisfiedFromToken(c, s, w, Some(s.clock));
        AgentsStay(c, s.clock, s.windows, after, s.agents[g := s.agents[g].(won := true)]);
        CamerasStay(s.clock, s.windows, after, s.cameras);
        RowsStay(s.clock, s.windows, after, s.rows, s.rowWindow);
        WorkDone(c, s.clock, s.windows, s.work, s.agents[g]);
        NewWinner(s.clock, s.windows, s.agents, g, s.rows, s.rowWindow);
      }
    }
  }

  lemma SatisfiedFromToken(c: Config, s: State, w: WindowId, at: Option<real>)
    requires WindowsFromTokens(c, s.tokens, s.windows, s.windowToken) && w in s.windows
    ensures WindowsFromTokens(c, s.tokens, s.windows[w := s.windows[w].(satisfiedAt := at)], s.windowToken)
  {
  }

  lemma GiveUpKeeps(c: Config, s: State, g: int)
    requires Inv(c, s)
    ensures Inv(c, s.(agents := s.agents - {g}))
  {
    hide TokensInOrder, ClaimsInOrder, WindowsFromTokens, CamerasInOrder, WorkInOrder, RowsFromWindows;
  }

  lemma WriteRowKeeps(c: Config, s: State, g: int, persisted: bool)
    requires Inv(c, s)
    ensures Inv(c, DoWriteRow(s, g, persisted))
  {
    hide TokensInOrder, ClaimsInOrder, WindowsFromTokens, CamerasInOrder, WorkInOrder;
  }

  /** Whoever is half-way through may never make the next request. */
  lemma AbandonKeeps(c: Config, s: State, i: int)
    requires Inv(c, s)
    ensures Inv(c, s.(issuing := s.issuing - {i})) && Inv(c, s.(claims := s.claims - {i}))
  {
    hide TokensInOrder, ClaimsInOrder, WindowsFromTokens, AgentsInOrder, CamerasInOrder, WorkInOrder, RowsFromWindows,
        WinnersInOrder;
    ClaimEnds(s, i);
  }

  /** Every step keeps the invariant. */
  lemma StepKeeps(c: Config, s: State, a: Action)
    requires Inv(c, s)
    ensures Inv(c, Apply(c, s, a))
  {
    hide Inv, DoExpire, DoMint, DoLookup, DoUseToken, DoOpenWindow, DoReadWindow, DoRefresh, DoTake, DoSatisfy,
        DoWriteRow, Invalidate;
    match a {
      case Tick(to) => TickKeeps(c, s, to);
      case Expire(i, session) => ExpireKeeps(c, s, i, session);
      case Mint(i, t) => MintKeeps(c, s, i, t);
      case AbandonIssue(i) => AbandonKeeps(c, s, i);
      case CloseQr(session) => InvalidateKeeps(c, s, session);
      case Lookup(k, t, student, answered) => LookupKeeps(c, s, k, t, student, answered);
      case UseToken(k) => UseTokenKeeps(c, s, k);
      case OpenWindow(k, w, persisted) => OpenWindowKeeps(c, s, k, w, persisted);
      case AbandonClaim(k) => AbandonKeeps(c, s, k);
      case ReadWindow(g, w, student) => ReadWindowKeeps(c, s, g, w, student);
      case Refresh(m, session, targets, answered, ts) => RefreshKeeps(c, s, m, session, targets, answered, ts);
      case Take(m, student, g, ts) => TakeKeeps(c, s, m, student, g, ts);
      case Satisfy(g) => SatisfyKeeps(c, s, g);
      case GiveUp(g) => GiveUpKeeps(c, s, g);
      case WriteRow(g, persisted) => WriteRowKeeps(c, s, g, persisted);
    }
  }

  lemma ExpireKeeps(c: Config, s: State, i: int, session: Session)
    requires Inv(c, s)
    ensures Inv(c, DoExpire(s, i, session))
  {
    hide TokensInOrder, ClaimsInOrder, WindowsFromTokens, AgentsInOrder, CamerasInOrder, WorkInOrder, RowsFromWindows,
        WinnersInOrder, Invalidate;
    InvalidateKeeps(c, s, session);
  }
}
