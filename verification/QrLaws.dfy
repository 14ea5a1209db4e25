/**
 What the QR protocol guarantees over every interleaving, what it guarantees only when
 requests are serialised, and runs that show the difference.
 */
module QrLaws {
  import opened Wrappers
  import opened QrProtocol

  lemma {:induction false} RunsKeepTheInvariant(c: Config, now: real, actions: seq<Action>)
    ensures Inv(c, Run(c, Init(now), actions))
  {
    hide Inv, Apply;
    if actions == [] {
      StartsInOrder(c, now);
    } else {
      RunsKeepTheInvariant(c, now, actions[..|actions| - 1]);
      StepKeeps(c, Run(c, Init(now), actions[..|actions| - 1]), actions[|actions| - 1]);
    }
  }

  lemma StartsInOrder(c: Config, now: real)
    ensures Inv(c, Init(now))
  {
  }

  // ---------- Rows, windows, tokens ----------

  /** In every interleaving, each via-qr row has a window of its own, satisfied before the row
      was written, of the same session and student. */
  lemma RowsHaveTheirOwnWindows(c: Config, now: real, actions: seq<Action>)
    ensures var s := Run(c, Init(now), actions);
      && |s.rowWindow| == |s.rows|
      && (forall k :: 0 <= k < |s.rows| ==> RowOk(s.clock, s.windows, s.rows[k], s.rowWindow[k]))
      && (forall j, k :: 0 <= j < k < |s.rows| ==> s.rowWindow[j] != s.rowWindow[k])
  {
    RunsKeepTheInvariant(c, now, actions);
  }

  /** Each window has a token of its own, of its session, used by its student, before the token
      expired and one window lifetime before the window expires. */
  lemma WindowsHaveTheirOwnTokens(c: Config, now: real, actions: seq<Action>)
    ensures var s := Run(c, Init(now), actions);
      && s.windowToken.Keys == s.windows.Keys
      && (forall w :: w in s.windows ==> WindowOk(c, s.tokens, s.windowToken[w], s.windows[w]))
      && (forall w :: w in s.windows ==> s.tokens[s.windowToken[w]].usedAt.value < s.tokens[s.windowToken[w]].expiresAt)
      && (forall v, w :: v in s.windows && w in s.windows && v != w ==> s.windowToken[v] != s.windowToken[w])
  {
    RunsKeepTheInvariant(c, now, actions);
    var s := Run(c, Init(now), actions);
    forall w | w in s.windows
      ensures WindowOk(c, s.tokens, s.windowToken[w], s.windows[w])
      ensures s.tokens[s.windowToken[w]].usedAt.value < s.tokens[s.windowToken[w]].expiresAt
    {
      assert TokenOk(s.clock, s.tokens[s.windowToken[w]]);
    }
  }

  ghost function SatisfiedWindows(s: State): set<WindowId> {
    set w | w in s.windows && s.windows[w].satisfiedAt.Some?
  }

  ghost function UsedTokens(s: State): set<TokenId> {
    set t | t in s.tokens && s.tokens[t].usedAt.Some?
  }

  lemma {:induction false} DistinctLength<T>(xs: seq<T>, bound: set<T>)
    requires (forall j, k :: 0 <= j < k < |xs| ==> xs[j] != xs[k]) && forall k :: 0 <= k < |xs| ==> xs[k] in bound
    ensures |xs| <= |bound|
  {
    if xs == [] {
    } else {
      DistinctLength(xs[..|xs| - 1], bound - {xs[|xs| - 1]});
    }
  }

  lemma {:induction false} ImageSize<K, V>(m: map<K, V>, bound: set<V>)
    requires (forall v, w :: v in m && w in m && v != w ==> m[v] != m[w]) && forall w :: w in m ==> m[w] in bound
    ensures |m.Keys| <= |bound|
    decreases |m.Keys|
  {
    if |m.Keys| == 0 {
    } else {
      var w :| w in m.Keys;
      var rest := m - {w};
      assert m.Keys == rest.Keys + {w};
      ImageSize(rest, bound - {m[w]});
    }
  }

  /** There are at most as many qr rows as satisfied windows, and at most as many windows as
      used tokens. */
  lemma NoMoreRowsThanTokens(c: Config, now: real, actions: seq<Action>)
    ensures var s := Run(c, Init(now), actions);
      |s.rows| <= |SatisfiedWindows(s)| <= |s.windows.Keys| <= |UsedTokens(s)|
  {
    hide Run, Inv, RowOk, WindowOk;
    var s := Run(c, Init(now), actions);
    RowsHaveTheirOwnWindows(c, now, actions);
    WindowsHaveTheirOwnTokens(c, now, actions);
    forall k | 0 <= k < |s.rowWindow|
      ensures s.rowWindow[k] in SatisfiedWindows(s)
    {
      RowIsSatisfied(s, k);
    }
    DistinctLength(s.rowWindow, SatisfiedWindows(s));
    SubsetSize(SatisfiedWindows(s), s.windows.Keys);
    forall w | w in s.windowToken
      ensures s.windowToken[w] in UsedTokens(s)
    {
      WindowUsesToken(c, s, w);
    }
    ImageSize(s.windowToken, UsedTokens(s));
  }

  lemma RowIsSatisfied(s: State, k: nat)
    requires k < |s.rows| == |s.rowWindow| && RowOk(s.clock, s.windows, s.rows[k], s.rowWindow[k])
    ensures s.rowWindow[k] in SatisfiedWindows(s)
  {
  }

  lemma WindowUsesToken(c: Config, s: State, w: WindowId)
    requires w in s.windows && w in s.windowToken && WindowOk(c, s.tokens, s.windowToken[w], s.windows[w])
    ensures s.windowToken[w] in UsedTokens(s)
  {
  }

  // ---------- At most once ----------

  /** Tokens are never removed and keep their session; a used token never changes again. */
  ghost predicate TokensGrow(before: map<TokenId, Token>, after: map<TokenId, Token>) {
    forall t :: t in before ==>
      t in after && after[t].session == before[t].session && (before[t].usedAt.Some? ==> after[t] == before[t])
  }

  /** From `s` to `s'` time went on, and tokens, windows and rows only grew. */
  ghost predicate Grows(s: State, s': State) {
    && s.clock <= s'.clock && TokensGrow(s.tokens, s'.tokens) && WindowsGrow(s.windows, s'.windows)
    && |s.rows| <= |s'.rows| && s'.rows[..|s.rows|] == s.rows
  }

  /** Nothing that issuing depends on has changed. */
  ghost predicate SameIssue(s: State, s': State) {
    s'.tokens == s.tokens && s'.clock == s.clock && s'.issuing == s.issuing
  }

  ghost predicate SameClaims(s: State, s': State) {
    s'.claims == s.claims && s'.windows == s.windows
  }

  lemma UseTokenGrows(s: State, k: int)
    ensures Grows(s, DoUseToken(s, k))
    ensures DoUseToken(s, k).windows == s.windows && DoUseToken(s, k).issuing == s.issuing
  {
    hide TokensGrow, WindowsGrow, UsedBy, Unused, WonBy;
    SameGrows(s.tokens, s.windows);
    if k !in s.claims || s.claims[k].Won? || s.claims[k].token !in s.tokens {
      assert DoUseToken(s, k) == s;
    } else if Unused(s.tokens[s.claims[k].token]) && s.tokens[s.claims[k].token].expiresAt > s.clock {
      var tokens := UsedBy(s.tokens, s.claims[k].token, s.claims[k].student, s.clock);
      assert DoUseToken(s, k) == s.(tokens := tokens, claims := WonBy(s.claims, k, s.clock));
      UsedGrows(s.tokens, s.claims[k].token, s.claims[k].student, s.clock);
    } else {
      assert DoUseToken(s, k) == s.(claims := s.claims - {k});
    }
  }

  lemma OpenWindowGrows(c: Config, s: State, k: int, w: WindowId, persisted: bool)
    ensures Grows(s, DoOpenWindow(c, s, k, w, persisted))
    ensures SameIssue(s, DoOpenWindow(c, s, k, w, persisted))
  {
    hide TokensGrow, WindowsGrow;
    SameGrows(s.tokens, s.windows);
    if k in s.claims && s.claims[k].Won? && s.claims[k].token in s.tokens && w !in s.windows {
      NewWindowGrows(s.windows, w,
                     VerifyWindow(s.tokens[s.claims[k].token].session, s.claims[k].student,
                                  s.claims[k].at + c.windowTtl, None));
    }
  }

  lemma SatisfyGrows(s: State, g: int)
    ensures Grows(s, DoSatisfy(s, g))
    ensures SameIssue(s, DoSatisfy(s, g)) && DoSatisfy(s, g).claims == s.claims
  {
    hide TokensGrow, WindowsGrow;
    SameGrows(s.tokens, s.windows);
    if g in s.agents && s.agents[g].window in s.windows && s.windows[s.agents[g].window].satisfiedAt.None? {
      SatisfiedGrows(s.windows, s.agents[g].window, Some(s.clock));
    }
  }

  lemma MintGrows(c: Config, s: State, i: int, t: TokenId)
    ensures Grows(s, DoMint(c, s, i, t)) && SameClaims(s, DoMint(c, s, i, t))
  {
    hide TokensGrow, WindowsGrow;
    SameGrows(s.tokens, s.windows);
    if i in s.issuing && t !in s.tokens {
      NewTokenGrows(s.tokens, t, Token(s.issuing[i], s.clock + c.claimTtl, None, None));
    }
  }

  lemma ExpireGrows(s: State, i: int, session: Session)
    ensures Grows(s, DoExpire(s, i, session)) && Grows(s, s.(tokens := Invalidate(s.tokens, session, s.clock)))
    ensures SameClaims(s, DoExpire(s, i, session))
  {
    hide TokensGrow, WindowsGrow, Invalidate;
    SameGrows(s.tokens, s.windows);
    InvalidateGrows(s.tokens, session, s.clock);
  }

  lemma TickGrows(s: State, to: real)
    ensures Grows(s, s) && (to > s.clock ==> Grows(s, s.(clock := to)))
  {
    hide TokensGrow, WindowsGrow;
    SameGrows(s.tokens, s.windows);
  }

  lemma LookupGrows(s: State, k: int, t: TokenId, student: Student, answered: bool)
    ensures Grows(s, DoLookup(s, k, t, student, answered))
    ensures SameIssue(s, DoLookup(s, k, t, student, answered))
      && DoLookup(s, k, t, student, answered).windows == s.windows
  {
    hide TokensGrow, WindowsGrow, HasAttempt;
    SameGrows(s.tokens, s.windows);
  }

  lemma ReadWindowGrows(s: State, g: int, w: WindowId, student: Student)
    ensures Grows(s, DoReadWindow(s, g, w, student))
    ensures SameIssue(s, DoReadWindow(s, g, w, student)) && SameClaims(s, DoReadWindow(s, g, w, student))
  {
    hide TokensGrow, WindowsGrow;
    SameGrows(s.tokens, s.windows);
    assert DoReadWindow(s, g, w, student) == s.(agents := DoReadWindow(s, g, w, student).agents);
  }

  lemma RefreshGrows(s: State, m: int, session: Session, targets: map<Student, WindowId>, answered: bool, ts: real)
    ensures Grows(s, DoRefresh(s, m, session, targets, answered, ts))
    ensures SameIssue(s, DoRefresh(s, m, session, targets, answered, ts))
      && SameClaims(s, DoRefresh(s, m, session, targets, answered, ts))
  {
    hide TokensGrow, WindowsGrow, AreTargets;
    SameGrows(s.tokens, s.windows);
  }

  lemma TakeGrows(c: Config, s: State, m: int, student: Student, g: int, ts: real)
    ensures Grows(s, DoTake(c, s, m, student, g, ts))
    ensures SameIssue(s, DoTake(c, s, m, student, g, ts)) && SameClaims(s, DoTake(c, s, m, student, g, ts))
  {
    hide TokensGrow, WindowsGrow;
    SameGrows(s.tokens, s.windows);
  }

  lemma WriteRowGrows(s: State, g: int, persisted: bool)
    ensures Grows(s, DoWriteRow(s, g, persisted)) && Grows(s, s.(agents := s.agents - {g}))
    ensures SameIssue(s, DoWriteRow(s, g, persisted)) && SameIssue(s, s.(agents := s.agents - {g}))
    ensures SameClaims(s, DoWriteRow(s, g, persisted)) && SameClaims(s, s.(agents := s.agents - {g}))
  {
    hide TokensGrow, WindowsGrow;
    SameGrows(s.tokens, s.windows);
  }

  lemma AbandonGrows(s: State, i: int)
    ensures Grows(s, s.(issuing := s.issuing - {i})) && SameClaims(s, s.(issuing := s.issuing - {i}))
    ensures Grows(s, s.(claims := s.claims - {i})) && SameIssue(s, s.(claims := s.claims - {i}))
    ensures s.(claims := s.claims - {i}).windows == s.windows
  {
    hide TokensGrow, WindowsGrow;
    SameGrows(s.tokens, s.windows);
  }

  lemma StepGrows(c: Config, s: State, a: Action)
    ensures Grows(s, Apply(c, s, a))
  {
    hide Grows, DoExpire, DoMint, DoLookup, DoUseToken, DoOpenWindow, DoReadWindow, DoRefresh, DoTake, DoSatisfy,
        DoWriteRow, Invalidate;
    match a {
      case UseToken(k) => UseTokenGrows(s, k);
      case OpenWindow(k, w, persisted) => OpenWindowGrows(c, s, k, w, persisted);
      case Satisfy(g) => SatisfyGrows(s, g);
      case Lookup(k, t, student, answered) => LookupGrows(s, k, t, student, answered);
      case ReadWindow(g, w, student) => ReadWindowGrows(s, g, w, student);
      case Refresh(m, session, targets, answered, ts) => RefreshGrows(s, m, session, targets, answered, ts);
      case Take(m, student, g, ts) => TakeGrows(c, s, m, student, g, ts);
      case GiveUp(g) => WriteRowGrows(s, g, true);
      case AbandonIssue(i) => AbandonGrows(s, i);
      case AbandonClaim(k) => AbandonGrows(s, k);
      case WriteRow(g, persisted) => WriteRowGrows(s, g, persisted);
      case Mint(i, t) => MintGrows(c, s, i, t);
      case Expire(i, session) => ExpireGrows(s, i, session);
      case CloseQr(session) => ExpireGrows(s, 0, session);
      case Tick(to) => TickGrows(s, to);
    }
  }

  lemma SameGrows(tokens: map<TokenId, Token>, windows: map<WindowId, VerifyWindow>)
    ensures TokensGrow(tokens, tokens) && WindowsGrow(windows, windows)
  {
  }

  lemma UsedGrows(tokens: map<TokenId, Token>, t: TokenId, student: Student, now: real)
    requires t in tokens && Unused(tokens[t])
    ensures TokensGrow(tokens, UsedBy(tokens, t, student, now))
  {
  }

  lemma NewWindowGrows(windows: map<WindowId, VerifyWindow>, w: WindowId, v: VerifyWindow)
    requires w !in windows
    ensures WindowsGrow(windows, windows[w := v])
  {
  }

  lemma SatisfiedGrows(windows: map<WindowId, VerifyWindow>, w: WindowId, at: Option<real>)
    requires w in windows && windows[w].satisfiedAt.None?
    ensures WindowsGrow(windows, windows[w := windows[w].(satisfiedAt := at)])
  {
  }

  lemma InvalidateGrows(tokens: map<TokenId, Token>, session: Session, now: real)
    ensures TokensGrow(tokens, Invalidate(tokens, session, now))
  {
  }

  lemma NewTokenGrows(tokens: map<TokenId, Token>, t: TokenId, v: Token)
    requires t !in tokens
    ensures TokensGrow(tokens, tokens[t := v])
  {
  }

  /** Over a whole run a token is used at most once and a window satisfied at most once: once
      set, `usedAt`, `usedBy` and `satisfiedAt` keep their values. */
  lemma {:induction false} SetOnceForAll(c: Config, s: State, actions: seq<Action>, more: seq<Action>)
    ensures TokensGrow(Run(c, s, actions).tokens, Run(c, s, actions + more).tokens)
    ensures WindowsGrow(Run(c, s, actions).windows, Run(c, s, actions + more).windows)
    decreases |more|
  {
    hide Apply;
    if more == [] {
      assert actions + more == actions;
    } else {
      var n := |more| - 1;
      SetOnceForAll(c, s, actions, more[..n]);
      assert (actions + more)[..|actions| + n] == actions + more[..n];
      StepGrows(c, Run(c, s, actions + more[..n]), more[n]);
    }
  }

  // ---------- Expiry ----------

  /** Whoever satisfied a window had seen it open and unexpired, and set to work on it less than
      the refresh interval later by its own clock; if that clock runs with the database's, less
      than the refresh interval after it expired. */
  lemma SatisfiedWindowsWereSeenOpen(c: Config, now: real, actions: seq<Action>, w: WindowId)
    requires w in Run(c, Init(now), actions).windows && Run(c, Init(now), actions).windows[w].satisfiedAt.Some?
      && c.refreshS >= 0.0
    ensures var s := Run(c, Init(now), actions);
      && w in s.work && s.work[w].window == w && s.work[w].student == s.windows[w].student
      && s.work[w].seenAt < s.windows[w].expiresAt && (s.work[w].age == 0.0 || s.work[w].age < c.refreshS)
      && (s.work[w].begunAt - s.work[w].seenAt <= s.work[w].age ==>
          s.work[w].begunAt < s.windows[w].expiresAt + c.refreshS)
      && s.work[w].seenAt <= s.work[w].begunAt <= s.windows[w].satisfiedAt.value
  {
    RunsKeepTheInvariant(c, now, actions);
  }

  // ---------- One window per student ----------

  ghost predicate SameStudent(s: State, j: Claim, k: Claim)
    requires j.token in s.tokens && k.token in s.tokens
  {
    j.student == k.student && s.tokens[j.token].session == s.tokens[k.token].session
  }

  /** A claim starts only when the lookup of earlier attempts answers and no other claim of the
      student for the session is in flight. */
  ghost predicate SerialClaim(s: State, a: Action) {
    a.Lookup? && a.token in s.tokens ==>
      && a.answered
      && forall k :: k in s.claims && s.claims[k].token in s.tokens ==>
          !SameStudent(s, s.claims[k], Looked(a.token, a.student))
  }

  ghost predicate SerialClaims(c: Config, s: State, actions: seq<Action>) {
    actions == []
    || (SerialClaims(c, s, actions[..|actions| - 1])
        && SerialClaim(Run(c, s, actions[..|actions| - 1]), actions[|actions| - 1]))
  }

  ghost predicate OneWindow(windows: map<WindowId, VerifyWindow>) {
    forall v, w :: v in windows && w in windows && v != w ==>
        windows[v].session != windows[w].session || windows[v].student != windows[w].student
  }

  /** Claims in flight are for students without a window, and no two for the same. */
  ghost predicate Apart(tokens: map<TokenId, Token>, windows: map<WindowId, VerifyWindow>, claims: map<int, Claim>) {
    && (forall k, w :: k in claims && claims[k].token in tokens && w in windows ==>
         windows[w].session != tokens[claims[k].token].session || windows[w].student != claims[k].student)
    && (forall j, k ::
          j in claims && k in claims && j != k && claims[j].token in tokens && claims[k].token in tokens ==>
          claims[j].student != claims[k].student || tokens[claims[j].token].session != tokens[claims[k].token].session)
    && (forall k :: k in claims ==> claims[k].token in tokens)
  }

  /** No two windows, and no claim in flight beside a window or another claim, are for the same
      student and session. */
  ghost predicate OnePerStudent(s: State) {
    OneWindow(s.windows) && Apart(s.tokens, s.windows, s.claims)
  }

  lemma SameTokensApart(before: map<TokenId, Token>, after: map<TokenId, Token>, windows: map<WindowId, VerifyWindow>,
                        claims: map<int, Claim>)
    requires Apart(before, windows, claims) && TokensGrow(before, after)
    ensures Apart(after, windows, claims)
  {
  }

  lemma LookedIsApart(s: State, k: int, t: TokenId, student: Student)
    requires Apart(s.tokens, s.windows, s.claims) && t in s.tokens && k !in s.claims
    requires SerialClaim(s, Lookup(k, t, student, true)) && !HasAttempt(s, s.tokens[t].session, student)
    ensures Apart(s.tokens, s.windows, s.claims[k := Looked(t, student)])
  {
  }

  lemma WonIsApart(tokens: map<TokenId, Token>, windows: map<WindowId, VerifyWindow>, claims: map<int, Claim>, k: int,
                   at: real)
    requires Apart(tokens, windows, claims) && k in claims
    ensures Apart(tokens, windows, claims[k := Won(claims[k].token, claims[k].student, at)])
  {
  }

  lemma FewerAreApart(tokens: map<TokenId, Token>, windows: map<WindowId, VerifyWindow>, claims: map<int, Claim>,
                      k: int)
    requires Apart(tokens, windows, claims)
    ensures Apart(tokens, windows, claims - {k})
  {
  }

  lemma OpenedIsApart(s: State, k: int, w: WindowId, v: VerifyWindow)
    requires OnePerStudent(s) && k in s.claims && s.claims[k].token in s.tokens && w !in s.windows
    requires v.session == s.tokens[s.claims[k].token].session && v.student == s.claims[k].student
    ensures OneWindow(s.windows[w := v]) && Apart(s.tokens, s.windows[w := v], s.claims - {k})
  {
  }

  lemma SatisfiedIsApart(s: State, w: WindowId, at: Option<real>)
    requires OnePerStudent(s) && w in s.windows
    ensures var ws := s.windows[w := s.windows[w].(satisfiedAt := at)]; OneWindow(ws) && Apart(s.tokens, ws, s.claims)
  {
  }

  lemma StepKeepsOneWindow(c: Config, s: State, a: Action)
    requires OnePerStudent(s) && SerialClaim(s, a)
    ensures OnePerStudent(Apply(c, s, a))
  {
    hide OneWindow, Apart, DoExpire, DoMint, DoLookup, DoUseToken, DoOpenWindow, DoReadWindow, DoTake, DoRefresh,
        DoSatisfy, DoWriteRow, Invalidate, SameStudent;
    match a {
      case Lookup(k, t, student, answered) => LookupKeepsApart(c, s, a);
      case UseToken(k) => UseTokenKeepsApart(c, s, k);
      case OpenWindow(k, w, persisted) => OpenWindowKeepsApart(c, s, k, w, persisted);
      case Satisfy(g) => SatisfyKeepsApart(s, g);
      case AbandonClaim(k) => FewerAreApart(s.tokens, s.windows, s.claims, k);
      case _ => TokenStepKeepsApart(c, s, a);
    }
  }

  lemma LookupKeepsApart(c: Config, s: State, a: Action)
    requires OnePerStudent(s) && SerialClaim(s, a) && a.Lookup?
    ensures OnePerStudent(DoLookup(s, a.claim, a.token, a.student, a.answered))
  {
    hide OneWindow, Apart, HasAttempt, SameStudent;
    if a.claim !in s.claims && a.token in s.tokens && !HasAttempt(s, s.tokens[a.token].session, a.student) {
      LookedIsApart(s, a.claim, a.token, a.student);
    }
  }

  lemma OpenWindowKeepsApart(c: Config, s: State, k: int, w: WindowId, persisted: bool)
    requires OnePerStudent(s)
    ensures OnePerStudent(DoOpenWindow(c, s, k, w, persisted))
  {
    hide OneWindow, Apart;
    FewerAreApart(s.tokens, s.windows, s.claims, k);
    if k in s.claims && s.claims[k].Won? && s.claims[k].token in s.tokens && w !in s.windows {
      OpenedIsApart(s, k, w,
                    VerifyWindow(s.tokens[s.claims[k].token].session, s.claims[k].student,
                                 s.claims[k].at + c.windowTtl, None));
    }
  }

  lemma SatisfyKeepsApart(s: State, g: int)
    requires OnePerStudent(s)
    ensures OnePerStudent(DoSatisfy(s, g))
  {
    hide OneWindow, Apart;
    if g in s.agents && s.agents[g].window in s.windows {
      SatisfiedIsApart(s, s.agents[g].window, Some(s.clock));
    }
  }

  lemma UsedIsApart(s: State, k: int)
    requires OnePerStudent(s) && k in s.claims && s.claims[k].token in s.tokens && Unused(s.tokens[s.claims[k].token])
    ensures Apart(UsedBy(s.tokens, s.claims[k].token, s.claims[k].student, s.clock), s.windows,
                  s.claims[k := Won(s.claims[k].token, s.claims[k].student, s.clock)])
  {
    hide OneWindow, Apart, UsedBy, TokensGrow;
    WonIsApart(s.tokens, s.windows, s.claims, k, s.clock);
    UsedGrows(s.tokens, s.claims[k].token, s.claims[k].student, s.clock);
    SameTokensApart(s.tokens, UsedBy(s.tokens, s.claims[k].token, s.claims[k].student, s.clock), s.windows,
                    s.claims[k := Won(s.claims[k].token, s.claims[k].student, s.clock)]);
  }

  lemma UseTokenKeepsApart(c: Config, s: State, k: int)
    requires OnePerStudent(s)
    ensures OnePerStudent(DoUseToken(s, k))
  {
    hide OneWindow, Apart, UsedBy, Unused;
    FewerAreApart(s.tokens, s.windows, s.claims, k);
    if k in s.claims && s.claims[k].token in s.tokens && Unused(s.tokens[s.claims[k].token]) {
      UsedIsApart(s, k);
    }
  }

  lemma ClaimsStay(c: Config, s: State, a: Action)
    requires !a.Lookup? && !a.UseToken? && !a.OpenWindow? && !a.AbandonClaim? && !a.Satisfy?
    ensures Apply(c, s, a).claims == s.claims && Apply(c, s, a).windows == s.windows
  {
    hide Apply;
    if a.Expire? || a.Mint? {
      IssuersLeaveClaims(c, s, a);
    } else if a.Tick? || a.AbandonIssue? || a.CloseQr? {
      ClockLeavesClaims(c, s, a);
    } else {
      AgentsLeaveClaims(c, s, a);
    }
  }

  lemma IssuersLeaveClaims(c: Config, s: State, a: Action)
    requires a.Expire? || a.Mint?
    ensures Apply(c, s, a).claims == s.claims && Apply(c, s, a).windows == s.windows
  {
    hide Invalidate;
  }

  lemma ClockLeavesClaims(c: Config, s: State, a: Action)
    requires a.Tick? || a.AbandonIssue? || a.CloseQr?
    ensures Apply(c, s, a).claims == s.claims && Apply(c, s, a).windows == s.windows
  {
    hide Invalidate;
  }

  lemma AgentsLeaveClaims(c: Config, s: State, a: Action)
    requires a.ReadWindow? || a.Refresh? || a.Take? || a.WriteRow? || a.GiveUp?
    ensures Apply(c, s, a).claims == s.claims && Apply(c, s, a).windows == s.windows
  {
    hide DoReadWindow, DoRefresh, DoTake, DoWriteRow, Grows, SameIssue;
    match a {
      case ReadWindow(g, w, student) => ReadWindowGrows(s, g, w, student);
      case Refresh(m, session, targets, answered, ts) => RefreshGrows(s, m, session, targets, answered, ts);
      case Take(m, student, g, ts) => TakeGrows(c, s, m, student, g, ts);
      case WriteRow(g, persisted) => WriteRowGrows(s, g, persisted);
      case GiveUp(_) =>
    }
  }

  /** Steps that leave claims and windows alone. */
  lemma TokenStepKeepsApart(c: Config, s: State, a: Action)
    requires OnePerStudent(s) && !a.Lookup? && !a.UseToken? && !a.OpenWindow? && !a.AbandonClaim? && !a.Satisfy?
    ensures OnePerStudent(Apply(c, s, a))
  {
    hide OneWindow, Apart, WindowsGrow, TokensGrow, Apply;
    StepGrows(c, s, a);
    ClaimsStay(c, s, a);
    SameTokensApart(s.tokens, Apply(c, s, a).tokens, s.windows, s.claims);
  }

  lemma {:induction false} SerialClaimsKeepOneWindow(c: Config, now: real, actions: seq<Action>)
    requires SerialClaims(c, Init(now), actions)
    ensures OnePerStudent(Run(c, Init(now), actions))
  {
    hide Apply, OnePerStudent, SerialClaim;
    if actions == [] {
      assert OnePerStudent(Init(now)) by {
        NobodyYet(now);
      }
    } else {
      SerialClaimsKeepOneWindow(c, now, actions[..|actions| - 1]);
      StepKeepsOneWindow(c, Run(c, Init(now), actions[..|actions| - 1]), actions[|actions| - 1]);
    }
  }

  lemma NobodyYet(now: real)
    ensures OnePerStudent(Init(now))
  {
  }

  /** When claims of a student for a session come one after the other and the lookup of earlier
      attempts always answers, the student gets at most one window and at most one qr row. */
  lemma SerialClaimsGiveOneRow(c: Config, now: real, actions: seq<Action>)
    requires SerialClaims(c, Init(now), actions)
    ensures var s := Run(c, Init(now), actions);
      && OneWindow(s.windows)
      && forall j, k :: 0 <= j < k < |s.rows| ==>
          s.rows[j].session != s.rows[k].session || s.rows[j].student != s.rows[k].student
  {
    hide Run, SerialClaims, Apart;
    SerialClaimsKeepOneWindow(c, now, actions);
    RowsHaveTheirOwnWindows(c, now, actions);
  }

  // ---------- Undisturbed requests succeed ----------

  /** From any state: issuing a token and claiming it, for a student without an attempt, opens
      the student's window, which lasts one window lifetime. */
  lemma UndisturbedClaimOpensAWindow(c: Config, s: State, i: int, t: TokenId, k: int, w: WindowId, session: Session,
                                     student: Student)
    requires c.claimTtl > 0.0 && i !in s.issuing && t !in s.tokens && k !in s.claims && w !in s.windows
      && !HasAttempt(s, session, student)
    ensures var s' := Run(c, s,
                          [] + [Expire(i, session), Mint(i, t)]
                          + [Lookup(k, t, student, true), UseToken(k)] + [OpenWindow(k, w, true)]);
      && w in s'.windows && s'.windows[w] == VerifyWindow(session, student, s.clock + c.windowTtl, None)
      && w in s'.windowToken && s'.windowToken[w] == t && t in s'.tokens && s'.tokens[t].usedBy == Some(student)
      && s'.rows == s.rows && s'.clock == s.clock
  {
    hide Run, Apply, HasAttempt;
    var issue := [] + [Expire(i, session), Mint(i, t)];
    var use := issue + [Lookup(k, t, student, true), UseToken(k)];
    RunTwo(c, s, [], Expire(i, session), Mint(i, t));
    RunTwo(c, s, issue, Lookup(k, t, student, true), UseToken(k));
    RunSnoc(c, s, use, OpenWindow(k, w, true));
    RunNothing(c, s);
    var issued := Apply(c, Apply(c, s, Expire(i, session)), Mint(i, t));
    IssueMints(c, s, i, t, session);
    ClaimUses(c, issued, k, t, student, session);
    ClaimOpens(c, Apply(c, Apply(c, issued, Lookup(k, t, student, true)), UseToken(k)), k, w);
  }

  lemma ClaimOpens(c: Config, s: State, k: int, w: WindowId)
    requires k in s.claims && s.claims[k].Won? && s.claims[k].token in s.tokens && w !in s.windows
    ensures var (claim, s') := (s.claims[k], Apply(c, s, OpenWindow(k, w, true)));
      && w in s'.windows
      && s'.windows[w] == VerifyWindow(s.tokens[claim.token].session, claim.student, claim.at + c.windowTtl, None)
      && w in s'.windowToken && s'.windowToken[w] == claim.token
      && s'.tokens == s.tokens && s'.rows == s.rows && s'.clock == s.clock
  {
  }

  lemma RunNothing(c: Config, s: State)
    ensures Run(c, s, []) == s
  {
  }

  lemma IssueMints(c: Config, s: State, i: int, t: TokenId, session: Session)
    requires i !in s.issuing && t !in s.tokens
    ensures forall student ::
      HasAttempt(Apply(c, Apply(c, s, Expire(i, session)), Mint(i, t)), session, student)
          == HasAttempt(s, session, student)
    ensures var s' := Apply(c, Apply(c, s, Expire(i, session)), Mint(i, t));
      && t in s'.tokens && s'.tokens[t] == Token(session, s.clock + c.claimTtl, None, None)
      && s'.windows == s.windows && s'.claims == s.claims && s'.clock == s.clock && s'.rows == s.rows
      && s'.windowToken == s.windowToken
  {
    hide HasAttempt;
    assert t !in Invalidate(s.tokens, session, s.clock);
    SameWindowsSameAttempts(s, Apply(c, Apply(c, s, Expire(i, session)), Mint(i, t)), session);
  }

  lemma SameWindowsSameAttempts(s: State, s': State, session: Session)
    requires s'.windows == s.windows
    ensures forall student :: HasAttempt(s', session, student) == HasAttempt(s, session, student)
  {
  }

  lemma ClaimUses(c: Config, s: State, k: int, t: TokenId, student: Student, session: Session)
    requires k !in s.claims && t in s.tokens && s.tokens[t].session == session && Unused(s.tokens[t])
      && s.tokens[t].expiresAt > s.clock
    requires !HasAttempt(s, session, student)
    ensures var s' := Apply(c, Apply(c, s, Lookup(k, t, student, true)), UseToken(k));
      && k in s'.claims && s'.claims[k] == Won(t, student, s.clock)
      && t in s'.tokens && s'.tokens[t] == s.tokens[t].(usedAt := Some(s.clock), usedBy := Some(student))
      && s'.windows == s.windows && s'.clock == s.clock && s'.rows == s.rows && s'.windowToken == s.windowToken
  {
    hide HasAttempt;
  }

  /** A selfie request alone with an open window satisfies it and writes the student's row. */
  lemma UndisturbedSelfieGetsARow(c: Config, s: State, g: int, w: WindowId)
    requires IsOpen(s, w) && g !in s.agents
    ensures var s' := Run(c, s, [] + [ReadWindow(g, w, s.windows[w].student), Satisfy(g)] + [WriteRow(g, true)]);
      && s'.rows == s.rows + [PresenceRow(s.windows[w].session, s.windows[w].student, s.clock)]
      && s'.rowWindow == s.rowWindow + [w]
      && w in s'.windows && s'.windows[w].satisfiedAt == Some(s.clock)
  {
    hide Run;
    RunNothing(c, s);
    RunTwo(c, s, [], ReadWindow(g, w, s.windows[w].student), Satisfy(g));
    RunSnoc(c, s, [] + [ReadWindow(g, w, s.windows[w].student), Satisfy(g)], WriteRow(g, true));
    var read := Apply(c, s, ReadWindow(g, w, s.windows[w].student));
    assert read
        == s.(agents := s.agents[g := Agent(w, s.windows[w].student, s.windows[w].session, s.clock, s.clock, 0.0,
                                            false)]);
    WinnerWrites(c, read, g);
  }

  /** So does a camera that recognises a student whose window it has just been told of. */
  lemma UndisturbedCameraGetsARow(c: Config, s: State, m: int, session: Session, targets: map<Student, WindowId>,
                                  student: Student, g: int, ts: real)
    requires AreTargets(s, session, targets) && student in targets && g !in s.agents && c.refreshS > 0.0
    requires m in s.cameras ==> s.cameras[m].session == session
    ensures var s' := Run(c, s,
                          [] + [Refresh(m, session, targets, true, ts), Take(m, student, g, ts)]
                          + [Satisfy(g), WriteRow(g, true)]);
      && s'.rows == s.rows + [PresenceRow(session, student, s.clock)]
      && s'.rowWindow == s.rowWindow + [targets[student]]
      && targets[student] in s'.windows && s'.windows[targets[student]].satisfiedAt == Some(s.clock)
  {
    hide Run;
    RunNothing(c, s);
    RunTwo(c, s, [], Refresh(m, session, targets, true, ts), Take(m, student, g, ts));
    RunTwo(c, s, [] + [Refresh(m, session, targets, true, ts), Take(m, student, g, ts)], Satisfy(g), WriteRow(g, true));
    var taken := Apply(c, Apply(c, s, Refresh(m, session, targets, true, ts)), Take(m, student, g, ts));
    CameraTakes(c, s, m, session, targets, student, g, ts);
    WinnerWrites(c, taken, g);
  }

  lemma CameraTakes(c: Config, s: State, m: int, session: Session, targets: map<Student, WindowId>, student: Student,
                    g: int, ts: real)
    requires AreTargets(s, session, targets) && student in targets && g !in s.agents && c.refreshS > 0.0
    requires m in s.cameras ==> s.cameras[m].session == session
    ensures var s' := Apply(c, Apply(c, s, Refresh(m, session, targets, true, ts)), Take(m, student, g, ts));
      && g in s'.agents && s'.agents[g] == Agent(targets[student], student, session, s.clock, s.clock, 0.0, false)
      && s'.windows == s.windows && s'.clock == s.clock && s'.rows == s.rows && s'.rowWindow == s.rowWindow
  {
  }

  lemma WinnerWrites(c: Config, s: State, g: int)
    requires g in s.agents && !s.agents[g].won && s.agents[g].window in s.windows
      && s.windows[s.agents[g].window].satisfiedAt.None?
    ensures var (a, s') := (s.agents[g], Apply(c, Apply(c, s, Satisfy(g)), WriteRow(g, true)));
      && s'.rows == s.rows + [PresenceRow(a.session, a.student, s.clock)] && s'.rowWindow == s.rowWindow + [a.window]
      && a.window in s'.windows && s'.windows[a.window].satisfiedAt == Some(s.clock)
  {
  }

  /** Whoever comes second to a window writes nothing. */
  lemma SecondWritesNothing(c: Config, s: State, g: int)
    requires g in s.agents && !s.agents[g].won && s.agents[g].window in s.windows
      && s.windows[s.agents[g].window].satisfiedAt.Some?
    ensures var s' := Run(c, s, [] + [Satisfy(g), WriteRow(g, true)]);
      s'.rows == s.rows && s'.windows == s.windows && g !in s'.agents
  {
    hide Run;
    RunNothing(c, s);
    RunTwo(c, s, [], Satisfy(g), WriteRow(g, true));
  }

  // ---------- Runs that show what serialising is for ----------

  lemma RunSnoc(c: Config, s: State, actions: seq<Action>, a: Action)
    ensures Run(c, s, actions + [a]) == Apply(c, Run(c, s, actions), a)
  {
    hide Apply;
    assert (actions + [a])[..|actions|] == actions;
  }

  /** A state in which only the tokens and the claims matter. */
  function Early(tokens: map<TokenId, Token>, claims: map<int, Claim>, windows: map<WindowId, VerifyWindow>,
                 windowToken: map<WindowId, TokenId>): State {
    State(0.0, tokens, windows, [], map[], claims, map[], map[], [], windowToken, map[])
  }

  function Fresh(c: Config): Token {
    Token(Session(0), c.claimTtl, None, None)
  }

  function Spent(c: Config): Token {
    Token(Session(0), c.claimTtl, Some(0.0), Some(Student(7)))
  }

  /** Minting the second token after the first was used, or the first after none. */
  lemma Issued(c: Config, i: int, t: TokenId, tokens: map<TokenId, Token>, claims: map<int, Claim>,
               windows: map<WindowId, VerifyWindow>, windowToken: map<WindowId, TokenId>)
    requires t !in tokens && forall u :: u in tokens ==> tokens[u].usedAt.Some?
    ensures Apply(c, Apply(c, Early(tokens, claims, windows, windowToken), Expire(i, Session(0))), Mint(i, t))
         == Early(tokens[t := Fresh(c)], claims, windows, windowToken)
  {
    assert Invalidate(tokens, Session(0), 0.0) == tokens;
    var s := Early(tokens, claims, windows, windowToken);
    assert Apply(c, s, Expire(i, Session(0))) == s.(issuing := map[i := Session(0)]);
    assert map[i := Session(0)] - {i} == map[];
  }

  /** A claim takes the token. */
  lemma Claimed(c: Config, k: int, t: TokenId, tokens: map<TokenId, Token>, claims: map<int, Claim>,
                windows: map<WindowId, VerifyWindow>, windowToken: map<WindowId, TokenId>, answered: bool)
    requires c.claimTtl > 0.0 && t in tokens && tokens[t] == Fresh(c) && k !in claims && (answered ==> windows == map[])
    ensures Apply(c, Apply(c, Early(tokens, claims, windows, windowToken), Lookup(k, t, Student(7), answered)),
                  UseToken(k))
         == Early(tokens[t := Spent(c)], claims[k := Won(t, Student(7), 0.0)], windows, windowToken)
  {
    var s := Early(tokens, claims, windows, windowToken);
    var looked := s.(claims := claims[k := Looked(t, Student(7))]);
    assert Apply(c, s, Lookup(k, t, Student(7), answered)) == looked;
    assert looked.claims[k := Won(t, Student(7), 0.0)] == claims[k := Won(t, Student(7), 0.0)];
    hide Early;
    assert DoUseToken(looked, k).claims == claims[k := Won(t, Student(7), 0.0)];
  }

  /** A claim opens its window. */
  lemma Opened(c: Config, k: int, w: WindowId, tokens: map<TokenId, Token>, claims: map<int, Claim>,
               windows: map<WindowId, VerifyWindow>, windowToken: map<WindowId, TokenId>)
    requires k in claims && claims[k].Won? && claims[k].at == 0.0 && claims[k].student == Student(7) && w !in windows
    requires claims[k].token in tokens && tokens[claims[k].token].session == Session(0)
    ensures Apply(c, Early(tokens, claims, windows, windowToken), OpenWindow(k, w, true))
         == Early(tokens, claims - {k}, windows[w := VerifyWindow(Session(0), Student(7), c.windowTtl, None)],
                  windowToken[w := claims[k].token])
  {
  }

  lemma RunTwo(c: Config, s: State, actions: seq<Action>, a: Action, b: Action)
    ensures Run(c, s, actions + [a, b]) == Apply(c, Apply(c, Run(c, s, actions), a), b)
  {
    hide Run, Apply;
    RunSnoc(c, s, actions, a);
    RunSnoc(c, s, actions + [a], b);
    assert actions + [a] + [b] == actions + [a, b];
  }

  function FirstToken(): seq<Action> {
    [] + [Expire(1, Session(0)), Mint(1, TokenId(1))] + [Lookup(1, TokenId(1), Student(7), true), UseToken(1)]
  }

  lemma AfterFirstToken(c: Config)
    requires c.claimTtl > 0.0
    ensures Run(c, Init(0.0), FirstToken())
         == Early(map[TokenId(1) := Spent(c)], map[1 := Won(TokenId(1), Student(7), 0.0)], map[], map[])
  {
    hide Apply, Run, Early;
    assert Run(c, Init(0.0), []) == Early(map[], map[], map[], map[]) by {
      Beginning(c);
    }
    var start := [] + [Expire(1, Session(0)), Mint(1, TokenId(1))];
    RunTwo(c, Init(0.0), [], Expire(1, Session(0)), Mint(1, TokenId(1)));
    Issued(c, 1, TokenId(1), map[], map[], map[], map[]);
    RunTwo(c, Init(0.0), start, Lookup(1, TokenId(1), Student(7), true), UseToken(1));
    Claimed(c, 1, TokenId(1), map[TokenId(1) := Fresh(c)], map[], map[], map[], true);
    assert map[TokenId(1) := Fresh(c)][TokenId(1) := Spent(c)] == map[TokenId(1) := Spent(c)];
  }

  lemma Beginning(c: Config)
    ensures Run(c, Init(0.0), []) == Early(map[], map[], map[], map[])
  {
  }

  /** Two claims of one student race: the second looks for earlier attempts before the first
      has opened its window. */
  function RacingClaims(): seq<Action> {
    FirstToken() + [Expire(2, Session(0)), Mint(2, TokenId(2))] + [Lookup(2, TokenId(2), Student(7), true), UseToken(2)]
      + [OpenWindow(1, WindowId(1), true), OpenWindow(2, WindowId(2), true)]
  }

  lemma RacingClaimsOpenTwoWindows(c: Config)
    requires c.claimTtl > 0.0
    ensures var w := VerifyWindow(Session(0), Student(7), c.windowTtl, None);
      Run(c, Init(0.0), RacingClaims()).windows == map[WindowId(1) := w, WindowId(2) := w]
  {
    hide Apply, Run, FirstToken;
    var one, two := FirstToken(), FirstToken() + [Expire(2, Session(0)), Mint(2, TokenId(2))];
    var three := two + [Lookup(2, TokenId(2), Student(7), true), UseToken(2)];
    var w := VerifyWindow(Session(0), Student(7), c.windowTtl, None);
    var won := map[1 := Won(TokenId(1), Student(7), 0.0)];
    var bothWon := won[2 := Won(TokenId(2), Student(7), 0.0)];
    var spent := map[TokenId(1) := Spent(c)];
    var bothSpent := spent[TokenId(2) := Fresh(c)][TokenId(2) := Spent(c)];
    AfterFirstToken(c);
    RunTwo(c, Init(0.0), one, Expire(2, Session(0)), Mint(2, TokenId(2)));
    Issued(c, 2, TokenId(2), spent, won, map[], map[]);
    RunTwo(c, Init(0.0), two, Lookup(2, TokenId(2), Student(7), true), UseToken(2));
    Claimed(c, 2, TokenId(2), spent[TokenId(2) := Fresh(c)], won, map[], map[], true);
    RunTwo(c, Init(0.0), three, OpenWindow(1, WindowId(1), true), OpenWindow(2, WindowId(2), true));
    Opened(c, 1, WindowId(1), bothSpent, bothWon, map[], map[]);
    Opened(c, 2, WindowId(2), bothSpent, bothWon - {1}, map[WindowId(1) := w], map[WindowId(1) := TokenId(1)]);
    assert map[WindowId(1) := w][WindowId(2) := w] == map[WindowId(1) := w, WindowId(2) := w];
  }

  /** A failed lookup counts as no earlier attempt, so claims one after the other can open two
      windows as well. */
  function UnansweredLookup(): seq<Action> {
    FirstToken() + [OpenWindow(1, WindowId(1), true)] + [Expire(2, Session(0)), Mint(2, TokenId(2))]
      + [Lookup(2, TokenId(2), Student(7), false), UseToken(2)] + [OpenWindow(2, WindowId(2), true)]
  }

  lemma UnansweredLookupOpensTwoWindows(c: Config)
    requires c.claimTtl > 0.0
    ensures var w := VerifyWindow(Session(0), Student(7), c.windowTtl, None);
      Run(c, Init(0.0), UnansweredLookup()).windows == map[WindowId(1) := w, WindowId(2) := w]
  {
    hide Apply, Run, FirstToken;
    var one, two := FirstToken(), FirstToken() + [OpenWindow(1, WindowId(1), true)];
    var three := two + [Expire(2, Session(0)), Mint(2, TokenId(2))];
    var four := three + [Lookup(2, TokenId(2), Student(7), false), UseToken(2)];
    var w := VerifyWindow(Session(0), Student(7), c.windowTtl, None);
    var ws, wt := map[WindowId(1) := w], map[WindowId(1) := TokenId(1)];
    var won := map[1 := Won(TokenId(1), Student(7), 0.0)];
    var spent := map[TokenId(1) := Spent(c)];
    var bothSpent := spent[TokenId(2) := Fresh(c)][TokenId(2) := Spent(c)];
    AfterFirstToken(c);
    RunSnoc(c, Init(0.0), one, OpenWindow(1, WindowId(1), true));
    Opened(c, 1, WindowId(1), spent, won, map[], map[]);
    RunTwo(c, Init(0.0), two, Expire(2, Session(0)), Mint(2, TokenId(2)));
    Issued(c, 2, TokenId(2), spent, won - {1}, ws, wt);
    RunTwo(c, Init(0.0), three, Lookup(2, TokenId(2), Student(7), false), UseToken(2));
    Claimed(c, 2, TokenId(2), spent[TokenId(2) := Fresh(c)], won - {1}, ws, wt, false);
    RunSnoc(c, Init(0.0), four, OpenWindow(2, WindowId(2), true));
    Opened(c, 2, WindowId(2), bothSpent, (won - {1})[2 := Won(TokenId(2), Student(7), 0.0)], ws, wt);
    assert ws[WindowId(2) := w] == map[WindowId(1) := w, WindowId(2) := w];
  }

  /** A selfie request reads its window in time and satisfies it after it has expired. */
  function SlowSelfie(c: Config): seq<Action> {
    FirstToken() + [OpenWindow(1, WindowId(1), true)]
    + [ReadWindow(1, WindowId(1), Student(7)), Tick(c.windowTtl + 1.0)]
      + [Satisfy(1), WriteRow(1, true)]
  }

  /** Expiry is not checked again when a window is satisfied, so a row can be written for a
      window that has expired in the meantime. */
  lemma ExpiredWindowCanGetARow(c: Config)
    requires c.claimTtl > 0.0 && c.windowTtl > 0.0
    ensures var s := Run(c, Init(0.0), SlowSelfie(c));
      && s.rows == [PresenceRow(Session(0), Student(7), c.windowTtl + 1.0)] && s.rowWindow == [WindowId(1)]
      && WindowId(1) in s.windows && s.windows[WindowId(1)].expiresAt == c.windowTtl < s.rows[0].at
      && s.windows[WindowId(1)].satisfiedAt == Some(c.windowTtl + 1.0)
  {
    hide Apply, Run, FirstToken;
    var one, two := FirstToken(), FirstToken() + [OpenWindow(1, WindowId(1), true)];
    var three := two + [ReadWindow(1, WindowId(1), Student(7)), Tick(c.windowTtl + 1.0)];
    AfterFirstToken(c);
    RunSnoc(c, Init(0.0), one, OpenWindow(1, WindowId(1), true));
    Opened(c, 1, WindowId(1), map[TokenId(1) := Spent(c)], map[1 := Won(TokenId(1), Student(7), 0.0)], map[], map[]);
    RunTwo(c, Init(0.0), two, ReadWindow(1, WindowId(1), Student(7)), Tick(c.windowTtl + 1.0));
    RunTwo(c, Init(0.0), three, Satisfy(1), WriteRow(1, true));
    LateSteps(c, Run(c, Init(0.0), two));
  }

  lemma LateSteps(c: Config, s: State)
    requires c.windowTtl > 0.0 && s.clock == 0.0 && s.agents == map[] && s.rows == [] && s.rowWindow == []
    requires WindowId(1) in s.windows
      && s.windows[WindowId(1)] == VerifyWindow(Session(0), Student(7), c.windowTtl, None)
    ensures var s' := Apply(c,
                            Apply(c, Apply(c, Apply(c, s, ReadWindow(1, WindowId(1), Student(7))),
                                           Tick(c.windowTtl + 1.0)), Satisfy(1)), WriteRow(1, true));
      && s'.rows == [PresenceRow(Session(0), Student(7), c.windowTtl + 1.0)] && s'.rowWindow == [WindowId(1)]
      && WindowId(1) in s'.windows && s'.windows[WindowId(1)].expiresAt == c.windowTtl
      && s'.windows[WindowId(1)].satisfiedAt == Some(c.windowTtl + 1.0)
  {
    var w, late := WindowId(1), c.windowTtl + 1.0;
    var read := s.(agents := map[1 := Agent(w, Student(7), Session(0), 0.0, 0.0, 0.0, false)]);
    assert Apply(c, s, ReadWindow(1, w, Student(7))) == read;
    var waited := read.(clock := late);
    assert Apply(c, read, Tick(late)) == waited;
    var done := Apply(c, waited, Satisfy(1));
    assert done.agents[1].won && done.clock == late && done.rows == [] && done.rowWindow == [];
  }

  // ---------- One live token ----------

  /** Claimable right now. */
  predicate Live(s: State, t: TokenId) {
    t in s.tokens && Unused(s.tokens[t]) && s.tokens[t].expiresAt > s.clock
  }

  /** An issue starts only when no other issue for the session is under way. */
  ghost predicate SerialIssue(s: State, a: Action) {
    a.Expire? ==> forall i :: i in s.issuing ==> s.issuing[i] != a.session
  }

  ghost predicate SerialIssues(c: Config, s: State, actions: seq<Action>) {
    actions == []
    || (SerialIssues(c, s, actions[..|actions| - 1])
        && SerialIssue(Run(c, s, actions[..|actions| - 1]), actions[|actions| - 1]))
  }

  ghost predicate OneLive(s: State) {
    && (forall t, u :: Live(s, t) && Live(s, u) && t != u ==> s.tokens[t].session != s.tokens[u].session)
    && (forall i, t :: i in s.issuing && Live(s, t) ==> s.tokens[t].session != s.issuing[i])
    && (forall i, j :: i in s.issuing && j in s.issuing && i != j ==> s.issuing[i] != s.issuing[j])
  }

  /** No token came to life from `s` to `s'`, and no issue started. */
  ghost predicate NothingRevived(s: State, s': State) {
    && (forall t :: Live(s', t) ==> Live(s, t) && s'.tokens[t].session == s.tokens[t].session)
    && (forall i :: i in s'.issuing ==> i in s.issuing && s'.issuing[i] == s.issuing[i])
  }

  lemma NothingRevivedKeepsOneLive(s: State, s': State)
    requires OneLive(s) && NothingRevived(s, s')
    ensures OneLive(s')
  {
    hide Live;
  }

  lemma UseTokenRevivesNothing(s: State, k: int)
    ensures NothingRevived(s, DoUseToken(s, k))
  {
  }

  lemma TickRevivesNothing(s: State, to: real)
    ensures NothingRevived(s, s)
    ensures to > s.clock ==> NothingRevived(s, s.(clock := to))
  {
  }

  lemma InvalidateRevivesNothing(s: State, session: Session)
    ensures NothingRevived(s, s.(tokens := Invalidate(s.tokens, session, s.clock)))
    ensures forall t :: Live(s.(tokens := Invalidate(s.tokens, session, s.clock)), t) ==> s.tokens[t].session != session
  {
  }

  lemma AbandonRevivesNothing(s: State, i: int)
    ensures NothingRevived(s, s.(issuing := s.issuing - {i}))
  {
  }

  /** Steps that touch neither tokens, nor time, nor issues. */
  lemma OthersReviveNothing(s: State, s': State)
    requires SameIssue(s, s')
    ensures NothingRevived(s, s')
  {
  }

  lemma ExpireKeepsOneLive(s: State, i: int, session: Session)
    requires OneLive(s) && SerialIssue(s, Expire(i, session))
    ensures OneLive(DoExpire(s, i, session))
  {
    hide Invalidate;
    if i !in s.issuing {
      var mid := s.(tokens := Invalidate(s.tokens, session, s.clock));
      InvalidateRevivesNothing(s, session);
      NothingRevivedKeepsOneLive(s, mid);
      var s' := DoExpire(s, i, session);
      assert forall t :: Live(s', t) <==> Live(mid, t);
      assert forall j :: j in s'.issuing ==>
          if j == i then s'.issuing[j] == session else j in s.issuing && s'.issuing[j] == s.issuing[j];
    }
  }

  lemma MintKeepsOneLive(c: Config, s: State, i: int, t: TokenId)
    requires OneLive(s)
    ensures OneLive(DoMint(c, s, i, t))
  {
    if i in s.issuing && t !in s.tokens {
      var s' := DoMint(c, s, i, t);
      assert forall u :: Live(s', u) ==>
          if u == t then s'.tokens[u].session == s.issuing[i] else Live(s, u) && s'.tokens[u] == s.tokens[u];
      assert forall j :: j in s'.issuing ==> j != i && j in s.issuing && s'.issuing[j] == s.issuing[j];
    }
  }

  lemma StepKeepsOneLive(c: Config, s: State, a: Action)
    requires OneLive(s) && SerialIssue(s, a)
    ensures OneLive(Apply(c, s, a))
  {
    hide OneLive, NothingRevived, Invalidate, DoExpire, DoMint, DoLookup, DoUseToken, DoOpenWindow, DoReadWindow,
        DoRefresh, DoTake, DoSatisfy, DoWriteRow;
    match a {
      case Expire(i, session) => ExpireKeepsOneLive(s, i, session);
      case Mint(i, t) => MintKeepsOneLive(c, s, i, t);
      case _ =>
        StepRevivesNothing(c, s, a);
        NothingRevivedKeepsOneLive(s, Apply(c, s, a));
    }
  }

  lemma StepRevivesNothing(c: Config, s: State, a: Action)
    requires !a.Expire? && !a.Mint?
    ensures NothingRevived(s, Apply(c, s, a))
  {
    hide Grows, SameIssue, NothingRevived, Invalidate, DoLookup, DoUseToken, DoOpenWindow, DoReadWindow, DoRefresh,
        DoTake, DoSatisfy, DoWriteRow;
    match a {
      case UseToken(k) => UseTokenRevivesNothing(s, k);
      case CloseQr(session) => InvalidateRevivesNothing(s, session);
      case Tick(to) => TickRevivesNothing(s, to);
      case OpenWindow(k, w, persisted) => OpenWindowGrows(c, s, k, w, persisted);
      case Satisfy(g) => SatisfyGrows(s, g);
      case Lookup(k, t, student, answered) => LookupGrows(s, k, t, student, answered);
      case ReadWindow(g, w, student) => ReadWindowGrows(s, g, w, student);
      case Refresh(m, session, targets, answered, ts) => RefreshGrows(s, m, session, targets, answered, ts);
      case Take(m, student, g, ts) => TakeGrows(c, s, m, student, g, ts);
      case GiveUp(g) => WriteRowGrows(s, g, true);
      case AbandonIssue(i) => AbandonRevivesNothing(s, i);
      case AbandonClaim(k) => AbandonGrows(s, k);
      case WriteRow(g, persisted) => WriteRowGrows(s, g, persisted);
    }
    if SameIssue(s, Apply(c, s, a)) {
      OthersReviveNothing(s, Apply(c, s, a));
    }
  }

  /** When issues for a session come one after the other, at most one of its tokens is live. */
  lemma {:induction false} SerialIssuesKeepOneLive(c: Config, now: real, actions: seq<Action>)
    requires SerialIssues(c, Init(now), actions)
    ensures OneLive(Run(c, Init(now), actions))
  {
    hide Apply, OneLive, SerialIssue;
    if actions == [] {
      assert OneLive(Init(now)) by {
        NothingLive(now);
      }
    } else {
      SerialIssuesKeepOneLive(c, now, actions[..|actions| - 1]);
      StepKeepsOneLive(c, Run(c, Init(now), actions[..|actions| - 1]), actions[|actions| - 1]);
    }
  }

  lemma NothingLive(now: real)
    ensures OneLive(Init(now))
  {
  }

  function RacingIssues(): seq<Action> {
    [] + [Expire(1, Session(0)), Expire(2, Session(0))] + [Mint(1, TokenId(1)), Mint(2, TokenId(2))]
  }

  /** Two issues that both expire the old tokens before either mints leave two live tokens. */
  lemma RacingIssuesLeaveTwoLive(c: Config)
    requires c.claimTtl > 0.0
    ensures var s := Run(c, Init(0.0), RacingIssues());
      Live(s, TokenId(1)) && Live(s, TokenId(2)) && s.tokens[TokenId(1)].session == s.tokens[TokenId(2)].session
  {
    var expires := [] + [Expire(1, Session(0)), Expire(2, Session(0))];
    RunTwo(c, Init(0.0), [], Expire(1, Session(0)), Expire(2, Session(0)));
    RunTwo(c, Init(0.0), expires, Mint(1, TokenId(1)), Mint(2, TokenId(2)));
    var s := Init(0.0).(issuing := map[1 := Session(0), 2 := Session(0)]);
    assert Run(c, Init(0.0), expires) == s by {
      assert Apply(c, Init(0.0), Expire(1, Session(0))) == Init(0.0).(issuing := map[1 := Session(0)]);
    }
  }
}
