/**
 What a step of the QR protocol changes, entry by entry, and so what it leaves alone; and from
 that how long a token stays claimable and a window stays open, exactly, in every run.
 */
module QrFrames {
  import opened Wrappers
  import opened QrProtocol
  import opened QrLaws
  import opened QrConditions

  // ---------- Tokens ----------

  /** The step expires the session's unused tokens: the session is issued for, or its QR closed. */
  predicate ExpiresSession(s: State, a: Action, session: Session) {
    || (a.Expire? && a.session == session && a.issuer !in s.issuing)
    || (a.CloseQr? && a.session == session)
  }

  /** The step uses the token: a claim past its lookups finds it unused and unexpired. */
  predicate UsesToken(s: State, a: Action, t: TokenId) {
    && a.UseToken? && a.claim in s.claims && s.claims[a.claim].Looked? && s.claims[a.claim].token == t
    && t in s.tokens && s.tokens[t].usedAt.None? && s.tokens[t].expiresAt > s.clock
  }

  lemma ExpireTouches(s: State, i: int, session: Session, t: TokenId)
    requires t in s.tokens
    ensures var s' := DoExpire(s, i, session);
      && t in s'.tokens
      && s'.tokens[t] == if i !in s.issuing && s.tokens[t].session == session && s.tokens[t].usedAt.None?
         then s.tokens[t].(expiresAt := s.clock) else s.tokens[t]
  {
  }

  lemma CloseTouches(s: State, session: Session, t: TokenId)
    requires t in s.tokens
    ensures var tokens := Invalidate(s.tokens, session, s.clock);
      && t in tokens
      && tokens[t] == if s.tokens[t].session == session && s.tokens[t].usedAt.None?
         then s.tokens[t].(expiresAt := s.clock) else s.tokens[t]
  {
  }

  lemma UseTouches(s: State, k: int, t: TokenId)
    requires t in s.tokens
    ensures var s' := DoUseToken(s, k);
      && t in s'.tokens
      && s'.tokens[t] == if UsesToken(s, UseToken(k), t)
         then s.tokens[t].(usedAt := Some(s.clock), usedBy := Some(s.claims[k].student)) else s.tokens[t]
  {
    hide WonBy;
    if k !in s.claims || s.claims[k].Won? || s.claims[k].token !in s.tokens {
      assert DoUseToken(s, k) == s;
    } else {
      var u, student := s.claims[k].token, s.claims[k].student;
      if Unused(s.tokens[u]) && s.tokens[u].expiresAt > s.clock {
        var tokens := UsedBy(s.tokens, u, student, s.clock);
        assert DoUseToken(s, k) == s.(tokens := tokens, claims := WonBy(s.claims, k, s.clock));
      } else {
        assert DoUseToken(s, k) == s.(claims := s.claims - {k});
      }
    }
  }

  lemma MintTouches(c: Config, s: State, i: int, t: TokenId, u: TokenId)
    requires u in s.tokens
    ensures u in DoMint(c, s, i, t).tokens && DoMint(c, s, i, t).tokens[u] == s.tokens[u]
  {
  }

  /** A token changes in two ways only: a step for its own session makes it expire now, if it is
      unused, or a claim that looked it up uses it. */
  lemma TokenAfterStep(c: Config, s: State, a: Action, t: TokenId)
    requires t in s.tokens
    ensures var s' := Apply(c, s, a);
      && t in s'.tokens
      && s'.tokens[t]
         == if UsesToken(s, a, t)
         then s.tokens[t].(usedAt := Some(s.clock), usedBy := Some(s.claims[a.claim].student))
         else if ExpiresSession(s, a, s.tokens[t].session) && s.tokens[t].usedAt.None?
         then s.tokens[t].(expiresAt := s.clock)
         else s.tokens[t]
  {
    hide Grows, Invalidate, DoExpire, DoMint, DoLookup, DoUseToken, DoOpenWindow, DoReadWindow, DoRefresh, DoTake,
        DoSatisfy, DoWriteRow;
    match a {
      case Expire(i, session) => ExpireTouches(s, i, session, t);
      case CloseQr(session) => CloseTouches(s, session, t);
      case Mint(i, u) => MintTouches(c, s, i, u, t);
      case UseToken(k) => UseTouches(s, k, t);
      case _ => TokensStay(c, s, a);
    }
  }

  /** Issuing for one session, or closing its QR, leaves the tokens of every other alone. */
  lemma OtherSessionsKeepTheirTokens(c: Config, s: State, i: int, session: Session, t: TokenId)
    requires t in s.tokens && s.tokens[t].session != session
    ensures t in Apply(c, s, Expire(i, session)).tokens && t in Apply(c, s, CloseQr(session)).tokens
    ensures Apply(c, s, Expire(i, session)).tokens[t] == s.tokens[t]
    ensures Apply(c, s, CloseQr(session)).tokens[t] == s.tokens[t]
  {
    hide Apply;
    TokenAfterStep(c, s, Expire(i, session), t);
    TokenAfterStep(c, s, CloseQr(session), t);
  }

  /** A new token is what a mint made of an issue under way. */
  lemma NewTokenIsMinted(c: Config, s: State, a: Action, t: TokenId)
    requires t !in s.tokens
    ensures t in Apply(c, s, a).tokens <==> a.Mint? && a.token == t && a.issuer in s.issuing
    ensures a.Mint? && a.token == t && a.issuer in s.issuing ==>
      Apply(c, s, a).tokens[t] == Token(s.issuing[a.issuer], s.clock + c.claimTtl, None, None)
  {
    hide Apply;
    if a.Mint? {
      MintMakes(c, s, a, t);
    } else if a.Expire? || a.CloseQr? || a.UseToken? {
      NothingMade(c, s, a);
    } else {
      TokensStay(c, s, a);
    }
  }

  lemma MintMakes(c: Config, s: State, a: Action, t: TokenId)
    requires t !in s.tokens && a.Mint?
    ensures t in Apply(c, s, a).tokens <==> a.token == t && a.issuer in s.issuing
    ensures a.token == t && a.issuer in s.issuing ==>
      Apply(c, s, a).tokens[t] == Token(s.issuing[a.issuer], s.clock + c.claimTtl, None, None)
  {
  }

  lemma NothingMade(c: Config, s: State, a: Action)
    requires a.Expire? || a.CloseQr? || a.UseToken?
    ensures Apply(c, s, a).tokens.Keys == s.tokens.Keys
  {
    hide DoUseToken;
    if a.UseToken? {
      UseKeepsList(s, a.claim);
    }
  }

  lemma UseKeepsList(s: State, k: int)
    ensures DoUseToken(s, k).tokens.Keys == s.tokens.Keys
  {
    hide WonBy, Unused;
    if k in s.claims && s.claims[k].Looked? && s.claims[k].token in s.tokens {
      assert UsedBy(s.tokens, s.claims[k].token, s.claims[k].student, s.clock).Keys == s.tokens.Keys;
    }
  }

  lemma TokensStay(c: Config, s: State, a: Action)
    requires !a.Mint? && !a.Expire? && !a.CloseQr? && !a.UseToken?
    ensures Apply(c, s, a).tokens == s.tokens
  {
    hide Grows, DoLookup, DoOpenWindow, DoReadWindow, DoRefresh, DoTake, DoSatisfy, DoWriteRow;
    match a {
      case Lookup(k, u, student, answered) => LookupGrows(s, k, u, student, answered);
      case OpenWindow(k, w, persisted) => OpenWindowGrows(c, s, k, w, persisted);
      case Satisfy(g) => SatisfyGrows(s, g);
      case ReadWindow(g, w, student) => ReadWindowGrows(s, g, w, student);
      case Refresh(m, session, targets, answered, ts) => RefreshGrows(s, m, session, targets, answered, ts);
      case Take(m, student, g, ts) => TakeGrows(c, s, m, student, g, ts);
      case WriteRow(g, persisted) => WriteRowGrows(s, g, persisted);
      case _ =>
    }
  }

  /** Between requests `m` and `n` the token was not used and its session's tokens not expired. */
  ghost predicate LeftAlone(c: Config, now: real, actions: seq<Action>, m: nat, n: nat, t: TokenId, session: Session)
    requires n <= |actions|
  {
    forall k: nat :: m <= k < n ==>
      !UsesToken(Before(c, now, actions, k), actions[k], t)
      && !ExpiresSession(Before(c, now, actions, k), actions[k], session)
  }

  lemma StillAsIssued(c: Config, now: real, actions: seq<Action>, m: nat, n: nat, t: TokenId, session: Session)
    requires m <= n < |actions|
    ensures LeftAlone(c, now, actions, m, n + 1, t, session) <==>
      && LeftAlone(c, now, actions, m, n, t, session)
      && !UsesToken(Before(c, now, actions, n), actions[n], t)
      && !ExpiresSession(Before(c, now, actions, n), actions[n], session)
  {
    hide Before, UsesToken, ExpiresSession;
  }

  /** A claimable token stays claimable exactly until it expires by itself, is used, or its own
      session is issued for again or closed. */
  lemma {:induction false} StaysLiveIff(c: Config, now: real, actions: seq<Action>, m: nat, n: nat, t: TokenId)
    requires m <= n <= |actions| && Live(Before(c, now, actions, m), t)
    ensures var (before, after) := (Before(c, now, actions, m), Before(c, now, actions, n));
      && t in after.tokens && after.tokens[t].session == before.tokens[t].session
      && before.clock <= after.clock
      && (LeftAlone(c, now, actions, m, n, t, before.tokens[t].session) ==> after.tokens[t] == before.tokens[t])
      && (Live(after, t) <==>
          after.clock < before.tokens[t].expiresAt
          && LeftAlone(c, now, actions, m, n, t, before.tokens[t].session))
    decreases n
  {
    hide Before, Apply, LeftAlone;
    var before := Before(c, now, actions, m);
    if n == m {
      NothingHappened(c, now, actions, m, t, before.tokens[t].session);
    } else {
      var s, a := Before(c, now, actions, n - 1), actions[n - 1];
      StaysLiveIff(c, now, actions, m, n - 1, t);
      StillAsIssued(c, now, actions, m, n - 1, t, before.tokens[t].session);
      BeforeNext(c, now, actions, n - 1);
      StepGrows(c, s, a);
      TokenAfterStep(c, s, a, t);
    }
  }

  lemma NothingHappened(c: Config, now: real, actions: seq<Action>, m: nat, t: TokenId, session: Session)
    requires m <= |actions|
    ensures LeftAlone(c, now, actions, m, m, t, session)
  {
  }

  // ---------- Windows ----------

  /** The step satisfies the window. */
  predicate SatisfiesWindow(s: State, a: Action, w: WindowId) {
    && a.Satisfy? && a.agent in s.agents && !s.agents[a.agent].won && s.agents[a.agent].window == w
    && w in s.windows && s.windows[w].satisfiedAt.None?
  }

  /** A window changes in one way only: an agent at work on it satisfies it. */
  lemma WindowAfterStep(c: Config, s: State, a: Action, w: WindowId)
    requires w in s.windows
    ensures var s' := Apply(c, s, a);
      && w in s'.windows
      && s'.windows[w] == if SatisfiesWindow(s, a, w) then s.windows[w].(satisfiedAt := Some(s.clock)) else s.windows[w]
  {
    hide DoExpire, DoMint, DoLookup, DoUseToken, DoOpenWindow, DoReadWindow, DoRefresh, DoTake, DoSatisfy, DoWriteRow,
        Invalidate;
    match a {
      case OpenWindow(k, v, persisted) => OpenTouches(c, s, k, v, persisted, w);
      case Satisfy(g) => SatisfyTouches(s, g, w);
      case _ => WindowsStay(c, s, a);
    }
  }

  lemma OpenTouches(c: Config, s: State, k: int, v: WindowId, persisted: bool, w: WindowId)
    requires w in s.windows
    ensures var s' := DoOpenWindow(c, s, k, v, persisted); w in s'.windows && s'.windows[w] == s.windows[w]
  {
  }

  lemma SatisfyTouches(s: State, g: int, w: WindowId)
    requires w in s.windows
    ensures var s' := DoSatisfy(s, g);
      && w in s'.windows
      && s'.windows[w]
         == if SatisfiesWindow(s, Satisfy(g), w) then s.windows[w].(satisfiedAt := Some(s.clock)) else s.windows[w]
  {
    if g in s.agents && !s.agents[g].won && s.agents[g].window in s.windows {
      var v, s' := s.agents[g].window, DoSatisfy(s, g);
      if s.windows[v].satisfiedAt.None? {
        assert s'.windows == s.windows[v := s.windows[v].(satisfiedAt := Some(s.clock))];
      } else {
        assert s' == s.(agents := s.agents - {g});
      }
    } else {
      assert DoSatisfy(s, g) == s;
    }
  }

  /** A new window is the one a claim opens that has used its token. */
  lemma NewWindowIsOpened(c: Config, s: State, a: Action, w: WindowId)
    requires w !in s.windows
    ensures w in Apply(c, s, a).windows <==> a.OpenWindow? && a.window == w && Opens(s, a)
    ensures a.OpenWindow? && a.window == w && Opens(s, a) ==>
      Apply(c, s, a).windows[w] == VerifyWindow(s.tokens[s.claims[a.claim].token].session, s.claims[a.claim].student,
                                                s.claims[a.claim].at + c.windowTtl, None)
  {
    hide Apply;
    if Opens(s, a) {
      OpenedWindow(c, s, a);
    } else {
      SameWindowsOtherwise(c, s, a);
    }
  }

  ghost predicate Unsatisfied(c: Config, now: real, actions: seq<Action>, m: nat, n: nat, w: WindowId)
    requires n <= |actions|
  {
    forall k: nat :: m <= k < n ==> !SatisfiesWindow(Before(c, now, actions, k), actions[k], w)
  }

  lemma StillUnsatisfied(c: Config, now: real, actions: seq<Action>, m: nat, n: nat, w: WindowId)
    requires m <= n < |actions|
    ensures Unsatisfied(c, now, actions, m, n + 1, w) <==>
      Unsatisfied(c, now, actions, m, n, w) && !SatisfiesWindow(Before(c, now, actions, n), actions[n], w)
  {
    hide Before, SatisfiesWindow;
  }

  lemma NobodySatisfied(c: Config, now: real, actions: seq<Action>, m: nat, w: WindowId)
    requires m <= |actions|
    ensures Unsatisfied(c, now, actions, m, m, w)
  {
  }

  /** An open window stays open exactly until it expires or an agent at work on it satisfies it. */
  lemma {:induction false} StaysOpenIff(c: Config, now: real, actions: seq<Action>, m: nat, n: nat, w: WindowId)
    requires m <= n <= |actions| && IsOpen(Before(c, now, actions, m), w)
    ensures var (before, after) := (Before(c, now, actions, m), Before(c, now, actions, n));
      && w in after.windows && before.clock <= after.clock
      && (Unsatisfied(c, now, actions, m, n, w) ==> after.windows[w] == before.windows[w])
      && (Unsatisfied(c, now, actions, m, n, w) <==> after.windows[w].satisfiedAt.None?)
      && (IsOpen(after, w) <==>
          after.clock < before.windows[w].expiresAt && Unsatisfied(c, now, actions, m, n, w))
    decreases n
  {
    hide Before, Apply, Unsatisfied;
    if n == m {
      NobodySatisfied(c, now, actions, m, w);
    } else {
      var s, a := Before(c, now, actions, n - 1), actions[n - 1];
      StaysOpenIff(c, now, actions, m, n - 1, w);
      StillUnsatisfied(c, now, actions, m, n - 1, w);
      BeforeNext(c, now, actions, n - 1);
      StepGrows(c, s, a);
      WindowAfterStep(c, s, a, w);
    }
  }

  // ---------- Claims ----------

  /** The claim comes to its end: it finds its token gone, opens its window, or is abandoned. */
  predicate EndsClaim(s: State, a: Action, k: int)
    requires k in s.claims
  {
    || (a.UseToken? && a.claim == k && s.claims[k].Looked? && s.claims[k].token in s.tokens
        && !UsesToken(s, a, s.claims[k].token))
    || (a.OpenWindow? && a.claim == k && s.claims[k].Won? && s.claims[k].token in s.tokens && a.window !in s.windows)
    || (a.AbandonClaim? && a.claim == k)
  }

  /** A claim in flight changes by its own requests only. */
  lemma ClaimAfterStep(c: Config, s: State, a: Action, k: int)
    requires k in s.claims
    ensures var s' := Apply(c, s, a);
      && (k in s'.claims <==> !EndsClaim(s, a, k))
      && (k in s'.claims ==>
          s'.claims[k]
          == if a.UseToken? && a.claim == k && UsesToken(s, a, s.claims[k].token)
             then Won(s.claims[k].token, s.claims[k].student, s.clock) else s.claims[k])
  {
    hide DoExpire, DoMint, DoLookup, DoUseToken, DoOpenWindow, DoReadWindow, DoRefresh, DoTake, DoSatisfy, DoWriteRow,
        Invalidate;
    match a {
      case Lookup(j, t, student, answered) => LookupTouches(s, j, t, student, answered, k);
      case UseToken(j) => UserClaims(s, j);
      case OpenWindow(j, w, persisted) => OpenEndsClaim(c, s, j, w, persisted);
      case AbandonClaim(_) =>
      case _ => OtherClaimsStay(c, s, a);
    }
  }

  lemma LookupTouches(s: State, j: int, t: TokenId, student: Student, answered: bool, k: int)
    requires k in s.claims
    ensures var s' := DoLookup(s, j, t, student, answered); k in s'.claims && s'.claims[k] == s.claims[k]
  {
    hide HasAttempt;
  }

  lemma OpenEndsClaim(c: Config, s: State, j: int, w: WindowId, persisted: bool)
    ensures DoOpenWindow(c, s, j, w, persisted).claims
         == if j in s.claims && s.claims[j].Won? && s.claims[j].token in s.tokens && w !in s.windows
            then s.claims - {j} else s.claims
  {
  }

  /** A claim starts with a lookup that finds the token and, if it is answered, no window of the
      student in the token's session. */
  lemma NewClaimIsLookedUp(c: Config, s: State, a: Action, k: int)
    requires k !in s.claims
    ensures var s' := Apply(c, s, a);
      && (k in s'.claims <==>
          && a.Lookup? && a.claim == k && a.token in s.tokens
          && (a.answered ==>
              forall w :: w in s.windows ==>
                s.windows[w].session != s.tokens[a.token].session || s.windows[w].student != a.student))
      && (k in s'.claims ==> a.Lookup? && s'.claims[k] == Looked(a.token, a.student))
  {
    hide DoExpire, DoMint, DoLookup, DoUseToken, DoOpenWindow, DoReadWindow, DoRefresh, DoTake, DoSatisfy, DoWriteRow,
        Invalidate;
    match a {
      case Lookup(j, t, student, answered) => LookupMakes(s, j, t, student, answered);
      case UseToken(j) => UserClaims(s, j);
      case OpenWindow(j, w, persisted) => OpenEndsClaim(c, s, j, w, persisted);
      case AbandonClaim(_) =>
      case _ => OtherClaimsStay(c, s, a);
    }
  }

  lemma LookupMakes(s: State, j: int, t: TokenId, student: Student, answered: bool)
    ensures DoLookup(s, j, t, student, answered).claims
         == if && j !in s.claims && t in s.tokens
               && (answered ==>
                   forall w :: w in s.windows ==>
                     s.windows[w].session != s.tokens[t].session || s.windows[w].student != student)
            then s.claims[j := Looked(t, student)] else s.claims
  {
  }

  // ---------- Agents and cameras ----------

  predicate SameCrew(s: State, s': State) {
    s'.agents == s.agents && s'.cameras == s.cameras
  }

  lemma SameCrewBeside(s: State, clock: real, tokens: map<TokenId, Token>, issuing: map<int, Session>,
                       claims: map<int, Claim>)
    ensures SameCrew(s, s) && SameCrew(s, s.(clock := clock)) && SameCrew(s, s.(tokens := tokens))
    ensures SameCrew(s, s.(issuing := issuing)) && SameCrew(s, s.(claims := claims))
  {
  }

  lemma ExpireKeepsCrew(s: State, i: int, session: Session)
    ensures SameCrew(s, DoExpire(s, i, session))
  {
    hide Invalidate;
  }

  lemma MintKeepsCrew(c: Config, s: State, i: int, t: TokenId)
    ensures SameCrew(s, DoMint(c, s, i, t))
  {
  }

  lemma LookupKeepsCrew(s: State, k: int, t: TokenId, student: Student, answered: bool)
    ensures SameCrew(s, DoLookup(s, k, t, student, answered))
  {
    hide HasAttempt;
  }

  lemma UseTokenKeepsCrew(s: State, k: int)
    ensures SameCrew(s, DoUseToken(s, k))
  {
    hide Unused, UsedBy, WonBy;
    if k !in s.claims || s.claims[k].Won? || s.claims[k].token !in s.tokens {
      assert DoUseToken(s, k) == s;
    } else if Unused(s.tokens[s.claims[k].token]) && s.tokens[s.claims[k].token].expiresAt > s.clock {
      var tokens := UsedBy(s.tokens, s.claims[k].token, s.claims[k].student, s.clock);
      assert DoUseToken(s, k) == s.(tokens := tokens, claims := WonBy(s.claims, k, s.clock));
    } else {
      assert DoUseToken(s, k) == s.(claims := s.claims - {k});
    }
  }

  lemma OpenWindowKeepsCrew(c: Config, s: State, k: int, w: WindowId, persisted: bool)
    ensures SameCrew(s, DoOpenWindow(c, s, k, w, persisted))
  {
  }

  /** Steps of issuers and claims leave agents and cameras alone. */
  lemma CrewStays(c: Config, s: State, a: Action)
    requires !a.ReadWindow? && !a.Refresh? && !a.Take? && !a.Satisfy? && !a.GiveUp? && !a.WriteRow?
    ensures SameCrew(s, Apply(c, s, a))
  {
    hide SameCrew, DoExpire, DoMint, DoLookup, DoUseToken, DoOpenWindow, DoReadWindow, DoRefresh, DoTake, DoSatisfy,
        DoWriteRow;
    SameCrewBeside(s, s.clock, s.tokens, s.issuing, s.claims);
    match a {
      case Expire(i, session) => ExpireKeepsCrew(s, i, session);
      case Mint(i, t) => MintKeepsCrew(c, s, i, t);
      case Lookup(k, t, student, answered) => LookupKeepsCrew(s, k, t, student, answered);
      case UseToken(k) => UseTokenKeepsCrew(s, k);
      case OpenWindow(k, w, persisted) => OpenWindowKeepsCrew(c, s, k, w, persisted);
      case Tick(to) => SameCrewBeside(s, to, s.tokens, s.issuing, s.claims);
      case AbandonIssue(i) => SameCrewBeside(s, s.clock, s.tokens, s.issuing - {i}, s.claims);
      case CloseQr(session) =>
        SameCrewBeside(s, s.clock, Invalidate(s.tokens, session, s.clock), s.issuing, s.claims);
      case AbandonClaim(k) => SameCrewBeside(s, s.clock, s.tokens, s.issuing, s.claims - {k});
    }
  }

  /** The agent comes to its end: another was there first, it gives up, or it writes its row. */
  predicate EndsAgent(s: State, a: Action, g: int)
    requires g in s.agents
  {
    || (a.Satisfy? && a.agent == g && !s.agents[g].won && s.agents[g].window in s.windows
        && s.windows[s.agents[g].window].satisfiedAt.Some?)
    || (a.GiveUp? && a.agent == g)
    || (a.WriteRow? && a.agent == g && s.agents[g].won)
  }

  /** An agent at work changes by its own requests only. */
  lemma AgentAfterStep(c: Config, s: State, a: Action, g: int)
    requires g in s.agents
    ensures var s' := Apply(c, s, a);
      && (g in s'.agents <==> !EndsAgent(s, a, g))
      && (g in s'.agents ==>
          s'.agents[g]
          == if SatisfiesWindow(s, a, s.agents[g].window) && a.agent == g
             then s.agents[g].(won := true) else s.agents[g])
  {
    hide Apply;
    if a.Satisfy? {
      SatisfyMovesAgents(c, s, a);
    } else if a.GiveUp? || a.WriteRow? {
      AgentLeaves(c, s, a);
    } else if a.ReadWindow? || a.Take? || a.Refresh? {
      AgentsJoin(c, s, a, g);
    } else {
      CrewStays(c, s, a);
    }
  }

  lemma SatisfyMovesAgents(c: Config, s: State, a: Action)
    requires a.Satisfy?
    ensures Apply(c, s, a).agents
         == if a.agent in s.agents && !s.agents[a.agent].won && s.agents[a.agent].window in s.windows then
              if s.windows[s.agents[a.agent].window].satisfiedAt.None?
              then s.agents[a.agent := s.agents[a.agent].(won := true)] else s.agents - {a.agent}
            else s.agents
  {
    assert Apply(c, s, a) == DoSatisfy(s, a.agent);
    hide Apply;
  }

  lemma AgentLeaves(c: Config, s: State, a: Action)
    requires a.GiveUp? || a.WriteRow?
    ensures Apply(c, s, a).agents
         == if a.GiveUp? || (a.agent in s.agents && s.agents[a.agent].won) then s.agents - {a.agent} else s.agents
  {
    hide DoWriteRow;
    if a.WriteRow? {
      WriterLeaves(s, a.agent, a.persisted);
    }
  }

  lemma WriterLeaves(s: State, g: int, persisted: bool)
    ensures DoWriteRow(s, g, persisted).agents
         == if g in s.agents && s.agents[g].won then s.agents - {g} else s.agents
  {
    if g !in s.agents || !s.agents[g].won {
      assert DoWriteRow(s, g, persisted) == s;
    } else if !persisted {
      assert DoWriteRow(s, g, persisted) == s.(agents := s.agents - {g});
    } else {
      var s' := DoWriteRow(s, g, persisted);
      assert s' == s.(rows := s'.rows, rowWindow := s'.rowWindow, agents := s.agents - {g});
    }
  }

  lemma AgentsJoin(c: Config, s: State, a: Action, g: int)
    requires g in s.agents && (a.ReadWindow? || a.Take? || a.Refresh?)
    ensures g in Apply(c, s, a).agents && Apply(c, s, a).agents[g] == s.agents[g]
  {
    hide DoReadWindow, DoTake, DoRefresh;
    match a {
      case ReadWindow(f, w, student) => ReaderJoins(s, f, w, student, g);
      case Take(m, student, f, ts) => TakerJoins(c, s, m, student, f, ts, g);
      case Refresh(m, session, targets, answered, ts) => NobodyJoins(s, m, session, targets, answered, ts);
    }
  }

  lemma ReaderJoins(s: State, f: int, w: WindowId, student: Student, g: int)
    requires g in s.agents
    ensures var s' := DoReadWindow(s, f, w, student); g in s'.agents && s'.agents[g] == s.agents[g]
  {
    hide IsOpen;
  }

  lemma TakerJoins(c: Config, s: State, m: int, student: Student, f: int, ts: real, g: int)
    requires g in s.agents
    ensures var s' := DoTake(c, s, m, student, f, ts); g in s'.agents && s'.agents[g] == s.agents[g]
  {
  }

  lemma NobodyJoins(s: State, m: int, session: Session, targets: map<Student, WindowId>, answered: bool, ts: real)
    ensures DoRefresh(s, m, session, targets, answered, ts).agents == s.agents
  {
    hide AreTargets;
    var s' := DoRefresh(s, m, session, targets, answered, ts);
    assert s' == s.(cameras := s'.cameras);
  }

  /** A selfie request is taken up for an open window of its student. */
  lemma ReadingBegins(c: Config, s: State, g: int, w: WindowId, student: Student)
    requires g !in s.agents
    ensures var s' := Apply(c, s, ReadWindow(g, w, student));
      && (g in s'.agents <==>
          && w in s.windows && s.windows[w].satisfiedAt.None? && s.windows[w].expiresAt > s.clock
          && s.windows[w].student == student)
      && (g in s'.agents ==>
          s'.agents[g] == Agent(w, student, s.windows[w].session, s.clock, s.clock, 0.0, false))
  {
  }

  /** A camera takes up a window for a student it recognises while its list is younger than the
      refresh interval by its own clock, and takes the student off the list. */
  lemma TakingBegins(c: Config, s: State, m: int, student: Student, g: int, ts: real)
    requires g !in s.agents
    ensures var s' := Apply(c, s, Take(m, student, g, ts));
      && (g in s'.agents <==>
          m in s.cameras && student in s.cameras[m].targets && ts - s.cameras[m].refreshedTs < c.refreshS)
      && (g in s'.agents ==>
          var cam := s.cameras[m];
          && s'.agents[g]
             == Agent(cam.targets[student], student, cam.session, cam.refreshedAt, s.clock, ts - cam.refreshedTs, false)
          && m in s'.cameras && student !in s'.cameras[m].targets
          && forall st :: st != student ==>
               (st in s'.cameras[m].targets <==> st in cam.targets)
               && (st in cam.targets ==> s'.cameras[m].targets[st] == cam.targets[st]))
  {
  }

  /** A refresh that is answered lists exactly the students with an open window in the session;
      one that is not leaves the list empty. */
  lemma RefreshListsOpenWindows(c: Config, s: State, m: int, session: Session, targets: map<Student, WindowId>,
                                answered: bool, ts: real, student: Student)
    requires (m in s.cameras ==> s.cameras[m].session == session) && (answered ==> AreTargets(s, session, targets))
    ensures var s' := Apply(c, s, Refresh(m, session, targets, answered, ts));
      && m in s'.cameras && s'.cameras[m].refreshedTs == ts
      && (student in s'.cameras[m].targets <==>
          && answered
          && exists w :: w in s.windows && s.windows[w].satisfiedAt.None? && s.windows[w].expiresAt > s.clock
                         && s.windows[w].session == session && s.windows[w].student == student)
  {
    if answered && student in targets {
      assert IsOpen(s, targets[student]);
    }
  }

  // ---------- Issues ----------

  /** An issue under way lasts until it mints or is abandoned, for the session it began with. */
  lemma IssueAfterStep(c: Config, s: State, a: Action, i: int)
    requires i in s.issuing
    ensures var s' := Apply(c, s, a);
      && (i in s'.issuing <==>
          !(a.AbandonIssue? && a.issuer == i) && !(a.Mint? && a.issuer == i && a.token !in s.tokens))
      && (i in s'.issuing ==> s'.issuing[i] == s.issuing[i])
  {
    hide Apply;
    if a.Expire? || a.Mint? || a.AbandonIssue? {
      IssuerMovesIssues(c, s, a);
    } else if a.ReadWindow? || a.Refresh? || a.Take? || a.WriteRow? {
      AgentsLeaveIssues(c, s, a);
    } else {
      ClaimsLeaveIssues(c, s, a);
    }
  }

  /** An issue begins with an expiry request of its own. */
  lemma NewIssueExpires(c: Config, s: State, a: Action, i: int)
    requires i !in s.issuing
    ensures i in Apply(c, s, a).issuing <==> a.Expire? && a.issuer == i
    ensures a.Expire? && a.issuer == i ==> Apply(c, s, a).issuing[i] == a.session
  {
    hide Apply;
    if a.Expire? || a.Mint? || a.AbandonIssue? {
      IssuerMovesIssues(c, s, a);
    } else if a.ReadWindow? || a.Refresh? || a.Take? || a.WriteRow? {
      AgentsLeaveIssues(c, s, a);
    } else {
      ClaimsLeaveIssues(c, s, a);
    }
  }

  lemma IssuerMovesIssues(c: Config, s: State, a: Action)
    requires a.Expire? || a.Mint? || a.AbandonIssue?
    ensures Apply(c, s, a).issuing
         == if a.AbandonIssue? || (a.Mint? && a.issuer in s.issuing && a.token !in s.tokens) then s.issuing - {a.issuer}
            else if a.Expire? && a.issuer !in s.issuing then s.issuing[a.issuer := a.session]
            else s.issuing
  {
    hide DoExpire, DoMint;
    if a.Mint? {
      MintMovesIssues(c, s, a.issuer, a.token);
    } else if a.Expire? {
      ExpireStartsIssue(s, a.issuer, a.session);
    }
  }

  lemma MintMovesIssues(c: Config, s: State, i: int, t: TokenId)
    ensures DoMint(c, s, i, t).issuing == if i in s.issuing && t !in s.tokens then s.issuing - {i} else s.issuing
  {
  }
}
