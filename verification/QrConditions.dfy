/**
 Three promises the QR code makes only under a condition, and the exact condition of each:
 one live token per session, one window per student, and nothing after expiry. Each is given
 for a single step, as the guard a caller could look at, and for whole runs.
 */
module QrConditions {
  import opened Wrappers
  import opened QrProtocol
  import opened QrLaws

  /** The state before request `k` of a run. */
  function Before(c: Config, now: real, actions: seq<Action>, k: nat): State
    requires k <= |actions|
  {
    Run(c, Init(now), actions[..k])
  }

  lemma BeforeNext(c: Config, now: real, actions: seq<Action>, k: nat)
    requires k < |actions|
    ensures Before(c, now, actions, k + 1) == Apply(c, Before(c, now, actions, k), actions[k])
  {
    hide Apply;
    assert actions[..k + 1] == actions[..k] + [actions[k]];
    RunSnoc(c, Init(now), actions[..k], actions[k]);
  }

  lemma BeforeStart(c: Config, now: real, actions: seq<Action>)
    ensures Before(c, now, actions, 0) == Init(now)
  {
  }

  // ---------- One live token ----------

  ghost predicate AtMostOneLive(s: State) {
    forall t, u :: Live(s, t) && Live(s, u) && t != u ==> s.tokens[t].session != s.tokens[u].session
  }

  /** The mint takes effect. */
  predicate Mints(s: State, a: Action) {
    a.Mint? && a.issuer in s.issuing && a.token !in s.tokens
  }

  /** If the step mints, no token of its session is live. */
  ghost predicate MintsAlone(s: State, a: Action) {
    Mints(s, a) ==> forall u :: Live(s, u) ==> s.tokens[u].session != s.issuing[a.issuer]
  }

  lemma NothingRevivedKeepsOne(s: State, s': State)
    requires AtMostOneLive(s) && NothingRevived(s, s')
    ensures AtMostOneLive(s')
  {
    hide Live;
  }

  /** An effective mint makes its token live and leaves the others as they were. */
  lemma MintedIsLive(c: Config, s: State, i: int, t: TokenId)
    requires Mints(s, Mint(i, t))
    ensures var s' := DoMint(c, s, i, t);
      && (Live(s', t) <==> c.claimTtl > 0.0) && s'.tokens[t].session == s.issuing[i]
      && forall u :: u != t ==> (Live(s', u) <==> Live(s, u)) && (Live(s, u) ==> s'.tokens[u] == s.tokens[u])
  {
  }

  lemma ExpireRevivesNothing(s: State, i: int, session: Session)
    ensures forall u :: Live(DoExpire(s, i, session), u) ==>
      Live(s, u) && DoExpire(s, i, session).tokens[u].session == s.tokens[u].session
    ensures i !in s.issuing ==> forall u :: Live(DoExpire(s, i, session), u) ==> s.tokens[u].session != session
  {
    hide Invalidate, Live;
    if i in s.issuing {
      assert DoExpire(s, i, session) == s;
    } else {
      InvalidateRevivesNothing(s, session);
      var mid := s.(tokens := Invalidate(s.tokens, session, s.clock));
      assert DoExpire(s, i, session) == mid.(issuing := s.issuing[i := session]);
      LiveWhoeverIssues(mid, s.issuing[i := session]);
    }
  }

  lemma LiveWhoeverIssues(s: State, issuing: map<int, Session>)
    ensures forall u :: Live(s.(issuing := issuing), u) <==> Live(s, u)
  {
  }

  lemma ExpireKeepsOne(s: State, i: int, session: Session)
    requires AtMostOneLive(s)
    ensures AtMostOneLive(DoExpire(s, i, session))
  {
    hide Live, DoExpire;
    ExpireRevivesNothing(s, i, session);
  }

  lemma MintKeepsOneIff(c: Config, s: State, i: int, t: TokenId)
    requires c.claimTtl > 0.0 && AtMostOneLive(s)
    ensures AtMostOneLive(DoMint(c, s, i, t)) <==> MintsAlone(s, Mint(i, t))
  {
    if Mints(s, Mint(i, t)) {
      var s' := DoMint(c, s, i, t);
      MintedIsLive(c, s, i, t);
      hide DoMint;
      if u :| Live(s, u) && s.tokens[u].session == s.issuing[i] {
        assert Live(s', u) && Live(s', t) && u != t;
      }
    }
  }

  /** With at most one live token per session, a step keeps it so exactly if it is not a mint
      that meets a live token of its session. */
  lemma StepKeepsOneLiveIff(c: Config, s: State, a: Action)
    requires c.claimTtl > 0.0 && AtMostOneLive(s)
    ensures AtMostOneLive(Apply(c, s, a)) <==> MintsAlone(s, a)
  {
    hide AtMostOneLive, NothingRevived, DoExpire, DoMint, DoLookup, DoUseToken, DoOpenWindow, DoReadWindow, DoRefresh,
        DoTake, DoSatisfy, DoWriteRow;
    match a {
      case Expire(i, session) => ExpireKeepsOne(s, i, session);
      case Mint(i, t) => MintKeepsOneIff(c, s, i, t);
      case _ =>
        StepRevivesNothing(c, s, a);
        NothingRevivedKeepsOne(s, Apply(c, s, a));
    }
  }

  ghost predicate AlwaysOneLive(c: Config, now: real, actions: seq<Action>) {
    forall k :: 0 <= k <= |actions| ==> AtMostOneLive(Before(c, now, actions, k))
  }

  ghost predicate EveryMintIsAlone(c: Config, now: real, actions: seq<Action>) {
    forall k :: 0 <= k < |actions| ==> MintsAlone(Before(c, now, actions, k), actions[k])
  }

  lemma NothingLiveYet(c: Config, now: real, actions: seq<Action>)
    ensures AtMostOneLive(Before(c, now, actions, 0)) && forall t :: !Live(Before(c, now, actions, 0), t)
  {
  }

  /** A token that is never valid is never live. */
  lemma {:induction false} ShortLivedNeverLive(c: Config, now: real, actions: seq<Action>, k: nat)
    requires c.claimTtl <= 0.0 && k <= |actions|
    ensures forall t :: !Live(Before(c, now, actions, k), t)
  {
    hide Live, Before, NothingRevived, DoExpire, DoMint, DoLookup, DoUseToken, DoOpenWindow, DoReadWindow, DoRefresh,
        DoTake, DoSatisfy, DoWriteRow;
    if k == 0 {
      NothingLiveYet(c, now, actions);
    } else {
      ShortLivedNeverLive(c, now, actions, k - 1);
      BeforeNext(c, now, actions, k - 1);
      StepStaysDead(c, Before(c, now, actions, k - 1), actions[k - 1]);
    }
  }

  lemma StepStaysDead(c: Config, s: State, a: Action)
    requires c.claimTtl <= 0.0 && forall t :: !Live(s, t)
    ensures forall t :: !Live(Apply(c, s, a), t)
  {
    hide Live, DoExpire, DoMint, DoLookup, DoUseToken, DoOpenWindow, DoReadWindow, DoRefresh, DoTake, DoSatisfy,
        DoWriteRow;
    match a {
      case Expire(i, session) => ExpireRevivesNothing(s, i, session);
      case Mint(i, t) => MintStaysDead(c, s, i, t);
      case _ => StepRevivesNothing(c, s, a);
    }
  }

  lemma MintStaysDead(c: Config, s: State, i: int, t: TokenId)
    requires c.claimTtl <= 0.0 && forall u :: !Live(s, u)
    ensures forall u :: !Live(DoMint(c, s, i, t), u)
  {
    if Mints(s, Mint(i, t)) {
      MintedIsLive(c, s, i, t);
    }
  }

  lemma {:induction false} AloneSoFar(c: Config, now: real, actions: seq<Action>, k: nat)
    requires c.claimTtl > 0.0 && EveryMintIsAlone(c, now, actions) && k <= |actions|
    ensures AtMostOneLive(Before(c, now, actions, k))
  {
    hide Before, AtMostOneLive, MintsAlone, Apply;
    if k == 0 {
      NothingLiveYet(c, now, actions);
    } else {
      AloneSoFar(c, now, actions, k - 1);
      BeforeNext(c, now, actions, k - 1);
      StepKeepsOneLiveIff(c, Before(c, now, actions, k - 1), actions[k - 1]);
    }
  }

  /** A run keeps at most one live token per session, from beginning to end, exactly if every
      mint that takes effect finds no live token of its session. */
  lemma OneLiveTokenIff(c: Config, now: real, actions: seq<Action>)
    ensures AlwaysOneLive(c, now, actions) <==> EveryMintIsAlone(c, now, actions)
  {
    hide Before, Apply, Live;
    if c.claimTtl <= 0.0 {
      forall k: nat | k <= |actions| {
        ShortLivedNeverLive(c, now, actions, k);
      }
    } else if EveryMintIsAlone(c, now, actions) {
      forall k: nat | k <= |actions| {
        AloneSoFar(c, now, actions, k);
      }
    } else {
      var k :| 0 <= k < |actions| && !MintsAlone(Before(c, now, actions, k), actions[k]);
      hide AtMostOneLive, MintsAlone;
      BeforeNext(c, now, actions, k);
      if AtMostOneLive(Before(c, now, actions, k)) {
        StepKeepsOneLiveIff(c, Before(c, now, actions, k), actions[k]);
      }
    }
  }

  // ---------- The same, for the issuer ----------

  lemma StepKeepsIssue(c: Config, s: State, a: Action, i: int)
    requires i in Apply(c, s, a).issuing
    ensures if i in s.issuing then Apply(c, s, a).issuing[i] == s.issuing[i]
      else a == Expire(i, Apply(c, s, a).issuing[i])
  {
    hide Apply;
    if a.Expire? || a.Mint? || a.AbandonIssue? {
      IssuerKeepsOtherIssues(c, s, a, i);
    } else if a.ReadWindow? || a.Refresh? || a.Take? || a.WriteRow? {
      AgentsLeaveIssues(c, s, a);
    } else {
      ClaimsLeaveIssues(c, s, a);
    }
  }

  lemma IssuerKeepsOtherIssues(c: Config, s: State, a: Action, i: int)
    requires (a.Expire? || a.Mint? || a.AbandonIssue?) && i in Apply(c, s, a).issuing
    ensures if i in s.issuing then Apply(c, s, a).issuing[i] == s.issuing[i]
      else a == Expire(i, Apply(c, s, a).issuing[i])
  {
    hide DoExpire, DoMint;
    if a.Mint? {
      MintEndsIssue(c, s, a.issuer, a.token);
    } else if a.Expire? {
      ExpireStartsIssue(s, a.issuer, a.session);
    }
  }

  lemma ExpireStartsIssue(s: State, i: int, session: Session)
    ensures DoExpire(s, i, session).issuing == if i in s.issuing then s.issuing else s.issuing[i := session]
  {
    hide Invalidate;
  }

  lemma AgentsLeaveIssues(c: Config, s: State, a: Action)
    requires a.ReadWindow? || a.Refresh? || a.Take? || a.WriteRow?
    ensures Apply(c, s, a).issuing == s.issuing
  {
    hide Grows, DoReadWindow, DoRefresh, DoTake, DoWriteRow;
    match a {
      case ReadWindow(g, w, student) => ReadWindowGrows(s, g, w, student);
      case Refresh(m, session, targets, answered, ts) => RefreshGrows(s, m, session, targets, answered, ts);
      case Take(m, student, g, ts) => TakeGrows(c, s, m, student, g, ts);
      case WriteRow(g, persisted) => WriteRowGrows(s, g, persisted);
    }
  }

  lemma ClaimsLeaveIssues(c: Config, s: State, a: Action)
    requires !a.Expire? && !a.Mint? && !a.AbandonIssue? && !a.ReadWindow? && !a.Refresh? && !a.Take? && !a.WriteRow?
    ensures Apply(c, s, a).issuing == s.issuing
  {
    hide Grows, DoLookup, DoUseToken, DoOpenWindow, DoSatisfy, Invalidate;
    match a {
      case Lookup(k, t, student, answered) => LookupGrows(s, k, t, student, answered);
      case UseToken(k) => UseTokenGrows(s, k);
      case OpenWindow(k, w, persisted) => OpenWindowGrows(c, s, k, w, persisted);
      case Satisfy(g) => SatisfyGrows(s, g);
      case _ =>
    }
  }

  lemma MintEndsIssue(c: Config, s: State, i: int, t: TokenId)
    ensures DoMint(c, s, i, t).issuing == s.issuing || DoMint(c, s, i, t).issuing == s.issuing - {i}
  {
  }

  /** An issue under way began with its own expiry request, and has been under way since. */
  lemma {:induction false} IssueBegan(c: Config, now: real, actions: seq<Action>, n: nat, i: int) returns (e: nat)
    requires n <= |actions| && i in Before(c, now, actions, n).issuing
    ensures e < n && actions[e] == Expire(i, Before(c, now, actions, n).issuing[i])
      && i !in Before(c, now, actions, e).issuing
    ensures forall j :: e < j <= n ==> i in Before(c, now, actions, j).issuing
  {
    hide Apply, Before;
    BeforeStart(c, now, actions);
    e := n - 1;
    if n == 0 {
    } else {
      BeforeNext(c, now, actions, n - 1);
      StepKeepsIssue(c, Before(c, now, actions, n - 1), actions[n - 1], i);
      if i in Before(c, now, actions, n - 1).issuing {
        e := IssueBegan(c, now, actions, n - 1, i);
      }
    }
  }

  lemma StepKeepsDead(c: Config, s: State, a: Action, u: TokenId)
    requires u in s.tokens && !Live(s, u)
    ensures var s' := Apply(c, s, a); u in s'.tokens && s'.tokens[u].session == s.tokens[u].session && !Live(s', u)
  {
    hide Live, DoExpire, DoMint, DoLookup, DoUseToken, DoOpenWindow, DoReadWindow, DoRefresh, DoTake, DoSatisfy,
        DoWriteRow;
    StepGrows(c, s, a);
    match a {
      case Expire(i, session) => ExpireRevivesNothing(s, i, session);
      case Mint(i, t) => MintKeepsDead(c, s, i, t, u);
      case _ => StepRevivesNothing(c, s, a);
    }
  }

  lemma MintKeepsDead(c: Config, s: State, i: int, t: TokenId, u: TokenId)
    requires u in s.tokens && !Live(s, u)
    ensures !Live(DoMint(c, s, i, t), u)
  {
  }

  /** Tokens of the session from before an issue's expiry request are never live again. */
  lemma {:induction false} OlderAreDead(c: Config, now: real, actions: seq<Action>, e: nat, n: nat, i: int,
                                        session: Session, u: TokenId)
    requires e < n <= |actions| && actions[e] == Expire(i, session) && i !in Before(c, now, actions, e).issuing
    requires u in Before(c, now, actions, e + 1).tokens && Before(c, now, actions, e + 1).tokens[u].session == session
    ensures u in Before(c, now, actions, n).tokens && Before(c, now, actions, n).tokens[u].session == session
    ensures !Live(Before(c, now, actions, n), u)
  {
    hide Before, Apply, Live;
    if n == e + 1 {
      BeforeNext(c, now, actions, e);
      ExpiredAreDead(c, Before(c, now, actions, e), i, session, u);
    } else {
      OlderAreDead(c, now, actions, e, n - 1, i, session, u);
      BeforeNext(c, now, actions, n - 1);
      StepKeepsDead(c, Before(c, now, actions, n - 1), actions[n - 1], u);
    }
  }

  lemma ExpiredAreDead(c: Config, s: State, i: int, session: Session, u: TokenId)
    requires i !in s.issuing && u in Apply(c, s, Expire(i, session)).tokens
      && Apply(c, s, Expire(i, session)).tokens[u].session == session
    ensures !Live(Apply(c, s, Expire(i, session)), u)
  {
  }

  /** For the issuer: its mint meets no live token exactly if no token of the session minted by
      somebody else since its own expiry request is still live. */
  lemma MintIsAloneIff(c: Config, now: real, actions: seq<Action>, k: nat) returns (e: nat)
    requires k < |actions| && Mints(Before(c, now, actions, k), actions[k])
    ensures var (s, i) := (Before(c, now, actions, k), actions[k].issuer);
      && e < k && actions[e] == Expire(i, s.issuing[i]) && i !in Before(c, now, actions, e).issuing
      && (MintsAlone(s, actions[k]) <==>
          forall u ::
            u in s.tokens && u !in Before(c, now, actions, e + 1).tokens && s.tokens[u].session == s.issuing[i] ==>
            !Live(s, u))
  {
    hide Before, Apply;
    var s, i := Before(c, now, actions, k), actions[k].issuer;
    e := IssueBegan(c, now, actions, k, i);
    forall u | u in s.tokens && u in Before(c, now, actions, e + 1).tokens && s.tokens[u].session == s.issuing[i]
      ensures !Live(s, u)
    {
      SessionStays(c, now, actions, e + 1, k, u);
      OlderAreDead(c, now, actions, e, k, i, s.issuing[i], u);
    }
  }

  lemma {:induction false} SessionStays(c: Config, now: real, actions: seq<Action>, m: nat, n: nat, u: TokenId)
    requires m <= n <= |actions| && u in Before(c, now, actions, m).tokens
    ensures u in Before(c, now, actions, n).tokens
    ensures Before(c, now, actions, n).tokens[u].session == Before(c, now, actions, m).tokens[u].session
  {
    hide Before, Apply;
    if m == n {
    } else {
      SessionStays(c, now, actions, m, n - 1, u);
      BeforeNext(c, now, actions, n - 1);
      StepGrows(c, Before(c, now, actions, n - 1), actions[n - 1]);
    }
  }

  /** Serialised issues meet the condition, ... */
  lemma {:induction false} SerialIssuesMintAlone(c: Config, now: real, actions: seq<Action>, k: nat)
    requires SerialIssues(c, Init(now), actions) && k < |actions|
    ensures MintsAlone(Before(c, now, actions, k), actions[k])
    decreases |actions|
  {
    hide Apply, SerialIssue;
    var n := |actions| - 1;
    if k < n {
      SerialIssuesMintAlone(c, now, actions[..n], k);
      assert actions[..n][..k] == actions[..k];
    } else {
      SerialIssuesKeepOneLive(c, now, actions[..n]);
      assert OneLive(Before(c, now, actions, n));
    }
  }

  /** ... racing ones do not. */
  lemma RacingIssuesDoNotMintAlone(c: Config)
    requires c.claimTtl > 0.0
    ensures !EveryMintIsAlone(c, 0.0, RacingIssues())
  {
    hide Run, Live, EveryMintIsAlone, RacingIssues;
    RacingIssuesLeaveTwoLive(c);
    OneLiveTokenIff(c, 0.0, RacingIssues());
    var actions := RacingIssues();
    assert actions[..|actions|] == actions;
    assert Before(c, 0.0, actions, |actions|) == Run(c, Init(0.0), actions);
  }

  // ---------- One window per student ----------

  /** The claim's window is opened. */
  predicate Opens(s: State, a: Action) {
    && a.OpenWindow? && a.persisted
    && a.claim in s.claims && s.claims[a.claim].Won? && s.claims[a.claim].token in s.tokens
    && a.window !in s.windows
  }

  function SessionOf(s: State, k: int): Session
    requires k in s.claims && s.claims[k].token in s.tokens
  {
    s.tokens[s.claims[k].token].session
  }

  /** If the step opens a window, the student has none yet in the session. */
  predicate OpensFirst(s: State, a: Action) {
    Opens(s, a) ==> !HasAttempt(s, SessionOf(s, a.claim), s.claims[a.claim].student)
  }

  lemma OpenedWindow(c: Config, s: State, a: Action)
    requires Opens(s, a)
    ensures var s' := Apply(c, s, a);
      && s'.windows == s.windows[a.window := VerifyWindow(SessionOf(s, a.claim), s.claims[a.claim].student,
                                                          s.claims[a.claim].at + c.windowTtl, None)]
      && a.claim !in s'.claims
  {
  }

  /** Any other step leaves the list of windows as it was. */
  lemma SameWindowsOtherwise(c: Config, s: State, a: Action)
    requires !Opens(s, a)
    ensures Apply(c, s, a).windows.Keys == s.windows.Keys
  {
    hide Apply;
    if a.OpenWindow? {
      NothingOpened(c, s, a);
    } else if a.Satisfy? {
      SameList(c, s, a.agent);
    } else {
      WindowsStay(c, s, a);
    }
  }

  lemma NothingOpened(c: Config, s: State, a: Action)
    requires a.OpenWindow? && !Opens(s, a)
    ensures Apply(c, s, a).windows == s.windows
  {
  }

  lemma SameList(c: Config, s: State, g: int)
    ensures Apply(c, s, Satisfy(g)).windows.Keys == s.windows.Keys
  {
    hide DoSatisfy;
    SatisfyKeepsList(s, g);
  }

  lemma SatisfyKeepsList(s: State, g: int)
    ensures DoSatisfy(s, g).windows.Keys == s.windows.Keys
  {
    if g in s.agents && !s.agents[g].won && s.agents[g].window in s.windows {
      var w := s.agents[g].window;
      assert s.windows[w := s.windows[w].(satisfiedAt := Some(s.clock))].Keys == s.windows.Keys;
    }
  }

  lemma WindowsStay(c: Config, s: State, a: Action)
    requires !a.OpenWindow? && !a.Satisfy?
    ensures Apply(c, s, a).windows == s.windows
  {
    hide Grows, SameIssue, DoExpire, DoMint, DoLookup, DoUseToken, DoReadWindow, DoRefresh, DoTake, DoWriteRow,
        Invalidate;
    match a {
      case Expire(i, session) => ExpireGrows(s, i, session);
      case Mint(i, t) => MintGrows(c, s, i, t);
      case Lookup(k, t, student, answered) => LookupGrows(s, k, t, student, answered);
      case UseToken(k) => UseTokenGrows(s, k);
      case ReadWindow(g, w, student) => ReadWindowGrows(s, g, w, student);
      case Refresh(m, session, targets, answered, ts) => RefreshGrows(s, m, session, targets, answered, ts);
      case Take(m, student, g, ts) => TakeGrows(c, s, m, student, g, ts);
      case WriteRow(g, persisted) => WriteRowGrows(s, g, persisted);
      case _ =>
    }
  }

  lemma SameListSameOne(before: map<WindowId, VerifyWindow>, after: map<WindowId, VerifyWindow>)
    requires WindowsGrow(before, after) && after.Keys == before.Keys
    ensures OneWindow(before) <==> OneWindow(after)
  {
  }

  lemma OneMoreWindow(windows: map<WindowId, VerifyWindow>, w: WindowId, v: VerifyWindow)
    requires OneWindow(windows) && w !in windows
    ensures OneWindow(windows[w := v])
       <==> forall u :: u in windows ==> windows[u].session != v.session || windows[u].student != v.student
  {
    var after := windows[w := v];
    if u :| u in windows && windows[u].session == v.session && windows[u].student == v.student {
      assert u in after && w in after && after[u].session == after[w].session && after[u].student == after[w].student;
    }
  }

  /** With at most one window per student, a step keeps it so exactly if it does not open a
      window for a student who has one. */
  lemma StepKeepsOneWindowIff(c: Config, s: State, a: Action)
    requires OneWindow(s.windows)
    ensures OneWindow(Apply(c, s, a).windows) <==> OpensFirst(s, a)
  {
    hide OneWindow, WindowsGrow, Apply;
    if Opens(s, a) {
      OpenedWindow(c, s, a);
      OneMoreWindow(s.windows, a.window, Apply(c, s, a).windows[a.window]);
    } else {
      StepGrows(c, s, a);
      SameWindowsOtherwise(c, s, a);
      SameListSameOne(s.windows, Apply(c, s, a).windows);
    }
  }

  lemma FewerAreOne(before: map<WindowId, VerifyWindow>, after: map<WindowId, VerifyWindow>)
    requires WindowsGrow(before, after) && OneWindow(after)
    ensures OneWindow(before)
  {
  }

  ghost predicate EveryOpenIsFirst(c: Config, now: real, actions: seq<Action>) {
    forall k :: 0 <= k < |actions| ==> OpensFirst(Before(c, now, actions, k), actions[k])
  }

  lemma NoWindowYet(c: Config, now: real, actions: seq<Action>)
    ensures OneWindow(Before(c, now, actions, 0).windows)
  {
  }

  lemma {:induction false} OneWindowSoFar(c: Config, now: real, actions: seq<Action>, n: nat)
    requires n <= |actions|
    ensures OneWindow(Before(c, now, actions, n).windows)
       <==> forall k :: 0 <= k < n ==> OpensFirst(Before(c, now, actions, k), actions[k])
  {
    hide Before, Apply, OneWindow, OpensFirst;
    if n == 0 {
      NoWindowYet(c, now, actions);
    } else {
      var s := Before(c, now, actions, n - 1);
      OneWindowSoFar(c, now, actions, n - 1);
      BeforeNext(c, now, actions, n - 1);
      StepGrows(c, s, actions[n - 1]);
      if OneWindow(s.windows) {
        StepKeepsOneWindowIff(c, s, actions[n - 1]);
      } else if OneWindow(Before(c, now, actions, n).windows) {
        FewerAreOne(s.windows, Before(c, now, actions, n).windows);
      }
    }
  }

  /** A run gives every student at most one window per session exactly if every window opened
      is the student's first at that moment. */
  lemma OneWindowIff(c: Config, now: real, actions: seq<Action>)
    ensures OneWindow(Run(c, Init(now), actions).windows) <==> EveryOpenIsFirst(c, now, actions)
  {
    hide OneWindow, OpensFirst, Run;
    OneWindowSoFar(c, now, actions, |actions|);
    assert actions[..|actions|] == actions;
  }

  lemma StepKeepsClaim(c: Config, s: State, a: Action, k: int)
    requires k in Apply(c, s, a).claims
    ensures var claim := Apply(c, s, a).claims[k];
      if k in s.claims then claim.token == s.claims[k].token && claim.student == s.claims[k].student
      else
        && a.Lookup? && a.claim == k && a.token == claim.token && a.student == claim.student && a.token in s.tokens
        && (a.answered ==> !HasAttempt(s, s.tokens[a.token].session, a.student))
  {
    hide Apply, HasAttempt;
    if a.Lookup? {
      LookupStartsClaim(c, s, a);
    } else if a.UseToken? || a.OpenWindow? || a.AbandonClaim? {
      ClaimStaysItself(c, s, a, k);
    } else {
      OtherClaimsStay(c, s, a);
    }
  }

  lemma LookupStartsClaim(c: Config, s: State, a: Action)
    requires a.Lookup?
    ensures var s' := Apply(c, s, a); s'.claims != s.claims ==>
      && a.claim !in s.claims && a.token in s.tokens && s'.claims == s.claims[a.claim := Looked(a.token, a.student)]
      && (a.answered ==> !HasAttempt(s, s.tokens[a.token].session, a.student))
  {
    hide HasAttempt;
  }

  lemma ClaimStaysItself(c: Config, s: State, a: Action, k: int)
    requires (a.UseToken? || a.OpenWindow? || a.AbandonClaim?) && k in Apply(c, s, a).claims
    ensures k in s.claims && Apply(c, s, a).claims[k].token == s.claims[k].token
      && Apply(c, s, a).claims[k].student == s.claims[k].student
  {
    hide Unused, UsedBy, DoUseToken, DoOpenWindow;
    match a {
      case UseToken(j) => UserStaysItself(s, j, k);
      case OpenWindow(j, w, persisted) => OpenerStaysItself(c, s, j, w, persisted, k);
      case AbandonClaim(_) =>
    }
  }

  lemma UserStaysItself(s: State, j: int, k: int)
    requires k in DoUseToken(s, j).claims
    ensures k in s.claims && DoUseToken(s, j).claims[k].token == s.claims[k].token
      && DoUseToken(s, j).claims[k].student == s.claims[k].student
  {
    hide DoUseToken;
    UserClaims(s, j);
  }

  lemma UserClaims(s: State, j: int)
    ensures DoUseToken(s, j).claims
         == if j !in s.claims || s.claims[j].Won? || s.claims[j].token !in s.tokens then s.claims
            else if Unused(s.tokens[s.claims[j].token]) && s.tokens[s.claims[j].token].expiresAt > s.clock
            then WonBy(s.claims, j, s.clock)
            else s.claims - {j}
  {
    hide Unused, UsedBy, WonBy;
    if j !in s.claims || s.claims[j].Won? || s.claims[j].token !in s.tokens {
      assert DoUseToken(s, j) == s;
    } else if Unused(s.tokens[s.claims[j].token]) && s.tokens[s.claims[j].token].expiresAt > s.clock {
      var tokens := UsedBy(s.tokens, s.claims[j].token, s.claims[j].student, s.clock);
      assert DoUseToken(s, j) == s.(tokens := tokens, claims := WonBy(s.claims, j, s.clock));
    } else {
      assert DoUseToken(s, j) == s.(claims := s.claims - {j});
    }
  }

  lemma OpenerStaysItself(c: Config, s: State, j: int, w: WindowId, persisted: bool, k: int)
    requires k in DoOpenWindow(c, s, j, w, persisted).claims
    ensures k in s.claims && DoOpenWindow(c, s, j, w, persisted).claims[k] == s.claims[k]
  {
  }

  lemma OtherClaimsStay(c: Config, s: State, a: Action)
    requires !a.Lookup? && !a.UseToken? && !a.OpenWindow? && !a.AbandonClaim?
    ensures Apply(c, s, a).claims == s.claims
  {
    hide Grows, SameIssue, DoSatisfy, Invalidate, DoExpire, DoMint, DoReadWindow, DoRefresh, DoTake, DoWriteRow;
    if a.Satisfy? {
      SatisfyGrows(s, a.agent);
    } else {
      ClaimsStay(c, s, a);
    }
  }

  /** A claim in flight began with its lookup, which found no attempt if it was answered, and has
      been in flight since. */
  lemma {:induction false} ClaimBegan(c: Config, now: real, actions: seq<Action>, n: nat, k: int) returns (l: nat)
    requires n <= |actions| && k in Before(c, now, actions, n).claims
    ensures l < n && actions[l].Lookup? && actions[l].claim == k
      && actions[l].token in Before(c, now, actions, l).tokens
    ensures var claim := Before(c, now, actions, n).claims[k];
      actions[l].token == claim.token && actions[l].student == claim.student
    ensures var s := Before(c, now, actions, l);
      actions[l].answered ==> !HasAttempt(s, s.tokens[actions[l].token].session, actions[l].student)
    ensures forall j :: l < j <= n ==> k in Before(c, now, actions, j).claims
  {
    hide Apply, Before, HasAttempt;
    BeforeStart(c, now, actions);
    l := n - 1;
    if n == 0 {
    } else {
      BeforeNext(c, now, actions, n - 1);
      StepKeepsClaim(c, Before(c, now, actions, n - 1), actions[n - 1], k);
      if k in Before(c, now, actions, n - 1).claims {
        l := ClaimBegan(c, now, actions, n - 1, k);
      }
    }
  }

  lemma NewAttemptWasOpened(c: Config, s: State, a: Action, session: Session, student: Student)
    requires !HasAttempt(s, session, student) && HasAttempt(Apply(c, s, a), session, student)
    ensures Opens(s, a) && SessionOf(s, a.claim) == session && s.claims[a.claim].student == student
  {
    hide Apply;
    StepGrows(c, s, a);
    if Opens(s, a) {
      OpenedWindow(c, s, a);
    } else {
      SameWindowsOtherwise(c, s, a);
    }
  }

  /** An attempt that was not there came with the opening of a window. */
  lemma {:induction false} AttemptBegan(c: Config, now: real, actions: seq<Action>, m: nat, n: nat, session: Session,
                                        student: Student) returns (o: nat)
    requires m <= n <= |actions|
    requires !HasAttempt(Before(c, now, actions, m), session, student)
      && HasAttempt(Before(c, now, actions, n), session, student)
    ensures m <= o < n && Opens(Before(c, now, actions, o), actions[o])
    ensures var (s, a) := (Before(c, now, actions, o), actions[o]);
      SessionOf(s, a.claim) == session && s.claims[a.claim].student == student
  {
    hide Before, Apply, HasAttempt;
    var s := Before(c, now, actions, n - 1);
    BeforeNext(c, now, actions, n - 1);
    if HasAttempt(s, session, student) {
      o := AttemptBegan(c, now, actions, m, n - 1, session, student);
    } else {
      NewAttemptWasOpened(c, s, actions[n - 1], session, student);
      o := n - 1;
    }
  }

  /** When a claim meets an attempt, either its lookup was not answered, or another claim of the
      same student for the same session opened its window between the lookup and now. */
  lemma MeetingAttemptIsAnotherClaim(c: Config, now: real, actions: seq<Action>, n: nat, k: int)
    returns (l: nat, o: nat)
    requires n <= |actions| && k in Before(c, now, actions, n).claims
    requires Before(c, now, actions, n).claims[k].token in Before(c, now, actions, n).tokens
    requires var s := Before(c, now, actions, n); HasAttempt(s, SessionOf(s, k), s.claims[k].student)
    ensures l < n && actions[l].Lookup? && actions[l].claim == k
    ensures actions[l].answered ==>
      && l < o < n && Opens(Before(c, now, actions, o), actions[o]) && actions[o].claim != k
      && (var (s, s', j) := (Before(c, now, actions, n), Before(c, now, actions, o), actions[o].claim);
          SessionOf(s', j) == SessionOf(s, k) && s'.claims[j].student == s.claims[k].student)
  {
    hide Before, Apply, HasAttempt;
    var s := Before(c, now, actions, n);
    l := ClaimBegan(c, now, actions, n, k);
    o := 0;
    SessionStays(c, now, actions, l, n, actions[l].token);
    if actions[l].answered {
      o := AttemptBegan(c, now, actions, l, n, SessionOf(s, k), s.claims[k].student);
      BeforeNext(c, now, actions, o);
      OpenedWindow(c, Before(c, now, actions, o), actions[o]);
    }
  }

  /** Serialised claims with answered lookups meet the condition; the racing claims and the
      unanswered lookup do not. */
  lemma WhoOpensFirst(c: Config, now: real, actions: seq<Action>)
    ensures SerialClaims(c, Init(now), actions) ==> EveryOpenIsFirst(c, now, actions)
    ensures c.claimTtl > 0.0 ==>
      !EveryOpenIsFirst(c, 0.0, RacingClaims()) && !EveryOpenIsFirst(c, 0.0, UnansweredLookup())
  {
    hide Run, OneWindow, EveryOpenIsFirst, SerialClaims, RacingClaims, UnansweredLookup;
    OneWindowIff(c, now, actions);
    if SerialClaims(c, Init(now), actions) {
      SerialClaimsGiveOneRow(c, now, actions);
    }
    if c.claimTtl > 0.0 {
      TwoAreNotOne(VerifyWindow(Session(0), Student(7), c.windowTtl, None));
      OneWindowIff(c, 0.0, RacingClaims());
      RacingClaimsOpenTwoWindows(c);
      OneWindowIff(c, 0.0, UnansweredLookup());
      UnansweredLookupOpensTwoWindows(c);
    }
  }

  lemma TwoAreNotOne(v: VerifyWindow)
    ensures !OneWindow(map[WindowId(1) := v, WindowId(2) := v])
  {
    var windows := map[WindowId(1) := v, WindowId(2) := v];
    assert WindowId(1) in windows && WindowId(2) in windows;
  }

  // ---------- Nothing after expiry ----------

  /** The agent's update satisfies its window. */
  predicate Satisfies(s: State, a: Action) {
    && a.Satisfy? && a.agent in s.agents && !s.agents[a.agent].won && s.agents[a.agent].window in s.windows
    && s.windows[s.agents[a.agent].window].satisfiedAt.None?
  }

  /** If the step satisfies a window, the window is still open. */
  predicate FindsOpen(s: State, a: Action) {
    Satisfies(s, a) ==> IsOpen(s, s.agents[a.agent].window)
  }

  /** Every satisfied window was satisfied before it expired. */
  ghost predicate InTime(windows: map<WindowId, VerifyWindow>) {
    forall w :: w in windows && windows[w].satisfiedAt.Some? ==> windows[w].satisfiedAt.value < windows[w].expiresAt
  }

  lemma SatisfiedNow(c: Config, s: State, a: Action)
    requires Satisfies(s, a)
    ensures var w := s.agents[a.agent].window;
      Apply(c, s, a).windows == s.windows[w := s.windows[w].(satisfiedAt := Some(s.clock))]
  {
  }

  /** Any other step satisfies nothing. */
  lemma NothingSatisfiedOtherwise(c: Config, s: State, a: Action)
    requires !Satisfies(s, a)
    ensures var s' := Apply(c, s, a);
      forall w :: w in s'.windows && s'.windows[w].satisfiedAt.Some? ==>
        w in s.windows && s.windows[w] == s'.windows[w]
  {
    hide Apply;
    if a.Satisfy? {
      NothingSatisfied(c, s, a);
    } else if a.OpenWindow? {
      OpenedIsUnsatisfied(c, s, a);
    } else {
      WindowsStay(c, s, a);
    }
  }

  lemma NothingSatisfied(c: Config, s: State, a: Action)
    requires a.Satisfy? && !Satisfies(s, a)
    ensures Apply(c, s, a).windows == s.windows
  {
  }

  lemma OpenedIsUnsatisfied(c: Config, s: State, a: Action)
    requires a.OpenWindow?
    ensures var s' := Apply(c, s, a);
      forall w :: w in s'.windows && s'.windows[w].satisfiedAt.Some? ==>
        w in s.windows && s.windows[w] == s'.windows[w]
  {
  }

  lemma OneMoreInTime(windows: map<WindowId, VerifyWindow>, w: WindowId, at: real)
    requires InTime(windows) && w in windows
    ensures InTime(windows[w := windows[w].(satisfiedAt := Some(at))]) <==> at < windows[w].expiresAt
  {
    var after := windows[w := windows[w].(satisfiedAt := Some(at))];
    assert w in after && after[w].satisfiedAt == Some(at) && after[w].expiresAt == windows[w].expiresAt;
  }

  /** As long as all windows were satisfied in time, a step keeps it so exactly if it does not
      satisfy a window that is no longer open. */
  lemma StepKeepsInTimeIff(c: Config, s: State, a: Action)
    requires InTime(s.windows)
    ensures InTime(Apply(c, s, a).windows) <==> FindsOpen(s, a)
  {
    hide InTime, Apply;
    if Satisfies(s, a) {
      SatisfiedNow(c, s, a);
      OneMoreInTime(s.windows, s.agents[a.agent].window, s.clock);
    } else {
      NothingSatisfiedOtherwise(c, s, a);
      NoneLate(s.windows, Apply(c, s, a).windows);
    }
  }

  lemma NoneLate(before: map<WindowId, VerifyWindow>, after: map<WindowId, VerifyWindow>)
    requires InTime(before)
    requires forall w :: w in after && after[w].satisfiedAt.Some? ==> w in before && before[w] == after[w]
    ensures InTime(after)
  {
  }

  lemma LateStaysLate(before: map<WindowId, VerifyWindow>, after: map<WindowId, VerifyWindow>)
    requires WindowsGrow(before, after) && InTime(after)
    ensures InTime(before)
  {
  }

  ghost predicate EverySatisfyFindsOpen(c: Config, now: real, actions: seq<Action>) {
    forall k :: 0 <= k < |actions| ==> FindsOpen(Before(c, now, actions, k), actions[k])
  }

  lemma NothingLateYet(c: Config, now: real, actions: seq<Action>)
    ensures InTime(Before(c, now, actions, 0).windows)
  {
  }

  lemma {:induction false} InTimeSoFar(c: Config, now: real, actions: seq<Action>, n: nat)
    requires n <= |actions|
    ensures InTime(Before(c, now, actions, n).windows) <==>
      forall k :: 0 <= k < n ==> FindsOpen(Before(c, now, actions, k), actions[k])
  {
    hide Before, Apply, InTime, FindsOpen;
    if n == 0 {
      NothingLateYet(c, now, actions);
    } else {
      var s := Before(c, now, actions, n - 1);
      InTimeSoFar(c, now, actions, n - 1);
      BeforeNext(c, now, actions, n - 1);
      StepGrows(c, s, actions[n - 1]);
      if InTime(s.windows) {
        StepKeepsInTimeIff(c, s, actions[n - 1]);
      } else if InTime(Before(c, now, actions, n).windows) {
        LateStaysLate(s.windows, Before(c, now, actions, n).windows);
      }
    }
  }

  /** Every satisfied window of a run was satisfied before it expired exactly if every update
      that satisfied one found it still open. */
  lemma InTimeIff(c: Config, now: real, actions: seq<Action>)
    ensures InTime(Run(c, Init(now), actions).windows) <==> EverySatisfyFindsOpen(c, now, actions)
  {
    hide InTime, FindsOpen, Run;
    InTimeSoFar(c, now, actions, |actions|);
    assert actions[..|actions|] == actions;
  }

  /** Then every row is of a window that was satisfied in time. */
  lemma RowsAreOfWindowsInTime(c: Config, now: real, actions: seq<Action>)
    requires EverySatisfyFindsOpen(c, now, actions)
    ensures var s := Run(c, Init(now), actions);
      && |s.rowWindow| == |s.rows|
      && forall k :: 0 <= k < |s.rows| ==>
           && s.rowWindow[k] in s.windows && s.windows[s.rowWindow[k]].satisfiedAt.Some?
           && s.windows[s.rowWindow[k]].satisfiedAt.value < s.windows[s.rowWindow[k]].expiresAt
  {
    hide Run, EverySatisfyFindsOpen;
    InTimeIff(c, now, actions);
    RowsHaveTheirOwnWindows(c, now, actions);
    var s := Run(c, Init(now), actions);
    forall k | 0 <= k < |s.rows|
      ensures s.rowWindow[k] in s.windows && s.windows[s.rowWindow[k]].satisfiedAt.Some?
    {
      assert RowOk(s.clock, s.windows, s.rows[k], s.rowWindow[k]);
    }
  }

  /** The slow selfie does not meet it. */
  lemma SlowSelfieFindsItClosed(c: Config)
    requires c.claimTtl > 0.0 && c.windowTtl > 0.0
    ensures !EverySatisfyFindsOpen(c, 0.0, SlowSelfie(c))
  {
    hide Run, EverySatisfyFindsOpen, SlowSelfie;
    InTimeIff(c, 0.0, SlowSelfie(c));
    ExpiredWindowCanGetARow(c);
  }

  // ---------- No row after expiry ----------

  /** The agent's row is written. */
  predicate Writes(s: State, a: Action) {
    a.WriteRow? && a.persisted && a.agent in s.agents && s.agents[a.agent].won
  }

  /** If the step writes a row, its window has not expired. */
  predicate WritesInTime(s: State, a: Action) {
    Writes(s, a) ==>
      s.agents[a.agent].window in s.windows && s.clock < s.windows[s.agents[a.agent].window].expiresAt
  }

  /** Every row was written before its window expired. */
  ghost predicate RowsInTime(windows: map<WindowId, VerifyWindow>, rows: seq<PresenceRow>, rowWindow: seq<WindowId>) {
    && |rows| == |rowWindow|
    && forall k :: 0 <= k < |rows| ==> rowWindow[k] in windows && rows[k].at < windows[rowWindow[k]].expiresAt
  }

  ghost predicate AllRowsInTime(s: State) {
    RowsInTime(s.windows, s.rows, s.rowWindow)
  }

  lemma WrittenNow(c: Config, s: State, a: Action)
    requires Writes(s, a)
    ensures var s' := Apply(c, s, a);
      && s'.windows == s.windows && s'.rowWindow == s.rowWindow + [s.agents[a.agent].window]
      && s'.rows == s.rows + [PresenceRow(s.agents[a.agent].session, s.agents[a.agent].student, s.clock)]
  {
  }

  predicate SameRows(s: State, s': State) {
    s'.rows == s.rows && s'.rowWindow == s.rowWindow
  }

  /** Any other step writes nothing. */
  lemma NothingWrittenOtherwise(c: Config, s: State, a: Action)
    requires !Writes(s, a)
    ensures SameRows(s, Apply(c, s, a))
  {
    hide SameRows, DoExpire, DoMint, DoLookup, DoUseToken, DoOpenWindow, DoReadWindow, DoRefresh, DoTake, DoSatisfy,
        DoWriteRow;
    SameRowsBeside(s, s.clock, s.tokens, s.issuing, s.claims, s.agents);
    match a {
      case Expire(i, session) => ExpireKeepsRows(s, i, session);
      case Mint(i, t) => MintKeepsRows(c, s, i, t);
      case Lookup(k, t, student, answered) => LookupKeepsRows(s, k, t, student, answered);
      case UseToken(k) => UseTokenKeepsRows(s, k);
      case OpenWindow(k, w, persisted) => OpenWindowKeepsRows(c, s, k, w, persisted);
      case ReadWindow(g, w, student) => ReadWindowKeepsRows(s, g, w, student);
      case Refresh(m, session, targets, answered, ts) => RefreshKeepsRows(s, m, session, targets, answered, ts);
      case Take(m, student, g, ts) => TakeKeepsRows(c, s, m, student, g, ts);
      case Satisfy(g) => SatisfyKeepsRows(s, g);
      case WriteRow(g, persisted) => NotWritten(s, g, persisted);
      case Tick(to) => SameRowsBeside(s, to, s.tokens, s.issuing, s.claims, s.agents);
      case AbandonIssue(i) => SameRowsBeside(s, s.clock, s.tokens, s.issuing - {i}, s.claims, s.agents);
      case CloseQr(session) =>
        SameRowsBeside(s, s.clock, Invalidate(s.tokens, session, s.clock), s.issuing, s.claims, s.agents);
      case AbandonClaim(k) => SameRowsBeside(s, s.clock, s.tokens, s.issuing, s.claims - {k}, s.agents);
      case GiveUp(g) => SameRowsBeside(s, s.clock, s.tokens, s.issuing, s.claims, s.agents - {g});
    }
  }

  lemma SameRowsBeside(s: State, clock: real, tokens: map<TokenId, Token>, issuing: map<int, Session>,
                       claims: map<int, Claim>, agents: map<int, Agent>)
    ensures SameRows(s, s) && SameRows(s, s.(clock := clock)) && SameRows(s, s.(tokens := tokens))
    ensures SameRows(s, s.(issuing := issuing)) && SameRows(s, s.(claims := claims))
    ensures SameRows(s, s.(agents := agents))
  {
  }

  lemma ExpireKeepsRows(s: State, i: int, session: Session)
    ensures SameRows(s, DoExpire(s, i, session))
  {
    hide Invalidate;
  }

  lemma MintKeepsRows(c: Config, s: State, i: int, t: TokenId)
    ensures SameRows(s, DoMint(c, s, i, t))
  {
  }

  lemma LookupKeepsRows(s: State, k: int, t: TokenId, student: Student, answered: bool)
    ensures SameRows(s, DoLookup(s, k, t, student, answered))
  {
    hide HasAttempt;
  }

  lemma UseTokenKeepsRows(s: State, k: int)
    ensures SameRows(s, DoUseToken(s, k))
  {
    hide Unused, UsedBy, WonBy;
    if k !in s.claims || s.claims[k].Won? || s.claims[k].token !in s.tokens {
      assert DoUseToken(s, k) == s;
    } else if Unused(s.tokens[s.claims[k].token]) && s.tokens[s.claims[k].token].expiresAt > s.clock {
      var tokens := UsedBy(s.tokens, s.claims[k].token, s.claims[k].student, s.clock);
      assert DoUseToken(s, k) == s.(tokens := tokens, claims := WonBy(s.claims, k, s.clock));
    } else {
      assert DoUseToken(s, k) == s.(claims := s.claims - {k});
    }
  }

  lemma OpenWindowKeepsRows(c: Config, s: State, k: int, w: WindowId, persisted: bool)
    ensures SameRows(s, DoOpenWindow(c, s, k, w, persisted))
  {
  }

  lemma ReadWindowKeepsRows(s: State, g: int, w: WindowId, student: Student)
    ensures SameRows(s, DoReadWindow(s, g, w, student))
  {
    hide IsOpen;
    var s' := DoReadWindow(s, g, w, student);
    assert s' == s.(agents := s'.agents);
  }

  lemma RefreshKeepsRows(s: State, m: int, session: Session, targets: map<Student, WindowId>, answered: bool, ts: real)
    ensures SameRows(s, DoRefresh(s, m, session, targets, answered, ts))
  {
    hide AreTargets;
    var s' := DoRefresh(s, m, session, targets, answered, ts);
    assert s' == s.(cameras := s'.cameras);
  }

  lemma TakeKeepsRows(c: Config, s: State, m: int, student: Student, g: int, ts: real)
    ensures SameRows(s, DoTake(c, s, m, student, g, ts))
  {
  }

  lemma SatisfyKeepsRows(s: State, g: int)
    ensures SameRows(s, DoSatisfy(s, g))
  {
    if g in s.agents && !s.agents[g].won && s.agents[g].window in s.windows {
      var s' := DoSatisfy(s, g);
      if s.windows[s.agents[g].window].satisfiedAt.None? {
        assert s' == s.(windows := s'.windows, agents := s'.agents, work := s'.work);
      } else {
        assert s' == s.(agents := s.agents - {g});
      }
    }
  }

  lemma NotWritten(s: State, g: int, persisted: bool)
    requires !Writes(s, WriteRow(g, persisted))
    ensures SameRows(s, DoWriteRow(s, g, persisted))
  {
  }

  lemma OneMoreRowInTime(windows: map<WindowId, VerifyWindow>, rows: seq<PresenceRow>, rowWindow: seq<WindowId>,
                         row: PresenceRow, w: WindowId)
    requires RowsInTime(windows, rows, rowWindow)
    ensures RowsInTime(windows, rows + [row], rowWindow + [w]) <==> w in windows && row.at < windows[w].expiresAt
  {
    if RowsInTime(windows, rows + [row], rowWindow + [w]) {
      assert (rowWindow + [w])[|rows|] == w && (rows + [row])[|rows|] == row;
    }
  }

  lemma GrownRowsInTime(before: map<WindowId, VerifyWindow>, after: map<WindowId, VerifyWindow>,
                        rows: seq<PresenceRow>, rowWindow: seq<WindowId>)
    requires WindowsGrow(before, after)
    requires |rows| == |rowWindow| && forall k :: 0 <= k < |rowWindow| ==> rowWindow[k] in before
    ensures RowsInTime(before, rows, rowWindow) <==> RowsInTime(after, rows, rowWindow)
  {
    if RowsInTime(after, rows, rowWindow) {
      forall k | 0 <= k < |rows|
        ensures rows[k].at < before[rowWindow[k]].expiresAt
      {
        assert rowWindow[k] in before;
      }
    }
  }

  lemma FewerRowsInTime(windows: map<WindowId, VerifyWindow>, rows: seq<PresenceRow>, rowWindow: seq<WindowId>,
                        row: PresenceRow, w: WindowId)
    requires |rows| == |rowWindow| && RowsInTime(windows, rows + [row], rowWindow + [w])
    ensures RowsInTime(windows, rows, rowWindow)
  {
    forall k | 0 <= k < |rows|
      ensures rowWindow[k] in windows && rows[k].at < windows[rowWindow[k]].expiresAt
    {
      assert (rowWindow + [w])[k] == rowWindow[k] && (rows + [row])[k] == rows[k];
    }
  }

  lemma RowsHaveWindows(c: Config, s: State)
    requires Inv(c, s)
    ensures |s.rows| == |s.rowWindow| && forall k :: 0 <= k < |s.rowWindow| ==> s.rowWindow[k] in s.windows
  {
    forall k | 0 <= k < |s.rowWindow|
      ensures s.rowWindow[k] in s.windows
    {
      assert RowOk(s.clock, s.windows, s.rows[k], s.rowWindow[k]);
    }
  }

  /** A step leaves all rows in time exactly if they were and it does not write one whose window
      has expired. */
  lemma StepKeepsRowsInTimeIff(c: Config, s: State, a: Action)
    requires Inv(c, s)
    ensures AllRowsInTime(Apply(c, s, a)) <==> AllRowsInTime(s) && WritesInTime(s, a)
  {
    hide Inv, Apply, WindowsGrow, RowsInTime;
    RowsHaveWindows(c, s);
    if Writes(s, a) {
      WrittenNow(c, s, a);
      var row := PresenceRow(s.agents[a.agent].session, s.agents[a.agent].student, s.clock);
      var w := s.agents[a.agent].window;
      if RowsInTime(s.windows, s.rows, s.rowWindow) {
        OneMoreRowInTime(s.windows, s.rows, s.rowWindow, row, w);
      } else if RowsInTime(s.windows, s.rows + [row], s.rowWindow + [w]) {
        FewerRowsInTime(s.windows, s.rows, s.rowWindow, row, w);
      }
    } else {
      NothingWrittenOtherwise(c, s, a);
      StepGrows(c, s, a);
      GrownRowsInTime(s.windows, Apply(c, s, a).windows, s.rows, s.rowWindow);
    }
  }

  ghost predicate EveryWriteIsInTime(c: Config, now: real, actions: seq<Action>) {
    forall k :: 0 <= k < |actions| ==> WritesInTime(Before(c, now, actions, k), actions[k])
  }

  lemma BeforeIsInOrder(c: Config, now: real, actions: seq<Action>, k: nat)
    requires k <= |actions|
    ensures Inv(c, Before(c, now, actions, k))
  {
    hide Inv, Run;
    RunsKeepTheInvariant(c, now, actions[..k]);
  }

  lemma NoRowYet(c: Config, now: real, actions: seq<Action>)
    ensures AllRowsInTime(Before(c, now, actions, 0))
  {
  }

  lemma {:induction false} RowsInTimeSoFar(c: Config, now: real, actions: seq<Action>, n: nat)
    requires n <= |actions|
    ensures AllRowsInTime(Before(c, now, actions, n)) <==>
      forall k :: 0 <= k < n ==> WritesInTime(Before(c, now, actions, k), actions[k])
  {
    hide Before, Apply, AllRowsInTime, WritesInTime, Inv;
    if n == 0 {
      NoRowYet(c, now, actions);
    } else {
      RowsInTimeSoFar(c, now, actions, n - 1);
      BeforeIsInOrder(c, now, actions, n - 1);
      BeforeNext(c, now, actions, n - 1);
      StepKeepsRowsInTimeIff(c, Before(c, now, actions, n - 1), actions[n - 1]);
    }
  }

  /** Expiry writes nothing, that is, every row of a run was written before its window expired,
      exactly if every request that wrote one found its window unexpired. */
  lemma RowsInTimeIff(c: Config, now: real, actions: seq<Action>)
    ensures AllRowsInTime(Run(c, Init(now), actions)) <==> EveryWriteIsInTime(c, now, actions)
  {
    hide AllRowsInTime, WritesInTime, Run;
    RowsInTimeSoFar(c, now, actions, |actions|);
    assert actions[..|actions|] == actions;
  }

  /** A selfie request that satisfies its window in time and writes the row after it expired. */
  function SlowWrite(c: Config): seq<Action> {
    FirstToken() + [OpenWindow(1, WindowId(1), true)]
    + [ReadWindow(1, WindowId(1), Student(7)), Satisfy(1)]
    + [Tick(c.windowTtl + 1.0), WriteRow(1, true)]
  }

  /** Satisfying every window in time is not enough. */
  lemma SlowWriteIsLate(c: Config)
    requires c.claimTtl > 0.0 && c.windowTtl > 0.0
    ensures EverySatisfyFindsOpen(c, 0.0, SlowWrite(c)) && !EveryWriteIsInTime(c, 0.0, SlowWrite(c))
    ensures var s := Run(c, Init(0.0), SlowWrite(c));
      && s.rows == [PresenceRow(Session(0), Student(7), c.windowTtl + 1.0)] && s.rowWindow == [WindowId(1)]
      && WindowId(1) in s.windows && s.windows[WindowId(1)].satisfiedAt == Some(0.0)
      && s.windows[WindowId(1)].expiresAt == c.windowTtl
  {
    hide Apply, Run, FirstToken, EverySatisfyFindsOpen, EveryWriteIsInTime;
    var one, two := FirstToken(), FirstToken() + [OpenWindow(1, WindowId(1), true)];
    var three := two + [ReadWindow(1, WindowId(1), Student(7)), Satisfy(1)];
    AfterFirstToken(c);
    RunSnoc(c, Init(0.0), one, OpenWindow(1, WindowId(1), true));
    Opened(c, 1, WindowId(1), map[TokenId(1) := Spent(c)], map[1 := Won(TokenId(1), Student(7), 0.0)], map[], map[]);
    RunTwo(c, Init(0.0), two, ReadWindow(1, WindowId(1), Student(7)), Satisfy(1));
    RunTwo(c, Init(0.0), three, Tick(c.windowTtl + 1.0), WriteRow(1, true));
    SlowSteps(c, Run(c, Init(0.0), two));
    var s := Run(c, Init(0.0), SlowWrite(c));
    LateRow(s.windows, s.rows, s.rowWindow, c.windowTtl);
    InTimeIff(c, 0.0, SlowWrite(c));
    RowsInTimeIff(c, 0.0, SlowWrite(c));
  }

  lemma SlowSteps(c: Config, s: State)
    requires c.windowTtl > 0.0 && s.clock == 0.0 && s.agents == map[] && s.rows == [] && s.rowWindow == []
    requires s.windows == map[WindowId(1) := VerifyWindow(Session(0), Student(7), c.windowTtl, None)]
    ensures var s' := Apply(c,
                            Apply(c, Apply(c, Apply(c, s, ReadWindow(1, WindowId(1), Student(7))), Satisfy(1)),
                                  Tick(c.windowTtl + 1.0)), WriteRow(1, true));
      && s'.rows == [PresenceRow(Session(0), Student(7), c.windowTtl + 1.0)] && s'.rowWindow == [WindowId(1)]
      && s'.windows == map[WindowId(1) := VerifyWindow(Session(0), Student(7), c.windowTtl, Some(0.0))]
  {
    var w, late := WindowId(1), c.windowTtl + 1.0;
    var agent := Agent(w, Student(7), Session(0), 0.0, 0.0, 0.0, false);
    var read := s.(agents := map[1 := agent]);
    ReadsFirst(c, s, agent);
    var windows := map[w := VerifyWindow(Session(0), Student(7), c.windowTtl, Some(0.0))];
    var done := read.(windows := windows, agents := map[1 := agent.(won := true)], work := s.work[w := agent]);
    SatisfiesFirst(c, read, windows, agent);
    WritesLate(c, done, agent.(won := true), late);
    hide Apply;
  }

  lemma ReadsFirst(c: Config, s: State, agent: Agent)
    requires c.windowTtl > 0.0 && s.clock == 0.0 && s.agents == map[]
    requires s.windows == map[WindowId(1) := VerifyWindow(Session(0), Student(7), c.windowTtl, None)]
    requires agent == Agent(WindowId(1), Student(7), Session(0), 0.0, 0.0, 0.0, false)
    ensures Apply(c, s, ReadWindow(1, WindowId(1), Student(7))) == s.(agents := map[1 := agent])
  {
  }

  lemma WritesLate(c: Config, s: State, agent: Agent, late: real)
    requires s.clock < late && s.agents == map[1 := agent] && s.rows == [] && s.rowWindow == []
    requires agent == Agent(WindowId(1), Student(7), Session(0), 0.0, 0.0, 0.0, true)
    ensures var s' := Apply(c, Apply(c, s, Tick(late)), WriteRow(1, true));
      && s'.rows == [PresenceRow(Session(0), Student(7), late)] && s'.rowWindow == [WindowId(1)]
      && s'.windows == s.windows
  {
    assert Apply(c, s, Tick(late)) == s.(clock := late);
  }

  lemma SatisfiesFirst(c: Config, s: State, windows: map<WindowId, VerifyWindow>, agent: Agent)
    requires s.clock == 0.0 && s.agents == map[1 := agent] && !agent.won && agent.window == WindowId(1)
    requires s.windows == map[WindowId(1) := VerifyWindow(Session(0), Student(7), c.windowTtl, None)]
    requires windows == map[WindowId(1) := VerifyWindow(Session(0), Student(7), c.windowTtl, Some(0.0))]
    ensures Apply(c, s, Satisfy(1))
         == s.(windows := windows, agents := map[1 := agent.(won := true)], work := s.work[WindowId(1) := agent])
  {
    assert s.windows[WindowId(1) := s.windows[WindowId(1)].(satisfiedAt := Some(s.clock))] == windows;
    assert s.agents[1 := s.agents[1].(won := true)] == map[1 := agent.(won := true)];
  }

  lemma LateRow(windows: map<WindowId, VerifyWindow>, rows: seq<PresenceRow>, rowWindow: seq<WindowId>, ttl: real)
    requires windows == map[WindowId(1) := VerifyWindow(Session(0), Student(7), ttl, Some(0.0))] && ttl > 0.0
    requires rows == [PresenceRow(Session(0), Student(7), ttl + 1.0)] && rowWindow == [WindowId(1)]
    ensures InTime(windows) && !RowsInTime(windows, rows, rowWindow)
  {
    assert rows[0].at >= windows[rowWindow[0]].expiresAt;
  }
}
