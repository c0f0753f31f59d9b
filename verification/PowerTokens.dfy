/** Completion tokens over whole runs of the power manager of kernel/power.c: every callback gets a token of its
    own, and what it is waited for is learned from a completion that carries that token. */
module PowerTokens {
  import opened PowerCycle

  /** What happens to tokens, in order: one is handed to a callback, a completion comes in from any thread, the
      driver learns from the completion it waited for, or from the callback's own answer. */
  datatype Happening =
    | Handed(token: Token)
    | Came(post: Post)
    | Learned(token: Token, ok: bool)
    | Answered(token: Token, ok: bool)

  // ----- The happenings of a run -----

  function Comings(posts: seq<Post>): (r: seq<Happening>)
    ensures |r| == |posts| && forall i :: 0 <= i < |r| ==> r[i] == Came(posts[i])
  {
    seq(|posts|, i requires 0 <= i < |posts| => Came(posts[i]))
  }

  function CallTrace(token: Token, a: Answer): seq<Happening> {
    [Handed(token)] + Comings(a.posts) + if a.result == Pending then [] else [Answered(token, a.result == Success)]
  }

  function StepTrace(m: Manager, a: Answer): seq<Happening> {
    match m.phase
    case WaitSuspend => if m.ready == None then [] else [Learned(m.expected, m.ready.value)]
    case WaitResume => if m.ready == None then [] else [Learned(m.expected, m.ready.value)]
    case Suspend =>
      if m.cursor >= |m.order| then [] else CallTrace(Token(m.generation, DownTarget(m.order, m.cursor), Down), a)
    case Resume =>
      if m.cursor >= |m.suspended| then [] else CallTrace(Token(m.generation, UpTarget(m), Up), a)
    case NoPhase => []
    case Sleep => []
  }

  function DriveTrace(m: Manager, answers: seq<Answer>): seq<Happening>
    decreases answers
  {
    if answers == [] then []
    else
      var (next, stop) := DriveStep(m, answers[0]);
      StepTrace(m, answers[0]) + if stop then [] else DriveTrace(next, answers[1..])
  }

  function StartTrace(m: Manager, blocked: bool, answers: seq<Answer>): seq<Happening> {
    if !m.available || m.inhibited || blocked then [] else DriveTrace(Begun(m), answers)
  }

  function LaunchTrace(m: Manager, request: bool, input: Input): seq<Happening> {
    if request && (m.state == Active || m.state == Idle) then StartTrace(m, input.blocked, input.starting) else []
  }

  function UpdateTrace(m: Manager, input: Input): seq<Happening> {
    if m.state == ShuttingDown then []
    else
      LaunchTrace(Wake(Refresh(m, input), input), Requested(m, input), input)
      + DriveTrace(Attend(m, input), input.answers)
  }

  function ApplyTrace(m: Manager, action: Action): seq<Happening> {
    match action
    case Post(post) => [Came(post)]
    case Step(input) => UpdateTrace(m, input)
    case _ => []
  }

  function RunTrace(m: Manager, actions: seq<Action>): seq<Happening> {
    if actions == [] then []
    else
      RunTrace(m, actions[..|actions| - 1])
      + ApplyTrace(Run(m, actions[..|actions| - 1]), actions[|actions| - 1])
  }

  // ----- What a trace says -----

  /** The token handed out last. */
  function LastToken(t: seq<Happening>): Token {
    if t == [] then Token(0, 0, Down)
    else if t[|t| - 1].Handed? then t[|t| - 1].token
    else LastToken(t[..|t| - 1])
  }

  /** The first completion with that token since then that nothing was learned from. */
  function Arrived(t: seq<Happening>): Option<bool> {
    if t == [] then None
    else
      var front, last := t[..|t| - 1], t[|t| - 1];
      match last
      case Handed(_) => None
      case Learned(_, _) => None
      case Came(post) =>
        if Arrived(front) == None && post.token == LastToken(front) then Some(post.ok) else Arrived(front)
      case Answered(_, _) => Arrived(front)
  }

  /** The last token handed out has had no outcome yet. */
  predicate Open(t: seq<Happening>) {
    t != [] && (t[|t| - 1].Handed? || (t[|t| - 1].Came? && Open(t[..|t| - 1])))
  }

  function Tokens(t: seq<Happening>): seq<Token> {
    if t == [] then []
    else Tokens(t[..|t| - 1]) + if t[|t| - 1].Handed? then [t[|t| - 1].token] else []
  }

  /** Whatever is learned is what the first completion for the open token said. */
  ghost predicate Honest(t: seq<Happening>) {
    forall n :: 0 <= n < |t| && t[n].Learned? ==>
      Open(t[..n]) && t[n].token == LastToken(t[..n]) && Arrived(t[..n]) == Some(t[n].ok)
  }

  /** The last token is handed out at `h`, and only completions come in after that. */
  ghost predicate OpenedAt(t: seq<Happening>, h: nat) {
    h < |t| && t[h] == Handed(LastToken(t)) && forall j :: h < j < |t| ==> t[j].Came?
  }

  lemma {:induction false} OpenMeans(t: seq<Happening>) returns (h: nat)
    requires Open(t)
    ensures OpenedAt(t, h)
  {
    if t[|t| - 1].Handed? {
      h := |t| - 1;
    } else {
      h := OpenMeans(t[..|t| - 1]);
    }
  }

  /** The completion that arrived first. */
  lemma {:induction false} ArrivedMeans(t: seq<Happening>, h: nat, ok: bool) returns (k: nat)
    requires OpenedAt(t, h) && Arrived(t) == Some(ok)
    ensures h < k < |t| && t[k] == Came(Post.Post(LastToken(t), ok))
    ensures forall j :: h < j < k ==> t[j].Came? && t[j].post.token != LastToken(t)
    decreases |t|
  {
    var front := t[..|t| - 1];
    if Arrived(front) == None {
      k := |t| - 1;
      NothingArrived(front, h);
    } else {
      k := ArrivedMeans(front, h, ok);
    }
  }

  lemma {:induction false} NothingArrived(t: seq<Happening>, h: nat)
    requires OpenedAt(t, h) && Arrived(t) == None
    ensures forall j :: h < j < |t| ==> t[j].post.token != LastToken(t)
    decreases |t|
  {
    if h < |t| - 1 {
      NothingArrived(t[..|t| - 1], h);
    }
  }

  // ----- Tokens are never handed out twice -----

  ghost predicate Distinct(ts: seq<Token>) {
    forall i, j :: 0 <= i < j < |ts| ==> ts[i] != ts[j]
  }

  function LastOf(s: seq<nat>, n: nat): seq<nat> {
    if n <= |s| then s[|s| - n..] else s
  }

  /** Which tokens of the current cycle may have been handed out, by phase. */
  predicate Spent(m: Manager, token: Token) {
    match m.phase
    case NoPhase => true
    case Suspend => token.operation == Down && token.participant in m.suspended
    case WaitSuspend => token.operation == Down && (token == m.expected || token.participant in m.suspended)
    case Sleep => token.operation == Down
    case Resume => token.operation == Up ==> token.participant in LastOf(m.suspended, m.cursor)
    case WaitResume =>
      token.operation == Up ==> token == m.expected || token.participant in LastOf(m.suspended, m.cursor)
  }

  ghost predicate Fresh(m: Manager, ts: seq<Token>) {
    && Distinct(ts)
    && forall i :: 0 <= i < |ts| ==>
         ts[i].generation <= m.generation && (ts[i].generation == m.generation ==> Spent(m, ts[i]))
  }

  lemma NextDownIsNew(m: Manager)
    requires Inv(m) && m.phase == Suspend && m.cursor < |m.order|
    ensures DownTarget(m.order, m.cursor) !in m.suspended
  {
    forall i | 0 <= i < |m.suspended| ensures m.suspended[i] != DownTarget(m.order, m.cursor) {
      assert m.suspended[i] == DownTarget(m.order, i);
    }
  }

  lemma NextUpIsNew(m: Manager)
    requires Inv(m) && m.phase == Resume && m.cursor < |m.suspended|
    ensures UpTarget(m) !in LastOf(m.suspended, m.cursor)
    ensures forall p ::
              p in LastOf(m.suspended, m.cursor + 1) <==> p == UpTarget(m) || p in LastOf(m.suspended, m.cursor)
  {
    var n := |m.suspended| - m.cursor;
    SuspendedDistinct(m);
    assert LastOf(m.suspended, m.cursor + 1) == [UpTarget(m)] + LastOf(m.suspended, m.cursor);
  }

  lemma SuspendedDistinct(m: Manager)
    requires Inv(m)
    ensures forall i, j :: 0 <= i < j < |m.suspended| ==> m.suspended[i] != m.suspended[j]
  {
    forall i, j | 0 <= i < j < |m.suspended| ensures m.suspended[i] != m.suspended[j] {
      assert m.suspended[i] == DownTarget(m.order, i) && m.suspended[j] == DownTarget(m.order, j);
    }
  }

  /** A step that hands out a token not spent before. */
  lemma FreshCall(m: Manager, next: Manager, ts: seq<Token>, token: Token)
    requires Fresh(m, ts) && token.generation == m.generation == next.generation && !Spent(m, token)
    requires Spent(next, token) && forall was: Token :: Spent(m, was) ==> Spent(next, was)
    ensures Fresh(next, ts + [token])
  {
  }

  lemma DownStaysFresh(m: Manager, a: Answer, ts: seq<Token>)
    requires Inv(m) && m.phase == Suspend && m.cursor < |m.order| && Fresh(m, ts)
    ensures Fresh(CallDown(m, a), ts + [Token(m.generation, DownTarget(m.order, m.cursor), Down)])
  {
    NextDownIsNew(m);
    FreshCall(m, CallDown(m, a), ts, Token(m.generation, DownTarget(m.order, m.cursor), Down));
  }

  /** What calling a participant to resume changes of what tells which tokens are spent. */
  ghost predicate CalledUp(m: Manager, next: Manager) {
    && m.cursor < |m.suspended| && next.generation == m.generation && next.suspended == m.suspended
    && next.expected == Token(m.generation, UpTarget(m), Up)
    && ((next.phase == WaitResume && next.cursor == m.cursor) || (next.phase == Resume && next.cursor == m.cursor + 1))
  }

  lemma CallUpShape(m: Manager, a: Answer)
    requires m.phase == Resume && m.cursor < |m.suspended|
    ensures CalledUp(m, CallUp(m, a))
  {
  }

  lemma CalledUpFresh(m: Manager, next: Manager, ts: seq<Token>)
    requires Inv(m) && m.phase == Resume && CalledUp(m, next) && Fresh(m, ts)
    ensures Fresh(next, ts + [Token(m.generation, UpTarget(m), Up)])
  {
    NextUpIsNew(m);
    FreshCall(m, next, ts, Token(m.generation, UpTarget(m), Up));
  }

  lemma UpStaysFresh(m: Manager, a: Answer, ts: seq<Token>)
    requires Inv(m) && m.phase == Resume && m.cursor < |m.suspended| && Fresh(m, ts)
    ensures Fresh(CallUp(m, a), ts + [Token(m.generation, UpTarget(m), Up)])
  {
    CallUpShape(m, a);
    CalledUpFresh(m, CallUp(m, a), ts);
  }

  /** Steps that hand out nothing: the phase goes on, and what was spent stays spent. */
  lemma FreshOn(m: Manager, next: Manager, ts: seq<Token>)
    requires Fresh(m, ts) && m.generation <= next.generation
    requires next.generation == m.generation ==> forall token: Token :: Spent(m, token) ==> Spent(next, token)
    ensures Fresh(next, ts)
  {
  }

  lemma WaitStaysFresh(m: Manager, ok: bool, ts: seq<Token>)
    requires Inv(m) && m.Waiting() && Fresh(m, ts)
    ensures Fresh(WaitStep(m, ok), ts)
  {
    if m.phase == WaitResume {
      assert LastOf(m.suspended, m.cursor + 1) == [UpTarget(m)] + LastOf(m.suspended, m.cursor);
    }
    FreshOn(m, WaitStep(m, ok), ts);
  }

  lemma SleepStaysFresh(m: Manager, a: Answer, ts: seq<Token>)
    requires Inv(m) && m.phase == Suspend && Fresh(m, ts)
    ensures Fresh(SleepStep(m, a), ts)
  {
    FreshOn(m, SleepStep(m, a), ts);
  }

  // ----- The trace tells what the manager knows -----

  ghost predicate Told(m: Manager, t: seq<Happening>) {
    && m.expected == LastToken(t) && m.ready == Arrived(t) && (m.Waiting() ==> Open(t))
    && Honest(t) && Fresh(m, Tokens(t))
  }

  lemma HonestMore(t: seq<Happening>, e: Happening)
    requires Honest(t)
    requires e.Learned? ==> Open(t) && e.token == LastToken(t) && Arrived(t) == Some(e.ok)
    ensures Honest(t + [e])
  {
    var more := t + [e];
    forall n | 0 <= n < |more| && more[n].Learned?
      ensures Open(more[..n]) && more[n].token == LastToken(more[..n]) && Arrived(more[..n]) == Some(more[n].ok)
    {
      if n < |t| {
        assert more[..n] == t[..n];
      } else {
        assert more[..n] == t;
      }
    }
  }

  /** One more happening. */
  lemma OneMore(t: seq<Happening>, e: Happening)
    ensures (t + [e])[..|t + [e]| - 1] == t
    ensures LastToken(t + [e]) == if e.Handed? then e.token else LastToken(t)
    ensures Tokens(t + [e]) == Tokens(t) + if e.Handed? then [e.token] else []
    ensures Open(t + [e]) == (e.Handed? || (e.Came? && Open(t)))
  {
    assert (t + [e])[..|t + [e]| - 1] == t;
  }

  lemma CameTold(m: Manager, t: seq<Happening>, post: Post)
    requires Told(m, t)
    ensures Told(Complete(m, post), t + [Came(post)])
  {
    OneMore(t, Came(post));
    HonestMore(t, Came(post));
    FreshOn(m, Complete(m, post), Tokens(t));
    assert Tokens(t + [Came(post)]) == Tokens(t);
  }

  /** Except for the count of its tokens, which its phase decides. */
  ghost predicate ToldBut(m: Manager, t: seq<Happening>) {
    m.expected == LastToken(t) && m.ready == Arrived(t) && (m.Waiting() ==> Open(t)) && Honest(t)
  }

  lemma ComingToldBut(m: Manager, t: seq<Happening>, post: Post)
    requires ToldBut(m, t) && Open(t)
    ensures ToldBut(Complete(m, post), t + [Came(post)]) && Open(t + [Came(post)])
    ensures Tokens(t + [Came(post)]) == Tokens(t)
  {
    OneMore(t, Came(post));
    HonestMore(t, Came(post));
    assert Tokens(t) + [] == Tokens(t);
  }

  ghost predicate KeptByComings(told: (Manager, seq<Happening>) -> bool) {
    forall m, t, post: Post {:trigger told(m, t), Complete(m, post)} ::
      told(m, t) ==> told(Complete(m, post), t + [Came(post)]) && Tokens(t + [Came(post)]) == Tokens(t)
  }

  lemma ComingsFirst(t: seq<Happening>, posts: seq<Post>)
    requires posts != []
    ensures t + [Came(posts[0])] + Comings(posts[1..]) == t + Comings(posts)
  {
  }

  lemma {:induction false} ComingsKeep(
      told: (Manager, seq<Happening>) -> bool, m: Manager, t: seq<Happening>, posts: seq<Post>)
    requires KeptByComings(told) && told(m, t)
    ensures told(CompleteAll(m, posts), t + Comings(posts)) && Tokens(t + Comings(posts)) == Tokens(t)
    decreases posts
  {
    if posts == [] {
      assert t + Comings(posts) == t;
    } else {
      var next, more := Complete(m, posts[0]), t + [Came(posts[0])];
      assert told(next, more) && Tokens(more) == Tokens(t);
      ComingsKeep(told, next, more, posts[1..]);
      ComingsFirst(t, posts);
    }
  }

  ghost predicate OpenTold(m: Manager, t: seq<Happening>) {
    ToldBut(m, t) && Open(t)
  }

  lemma ComingsToldBut(m: Manager, t: seq<Happening>, posts: seq<Post>)
    requires OpenTold(m, t)
    ensures OpenTold(CompleteAll(m, posts), t + Comings(posts)) && Tokens(t + Comings(posts)) == Tokens(t)
  {
    forall m, t, post: Post | OpenTold(m, t)
      ensures OpenTold(Complete(m, post), t + [Came(post)]) && Tokens(t + [Came(post)]) == Tokens(t)
    {
      ComingToldBut(m, t, post);
    }
    assert KeptByComings(OpenTold);
    ComingsKeep(OpenTold, m, t, posts);
  }

  /** A callback: its token is handed out, completions come in while it runs, and it answers. */
  lemma CallTold(m: Manager, t: seq<Happening>, p: nat, operation: Operation, a: Answer, next: Manager)
    requires Told(m, t)
    requires var invoked := Invoke(m, p, operation, a.posts);
             next.expected == invoked.expected && next.ready == invoked.ready
    requires next.Waiting() ==> a.result == Pending
    requires Fresh(next, Tokens(t) + [Token(m.generation, p, operation)])
    ensures Told(next, t + CallTrace(Token(m.generation, p, operation), a))
  {
    var token := Token(m.generation, p, operation);
    var handed := t + [Handed(token)];
    OneMore(t, Handed(token));
    HonestMore(t, Handed(token));
    var ready := Record(Expect(m, p, operation), Called(operation, p));
    ComingsToldBut(ready, handed, a.posts);
    var waited := handed + Comings(a.posts);
    if a.result == Pending {
      assert t + CallTrace(token, a) == waited;
    } else {
      var e := Answered(token, a.result == Success);
      OneMore(waited, e);
      HonestMore(waited, e);
      assert t + CallTrace(token, a) == waited + [e];
      assert Tokens(waited) + [] == Tokens(waited);
    }
  }

  /** Learning what the open token waited for. */
  lemma LearnedTrace(t: seq<Happening>, ok: bool)
    requires Honest(t) && Open(t) && Arrived(t) == Some(ok)
    ensures var more := t + [Learned(LastToken(t), ok)];
            Honest(more) && LastToken(more) == LastToken(t) && Arrived(more) == None && Tokens(more) == Tokens(t)
  {
    OneMore(t, Learned(LastToken(t), ok));
    HonestMore(t, Learned(LastToken(t), ok));
    assert Tokens(t) + [] == Tokens(t);
  }

  lemma RollbackShape(m: Manager)
    ensures var next := Rollback(m); next.expected == m.expected && next.ready == m.ready && !next.Waiting()
  {
  }

  lemma WaitStepShape(m: Manager, ok: bool)
    requires m.Waiting()
    ensures var next := WaitStep(m, ok); next.expected == m.expected && next.ready == None && !next.Waiting()
  {
    if m.phase == WaitSuspend && !ok {
      RollbackShape(Record(m.(ready := None), Reported(Down, m.expected.participant, false)));
    }
  }

  lemma WaitTold(m: Manager, t: seq<Happening>)
    requires Inv(m) && m.Waiting() && m.ready != None && Told(m, t)
    ensures Told(WaitStep(m, m.ready.value), t + [Learned(m.expected, m.ready.value)])
  {
    LearnedTrace(t, m.ready.value);
    WaitStepShape(m, m.ready.value);
    WaitStaysFresh(m, m.ready.value, Tokens(t));
  }

  lemma DownTold(m: Manager, t: seq<Happening>, a: Answer)
    requires Inv(m) && m.phase == Suspend && m.cursor < |m.order| && Told(m, t)
    ensures Told(CallDown(m, a), t + CallTrace(Token(m.generation, DownTarget(m.order, m.cursor), Down), a))
  {
    DownStaysFresh(m, a, Tokens(t));
    CallTold(m, t, DownTarget(m.order, m.cursor), Down, a, CallDown(m, a));
  }

  lemma UpTold(m: Manager, t: seq<Happening>, a: Answer)
    requires Inv(m) && m.phase == Resume && m.cursor < |m.suspended| && Told(m, t)
    ensures Told(CallUp(m, a), t + CallTrace(Token(m.generation, UpTarget(m), Up), a))
  {
    UpStaysFresh(m, a, Tokens(t));
    CallTold(m, t, UpTarget(m), Up, a, CallUp(m, a));
  }

  /** Going to sleep or back hands out nothing. */
  lemma QuietTold(m: Manager, next: Manager, t: seq<Happening>)
    requires Told(m, t) && next.expected == m.expected && next.ready == m.ready && !next.Waiting()
    requires Fresh(next, Tokens(t))
    ensures Told(next, t + [])
  {
    assert t + [] == t;
  }

  lemma StepTold(m: Manager, t: seq<Happening>, a: Answer)
    requires Inv(m) && Told(m, t)
    ensures Told(DriveStep(m, a).0, t + StepTrace(m, a))
  {
    if m.phase == Suspend && m.cursor < |m.order| {
      DownTold(m, t, a);
    } else if m.phase == Resume && m.cursor < |m.suspended| {
      UpTold(m, t, a);
    } else if m.phase == Suspend {
      SleepStaysFresh(m, a, Tokens(t));
      QuietTold(m, SleepStep(m, a), t);
    } else if m.phase == Resume {
      FreshOn(m, Finish(m), Tokens(t));
      QuietTold(m, Finish(m), t);
    } else if m.Waiting() && m.ready != None {
      WaitTold(m, t);
    } else {
      assert t + [] == t;
    }
  }

  ghost predicate Known(m: Manager, t: seq<Happening>) {
    Inv(m) && Told(m, t)
  }

  lemma QuietKnown(m: Manager, next: Manager, t: seq<Happening>)
    requires Known(m, t) && Inv(next) && next.expected == m.expected && next.ready == m.ready && !next.Waiting()
    requires m.generation <= next.generation
    requires next.generation == m.generation ==> forall token: Token :: Spent(m, token) ==> Spent(next, token)
    ensures Known(next, t)
  {
    FreshOn(m, next, Tokens(t));
  }

  lemma SameKnown(m: Manager, next: Manager, t: seq<Happening>)
    requires Known(m, t) && Inv(next) && next.expected == m.expected && next.ready == m.ready
    requires next.phase == m.phase && next.suspended == m.suspended && next.cursor == m.cursor
    requires next.generation == m.generation
    ensures Known(next, t)
  {
    FreshOn(m, next, Tokens(t));
  }

  lemma StepKnown(m: Manager, t: seq<Happening>, a: Answer)
    requires Known(m, t)
    ensures Known(DriveStep(m, a).0, t + StepTrace(m, a))
  {
    StepKeeps(m, a);
    StepTold(m, t, a);
  }

  lemma BegunKnown(m: Manager, t: seq<Happening>)
    requires Known(m, t) && (m.state == Active || m.state == Idle) && m.available
    ensures Known(Begun(m), t)
  {
    BegunKeeps(m);
    QuietKnown(m, Begun(m), t);
  }

  lemma RefreshKnown(m: Manager, t: seq<Happening>, input: Input)
    requires Known(m, t)
    ensures Known(Refresh(m, input), t)
  {
    RefreshKeeps(m, input);
    SameKnown(m, Refresh(m, input), t);
  }

  lemma WakeKnown(m: Manager, t: seq<Happening>, input: Input)
    requires Known(m, t)
    ensures Known(Wake(m, input), t)
  {
    WakeKeeps(m, input);
    if Wake(m, input) != m {
      QuietKnown(m, Wake(m, input), t);
    }
  }

  lemma ActKnown(m: Manager, t: seq<Happening>, action: Action)
    requires Known(m, t) && !action.Step?
    ensures Known(Apply(m, action), t + ApplyTrace(m, action))
  {
    assert t + [] == t;
    ApplyKeeps(m, action);
    match action
    case Post(post) => CameTold(m, t, post);
    case BeginShutdown => QuietKnown(m, Apply(m, action), t);
    case _ => SameKnown(m, Apply(m, action), t);
  }

  // ----- Induction over runs and their traces -----

  /** What every part of a run keeps, of a manager and the trace so far. */
  ghost predicate Kept(ok: (Manager, seq<Happening>) -> bool) {
    && (forall m, t, a: Answer {:trigger ok(m, t), DriveStep(m, a)} ::
          ok(m, t) ==> ok(DriveStep(m, a).0, t + StepTrace(m, a)))
    && (forall m, t {:trigger ok(m, t), Begun(m)} ::
          ok(m, t) && (m.state == Active || m.state == Idle) && m.available ==> ok(Begun(m), t))
    && (forall m, t, input: Input {:trigger ok(m, t), Refresh(m, input)} :: ok(m, t) ==> ok(Refresh(m, input), t))
    && (forall m, t, input: Input {:trigger ok(m, t), Wake(m, input)} :: ok(m, t) ==> ok(Wake(m, input), t))
    && (forall m, t, action: Action {:trigger ok(m, t), Apply(m, action)} ::
          ok(m, t) && !action.Step? ==> ok(Apply(m, action), t + ApplyTrace(m, action)))
  }

  lemma {:induction false} DriveInduction(
      ok: (Manager, seq<Happening>) -> bool, m: Manager, t: seq<Happening>, answers: seq<Answer>)
    requires Kept(ok) && ok(m, t)
    ensures ok(Drive(m, answers).0, t + DriveTrace(m, answers))
    decreases answers
  {
    if answers == [] {
      assert t + DriveTrace(m, answers) == t;
    } else {
      var (next, stop) := DriveStep(m, answers[0]);
      var step := StepTrace(m, answers[0]);
      assert ok(next, t + step);
      if stop {
        assert t + DriveTrace(m, answers) == t + step;
      } else {
        DriveInduction(ok, next, t + step, answers[1..]);
        assert t + step + DriveTrace(next, answers[1..]) == t + DriveTrace(m, answers);
      }
    }
  }

  lemma LaunchInduction(ok: (Manager, seq<Happening>) -> bool, m: Manager, t: seq<Happening>, request: bool,
                        input: Input)
    requires Kept(ok) && ok(m, t)
    ensures ok(Launch(m, request, input), t + LaunchTrace(m, request, input))
  {
    assert t + [] == t;
    if request && (m.state == Active || m.state == Idle) && m.available && !m.inhibited && !input.blocked {
      assert ok(Begun(m), t);
      DriveInduction(ok, Begun(m), t, input.starting);
    }
  }

  lemma AttendInduction(ok: (Manager, seq<Happening>) -> bool, m: Manager, t: seq<Happening>, input: Input)
    requires Kept(ok) && ok(m, t)
    ensures ok(Attend(m, input), t + LaunchTrace(Wake(Refresh(m, input), input), Requested(m, input), input))
  {
    assert ok(Refresh(m, input), t);
    assert ok(Wake(Refresh(m, input), input), t);
    LaunchInduction(ok, Wake(Refresh(m, input), input), t, Requested(m, input), input);
  }

  lemma Associate(t: seq<Happening>, a: seq<Happening>, b: seq<Happening>)
    ensures t + a + b == t + (a + b) && t + [] == t
  {
  }

  lemma UpdateInduction(ok: (Manager, seq<Happening>) -> bool, m: Manager, t: seq<Happening>, input: Input)
    requires Kept(ok) && ok(m, t)
    ensures ok(Update(m, input), t + UpdateTrace(m, input))
  {
    var attended := Attend(m, input);
    var launch := LaunchTrace(Wake(Refresh(m, input), input), Requested(m, input), input);
    Associate(t, launch, DriveTrace(attended, input.answers));
    if m.state != ShuttingDown {
      AttendInduction(ok, m, t, input);
      DriveInduction(ok, attended, t + launch, input.answers);
    }
  }

  lemma {:induction false} RunInduction(ok: (Manager, seq<Happening>) -> bool, m: Manager, actions: seq<Action>)
    requires Kept(ok) && ok(m, [])
    ensures ok(Run(m, actions), RunTrace(m, actions))
  {
    if actions != [] {
      var front, action := actions[..|actions| - 1], actions[|actions| - 1];
      RunInduction(ok, m, front);
      if action.Step? {
        UpdateInduction(ok, Run(m, front), RunTrace(m, front), action.input);
      } else {
        assert ok(Apply(Run(m, front), action), RunTrace(m, front) + ApplyTrace(Run(m, front), action));
      }
    }
  }

  lemma KnownKept()
    ensures Kept(Known)
  {
    forall m, t, a: Answer | Known(m, t) ensures Known(DriveStep(m, a).0, t + StepTrace(m, a)) {
      StepKnown(m, t, a);
    }
    forall m, t | Known(m, t) && (m.state == Active || m.state == Idle) && m.available ensures Known(Begun(m), t) {
      BegunKnown(m, t);
    }
    forall m, t, input: Input | Known(m, t) ensures Known(Refresh(m, input), t) && Known(Wake(m, input), t) {
      RefreshKnown(m, t, input);
      WakeKnown(m, t, input);
    }
    forall m, t, action: Action | Known(m, t) && !action.Step?
      ensures Known(Apply(m, action), t + ApplyTrace(m, action))
    {
      ActKnown(m, t, action);
    }
  }

  lemma LearnedIsArrived(t: seq<Happening>, n: nat) returns (h: nat, k: nat)
    requires Honest(t) && n < |t| && t[n].Learned?
    ensures h < k < n && t[h] == Handed(t[n].token) && t[k] == Came(Post.Post(t[n].token, t[n].ok))
    ensures forall j :: h < j < n ==> t[j].Came?
    ensures forall j :: h < j < k ==> t[j].post.token != t[n].token
  {
    h := OpenMeans(t[..n]);
    k := ArrivedMeans(t[..n], h, t[n].ok);
    assert t[..n][h] == t[h] && t[..n][k] == t[k];
    assert forall j :: h < j < n ==> t[..n][j] == t[j];
  }

  /** Over every run no token is handed out twice. */
  lemma TokensGoOnce(order: seq<nat>, available: bool, actions: seq<Action>)
    requires IsOrder(order)
    ensures Distinct(Tokens(RunTrace(Initial(order, available), actions)))
    ensures Honest(RunTrace(Initial(order, available), actions))
  {
    KnownKept();
    RunInduction(Known, Initial(order, available), actions);
  }

  /** Over every run, what the driver learns by waiting it learns from the first completion that came in with
      the token of the callback it waits for, after that token was handed out, while nothing else happened. */
  lemma LearnedFromItsToken(order: seq<nat>, available: bool, actions: seq<Action>, n: nat) returns (h: nat, k: nat)
    requires IsOrder(order)
    requires var t := RunTrace(Initial(order, available), actions); n < |t| && t[n].Learned?
    ensures var t := RunTrace(Initial(order, available), actions);
            && h < k < n && t[h] == Handed(t[n].token) && t[k] == Came(Post.Post(t[n].token, t[n].ok))
            && (forall j :: h < j < n ==> t[j].Came?)
            && (forall j :: h < j < k ==> t[j].post.token != t[n].token)
  {
    var t := RunTrace(Initial(order, available), actions);
    TokensGoOnce(order, available, actions);
    h, k := LearnedIsArrived(t, n);
  }

  // ----- The trace tells the same story as the logs -----

  /** A callback entered, or its outcome known. */
  datatype Item =
    | Entered(operation: Operation, participant: nat)
    | Over(operation: Operation, participant: nat, ok: bool)

  function EventItem(e: Event): seq<Item> {
    match e
    case Called(operation, p) => [Entered(operation, p)]
    case Reported(operation, p, ok) => [Over(operation, p, ok)]
    case _ => []
  }

  function LogItems(log: seq<Event>): seq<Item> {
    if log == [] then [] else LogItems(log[..|log| - 1]) + EventItem(log[|log| - 1])
  }

  function HappeningItem(e: Happening): seq<Item> {
    match e
    case Handed(token) => [Entered(token.operation, token.participant)]
    case Came(_) => []
    case Learned(token, ok) => [Over(token.operation, token.participant, ok)]
    case Answered(token, ok) => [Over(token.operation, token.participant, ok)]
  }

  function TraceItems(t: seq<Happening>): seq<Item> {
    if t == [] then [] else TraceItems(t[..|t| - 1]) + HappeningItem(t[|t| - 1])
  }

  function Joined(cycles: seq<seq<Event>>): seq<Event> {
    if cycles == [] then [] else Joined(cycles[..|cycles| - 1]) + cycles[|cycles| - 1]
  }

  /** The logs of all cycles, one after the other. */
  function AllLogs(m: Manager): seq<Event> {
    Joined(m.done) + m.log
  }

  lemma {:induction false} LogItemsJoin(a: seq<Event>, b: seq<Event>)
    ensures LogItems(a + b) == LogItems(a) + LogItems(b)
  {
    if b == [] {
      assert a + b == a;
    } else {
      assert (a + b)[..|a + b| - 1] == a + b[..|b| - 1];
      LogItemsJoin(a, b[..|b| - 1]);
    }
  }

  lemma {:induction false} TraceItemsJoin(a: seq<Happening>, b: seq<Happening>)
    ensures TraceItems(a + b) == TraceItems(a) + TraceItems(b)
  {
    if b == [] {
      assert a + b == a;
    } else {
      assert (a + b)[..|a + b| - 1] == a + b[..|b| - 1];
      TraceItemsJoin(a, b[..|b| - 1]);
    }
  }

  // ----- What one turn adds to both -----

  function CallDelta(operation: Operation, p: nat, result: CallbackResult): seq<Event> {
    [Called(operation, p)] + if result == Pending then [] else [Reported(operation, p, result == Success)]
  }

  function SleepDelta(a: Answer): seq<Event> {
    [Prepared(a.prepares)]
    + if !a.prepares then [] else [Slept(a.sleeps)] + if a.sleeps then [] else [Aborted]
  }

  function WaitDelta(m: Manager): seq<Event> {
    if m.ready == None then [] else [Reported(m.expected.operation, m.expected.participant, m.ready.value)]
  }

  function StepDelta(m: Manager, a: Answer): seq<Event> {
    match m.phase
    case WaitSuspend => WaitDelta(m)
    case WaitResume => WaitDelta(m)
    case Suspend =>
      if m.cursor >= |m.order| then SleepDelta(a) else CallDelta(Down, DownTarget(m.order, m.cursor), a.result)
    case Resume => if m.cursor >= |m.suspended| then [Returned] else CallDelta(Up, UpTarget(m), a.result)
    case NoPhase => []
    case Sleep => []
  }

  /** The logs of all cycles gain those events and nothing else. */
  ghost predicate LogsGain(m: Manager, next: Manager, log: seq<Event>) {
    AllLogs(next) == AllLogs(m) + log
  }

  lemma LogGains(m: Manager, next: Manager, log: seq<Event>)
    requires next.done == m.done && next.log == m.log + log
    ensures LogsGain(m, next, log)
  {
    assert Joined(m.done) + m.log + log == Joined(m.done) + (m.log + log);
  }

  lemma DownGains(m: Manager, a: Answer)
    requires Inv(m) && m.phase == Suspend && m.cursor < |m.order|
    ensures LogsGain(m, CallDown(m, a), CallDelta(Down, DownTarget(m.order, m.cursor), a.result))
  {
    LogGains(m, CallDown(m, a), CallDelta(Down, DownTarget(m.order, m.cursor), a.result));
  }

  lemma UpGains(m: Manager, a: Answer)
    requires m.phase == Resume && m.cursor < |m.suspended|
    ensures LogsGain(m, CallUp(m, a), CallDelta(Up, UpTarget(m), a.result))
  {
    LogGains(m, CallUp(m, a), CallDelta(Up, UpTarget(m), a.result));
  }

  lemma SleepGains(m: Manager, a: Answer)
    requires Inv(m) && m.phase == Suspend
    ensures LogsGain(m, SleepStep(m, a), SleepDelta(a))
  {
    LogGains(m, SleepStep(m, a), SleepDelta(a));
  }

  lemma WaitGains(m: Manager, ok: bool)
    requires Inv(m) && m.Waiting() && m.ready == Some(ok)
    ensures LogsGain(m, WaitStep(m, ok), WaitDelta(m))
  {
    LogGains(m, WaitStep(m, ok), WaitDelta(m));
  }

  lemma FinishGains(m: Manager)
    ensures LogsGain(m, Finish(m), [Returned])
  {
    var cycle := m.log + [Returned];
    assert (m.done + [cycle])[..|m.done + [cycle]| - 1] == m.done;
    assert Joined(m.done) + cycle + [] == Joined(m.done) + m.log + [Returned];
  }

  lemma StepGains(m: Manager, a: Answer)
    requires Inv(m)
    ensures LogsGain(m, DriveStep(m, a).0, StepDelta(m, a))
  {
    if m.phase == Suspend && m.cursor < |m.order| {
      DownGains(m, a);
    } else if m.phase == Resume && m.cursor < |m.suspended| {
      UpGains(m, a);
    } else if m.phase == Suspend {
      SleepGains(m, a);
    } else if m.phase == Resume {
      FinishGains(m);
    } else if m.Waiting() && m.ready != None {
      WaitGains(m, m.ready.value);
    } else {
      LogGains(m, m, []);
    }
  }

  lemma WakeGains(m: Manager, input: Input)
    ensures LogsGain(m, Wake(m, input), if Wake(m, input) == m then [] else [Woken(input.restores)])
  {
    LogGains(m, Wake(m, input), if Wake(m, input) == m then [] else [Woken(input.restores)]);
  }

  lemma OneEvent(e: Event)
    ensures LogItems([e]) == EventItem(e)
  {
    assert [e][..0] == [];
  }

  lemma OneHappening(h: Happening)
    ensures TraceItems([h]) == HappeningItem(h)
  {
    assert [h][..0] == [];
  }

  lemma {:induction false} ComingsSayNothing(posts: seq<Post>)
    ensures TraceItems(Comings(posts)) == []
  {
    if posts != [] {
      var front := posts[..|posts| - 1];
      assert Comings(posts)[..|posts| - 1] == Comings(front);
      ComingsSayNothing(front);
    }
  }

  function AnswerItems(operation: Operation, p: nat, result: CallbackResult): seq<Item> {
    if result == Pending then [] else [Over(operation, p, result == Success)]
  }

  lemma CallDeltaItems(operation: Operation, p: nat, result: CallbackResult)
    ensures LogItems(CallDelta(operation, p, result)) == [Entered(operation, p)] + AnswerItems(operation, p, result)
  {
    var reported := if result == Pending then [] else [Reported(operation, p, result == Success)];
    LogItemsJoin([Called(operation, p)], reported);
    OneEvent(Called(operation, p));
    OneEvent(Reported(operation, p, result == Success));
  }

  lemma CallTraceItems(token: Token, a: Answer)
    ensures TraceItems(CallTrace(token, a))
         == [Entered(token.operation, token.participant)] + AnswerItems(token.operation, token.participant, a.result)
  {
    var answered := if a.result == Pending then [] else [Answered(token, a.result == Success)];
    TraceItemsJoin([Handed(token)] + Comings(a.posts), answered);
    TraceItemsJoin([Handed(token)], Comings(a.posts));
    ComingsSayNothing(a.posts);
    OneHappening(Handed(token));
    OneHappening(Answered(token, a.result == Success));
  }

  lemma SleepDeltaItems(a: Answer)
    ensures LogItems(SleepDelta(a)) == []
  {
    var aborted := if a.sleeps then [] else [Aborted];
    var slept := if !a.prepares then [] else [Slept(a.sleeps)] + aborted;
    LogItemsJoin([Prepared(a.prepares)], slept);
    LogItemsJoin([Slept(a.sleeps)], aborted);
    OneEvent(Prepared(a.prepares));
    OneEvent(Slept(a.sleeps));
    OneEvent(Aborted);
  }

  /** One turn says the same to the logs and to the trace. */
  lemma StepItems(m: Manager, a: Answer)
    ensures LogItems(StepDelta(m, a)) == TraceItems(StepTrace(m, a))
  {
    match m.phase
    case Suspend =>
      if m.cursor < |m.order| {
        CallDeltaItems(Down, DownTarget(m.order, m.cursor), a.result);
        CallTraceItems(Token(m.generation, DownTarget(m.order, m.cursor), Down), a);
      } else {
        SleepDeltaItems(a);
      }
    case Resume =>
      if m.cursor < |m.suspended| {
        CallDeltaItems(Up, UpTarget(m), a.result);
        CallTraceItems(Token(m.generation, UpTarget(m), Up), a);
      } else {
        OneEvent(Returned);
      }
    case _ =>
      if m.ready != None {
        OneEvent(Reported(m.expected.operation, m.expected.participant, m.ready.value));
        OneHappening(Learned(m.expected, m.ready.value));
      }
  }

  // ----- Over whole runs -----

  ghost predicate Story(m: Manager, t: seq<Happening>) {
    Inv(m) && LogItems(AllLogs(m)) == TraceItems(t)
  }

  lemma StoryGoesOn(m: Manager, next: Manager, t: seq<Happening>, log: seq<Event>, more: seq<Happening>)
    requires Story(m, t) && Inv(next) && LogsGain(m, next, log) && LogItems(log) == TraceItems(more)
    ensures Story(next, t + more)
  {
    LogItemsJoin(AllLogs(m), log);
    TraceItemsJoin(t, more);
  }

  lemma StepStory(m: Manager, t: seq<Happening>, a: Answer)
    requires Story(m, t)
    ensures Story(DriveStep(m, a).0, t + StepTrace(m, a))
  {
    StepKeeps(m, a);
    StepGains(m, a);
    StepItems(m, a);
    StoryGoesOn(m, DriveStep(m, a).0, t, StepDelta(m, a), StepTrace(m, a));
  }

  lemma WakeStory(m: Manager, t: seq<Happening>, input: Input)
    requires Story(m, t)
    ensures Story(Wake(m, input), t)
  {
    var log := if Wake(m, input) == m then [] else [Woken(input.restores)];
    WakeKeeps(m, input);
    WakeGains(m, input);
    OneEvent(Woken(input.restores));
    StoryGoesOn(m, Wake(m, input), t, log, []);
    assert t + [] == t;
  }

  lemma ActStory(m: Manager, t: seq<Happening>, action: Action)
    requires Story(m, t) && !action.Step?
    ensures Story(Apply(m, action), t + ApplyTrace(m, action))
  {
    ApplyKeeps(m, action);
    LogGains(m, Apply(m, action), []);
    if action.Post? {
      OneHappening(Came(action.post));
    }
    StoryGoesOn(m, Apply(m, action), t, [], ApplyTrace(m, action));
  }

  lemma BegunStory(m: Manager, t: seq<Happening>)
    requires Story(m, t) && (m.state == Active || m.state == Idle) && m.available
    ensures Story(Begun(m), t)
  {
    BegunKeeps(m);
  }

  lemma RefreshStory(m: Manager, t: seq<Happening>, input: Input)
    requires Story(m, t)
    ensures Story(Refresh(m, input), t)
  {
    RefreshKeeps(m, input);
  }

  lemma StoryKept()
    ensures Kept(Story)
  {
    forall m, t, a: Answer | Story(m, t) ensures Story(DriveStep(m, a).0, t + StepTrace(m, a)) {
      StepStory(m, t, a);
    }
    forall m, t | Story(m, t) && (m.state == Active || m.state == Idle) && m.available ensures Story(Begun(m), t) {
      BegunStory(m, t);
    }
    forall m, t, input: Input | Story(m, t) ensures Story(Refresh(m, input), t) && Story(Wake(m, input), t) {
      RefreshStory(m, t, input);
      WakeStory(m, t, input);
    }
    forall m, t, action: Action | Story(m, t) && !action.Step?
      ensures Story(Apply(m, action), t + ApplyTrace(m, action))
    {
      ActStory(m, t, action);
    }
  }

  /** Over every run the trace has exactly the callbacks and outcomes of the logs, in order. */
  lemma TraceIsTheLogs(order: seq<nat>, available: bool, actions: seq<Action>)
    requires IsOrder(order)
    ensures var m := Initial(order, available);
            TraceItems(RunTrace(m, actions)) == LogItems(AllLogs(Run(m, actions)))
  {
    var m := Initial(order, available);
    StoryKept();
    assert AllLogs(m) == [];
    assert Story(m, []);
    RunInduction(Story, m, actions);
  }
}
