// Suspension, reconnection and expiry in every interleaving: safety of the session store over
// whole runs (src/session_store.rs, src/reconnection.rs).
module ReconnectionRuns {
  import opened Common
  import opened ConnectionStates
  import opened Sessions

  /** A session held by a live connection. */
  datatype Live = Live(
    connection: Connection, token: Token, permissions: U32, generation: nat, userId: string)

  /** The server: sessions on live connections, the store, armed timers, every token ever drawn with the session it was
      drawn for, and every identifier ever drawn. */
  datatype World = World(
    live: map<SessionId, Live>, store: Store, timers: set<Timer>, tokens: map<Token, SessionId>, ids: set<SessionId>)

  const START := World(map[], map[], {}, map[], {})

  datatype Step =
    /** A fresh handshake completes. */
    | Establish(id: SessionId, userId: string, permissions: U32, token: Token)
    /** The session's first video channel goes live. */
    | GoLive(id: SessionId)
    /** The video channel opens its next generation. */
    | Reopen(id: SessionId)
    /** The connection is lost: the session is suspended, or dropped if it was not Active. */
    | Lose(id: SessionId)
    /** The session ends in an orderly way. */
    | End(id: SessionId)
    /** Anyone presents any token; the reply to a success may fail to be written. */
    | Attempt(id: SessionId, token: Token, newToken: Token, written: bool)
    /** The grace period of an episode runs out. */
    | Fire(timer: Timer)

  /** Identifiers and tokens are drawn fresh; everything else may happen at any time. */
  predicate Enabled(w: World, s: Step) {
    match s
    case Establish(id, _, _, token) => id !in w.ids && token !in w.tokens
    case GoLive(id) => id in w.live
    case Reopen(id) => id in w.live
    case Lose(id) => id in w.live
    case End(id) => id in w.live
    case Attempt(_, _, newToken, _) => newToken !in w.tokens
    case Fire(timer) => timer in w.timers
  }

  function Next(w: World, s: Step): World
    requires Enabled(w, s)
  {
    match s
    case Establish(id, userId, permissions, token) =>
      w.(live := w.live[id := Live(Connection(Authenticated, 0), token, permissions, 0, userId)],
         tokens := w.tokens[token := id], ids := w.ids + {id})
    case GoLive(id) =>
      w.(live := w.live[id := w.live[id].(connection := Do(w.live[id].connection, ChannelLive).1)])
    case Reopen(id) =>
      w.(live := w.live[id := w.live[id].(generation := w.live[id].generation + 1)])
    case Lose(id) =>
      var l := w.live[id];
      if l.connection.state.Active? then
        w.(live := w.live - {id},
           store := w.store[id := SuspendedSession(
             l.token, l.connection.(state := Suspended), l.permissions, l.generation, l.userId)],
           timers := w.timers + {Timer(id, l.token)})
      else
        w.(live := w.live - {id})
    case End(id) => w.(live := w.live - {id})
    case Attempt(id, token, newToken, written) =>
      var store := WithoutIfMatches(w.store, id, token);
      (match Sessions.Reconnection(w.store, id, token, newToken, written)
       case Ok(r) =>
         w.(live := w.live[id := Live(
              r.connection, r.reconnectToken, r.grantedPermissions, r.resumedGeneration, r.userId)],
            store := store, tokens := w.tokens[newToken := id])
       case Err(_) =>
         w.(store := store, tokens := if store == w.store then w.tokens else w.tokens[newToken := id]))
    case Fire(timer) =>
      w.(store := WithoutIfMatches(w.store, timer.sessionId, timer.token), timers := w.timers - {timer})
  }

  predicate Succeeds(w: World, s: Step) {
    s.Attempt? && Sessions.Reconnection(w.store, s.id, s.token, s.newToken, s.written).Ok?
  }

  // ---------------------------------------------------------------------
  // The invariant
  // ---------------------------------------------------------------------

  /** Every token in use was drawn for the session that uses it, so no two sessions share one. */
  predicate Known(w: World) {
    && (forall id :: id in w.live ==> id in w.ids && w.live[id].token in w.tokens && w.tokens[w.live[id].token] == id)
    && (forall id :: id in w.store ==>
          id in w.ids && w.store[id].reconnectToken in w.tokens && w.tokens[w.store[id].reconnectToken] == id)
    && (forall t :: t in w.timers ==> t.token in w.tokens && w.tokens[t.token] == t.sessionId)
  }

  /** A session is on a connection or in the store, never both; a stored one is Suspended and its timer is armed. */
  predicate Placed(w: World) {
    && (forall id :: id in w.store ==> id !in w.live)
    && (forall id :: id in w.store ==> w.store[id].connection.state.Suspended?)
    && (forall id :: id in w.store ==> Timer(id, w.store[id].reconnectToken) in w.timers)
  }

  /** No timer is armed for the token of a live connection. */
  predicate Unarmed(w: World) {
    forall id :: id in w.live ==> Timer(id, w.live[id].token) !in w.timers
  }

  predicate Inv(w: World) {
    Known(w) && Placed(w) && Unarmed(w)
  }

  lemma {:induction false} NextKeepsKnown(w: World, s: Step)
    requires Enabled(w, s) && Inv(w)
    ensures Known(Next(w, s))
  {
    match s
    case Attempt(_, _, _, _) =>
    case Lose(_) =>
    case _ =>
  }

  lemma {:induction false} NextKeepsPlaced(w: World, s: Step)
    requires Enabled(w, s) && Inv(w)
    ensures Placed(Next(w, s))
  {
    match s
    case Attempt(_, _, _, _) =>
    case Lose(_) =>
    case _ =>
  }

  lemma {:induction false} NextKeepsUnarmed(w: World, s: Step)
    requires Enabled(w, s) && Inv(w)
    ensures Unarmed(Next(w, s))
  {
    match s
    case Attempt(_, _, _, _) =>
    case Lose(_) =>
    case _ =>
  }

  // ---------------------------------------------------------------------
  // Runs
  // ---------------------------------------------------------------------

  /** The worlds `ws` are those the steps lead through. */
  ghost predicate IsRun(ws: seq<World>, steps: seq<Step>) {
    && |ws| == |steps| + 1 && ws[0] == START
    && forall i {:trigger Takes(ws, steps, i)} :: 0 <= i < |steps| ==> Takes(ws, steps, i)
  }

  ghost predicate Takes(ws: seq<World>, steps: seq<Step>, i: nat)
    requires |ws| == |steps| + 1 && i < |steps|
  {
    Enabled(ws[i], steps[i]) && ws[i + 1] == Next(ws[i], steps[i])
  }

  lemma {:induction false} AlwaysInv(ws: seq<World>, steps: seq<Step>, n: nat)
    requires IsRun(ws, steps) && n <= |steps|
    ensures Inv(ws[n])
  {
    for i := 0 to n
      invariant Inv(ws[i])
    {
      assert Takes(ws, steps, i);
      NextKeepsKnown(ws[i], steps[i]);
      NextKeepsPlaced(ws[i], steps[i]);
      NextKeepsUnarmed(ws[i], steps[i]);
    }
  }

  // ---------------------------------------------------------------------
  // Tokens are spent once
  // ---------------------------------------------------------------------

  /** A token that was drawn and is held by no session. */
  predicate Dead(w: World, token: Token) {
    && token in w.tokens
    && (forall a :: a in w.live ==> w.live[a].token != token)
    && (forall a :: a in w.store ==> w.store[a].reconnectToken != token)
  }

  lemma {:induction false} DeadStaysDead(w: World, s: Step, token: Token)
    requires Enabled(w, s) && Dead(w, token)
    ensures Dead(Next(w, s), token)
  {
  }

  /** What ends a suspend episode: presenting its token, or its own timer. */
  predicate Ends(s: Step, id: SessionId, token: Token) {
    s == Fire(Timer(id, token)) || (s.Attempt? && s.id == id && s.token == token)
  }

  lemma {:induction false} EndingKillsToken(w: World, s: Step, id: SessionId, token: Token)
    requires Enabled(w, s) && Inv(w) && Opens(w.store, id, token) && Ends(s, id, token)
    ensures Dead(Next(w, s), token)
  {
  }

  lemma {:induction false} DeadForever(ws: seq<World>, steps: seq<Step>, i: nat, k: nat, token: Token)
    requires IsRun(ws, steps) && i <= k <= |steps| && Dead(ws[i], token)
    ensures Dead(ws[k], token)
  {
    for n := i to k
      invariant Dead(ws[n], token)
    {
      assert Takes(ws, steps, n);
      DeadStaysDead(ws[n], steps[n], token);
    }
  }

  /** Once a token has matched, even if the reply could not be written, it never matches again. */
  lemma {:induction false} TokenMatchesOnce(ws: seq<World>, steps: seq<Step>, j: nat, k: nat)
    requires IsRun(ws, steps) && j < k < |steps| && steps[j].Attempt? && steps[k].Attempt?
    requires Opens(ws[j].store, steps[j].id, steps[j].token) && steps[k].token == steps[j].token
    ensures !Opens(ws[k].store, steps[k].id, steps[k].token)
  {
    AlwaysInv(ws, steps, j);
    assert Takes(ws, steps, j);
    EndingKillsToken(ws[j], steps[j], steps[j].id, steps[j].token);
    DeadForever(ws, steps, j + 1, k, steps[j].token);
  }

  // ---------------------------------------------------------------------
  // What a step can and cannot do to a stored session
  // ---------------------------------------------------------------------

  /** An attempt refused by the store changes nothing, and a matching one is never refused by the state machine. */
  lemma {:induction false} RefusedAttemptChangesNothing(ws: seq<World>, steps: seq<Step>, k: nat)
    requires IsRun(ws, steps) && k < |steps| && steps[k].Attempt?
    ensures Opens(ws[k].store, steps[k].id, steps[k].token) || ws[k + 1] == ws[k]
    ensures var r := Sessions.Reconnection(
              ws[k].store, steps[k].id, steps[k].token, steps[k].newToken, steps[k].written);
            && (r.Ok? <==> Opens(ws[k].store, steps[k].id, steps[k].token) && steps[k].written)
            && (r.Err? ==> r.error == if steps[k].id !in ws[k].store then FromStore(NoSuchSession)
                                      else if ws[k].store[steps[k].id].reconnectToken != steps[k].token
                                      then FromStore(TokenMismatch)
                                      else WriteFailed)
  {
    AlwaysInv(ws, steps, k);
    assert Takes(ws, steps, k);
  }

  /** A stored session stays as it is until its own token or its own timer ends the episode. */
  lemma {:induction false} EndedOnlyByItsOwn(w: World, s: Step, id: SessionId)
    requires Enabled(w, s) && Inv(w) && id in w.store
    ensures if Ends(s, id, w.store[id].reconnectToken) then id !in Next(w, s).store
            else id in Next(w, s).store && Next(w, s).store[id] == w.store[id]
  {
  }

  predicate Undisturbed(steps: seq<Step>, j: nat, k: nat, id: SessionId, token: Token)
    requires j <= k <= |steps|
  {
    forall i :: j <= i < k ==> !Ends(steps[i], id, token)
  }

  ghost predicate EpisodeAt(ws: seq<World>, steps: seq<Step>, j: nat, i: nat, id: SessionId, s: SuspendedSession)
    requires j <= i <= |steps| && |ws| == |steps| + 1
  {
    if Undisturbed(steps, j, i, id, s.reconnectToken)
    then id in ws[i].store && ws[i].store[id] == s
    else Dead(ws[i], s.reconnectToken)
  }

  /** After any interleaving, a suspend episode is intact exactly if neither its token nor its timer came up. */
  lemma {:induction false} EpisodeRuns(
    ws: seq<World>, steps: seq<Step>, j: nat, k: nat, id: SessionId, s: SuspendedSession)
    requires IsRun(ws, steps) && j <= k <= |steps| && id in ws[j].store && ws[j].store[id] == s
    ensures EpisodeAt(ws, steps, j, k, id, s)
  {
    for i := j to k
      invariant EpisodeAt(ws, steps, j, i, id, s)
    {
      EpisodeStep(ws, steps, j, i, id, s);
    }
  }

  lemma {:induction false} EpisodeStep(
    ws: seq<World>, steps: seq<Step>, j: nat, i: nat, id: SessionId, s: SuspendedSession)
    requires IsRun(ws, steps) && j <= i < |steps| && EpisodeAt(ws, steps, j, i, id, s)
    ensures EpisodeAt(ws, steps, j, i + 1, id, s)
  {
    AlwaysInv(ws, steps, i);
    assert Takes(ws, steps, i);
    if Undisturbed(steps, j, i, id, s.reconnectToken) {
      EndedOnlyByItsOwn(ws[i], steps[i], id);
      if Ends(steps[i], id, s.reconnectToken) {
        EndingKillsToken(ws[i], steps[i], id, s.reconnectToken);
      }
    } else {
      DeadStaysDead(ws[i], steps[i], s.reconnectToken);
    }
  }

  /** The client whose connection was lost at step `j` gets its session back at step `k` if and only if its token was
      not presented before and its grace period had not run out; then it is the same session, one generation on. */
  lemma {:induction false} OwnerCanReconnect(ws: seq<World>, steps: seq<Step>, j: nat, k: nat, id: SessionId)
    requires IsRun(ws, steps) && j < k < |steps| && steps[j] == Lose(id)
    requires id in ws[j].live && ws[j].live[id].connection.state.Active?
    requires steps[k].Attempt? && steps[k].id == id && steps[k].token == ws[j].live[id].token && steps[k].written
    ensures Succeeds(ws[k], steps[k]) <==> Undisturbed(steps, j + 1, k, id, ws[j].live[id].token)
    ensures Succeeds(ws[k], steps[k]) ==>
              && id in ws[k + 1].live
              && ws[k + 1].live[id] == ws[j].live[id].(
                   token := steps[k].newToken, generation := ws[j].live[id].generation + 1)
  {
    assert Takes(ws, steps, j);
    EpisodeRuns(ws, steps, j + 1, k, id, ws[j + 1].store[id]);
    assert Takes(ws, steps, k);
  }

  /** No stored session outlives its timer: the timer of every entry is armed, and firing it removes the entry. */
  lemma {:induction false} EveryEntryCanExpire(ws: seq<World>, steps: seq<Step>, n: nat, id: SessionId)
    requires IsRun(ws, steps) && n <= |steps| && id in ws[n].store
    ensures var fire := Fire(Timer(id, ws[n].store[id].reconnectToken));
            Enabled(ws[n], fire) && id !in Next(ws[n], fire).store
  {
    AlwaysInv(ws, steps, n);
  }

  // ---------------------------------------------------------------------
  // Generations and identity
  // ---------------------------------------------------------------------

  predicate Exists(w: World, id: SessionId) {
    id in w.live || id in w.store
  }

  function Generation(w: World, id: SessionId): nat
    requires Exists(w, id)
  {
    if id in w.live then w.live[id].generation else w.store[id].lastGeneration
  }

  function Identity(w: World, id: SessionId): (string, U32)
    requires Exists(w, id)
  {
    if id in w.live then (w.live[id].userId, w.live[id].permissions)
    else (w.store[id].userId, w.store[id].grantedPermissions)
  }

  /** A session that is gone never comes back; one that stays keeps its identity and never goes back a generation. */
  lemma {:induction false} SessionStep(w: World, s: Step, id: SessionId)
    requires Enabled(w, s) && Inv(w) && id in w.ids && Exists(Next(w, s), id)
    ensures Exists(w, id)
    ensures Identity(Next(w, s), id) == Identity(w, id)
    ensures Generation(Next(w, s), id)
         == Generation(w, id) + if s == Reopen(id) || (Succeeds(w, s) && s.id == id) then 1 else 0
  {
    match s
    case Attempt(_, _, _, _) =>
    case Lose(_) =>
    case _ =>
  }

  /** How often the session's video channel opened a new generation, by reopening or by being resumed. */
  function Openings(ws: seq<World>, steps: seq<Step>, i: nat, k: nat, id: SessionId): nat
    requires i <= k <= |steps| && |ws| == |steps| + 1
  {
    if k == i then 0
    else Openings(ws, steps, i, k - 1, id)
         + if steps[k - 1] == Reopen(id) || (Succeeds(ws[k - 1], steps[k - 1]) && steps[k - 1].id == id) then 1 else 0
  }

  /** Across any number of suspensions and reconnections, a session keeps its user and permissions and its generation
      counts every opening, so a resumed generation exceeds every earlier one. */
  lemma {:induction false} SessionContinues(ws: seq<World>, steps: seq<Step>, i: nat, k: nat, id: SessionId)
    requires IsRun(ws, steps) && i <= k <= |steps| && id in ws[i].ids && Exists(ws[k], id)
    ensures Exists(ws[i], id)
    ensures Identity(ws[k], id) == Identity(ws[i], id)
    ensures Generation(ws[k], id) == Generation(ws[i], id) + Openings(ws, steps, i, k, id)
    decreases k
  {
    if i < k {
      AlwaysInv(ws, steps, k - 1);
      assert Takes(ws, steps, k - 1);
      IdsGrow(ws, steps, i, k - 1);
      SessionStep(ws[k - 1], steps[k - 1], id);
      SessionContinues(ws, steps, i, k - 1, id);
    }
  }

  lemma {:induction false} IdsGrow(ws: seq<World>, steps: seq<Step>, i: nat, k: nat)
    requires IsRun(ws, steps) && i <= k <= |steps|
    ensures ws[i].ids <= ws[k].ids
  {
    for n := i to k
      invariant ws[i].ids <= ws[n].ids
    {
      assert Takes(ws, steps, n);
    }
  }

  /** A resumed generation exceeds every generation the session had at any earlier point of the run. */
  lemma {:induction false} ResumedGenerationIsNew(ws: seq<World>, steps: seq<Step>, i: nat, k: nat)
    requires IsRun(ws, steps) && i <= k < |steps| && Succeeds(ws[k], steps[k]) && Exists(ws[i], steps[k].id)
    ensures steps[k].id in ws[k + 1].live
    ensures ws[k + 1].live[steps[k].id].generation > Generation(ws[i], steps[k].id)
  {
    var id := steps[k].id;
    AlwaysInv(ws, steps, i);
    AlwaysInv(ws, steps, k);
    assert Takes(ws, steps, k);
    SessionContinues(ws, steps, i, k, id);
  }

  // ---------------------------------------------------------------------
  // A session from its establishment to its end
  // ---------------------------------------------------------------------

  /** One of the first `n` steps took the session live. */
  ghost predicate WentLive(steps: seq<Step>, n: nat, id: SessionId)
    requires n <= |steps|
  {
    exists i :: 0 <= i < n && steps[i] == GoLive(id)
  }

  /** What a world says about a session that has or has not gone live. */
  predicate LivenessFits(w: World, id: SessionId, went: bool) {
    && (went ==> id in w.ids)
    && (id in w.live ==> w.live[id].connection == Connection(if went then Active else Authenticated, 0))
    && (id in w.store ==> went && w.store[id].connection == Connection(Suspended, 0))
  }

  lemma {:induction false} LivenessStep(w: World, s: Step, id: SessionId, went: bool)
    requires Enabled(w, s) && Inv(w) && LivenessFits(w, id, went)
    ensures LivenessFits(Next(w, s), id, went || s == GoLive(id))
  {
    match s
    case Attempt(_, _, _, _) =>
    case Lose(_) =>
    case _ =>
  }

  /** A live session's connection is Active if a channel ever went live, across any number of reconnections, and
      Authenticated otherwise; only sessions that went live are ever stored. */
  lemma {:induction false} ActiveIffWentLive(ws: seq<World>, steps: seq<Step>, n: nat, id: SessionId)
    requires IsRun(ws, steps) && n <= |steps|
    ensures LivenessFits(ws[n], id, WentLive(steps, n, id))
  {
    for i := 0 to n
      invariant LivenessFits(ws[i], id, WentLive(steps, i, id))
    {
      assert Takes(ws, steps, i);
      AlwaysInv(ws, steps, i);
      LivenessStep(ws[i], steps[i], id, WentLive(steps, i, id));
      assert WentLive(steps, i + 1, id) <==> WentLive(steps, i, id) || steps[i] == GoLive(id);
    }
  }

  /** What ends a session for good: an orderly end, a connection lost before any channel went live, and, while it is
      stored, its timer or a right token whose answer could not be written. */
  predicate EndsSession(w: World, s: Step, id: SessionId, went: bool) {
    match s
    case End(x) => x == id
    case Lose(x) => x == id && !went
    case Fire(timer) => timer.sessionId == id && id in w.store && w.store[id].reconnectToken == timer.token
    case Attempt(x, token, _, written) =>
      x == id && id in w.store && w.store[id].reconnectToken == token && !written
    case _ => false
  }

  lemma {:induction false} ExistsStep(w: World, s: Step, id: SessionId, went: bool)
    requires Enabled(w, s) && Inv(w) && LivenessFits(w, id, went) && id in w.ids
    ensures Exists(Next(w, s), id) <==> Exists(w, id) && !EndsSession(w, s, id, went)
    ensures id in Next(w, s).ids
  {
    match s
    case Attempt(_, _, _, _) =>
    case Lose(_) =>
    case _ =>
  }

  ghost predicate EndedAt(ws: seq<World>, steps: seq<Step>, i: nat, id: SessionId)
    requires |ws| == |steps| + 1 && i < |steps|
  {
    EndsSession(ws[i], steps[i], id, WentLive(steps, i, id))
  }

  ghost predicate NeverEnded(ws: seq<World>, steps: seq<Step>, j: nat, n: nat, id: SessionId)
    requires |ws| == |steps| + 1 && n <= |steps|
  {
    forall i {:trigger EndedAt(ws, steps, i, id)} :: j < i < n ==> !EndedAt(ws, steps, i, id)
  }

  /** An established session exists, on a connection or in the store, exactly until something ends it. */
  lemma {:induction false} ExistsUntilEnded(ws: seq<World>, steps: seq<Step>, j: nat, n: nat, id: SessionId)
    requires IsRun(ws, steps) && j < n <= |steps| && steps[j].Establish? && steps[j].id == id
    ensures id in ws[n].ids
    ensures Exists(ws[n], id) <==> NeverEnded(ws, steps, j, n, id)
  {
    assert Takes(ws, steps, j);
    for i := j + 1 to n
      invariant id in ws[i].ids
      invariant Exists(ws[i], id) <==> NeverEnded(ws, steps, j, i, id)
    {
      assert Takes(ws, steps, i);
      AlwaysInv(ws, steps, i);
      ActiveIffWentLive(ws, steps, i, id);
      ExistsStep(ws[i], steps[i], id, WentLive(steps, i, id));
      assert NeverEnded(ws, steps, j, i + 1, id) <==>
             NeverEnded(ws, steps, j, i, id) && !EndedAt(ws, steps, i, id);
    }
  }

  /** As long as it exists, it is the session that was established: the user and permissions of the handshake, and a
      generation that counts the openings since. */
  lemma {:induction false} AsEstablished(ws: seq<World>, steps: seq<Step>, j: nat, n: nat, id: SessionId)
    requires IsRun(ws, steps) && j < n <= |steps| && steps[j].Establish? && steps[j].id == id && Exists(ws[n], id)
    ensures Identity(ws[n], id) == (steps[j].userId, steps[j].permissions)
    ensures Generation(ws[n], id) == Openings(ws, steps, j + 1, n, id)
  {
    assert Takes(ws, steps, j);
    SessionContinues(ws, steps, j + 1, n, id);
  }

  // ---------------------------------------------------------------------
  // The server's own methods take these steps
  // ---------------------------------------------------------------------

  /** A server: the store, and the sessions its live connections hold. */
  class Server {
    const sessions: SessionStore
    var live: map<SessionId, Live>
    /** Every token drawn so far, with the session it was drawn for, and every identifier. */
    ghost var tokens: map<Token, SessionId>
    ghost var ids: set<SessionId>

    ghost function Value(): World
      reads this, sessions
    {
      World(live, sessions.sessions, sessions.timers, tokens, ids)
    }

    constructor ()
      ensures Value() == START && fresh(sessions)
    {
      sessions := new SessionStore();
      live := map[];
      tokens := map[];
      ids := {};
    }

    /** A fresh handshake has been authenticated. */
    method Established(id: SessionId, userId: string, permissions: U32, token: Token)
      requires Enabled(Value(), Establish(id, userId, permissions, token))
      modifies this
      ensures Value() == Next(old(Value()), Establish(id, userId, permissions, token))
    {
      var sm := new ConnectionSm();
      var hello := sm.CompleteHandshake();
      var authenticated := sm.CompleteAuthentication();
      live := live[id := Live(Connection(sm.state, sm.authAttempts), token, permissions, 0, userId)];
      tokens := tokens[token := id];
      ids := ids + {id};
    }

    method ChannelWentLive(id: SessionId)
      requires Enabled(Value(), GoLive(id))
      modifies this
      ensures Value() == Next(old(Value()), GoLive(id))
    {
      var sm := new ConnectionSm.Copy(live[id].connection);
      var r := sm.OnChannelLive();
      live := live[id := live[id].(connection := Connection(sm.state, sm.authAttempts))];
    }

    method ConnectionLost(id: SessionId)
      requires Enabled(Value(), Lose(id))
      modifies this, sessions
      ensures Value() == Next(old(Value()), Lose(id))
    {
      var l := live[id];
      var r := sessions.SuspendAndScheduleExpiry(id, l.userId, l.connection, l.token, l.permissions, l.generation);
      live := live - {id};
    }

    method SessionEnded(id: SessionId)
      requires Enabled(Value(), End(id))
      modifies this
      ensures Value() == Next(old(Value()), End(id))
    {
      live := live - {id};
    }

    method ReauthenticateReceived(id: SessionId, token: Token, newToken: Token, written: bool)
      returns (r: Result<Resumed, ServerError>)
      requires Enabled(Value(), Attempt(id, token, newToken, written))
      modifies this, sessions
      ensures Value() == Next(old(Value()), Attempt(id, token, newToken, written))
      ensures r.Ok? <==> Succeeds(old(Value()), Attempt(id, token, newToken, written))
    {
      ghost var before := sessions.sessions;
      r := ServerCompleteReconnect(sessions, id, token, newToken, written);
      if r.Ok? {
        live := live[id := Live(r.value.connection, r.value.reconnectToken, r.value.grantedPermissions,
                                r.value.resumedGeneration, r.value.userId)];
      }
      if r.Ok? || sessions.sessions != before {
        tokens := tokens[newToken := id];
      }
    }

    method TimerFired(timer: Timer)
      requires Enabled(Value(), Fire(timer))
      modifies sessions
      ensures Value() == Next(old(Value()), Fire(timer))
    {
      sessions.TimerFires(timer);
    }
  }
}
