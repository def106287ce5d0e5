// The connection state machine (src/connection_sm.rs).
module ConnectionStates {
  import opened Common

  const AUTH_ATTEMPT_LIMIT: nat := 3

  datatype Reason = UnexpectedMessage | SignatureInvalid | TooManyAttempts

  datatype State = Handshaking | Authenticating | Authenticated | Active | Suspended | Closing(reason: Reason)

  datatype MessageType = ClientHello | ServerHello | AuthPubkey | Other(typeRaw: nat)

  /** The machine as a value: the source's type is `Copy`. */
  datatype Connection = Connection(state: State, authAttempts: nat)

  datatype Operation =
    CompleteHandshake | RecordAuthFailure | CompleteAuthentication | ChannelLive | Suspend | Resume

  const FRESH_CONNECTION := Connection(Handshaking, 0)

  /** The state an operation is meant for, and the one it leads to when it is not a failure report. */
  function From(op: Operation): State {
    match op
    case CompleteHandshake => Handshaking
    case RecordAuthFailure | CompleteAuthentication => Authenticating
    case ChannelLive => Authenticated
    case Suspend => Active
    case Resume => Suspended
  }

  function To(op: Operation): State {
    match op
    case CompleteHandshake | RecordAuthFailure => Authenticating
    case CompleteAuthentication => Authenticated
    case ChannelLive | Resume => Active
    case Suspend => Suspended
  }

  function Do(c: Connection, op: Operation): (Result<(), Reason>, Connection) {
    if c.state != From(op) then (Err(UnexpectedMessage), c)
    else if op.RecordAuthFailure? then
      if c.authAttempts + 1 >= AUTH_ATTEMPT_LIMIT
      then (Err(TooManyAttempts), Connection(Closing(TooManyAttempts), c.authAttempts + 1))
      else (Err(SignatureInvalid), Connection(Authenticating, c.authAttempts + 1))
    else (Ok(()), c.(state := To(op)))
  }

  predicate Allowed(s: State, t: MessageType) {
    match s
    case Handshaking => t.ClientHello? || t.ServerHello?
    case Authenticating => t.AuthPubkey?
    case Authenticated => true
    case Active => !t.ClientHello? && !t.ServerHello?
    case Suspended => false
    case Closing(_) => false
  }

  class ConnectionSm {
    var state: State
    var authAttempts: nat

    ghost function Value(): Connection
      reads this
    {
      Connection(state, authAttempts)
    }

    constructor ()
      ensures Value() == FRESH_CONNECTION
    {
      state := Handshaking;
      authAttempts := 0;
    }

    constructor Copy(c: Connection)
      ensures Value() == c
    {
      state := c.state;
      authAttempts := c.authAttempts;
    }

    method CheckMessage(t: MessageType) returns (r: Result<(), Reason>)
      ensures r == if Allowed(state, t) then Ok(()) else Err(UnexpectedMessage)
    {
      var allowed: bool;
      match state {
        case Handshaking => allowed := t == ClientHello || t == ServerHello;
        case Authenticating => allowed := t == AuthPubkey;
        case Authenticated => allowed := true;
        case Active => allowed := !(t == ClientHello || t == ServerHello);
        case Suspended => allowed := false;
        case Closing(_) => allowed := false;
      }
      r := if allowed then Ok(()) else Err(UnexpectedMessage);
    }

    method CompleteHandshake() returns (r: Result<(), Reason>)
      modifies this
      ensures (r, Value()) == Do(old(Value()), Operation.CompleteHandshake)
    {
      if state.Handshaking? {
        state := Authenticating;
        return Ok(());
      }
      return Err(UnexpectedMessage);
    }

    method RecordAuthFailure() returns (r: Result<(), Reason>)
      modifies this
      ensures (r, Value()) == Do(old(Value()), Operation.RecordAuthFailure)
    {
      if state.Authenticating? {
        authAttempts := authAttempts + 1;
        if authAttempts >= AUTH_ATTEMPT_LIMIT {
          state := Closing(TooManyAttempts);
          return Err(TooManyAttempts);
        }
        return Err(SignatureInvalid);
      }
      return Err(UnexpectedMessage);
    }

    method CompleteAuthentication() returns (r: Result<(), Reason>)
      modifies this
      ensures (r, Value()) == Do(old(Value()), Operation.CompleteAuthentication)
    {
      if state.Authenticating? {
        state := Authenticated;
        return Ok(());
      }
      return Err(UnexpectedMessage);
    }

    method OnChannelLive() returns (r: Result<(), Reason>)
      modifies this
      ensures (r, Value()) == Do(old(Value()), ChannelLive)
    {
      if state.Authenticated? {
        state := Active;
        return Ok(());
      }
      return Err(UnexpectedMessage);
    }

    method Suspend() returns (r: Result<(), Reason>)
      modifies this
      ensures (r, Value()) == Do(old(Value()), Operation.Suspend)
    {
      if state.Active? {
        state := Suspended;
        return Ok(());
      }
      return Err(UnexpectedMessage);
    }

    method Resume() returns (r: Result<(), Reason>)
      modifies this
      ensures (r, Value()) == Do(old(Value()), Operation.Resume)
    {
      if state.Suspended? {
        state := Active;
        return Ok(());
      }
      return Err(UnexpectedMessage);
    }
  }

  // ---------------------------------------------------------------------
  // Every run of the machine
  // ---------------------------------------------------------------------

  function Run(ops: seq<Operation>, n: nat): Connection
    requires n <= |ops|
  {
    if n == 0 then FRESH_CONNECTION else Do(Run(ops, n - 1), ops[n - 1]).1
  }

  /** How many of the first `n` operations are `op` and meet the state they are meant for. */
  function Effective(ops: seq<Operation>, n: nat, op: Operation): nat
    requires n <= |ops|
  {
    if n == 0 then 0
    else Effective(ops, n - 1, op) + if ops[n - 1] == op && Run(ops, n - 1).state == From(op) then 1 else 0
  }

  /** The state as a count of what happened: each set-up step took effect at most once and in order, a connection
      closes exactly at the third failed authentication, and it is suspended exactly when one more suspension than
      resumption took effect. */
  ghost predicate CountsFit(c: Connection, hello: nat, failed: nat, authenticated: nat, live: nat,
                            suspended: nat, resumed: nat) {
    && 1 >= hello >= authenticated >= live
    && c.authAttempts == failed <= 3
    && (c.state.Handshaking? <==> hello == 0)
    && (c.state.Closing? <==> failed == 3)
    && (c.state.Authenticating? <==> hello == 1 && authenticated == 0 && failed < 3)
    && (c.state.Authenticated? <==> authenticated == 1 && live == 0)
    && (c.state.Active? <==> live == 1 && suspended == resumed)
    && (c.state.Suspended? <==> live == 1 && suspended == resumed + 1)
    && (live == 0 ==> suspended == 0 == resumed)
    && (failed > 0 ==> hello == 1)
  }

  ghost predicate Fits(ops: seq<Operation>, n: nat)
    requires n <= |ops|
  {
    CountsFit(Run(ops, n),
              Effective(ops, n, Operation.CompleteHandshake), Effective(ops, n, Operation.RecordAuthFailure),
              Effective(ops, n, Operation.CompleteAuthentication), Effective(ops, n, ChannelLive),
              Effective(ops, n, Operation.Suspend), Effective(ops, n, Operation.Resume))
  }

  lemma {:induction false} StateIsHistory(ops: seq<Operation>, n: nat)
    requires n <= |ops|
    ensures Fits(ops, n)
  {
    for i := 0 to n
      invariant Fits(ops, i)
    {
    }
  }

  /** How many of the first `n` operations took effect, for each operation. */
  datatype Counts = Counts(hello: nat, failed: nat, authenticated: nat, live: nat, suspended: nat, resumed: nat)

  function CountsOf(ops: seq<Operation>, n: nat): Counts
    requires n <= |ops|
  {
    Counts(Effective(ops, n, Operation.CompleteHandshake), Effective(ops, n, Operation.RecordAuthFailure),
           Effective(ops, n, Operation.CompleteAuthentication), Effective(ops, n, ChannelLive),
           Effective(ops, n, Operation.Suspend), Effective(ops, n, Operation.Resume))
  }

  /** Which messages pass, from what took effect so far: a Hello before the handshake, or between authentication and the
      first live channel; `AuthPubkey` after the handshake, unless three attempts failed or the session is suspended;
      any other message after authentication, unless the session is suspended. */
  lemma {:induction false} MessagesFollowHistory(ops: seq<Operation>, n: nat, typeRaw: nat)
    requires n <= |ops|
    ensures var (c, s) := (CountsOf(ops, n), Run(ops, n).state);
            && (Allowed(s, ClientHello) <==> c.hello == 0 || (c.authenticated == 1 && c.live == 0))
            && (Allowed(s, ServerHello) <==> c.hello == 0 || (c.authenticated == 1 && c.live == 0))
            && (Allowed(s, AuthPubkey) <==> c.hello == 1 && c.failed < 3 && c.suspended == c.resumed)
            && (Allowed(s, Other(typeRaw)) <==> c.authenticated == 1 && c.suspended == c.resumed)
  {
    StateIsHistory(ops, n);
  }

  /** What each operation is answered, from what took effect before it. */
  lemma {:induction false} RepliesFollowHistory(ops: seq<Operation>, n: nat)
    requires n < |ops|
    ensures var c := CountsOf(ops, n);
            Do(Run(ops, n), ops[n]).0 ==
              match ops[n]
              case CompleteHandshake => if c.hello == 0 then Ok(()) else Err(UnexpectedMessage)
              case RecordAuthFailure =>
                if c.hello == 0 || c.authenticated == 1 || c.failed == 3 then Err(UnexpectedMessage)
                else if c.failed == 2 then Err(TooManyAttempts) else Err(SignatureInvalid)
              case CompleteAuthentication =>
                if c.hello == 1 && c.authenticated == 0 && c.failed < 3 then Ok(()) else Err(UnexpectedMessage)
              case ChannelLive => if c.authenticated == 1 && c.live == 0 then Ok(()) else Err(UnexpectedMessage)
              case Suspend => if c.live == 1 && c.suspended == c.resumed then Ok(()) else Err(UnexpectedMessage)
              case Resume => if c.live == 1 && c.suspended == c.resumed + 1 then Ok(()) else Err(UnexpectedMessage)
  {
    StateIsHistory(ops, n);
  }

  /** A closed connection accepts nothing and stays closed. */
  lemma {:induction false} ClosedForGood(ops: seq<Operation>, i: nat, n: nat, t: MessageType)
    requires i <= n <= |ops| && Run(ops, i).state.Closing?
    ensures Run(ops, n) == Run(ops, i) && !Allowed(Run(ops, n).state, t)
  {
    for k := i to n
      invariant Run(ops, k) == Run(ops, i)
    {
    }
  }
}
