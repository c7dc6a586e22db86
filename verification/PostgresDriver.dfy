/** The Postgres connector's shared fields and the methods that update them, one synchronous
    stretch of code at a time. */
module PostgresDriver {
  import opened Text

  /** Tokens come from a 64-bit counter that wraps around. */
  const TOKENS := 0x1_0000_0000_0000_0000

  datatype Control = Begin | Commit | Rollback

  /** The fields as one value. A held transaction is named by the backend pid of its connection. */
  datatype Shared = Shared(transaction: Option<int>, inTransaction: bool, current: Option<(int, int)>, nextToken: int)

  function TakeToken(s: Shared): Shared {
    s.(nextToken := (s.nextToken + 1) % TOKENS)
  }

  function Publish(s: Shared, token: int, pid: int): Shared {
    s.(current := Some((token, pid)))
  }

  /** Cleanup takes away the entry only when it is the call's own. */
  function Clear(s: Shared, token: int): Shared {
    if s.current.Some? && s.current.value.0 == token then s.(current := None) else s
  }

  /** The backend that a cancel request would be sent for. */
  function CancelPid(s: Shared): Option<int> {
    if s.current.None? then None else Some(s.current.value.1)
  }

  /** What one control call does when nothing else touches the transaction meanwhile: `outcome` is
      what the server makes of it, with the connection that a successful `BEGIN` is given. */
  function ControlCall(s: Shared, control: Control, outcome: Option<int>): (Shared, bool) {
    match control
    case Begin =>
      if s.transaction.Some? then (s, true)
      else if outcome.Some? then (s.(transaction := outcome, inTransaction := true), true)
      else (s, false)
    case Commit | Rollback =>
      if s.transaction.None? then (s.(inTransaction := false), true)
      else if outcome.Some? then (s.(transaction := None, inTransaction := false), true)
      else (s.(transaction := None), false)
  }

  class PostgresDriver {
    var transaction: Option<int>
    var inTransaction: bool
    var current: Option<(int, int)>
    var nextToken: int

    ghost function State(): Shared
      reads this
    {
      Shared(transaction, inTransaction, current, nextToken)
    }

    constructor ()
      ensures State() == Shared(None, false, None, 0)
    {
      transaction, inTransaction, current, nextToken := None, false, None, 0;
    }

    /** The start of a tracked call: a token of its own, and its entry once the pid is known. */
    method StartTracking(pid: Option<int>) returns (token: int)
      modifies this
      ensures token == old(nextToken)
      ensures current == if pid.Some? then Some((token, pid.value)) else old(current)
      ensures transaction == old(transaction) && inTransaction == old(inTransaction)
      ensures 0 <= old(nextToken) < 0xFFFF_FFFF_FFFF_FFFF ==> nextToken == old(nextToken) + 1
      ensures old(nextToken) == 0xFFFF_FFFF_FFFF_FFFF ==> nextToken == 0
      ensures State()
        == if pid.Some? then Publish(TakeToken(old(State())), token, pid.value) else TakeToken(old(State()))
    {
      token := nextToken;
      nextToken := (nextToken + 1) % TOKENS;
      if pid.Some? {
        current := Some((token, pid.value));
      }
    }

    method StopTracking(token: int)
      modifies this
      ensures current == if old(current).Some? && old(current).value.0 == token then None else old(current)
      ensures State() == Clear(old(State()), token)
    {
      if current.Some? && current.value.0 == token {
        current := None;
      }
    }

    method CancelTarget() returns (pid: Option<int>)
      ensures current == None ==> pid == None
      ensures current.Some? ==> pid == Some(current.value.1)
      ensures pid == CancelPid(State())
    {
      if current.None? {
        return None;
      }
      pid := Some(current.value.1);
    }

    method HandleTransactionControl(control: Control, outcome: Option<int>) returns (ok: bool)
      modifies this
      ensures control == Begin && ok ==> transaction.Some?
      ensures control == Begin && ok ==> inTransaction == (old(inTransaction) || old(transaction).None?)
      ensures control == Begin && old(transaction).Some? ==> ok && transaction == old(transaction)
      ensures control == Begin && old(transaction).None? ==> ok == outcome.Some? && transaction == outcome
      ensures control != Begin ==> transaction.None? && ok == (old(transaction).None? || outcome.Some?)
      ensures control != Begin && ok ==> !inTransaction
      ensures !ok ==> inTransaction == old(inTransaction)
      ensures current == old(current) && nextToken == old(nextToken)
      ensures (State(), ok) == ControlCall(old(State()), control, outcome)
    {
      match control
      case Begin =>
        if transaction.None? {
          if outcome.None? {
            return false;
          }
          transaction := outcome;
          inTransaction := true;
        }
        ok := true;
      case Commit | Rollback =>
        if transaction.Some? {
          transaction := None;
          if outcome.None? {
            return false;
          }
        }
        inTransaction := false;
        ok := true;
    }
  }
}
