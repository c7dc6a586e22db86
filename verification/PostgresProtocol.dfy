/** Concurrent `execute` calls on one Postgres session, as a state machine over the points where
    a call can be interrupted: the transaction lock, the pool, the server, the shared fields. */
module PostgresProtocol {
  import opened Text
  import opened PostgresDriver

  datatype Work = Query | ControlWork(control: Control)

  /** Where a live call stands. `pid` is the backend of the connection it runs on; a call with
      `inTx` runs on the held transaction and keeps the lock while it does. */
  datatype Call =
    | Queued(work: Work)
    | Acquiring
    | Fetching(token: int, pid: int, inTx: bool)
    | Running(token: int, pid: int, inTx: bool, published: bool)
    | Beginning
    | Began
    | Closing(control: Control)

  /** `log` lists the control calls that returned, with whether they returned Ok. */
  datatype World = World(
    shared: Shared, lock: Option<nat>, calls: map<nat, Call>, started: nat, log: seq<(Control, bool)>)

  datatype Event =
    | Submit(id: nat, work: Work)
    | Lock(id: nat)
    | Acquired(id: nat, pid: int)
    | AcquireFails(id: nat)
    | PidArrives(id: nat)
    | PidFails(id: nat)
    | Finish(id: nat)
    | BeginOk(id: nat, pid: int)
    | BeginFails(id: nat)
    | StoreFlag(id: nat)
    | CloseOk(id: nat)
    | CloseFails(id: nat)

  const Initial := World(Shared(None, false, None, 0), None, map[], 0, [])

  predicate HoldsLock(c: Call) {
    c.Beginning? || c.Began? || c.Closing? || (OnConnection(c) && c.inTx)
  }

  predicate OnConnection(c: Call) {
    c.Fetching? || c.Running?
  }

  /** A pool never hands out a connection that is in use. */
  predicate InUse(w: World, pid: int) {
    || w.shared.transaction == Some(pid)
    || exists id <- w.calls :: OnConnection(w.calls[id]) && w.calls[id].pid == pid
  }

  predicate Enabled(w: World, e: Event) {
    match e
    case Submit(id, _) => id !in w.calls
    case Lock(id) => id in w.calls && w.calls[id].Queued? && w.lock.None?
    case Acquired(id, pid) => id in w.calls && w.calls[id].Acquiring? && !InUse(w, pid)
    case AcquireFails(id) => id in w.calls && w.calls[id].Acquiring?
    case PidArrives(id) => id in w.calls && w.calls[id].Fetching?
    case PidFails(id) => id in w.calls && w.calls[id].Fetching?
    case Finish(id) => id in w.calls && w.calls[id].Running?
    case BeginOk(id, pid) => id in w.calls && w.calls[id].Beginning? && !InUse(w, pid)
    case BeginFails(id) => id in w.calls && w.calls[id].Beginning?
    case StoreFlag(id) => id in w.calls && w.calls[id].Began?
    case CloseOk(id) => id in w.calls && w.calls[id].Closing?
    case CloseFails(id) => id in w.calls && w.calls[id].Closing?
  }

  function Return(w: World, id: nat, control: Control, ok: bool): World {
    w.(lock := None, calls := w.calls - {id}, log := w.log + [(control, ok)])
  }

  /** A call that starts running takes its token first. */
  function Track(w: World, id: nat, pid: int, inTx: bool): World {
    w.(shared := TakeToken(w.shared), started := w.started + 1,
       calls := w.calls[id := Fetching(w.shared.nextToken, pid, inTx)])
  }

  /** A call that got the transaction lock. */
  function Enter(w: World, id: nat, work: Work): World {
    var s := w.shared;
    match work
    case Query =>
      if s.transaction.Some? then Track(w.(lock := Some(id)), id, s.transaction.value, true)
      else w.(calls := w.calls[id := Acquiring])
    case ControlWork(Begin) =>
      if s.transaction.Some? then Return(w, id, Begin, true)
      else w.(lock := Some(id), calls := w.calls[id := Beginning])
    case ControlWork(control) =>
      if s.transaction.Some? then
        w.(shared := s.(transaction := None), lock := Some(id), calls := w.calls[id := Closing(control)])
      else Return(w.(shared := s.(inTransaction := false)), id, control, true)
  }

  function Next(w: World, e: Event): World
    requires Enabled(w, e)
  {
    var s := w.shared;
    match e
    case Submit(id, work) => w.(calls := w.calls[id := Queued(work)])
    case Lock(id) => Enter(w, id, w.calls[id].work)
    case Acquired(id, pid) => Track(w, id, pid, false)
    case AcquireFails(id) => w.(calls := w.calls - {id})
    case PidArrives(id) =>
      var c := w.calls[id];
      w.(shared := Publish(s, c.token, c.pid), calls := w.calls[id := Running(c.token, c.pid, c.inTx, true)])
    case PidFails(id) =>
      var c := w.calls[id];
      w.(calls := w.calls[id := Running(c.token, c.pid, c.inTx, false)])
    case Finish(id) =>
      w.(shared := Clear(s, w.calls[id].token), calls := w.calls - {id},
         lock := if w.calls[id].inTx then None else w.lock)
    case BeginOk(id, pid) => w.(shared := s.(transaction := Some(pid)), calls := w.calls[id := Began])
    case BeginFails(id) => Return(w, id, Begin, false)
    case StoreFlag(id) => Return(w.(shared := s.(inTransaction := true)), id, Begin, true)
    case CloseOk(id) => Return(w.(shared := s.(inTransaction := false)), id, w.calls[id].control, true)
    case CloseFails(id) => Return(w, id, w.calls[id].control, false)
  }

  // ----- what every step keeps

  /** The lock belongs to at most one call, and only its owner stands where the lock is held. */
  predicate LockInv(w: World) {
    && (w.lock.Some? ==> w.lock.value in w.calls && HoldsLock(w.calls[w.lock.value]))
    && (forall id <- w.calls :: HoldsLock(w.calls[id]) ==> w.lock == Some(id))
  }

  /** Tokens of live calls are different. */
  predicate TokenInv(w: World) {
    forall a, b | a in w.calls && b in w.calls && a != b && OnConnection(w.calls[a]) && OnConnection(w.calls[b]) ::
      w.calls[a].token != w.calls[b].token
  }

  /** A call that starts takes a token that no live call holds. The counter wraps around, so this
      fails only for a call that outlives 2^64 later ones. */
  predicate StepFresh(w: World, e: Event)
    requires Enabled(w, e)
  {
    Next(w, e).started > w.started ==>
      forall id <- w.calls :: OnConnection(w.calls[id]) ==> w.calls[id].token != w.shared.nextToken
  }

  /** `id` is the call that the entry in `current` belongs to. */
  predicate Owns(w: World, id: nat) {
    && id in w.calls && w.calls[id].Running? && w.calls[id].published
    && w.shared.current == Some((w.calls[id].token, w.calls[id].pid))
  }

  /** The entry in `current` is a live call's own. */
  predicate CurrentInv(w: World) {
    w.shared.current.Some? ==> exists id <- w.calls :: Owns(w, id)
  }

  /** No two live calls share a connection, and only a call that holds the lock is on the held one. */
  predicate ConnectionInv(w: World) {
    && (forall id <- w.calls :: OnConnection(w.calls[id]) ==>
          (w.shared.transaction == Some(w.calls[id].pid) <==> w.calls[id].inTx))
    && (forall a, b | a in w.calls && b in w.calls && a != b && OnConnection(w.calls[a]) && OnConnection(w.calls[b]) ::
          w.calls[a].pid != w.calls[b].pid)
  }

  /** The last control call that says something about the flag is a failed close. */
  predicate Stale(log: seq<(Control, bool)>) {
    if log == [] then false
    else
      var (control, ok) := log[|log| - 1];
      if ok then false else if control != Begin then true else Stale(log[..|log| - 1])
  }

  predicate InControl(c: Call) {
    c.Beginning? || c.Began? || c.Closing?
  }

  predicate NoControl(w: World) {
    forall id <- w.calls :: !InControl(w.calls[id])
  }

  /** Where a control call can stand between the transaction and its flag. */
  predicate ControlInv(w: World) {
    forall id <- w.calls ::
      && (w.calls[id].Beginning? ==> w.shared.transaction.None? && w.shared.inTransaction == Stale(w.log))
      && (w.calls[id].Began? ==> w.shared.transaction.Some?)
      && (w.calls[id].Closing? ==>
            w.shared.transaction.None? && w.shared.inTransaction && w.calls[id].control != Begin)
  }

  /** The flag against the transaction, while no control call is under way. */
  predicate FlagInv(w: World) {
    NoControl(w) ==>
      && (w.shared.transaction.Some? ==> w.shared.inTransaction && !Stale(w.log))
      && (w.shared.transaction.None? ==> w.shared.inTransaction == Stale(w.log))
  }

  /** What every step keeps, whatever the tokens are. */
  predicate Inv(w: World) {
    LockInv(w) && CurrentInv(w) && ConnectionInv(w) && ControlInv(w) && FlagInv(w)
  }

  lemma LockKept(w: World, e: Event)
    requires LockInv(w) && Enabled(w, e)
    ensures LockInv(Next(w, e))
  {
  }

  /** Between two states, no call moved to a connection and the token counter stood still. */
  predicate SameTokens(w: World, v: World) {
    && v.started == w.started && v.shared.nextToken == w.shared.nextToken
    && forall id <- v.calls :: OnConnection(v.calls[id]) ==>
         id in w.calls && OnConnection(w.calls[id]) && v.calls[id].token == w.calls[id].token
  }

  lemma SameTokensKept(w: World, v: World)
    requires TokenInv(w) && SameTokens(w, v)
    ensures TokenInv(v)
  {
  }

  lemma TrackKeepsTokens(w: World, id: nat, pid: int, inTx: bool)
    requires TokenInv(w) && id in w.calls && !OnConnection(w.calls[id])
    ensures TokenInv(Track(w, id, pid, inTx)) <==>
      forall other <- w.calls :: OnConnection(w.calls[other]) ==> w.calls[other].token != w.shared.nextToken
  {
    var v := Track(w, id, pid, inTx);
    assert v.calls[id] == Fetching(w.shared.nextToken, pid, inTx);
    forall other | other in w.calls && OnConnection(w.calls[other])
      ensures v.calls[other] == w.calls[other] && other != id
    {
    }
    if TokenInv(v) {
      forall other | other in w.calls && OnConnection(w.calls[other])
        ensures w.calls[other].token != w.shared.nextToken
      {
        assert v.calls[other].token != v.calls[id].token;
      }
    }
  }

  /** Live calls keep different tokens exactly as long as each takes a fresh one. */
  lemma TokenKept(w: World, e: Event)
    requires TokenInv(w) && Enabled(w, e)
    ensures TokenInv(Next(w, e)) <==> StepFresh(w, e)
  {
    var v := Next(w, e);
    if v.started == w.started {
      SameTokensKept(w, v);
    } else if e.Lock? {
      TrackKeepsTokens(w.(lock := Some(e.id)), e.id, w.shared.transaction.value, true);
    } else {
      TrackKeepsTokens(w, e.id, e.pid, false);
    }
  }

  lemma OwnerStays(w: World, e: Event, id: nat)
    requires Owns(w, id) && Enabled(w, e) && !e.PidArrives? && (e.Finish? ==> e.id != id)
    requires Next(w, e).shared.current.Some?
    ensures Owns(Next(w, e), id)
  {
    assert e.id != id;
  }

  lemma CurrentKept(w: World, e: Event)
    requires CurrentInv(w) && Enabled(w, e)
    ensures CurrentInv(Next(w, e))
  {
    var v := Next(w, e);
    if e.PidArrives? {
      assert Owns(v, e.id);
    } else if v.shared.current.Some? {
      var id :| Owns(w, id);
      assert e.Finish? ==> e.id != id;
      OwnerStays(w, e, id);
    }
  }

  lemma TrackConnected(w: World, id: nat, pid: int, inTx: bool)
    requires ConnectionInv(w) && id in w.calls && (w.shared.transaction == Some(pid) <==> inTx)
    requires forall other <- w.calls :: OnConnection(w.calls[other]) ==> w.calls[other].pid != pid
    ensures ConnectionInv(Track(w, id, pid, inTx))
  {
  }

  lemma EnterConnected(w: World, id: nat)
    requires ConnectionInv(w) && LockInv(w) && Enabled(w, Lock(id))
    ensures ConnectionInv(Enter(w, id, w.calls[id].work))
  {
    hide Track;
    if w.calls[id].work == Query && w.shared.transaction.Some? {
      TrackConnected(w.(lock := Some(id)), id, w.shared.transaction.value, true);
    }
  }

  lemma ConnectionKept(w: World, e: Event)
    requires ConnectionInv(w) && LockInv(w) && ControlInv(w) && Enabled(w, e)
    ensures ConnectionInv(Next(w, e))
  {
    hide Enter, Track;
    match e
    case Lock(id) => EnterConnected(w, id);
    case Acquired(id, pid) => TrackConnected(w, id, pid, false);
    case _ =>
  }

  lemma LogGrows(log: seq<(Control, bool)>, control: Control, ok: bool)
    ensures Stale(log + [(control, ok)]) <==> !ok && (control != Begin || Stale(log))
  {
    assert (log + [(control, ok)])[..|log|] == log;
  }

  lemma ControlKept(w: World, e: Event)
    requires ControlInv(w) && FlagInv(w) && LockInv(w) && Enabled(w, e)
    ensures ControlInv(Next(w, e))
  {
    if w.lock.None? {
      assert NoControl(w);
    }
  }

  lemma FlagKept(w: World, e: Event)
    requires ControlInv(w) && FlagInv(w) && LockInv(w) && Enabled(w, e)
    ensures FlagInv(Next(w, e))
  {
    var v := Next(w, e);
    if |v.log| > |w.log| {
      ReturnKeepsFlag(w, e);
    } else if NoControl(v) {
      ControlGoesOn(w, e);
      assert e.id in v.calls ==> !InControl(v.calls[e.id]);
    }
  }

  /** A control call is under way until it returns. */
  lemma ControlGoesOn(w: World, e: Event)
    requires Enabled(w, e) && |Next(w, e).log| == |w.log|
    ensures NoControl(Next(w, e)) ==> NoControl(w)
  {
    var v := Next(w, e);
    forall id | id in w.calls && InControl(w.calls[id]) ensures id in v.calls && InControl(v.calls[id]) {
    }
  }

  lemma ReturnKeepsFlag(w: World, e: Event)
    requires ControlInv(w) && FlagInv(w) && LockInv(w) && Enabled(w, e) && |Next(w, e).log| > |w.log|
    ensures FlagInv(Next(w, e))
  {
    LogGrows(w.log, Begin, false);
    LogGrows(w.log, Begin, true);
    match e
    case Lock(id) =>
      assert NoControl(w);
      LogGrows(w.log, w.calls[id].work.control, true);
    case CloseOk(id) => LogGrows(w.log, w.calls[id].control, true);
    case CloseFails(id) => LogGrows(w.log, w.calls[id].control, false);
    case _ =>
  }

  // ----- whole runs

  predicate CanRun(w: World, run: seq<Event>)
    decreases |run|
  {
    run == [] || (Enabled(w, run[0]) && CanRun(Next(w, run[0]), run[1..]))
  }

  function After(w: World, run: seq<Event>): (v: World)
    requires CanRun(w, run)
    ensures v.started >= w.started
    decreases |run|
  {
    if run == [] then w else After(Next(w, run[0]), run[1..])
  }

  /** Every call of the run takes a fresh token. */
  predicate FreshRun(w: World, run: seq<Event>)
    requires CanRun(w, run)
    decreases |run|
  {
    run == [] || (StepFresh(w, run[0]) && FreshRun(Next(w, run[0]), run[1..]))
  }

  predicate TokensDiffer(w: World, run: seq<Event>)
    requires CanRun(w, run)
    decreases |run|
  {
    TokenInv(w) && (run == [] || TokensDiffer(Next(w, run[0]), run[1..]))
  }

  /** Taking fresh tokens is exactly what keeps the tokens of live calls different all along. */
  lemma {:induction false} FreshIff(w: World, run: seq<Event>)
    requires CanRun(w, run) && TokenInv(w)
    ensures FreshRun(w, run) <==> TokensDiffer(w, run)
    decreases |run|
  {
    if run != [] {
      TokenKept(w, run[0]);
      if StepFresh(w, run[0]) {
        FreshIff(Next(w, run[0]), run[1..]);
      }
    }
  }

  /** The tokens taken so far are the numbers below `started`. */
  predicate Numbered(w: World) {
    && w.shared.nextToken == w.started % TOKENS
    && forall id <- w.calls :: OnConnection(w.calls[id]) ==> 0 <= w.calls[id].token < w.started
  }

  lemma NumberedKept(w: World, e: Event)
    requires Numbered(w) && Enabled(w, e) && Next(w, e).started <= TOKENS
    ensures Numbered(Next(w, e)) && StepFresh(w, e)
  {
    if Next(w, e).started > w.started {
      assert w.shared.nextToken == w.started;
    }
  }

  /** Any run with at most 2^64 tracked calls takes fresh tokens. */
  lemma {:induction false} FewCallsAreFresh(w: World, run: seq<Event>)
    requires CanRun(w, run) && Numbered(w) && After(w, run).started <= 0x1_0000_0000_0000_0000
    ensures FreshRun(w, run)
    decreases |run|
  {
    if run != [] {
      NumberedKept(w, run[0]);
      FewCallsAreFresh(Next(w, run[0]), run[1..]);
    }
  }

  lemma {:induction false} TokensAtEnd(w: World, run: seq<Event>)
    requires CanRun(w, run) && TokensDiffer(w, run)
    ensures TokenInv(After(w, run))
    decreases |run|
  {
    hide TokenInv;
    if run != [] {
      TokensAtEnd(Next(w, run[0]), run[1..]);
    } else {
      TokensNow(w, run);
    }
  }

  lemma TokensNow(w: World, run: seq<Event>)
    requires CanRun(w, run) && TokensDiffer(w, run)
    ensures TokenInv(w)
  {
  }

  lemma {:induction false} InvAlways(w: World, run: seq<Event>)
    requires Inv(w) && CanRun(w, run)
    ensures Inv(After(w, run))
    decreases |run|
  {
    hide LockInv, CurrentInv, ConnectionInv, ControlInv, FlagInv, Enabled, Next;
    if run != [] {
      CanRunFirst(w, run);
      LockKept(w, run[0]);
      CurrentKept(w, run[0]);
      ConnectionKept(w, run[0]);
      ControlKept(w, run[0]);
      FlagKept(w, run[0]);
      InvAlways(Next(w, run[0]), run[1..]);
    }
  }

  lemma CanRunFirst(w: World, run: seq<Event>)
    requires CanRun(w, run) && run != []
    ensures Enabled(w, run[0]) && CanRun(Next(w, run[0]), run[1..])
  {
  }

  /** In every interleaving, the entry in `current` is the token and the backend of exactly one live
      statement, and with no statement running there is no entry. */
  lemma CurrentNamesOneCall(run: seq<Event>)
    requires CanRun(Initial, run) && FreshRun(Initial, run)
    ensures var w := After(Initial, run); w.shared.current.Some? ==>
      exists id <- w.calls ::
        && Owns(w, id)
        && forall other <- w.calls :: other != id && OnConnection(w.calls[other]) ==>
             && w.calls[other].token != w.shared.current.value.0
             && w.calls[other].pid != w.shared.current.value.1
    ensures var w := After(Initial, run);
      (forall id <- w.calls :: !OnConnection(w.calls[id])) ==> w.shared.current == None
  {
    InvAlways(Initial, run);
    FreshIff(Initial, run);
    TokensAtEnd(Initial, run);
    var w := After(Initial, run);
    if w.shared.current.Some? {
      var id :| id in w.calls && Owns(w, id);
    }
  }

  /** In every run at all, fresh tokens or not, a cancel is aimed at the backend of a statement that is
      running, and of no other one; with no statement running it is aimed at nothing. */
  lemma CancelHitsLiveCall(run: seq<Event>)
    requires CanRun(Initial, run)
    ensures var w := After(Initial, run); CancelPid(w.shared).Some? ==>
      exists id <- w.calls ::
        && w.calls[id].Running? && CancelPid(w.shared) == Some(w.calls[id].pid)
        && forall other <- w.calls :: other != id && OnConnection(w.calls[other]) ==>
             Some(w.calls[other].pid) != CancelPid(w.shared)
    ensures var w := After(Initial, run);
      (forall id <- w.calls :: !w.calls[id].Running?) ==> CancelPid(w.shared) == None
  {
    InvAlways(Initial, run);
    var w := After(Initial, run);
    if w.shared.current.Some? {
      var id :| id in w.calls && Owns(w, id);
    }
  }

  /** A running statement stays the target of a cancel until it finishes or another one is published. */
  lemma CancelTargetStays(w: World, e: Event, id: nat)
    requires TokenInv(w) && Owns(w, id) && Enabled(w, e) && !e.PidArrives? && (e.Finish? ==> e.id != id)
    ensures CancelPid(Next(w, e).shared) == Some(w.calls[id].pid)
  {
  }

  /** When the pid arrives, a cancel is aimed at that call, whoever it was aimed at before. */
  lemma PublishedIsTarget(w: World, id: nat)
    requires Enabled(w, PidArrives(id))
    ensures CancelPid(Next(w, PidArrives(id)).shared) == Some(w.calls[id].pid)
    ensures Owns(Next(w, PidArrives(id)), id)
  {
  }

  /** Neither a later publication nor the end of the call. */
  predicate LeavesTarget(id: nat, run: seq<Event>) {
    forall i | 0 <= i < |run| :: !run[i].PidArrives? && (run[i].Finish? ==> run[i].id != id)
  }

  lemma {:induction false} OwnerKeepsTarget(w: World, id: nat, run: seq<Event>)
    requires CanRun(w, run) && TokensDiffer(w, run) && Owns(w, id) && LeavesTarget(id, run)
    ensures Owns(After(w, run), id) && After(w, run).calls[id] == w.calls[id]
    decreases |run|
  {
    hide Enabled, Next, TokenInv;
    if run != [] {
      CanRunFirst(w, run);
      TokensNow(w, run);
      OwnerOneStep(w, run[0], id);
      assert forall i | 0 <= i < |run[1..]| :: run[1..][i] == run[i + 1];
      OwnerKeepsTarget(Next(w, run[0]), id, run[1..]);
    }
  }

  lemma OwnerOneStep(w: World, e: Event, id: nat)
    requires TokenInv(w) && Owns(w, id) && Enabled(w, e) && !e.PidArrives? && (e.Finish? ==> e.id != id)
    ensures Owns(Next(w, e), id) && Next(w, e).calls[id] == w.calls[id]
  {
    CancelTargetStays(w, e, id);
    OwnerStays(w, e, id);
  }

  lemma {:induction false} RunSplits(w: World, a: seq<Event>, b: seq<Event>)
    ensures CanRun(w, a + b) <==> CanRun(w, a) && CanRun(After(w, a), b)
    ensures CanRun(w, a + b) ==> After(w, a + b) == After(After(w, a), b)
    ensures CanRun(w, a + b) ==> (FreshRun(w, a + b) <==> FreshRun(w, a) && FreshRun(After(w, a), b))
    decreases |a|
  {
    hide Enabled, Next, StepFresh;
    if a == [] {
      assert a + b == b;
    } else {
      assert (a + b)[0] == a[0] && (a + b)[1..] == a[1..] + b;
      if Enabled(w, a[0]) {
        RunSplits(Next(w, a[0]), a[1..], b);
      }
    }
  }

  /** In every run with fresh tokens, the call whose pid arrived last, if it is still running, is the target
      of a cancel: it stays published with its own backend, and nothing but its end takes the entry away. */
  lemma LastPublishedIsTarget(before: seq<Event>, id: nat, after: seq<Event>)
    requires CanRun(Initial, before + ([PidArrives(id)] + after)) && LeavesTarget(id, after)
    requires FreshRun(Initial, before + ([PidArrives(id)] + after))
    ensures var w := After(Initial, before + ([PidArrives(id)] + after));
      && id in w.calls && w.calls[id].Running? && w.calls[id].published
      && CancelPid(w.shared) == Some(w.calls[id].pid)
  {
    hide Enabled, Next, StepFresh, TokenInv;
    var e := PidArrives(id);
    RunSplits(Initial, before, [e] + after);
    var w := After(Initial, before);
    assert ([e] + after)[0] == e && ([e] + after)[1..] == after;
    CanRunFirst(w, [e] + after);
    FreshAtEnd(Initial, before);
    FreshFirst(w, [e] + after);
    PublishedIsTarget(w, id);
    FreshIff(Next(w, e), after);
    OwnerKeepsTarget(Next(w, e), id, after);
  }

  lemma FreshAtEnd(w: World, run: seq<Event>)
    requires w == Initial && CanRun(w, run) && FreshRun(w, run)
    ensures TokenInv(After(w, run))
  {
    FreshIff(w, run);
    TokensAtEnd(w, run);
  }

  lemma FreshFirst(w: World, run: seq<Event>)
    requires CanRun(w, run) && run != [] && FreshRun(w, run) && TokenInv(w)
    ensures TokenInv(Next(w, run[0])) && FreshRun(Next(w, run[0]), run[1..])
  {
    TokenKept(w, run[0]);
  }

  // ----- what a call can do

  /** With no transaction held and the lock free, a statement can run from start to end on any connection
      that is not in use: while it runs it is the target of a cancel, and afterwards all is as before but
      for the token. */
  lemma StatementRuns(w: World, id: nat, pid: int)
    requires id !in w.calls && w.lock.None? && w.shared.transaction.None? && !InUse(w, pid)
    ensures var events := [Submit(id, Query), Lock(id), Acquired(id, pid), PidArrives(id)];
      && CanRun(w, events) && CancelPid(After(w, events).shared) == Some(pid)
      && After(w, events).calls == w.calls[id := Running(w.shared.nextToken, pid, false, true)]
      && After(w, events).lock == None
      && CanRun(After(w, events), [Finish(id)])
      && After(After(w, events), [Finish(id)]) ==
           w.(shared := TakeToken(w.shared).(current := None), started := w.started + 1)
  {
    var events := [Submit(id, Query), Lock(id), Acquired(id, pid), PidArrives(id)];
    var b := w.(calls := w.calls[id := Acquiring]);
    FirstTwoSteps(w, id);
    StillFree(w, b, pid);
    LastSteps(b, id, pid);
    hide Enabled, Next, InUse;
    FourSteps(w, events);
    var d := After(w, events);
    OneStep(d, Finish(id));
    SameCalls(w.calls, id, Running(w.shared.nextToken, pid, false, true));
  }

  lemma SameCalls(calls: map<nat, Call>, id: nat, c: Call)
    requires id !in calls
    ensures calls[id := Acquiring][id := c] == calls[id := c] && calls[id := Acquiring] - {id} == calls
  {
  }

  lemma LastSteps(b: World, id: nat, pid: int)
    requires id in b.calls && b.calls[id] == Acquiring && !InUse(b, pid)
    ensures Enabled(b, Acquired(id, pid)) && Enabled(Next(b, Acquired(id, pid)), PidArrives(id))
    ensures var d := Next(Next(b, Acquired(id, pid)), PidArrives(id));
      && d == b.(shared := TakeToken(b.shared).(current := Some((b.shared.nextToken, pid))), started := b.started + 1,
                 calls := b.calls[id := Running(b.shared.nextToken, pid, false, true)])
      && Enabled(d, Finish(id))
      && Next(d, Finish(id)) == b.(shared := TakeToken(b.shared).(current := None), started := b.started + 1,
                                   calls := b.calls - {id})
  {
    hide InUse;
    var c := Next(b, Acquired(id, pid));
    var d := Next(c, PidArrives(id));
    assert d.calls == b.calls[id := Running(b.shared.nextToken, pid, false, true)];
    assert Next(d, Finish(id)).calls == b.calls - {id};
  }

  lemma FirstTwoSteps(w: World, id: nat)
    requires id !in w.calls && w.lock.None? && w.shared.transaction.None?
    ensures Enabled(w, Submit(id, Query)) && Enabled(Next(w, Submit(id, Query)), Lock(id))
    ensures Next(Next(w, Submit(id, Query)), Lock(id)) == w.(calls := w.calls[id := Acquiring])
  {
    var a := Next(w, Submit(id, Query));
    assert Next(a, Lock(id)).calls == w.calls[id := Acquiring];
  }

  lemma StillFree(w: World, b: World, pid: int)
    requires b.shared == w.shared && !InUse(w, pid)
    requires forall other <- b.calls ::
               OnConnection(b.calls[other]) ==> other in w.calls && b.calls[other] == w.calls[other]
    ensures !InUse(b, pid)
  {
  }

  lemma FourSteps(w: World, events: seq<Event>)
    requires |events| == 4 && Enabled(w, events[0])
    requires Enabled(Next(w, events[0]), events[1])
    requires Enabled(Next(Next(w, events[0]), events[1]), events[2])
    requires Enabled(Next(Next(Next(w, events[0]), events[1]), events[2]), events[3])
    ensures CanRun(w, events)
    ensures After(w, events) == Next(Next(Next(Next(w, events[0]), events[1]), events[2]), events[3])
  {
    hide Enabled, Next;
    var rest := events[1..];
    ThreeSteps(Next(w, events[0]), rest);
    FirstStep(w, events);
  }

  lemma FirstStep(w: World, events: seq<Event>)
    requires events != [] && Enabled(w, events[0]) && CanRun(Next(w, events[0]), events[1..])
    ensures CanRun(w, events) && After(w, events) == After(Next(w, events[0]), events[1..])
  {
    hide Enabled, Next;
  }

  /** In a held transaction, a statement can run from start to end on the transaction's connection, holding
      the lock meanwhile. */
  lemma StatementRunsInTransaction(w: World, id: nat)
    requires id !in w.calls && w.lock.None? && w.shared.transaction.Some?
    ensures var pid := w.shared.transaction.value;
      var events := [Submit(id, Query), Lock(id), PidArrives(id), Finish(id)];
      && CanRun(w, events[..3]) && CancelPid(After(w, events[..3]).shared) == Some(pid)
      && After(w, events[..3]).calls == w.calls[id := Running(w.shared.nextToken, pid, true, true)]
      && After(w, events[..3]).lock == Some(id)
      && CanRun(w, events)
      && After(w, events) == w.(shared := TakeToken(w.shared).(current := None), started := w.started + 1)
  {
    var events := [Submit(id, Query), Lock(id), PidArrives(id), Finish(id)];
    var a := Next(w, events[0]);
    var b := Next(a, events[1]);
    var c := Next(b, events[2]);
    FourSteps(w, events);
    RunSplits(w, events[..3], [Finish(id)]);
    assert events == events[..3] + [Finish(id)];
    ThreeSteps(w, events[..3]);
    assert c.calls == w.calls[id := Running(w.shared.nextToken, w.shared.transaction.value, true, true)];
    assert Next(c, Finish(id)).calls == w.calls;
  }

  lemma ThreeSteps(w: World, events: seq<Event>)
    requires |events| == 3 && Enabled(w, events[0])
    requires Enabled(Next(w, events[0]), events[1])
    requires Enabled(Next(Next(w, events[0]), events[1]), events[2])
    ensures CanRun(w, events) && After(w, events) == Next(Next(Next(w, events[0]), events[1]), events[2])
  {
    hide Enabled, Next;
    var rest := events[1..];
    OneStep(Next(Next(w, events[0]), events[1]), events[2]);
    assert rest[0] == events[1] && rest[1..] == [events[2]];
    FirstStep(Next(w, events[0]), rest);
    FirstStep(w, events);
  }

  /** A statement for which the pid or a connection does not come can still go on to its end. */
  lemma StatementFails(w: World, id: nat)
    requires id in w.calls
    ensures w.calls[id].Acquiring? ==>
      Enabled(w, AcquireFails(id)) && Next(w, AcquireFails(id)) == w.(calls := w.calls - {id})
    ensures w.calls[id].Fetching? ==> Enabled(w, PidFails(id)) && Next(w, PidFails(id)).shared == w.shared
    ensures w.calls[id].Fetching? ==> Enabled(Next(w, PidFails(id)), Finish(id))
  {
  }

  /** A control call can be submitted and gets the lock when it is free. */
  lemma ControlRuns(w: World, id: nat, control: Control)
    requires id !in w.calls && w.lock.None?
    ensures Enabled(w, Submit(id, ControlWork(control)))
    ensures var v := Next(w, Submit(id, ControlWork(control)));
      && v == w.(calls := w.calls[id := Queued(ControlWork(control))]) && Enabled(v, Lock(id))
  {
  }

  /** From the start, every run with at most 2^64 tracked calls takes fresh tokens. */
  lemma ShortRunsAreFresh(run: seq<Event>)
    requires CanRun(Initial, run) && After(Initial, run).started <= 0x1_0000_0000_0000_0000
    ensures FreshRun(Initial, run)
  {
    FewCallsAreFresh(Initial, run);
  }

  // ----- statements on a held transaction

  /** A statement that gets the lock while a transaction is held runs on its connection and keeps the lock;
      otherwise it lets the lock go and asks the pool. */
  lemma QueryEnters(w: World, id: nat)
    requires Enabled(w, Lock(id)) && w.calls[id].work == Query
    ensures var v := Next(w, Lock(id));
      && v.shared.transaction == w.shared.transaction
      && match w.shared.transaction
         case Some(pid) => v.lock == Some(id) && v.calls[id] == Fetching(w.shared.nextToken, pid, true)
         case None => v.lock == None && v.calls[id] == Acquiring
  {
  }

  /** In every run, a statement that holds the lock runs on the held transaction, and a statement of its
      own connection does not. */
  lemma StatementsOnTransaction(run: seq<Event>, id: nat)
    requires CanRun(Initial, run) && id in After(Initial, run).calls && OnConnection(After(Initial, run).calls[id])
    ensures var w := After(Initial, run);
      && (w.lock == Some(id) ==> w.shared.transaction == Some(w.calls[id].pid))
      && (w.lock != Some(id) ==> w.shared.transaction != Some(w.calls[id].pid))
  {
    InvAlways(Initial, run);
  }

  /** What the last control call that returned leaves, while no other one is under way. */
  predicate LeftBy(w: World) {
    w.log != [] && w.log[|w.log| - 1].1 && NoControl(w) ==>
      (w.shared.transaction.Some? <==> w.log[|w.log| - 1].0 == Begin)
  }

  /** In every run, after a `BEGIN` that returned Ok a transaction is held, and after a `COMMIT` or
      `ROLLBACK` that returned Ok none is. */
  lemma {:induction false} ControlLeaves(w: World, run: seq<Event>)
    requires Inv(w) && LeftBy(w) && CanRun(w, run)
    ensures LeftBy(After(w, run))
    decreases |run|
  {
    hide Inv, LeftBy, Enabled, Next;
    if run != [] {
      CanRunFirst(w, run);
      LeftByKept(w, run[0]);
      OneMoreStep(w, run[0]);
      ControlLeaves(Next(w, run[0]), run[1..]);
    }
  }

  lemma OneMoreStep(w: World, e: Event)
    requires Inv(w) && Enabled(w, e)
    ensures Inv(Next(w, e))
  {
    InvAlways(w, [e]);
    OneStep(w, e);
  }

  lemma LeftByKept(w: World, e: Event)
    requires Inv(w) && LeftBy(w) && Enabled(w, e)
    ensures LeftBy(Next(w, e))
  {
    var v := Next(w, e);
    if |v.log| == |w.log| && NoControl(v) {
      ControlGoesOn(w, e);
      assert e.id in v.calls ==> !InControl(v.calls[e.id]);
    }
  }

  lemma OkControlLeaves(run: seq<Event>)
    requires CanRun(Initial, run)
    ensures var w := After(Initial, run); w.log != [] && w.log[|w.log| - 1].1 && NoControl(w) ==>
      (w.shared.transaction.Some? <==> w.log[|w.log| - 1].0 == Begin)
  {
    ControlLeaves(Initial, run);
  }

  /** Cleanup: a finishing call takes its own entry away and nobody else's. */
  lemma CleanupIsOwn(w: World, id: nat)
    requires TokenInv(w) && CurrentInv(w) && Enabled(w, Finish(id))
    ensures Next(w, Finish(id)).shared.current == if Owns(w, id) then None else w.shared.current
  {
    if w.shared.current.Some? {
      var owner :| owner in w.calls && Owns(w, owner);
    }
  }

  /** Whoever holds the lock decides alone: no step of another call touches the transaction or its flag. */
  lemma OwnerDecides(w: World, id: nat, e: Event)
    requires LockInv(w) && Enabled(w, e) && w.lock == Some(id) && e.id != id
    ensures Next(w, e).lock == w.lock
    ensures Next(w, e).shared.transaction == w.shared.transaction
    ensures Next(w, e).shared.inTransaction == w.shared.inTransaction
  {
  }

  /** Whenever no control call is under way, be a statement running on the transaction or not, a held
      transaction implies the flag, and the two differ exactly when a commit or rollback has failed
      and no control call has returned Ok since. */
  lemma FlagMirrorsTransaction(run: seq<Event>)
    requires CanRun(Initial, run)
    ensures var w := After(Initial, run); NoControl(w) ==>
      && (w.shared.transaction.Some? ==> w.shared.inTransaction)
      && (w.shared.inTransaction != w.shared.transaction.Some? <==> Stale(w.log))
      && (w.log != [] && w.log[|w.log| - 1].1 ==> w.shared.inTransaction == w.shared.transaction.Some?)
  {
    InvAlways(Initial, run);
  }

  /** The steps of one control call add up to the control call of the driver. */
  lemma ControlStepsAddUp(w: World, id: nat, control: Control, outcome: Option<int>)
    requires LockInv(w) && ControlInv(w) && FlagInv(w) && w.lock.None?
    requires id in w.calls && w.calls[id] == Queued(ControlWork(control))
    requires control == Begin && outcome.Some? ==> !InUse(w, outcome.value)
    ensures var (shared, ok) := ControlCall(w.shared, control, outcome);
      var entered := Next(w, Lock(id));
      var steps :=
        if id !in entered.calls then []
        else if control == Begin then
          if outcome.Some? then [BeginOk(id, outcome.value), StoreFlag(id)] else [BeginFails(id)]
        else [if outcome.Some? then CloseOk(id) else CloseFails(id)];
      && CanRun(entered, steps)
      && After(entered, steps) == World(shared, None, w.calls - {id}, w.started, w.log + [(control, ok)])
  {
    var entered := Next(w, Lock(id));
    if id in entered.calls {
      if control == Begin {
        if outcome.Some? {
          BeginSteps(entered, id, outcome.value);
        } else {
          OneStep(entered, BeginFails(id));
        }
      } else {
        OneStep(entered, if outcome.Some? then CloseOk(id) else CloseFails(id));
      }
    }
  }

  lemma OneStep(w: World, e: Event)
    requires Enabled(w, e)
    ensures CanRun(w, [e]) && After(w, [e]) == Next(w, e)
  {
    assert [e][1..] == [];
  }

  lemma BeginSteps(w: World, id: nat, pid: int)
    requires Enabled(w, BeginOk(id, pid))
    ensures Enabled(Next(w, BeginOk(id, pid)), StoreFlag(id))
    ensures CanRun(w, [BeginOk(id, pid), StoreFlag(id)])
    ensures After(w, [BeginOk(id, pid), StoreFlag(id)]) == Next(Next(w, BeginOk(id, pid)), StoreFlag(id))
  {
    assert [BeginOk(id, pid), StoreFlag(id)][1..] == [StoreFlag(id)];
    OneStep(Next(w, BeginOk(id, pid)), StoreFlag(id));
  }
}
