/**
 That transactions succeed: on an engine that is never slower than the driver is patient, with a slave
 willing to acknowledge, the outcome of a call depends on the address alone.
 */
module I2cProgress {
  import opened MachineWords
  import opened I2cRegisters
  import opened I2cProtocol
  import opened I2cTranscript
  import opened I2cTransactions
  import opened I2cEngine
  import opened I2cEngineRuns
  import opened I2cEnginePhases
  import opened I2cEngineTransactions
  import opened I2cSessions

  /** The slave never holds back an acknowledgement of a byte that is its own. */
  ghost predicate Willing(m: Machine) { forall h :: m.env(h).ack }

  /** No line fault strikes, save perhaps during a STOP, where the driver does not notice it. */
  ghost predicate Spared(m: Machine) { forall h, cmd :: SparedAt(m.env(h), cmd) }

  predicate SparedAt(c: Choice, cmd: Cmd) { cmd.Stop? || c.line(cmd).Clean? }

  // ---------------------------------------------------------------- waits come back in time

  lemma {:induction false} ReadyInTime(d: Device, m: Machine, h: History, n: nat)
    requires Models(d, m) && n > 0 && Settled(EngineAt(m, Looks(d, h, n)))
    ensures WaitReady(d, h, n).ok
    decreases n
  {
    hide Models, EngineAt;
    LookNow(d, m, h);
    if !Ready(Seen(d, h)) { ReadyInTime(d, m, Look(d, h), n - 1); }
  }

  /** On the way from an accepted STOP to Idle. */
  predicate Stopping(e: Engine) { e.flow == Busy(Stop) || e.flow == Closing(true) || e.flow.Aborting? || e.flow.Idle? }

  lemma StoppingTick(origin: Slave, e: Engine, c: Choice)
    requires Stopping(e)
    ensures Stopping(Tick(origin, e, c))
  {
    hide Land, Fail;
  }

  lemma {:induction false} IdleInTime(d: Device, m: Machine, h: History, n: nat)
    requires Models(d, m) && Stopping(EngineAt(m, h)) && n > 0 && Settled(EngineAt(m, Looks(d, h, n)))
    ensures WaitIdleReady(d, h, n).ok
    decreases n
  {
    hide Models, EngineAt, Tick;
    LookNow(d, m, h);
    StoppingTick(m.origin, EngineAt(m, h), m.env(h));
    if Ready(Seen(d, h)) {
      LookSettled(d, m, Look(d, h));
    } else {
      IdleInTime(d, m, Look(d, h), n - 1);
    }
  }

  /** What a willing slave reports for a command: it refuses the bytes that are not its own, and only those. */
  predicate Fair(s: Slave, op: Op) {
    op.cmd.Write? ==> op.report == if Accepts(s, op.cmd.data) then Acked else Nacked
  }

  lemma FairTick(origin: Slave, e: Engine, c: Choice)
    requires e.flow.Busy? && e.flow.cmd.Write? && c.ack && c.line(e.flow.cmd).Clean?
    ensures var f := Tick(origin, e, c); f == e || Fair(Replay(origin, e.wire), LastOp(f))
  {
    hide Replay, Land, Fail;
    var cmd := e.flow.cmd;
    FairEffect(Replay(origin, e.wire), cmd, c);
    LandIsEffect(origin, e, cmd, c);
  }

  lemma FairEffect(s: Slave, cmd: Cmd, c: Choice)
    requires cmd.Write? && c.ack
    ensures Fair(s, Effect(s, cmd, c))
  {
    hide Accepts;
  }

  lemma LandIsEffect(origin: Slave, e: Engine, cmd: Cmd, c: Choice)
    ensures var f := Land(origin, e, cmd, c); f.wire != [] && LastOp(f) == Effect(Replay(origin, e.wire), cmd, c)
  {
    hide Replay, Effect, ServedBy;
  }

  /** The wait for a byte command sees DONE, and the slave has been fair. */
  lemma {:induction false} DoneInTime(d: Device, m: Machine, e: Engine, h: History, n: nat)
    requires Models(d, m) && Willing(m) && Spared(m) && EngineAt(m, h) == e
    requires e.flow.Busy? && (e.flow.cmd.Write? || e.flow.cmd.Read?) && !e.done && !e.illegal
    requires n > 0 && Settled(EngineAt(m, Looks(d, h, n)))
    ensures var w := WaitCycle(d, h, n);
            w.ok && (e.flow.cmd.Write? ==> Fair(SlaveAt(m, e), LastOp(EngineAt(m, w.h))))
    decreases n
  {
    hide Tick, EngineAt, Models, Landed, Failed, Fair;
    LookNow(d, m, h);
    var cmd := e.flow.cmd;
    assert SparedAt(m.env(h), cmd);
    TickBusy(m.origin, e, m.env(h));
    if cmd.Write? { FairTick(m.origin, e, m.env(h)); }
    var f := EngineAt(m, Look(d, h));
    if f != e { LandedShows(m.origin, e, f, e.flow.cmd); } else { DoneInTime(d, m, e, Look(d, h), n - 1); }
  }

  /** Spared, a START or RESTART in flight is not aborted while the driver waits for it. */
  lemma {:induction false} SparedReady(d: Device, m: Machine, e: Engine, h: History, n: nat)
    requires Models(d, m) && Spared(m) && Sound(e) && e.flow.Busy? && !e.flow.cmd.Stop?
    requires var f := EngineAt(m, h); f == e || Landed(m.origin, e, f, e.flow.cmd)
    ensures var f := EngineAt(m, WaitReady(d, h, n).h); f == e || Landed(m.origin, e, f, e.flow.cmd)
    decreases n
  {
    hide Tick, EngineAt, Models, Landed, Failed;
    if n > 0 {
      LookNow(d, m, h);
      var f, cmd := EngineAt(m, h), e.flow.cmd;
      if f == e {
        assert SparedAt(m.env(h), cmd);
        TickBusy(m.origin, e, m.env(h));
      } else {
        ReachedIsRested(m.origin, e, f, cmd);
        TickRested(m.origin, f, m.env(h));
        StaysLanded(m.origin, e, f, EngineAt(m, Look(d, h)), cmd);
      }
      if !Ready(Seen(d, h)) { SparedReady(d, m, e, Look(d, h), n - 1); }
    }
  }

  // ---------------------------------------------------------------- one phase

  predicate Accepted(s: Slave, cmd: Cmd) { cmd.Write? ==> Accepts(s, cmd.data) }

  lemma WriteAnswered(d: Device, m: Machine, h: History, ph: Phase)
    requires Models(d, m) && Prompt(d, m) && Willing(m) && Spared(m) && ph.cmd.Write?
    requires var e := EngineAt(m, h); e.flow == Busy(ph.cmd) && !e.done && !e.illegal
    ensures var e, s := EngineAt(m, h), Conclude(d, h, ph);
            && s.code == (if Accepted(SlaveAt(m, e), ph.cmd) then TX_OK else ph.nackCode)
            && Fair(SlaveAt(m, e), LastOp(EngineAt(m, s.h))) && LastOp(EngineAt(m, s.h)).cmd == ph.cmd
  {
    hide Models, EngineAt, WaitCycle, Landed;
    var e := EngineAt(m, h);
    DoneInTime(d, m, e, h, POLL_LIMIT);
    WaitCycleReach(d, m, e, h, POLL_LIMIT);
    LandedLook(d, m, e, WaitCycle(d, h, POLL_LIMIT).h, ph.cmd);
    LandedResult(m.origin, e, EngineAt(m, Look(d, WaitCycle(d, h, POLL_LIMIT).h)), ph.cmd);
  }

  lemma ReadAnswered(d: Device, m: Machine, h: History, ph: Phase)
    requires Models(d, m) && Prompt(d, m) && Willing(m) && Spared(m) && ph.cmd.Read?
    requires var e := EngineAt(m, h); e.flow == Busy(ph.cmd) && !e.done && !e.illegal
    ensures Conclude(d, h, ph).code == TX_OK
  {
    hide Models, EngineAt, WaitCycle, Landed;
    var e := EngineAt(m, h);
    DoneInTime(d, m, e, h, POLL_LIMIT);
    WaitCycleReach(d, m, e, h, POLL_LIMIT);
    LandedLook(d, m, e, WaitCycle(d, h, POLL_LIMIT).h, ph.cmd);
  }

  lemma FrameAnswered(d: Device, m: Machine, h: History, ph: Phase)
    requires Models(d, m) && Prompt(d, m) && Spared(m) && (ph.cmd.Start? || ph.cmd.Restart? || ph.cmd.Stop?)
    requires EngineAt(m, h).flow == Busy(ph.cmd)
    ensures Conclude(d, h, ph).code == TX_OK
  {
    hide Models, EngineAt, WaitReady, WaitIdleReady, Reach, Looks, Landed;
    if ph.cmd.Stop? {
      IdleInTime(d, m, h, POLL_LIMIT);
    } else {
      var e := EngineAt(m, h);
      SelfReach(m.origin, e);
      ReadyInTime(d, m, h, POLL_LIMIT);
      WaitReadyReach(d, m, e, h, POLL_LIMIT);
      SparedReady(d, m, e, h, POLL_LIMIT);
      var w := WaitReady(d, h, POLL_LIMIT);
      LandedDone(m.origin, e, EngineAt(m, w.h), ph.cmd);
      LookSettled(d, m, w.h);
    }
  }

  /** A phase fails only on a byte that is not the slave's own, and then with its NACK code. */
  lemma PhaseAnswered(d: Device, m: Machine, h: History, ph: Phase)
    requires Models(d, m) && Prompt(d, m) && Willing(m) && Spared(m)
    requires Quiet(h) && ValidPhase(ph) && Fit(EngineAt(m, h), ph.cmd)
    ensures var s := RunPhase(d, h, ph);
            var slave, f := SlaveAt(m, EngineAt(m, h)), EngineAt(m, s.h);
            && s.code == (if Accepted(slave, ph.cmd) then TX_OK else ph.nackCode)
            && (s.code == TX_OK && !ph.cmd.Stop? ==> Fair(slave, LastOp(f)) && LastOp(f).cmd == ph.cmd)
  {
    hide Models, EngineAt, Conclude, RunPhase, WaitReady, Fresh, Prompt, Looks, Fit, Fair, Accepts, Replay, Done1, Lost;
    if !ph.cmd.Stop? { DoneCmd(m.origin, EngineAt(m, h), EngineAt(m, RunPhase(d, h, ph).h), ph.cmd); }
    ReadyPromptly(d, m, h);
    IssueOnEngine(d, m, h, ph);
    PhaseOnEngine(d, m, h, ph);
    var h1 := IssuedAt(d, h, ph.cmd);
    FreshBusy(EngineAt(m, h), EngineAt(m, h1), ph.cmd);
    if ph.cmd.Write? {
      WriteAnswered(d, m, h1, ph);
    } else if ph.cmd.Read? {
      ReadAnswered(d, m, h1, ph);
      NotWritten(SlaveAt(m, EngineAt(m, h)), LastOp(EngineAt(m, RunPhase(d, h, ph).h)));
    } else {
      FrameAnswered(d, m, h1, ph);
      if ph.cmd.Stop? { return; }
      NotWritten(SlaveAt(m, EngineAt(m, h)), LastOp(EngineAt(m, RunPhase(d, h, ph).h)));
    }
  }

  lemma ReadyPromptly(d: Device, m: Machine, h: History)
    requires Models(d, m) && Prompt(d, m)
    ensures WaitReady(d, h, POLL_LIMIT).ok
  {
    hide Models, EngineAt, WaitReady, Looks;
    ReadyInTime(d, m, h, POLL_LIMIT);
  }

  lemma NotWritten(s: Slave, op: Op)
    requires !op.cmd.Write?
    ensures Fair(s, op)
  {
  }

  // ---------------------------------------------------------------- whole transactions

  /** The slave after a command it had no objection to. */
  function Heard(s: Slave, cmd: Cmd): Slave { SlaveOn(s, Op(cmd, Acked)) }

  /** Every byte the plan writes is one the slave will by then take as its own. */
  ghost predicate Welcomes(s: Slave, plan: Plan)
    decreases plan
  {
    plan.Next? ==> Accepted(s, plan.phase.cmd) && Welcomes(Heard(s, plan.phase.cmd), plan.rest)
  }

  lemma HeardIs(s: Slave, op: Op)
    requires Fair(s, op) && Accepted(s, op.cmd)
    ensures SlaveOn(s, op) == Heard(s, op.cmd)
  {
    hide TakeByte, Accepts;
  }

  /** A phase that succeeds leaves the engine fit for the next one, and the slave as expected. */
  lemma PhaseHeard(d: Device, m: Machine, h: History, ph: Phase)
    requires Models(d, m) && Prompt(d, m) && Willing(m) && Spared(m)
    requires Quiet(h) && ValidPhase(ph) && Fit(EngineAt(m, h), ph.cmd) && !ph.cmd.Stop?
    requires Accepted(SlaveAt(m, EngineAt(m, h)), ph.cmd)
    ensures var s := RunPhase(d, h, ph);
            && s.code == TX_OK && Quiet(s.h) && After(EngineAt(m, s.h), ph.cmd)
            && SlaveAt(m, EngineAt(m, s.h)) == Heard(SlaveAt(m, EngineAt(m, h)), ph.cmd)
  {
    hide Models, EngineAt, RunPhase, Prompt, Fit, Fair, Accepted, Replay, SlaveOn, ViewOf, Ops, After, Heard, Done1, Lost;
    PhaseAnswered(d, m, h, ph);
    PhaseView(d, h, ph);
    PhaseOnEngine(d, m, h, ph);
    var e, f := EngineAt(m, h), EngineAt(m, RunPhase(d, h, ph).h);
    DoneIs(m.origin, e, f, ph.cmd);
    ReplayOne(m.origin, e.wire, LastOp(f));
    HeardIs(SlaveAt(m, e), LastOp(f));
  }

  lemma {:induction false} BodySucceeds(d: Device, m: Machine, h: History, plan: Plan, got: seq<Byte>)
    requires Models(d, m) && Prompt(d, m) && Willing(m) && Spared(m)
    requires Quiet(h) && ValidPlan(plan) && Closes(plan) && Engaged(EngineAt(m, h))
    requires Welcomes(SlaveAt(m, EngineAt(m, h)), plan)
    ensures Transact(d, h, plan, got).code == TX_OK
    decreases plan
  {
    hide Models, EngineAt, RunPhase, Transact, Prompt, Replay, ViewOf, Accepted, Heard;
    var ph, rest := plan.phase, plan.rest;
    Advance(d, h, ph, rest, got);
    var s := RunPhase(d, h, ph);
    if ph.cmd.Stop? {
      PhaseAnswered(d, m, h, ph);
      NothingToAccept(SlaveAt(m, EngineAt(m, h)), ph.cmd);
      Finished(d, s.h, got + s.rx);
    } else {
      PhaseHeard(d, m, h, ph);
      BodySucceeds(d, m, s.h, rest, got + s.rx);
    }
  }

  lemma NothingToAccept(s: Slave, cmd: Cmd)
    requires !cmd.Write?
    ensures Accepted(s, cmd)
  {
  }

  /** A call that writes only what the slave takes as its own succeeds. */
  lemma TransactionSucceeds(d: Device, m: Machine, h: History, plan: Plan)
    requires Models(d, m) && Prompt(d, m) && Willing(m) && Spared(m)
    requires Quiet(h) && Quiescent(EngineAt(m, h)) && Opening(plan) && Closes(plan.rest)
    requires Welcomes(SlaveAt(m, EngineAt(m, h)), plan)
    ensures Transact(d, h, plan, []).code == TX_OK
  {
    hide Models, EngineAt, RunPhase, Transact, Prompt, Replay, ViewOf, Heard;
    PhaseHeard(d, m, h, START);
    Advance(d, h, START, plan.rest, []);
    var s := RunPhase(d, h, START);
    BodySucceeds(d, m, s.h, plan.rest, []);
  }

  // ---------------------------------------------------------------- the calls

  lemma WelcomeFinish(s: Slave)
    ensures Welcomes(s, FINISH)
  {
    assert Welcomes(Heard(s, Stop), End);
  }

  lemma {:induction false} WelcomeFetch(s: Slave, i: nat, n: nat)
    requires i <= n
    ensures Welcomes(s, FetchFrom(i, n, FINISH))
    decreases n - i
  {
    if i == n { WelcomeFinish(s); } else { WelcomeFetch(Heard(s, Fetch(i, n).cmd), i + 1, n); }
  }

  /** START or RESTART, then the slave's own address. */
  lemma WelcomeAddress(s: Slave, cmd: Cmd, address: Byte, rest: Plan)
    requires ValidPlan(rest) && (cmd.Start? || cmd.Restart?) && address / 2 == SLAVE_ADDRESS
    requires var mode := if address % 2 == 1 then Serving else AwaitPointer;
             Welcomes(s.(mode := mode), rest)
    ensures Welcomes(s, Next(Phase(cmd, ERR_CMD), Next(Address(address), rest)))
  {
    var t := Heard(s, cmd);
    assert t == s.(mode := AwaitAddress);
    assert Heard(t, Write(address)) == s.(mode := if address % 2 == 1 then Serving else AwaitPointer);
    assert Welcomes(t, Next(Address(address), rest));
  }

  lemma WelcomeReadBack(s: Slave, slave: Byte, n: nat)
    requires slave % 0x80 == SLAVE_ADDRESS
    ensures Welcomes(s, ReadBack(slave, n))
  {
    if n == 0 {
      WelcomeFinish(s);
    } else {
      WelcomeFetch(s.(mode := Serving), 0, n);
      WelcomeAddress(s, Restart, AddrRead(slave), FetchFrom(0, n, FINISH));
    }
  }

  lemma {:induction false} WelcomeSend(s: Slave, slave: Byte, tx: seq<Byte>, n: nat, i: nat)
    requires slave % 0x80 == SLAVE_ADDRESS && i <= |tx| && (s.mode.AwaitPointer? || s.mode.Storing?)
    ensures Welcomes(s, SendFrom(tx, i, ReadBack(slave, n)))
    decreases |tx| - i
  {
    if i == |tx| {
      WelcomeReadBack(s, slave, n);
    } else {
      WelcomeSend(Heard(s, Write(tx[i])), slave, tx, n, i + 1);
    }
  }

  lemma WelcomeCall(s: Slave, slave: Byte, tx: seq<Byte>, n: nat)
    requires slave % 0x80 == SLAVE_ADDRESS
    ensures Welcomes(s, TxRxPlan(slave, tx, n)) && Welcomes(s, RxPlan(slave, n))
  {
    WelcomeSend(s.(mode := AwaitPointer), slave, tx, n, 0);
    WelcomeAddress(s, Start, AddrWrite(slave), SendFrom(tx, 0, ReadBack(slave, n)));
    WelcomeFetch(s.(mode := Serving), 0, n);
    WelcomeAddress(s, Start, AddrRead(slave), FetchFrom(0, n, FINISH));
  }

  /** Nobody answers to another address, and the call says so. */
  lemma WrongAddress(d: Device, m: Machine, h: History, address: Byte, rest: Plan)
    requires Models(d, m) && Prompt(d, m) && Willing(m) && Spared(m)
    requires Quiet(h) && Quiescent(EngineAt(m, h)) && ValidPlan(rest) && address / 2 != SLAVE_ADDRESS
    ensures Transact(d, h, Addressed(address, rest), []).code == ERR_ADDR_NACK
  {
    hide Models, EngineAt, RunPhase, Transact, Prompt, Replay, ViewOf;
    PhaseHeard(d, m, h, START);
    Advance(d, h, START, Next(Address(address), rest), []);
    var s := RunPhase(d, h, START);
    PhaseAnswered(d, m, s.h, Address(address));
    Advance(d, s.h, Address(address), rest, []);
  }

  /**
   On a prompt engine, with a willing slave behind it, sending and sending-then-receiving return OK for
   the slave's own address and the address-NACK code for any other, whatever is sent and however much is
   asked for.
   */
  lemma TxRxSucceeds(d: Device, m: Machine, h: History, slave: Byte, tx: seq<Byte>, n: nat)
    requires Models(d, m) && Prompt(d, m) && Willing(m) && Spared(m) && Quiet(h) && Quiescent(EngineAt(m, h))
    ensures Transact(d, h, TxRxPlan(slave, tx, n), []).code
         == if slave % 0x80 == SLAVE_ADDRESS then TX_OK else ERR_ADDR_NACK
  {
    hide Models, EngineAt, Transact, Prompt, Welcomes;
    PlansClose(slave, tx, n);
    if slave % 0x80 == SLAVE_ADDRESS {
      WelcomeCall(SlaveAt(m, EngineAt(m, h)), slave, tx, n);
      TransactionSucceeds(d, m, h, TxRxPlan(slave, tx, n));
    } else {
      WrongAddress(d, m, h, AddrWrite(slave), SendFrom(tx, 0, ReadBack(slave, n)));
    }
  }

  lemma RxSucceeds(d: Device, m: Machine, h: History, slave: Byte, n: nat)
    requires Models(d, m) && Prompt(d, m) && Willing(m) && Spared(m) && Quiet(h) && Quiescent(EngineAt(m, h))
    ensures Transact(d, h, RxPlan(slave, n), []).code
         == if slave % 0x80 == SLAVE_ADDRESS then TX_OK else ERR_ADDR_NACK
  {
    hide Models, EngineAt, Transact, Prompt, Welcomes;
    PlansClose(slave, [], n);
    if slave % 0x80 == SLAVE_ADDRESS {
      WelcomeCall(SlaveAt(m, EngineAt(m, h)), slave, [], n);
      TransactionSucceeds(d, m, h, RxPlan(slave, n));
    } else {
      WrongAddress(d, m, h, AddrRead(slave), FetchFrom(0, n, FINISH));
    }
  }

  /** Whatever calls were made before, and whatever they returned, the next one succeeds. */
  lemma NextCallSucceeds(d: Device, m: Machine, h: History, calls: seq<Call>, slave: Byte, tx: seq<Byte>, n: nat)
    requires Models(d, m) && Prompt(d, m) && Willing(m) && Spared(m)
    requires Quiet(h) && Quiescent(EngineAt(m, h)) && AllReturn(d, h, calls)
    ensures Transact(d, RunCalls(d, h, calls), TxRxPlan(slave, tx, n), []).code
         == if slave % 0x80 == SLAVE_ADDRESS then TX_OK else ERR_ADDR_NACK
  {
    hide Models, EngineAt, Transact, Prompt, RunCalls, AllReturn;
    AnySession(d, m, h, calls);
    TxRxSucceeds(d, m, RunCalls(d, h, calls), slave, tx, n);
  }

  // ---------------------------------------------------------------- a STOP that is never sent

  /** In every STOP, SCL is held low until the engine gives up on it. */
  ghost predicate StuckAtStop(m: Machine) { forall h :: m.env(h).line(Stop).Stuck? && !m.env(h).taken }

  ghost predicate NoStop(e: Engine) { forall op :: op in e.wire ==> !op.cmd.Stop? }

  lemma PutNoStop(origin: Slave, e: Engine, op: Op)
    requires NoStop(e) && !op.cmd.Stop?
    ensures NoStop(Put(origin, e, op))
  {
    hide Replay, ServedBy;
  }

  lemma TickNoStop(origin: Slave, e: Engine, c: Choice)
    requires NoStop(e) && c.line(Stop).Stuck? && !c.taken
    ensures NoStop(Tick(origin, e, c))
  {
    hide Replay, Put, ServedBy, NoStop, Effect;
    PutNoStop(origin, e, Op(Abort, Plain));
    if e.flow.Busy? && !e.flow.cmd.Stop? {
      var op := Effect(Replay(origin, e.wire), e.flow.cmd, c);
      EffectCmd(Replay(origin, e.wire), e.flow.cmd, c);
      PutNoStop(origin, e, op);
    }
    SameWire(e, Put(origin, e, Op(Abort, Plain)), Tick(origin, e, c));
    SameWire(e, Put(origin, e, Effect(Replay(origin, e.wire), if e.flow.Busy? then e.flow.cmd else Stop, c)), Tick(origin, e, c));
  }

  lemma EffectCmd(s: Slave, cmd: Cmd, c: Choice)
    ensures Effect(s, cmd, c).cmd == cmd
  {
  }

  lemma SameWire(e: Engine, f: Engine, g: Engine)
    ensures g.wire == e.wire && NoStop(e) ==> NoStop(g)
    ensures g.wire == f.wire && NoStop(f) ==> NoStop(g)
  {
  }

  lemma ApplyNoStop(origin: Slave, e: Engine, a: Access)
    requires NoStop(e)
    ensures NoStop(Apply(origin, e, a))
  {
    hide Put, Decode, NoStop;
    PutNoStop(origin, e, Op(Abort, Plain));
    SameWire(e, Put(origin, e, Op(Abort, Plain)), Apply(origin, e, a));
  }

  lemma {:induction false} NeverStops(m: Machine, h: History)
    requires StuckAtStop(m) && NoStop(m.boot)
    ensures NoStop(EngineAt(m, h))
  {
    hide Tick, Apply, NoStop;
    if h.Then? {
      NeverStops(m, h.past);
      TickNoStop(m.origin, EngineAt(m, h.past), m.env(h.past));
      ApplyNoStop(m.origin, Now(m, h.past), h.last);
    }
  }

  /**
   With SCL held low past the engine's patience in every STOP the driver still reports success, for every
   message and every read: the engine's own abort leaves it idle and ready, which is all the driver waits
   for.  No STOP has been carried out.
   */
  lemma LostStopUnnoticed(d: Device, m: Machine, h: History, slave: Byte, tx: seq<Byte>, n: nat)
    requires Models(d, m) && Prompt(d, m) && Willing(m) && Spared(m) && Quiet(h) && Quiescent(EngineAt(m, h))
    requires StuckAtStop(m) && NoStop(m.boot) && slave % 0x80 == SLAVE_ADDRESS
    ensures var out := Transact(d, h, TxRxPlan(slave, tx, n), []);
            out.code == TX_OK && NoStop(EngineAt(m, out.h))
  {
    hide Transact, EngineAt, NoStop;
    TxRxSucceeds(d, m, h, slave, tx, n);
    NeverStops(m, Transact(d, h, TxRxPlan(slave, tx, n), []).h);
  }

  // ---------------------------------------------------------------- such engines exist

  function Shown(m: Machine, h: History, reg: Reg): Word {
    match reg
    case STATUS => StatusWord(Now(m, h), m.env(h))
    case RXDATA => Now(m, h).rx
  }

  lemma {:induction false} SettledStays(d: Device, m: Machine, h: History, n: nat)
    requires Settled(EngineAt(m, h))
    ensures Settled(EngineAt(m, Looks(d, h, n)))
    decreases n
  {
    if n > 0 {
      assert EngineAt(m, Look(d, h)) == EngineAt(m, h);
      SettledStays(d, m, Look(d, h), n - 1);
    }
  }

  /**
   From any state and with any slave: an engine that is ready at every look, with a slave that always
   acknowledges; and one on which besides every STOP fails.
   */
  lemma PromptExists(boot: Engine, origin: Slave, stuck: bool) returns (d: Device, m: Machine)
    ensures Models(d, m) && Prompt(d, m) && Willing(m) && Spared(m) && m.boot == boot && m.origin == origin
    ensures stuck ==> StuckAtStop(m)
  {
    var line := (cmd: Cmd) => if stuck && cmd.Stop? then Stuck else Clean;
    var machine := Machine(boot, origin, h => Choice(true, true, true, line, false, 0, r => 0));
    m := machine;
    d := (h, reg) => Shown(machine, h, reg);
    forall h ensures Settled(EngineAt(m, Looks(d, h, POLL_LIMIT))) {
      SettledAtOnce(m.origin, EngineAt(m, h), m.env(h));
      assert EngineAt(m, Look(d, h)) == Tick(m.origin, EngineAt(m, h), m.env(h));
      SettledStays(d, m, Look(d, h), POLL_LIMIT - 1);
    }
  }

  lemma SettledAtOnce(origin: Slave, e: Engine, c: Choice)
    requires c.go && c.settle
    ensures Settled(Tick(origin, e, c))
  {
    hide Land, Fail;
  }
}
