/** How many status reads a transaction can cost, on any device. */
module I2cPolls {
  import opened MachineWords
  import opened I2cRegisters
  import opened I2cProtocol

  function Polls(h: History): nat {
    match h
    case Boot => 0
    case Then(past, last) => Polls(past) + if last.ReadStatus? then 1 else 0
  }

  lemma {:induction false} WaitReadyPolls(d: Device, h: History, n: nat)
    ensures Polls(WaitReady(d, h, n).h) <= Polls(h) + n
    decreases n
  {
    if n > 0 && !Ready(Seen(d, h)) { WaitReadyPolls(d, Look(d, h), n - 1); }
  }

  lemma {:induction false} WaitCyclePolls(d: Device, h: History, n: nat)
    ensures Polls(WaitCycle(d, h, n).h) <= Polls(h) + n
    decreases n
  {
    if n > 0 && !CmdIllegal(Seen(d, h)) && !Done(Seen(d, h)) { WaitCyclePolls(d, Look(d, h), n - 1); }
  }

  lemma {:induction false} WaitIdleReadyPolls(d: Device, h: History, n: nat)
    ensures Polls(WaitIdleReady(d, h, n).h) <= Polls(h) + 2 * n
    decreases n
  {
    if n == 0 {
    } else if !Ready(Seen(d, h)) {
      WaitIdleReadyPolls(d, Look(d, h), n - 1);
    } else {
      assert Polls(Look(d, Look(d, h))) == Polls(h) + 2;
      if !BusIdle(Seen(d, Look(d, h))) { WaitIdleReadyPolls(d, Look(d, Look(d, h)), n - 1); }
    }
  }

  lemma {:induction false} AbortPolls(d: Device, h: History, n: nat)
    ensures Polls(AbortPoll(d, h, n)) <= Polls(h) + 2 * n
    decreases n
  {
    if n == 0 {
    } else if !BusIdle(Seen(d, h)) {
      AbortPolls(d, Look(d, h), n - 1);
    } else {
      assert Polls(Look(d, Look(d, h))) == Polls(h) + 2;
      if !Ready(Seen(d, Look(d, h))) { AbortPolls(d, Look(d, Look(d, h)), n - 1); }
    }
  }

  function PhaseCost(ph: Phase): nat {
    if ph.cmd.Stop? then 3 * POLL_LIMIT + 1 else 2 * POLL_LIMIT + 2
  }

  lemma PhasePolls(d: Device, h: History, ph: Phase)
    requires ValidPhase(ph)
    ensures Polls(RunPhase(d, h, ph).h) <= Polls(h) + PhaseCost(ph)
  {
    WaitReadyPolls(d, h, POLL_LIMIT);
    var w := WaitReady(d, h, POLL_LIMIT);
    var cleared := Then(w.h, WriteStatus(STICKY));
    var staged := Stage(cleared, ph.cmd);
    assert Polls(staged) == Polls(cleared) == Polls(w.h);
    var issued := Then(Look(d, staged), WriteCommand(Encode(ph.cmd)));
    assert Polls(issued) == Polls(w.h) + 1;
    WaitCyclePolls(d, issued, POLL_LIMIT);
    WaitIdleReadyPolls(d, issued, POLL_LIMIT);
    WaitReadyPolls(d, issued, POLL_LIMIT);
    if ph.cmd.Read? {
      var cycle := WaitCycle(d, issued, POLL_LIMIT);
      assert Polls(Look(d, cycle.h)) == Polls(cycle.h) + 1;
    }
  }

  function PlanCost(plan: Plan): nat {
    if plan.End? then 0 else PhaseCost(plan.phase) + PlanCost(plan.rest)
  }

  lemma {:induction false} TransactPolls(d: Device, h: History, plan: Plan, got: seq<Byte>)
    requires ValidPlan(plan)
    ensures Polls(Transact(d, h, plan, got).h) <= Polls(h) + PlanCost(plan) + 2 * POLL_LIMIT
    decreases plan
  {
    hide RunPhase;
    if plan.Next? {
      Advance(d, h, plan.phase, plan.rest, got);
      PhasePolls(d, h, plan.phase);
      var s := RunPhase(d, h, plan.phase);
      if s.code == TX_OK {
        TransactPolls(d, s.h, plan.rest, got + s.rx);
      } else {
        AbortPolls(d, Then(s.h, WriteCommand(Encode(Abort))), POLL_LIMIT);
      }
    }
  }

  lemma {:induction false} SendCost(tx: seq<Byte>, i: nat, rest: Plan)
    requires i <= |tx| && ValidPlan(rest)
    ensures PlanCost(SendFrom(tx, i, rest)) == (|tx| - i) * (2 * POLL_LIMIT + 2) + PlanCost(rest)
    decreases |tx| - i
  {
    if i < |tx| { SendCost(tx, i + 1, rest); }
  }

  lemma {:induction false} FetchCost(i: nat, n: nat, rest: Plan)
    requires i <= n && ValidPlan(rest)
    ensures PlanCost(FetchFrom(i, n, rest)) == (n - i) * (2 * POLL_LIMIT + 2) + PlanCost(rest)
    decreases n - i
  {
    if i < n { FetchCost(i + 1, n, rest); }
  }

  lemma FinishCost()
    ensures PlanCost(FINISH) == 3 * POLL_LIMIT + 1
  {
    assert PlanCost(End) == 0;
  }

  lemma AddressCost(ph: Phase, address: Byte, rest: Plan)
    requires !ph.cmd.Stop?
    ensures PlanCost(Next(ph, Next(Address(address), rest))) == 2 * (2 * POLL_LIMIT + 2) + PlanCost(rest)
  {
    assert PlanCost(Next(Address(address), rest)) == 2 * POLL_LIMIT + 2 + PlanCost(rest);
  }

  lemma ReadBackCost(slave: Byte, n: nat)
    ensures PlanCost(ReadBack(slave, n)) <= (n + 2) * (2 * POLL_LIMIT + 2) + 3 * POLL_LIMIT + 1
  {
    hide PlanCost;
    FinishCost();
    FetchCost(0, n, FINISH);
    AddressCost(RESTART, AddrRead(slave), FetchFrom(0, n, FINISH));
  }

  /** However the device behaves, `i2c_txrx_buf` is back after this many status reads, recovery included. */
  lemma TxRxPolls(d: Device, h: History, slave: Byte, tx: seq<Byte>, n: nat)
    ensures Polls(Transact(d, h, TxRxPlan(slave, tx, n), []).h) <=
            Polls(h) + 400_002 * (|tx| + n + 4) + 1_000_001
  {
    hide Transact, PlanCost, ReadBack, SendFrom;
    TransactPolls(d, h, TxRxPlan(slave, tx, n), []);
    SendCost(tx, 0, ReadBack(slave, n));
    ReadBackCost(slave, n);
    AddressCost(START, AddrWrite(slave), SendFrom(tx, 0, ReadBack(slave, n)));
  }

  lemma RxPolls(d: Device, h: History, slave: Byte, n: nat)
    ensures Polls(Transact(d, h, RxPlan(slave, n), []).h) <=
            Polls(h) + 400_002 * (n + 2) + 1_000_001
  {
    hide Transact, PlanCost, FetchFrom;
    TransactPolls(d, h, RxPlan(slave, n), []);
    FinishCost();
    FetchCost(0, n, FINISH);
    AddressCost(START, AddrRead(slave), FetchFrom(0, n, FINISH));
  }

  /** A device that shows nothing but zeros. */
  function Dead(): Device { (h, reg) => 0 }

  lemma {:induction false} NeverReady(h: History, n: nat)
    ensures var w := WaitReady(Dead(), h, n); !w.ok && Polls(w.h) == Polls(h) + n
    decreases n
  {
    if n > 0 { NeverReady(Look(Dead(), h), n - 1); }
  }

  /** On such a device a call gives up after exactly 200000 status reads, with nothing issued and nothing aborted. */
  lemma DeadDevice(h: History, slave: Byte, tx: seq<Byte>, n: nat)
    ensures var out := Transact(Dead(), h, TxRxPlan(slave, tx, n), []);
            out.code == 1 && Polls(out.h) == Polls(h) + 200_000 && out.h == WaitReady(Dead(), h, 200_000).h
  {
    hide WaitReady;
    NeverReady(h, POLL_LIMIT);
    Advance(Dead(), h, START, TxRxPlan(slave, tx, n).rest, []);
  }

  // ---------------------------------------------------------------- start-up

  lemma CheckPolls(d: Device, h: History)
    ensures Polls(CheckIdleReady(d, h).h) <= Polls(h) + 2
  {
    assert Polls(Look(d, Look(d, h))) == Polls(h) + 2;
  }

  lemma StopPolls(d: Device, h: History)
    ensures Polls(TryStop(d, h)) <= Polls(h) + 2 * POLL_LIMIT + 3
  {
    hide CheckIdleReady, WaitIdleReady;
    CheckPolls(d, h);
    var cleared := Then(CheckIdleReady(d, h).h, WriteStatus(STICKY));
    assert Polls(CommandStop(d, cleared)) == Polls(cleared) + 1;
    WaitIdleReadyPolls(d, CommandStop(d, cleared), POLL_LIMIT);
  }

  lemma ForcePolls(d: Device, h: History)
    ensures Polls(ForceIdle(d, h)) <= Polls(h) + 6 * POLL_LIMIT + 7
  {
    hide CheckIdleReady, TryStop, WaitIdleReady, AbortPoll;
    CheckPolls(d, h);
    var stopped := TryStop(d, CheckIdleReady(d, h).h);
    StopPolls(d, CheckIdleReady(d, h).h);
    CheckPolls(d, stopped);
    var again := CheckIdleReady(d, stopped);
    AbortPolls(d, Then(again.h, WriteCommand(Encode(Abort))), POLL_LIMIT);
    WaitIdleReadyPolls(d, if again.ok then again.h else AbortToIdle(d, again.h), POLL_LIMIT);
  }

  /** `i2c_init`, with its STOP, its abort and its closing wait. */
  lemma InitPolls(d: Device, h: History, freqKHz: Half, coreMHz: Byte)
    ensures Polls(Init(d, h, freqKHz, coreMHz)) <= Polls(h) + 1_200_007
  {
    hide ForceIdle;
    var h1 := ClearAll(Then(h, WriteDivisor(Divisor(freqKHz, coreMHz))));
    ClearPolls(Then(h, WriteDivisor(Divisor(freqKHz, coreMHz))));
    ForcePolls(d, h1);
    ClearPolls(ForceIdle(d, h1));
  }

  lemma ClearPolls(h: History)
    ensures Polls(ClearAll(h)) == Polls(h)
  {
    assert Polls(Then(h, WriteStatus(STICKY))) == Polls(h);
  }
}
