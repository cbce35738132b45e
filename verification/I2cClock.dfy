/**
 The clock divisor: the value computed for a requested bus frequency, what the engine makes of it, and what
 the driver's calls leave in the register.
 */
module I2cClock {
  import opened MachineWords
  import opened I2cRegisters
  import opened I2cProtocol
  import opened I2cSessions
  import opened I2cHandshake
  import Text = I2cStrings

  /**
   The formula of `i2c_set_divisor`: the programmed value is the least d with core <= 4 d f, for all nonzero
   inputs; it fits sixteen bits, so the upper clamp never acts.
   */
  lemma DivisorIsLeast(freqKHz: Half, coreMHz: Byte, d: nat)
    requires freqKHz != 0 && coreMHz != 0
    ensures coreMHz * 1000 <= 4 * freqKHz * d <==> Divisor(freqKHz, coreMHz) <= d
    ensures 1 <= Divisor(freqKHz, coreMHz) <= 63750
  {
    var n, m := coreMHz * 1000, 4 * freqKHz;
    var q := (n + m - 1) / m;
    CeilingBounds(n, m);
    assert q <= 63750 by { CeilingAtMost(n, m); }
    if d >= q { Scale(m, q, d); } else { Scale(m, d, q - 1); }
  }

  /** The engine counts each quarter of a bit from 0 to its divisor inclusive, and takes 0 for 1. */
  function BitClocks(divisor: nat): nat { 4 * ((if divisor < 1 then 1 else divisor) + 1) }

  /** With this divisor the bus does not run faster than requested. */
  predicate Respects(freqKHz: Half, coreMHz: Byte, divisor: nat) { coreMHz * 1000 <= freqKHz * BitClocks(divisor) }

  /**
   On the engine the programmed divisor never exceeds the requested frequency, but it is one more than
   needed whenever it is not 1: the divisors that respect the request are those from the one before it on.
   */
  lemma DivisorOnEngine(freqKHz: Half, coreMHz: Byte, d: nat)
    requires freqKHz != 0 && coreMHz != 0
    ensures Respects(freqKHz, coreMHz, Divisor(freqKHz, coreMHz))
    ensures d >= 1 ==> (Respects(freqKHz, coreMHz, d) <==> Divisor(freqKHz, coreMHz) <= d + 1)
  {
    var k := Divisor(freqKHz, coreMHz);
    Quarters(freqKHz, k);
    Quarters(freqKHz, d);
    DivisorIsLeast(freqKHz, coreMHz, k + 1);
    DivisorIsLeast(freqKHz, coreMHz, d + 1);
  }

  lemma Quarters(freqKHz: Half, d: nat)
    ensures d >= 1 ==> freqKHz * BitClocks(d) == 4 * freqKHz * (d + 1)
  {
  }

  ghost predicate IsLeast(freqKHz: Half, coreMHz: Byte, divisor: nat) {
    Respects(freqKHz, coreMHz, divisor) && forall d: nat :: 1 <= d < divisor ==> !Respects(freqKHz, coreMHz, d)
  }

  /** So it is the least exactly when it is 1. */
  lemma LeastIffOne(freqKHz: Half, coreMHz: Byte)
    requires freqKHz != 0 && coreMHz != 0
    ensures IsLeast(freqKHz, coreMHz, Divisor(freqKHz, coreMHz)) <==> Divisor(freqKHz, coreMHz) == 1
  {
    hide Divisor, Respects;
    var k := Divisor(freqKHz, coreMHz);
    DivisorIsLeast(freqKHz, coreMHz, 0);
    DivisorOnEngine(freqKHz, coreMHz, k);
    if k > 1 { DivisorOnEngine(freqKHz, coreMHz, k - 1); }
  }

  /** At 50 MHz and 100 kHz the code programs 125, where 124 gives 100 kHz exactly. */
  lemma AnExample()
    ensures Divisor(100, 50) == 125 && 100 * BitClocks(124) == 50 * 1000
  {
  }

  // ---------------------------------------------------------------- what is in the register

  /** The last value written to DIVISOR; at reset it is 1. */
  function Programmed(h: History): Half {
    match h
    case Boot => 1
    case Then(past, WriteDivisor(divisor)) => divisor
    case Then(past, _) => Programmed(past)
  }

  /** The register holds the least d with core <= 4 d f, and 1 for a request that makes no sense. */
  ghost predicate Suits(divisor: Half, freqKHz: Half, coreMHz: Byte) {
    if freqKHz == 0 || coreMHz == 0 then divisor == 1
    else forall d: nat :: coreMHz * 1000 <= 4 * freqKHz * d <==> divisor <= d
  }

  lemma {:induction false} PolledKeeps(h: History, h1: History)
    requires Polled(h, h1)
    ensures Programmed(h1) == Programmed(h)
    decreases h1
  {
    if h1 != h { PolledKeeps(h, h1.past); }
  }

  lemma PhaseKeeps(d: Device, h: History, ph: Phase)
    requires ValidPhase(ph)
    ensures Programmed(RunPhase(d, h, ph).h) == Programmed(h)
  {
    hide WaitReady, WaitCycle, WaitIdleReady, Polled, Encode;
    var w := WaitReady(d, h, POLL_LIMIT).h;
    WaitReadyPolled(d, h, POLL_LIMIT);
    PolledKeeps(h, w);
    var staged := Stage(Then(w, WriteStatus(STICKY)), ph.cmd);
    assert Programmed(staged) == Programmed(h) == Programmed(Look(d, staged));
    var issued := Then(Look(d, staged), WriteCommand(Encode(ph.cmd)));
    WaitCyclePolled(d, issued, POLL_LIMIT);
    WaitReadyPolled(d, issued, POLL_LIMIT);
    WaitIdleReadyPolled(d, issued, POLL_LIMIT);
    PolledKeeps(issued, WaitCycle(d, issued, POLL_LIMIT).h);
    PolledKeeps(issued, WaitReady(d, issued, POLL_LIMIT).h);
    PolledKeeps(issued, WaitIdleReady(d, issued, POLL_LIMIT).h);
  }

  lemma AbortKeeps(d: Device, h: History)
    ensures Programmed(AbortToIdle(d, h)) == Programmed(h)
  {
    hide AbortPoll, Polled, Encode;
    var aborted := Then(h, WriteCommand(Encode(Abort)));
    AbortPolled(d, aborted, POLL_LIMIT);
    PolledKeeps(aborted, AbortToIdle(d, h));
  }

  /** No transaction touches the divisor. */
  lemma {:induction false} TransactKeeps(d: Device, h: History, plan: Plan, got: seq<Byte>)
    requires ValidPlan(plan)
    ensures Programmed(Transact(d, h, plan, got).h) == Programmed(h)
    decreases plan
  {
    hide RunPhase, AbortToIdle, Programmed;
    if plan.Next? {
      PhaseKeeps(d, h, plan.phase);
      var s := RunPhase(d, h, plan.phase);
      if s.code == TX_OK {
        TransactKeeps(d, s.h, plan.rest, got + s.rx);
      } else {
        AbortKeeps(d, s.h);
      }
    }
  }

  lemma ForceKeeps(d: Device, h: History)
    ensures Programmed(ForceIdle(d, h)) == Programmed(h)
  {
    hide WaitIdleReady, AbortToIdle, CheckIdleReady, Polled, Encode;
    var settled := CheckIdleReady(d, h).h;
    CheckPolled(d, h);
    PolledKeeps(h, settled);
    var check := CheckIdleReady(d, settled).h;
    CheckPolled(d, settled);
    PolledKeeps(settled, check);
    var stopping := CommandStop(d, Then(check, WriteStatus(STICKY)));
    assert Programmed(Look(d, Then(check, WriteStatus(STICKY)))) == Programmed(check);
    IdleKeeps(d, stopping);
    var stopped := TryStop(d, settled);
    var again := CheckIdleReady(d, stopped);
    CheckPolled(d, stopped);
    PolledKeeps(stopped, again.h);
    AbortKeeps(d, again.h);
    IdleKeeps(d, if again.ok then again.h else AbortToIdle(d, again.h));
  }

  lemma IdleKeeps(d: Device, h: History)
    ensures Programmed(WaitIdleReady(d, h, POLL_LIMIT).h) == Programmed(h)
  {
    hide WaitIdleReady, Polled;
    WaitIdleReadyPolled(d, h, POLL_LIMIT);
    PolledKeeps(h, WaitIdleReady(d, h, POLL_LIMIT).h);
  }

  lemma ClearKeeps(h: History)
    ensures Programmed(ClearAll(h)) == Programmed(h)
  {
    assert Programmed(Then(h, WriteStatus(STICKY))) == Programmed(h);
  }

  /** `i2c_init` programs the clock: on every device, whatever was in the register and whatever the recovery does. */
  lemma InitPrograms(d: Device, h: History, freqKHz: Half, coreMHz: Byte)
    ensures Suits(Programmed(Init(d, h, freqKHz, coreMHz)), freqKHz, coreMHz)
  {
    hide Divisor, ForceIdle, ClearAll;
    var divisor := Divisor(freqKHz, coreMHz);
    var chosen := Then(h, WriteDivisor(divisor));
    ClearKeeps(chosen);
    ForceKeeps(d, ClearAll(chosen));
    ClearKeeps(ForceIdle(d, ClearAll(chosen)));
    if freqKHz == 0 || coreMHz == 0 {
      NoRequest(freqKHz, coreMHz);
    } else {
      forall k: nat ensures coreMHz * 1000 <= 4 * freqKHz * k <==> divisor <= k { DivisorIsLeast(freqKHz, coreMHz, k); }
    }
  }

  lemma NoRequest(freqKHz: Half, coreMHz: Byte)
    requires freqKHz == 0 || coreMHz == 0
    ensures Divisor(freqKHz, coreMHz) == 1
  {
  }

  lemma CallPrograms(d: Device, h: History, call: Call)
    requires Returns(d, h, call)
    ensures var divisor := Programmed(RunCall(d, h, call));
            if call.Setup? then Suits(divisor, call.freqKHz, call.coreMHz) else divisor == Programmed(h)
  {
    hide Init, Transact, Suits, Text.StringPlan;
    match call
    case Setup(freqKHz, coreMHz) => InitPrograms(d, h, freqKHz, coreMHz);
    case TxString(slave, msg, budget) => TransactKeeps(d, h, Text.StringPlan(slave, msg, budget), []);
    case Tx(slave, tx) => TransactKeeps(d, h, TxPlan(slave, tx), []);
    case Rx(slave, n) => TransactKeeps(d, h, RxPlan(slave, n), []);
    case TxRx(slave, tx, n) => TransactKeeps(d, h, TxRxPlan(slave, tx, n), []);
  }

  /** Call number `k` is the last `i2c_init` of the session. */
  predicate LastSetup(calls: seq<Call>, k: nat) {
    k < |calls| && calls[k].Setup? && forall i :: k < i < |calls| ==> !calls[i].Setup?
  }

  /**
   After any session, on every device, the register suits the last `i2c_init`, and with none it is what it
   was: no other call changes the clock.
   */
  lemma {:induction false} SessionClock(d: Device, h: History, calls: seq<Call>)
    requires AllReturn(d, h, calls)
    ensures var divisor := Programmed(RunCalls(d, h, calls));
            && (forall k: nat :: LastSetup(calls, k) ==> Suits(divisor, calls[k].freqKHz, calls[k].coreMHz))
            && ((forall i :: 0 <= i < |calls| ==> !calls[i].Setup?) ==> divisor == Programmed(h))
    decreases |calls|
  {
    hide RunCall, Suits, Programmed;
    if calls != [] {
      var h1, rest := RunCall(d, h, calls[0]), calls[1..];
      CallPrograms(d, h, calls[0]);
      SessionClock(d, h1, rest);
      forall k: nat | LastSetup(calls, k)
        ensures Suits(Programmed(RunCalls(d, h, calls)), calls[k].freqKHz, calls[k].coreMHz)
      {
        if k == 0 {
          assert forall i :: 0 <= i < |rest| ==> rest[i] == calls[i + 1];
        } else {
          assert LastSetup(rest, k - 1) && rest[k - 1] == calls[k];
        }
      }
      assert forall i :: 0 <= i < |rest| ==> rest[i] == calls[i + 1];
    }
  }

  lemma CeilingBounds(n: int, m: int)
    requires n > 0 && m > 0
    ensures var q := (n + m - 1) / m; q >= 1 && m * (q - 1) < n <= m * q
  {
    var q := (n + m - 1) / m;
    assert n + m - 1 == m * q + (n + m - 1) % m;
    assert q >= 1 by { if q <= 0 { Scale(m, q, 0); } }
  }

  lemma CeilingAtMost(n: int, m: int)
    requires 0 < n <= 255_000 && m >= 4
    ensures (n + m - 1) / m <= 63750
  {
    CeilingBounds(n, m);
    var q := (n + m - 1) / m;
    NonNegative(m - 4, q - 1);
    assert (m - 4) * (q - 1) == m * (q - 1) - 4 * (q - 1);
  }

  lemma Scale(m: int, a: int, b: int)
    requires m > 0 && a <= b
    ensures m * a <= m * b
  {
    NonNegative(m, b - a);
    assert m * (b - a) == m * b - m * a;
  }

  lemma NonNegative(m: nat, k: nat)
    ensures m * k >= 0
  {
  }
}
