/**
 `i2c_tx_pkg`: transmit a NUL-terminated string.  The C index is eight bits wide, so after character
 255 the loop is back at character 0 and need not end; `budget` is the number of times the loop head
 has been reached, and a run that uses it up is still sending.
 */
module I2cStrings {
  import opened MachineWords
  import opened I2cRegisters
  import opened I2cProtocol
  import opened I2cTranscript
  import opened I2cTransactions
  import opened I2cGuarantees
  import opened I2cLimits
  import opened I2cDriver

  /** The memory behind the pointer: what the loop may touch exists. */
  ghost predicate Readable(msg: seq<Byte>) { |msg| >= 256 || 0 in msg }

  /** The loop can be at character `i`. */
  ghost predicate At(msg: seq<Byte>, i: nat) {
    i < |msg| && i < 256 && forall j :: 0 <= j < i ==> msg[j] != 0
  }

  function Follower(i: Byte): Byte { LowByte(i + 1) }

  lemma NextAt(msg: seq<Byte>, i: Byte)
    requires Readable(msg) && At(msg, i) && msg[i] != 0
    ensures At(msg, Follower(i))
  {
    if |msg| < 256 {
      var p :| 0 <= p < |msg| && msg[p] == 0;
      assert p > i;
    }
  }

  ghost function StringFrom(msg: seq<Byte>, i: Byte, budget: nat): (plan: Plan)
    requires Readable(msg) && At(msg, i)
    ensures ValidPlan(plan)
    decreases budget
  {
    if budget == 0 then End
    else if msg[i] == 0 then FINISH
    else
      NextAt(msg, i);
      Next(Datum(msg, i), StringFrom(msg, Follower(i), budget - 1))
  }

  ghost predicate StillSending(msg: seq<Byte>, i: Byte, budget: nat)
    requires Readable(msg) && At(msg, i)
    decreases budget
  {
    budget == 0 || (msg[i] != 0 && (NextAt(msg, i); StillSending(msg, Follower(i), budget - 1)))
  }

  lemma AtStart(msg: seq<Byte>)
    requires Readable(msg)
    ensures At(msg, 0)
  {
  }

  ghost function StringPlan(slave: Byte, msg: seq<Byte>, budget: nat): (plan: Plan)
    requires Readable(msg)
    ensures ValidPlan(plan)
  {
    AtStart(msg);
    Addressed(AddrWrite(slave), StringFrom(msg, 0, budget))
  }

  method TxPkg(bus: Bus, slave: Byte, msg: array?<Byte>, budget: nat) returns (code: Byte, finished: bool)
    requires msg != null ==> Readable(msg[..])
    modifies bus
    ensures msg == null ==> finished && code == ERR_CMD && bus.history == old(bus.history)
    ensures msg != null ==>
      && Outcome(bus.history, code, []) ==
         Transact(bus.device, old(bus.history), StringPlan(slave, msg[..], budget), [])
      && (finished <==> code != TX_OK || !StillSending(msg[..], 0, budget))
  {
    hide Transact, StringFrom, StillSending, NackCode, Readable;
    if msg == null { return ERR_CMD, true; }
    ghost var text := msg[..];
    AtStart(text);
    ghost var goal := Transact(bus.device, bus.history, StringPlan(slave, text, budget), []);
    ghost var body := StringFrom(text, 0, budget);
    var ok := bus.StartPhase(Next(Address(AddrWrite(slave)), body), goal);
    if !ok { return ERR_CMD, true; }
    code := bus.SendOrAbort(AddrWrite(slave), ERR_ADDR_NACK, body, goal);
    if code != TX_OK { return code, true; }
    var i: Byte, left: nat := 0, budget;
    while left > 0
      invariant msg[..] == text && At(text, i)
      invariant bus.Pending(StringFrom(text, i, left), [], goal)
      invariant StillSending(text, i, left) == StillSending(text, 0, budget)
    {
      OneCharacter(text, i, left);
      var c := msg[i];
      if c == 0 {
        ok := bus.StopPhase([], goal);
        return if ok then TX_OK else ERR_CMD, true;
      }
      code := bus.SendOrAbort(c, NackCode(i), StringFrom(text, Follower(i), left - 1), goal);
      if code != TX_OK { return code, true; }
      i := Follower(i);
      left := left - 1;
    }
    OutOfRounds(bus.device, bus.history, text, i, []);
    return TX_OK, false;
  }

  /** A run of the loop that has used up its rounds is still sending, and has left everything as it is. */
  lemma OutOfRounds(d: Device, h: History, msg: seq<Byte>, i: Byte, got: seq<Byte>)
    requires Readable(msg) && At(msg, i)
    ensures StillSending(msg, i, 0) && Transact(d, h, StringFrom(msg, i, 0), got) == Outcome(h, TX_OK, got)
  {
  }

  /** The terminator sits at `k`, within reach of the eight-bit index. */
  ghost predicate EndsAt(msg: seq<Byte>, k: nat) {
    k < |msg| && k < 256 && msg[k] == 0 && forall j :: 0 <= j < k ==> msg[j] != 0
  }

  /** With its terminator at index 255 or below, a string is sent exactly as a buffer of its length is. */
  lemma StringIsBuffer(slave: Byte, msg: seq<Byte>, k: nat, budget: nat)
    requires EndsAt(msg, k) && budget > k
    ensures Readable(msg) && StringPlan(slave, msg, budget) == TxPlan(slave, msg[..k])
    ensures !StillSending(msg, 0, budget)
  {
    assert msg[k] in msg;
    SameFrom(msg, k, 0, budget);
  }

  lemma {:induction false} SameFrom(msg: seq<Byte>, k: nat, i: Byte, budget: nat)
    requires Readable(msg) && EndsAt(msg, k) && i <= k && budget > k - i
    ensures At(msg, i)
    ensures StringFrom(msg, i, budget) == SendFrom(msg[..k], i, FINISH) && !StillSending(msg, i, budget)
    decreases budget
  {
    hide EndsAt, At, Readable, StringFrom, StillSending, SendFrom, Follower;
    AtBefore(msg, k, i);
    OneCharacter(msg, i, budget);
    SendStep(msg[..k], i, FINISH);
    if i < k {
      AtBefore(msg, k, i + 1);
      SameFrom(msg, k, i + 1, budget - 1);
      assert Datum(msg, i) == Datum(msg[..k], i);
    }
  }

  lemma OneCharacter(msg: seq<Byte>, i: Byte, budget: nat)
    requires Readable(msg) && At(msg, i) && budget > 0
    ensures msg[i] == 0 ==> StringFrom(msg, i, budget) == FINISH && !StillSending(msg, i, budget)
    ensures msg[i] != 0 ==>
              && At(msg, Follower(i)) && (i < 255 ==> Follower(i) == i + 1)
              && StringFrom(msg, i, budget) == Next(Datum(msg, i), StringFrom(msg, Follower(i), budget - 1))
              && StillSending(msg, i, budget) == StillSending(msg, Follower(i), budget - 1)
  {
    if msg[i] != 0 { NextAt(msg, i); }
  }

  lemma AtBefore(msg: seq<Byte>, k: nat, i: nat)
    requires EndsAt(msg, k) && i <= k
    ensures At(msg, i) && k < |msg| && k < 256 && (msg[i] == 0 <==> i == k)
  {
  }

  ghost predicate StringSuccessMeansAcked(slave: Byte, msg: seq<Byte>, budget: nat)
    requires Readable(msg)
  {
    forall d: Device, h: History ::
      var out := Transact(d, h, StringPlan(slave, msg, budget), []);
      Quiet(h) && out.code == TX_OK ==> AllAcked(Since(h, out.h))
  }

  /** For strings too, success means that every character was acknowledged exactly up to 253 of them. */
  lemma StringAckedIffShort(slave: Byte, msg: seq<Byte>, k: nat, budget: nat)
    requires EndsAt(msg, k) && budget > k
    ensures Readable(msg) && (StringSuccessMeansAcked(slave, msg, budget) <==> k <= 253)
  {
    hide Transact, StringPlan, TxRxPlan, TxPlan;
    StringIsBuffer(slave, msg, k, budget);
    TxIsTxRxWithoutRead(slave, msg[..k]);
    AckedIffShort(slave, msg[..k], 0);
  }

  lemma {:induction false} NeverEnds(msg: seq<Byte>, i: Byte, budget: nat)
    requires |msg| >= 256 && (forall j :: 0 <= j < 256 ==> msg[j] != 0) && At(msg, i)
    ensures StillSending(msg, i, budget)
    decreases budget
  {
    if budget > 0 {
      NextAt(msg, i);
      NeverEnds(msg, Follower(i), budget - 1);
    }
  }

  /** On a device that acknowledges everything no string is ever broken off. */
  lemma {:induction false} SentForEver(h: History, msg: seq<Byte>, i: Byte, budget: nat)
    requires Readable(msg) && At(msg, i) && Underway(h)
    ensures Transact(Scripted(-1), h, StringFrom(msg, i, budget), []).code == TX_OK
    decreases budget
  {
    hide RunPhase, Transact, Scripted, ViewOf;
    if budget == 0 {
      OutOfRounds(Scripted(-1), h, msg, i, []);
    } else if msg[i] == 0 {
      ScriptedFinish(-1, h, []);
    } else {
      NextAt(msg, i);
      ScriptedWrite(-1, h, msg[i], NackCode(i));
      Advance(Scripted(-1), h, Datum(msg, i), StringFrom(msg, Follower(i), budget - 1), []);
      SentForEver(RunPhase(Scripted(-1), h, Datum(msg, i)).h, msg, Follower(i), budget - 1);
    }
  }

  /** The call has returned by the time the loop head has been reached `budget` times. */
  ghost predicate Returns(d: Device, h: History, slave: Byte, msg: seq<Byte>, budget: nat)
    requires Readable(msg)
  {
    AtStart(msg);
    Transact(d, h, StringPlan(slave, msg, budget), []).code != TX_OK || !StillSending(msg, 0, budget)
  }

  /** The characters the loop has got through, wrapped round as its index is. */
  ghost function Walked(msg: seq<Byte>, i: Byte, budget: nat): seq<Byte>
    requires Readable(msg) && At(msg, i)
    decreases budget
  {
    if budget == 0 || msg[i] == 0 then []
    else
      NextAt(msg, i);
      [msg[i]] + Walked(msg, Follower(i), budget - 1)
  }

  lemma {:induction false} WalkedFrom(d: Device, h: History, msg: seq<Byte>, i: Byte, budget: nat,
                                      tx: seq<Byte>, j: nat, got: seq<Byte>)
    requires Readable(msg) && At(msg, i) && j <= |tx| && i == LowByte(j) && tx[j..] == Walked(msg, i, budget)
    requires Transact(d, h, StringFrom(msg, i, budget), got).code != TX_OK || !StillSending(msg, i, budget)
    ensures Transact(d, h, StringFrom(msg, i, budget), got) == Transact(d, h, SendFrom(tx, j, FINISH), got)
    decreases budget
  {
    hide Readable, StringFrom, StillSending, SendFrom, RunPhase, Transact, Walked;
    SendStep(tx, j, FINISH);
    WalkedOne(msg, i, budget);
    if budget == 0 {
      OutOfRounds(d, h, msg, i, got);
      assert false;
    } else if msg[i] == 0 {
      OneCharacter(msg, i, budget);
    } else {
      OneCharacter(msg, i, budget);
      var ph := Datum(msg, i);
      assert tx[j] == tx[j..][0] && tx[j + 1..] == tx[j..][1..];
      SameCode(i, j);
      assert ph == Datum(tx, j);
      Advance(d, h, ph, StringFrom(msg, Follower(i), budget - 1), got);
      Advance(d, h, ph, SendFrom(tx, j + 1, FINISH), got);
      var s := RunPhase(d, h, ph);
      if s.code == TX_OK { WalkedFrom(d, s.h, msg, Follower(i), budget - 1, tx, j + 1, got + s.rx); }
    }
  }

  lemma SameCode(i: Byte, j: nat)
    requires i == LowByte(j)
    ensures NackCode(i) == NackCode(j) && Follower(i) == LowByte(j + 1)
  {
    hide LowByte;
    var q := j / 0x100;
    assert j == 0x100 * q + i by { LowByteIs(j, i); }
    WholeTurns(q, i + 3);
    WholeTurns(q, i + 1);
  }

  lemma LowByteIs(j: nat, i: Byte)
    requires i == LowByte(j)
    ensures j == 0x100 * (j / 0x100) + i
  {
  }

  lemma WholeTurns(q: nat, x: nat)
    ensures LowByte(0x100 * q + x) == LowByte(x)
  {
  }

  lemma WalkedOne(msg: seq<Byte>, i: Byte, budget: nat)
    requires Readable(msg) && At(msg, i)
    ensures budget == 0 || msg[i] == 0 ==> Walked(msg, i, budget) == []
    ensures budget > 0 && msg[i] != 0 ==>
              At(msg, Follower(i)) && Walked(msg, i, budget) == [msg[i]] + Walked(msg, Follower(i), budget - 1)
  {
    if msg[i] != 0 { NextAt(msg, i); }
  }

  /**
   A string call that returns, terminated or broken off, has done what sending the buffer of the
   characters it got through would have done.
   */
  lemma ReturnedIsBuffer(d: Device, h: History, slave: Byte, msg: seq<Byte>, budget: nat)
    requires Readable(msg) && Returns(d, h, slave, msg, budget)
    ensures At(msg, 0)
    ensures Transact(d, h, StringPlan(slave, msg, budget), [])
         == Transact(d, h, TxPlan(slave, Walked(msg, 0, budget)), [])
  {
    hide StringFrom, StillSending, SendFrom, RunPhase, Transact, Walked;
    AtStart(msg);
    var tx, address := Walked(msg, 0, budget), AddrWrite(slave);
    var text, data := StringFrom(msg, 0, budget), SendFrom(tx, 0, FINISH);
    Advance(d, h, START, Next(Address(address), text), []);
    Advance(d, h, START, Next(Address(address), data), []);
    var s := RunPhase(d, h, START);
    if s.code == TX_OK {
      Advance(d, s.h, Address(address), text, []);
      Advance(d, s.h, Address(address), data, []);
      var t := RunPhase(d, s.h, Address(address));
      if t.code == TX_OK { WalkedFrom(d, t.h, msg, 0, budget, tx, 0, []); }
    }
  }

  ghost predicate AlwaysReturns(slave: Byte, msg: seq<Byte>, budget: nat)
    requires Readable(msg)
  {
    forall d: Device, h: History :: Returns(d, h, slave, msg, budget)
  }

  /** The call returns, whatever the device does, exactly when there is a NUL at index 255 or below. */
  lemma ReturnsIffTerminated(slave: Byte, msg: seq<Byte>)
    requires Readable(msg)
    ensures (exists budget: nat :: AlwaysReturns(slave, msg, budget))
       <==> (exists k: nat :: EndsAt(msg, k))
  {
    hide Transact, Scripted;
    if k: nat :| EndsAt(msg, k) {
      StringIsBuffer(slave, msg, k, k + 1);
      assert AlwaysReturns(slave, msg, k + 1);
    } else {
      NoneIsNull(msg);
      forall budget: nat
        ensures !AlwaysReturns(slave, msg, budget)
      {
        AtStart(msg);
        NeverEnds(msg, 0, budget);
        var h := ScriptedOpening(-1, AddrWrite(slave), StringFrom(msg, 0, budget));
        SentForEver(h, msg, 0, budget);
        assert !Returns(Scripted(-1), Boot, slave, msg, budget);
      }
    }
  }

  lemma NoneIsNull(msg: seq<Byte>)
    requires Readable(msg) && !exists k: nat :: EndsAt(msg, k)
    ensures |msg| >= 256 && forall j :: 0 <= j < 256 ==> msg[j] != 0
  {
    if 0 in msg[..if |msg| < 256 then |msg| else 256] {
      var p :| 0 <= p < |msg| && p < 256 && msg[p] == 0;
      FirstNull(msg, p);
    }
  }

  lemma {:induction false} FirstNull(msg: seq<Byte>, p: nat)
    requires p < |msg| && p < 256 && msg[p] == 0
    ensures exists k: nat :: EndsAt(msg, k)
    decreases p
  {
    if j :| 0 <= j < p && msg[j] == 0 {
      FirstNull(msg, j);
    } else {
      assert EndsAt(msg, p);
    }
  }
}
