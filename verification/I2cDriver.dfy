/**
 The I2C driver itself: polling loops and register writes against a volatile register port.
 Each method is proved to leave the port exactly where the functions of `I2cProtocol` say.
 */
module I2cDriver {
  import opened MachineWords
  import opened I2cRegisters
  import P = I2cProtocol

  /** The memory-mapped register block: a device, and everything software has done to it. */
  class Bus {
    const device: Device
    var history: History

    constructor (device: Device)
      ensures this.device == device && history == Boot
    {
      this.device := device;
      history := Boot;
    }

    method GetStatus() returns (w: Word)
      modifies this
      ensures w == P.Seen(device, old(history)) && history == P.Look(device, old(history))
    {
      w := device(history, STATUS);
      history := Then(history, ReadStatus(w));
    }

    method ReadRxData() returns (b: Byte)
      modifies this
      ensures b == LowByte(device(old(history), RXDATA))
      ensures history == Then(old(history), ReadRx(device(old(history), RXDATA)))
    {
      var w := device(history, RXDATA);
      history := Then(history, ReadRx(w));
      b := LowByte(w);
    }

    method Put(access: Access)
      requires !access.ReadStatus? && !access.ReadRx?
      modifies this
      ensures history == Then(old(history), access)
    {
      history := Then(history, access);
    }

    method WriteCmdRaw(code: Byte, abort: bool, rdLast: bool)
      modifies this
      ensures history == Then(old(history), WriteCommand(Pack(code, abort, rdLast)))
    {
      Put(WriteCommand(Pack(code, abort, rdLast)));
    }

    method CmdReady() returns (ready: bool)
      modifies this
      ensures ready == Ready(P.Seen(device, old(history))) && history == P.Look(device, old(history))
    {
      var w := GetStatus();
      ready := Ready(w);
    }

    method Idle() returns (idle: bool)
      modifies this
      ensures idle == BusIdle(P.Seen(device, old(history))) && history == P.Look(device, old(history))
    {
      var w := GetStatus();
      idle := BusIdle(w);
    }

    // -------------------------------------------------------------- waits

    method WaitCmdReady() returns (ok: bool)
      modifies this
      ensures P.Wait(history, ok) == P.WaitReady(device, old(history), P.POLL_LIMIT)
    {
      var i := 0;
      while i < P.POLL_LIMIT
        invariant i <= P.POLL_LIMIT
        invariant P.WaitReady(device, history, P.POLL_LIMIT - i)
               == P.WaitReady(device, old(history), P.POLL_LIMIT)
      {
        var ready := CmdReady();
        if ready { return true; }
        i := i + 1;
      }
      return false;
    }

    method WaitIdleReady() returns (ok: bool)
      modifies this
      ensures P.Wait(history, ok) == P.WaitIdleReady(device, old(history), P.POLL_LIMIT)
    {
      var i := 0;
      while i < P.POLL_LIMIT
        invariant i <= P.POLL_LIMIT
        invariant P.WaitIdleReady(device, history, P.POLL_LIMIT - i)
               == P.WaitIdleReady(device, old(history), P.POLL_LIMIT)
      {
        var ready := CmdReady();
        if ready {
          var idle := Idle();
          if idle { return true; }
        }
        i := i + 1;
      }
      return false;
    }

    method WaitCmdCycle() returns (ok: bool)
      modifies this
      ensures P.Wait(history, ok) == P.WaitCycle(device, old(history), P.POLL_LIMIT)
    {
      var i := 0;
      while i < P.POLL_LIMIT
        invariant i <= P.POLL_LIMIT
        invariant P.WaitCycle(device, history, P.POLL_LIMIT - i)
               == P.WaitCycle(device, old(history), P.POLL_LIMIT)
      {
        var status := GetStatus();
        if CmdIllegal(status) { return false; }
        if Done(status) { return true; }
        i := i + 1;
      }
      return false;
    }

    method AbortToIdle()
      modifies this
      ensures history == P.AbortToIdle(device, old(history))
    {
      WriteCmdRaw(CODE_START, true, false);
      hide P.AbortPoll, BusIdle, Ready;
      var i := 0;
      while i < P.POLL_LIMIT
        invariant i <= P.POLL_LIMIT
        invariant P.AbortPoll(device, history, P.POLL_LIMIT - i) == P.AbortToIdle(device, old(history))
      {
        P.AbortRound(device, history, P.POLL_LIMIT - i);
        var idle := Idle();
        if idle {
          var ready := CmdReady();
          if ready { return; }
        }
        i := i + 1;
      }
      P.AbortDone(device, history);
    }

    // -------------------------------------------------------------- start-up

    method CheckIdleReady() returns (ok: bool)
      modifies this
      ensures P.Wait(history, ok) == P.CheckIdleReady(device, old(history))
    {
      ok := CmdReady();
      if ok { ok := Idle(); }
    }

    method ForceIdle()
      modifies this
      ensures history == P.ForceIdle(device, old(history))
    {
      var ok := CheckIdleReady();
      if ok { return; }
      TryStop();
      ok := CheckIdleReady();
      if !ok { AbortToIdle(); }
      var _ := WaitIdleReady();
    }

    method TryStop()
      modifies this
      ensures history == P.TryStop(device, old(history))
    {
      var ready := CmdReady();
      if ready {
        var idle := Idle();
        if !idle {
          Put(WriteStatus(STICKY));
          var accepting := CmdReady();
          if accepting { WriteCmdRaw(CODE_STOP, false, false); }
          var _ := WaitIdleReady();
        }
      }
    }

    method SetDivisor(freqKHz: Half, coreMHz: Byte)
      modifies this
      ensures history == Then(old(history), WriteDivisor(P.Divisor(freqKHz, coreMHz)))
    {
      if freqKHz == 0 || coreMHz == 0 {
        Put(WriteDivisor(1));
        return;
      }
      var numerator: Word := coreMHz * 1000;
      var denominator: Word := 4 * freqKHz;
      var sum: Word := numerator + denominator - 1;
      var divisor: Word := sum / denominator;
      if divisor < 1 { divisor := 1; }
      if divisor > 0xFFFF { divisor := 0xFFFF; }
      Put(WriteDivisor(divisor));
    }

    method Init(freqKHz: Half, coreMHz: Byte)
      modifies this
      ensures history == P.Init(device, old(history), freqKHz, coreMHz)
    {
      SetDivisor(freqKHz, coreMHz);
      Put(WriteStatus(STICKY));
      Put(WriteFault(ALL_FAULTS));
      ForceIdle();
      Put(WriteStatus(STICKY));
      Put(WriteFault(ALL_FAULTS));
    }

    // -------------------------------------------------------------- phases

    method WritePhaseByte(data: Byte, nackCode: Byte) returns (code: Byte)
      modifies this
      ensures var s := P.RunPhase(device, old(history), P.Phase(Write(data), nackCode));
              history == s.h && code == s.code
    {
      var ok := WaitCmdReady();
      if !ok { return ERR_CMD; }
      Put(WriteStatus(STICKY));
      Put(WriteTx(data));
      ok := CmdReady();
      if !ok { return ERR_CMD; }
      WriteCmdRaw(CODE_WR, false, false);
      ok := WaitCmdCycle();
      if !ok { return ERR_CMD; }
      var status := GetStatus();
      if !AckValid(status) { return ERR_CMD; }
      if AckHigh(status) { return nackCode; }
      return TX_OK;
    }

    method ReadPhaseByte(last: bool) returns (ok: bool, data: Byte)
      modifies this
      ensures var s := P.RunPhase(device, old(history), P.Phase(Read(last), ERR_CMD));
              history == s.h && ok == (s.code == TX_OK) && s.rx == if ok then [data] else []
    {
      data := 0;
      ok := WaitCmdReady();
      if !ok { return; }
      Put(WriteStatus(STICKY));
      ok := CmdReady();
      if !ok { return; }
      WriteCmdRaw(CODE_RD, false, last);
      ok := WaitCmdCycle();
      if !ok { return; }
      var status := GetStatus();
      ok := ReadValid(status);
      if ok { data := ReadRxData(); }
    }

    /** START or RESTART: the command must bring the engine back ready, with the bus held. */
    method FramePhase(cmd: Cmd) returns (issued: bool, ok: bool)
      requires cmd.Start? || cmd.Restart?
      modifies this
      ensures var s := P.RunPhase(device, old(history), P.Phase(cmd, ERR_CMD));
              history == s.h && issued == s.issued && s.code == if ok then TX_OK else ERR_CMD
    {
      issued := false;
      ok := WaitCmdReady();
      if !ok { return; }
      Put(WriteStatus(STICKY));
      ok := CmdReady();
      if !ok { return; }
      issued := true;
      WriteCmdRaw(if cmd.Start? then CODE_START else CODE_RESTART, false, false);
      ok := WaitCmdReady();
      if !ok { return; }
      var idle := Idle();
      ok := !idle;
    }

    method StopPhaseOnly() returns (ok: bool)
      modifies this
      ensures var s := P.RunPhase(device, old(history), P.STOP);
              history == s.h && s.code == if ok then TX_OK else ERR_CMD
    {
      ok := WaitCmdReady();
      if !ok { return; }
      Put(WriteStatus(STICKY));
      ok := CmdReady();
      if !ok { return; }
      WriteCmdRaw(CODE_STOP, false, false);
      ok := WaitIdleReady();
    }

    // Below, `goal` is the outcome the whole transaction is to have, and the pending plan is
    // what is left of it: each step either consumes one phase, or aborts and leaves the goal reached.

    ghost predicate Pending(plan: P.Plan, got: seq<Byte>, goal: P.Outcome)
      requires P.ValidPlan(plan)
      reads this
    {
      P.Transact(device, history, plan, got) == goal
    }

    ghost predicate Reached(code: Byte, got: seq<Byte>, goal: P.Outcome)
      reads this
    {
      goal == P.Outcome(history, code, got)
    }

    /** Nothing is aborted if START was never issued. */
    method StartPhase(ghost rest: P.Plan, ghost goal: P.Outcome) returns (ok: bool)
      requires P.ValidPlan(rest) && Pending(P.Next(P.START, rest), [], goal)
      modifies this
      ensures if ok then Pending(rest, [], goal) else Reached(ERR_CMD, [], goal)
    {
      hide P.RunPhase;
      P.Advance(device, history, P.START, rest, []);
      var issued;
      issued, ok := FramePhase(Start);
      if issued && !ok { AbortToIdle(); }
    }

    method RestartPhase(ghost rest: P.Plan, ghost goal: P.Outcome) returns (ok: bool)
      requires P.ValidPlan(rest) && Pending(P.Next(P.RESTART, rest), [], goal)
      modifies this
      ensures if ok then Pending(rest, [], goal) else Reached(ERR_CMD, [], goal)
    {
      hide P.RunPhase;
      P.Advance(device, history, P.RESTART, rest, []);
      var _, restarted := FramePhase(Restart);
      ok := restarted;
      if !ok { AbortToIdle(); }
    }

    method StopPhase(ghost got: seq<Byte>, ghost goal: P.Outcome) returns (ok: bool)
      requires Pending(P.FINISH, got, goal)
      modifies this
      ensures Reached(if ok then TX_OK else ERR_CMD, got, goal)
    {
      hide P.RunPhase;
      P.Advance(device, history, P.STOP, P.End, got);
      ok := StopPhaseOnly();
      if !ok { AbortToIdle(); }
    }

    method SendOrAbort(data: Byte, nackCode: Byte, ghost rest: P.Plan, ghost goal: P.Outcome) returns (code: Byte)
      requires P.ValidPlan(rest) && Pending(P.Next(P.Phase(Write(data), nackCode), rest), [], goal)
      modifies this
      ensures if code == TX_OK then Pending(rest, [], goal) else Reached(code, [], goal)
    {
      hide P.RunPhase;
      P.Advance(device, history, P.Phase(Write(data), nackCode), rest, []);
      code := WritePhaseByte(data, nackCode);
      if code != TX_OK { AbortToIdle(); }
    }

    method FetchOrAbort(last: bool, ghost rest: P.Plan, ghost got: seq<Byte>, ghost goal: P.Outcome)
      returns (ok: bool, data: Byte)
      requires P.ValidPlan(rest) && Pending(P.Next(P.Phase(Read(last), ERR_CMD), rest), got, goal)
      modifies this
      ensures if ok then Pending(rest, got + [data], goal) else goal.code != TX_OK && Reached(goal.code, got, goal)
    {
      hide P.RunPhase;
      P.Advance(device, history, P.Phase(Read(last), ERR_CMD), rest, got);
      ok, data := ReadPhaseByte(last);
      if !ok { AbortToIdle(); }
    }

    // -------------------------------------------------------------- transactions

    method TxBuf(slave: Byte, data: array?<Byte>, length: Byte) returns (code: Byte)
      requires data != null ==> length <= data.Length
      modifies this
      ensures data == null && length != 0 ==> code == ERR_CMD && history == old(history)
      ensures data != null || length == 0 ==>
        P.Outcome(history, code, []) == P.Transact(device, old(history), P.TxPlan(slave, Contents(data, length)), [])
    {
      hide P.Transact, P.SendFrom, P.NackCode;
      if data == null && length != 0 { return ERR_CMD; }
      ghost var tx := Contents(data, length);
      ghost var goal := P.Transact(device, history, P.TxPlan(slave, tx), []);
      ghost var body := P.SendFrom(tx, 0, P.FINISH);
      var ok := StartPhase(P.Next(P.Address(P.AddrWrite(slave)), body), goal);
      if !ok { return ERR_CMD; }
      code := SendOrAbort(P.AddrWrite(slave), ERR_ADDR_NACK, body, goal);
      if code != TX_OK { return; }
      var i := 0;
      while i < length
        invariant i <= length
        invariant Pending(P.SendFrom(tx, i, P.FINISH), [], goal)
      {
        P.SendStep(tx, i, P.FINISH);
        code := SendOrAbort(data[i], P.NackCode(i), P.SendFrom(tx, i + 1, P.FINISH), goal);
        if code != TX_OK { return; }
        i := i + 1;
      }
      P.SendStep(tx, i, P.FINISH);
      ok := StopPhase([], goal);
      code := if ok then TX_OK else ERR_CMD;
    }

    method RxPkg(slave: Byte, buffer: array?<Byte>, length: Byte) returns (ok: bool)
      requires buffer != null ==> length <= buffer.Length
      modifies this, buffer
      ensures buffer == null || length == 0 ==>
        ok == (length == 0) && history == old(history) && (buffer != null ==> buffer[..] == old(buffer[..]))
      ensures buffer != null && length != 0 ==>
        var r := P.Transact(device, old(history), P.RxPlan(slave, length), []);
        history == r.h && ok == (r.code == TX_OK) && (ok ==> |r.rx| == length) &&
        Filled(buffer[..], old(buffer[..]), r.rx, length)
    {
      hide P.Transact;
      if buffer == null && length != 0 { return false; }
      if length == 0 { return true; }
      ghost var goal := P.Transact(device, history, P.RxPlan(slave, length), []);
      ghost var body := P.FetchFrom(0, length, P.FINISH);
      ok := StartPhase(P.Next(P.Address(P.AddrRead(slave)), body), goal);
      if !ok { return; }
      var code := SendOrAbort(P.AddrRead(slave), ERR_ADDR_NACK, body, goal);
      if code != TX_OK { return false; }
      ok := Receive(buffer, length, goal);
    }

    /** The read loop and the closing STOP. */
    method Receive(buffer: array<Byte>, length: Byte, ghost goal: P.Outcome) returns (ok: bool)
      requires length <= buffer.Length
      requires Pending(P.FetchFrom(0, length, P.FINISH), [], goal)
      modifies this, buffer
      ensures history == goal.h && ok == (goal.code == TX_OK) && Filled(buffer[..], old(buffer[..]), goal.rx, length)
      ensures ok ==> |goal.rx| == length
    {
      hide P.Transact;
      var i := 0;
      ghost var got, before := [], buffer[..];
      while i < length
        invariant |got| == i <= length
        invariant forall k :: 0 <= k < i ==> buffer[k] == got[k]
        invariant forall k :: i <= k < buffer.Length ==> buffer[k] == before[k]
        invariant Pending(P.FetchFrom(i, length, P.FINISH), got, goal)
      {
        var data;
        ok, data := FetchOrAbort(i == length - 1, P.FetchFrom(i + 1, length, P.FINISH), got, goal);
        if !ok { break; }
        buffer[i] := data;
        got := got + [data];
        i := i + 1;
      }
      assert buffer[..] == got + before[i..];
      if i == length { ok := StopPhase(got, goal); }
    }

    method TxRxBuf(slave: Byte, data: array?<Byte>, txLen: Byte, buffer: array?<Byte>, rxLen: Byte)
      returns (ok: bool)
      requires data != null ==> txLen <= data.Length
      requires buffer != null ==> rxLen <= buffer.Length
      modifies this, buffer
      ensures (data == null && txLen != 0) || (buffer == null && rxLen != 0) ==>
        !ok && history == old(history) && (buffer != null ==> buffer[..] == old(buffer[..]))
      ensures (data != null || txLen == 0) && (buffer != null || rxLen == 0) ==>
        var r := P.Transact(device, old(history), P.TxRxPlan(slave, old(Contents(data, txLen)), rxLen), []);
        history == r.h && ok == (r.code == TX_OK) && (ok ==> |r.rx| == rxLen) &&
        (buffer != null ==> Filled(buffer[..], old(buffer[..]), r.rx, rxLen))
    {
      hide P.Transact, P.SendFrom, P.FetchFrom, P.NackCode;
      if data == null && txLen != 0 { return false; }
      if buffer == null && rxLen != 0 { return false; }
      ghost var tx := Contents(data, txLen);
      ghost var goal := P.Transact(device, history, P.TxRxPlan(slave, tx, rxLen), []);
      ghost var body := P.SendFrom(tx, 0, P.ReadBack(slave, rxLen));
      ok := StartPhase(P.Next(P.Address(P.AddrWrite(slave)), body), goal);
      if !ok { return; }
      var code := SendOrAbort(P.AddrWrite(slave), ERR_ADDR_NACK, body, goal);
      if code != TX_OK { return false; }
      var i := 0;
      while i < txLen
        invariant i <= txLen
        invariant data != null ==> data[..txLen] == tx
        invariant buffer != null ==> buffer[..] == old(buffer[..])
        invariant Pending(P.SendFrom(tx, i, P.ReadBack(slave, rxLen)), [], goal)
      {
        P.SendStep(tx, i, P.ReadBack(slave, rxLen));
        code := SendOrAbort(data[i], P.NackCode(i), P.SendFrom(tx, i + 1, P.ReadBack(slave, rxLen)), goal);
        if code != TX_OK { return false; }
        i := i + 1;
      }
      P.SendStep(tx, i, P.ReadBack(slave, rxLen));
      if rxLen != 0 {
        body := P.FetchFrom(0, rxLen, P.FINISH);
        ok := RestartPhase(P.Next(P.Address(P.AddrRead(slave)), body), goal);
        if !ok { return; }
        code := SendOrAbort(P.AddrRead(slave), ERR_ADDR_NACK, body, goal);
        if code != TX_OK { return false; }
        ok := Receive(buffer, rxLen, goal);
      } else {
        ok := StopPhase([], goal);
      }
    }
  }

  /** The first `length` bytes of a C buffer. */
  ghost function Contents(data: array?<Byte>, length: Byte): seq<Byte>
    requires data != null ==> length <= data.Length
    reads data
  {
    if data == null then [] else data[..length]
  }

  /** A receive buffer holds the bytes received, in order, and is otherwise untouched. */
  ghost predicate Filled(now: seq<Byte>, before: seq<Byte>, rx: seq<Byte>, length: nat) {
    |rx| <= length && |rx| <= |before| && now == rx + before[|rx|..]
  }
}
