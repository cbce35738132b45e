/** The polling SPI driver. */
module SpiDriver {
  import opened MachineWords
  import opened SpiDevice

  class SpiPort {
    const env: Env
    var s: Spi

    constructor (env: Env)
      ensures this.env == env
      ensures s == Spi(false, true, 0, 0, false, false, Quiet, false, [], false)
    {
      this.env := env;
      s := Spi(false, true, 0, 0, false, false, Quiet, false, [], false);
    }

    // -------------------------------------------------------------- register accesses

    method Busy() returns (busy: bool)
      modifies this
      ensures s == Tick(env, old(s)) && busy == s.lane.Shifting?
    {
      s := Tick(env, s);
      busy := s.lane.Shifting?;
    }

    method RxValid() returns (valid: bool)
      modifies this
      ensures s == Tick(env, old(s)) && valid == s.rxValid
    {
      s := Tick(env, s);
      valid := s.rxValid;
    }

    method CtrlRead() returns (w: Word)
      modifies this
      ensures s == Tick(env, old(s)) && w == CtrlWord(s)
    {
      s := Tick(env, s);
      w := CtrlWord(s);
    }

    method CtrlWrite(w: Word)
      modifies this
      ensures s == WriteCtrl(env, Tick(env, old(s)), w)
    {
      s := WriteCtrl(env, Tick(env, s), w);
    }

    method WriteTxData(data: Byte)
      modifies this
      ensures s == Tick(env, old(s)).(txdata := data)
    {
      s := Tick(env, s).(txdata := data);
    }

    method ReadRxData() returns (data: Byte)
      modifies this
      ensures s == Tick(env, old(s)) && data == s.rxdata
    {
      s := Tick(env, s);
      data := s.rxdata;
    }

    // -------------------------------------------------------------- helpers

    /**
     Read-modify-write of CTRL.  In any state it leaves ENABLE and XFER_END as they are and launches
     nothing; with nothing on its way it clears the two flags and does nothing else.
     */
    method ClearStatusFlags()
      modifies this
      ensures s.enabled == old(s.enabled) && s.xferEnd == old(s.xferEnd)
      ensures Started(s) == Started(old(s)) && s.lost == old(s.lost)
      ensures Drain(env, s).log == Drain(env, old(s)).log
      ensures old(s.lane.Quiet?) ==> s == old(s).(done := false, rxValid := false)
    {
      hide Tick, Bit, CtrlWord, Drain;
      TickKeeps(env, s);
      DrainTick(env, s);
      var w := CtrlRead();
      TickKeeps(env, s);
      DrainTick(env, s);
      ClearWord(s);
      SameArrivals(env, Tick(env, s), WriteCtrl(env, Tick(env, s), w + CLR_DONE + CLR_RX_VALID));
      CtrlWrite(w + CLR_DONE + CLR_RX_VALID);
    }

    /**
     At rest it enables and clears.  Nothing is launched, and a byte in flight is not touched, but a launch
     still held when CTRL is written goes out with XFER_END set.
     */
    method Init()
      modifies this
      ensures s.xferEnd && Started(s) == Started(old(s)) && s.lost == old(s.lost)
      ensures old(Sane(s)) ==> s.enabled && Sane(s)
      ensures old(!s.lane.Pending?) ==> Drain(env, s).log == Drain(env, old(s)).log
      ensures old(s.lane.Pending? && s.enabled) ==>
        Drain(env, s).log == old(s.log) + [Sent(env, old(s), old(s.txdata), old(s.lane.hold > 0 || s.xferEnd))]
      ensures old(s.lane.Quiet? && Sane(s)) ==>
        s == old(s).(enabled := true, xferEnd := true, done := false, rxValid := false)
    {
      hide Tick, Drain, Bit, Sent;
      TickKeeps(env, s);
      OneTick(env, s);
      EnableBits();
      if s.lane.Pending? && s.enabled {
        InitPending(env, s);
      } else if !s.lane.Pending? {
        NotPendingTick(env, s);
        SameArrivals(env, Tick(env, s), WriteCtrl(env, Tick(env, s), ENABLE + XFER_END));
      }
      CtrlWrite(ENABLE + XFER_END);
      ClearStatusFlags();
    }

    method WaitNotBusy()
      modifies this
      ensures s == NotBusy(env, old(s))
      ensures Drain(env, s) == Drain(env, old(s)) && !s.lane.Shifting?
      ensures old(s.lane.Quiet?) ==> s == old(s)
      ensures old(s.lane.Quiet? || !s.rxValid) ==> s.lane.Quiet? || !s.rxValid
    {
      hide Tick, Drain, Work;
      TickKeeps(env, s);
      TickArrives(env, s);
      DrainTick(env, s);
      var busy := Busy();
      while busy
        invariant busy == s.lane.Shifting?
        invariant NotBusy(env, old(s)) == if busy then NotBusy(env, s) else s
        invariant Drain(env, s) == Drain(env, old(s))
        invariant old(s.lane.Quiet?) ==> s == old(s)
        invariant old(s.lane.Quiet? || !s.rxValid) ==> s.lane.Quiet? || !s.rxValid
        decreases Work(s)
      {
        TickKeeps(env, s);
        TickArrives(env, s);
        DrainTick(env, s);
        busy := Busy();
      }
    }

    /** Comes back only because a byte is on its way, or RX_VALID is up already. */
    method WaitRxValid()
      requires Coming(s) || s.rxValid
      modifies this
      ensures Drain(env, s) == Drain(env, old(s)) && s.rxValid
      ensures old(s.lane.Quiet? || !s.rxValid) ==> s.lane.Quiet?
    {
      hide Tick, Drain;
      TickKeeps(env, s);
      TickArrives(env, s);
      DrainTick(env, s);
      var valid := RxValid();
      while !valid
        invariant valid == s.rxValid && (Coming(s) || s.rxValid)
        invariant Drain(env, s) == Drain(env, old(s))
        invariant old(s.lane.Quiet? || !s.rxValid) ==> s.lane.Quiet? || !s.rxValid
        decreases Work(s)
      {
        TickKeeps(env, s);
        TickArrives(env, s);
        DrainTick(env, s);
        valid := RxValid();
      }
    }

    method StartByte(final: bool)
      modifies this
      ensures s == WriteCtrl(env, Tick(env, old(s)), LaunchWord(final))
    {
      CtrlWrite(ENABLE + (if final then XFER_END else 0) + START);
    }

    /**
     On an enabled port a byte still shifting is waited for, and then exactly one launch of this byte is
     pending.  With a launch held pending at entry, or ENABLE low, this fails: see `SpiDevice.WriteByteSafe`.
     */
    method WriteByte(data: Byte, final: bool)
      modifies this
      ensures s == Written(env, old(s), data, final)
      ensures old(s.enabled && ClearsInTime(s.lane)) ==> s == Launched(env, old(s), data, final)
    {
      if s.enabled && ClearsInTime(s.lane) { WrittenClean(env, s, data, final); }
      WaitNotBusy();
      WriteTxData(data);
      StartByte(final);
    }

    /**
     One byte out, one byte back.  Started on an enabled port with nothing on its way, it returns the byte
     clocked in by its own launch, even if BUSY is still low after START, and leaves nothing on its way.
     On a port not enabled it would not return: see `SpiDevice.ReturnsIffEnabled`.
     */
    method TransferByteBlocking(tx: Byte, final: bool) returns (rx: Byte)
      requires Calm(s)
      modifies this
      ensures s == Exchange(env, old(s), tx, final) && Calm(s)
      ensures rx == env.peer(old(s.log), tx, final)
    {
      ClearStatusFlags();
      WriteByte(tx, final);
      DrainPending(env, s);
      WaitNotBusy();
      if s.lane.Quiet? { assert Drain(env, s) == s; }
      WaitRxValid();
      rx := ReadRxData();
    }
  }
}
