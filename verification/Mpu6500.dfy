/** The MPU-6500 driver: register access, the start-up configuration and the sample burst. */
module Mpu6500 {
  import opened MachineWords
  import opened I2cRegisters
  import opened I2cProtocol
  import opened I2cTranscript
  import opened I2cTransactions
  import opened I2cGuarantees
  import opened I2cEngine
  import opened I2cEnginePhases
  import opened I2cEngineTransactions
  import opened I2cSessions
  import opened Mpu6500Bus
  import Progress = I2cProgress
  import opened I2cDriver

  const I2C_ADDRESS: Byte := 0x68

  const REG_SMPLRT_DIV: Byte := 0x19
  const REG_CONFIG: Byte := 0x1A
  const REG_GYRO_CONFIG: Byte := 0x1B
  const REG_ACCEL_CONFIG: Byte := 0x1C
  const REG_ACCEL_CONFIG2: Byte := 0x1D
  const REG_ACCEL_XOUT_H: Byte := 0x3B
  const REG_PWR_MGMT_1: Byte := 0x6B
  const REG_PWR_MGMT_2: Byte := 0x6C
  const REG_WHO_AM_I: Byte := 0x75
  const WHO_AM_I_EXPECTED: Byte := 0x70

  datatype Status = Ok | ErrNull | ErrI2c | ErrWhoAmI

  datatype Setting = Setting(reg: Byte, value: Byte)

  /** The start-up configuration, in the order it is written. */
  const SETTINGS: seq<Setting> := [
    Setting(REG_PWR_MGMT_1, 0x01), Setting(REG_PWR_MGMT_2, 0x00), Setting(REG_SMPLRT_DIV, 0x00),
    Setting(REG_CONFIG, 0x01), Setting(REG_GYRO_CONFIG, 0x00), Setting(REG_ACCEL_CONFIG, 0x00),
    Setting(REG_ACCEL_CONFIG2, 0x01)]

  // ---------------------------------------------------------------- what the calls do

  function WriteReg(d: Device, h: History, reg: Byte, value: Byte): Outcome {
    Transact(d, h, TxPlan(I2C_ADDRESS, [reg, value]), [])
  }

  function ReadRegs(d: Device, h: History, start: Byte, n: nat): Outcome {
    Transact(d, h, TxRxPlan(I2C_ADDRESS, [start], n), [])
  }

  datatype Ended = Ended(h: History, status: Status)

  /** Write the settings from number `i` on, giving up at the first failure. */
  function Configure(d: Device, h: History, i: nat): Ended
    requires i <= |SETTINGS|
    decreases |SETTINGS| - i
  {
    if i == |SETTINGS| then Ended(h, Ok)
    else
      var out := WriteReg(d, h, SETTINGS[i].reg, SETTINGS[i].value);
      if out.code != TX_OK then Ended(out.h, ErrI2c) else Configure(d, out.h, i + 1)
  }

  function InitBasic(d: Device, h: History): Ended {
    var who := ReadRegs(d, h, REG_WHO_AM_I, 1);
    if who.code != TX_OK then Ended(who.h, ErrI2c)
    else if who.rx != [WHO_AM_I_EXPECTED] then Ended(who.h, ErrWhoAmI)
    else Configure(d, who.h, 0)
  }

  /** `(int16_t)((msb << 8) | lsb)`. */
  function BigEndianS16(msb: Byte, lsb: Byte): (v: int)
    ensures -0x8000 <= v < 0x8000
  {
    var u := msb * 0x100 + lsb;
    if u < 0x8000 then u else u - 0x1_0000
  }

  /** Every 16-bit value is the decoding of exactly its own two bytes, high byte first. */
  lemma BigEndianRoundTrip(v: int, msb: Byte, lsb: Byte)
    requires -0x8000 <= v < 0x8000
    ensures BigEndianS16(msb, lsb) == v <==> msb == (v / 0x100) % 0x100 && lsb == v % 0x100
  {
    var u := if v < 0 then v + 0x1_0000 else v;
    assert u / 0x100 == (v / 0x100) % 0x100 && u % 0x100 == v % 0x100;
  }

  // ---------------------------------------------------------------- on the engine

  lemma ReadPhasesAt(start: Byte, n: nat)
    requires n > 0
    ensures var ps := TxRxPhases(I2C_ADDRESS, [start], n);
            && |ps| == 6 + n && ps[0] == START && ps[1] == Address(AddrWrite(I2C_ADDRESS))
            && ps[2] == Phase(Cmd.Write(start), NackCode(0)) && ps[3] == RESTART
            && ps[4] == Address(AddrRead(I2C_ADDRESS)) && ps[5 + n] == STOP
  {
    assert Data([start], 0) == [Datum([start], 0)];
  }

  /** A successful burst, as the driver sees it. */
  lemma ReadSeen(d: Device, h: History, start: Byte, n: nat)
    requires Quiet(h) && n > 0 && ReadRegs(d, h, start, n).code == TX_OK
    ensures var out := ReadRegs(d, h, start, n);
            |out.rx| == n && ReadTransaction(Since(h, out.h), start, out.rx)
  {
    hide Transact, Since, Received, Phases, TxRxPhases, TxRxPlan, Opening, Quiet;
    var plan, out := TxRxPlan(I2C_ADDRESS, [start], n), ReadRegs(d, h, start, n);
    var ops, ps := Since(h, out.h), TxRxPhases(I2C_ADDRESS, [start], n);
    PlanPhases(I2C_ADDRESS, [start], n);
    ReadPhasesAt(start, n);
    Transaction(d, h, plan);
    TxRxBytes(d, h, I2C_ADDRESS, [start], n);
    TxRxAcked(d, h, I2C_ADDRESS, [start], n);
    assert Answered(ps[0], ops[0]) && Answered(ps[1], ops[1]) && Answered(ps[2], ops[2]);
    assert Answered(ps[3], ops[3]) && Answered(ps[4], ops[4]) && Answered(ps[5 + n], ops[5 + n]);
    forall k | 0 <= k < n
      ensures ops[5..][k] == Op(Cmd.Read(k == n - 1), Got(out.rx[k]))
    {
      assert ops[|[start]| + 4 + k] == Op(Cmd.Read(k == n - 1), Got(out.rx[k]));
    }
  }

  /**
   `mpu6500_read_regs` on the engine.  A true result means that every byte came, in order, from the
   next register of the window at the moment it was read; registers that do not change by themselves
   are returned with the value they hold.  No register is changed, whether the call succeeds or not.
   */
  lemma ReadRegsOnEngine(d: Device, m: Machine, h: History, start: Byte, n: nat)
    requires Models(d, m) && Quiet(h) && Quiescent(EngineAt(m, h))
    ensures var out := ReadRegs(d, h, start, n);
            var e, g := EngineAt(m, h), EngineAt(m, out.h);
            && Quiet(out.h) && Quiescent(g) && g.misuse == e.misuse
            && SlaveAt(m, g).regs == SlaveAt(m, e).regs
            && (out.code == TX_OK ==>
                  && |out.rx| == n && g.served == e.served + ReadingsOf(start, out.rx)
                  && Agrees(SlaveAt(m, e).regs, start, out.rx))
  {
    hide Models, EngineAt, Transact, Since, Grown, Shadow, CarriedOut, PossibleAlong, ServedAlong, ReplayAlong, Agrees, Replay, ReadTransaction, Frame, CutAt;
    var plan, out := TxRxPlan(I2C_ADDRESS, [start], n), ReadRegs(d, h, start, n);
    var e, g := EngineAt(m, h), EngineAt(m, out.h);
    var seen, bus, s := Since(h, out.h), Grown(e, g), SlaveAt(m, e);
    PlansClose(I2C_ADDRESS, [start], n);
    TransactionOnEngine(d, m, h, plan);
    TxRxTrace(d, h, I2C_ADDRESS, [start], n);
    if out.code == TX_OK && n == 0 {
      TxDiagnosis(d, h, I2C_ADDRESS, [start]);
      TxRxBytes(d, h, I2C_ADDRESS, [start], 0);
      EndsAlike(s, e, g, seen, bus);
      PointerOnly(s, start);
      NothingLeft(s, start);
    } else if out.code == TX_OK {
      ReadSeen(d, h, start, n);
      SomethingSeen(seen, start, out.rx);
      EndsAlike(s, e, g, seen, bus);
      ReadServes(s, seen, start, out.rx);
    } else if seen == [] {
      NothingLeft(s, 0);
    } else {
      ShadowCutAt(seen, bus, Frame(I2C_ADDRESS, [start], n));
      ReadKeeps(s, bus, 0, start, n);
      assert bus[0..] == bus;
    }
  }

  lemma SomethingSeen(ops: seq<Op>, start: Byte, rx: seq<Byte>)
    requires ReadTransaction(ops, start, rx)
    ensures ops != []
  {
  }

  /**
   `mpu6500_write_reg` on the engine.  A true result means that the register holds the value; a
   false one, that either it does or nothing was changed.
   */
  lemma WriteRegOnEngine(d: Device, m: Machine, h: History, reg: Byte, value: Byte)
    requires Models(d, m) && Quiet(h) && Quiescent(EngineAt(m, h))
    ensures var out := WriteReg(d, h, reg, value);
            var e, g := EngineAt(m, h), EngineAt(m, out.h);
            var before, after := SlaveAt(m, e).regs, SlaveAt(m, g).regs;
            && Quiet(out.h) && Quiescent(g) && g.misuse == e.misuse
            && (if out.code == TX_OK then after == Store(before, reg, value)
                else after == before || after == Store(before, reg, value))
  {
    hide Models, EngineAt, Transact, Since, Grown, Shadow, CarriedOut, PossibleAlong, ServedAlong, ReplayAlong, Replay, Frame, CutAt, Store, WriteFrame;
    var tx := [reg, value];
    var out := WriteReg(d, h, reg, value);
    var e, g := EngineAt(m, h), EngineAt(m, out.h);
    var seen, bus, s := Since(h, out.h), Grown(e, g), SlaveAt(m, e);
    PlansClose(I2C_ADDRESS, tx, 0);
    TransactionOnEngine(d, m, h, TxPlan(I2C_ADDRESS, tx));
    TxDiagnosis(d, h, I2C_ADDRESS, tx);
    if out.code == TX_OK {
      EndsAlike(s, e, g, seen, bus);
      WriteStores(s, reg, value);
    } else if seen == [] {
      NothingLeft(s, 0);
    } else {
      TxRxTrace(d, h, I2C_ADDRESS, tx, 0);
      WriteFrameIs(reg, value);
      ShadowCutAt(seen, bus, WriteFrame(reg, value));
      WriteStoresOrNot(s, bus, 0, reg, value);
      assert bus[0..] == bus;
    }
  }

  lemma OneRegister(regs: Registers, reg: Byte, rx: seq<Byte>)
    requires Agrees(regs, reg, rx) && |rx| == 1 && !Live(reg)
    ensures rx == [regs[reg]]
  {
    assert Window(reg, 0) == reg;
  }

  /** What was written is what is read back. */
  lemma WriteThenRead(d: Device, m: Machine, h: History, reg: Byte, value: Byte)
    requires Models(d, m) && Quiet(h) && Quiescent(EngineAt(m, h)) && !ReadOnly(reg)
    ensures var wrote := WriteReg(d, h, reg, value);
            var read := ReadRegs(d, wrote.h, reg, 1);
            wrote.code == TX_OK && read.code == TX_OK ==> read.rx == [value]
  {
    hide Models, EngineAt, WriteReg, ReadRegs, Agrees, Replay;
    WriteRegOnEngine(d, m, h, reg, value);
    var wrote := WriteReg(d, h, reg, value);
    ReadRegsOnEngine(d, m, wrote.h, reg, 1);
    var read := ReadRegs(d, wrote.h, reg, 1);
    if wrote.code == TX_OK && read.code == TX_OK {
      OneRegister(SlaveAt(m, EngineAt(m, wrote.h)).regs, reg, read.rx);
    }
  }

  // ---------------------------------------------------------------- the start-up configuration

  /** The register file after the first `k` settings, in order. */
  function StoreAll(regs: Registers, k: nat): Registers
    requires k <= |SETTINGS|
    decreases k
  {
    if k == 0 then regs else Store(StoreAll(regs, k - 1), SETTINGS[k - 1].reg, SETTINGS[k - 1].value)
  }

  /** How many settings have been written, counted up to the first write that failed. */
  function Confirmed(d: Device, h: History, i: nat): (c: nat)
    requires i <= |SETTINGS|
    ensures i <= c <= |SETTINGS|
    decreases |SETTINGS| - i
  {
    if i == |SETTINGS| then i
    else
      var out := WriteReg(d, h, SETTINGS[i].reg, SETTINGS[i].value);
      if out.code != TX_OK then i else Confirmed(d, out.h, i + 1)
  }

  lemma {:induction false} ConfigureOnEngine(d: Device, m: Machine, h: History, i: nat, regs: Registers)
    requires Models(d, m) && Quiet(h) && Quiescent(EngineAt(m, h)) && i <= |SETTINGS|
    requires SlaveAt(m, EngineAt(m, h)).regs == StoreAll(regs, i)
    ensures var r := Configure(d, h, i);
            var g := EngineAt(m, r.h);
            && Quiet(r.h) && Quiescent(g) && g.misuse == EngineAt(m, h).misuse
            && (r.status == Ok ==> SlaveAt(m, g).regs == StoreAll(regs, |SETTINGS|))
            && (r.status != Ok ==>
                  var c := Confirmed(d, h, i);
                  && r.status == ErrI2c && c < |SETTINGS|
                  && (SlaveAt(m, g).regs == StoreAll(regs, c) || SlaveAt(m, g).regs == StoreAll(regs, c + 1)))
    decreases |SETTINGS| - i
  {
    hide SETTINGS, Models, EngineAt, WriteReg, Store, Replay;
    if i < |SETTINGS| {
      var reg, value := SETTINGS[i].reg, SETTINGS[i].value;
      WriteRegOnEngine(d, m, h, reg, value);
      var out := WriteReg(d, h, reg, value);
      assert StoreAll(regs, i + 1) == Store(StoreAll(regs, i), reg, value);
      if out.code == TX_OK { ConfigureOnEngine(d, m, out.h, i + 1, regs); }
    }
  }

  /** The first `k` of the seven settings are in their registers, and nothing else is changed. */
  ghost predicate FirstSet(before: Registers, after: Registers, k: nat) {
    && after[0x6B] == (if k > 0 then 0x01 else before[0x6B])
    && after[0x6C] == (if k > 1 then 0x00 else before[0x6C])
    && after[0x19] == (if k > 2 then 0x00 else before[0x19])
    && after[0x1A] == (if k > 3 then 0x01 else before[0x1A])
    && after[0x1B] == (if k > 4 then 0x00 else before[0x1B])
    && after[0x1C] == (if k > 5 then 0x00 else before[0x1C])
    && after[0x1D] == (if k > 6 then 0x01 else before[0x1D])
    && forall r: Byte :: r !in {0x6B, 0x6C, 0x19, 0x1A, 0x1B, 0x1C, 0x1D} ==> after[r] == before[r]
  }

  /** What the driver writes, setting by setting, is what the data sheet asks for. */
  lemma {:induction false} StoreAllKeeps(regs: Registers, k: nat)
    requires k <= |SETTINGS|
    ensures FirstSet(regs, StoreAll(regs, k), k)
    decreases k
  {
    if k > 0 {
      StoreAllKeeps(regs, k - 1);
      OneMoreSet(regs, StoreAll(regs, k - 1), k - 1);
    }
  }

  lemma OneMoreSet(before: Registers, regs: Registers, k: nat)
    requires k < |SETTINGS| && FirstSet(before, regs, k)
    ensures FirstSet(before, Store(regs, SETTINGS[k].reg, SETTINGS[k].value), k + 1)
  {
    assert !ReadOnly(SETTINGS[k].reg);
  }

  /**
   `mpu6500_init_basic` on the engine.  OK means that all seven registers hold the documented values
   and nothing else changed; an I2C error, that exactly the settings whose writes succeeded were stored,
   or those and the one whose write failed; a WHO_AM_I mismatch, that the sensor really answered with something
   else and was not touched.
   */
  lemma InitBasicOnEngine(d: Device, m: Machine, h: History)
    requires Models(d, m) && Quiet(h) && Quiescent(EngineAt(m, h))
    ensures var r := InitBasic(d, h);
            var e, g := EngineAt(m, h), EngineAt(m, r.h);
            var before, after := SlaveAt(m, e).regs, SlaveAt(m, g).regs;
            && Quiet(r.h) && Quiescent(g) && g.misuse == e.misuse
            && match r.status
               case Ok => FirstSet(before, after, 7) && before[0x75] == 0x70
               case ErrI2c =>
                 var who := ReadRegs(d, h, 0x75, 1);
                 if who.code != TX_OK then after == before
                 else
                   var c := Confirmed(d, who.h, 0);
                   c < 7 && (FirstSet(before, after, c) || FirstSet(before, after, c + 1))
               case ErrWhoAmI => after == before && before[0x75] != 0x70
               case ErrNull => false
  {
    hide SETTINGS, Models, EngineAt, ReadRegs, Configure, Store, StoreAll, FirstSet, Replay, Confirmed, Agrees, Window;
    var who := ReadRegs(d, h, REG_WHO_AM_I, 1);
    var before := SlaveAt(m, EngineAt(m, h)).regs;
    ReadRegsOnEngine(d, m, h, REG_WHO_AM_I, 1);
    NoneStored(before);
    if who.code == TX_OK {
      OneRegister(before, REG_WHO_AM_I, who.rx);
      if who.rx == [WHO_AM_I_EXPECTED] {
        ConfigureOnEngine(d, m, who.h, 0, before);
        StoreAllKeeps(before, 7);
        var c := Confirmed(d, who.h, 0);
        StoreAllKeeps(before, c);
        if c < 7 { StoreAllKeeps(before, c + 1); }
      }
    }
  }

  lemma NoneStored(regs: Registers)
    ensures StoreAll(regs, 0) == regs && |SETTINGS| == 7
  {
  }

  lemma {:induction false} ConfigureSucceeds(d: Device, m: Machine, h: History, i: nat)
    requires Models(d, m) && Prompt(d, m) && Progress.Willing(m) && Progress.Spared(m)
    requires Quiet(h) && Quiescent(EngineAt(m, h)) && i <= |SETTINGS|
    ensures Configure(d, h, i).status == Ok
    decreases |SETTINGS| - i
  {
    hide SETTINGS, Models, EngineAt, Transact, Prompt, Store, Replay;
    if i < |SETTINGS| {
      var reg, value := SETTINGS[i].reg, SETTINGS[i].value;
      WriteRegOnEngine(d, m, h, reg, value);
      Progress.TxRxSucceeds(d, m, h, I2C_ADDRESS, [reg, value], 0);
      ConfigureSucceeds(d, m, WriteReg(d, h, reg, value).h, i + 1);
    }
  }

  /** With a prompt engine and a willing sensor, start-up is decided by the identity alone. */
  lemma InitBasicSucceeds(d: Device, m: Machine, h: History)
    requires Models(d, m) && Prompt(d, m) && Progress.Willing(m) && Progress.Spared(m) && Quiet(h) && Quiescent(EngineAt(m, h))
    ensures InitBasic(d, h).status
         == if SlaveAt(m, EngineAt(m, h)).regs[0x75] == 0x70 then Ok else ErrWhoAmI
  {
    hide SETTINGS, Models, EngineAt, Transact, Configure, Prompt, Store, Replay, Agrees;
    ReadRegsOnEngine(d, m, h, REG_WHO_AM_I, 1);
    Progress.TxRxSucceeds(d, m, h, I2C_ADDRESS, [REG_WHO_AM_I], 1);
    var who := ReadRegs(d, h, REG_WHO_AM_I, 1);
    OneRegister(SlaveAt(m, EngineAt(m, h)).regs, REG_WHO_AM_I, who.rx);
    ConfigureSucceeds(d, m, who.h, 0);
  }

  // ---------------------------------------------------------------- the driver

  method WriteRegister(bus: Bus, reg: Byte, value: Byte) returns (ok: bool)
    modifies bus
    ensures var out := WriteReg(bus.device, old(bus.history), reg, value);
            bus.history == out.h && ok == (out.code == TX_OK)
  {
    var tx := new Byte[2];
    tx[0] := reg;
    tx[1] := value;
    assert Contents(tx, 2) == [reg, value];
    var code := bus.TxBuf(I2C_ADDRESS, tx, 2);
    ok := code == TX_OK;
  }

  method ReadRegisters(bus: Bus, start: Byte, buffer: array?<Byte>, length: Byte) returns (ok: bool)
    requires buffer != null ==> length <= buffer.Length
    modifies bus, buffer
    ensures buffer == null && length != 0 ==> !ok && bus.history == old(bus.history)
    ensures buffer != null || length == 0 ==>
      var out := ReadRegs(bus.device, old(bus.history), start, length);
      bus.history == out.h && ok == (out.code == TX_OK) && (ok ==> |out.rx| == length) &&
      (buffer != null ==> Filled(buffer[..], old(buffer[..]), out.rx, length))
  {
    if buffer == null && length != 0 { return false; }
    var tx := new Byte[1];
    tx[0] := start;
    assert Contents(tx, 1) == [start];
    ok := bus.TxRxBuf(I2C_ADDRESS, tx, 1, buffer, length);
  }

  /** `value` points to one byte, or nowhere. */
  method ReadRegister(bus: Bus, reg: Byte, value: array?<Byte>) returns (ok: bool)
    requires value != null ==> value.Length == 1
    modifies bus, value
    ensures value == null ==> !ok && bus.history == old(bus.history)
    ensures value != null ==>
      var out := ReadRegs(bus.device, old(bus.history), reg, 1);
      bus.history == out.h && ok == (out.code == TX_OK) && (ok ==> |out.rx| == 1) &&
      Filled(value[..], old(value[..]), out.rx, 1)
  {
    if value == null { return false; }
    var tx := new Byte[1];
    tx[0] := reg;
    assert Contents(tx, 1) == [reg];
    ok := bus.TxRxBuf(I2C_ADDRESS, tx, 1, value, 1);
  }

  /** Setting number `i`; `goal` is what the whole configuration is to come to. */
  method WriteSetting(bus: Bus, ghost i: nat, reg: Byte, value: Byte, ghost goal: Ended) returns (ok: bool)
    requires i < |SETTINGS| && SETTINGS[i] == Setting(reg, value)
    requires Configure(bus.device, bus.history, i) == goal
    modifies bus
    ensures if ok then Configure(bus.device, bus.history, i + 1) == goal else goal == Ended(bus.history, ErrI2c)
  {
    hide WriteReg;
    ok := WriteRegister(bus, reg, value);
  }

  method InitializeBasic(bus: Bus) returns (status: Status)
    modifies bus
    ensures Ended(bus.history, status) == InitBasic(bus.device, old(bus.history))
  {
    hide ReadRegs, Configure;
    var whoAmI := new Byte[1];
    whoAmI[0] := 0;
    var ok := ReadRegister(bus, REG_WHO_AM_I, whoAmI);
    if !ok { return ErrI2c; }
    assert whoAmI[..] == [whoAmI[0]];
    if whoAmI[0] != WHO_AM_I_EXPECTED { return ErrWhoAmI; }
    ghost var goal := Configure(bus.device, bus.history, 0);
    ok := WriteSetting(bus, 0, REG_PWR_MGMT_1, 0x01, goal);
    if !ok { return ErrI2c; }
    ok := WriteSetting(bus, 1, REG_PWR_MGMT_2, 0x00, goal);
    if !ok { return ErrI2c; }
    ok := WriteSetting(bus, 2, REG_SMPLRT_DIV, 0x00, goal);
    if !ok { return ErrI2c; }
    ok := WriteSetting(bus, 3, REG_CONFIG, 0x01, goal);
    if !ok { return ErrI2c; }
    ok := WriteSetting(bus, 4, REG_GYRO_CONFIG, 0x00, goal);
    if !ok { return ErrI2c; }
    ok := WriteSetting(bus, 5, REG_ACCEL_CONFIG, 0x00, goal);
    if !ok { return ErrI2c; }
    ok := WriteSetting(bus, 6, REG_ACCEL_CONFIG2, 0x01, goal);
    if !ok { return ErrI2c; }
    AllSet(bus.device, bus.history);
    return Ok;
  }

  lemma AllSet(d: Device, h: History)
    ensures Configure(d, h, |SETTINGS|) == Ended(h, Ok)
  {
  }

  // ---------------------------------------------------------------- samples

  class RawSample {
    var ax: int
    var ay: int
    var az: int
    var temp: int
    var gx: int
    var gy: int
    var gz: int
  }

  /** The sample holds the seven big-endian words of the burst. */
  ghost predicate Holds(s: RawSample, b: seq<Byte>)
    requires |b| == 14
    reads s
  {
    && s.ax == BigEndianS16(b[0], b[1]) && s.ay == BigEndianS16(b[2], b[3]) && s.az == BigEndianS16(b[4], b[5])
    && s.temp == BigEndianS16(b[6], b[7])
    && s.gx == BigEndianS16(b[8], b[9]) && s.gy == BigEndianS16(b[10], b[11]) && s.gz == BigEndianS16(b[12], b[13])
  }

  lemma FilledWhole(now: seq<Byte>, rx: seq<Byte>, n: nat)
    requires |now| == n == |rx| && exists before: seq<Byte> :: |before| == n && Filled(now, before, rx, n)
    ensures now == rx
  {
  }

  /** Decode the burst, field by field. */
  method Fill(sample: RawSample, burst: array<Byte>)
    requires burst.Length == 14
    modifies sample
    ensures Holds(sample, burst[..])
  {
    hide BigEndianS16;
    sample.ax := BigEndianS16(burst[0], burst[1]);
    sample.ay := BigEndianS16(burst[2], burst[3]);
    sample.az := BigEndianS16(burst[4], burst[5]);
    sample.temp := BigEndianS16(burst[6], burst[7]);
    sample.gx := BigEndianS16(burst[8], burst[9]);
    sample.gy := BigEndianS16(burst[10], burst[11]);
    sample.gz := BigEndianS16(burst[12], burst[13]);
  }

  /** A word put together from two readings, of a register and the next. */
  predicate IsWord(v: int, high: Reading, low: Reading, register: Byte) {
    high.register == register && low.register == register + 1 && v == BigEndianS16(high.value, low.value)
  }

  /**
   What a call to `mpu6500_read_raw_sample` has done on the engine: no register is changed, and after success the
   sensor has handed out its registers 0x3B to 0x48, once each and in this order, and the fields are their words.
   */
  ghost predicate Sampled(e: Engine, g: Engine, origin: Slave, s: RawSample, ok: bool)
    reads s
  {
    && Replay(origin, g.wire).regs == Replay(origin, e.wire).regs
    && (ok ==>
          && |g.served| == |e.served| + 14 && g.served[..|e.served|] == e.served
          && var b := g.served[|e.served|..];
             && IsWord(s.ax, b[0], b[1], 0x3B) && IsWord(s.ay, b[2], b[3], 0x3D) && IsWord(s.az, b[4], b[5], 0x3F)
             && IsWord(s.temp, b[6], b[7], 0x41)
             && IsWord(s.gx, b[8], b[9], 0x43) && IsWord(s.gy, b[10], b[11], 0x45) && IsWord(s.gz, b[12], b[13], 0x47))
  }

  lemma SampleOnEngine(d: Device, m: Machine, h: History, s: RawSample)
    requires Models(d, m) && Quiet(h) && Quiescent(EngineAt(m, h))
    requires var out := ReadRegs(d, h, REG_ACCEL_XOUT_H, 14);
             out.code == TX_OK ==> |out.rx| == 14 && Holds(s, out.rx)
    ensures var out := ReadRegs(d, h, REG_ACCEL_XOUT_H, 14);
            Sampled(EngineAt(m, h), EngineAt(m, out.h), m.origin, s, out.code == TX_OK)
  {
    hide Models, EngineAt, ReadRegs, Agrees, Replay, BigEndianS16, ReadingsOf, Holds, Sampled;
    ReadRegsOnEngine(d, m, h, REG_ACCEL_XOUT_H, 14);
    var out := ReadRegs(d, h, REG_ACCEL_XOUT_H, 14);
    if out.code == TX_OK {
      BurstIsSample(EngineAt(m, h), EngineAt(m, out.h), m.origin, s, out.rx);
    } else {
      NoSample(EngineAt(m, h), EngineAt(m, out.h), m.origin, s);
    }
  }

  lemma NoSample(e: Engine, g: Engine, origin: Slave, s: RawSample)
    requires Replay(origin, g.wire).regs == Replay(origin, e.wire).regs
    ensures Sampled(e, g, origin, s, false)
  {
  }

  lemma BurstIsSample(e: Engine, g: Engine, origin: Slave, s: RawSample, rx: seq<Byte>)
    requires Replay(origin, g.wire).regs == Replay(origin, e.wire).regs
    requires |rx| == 14 && Holds(s, rx) && g.served == e.served + ReadingsOf(REG_ACCEL_XOUT_H, rx)
    ensures Sampled(e, g, origin, s, true)
  {
    hide BigEndianS16, Replay, Window;
    var b := ReadingsOf(REG_ACCEL_XOUT_H, rx);
    assert g.served[|e.served|..] == b && g.served[..|e.served|] == e.served;
    forall i | 0 <= i < 14 ensures b[i] == Reading(0x3B + i, rx[i]) { InWindow(i); }
  }

  lemma InWindow(i: nat)
    requires i < 14
    ensures Window(REG_ACCEL_XOUT_H, i) == 0x3B + i
  {
  }

  method ReadRawSample(bus: Bus, sample: RawSample?) returns (ok: bool)
    modifies bus, sample
    ensures sample == null ==> !ok && bus.history == old(bus.history)
    ensures sample != null ==>
      var out := ReadRegs(bus.device, old(bus.history), REG_ACCEL_XOUT_H, 14);
      && bus.history == out.h && ok == (out.code == TX_OK)
      && (if ok then |out.rx| == 14 && Holds(sample, out.rx) else unchanged(sample))
    ensures sample != null ==>
      forall m :: Models(bus.device, m) && Quiet(old(bus.history)) && Quiescent(EngineAt(m, old(bus.history))) ==>
        Sampled(EngineAt(m, old(bus.history)), EngineAt(m, bus.history), m.origin, sample, ok)
  {
    hide ReadRegs, BigEndianS16, Filled, Models, EngineAt, Sampled, Holds;
    if sample == null { return false; }
    var burst := new Byte[14];
    ok := ReadRegisters(bus, REG_ACCEL_XOUT_H, burst, 14);
    if ok {
      FilledWhole(burst[..], ReadRegs(bus.device, old(bus.history), REG_ACCEL_XOUT_H, 14).rx, 14);
      Fill(sample, burst);
    }
    forall m | Models(bus.device, m) && Quiet(old(bus.history)) && Quiescent(EngineAt(m, old(bus.history)))
      ensures Sampled(EngineAt(m, old(bus.history)), EngineAt(m, bus.history), m.origin, sample, ok)
    {
      SampleOnEngine(bus.device, m, old(bus.history), sample);
    }
  }
}
