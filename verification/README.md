# Verified model of the sensor-board drivers

A Dafny model of the C driver stack of a Nios V sensor board, with proofs. It covers the polling I2C
driver and the MPU-6500 layer on it, the polling SPI driver and the ADXL345 layer on it, and the
fixed-point, waveform, display and motor logic of the main loop.

`dafny verify dfyconfig.toml` verifies everything.

## How the model is built

**Registers.** A register port is a *device* and a *history*. The history lists every access software
has made; the device is an arbitrary function from that history to the value the next read returns
(`I2cRegisters`). A statement about every `Device` therefore assumes nothing about the hardware.

**I2C, any device.** `I2cDriver.Bus` is the driver as written: bounded polling loops, write-one-to-clear
writes, command words, index loops over arrays. Each method leaves the port exactly where the functions
of `I2cProtocol` say. `I2cTranscript` is an independent observer of the port, which knows neither the
driver nor the hardware: it lists the commands issued and what the device reported for each.
`I2cTransactions`, `I2cGuarantees`, `I2cLimits` and `I2cStrings` say what that observer sees; `I2cPolls`,
`I2cHandshake` and `I2cClock` look at the accesses themselves: how many, in what order, and what is left in
the clock divisor.

**I2C, on the engine.** `I2cEngine` is the byte engine of the RTL with its register block (Idle, Hold, a
command in flight, closing, aborting; result bits, fault latches) and a register-file slave behind it. How
long anything takes, whether the slave acknowledges, when a line fault strikes, what the live sensor
registers hold and the upper status bits are left to an arbitrary environment that is asked anew before
each register access. `I2cEngineRuns`, `I2cEnginePhases`, `I2cEngineTransactions` and `I2cSessions` carry
one phase, one transaction and any sequence of calls through it, `I2cFaults` says what the fault register
tells about them, `I2cProgress` shows that calls succeed and `I2cRecovery` that recovery does; `Mpu6500Bus` and `Mpu6500` say what that does
to the sensor's registers.

**SPI.** `SpiDevice` is the register wrapper, with a START that may be held pending while BUSY is low, and
an arbitrary peer; `SpiDriver.SpiPort` is the polling driver; `Adxl345Bus` adds chip-select frames and the
accelerometer as a peer; `Adxl345` is the driver on top.

**Main loop.** `FixedPoint`, `Waveforms`, `Digits` and `MotorLoop`. Unsigned 32-bit
wrap-around is written out (`Waveforms.Wrap`); signed 32-bit arithmetic is a newtype, so that verifying
the conversions includes the absence of overflow.

## Assumptions

About the I2C engine (rtl/peripherals/i2c/core/i2c_master_core.sv): Idle takes only START and Hold takes
WR, RD, STOP and RESTART (lines 222 to 248); readiness is shown only in those two states (lines 915 and
916); an abort request is taken in any state but Idle and leads to Idle (lines 252 to 257, 521 to 524, 661
to 677). SDA moving during a byte, or SCL not rising, makes the engine abort the command in flight by
itself, without a result (lines 252 to 257 and 375 to 407); the command may by then have reached the slave
or not. The three fault events are latched in the core until reset (lines 467 to 481). About its registers
(rtl/peripherals/i2c/regs/i2c_regs.sv:1-82): a command is launched only when ready (lines 277 to 280),
which clears the result bits; they are sticky until written with ones (lines 457 to 541); the fault bits
are set from the core's latches in every cycle, and setting wins over clearing (lines 543 to 600). That
DONE may be raised before the engine is back in Hold, as docs/notebook/ENG_NOTEBOOK_I2C.md:452-454 says of
an earlier core, is allowed for. The sensor ignores writes to its output registers and to WHO_AM_I; its
register pointer advances with every data byte and wraps at 256; it takes the engine's clean-up after an
abort for the end of the transaction.

About the SPI wrapper (rtl/peripherals/spi/regs/spi_regs.sv, contract in lines 75 to 108): a START is
latched if the stored ENABLE is up and no byte is in flight, and held until the shifter is ready (lines 316
to 346); the byte and XFER_END are taken when the launch leaves (lines 304 and 356 to 360, 425 to 430);
ENABLE cannot be written while a transaction is open (lines 385 to 391); the flags are sticky until cleared
(lines 432 to 461). The driver's waits are unbounded, so every delay is arbitrary but finite. The
accelerometer ignores writes to its output registers and to DEVID. In 3-wire mode it does not drive the
input of this 4-wire hookup (docs/notebook/ENG_NOTEBOOK_SPI.md:683-736), and what is on the line when it
does not is arbitrary.

## What the proofs found

- The NACK code of a data byte is held in eight bits and wraps at byte 253: its NACK is returned as
  success, and `i2c_tx_buf`, `i2c_tx_pkg` and `i2c_txrx_buf` go on sending. "Success means every byte was
  acknowledged" holds exactly for messages of at most 253 bytes, with or without a read
  (`I2cLimits.AckedIffShort`, and `I2cStrings.StringAckedIffShort` for strings).
- `i2c_tx_pkg` counts with an eight-bit index. On a string with no NUL at index 255 or below it starts
  over at character 0 and never returns on a device that keeps acknowledging
  (`I2cStrings.ReturnsIffTerminated`).
- An I2C transaction can return OK although its STOP was never carried out. If SCL does not rise in time the
  engine aborts the STOP by itself, and is then idle and ready, which is all the driver waits for. OK is the
  truth if and only if the engine aborted nothing meanwhile (`I2cFaults.SuccessIsTrue`); with SCL held low
  long enough in every STOP, every message is reported as sent (`I2cProgress.LostStopUnnoticed`). Faults in
  any other command are noticed, and the registers of the sensor are as reported either way
  (`Mpu6500Bus.LostStopAlike`).
- `i2c_clear_all_faults` clears nothing, and `i2c_init` leaves every fault bit up that was up: after it a fault
  bit is down if and only if its event has never happened since reset (`I2cFaults.ClearsNothing`,
  `I2cSessions.InitConverges`, `I2cSessions.InitKeepsFaults`). One abort outside Idle is enough.
- `i2c_set_divisor` divides by 4 d where the engine takes 4 (d + 1) clocks for a bit, so the bus is never too
  fast, but one divisor slower than it could be, except where the divisor is 1 (`I2cClock.LeastIffOne`). At
  50 MHz and 100 kHz it programs 125; 124 gives 100 kHz exactly.
- The motor sweep moves by at most 175 per tick except where the 32-bit tick counter wraps, because 2^32
  is not a multiple of the 80-tick period (`Waveforms.SweepSlew`). Its top is 7825, not the configured 8000.
- The triangle wave is a triangle exactly for periods up to 8589936 ticks; beyond, an intermediate
  product wraps in mid-slope (`Waveforms.TriangleShape`). It still never leaves 0..999.
- `ping_pong_index` computes its period in 32 bits. With 0x80000001 cells the period is 0 and the C code
  divides by zero; above, it is a saw-tooth that jumps back to 0, except with 0x80000002 cells
  (`Waveforms.PingPongMoves`). With 0x80000003 cells the index goes from 3 to 0.
- `spi_write_byte` waits for BUSY only, which is low while a launch is held pending. A second call then
  loses its START, and one of the two bytes is never sent: the second if the launch leaves in time, else the
  first (`SpiDevice.WriteByteSafe`, `SpiDevice.OneByteLost`). Whatever the delays, the write is safe exactly
  on an enabled port with no launch pending, which RX_VALID shows if it was cleared before the last START
  (`SpiDevice.SafeWhateverTheDelays`, `SpiDevice.RxValidIsSafe`). Blocking transfers alone never get there.
- A START in the word that first sets ENABLE is lost. `spi_transfer_byte_blocking` before `spi_init`
  therefore waits for ever (`SpiDevice.ReturnsIffEnabled`).
- XFER_END is taken when a launch leaves, not when START is written: `spi_init` on a launch still held makes
  it the last byte of its transaction (`SpiDriver.SpiPort.Init`).
- The main loop discards the result of its motor writes but records them as done, so a failed write is not
  retried; the loop is equivalent to one that writes every tick exactly when no write it makes fails
  (`MotorLoop.SkippedWritesInvisible`).

## Model

| member | source | states |
|---|---|---|
| `I2cRegisters.DecodeEncode` | sw/drivers/include/i2c_regs.h:68-87 | every command word is read back as the command it was written for; the abort word, which carries the START code, is never taken for a START |
| `I2cDriver.Bus.WaitCmdReady` | sw/drivers/src/i2c_regs.c:48-61 | the loop makes the status reads of the specification, in order, and returns its verdict |
| `I2cDriver.Bus.WaitIdleReady` | sw/drivers/src/i2c_regs.c:64-77 | same for the two-read wait; the idle bit is read only after ready was seen |
| `I2cDriver.Bus.WaitCmdCycle` | sw/drivers/src/i2c_regs.c:80-101 | same for the wait for DONE; CMD_ILLEGAL wins over DONE |
| `I2cDriver.Bus.AbortToIdle` | sw/drivers/src/i2c_regs.c:109-122 | one abort word, then idle-before-ready polling up to the limit |
| `I2cDriver.Bus.ForceIdle` | sw/drivers/src/i2c_regs.c:135-155 | the recovery sequence: nothing if idle and ready, else STOP if ready but not idle, else abort, then the closing wait |
| `I2cDriver.Bus.SetDivisor` | sw/drivers/src/i2c_regs.c:313-342 | writes exactly the divisor of the specification; no 32-bit intermediate overflows |
| `I2cDriver.Bus.Init` | sw/drivers/src/i2c_regs.c:349-361 | divisor, clear, recovery, clear again: exactly those register accesses |
| `I2cDriver.Bus.WritePhaseByte` | sw/drivers/src/i2c_regs.c:168-205 | wait, clear, stage, re-check, issue, wait for DONE, then ACK_VALID before ACK; the code returned is the one for what was seen |
| `I2cDriver.Bus.ReadPhaseByte` | sw/drivers/src/i2c_regs.c:208-239 | same for a read; RXDATA is read only after RD_DATA_VALID was seen |
| `I2cDriver.Bus.TxBuf` | sw/drivers/src/i2c_regs.c:461-531 | history and code are those of the transaction START, address, bytes, STOP; a null buffer with a length touches nothing |
| `I2cDriver.Bus.RxPkg` | sw/drivers/src/i2c_regs.c:534-607 | same for a read; the buffer holds the bytes received, in order, and is otherwise untouched, also when the call fails |
| `I2cDriver.Bus.TxRxBuf` | sw/drivers/src/i2c_regs.c:616-736 | same for the combined transaction, including the null-pointer cases and the buffer past the last completed read |
| `I2cTranscript.WaitCycleView` | sw/drivers/src/i2c_regs.c:80-101 | on any device the wait ends with DONE seen for the open command, with it refused, or with it still open |
| `I2cTranscript.AbortView` | sw/drivers/src/i2c_regs.c:109-122 | whatever came before, an abort adds exactly one ABORT to the transcript and leaves no command open |
| `I2cTranscript.PhaseView` | sw/drivers/src/i2c_regs.c:168-239 | a phase issues at most one command, and its code is determined by what the device reported for that command |
| `I2cTransactions.BodyRuns` | sw/drivers/src/i2c_regs.c:616-736 | a transaction that succeeds issued all its commands in order, each answered, and returns the bytes reported |
| `I2cTransactions.BodyBreaks` | sw/drivers/src/i2c_regs.c:616-736 | one that fails issued a proper start of them and then exactly one ABORT, and its code names the failing command |
| `I2cTransactions.Transaction` | sw/drivers/src/i2c_regs.c:461-736 | every transaction on every device: complete, declined with nothing issued, or cut short with one ABORT |
| `I2cGuarantees.TxRxTrace` | sw/drivers/src/i2c_regs.c:616-736 | true iff the whole command sequence was issued; false means none, or a proper prefix and one ABORT; rd_last only on the last read; any device |
| `I2cGuarantees.RxTrace` | sw/drivers/src/i2c_regs.c:534-607 | the same for the plain read |
| `I2cGuarantees.TxRxBytes` | sw/drivers/src/i2c_regs.c:616-736 | on success byte k of the result is what the device reported for read k, and there are exactly as many as asked for |
| `I2cGuarantees.TxRxAcked` | sw/drivers/src/i2c_regs.c:616-736 | with at most 253 data bytes, success means every written byte was acknowledged |
| `I2cGuarantees.CodeWrapsAt253` | sw/drivers/src/i2c_regs.c:27-31 | data byte 253 is the only one whose NACK code is the OK code |
| `I2cGuarantees.TxIsTxRxWithoutRead` | sw/drivers/src/i2c_regs.c:461-531 | sending is the combined transaction with nothing to read: same register accesses, same verdict |
| `I2cGuarantees.TxDiagnosis` | sw/drivers/src/i2c_regs.c:461-531 | up to 253 bytes the code is an exact diagnosis: 0, 2 and 3+k each if and only if the transcript is the corresponding one |
| `I2cLimits.AckedIffShort` | sw/drivers/src/i2c_regs.c:27-31 | for `i2c_txrx_buf` with any read length, and so for `i2c_tx_buf`: "success means all acknowledged" on every device if and only if the message has at most 253 bytes |
| `I2cLimits.SendPastRefusal` | sw/drivers/src/i2c_regs.c:616-736 | on a device that refuses operation 255 the transaction, read and STOP included, still returns OK |
| `I2cStrings.TxPkg` | sw/drivers/src/i2c_regs.c:373-458 | the string loop with its eight-bit index, followed for any number of rounds; null pointer gives an error and touches nothing |
| `I2cStrings.StringIsBuffer` | sw/drivers/src/i2c_regs.c:373-458 | with the NUL at index 255 or below, sending a string is sending the buffer of its characters |
| `I2cStrings.StringAckedIffShort` | sw/drivers/src/i2c_regs.c:373-458 | for strings too, success means all acknowledged on every device if and only if there are at most 253 characters |
| `I2cStrings.ReturnedIsBuffer` | sw/drivers/src/i2c_regs.c:373-458 | a string call that returns, terminated or broken off, did what sending the buffer of the characters it got through does |
| `I2cStrings.NeverEnds` | sw/drivers/src/i2c_regs.c:373-458 | with no NUL there, the loop is never at its end however often it goes round |
| `I2cStrings.SentForEver` | sw/drivers/src/i2c_regs.c:373-458 | on a device that acknowledges everything the loop is never broken off either |
| `I2cStrings.ReturnsIffTerminated` | sw/drivers/src/i2c_regs.c:373-458 | the call returns on every device if and only if there is a NUL at index 255 or below |
| `I2cPolls.TxRxPolls` | sw/drivers/src/i2c_regs.c:616-736 | at most 400002 (tx+rx+4) + 1000001 status reads, on any device, recovery included |
| `I2cPolls.PhasePolls` | sw/drivers/src/i2c_regs.c:168-239 | the share of one phase in that bound |
| `I2cPolls.RxPolls` | sw/drivers/src/i2c_regs.c:534-607 | at most 400002 (n+2) + 1000001 for the plain read |
| `I2cPolls.InitPolls` | sw/drivers/src/i2c_regs.c:349-361 | at most 1200007 for `i2c_init`, with its STOP, abort and closing wait |
| `I2cPolls.DeadDevice` | sw/drivers/src/i2c_regs.c:48-61 | on a device that shows only zeros a call returns 1 after exactly 200000 status reads and touches nothing else |
| `I2cHandshake.SessionOrderly` | sw/drivers/src/i2c_regs.c:168-239 | any session, on any device: every command but an abort is written right after a read that showed ready, with the sticky bits cleared before it and nothing in between but the byte to send; REG_RXDATA is read right after RD_DATA_VALID was seen |
| `I2cHandshake.InitFrame` | sw/drivers/src/i2c_regs.c:349-361 | start-up writes the divisor and clears both registers before anything else, and ends by clearing both |
| `I2cHandshake.RecoveryEnds` | sw/drivers/src/i2c_regs.c:135-155 | on any device recovery ends with ready and then idle seen in the last two reads, or after 200000 reads |
| `I2cClock.DivisorIsLeast` | sw/drivers/src/i2c_regs.c:313-342 | of the formula, core <= 4 d f: it holds for d if and only if d is at least the programmed value, which is at most 63750, so the clamp cannot act |
| `I2cClock.DivisorOnEngine` | rtl/peripherals/i2c/core/i2c_master_core.sv:283-299 | on the engine, whose quarters last d + 1 clocks: the programmed divisor never exceeds the request, and exactly the divisors from the one before it on respect it |
| `I2cClock.LeastIffOne` | sw/drivers/src/i2c_regs.c:313-342 | so it is the least divisor that respects the request if and only if it is 1 |
| `I2cClock.InitPrograms` | sw/drivers/src/i2c_regs.c:349-361 | on any device, whatever recovery does: after `i2c_init` the divisor register holds a v such that core <= 4 d f if and only if v <= d, for every d; 1 if an argument is zero |
| `I2cClock.SessionClock` | sw/drivers/src/i2c_regs.c:349-736 | after any session the register holds what the last `i2c_init` asked for, and with none what it held before: no other call changes the clock |
| `I2cEngine.StatusWord` | rtl/peripherals/i2c/regs/i2c_regs.sv:288-306 | the status word shows each state bit in its place, and ready exactly in Idle and Hold |
| `I2cEngineRuns.WaitReadyReach` | rtl/peripherals/i2c/core/i2c_master_core.sv:915-916 | polling lets at most the command in flight happen, once, or the engine abort it by itself, and a successful wait ends settled |
| `I2cEngineRuns.WaitCycleReach` | sw/drivers/src/i2c_regs.c:33-101 | no stale DONE: after clear-then-issue, DONE is seen only once that very command has happened, and never for a command the engine aborted; a failed wait leaves it in flight or aborted |
| `I2cEnginePhases.IssueOnEngine` | sw/drivers/src/i2c_regs.c:168-205 | a command is written only when the engine can take it and with every earlier result cleared |
| `I2cEnginePhases.PhaseOnEngine` | sw/drivers/src/i2c_regs.c:168-239 | a successful or refused phase: the last thing on the bus is its command, with the very result reported, save that a STOP may have been aborted by the engine; any other ending: the command in flight, done or aborted |
| `I2cEngineTransactions.AbortOnEngine` | sw/drivers/src/i2c_regs.c:109-122 | an abort is taken in every state but Idle, adds nothing to a clean-up already under way, and leads only to Idle |
| `I2cEngineTransactions.StopOnEngine` | sw/drivers/src/i2c_regs.c:168-205 | a STOP reported as done has closed the transaction, or the engine has aborted it on an SCL line that did not rise |
| `I2cEngineTransactions.BodyOnEngine` | sw/drivers/src/i2c_regs.c:616-736 | the part after START, by induction over the phases, line faults included |
| `I2cEngineTransactions.TransactionOnEngine` | sw/drivers/src/i2c_regs.c:461-736 | success: the engine is Idle and the bus did exactly what was reported, or all but the closing STOP, which the engine aborted on an SCL line that did not rise; failure: what was reported, at most one unreported command, and at most one abort; no command misused |
| `I2cFaults.FaultsTell` | rtl/peripherals/i2c/regs/i2c_regs.sv:543-600 | whatever software does from reset on, latches and fault register show exactly the events that have happened |
| `I2cFaults.ClearsNothing` | sw/drivers/include/i2c_regs.h:203-216 | from reset on, no write to the fault register changes anything |
| `I2cFaults.SuccessIsTrue` | sw/drivers/src/i2c_regs.c:461-736 | a transaction that returns OK was carried out exactly as reported if and only if the engine aborted nothing meanwhile, that is, if ABORT_SEEN was down before, if and only if it still is |
| `I2cSessions.SteadyStop` | sw/drivers/src/i2c_regs.c:135-155 | recovery writes STOP only in Hold |
| `I2cSessions.InitOnEngine` | sw/drivers/src/i2c_regs.c:349-361 | from any state, with any delays: Idle or aborting, and no command the engine could not take |
| `I2cSessions.InitConverges` | sw/drivers/src/i2c_regs.c:349-361 | if whatever is in flight ends within the polling limit: Idle, with no sticky status bit left; a fault bit is down afterwards if and only if its event has never happened since reset |
| `I2cSessions.InitKeepsFaults` | sw/drivers/src/i2c_regs.c:349-361 | on an idle engine every fault bit that was up before is up after |
| `I2cSessions.PromptWait` | sw/drivers/src/i2c_regs.c:64-77 | the wait for idle succeeds if the engine settles within its reads |
| `I2cSessions.CallOnEngine` | sw/drivers/src/i2c_regs.c:349-736 | one call, string calls included, keeps "Idle or on the way there" and misuses no command, whatever the engine aborts by itself |
| `I2cSessions.AnySession` | sw/drivers/src/i2c_regs.c:349-736 | so does any sequence of calls that return, whatever they return: START only in Idle, WR, RD, RESTART and STOP only in Hold |
| `I2cProgress.DoneInTime` | sw/drivers/src/i2c_regs.c:80-101 | the wait for DONE succeeds if the engine settles within its reads and no line fault strikes, and a willing slave has acknowledged exactly what is its own |
| `I2cProgress.PhaseAnswered` | sw/drivers/src/i2c_regs.c:168-239 | on a prompt engine, with no line fault outside a STOP, a phase fails only on a byte the slave does not take, and then with its NACK code |
| `I2cProgress.TransactionSucceeds` | sw/drivers/src/i2c_regs.c:461-736 | likewise a transaction that writes only what the slave takes returns OK |
| `I2cProgress.TxRxSucceeds` | sw/drivers/src/i2c_regs.c:616-736 | prompt engine, willing slave, no line fault outside a STOP: OK for the slave's address, the address-NACK code for every other, whatever is sent or read |
| `I2cProgress.RxSucceeds` | sw/drivers/src/i2c_regs.c:534-607 | the same for the plain read |
| `I2cProgress.NextCallSucceeds` | sw/drivers/src/i2c_regs.c:349-736 | and so does the next call after any session, whatever the calls before it returned |
| `I2cProgress.LostStopUnnoticed` | sw/drivers/src/i2c_regs.c:616-736 | if SCL does not rise in any STOP, every message and read is still reported as done, and no STOP has been carried out |
| `I2cProgress.PromptExists` | rtl/peripherals/i2c/core/i2c_master_core.sv:661-677 | from every state and with every slave there is such an engine, and such a one on which every STOP fails, so the assumptions are not empty |
| `I2cRecovery.AbortEndsIdle` | sw/drivers/src/i2c_regs.c:109-122 | on a prompt engine, whatever it was doing, the abort comes back with it idle |
| `I2cRecovery.RecoveryFromHold` | sw/drivers/src/i2c_regs.c:135-155 | from a held bus recovery issues one STOP and no abort and ends idle; on the bus that STOP is carried out, unless the engine aborted it on an SCL line that did not rise |
| `Mpu6500Bus.BurstServes` | sw/drivers/src/i2c_regs.c:616-736 | a burst of reads is served by consecutive registers, each as it is at that read |
| `Mpu6500Bus.ReadKeeps` | sw/drivers/src/i2c_mpu6500.c:55-63 | a read that is cut short anywhere changes no register |
| `Mpu6500Bus.WriteStoresOrNot` | sw/drivers/src/i2c_mpu6500.c:30-41 | a write that is cut short anywhere has stored the value or changed nothing |
| `Mpu6500Bus.LostStopAlike` | sw/drivers/src/i2c_regs.c:461-736 | to the sensor it is all one whether the closing STOP was carried out or aborted: same registers, same bytes handed out |
| `Mpu6500.BigEndianS16` | sw/drivers/src/i2c_mpu6500.c:11-14 | the decoded value is a signed 16-bit one |
| `Mpu6500.BigEndianRoundTrip` | sw/drivers/src/i2c_mpu6500.c:11-14 | every 16-bit value is decoded from exactly its own two bytes, high byte first |
| `Mpu6500.ReadRegsOnEngine` | sw/drivers/src/i2c_mpu6500.c:55-63 | true means the bytes are registers start, start+1, ... at the moment of each read; no register changes either way |
| `Mpu6500.WriteRegOnEngine` | sw/drivers/src/i2c_mpu6500.c:30-41 | true means the register holds the value; false, that it does or nothing changed |
| `Mpu6500.WriteThenRead` | sw/drivers/src/i2c_mpu6500.c:30-52 | a successful write followed by a successful read returns the value written |
| `Mpu6500.ConfigureOnEngine` | sw/drivers/src/i2c_mpu6500.c:112-149 | after an error exactly the settings confirmed so far are stored, or one more |
| `Mpu6500.StoreAllKeeps` | sw/drivers/src/i2c_mpu6500.c:112-149 | what the driver writes is, in this order, 0x01 to 0x6B, 0x00 to 0x6C, 0x00 to 0x19, 0x01 to 0x1A, 0x00 to 0x1B, 0x00 to 0x1C, 0x01 to 0x1D; they do not overwrite one another and touch no other register |
| `Mpu6500.InitBasicOnEngine` | sw/drivers/src/i2c_mpu6500.c:98-152 | OK: those seven registers hold those values, nothing else changed, and register 0x75 was 0x70; error: the first c or c+1 of them, c writes confirmed; mismatch: 0x75 was not 0x70 and nothing changed |
| `Mpu6500.InitBasicSucceeds` | sw/drivers/src/i2c_mpu6500.c:98-152 | on a prompt engine with a willing sensor and no line fault outside a STOP the status is OK if register 0x75 is 0x70, else the identity mismatch |
| `Mpu6500.WriteRegister` | sw/drivers/src/i2c_mpu6500.c:30-41 | register address then value in one transmission; true iff its code is OK |
| `Mpu6500.ReadRegister` | sw/drivers/src/i2c_mpu6500.c:44-52 | one byte into the destination on success; a null destination touches nothing |
| `Mpu6500.ReadRegisters` | sw/drivers/src/i2c_mpu6500.c:55-63 | the buffer holds the bytes received and is otherwise untouched; null with a length touches nothing |
| `Mpu6500.InitializeBasic` | sw/drivers/src/i2c_mpu6500.c:98-152 | the identity check and the seven writes in order, giving up at the first failure |
| `Mpu6500.SampleOnEngine` | sw/drivers/src/i2c_mpu6500.c:159-182 | on success the sensor has handed out registers 0x3B to 0x48, once each and in order, and ax is the word of 0x3B and 0x3C, and so on to gz of 0x47 and 0x48; no register is changed, also on failure |
| `Mpu6500.ReadRawSample` | sw/drivers/src/i2c_mpu6500.c:159-182 | does that on every engine behind the device; on any device one 14-byte burst decoded into the seven fields; on failure the sample is unchanged |
| `SpiDevice.DrainPending` | rtl/peripherals/spi/regs/spi_regs.sv:304-360 | left alone, a pending launch ends in the byte and the XFER_END then in the registers, however long it is held |
| `SpiDevice.TickArrives` | sw/drivers/src/spi_regs.c:100-130 | every access brings a byte on its way closer, and RX_VALID goes up exactly on arrival |
| `SpiDevice.ClearWord` | sw/drivers/include/spi_regs.h:100-103 | the word a flag clear writes carries the old ENABLE and XFER_END, both clear bits and no START |
| `SpiDevice.NotBusyDrains` | sw/drivers/src/spi_regs.c:100-116 | with no launch held pending, BUSY low means everything on its way has arrived |
| `SpiDevice.WriteByteSafe` | sw/drivers/src/spi_regs.c:161-177 | a write loses no START if and only if the port is enabled and no launch is held back by then; and then what was on its way arrives and this byte is launched |
| `SpiDevice.SafeWhateverTheDelays` | sw/drivers/src/spi_regs.c:161-177 | for a caller, who cannot read the delays: the write is safe for every hold and shift if and only if the port is enabled and no launch is pending |
| `SpiDevice.RxValidIsSafe` | sw/drivers/src/spi_regs.c:19-36 | with RX_VALID down while at most one launch is on its way, RX_VALID up at any later read means that nothing is pending, and the next write is safe |
| `SpiDevice.ReturnsIffEnabled` | sw/drivers/src/spi_regs.c:187-220 | a blocking exchange begun with nothing on its way sees RX_VALID at some read if and only if the port was enabled before |
| `SpiDevice.OneByteLost` | sw/drivers/src/spi_regs.c:161-177 | with a launch held back one byte goes out instead of two: the first if it is held for one more access, else the second, with the XFER_END of the first call if it leaves before the second START and of the second call otherwise |
| `SpiDriver.SpiPort.ClearStatusFlags` | sw/drivers/include/spi_regs.h:103 | in any state it keeps ENABLE and XFER_END and launches nothing; at rest it clears the two flags only |
| `SpiDriver.SpiPort.Init` | sw/drivers/src/spi_regs.c:58-75 | in any state: XFER_END set, ENABLE set unless a transaction is open on a disabled port, nothing launched; a byte in flight is not disturbed, but a launch still held when CTRL is written goes out with XFER_END set; at rest exactly enabled and both flags clear |
| `SpiDriver.SpiPort.WaitNotBusy` | sw/drivers/src/spi_regs.c:100-116 | from any state: terminates, loses no byte, and at rest changes nothing; it may return with a launch still pending |
| `SpiDriver.SpiPort.WaitRxValid` | sw/drivers/src/spi_regs.c:118-126 | terminates when a byte is on its way, and then that byte has arrived |
| `SpiDriver.SpiPort.WriteByte` | sw/drivers/src/spi_regs.c:161-177 | the register accesses from any state; on an enabled port a byte still shifting is waited for, and then exactly one launch of this byte with this XFER_END is pending |
| `SpiDriver.SpiPort.TransferByteBlocking` | sw/drivers/src/spi_regs.c:187-220 | on an enabled port it returns the byte clocked in by its own launch, though BUSY may still be low after START, and leaves nothing on its way |
| `Adxl345Bus.OutsAreFrames` | sw/drivers/src/adxl345.c:46-106 | only the last byte of a call carries XFER_END; a read of n bytes launches n+1 |
| `Adxl345Bus.OneFrame` | sw/drivers/src/adxl345.c:46-106 | a call on a released line adds exactly one chip-select frame and releases the line |
| `Adxl345Bus.AnyRun` | sw/drivers/src/adxl345.c:46-106 | so does each call of any run: frames and calls correspond one to one, in order and byte for byte, with XFER_END on the last byte of each frame only |
| `Adxl345Bus.CommandDecodes` | sw/drivers/src/adxl345.c:16-29 | the sensor reads direction, multiple-byte flag and register back out of the command byte |
| `Adxl345Bus.Serves` | sw/drivers/src/adxl345.c:88-106 | the dummy bytes of a read shift out one register after the other |
| `Adxl345Bus.ReadRefines` | sw/drivers/src/adxl345.c:88-106 | a burst read returns the register window from its start on and changes no register |
| `Adxl345Bus.WriteRefines` | sw/drivers/src/adxl345.c:46-51 | a write stores the value in its register and changes nothing else |
| `Adxl345.WriteReg` | sw/drivers/src/adxl345.c:46-51 | on the enabled port, exactly the two bytes of a write frame are exchanged |
| `Adxl345.ReadReg` | sw/drivers/src/adxl345.c:65-75 | the destination gets the second byte of the frame; a null destination touches nothing |
| `Adxl345.ReadRegs` | sw/drivers/src/adxl345.c:88-106 | len+1 launches; byte i of the buffer is the answer to dummy byte i, the rest is untouched; null or no length touches nothing |
| `Adxl345.XyzOnSensor` | sw/drivers/src/adxl345.c:146-162 | x, y and z are the words of the sensor's registers 0x32 and 0x33, 0x34 and 0x35, 0x36 and 0x37, low byte first; no register is changed |
| `Adxl345.ReadXyzRaw` | sw/drivers/src/adxl345.c:146-162 | does that on every sensor; on any peer one burst of six, decoded axis by axis |
| `Adxl345.LittleEndianRoundTrip` | sw/drivers/src/adxl345.c:155-159 | every 16-bit value is decoded from exactly its own two bytes, low byte first |
| `Adxl345.InitializeDefault` | sw/drivers/src/adxl345.c:185-211 | the accesses and the verdict of the bring-up sequence |
| `Adxl345.InitOnSensor` | sw/drivers/src/adxl345.c:185-211 | whatever mode the sensor was in, the DATA_FORMAT check passes; OK iff register 0 is 0xE5, and then 0x31 is 0x00, 0x2C is 0x0A, 0x2D is 0x08 and nothing else changed |
| `Adxl345.InitSends` | sw/drivers/src/adxl345.c:185-211 | the bytes and frames that go out, on any wire: 31 00, B1 00, 80 00, 2C 0A, 2D 08, cut off after the second or third frame if a check fails |
| `Adxl345.InitOnStuckLine` | sw/drivers/src/adxl345.c:185-211 | a line stuck at any byte is rejected: DATA_FORMAT error, or DEVID error if it is stuck at 0 |
| `FixedPoint.RoundedIsNearest` | base_main.c:82-93 | the quotient is a nearest integer, ties away from zero |
| `FixedPoint.NearestIsRounded` | base_main.c:82-93 | and it is the only one |
| `FixedPoint.RoundedIsOdd` | base_main.c:82-93 | rounding commutes with the sign |
| `FixedPoint.RoundedIsMonotone` | base_main.c:82-93 | rounding keeps order |
| `FixedPoint.DivRoundNearest` | base_main.c:82-93 | the 32-bit computation is that rounding whenever its sum fits; a non-positive divisor gives 0 |
| `FixedPoint.RawToMilliG` | base_main.c:142-145 | no overflow for any raw word and any resolution; nearest, and at most 1024000 in size from 32 LSB/g on |
| `FixedPoint.NormalizeToS8` | base_main.c:317-334 | nearest of -127..127 inside full scale, saturated outside, never out of int8 |
| `FixedPoint.MpuStaysInScale` | base_main.c:112-145 | at every MPU range no raw word exceeds full scale, so the clamps cannot act |
| `FixedPoint.MpuDisplayError` | base_main.c:112-145 | the shown byte is within 1/2 + 127/(2 full scale) of 127 raw / 32768 |
| `FixedPoint.AdxlStaysInScale` | base_main.c:95-130 | the ADXL chain is within full scale iff the word fits the configured resolution; else it saturates |
| `FixedPoint.FullScales` | base_main.c:122-140 | full scale is 2000 mg times 1, 2, 4, 8 for the range in bits 0 and 1 of DATA_FORMAT, bits 3 and 4 of ACCEL_CONFIG |
| `FixedPoint.AdxlResolution` | base_main.c:95-110 | resolution times full scale is 512 * 1000, or the resolution is 256 at every range with bit 3 set |
| `FixedPoint.AdxlDisplayError` | base_main.c:95-145 | a word within scale is shown within 1/2 + 127/(2 full scale) of 127 raw / 512, or in full resolution of 127000 raw / (256 full scale) |
| `FixedPoint.DisplayIsMonotone` | base_main.c:317-334 | the two rounding steps never reverse two readings |
| `FixedPoint.GyroDisplay` | base_main.c:400-404 | a gyroscope word is shown unclamped and nearest |
| `Waveforms.Triangle` | base_main.c:177-194 | below 1000 for every phase and period, wrapped products included |
| `Waveforms.TriangleShape` | base_main.c:177-194 | rises over the first half and falls over the second if and only if the period is at most 8589936 |
| `Waveforms.TrianglePalindrome` | base_main.c:177-194 | an even period reads the same backwards |
| `Waveforms.PingPong` | base_main.c:196-213 | always a valid index |
| `Waveforms.PingPongWalks` | base_main.c:196-213 | for every count of two or more the C code is defined on: the closed form is a point walking to and fro one cell per step if and only if there are at most 2^31 cells |
| `Waveforms.PingPongMoves` | base_main.c:196-213 | every step moves it by exactly one cell if and only if there are at most 2^31 cells, or 2^31 + 2 |
| `Waveforms.PingPongWraps` | base_main.c:196-213 | across the wrap of the step counter it moves by one exactly when the period happens to end beside cell 0 |
| `Waveforms.Brightness` | base_main.c:240-250 | between 30 and 1000 thousandths, and fully lit at the head |
| `Waveforms.LedDutyRange` | base_main.c:227-259 | every duty is in 749..24999 for every 32-bit step, and the running head is always at 24999 |
| `Waveforms.BrightnessIs` | base_main.c:215-250 | the light of a channel: ambient in 30..81, the tail 1000, 550, 220, 80, 25, 0 behind the first head, half of it behind the second, sparkle in 0..49, at most 1000 |
| `Waveforms.NearerIsBrighter` | base_main.c:215-250 | moving a channel nearer to either head, all else equal, never dims it |
| `Waveforms.LedDutyIs` | base_main.c:227-251 | for every step and channel, counter wrap included, the duty is that light for heads going to and fro over ten cells, one at half the speed of the other |
| `Waveforms.LedFrame` | base_main.c:227-259 | the loop fills all ten channels with those duties; at step 0 they are 24999, 14849, 6974, 3824, 2349, 1674, 1999, 3549, 8024, 14024 |
| `Waveforms.SweepSteps` | base_main.c:371-377 | the sweep climbs and descends in equal steps of 175, resting one tick at each end |
| `Waveforms.SweepRange` | base_main.c:371-377 | the sweep stays in 1000..7825 |
| `Waveforms.SweepSlew` | base_main.c:371-377 | one tick moves it by at most 175 if and only if the tick counter does not wrap |
| `Digits.PackDecimal` | sw/app/src/main.c:71-93 | for every 32-bit value the display shows six digits 0 to 9 that read as its last six decimal digits |
| `Digits.OneReading` | sw/drivers/src/seg7_debug_regs.c:133-146 | no other word reads that way |
| `Digits.PackBytes` | base_main.c:336-341 | three bytes side by side, nothing lost or overlapping |
| `Digits.PackFields` | base_main.c:343-354 | two twelve-bit fields side by side, higher bits dropped |
| `MotorLoop.Controller.ApplySignedPair` | base_main.c:292-315 | shadow writes and commit up to the first failure; true iff none failed |
| `MotorLoop.Controller.Tick` | base_main.c:618-684 | one pass of the loop over its variables and the motor registers, whatever calls fail |
| `MotorLoop.SameCommand` | base_main.c:618-684 | the remembered command is that of a loop that writes every tick, and says what that loop committed |
| `MotorLoop.OneTick` | base_main.c:618-684 | a write is due exactly when the wanted output changes; the output stays right iff that write succeeds |
| `MotorLoop.SkippedWritesInvisible` | base_main.c:618-684 | for every switch history the committed output equals, tick by tick, that of a loop which writes every tick, if and only if no write the loop makes fails |
| `MotorLoop.SwitchesDecide` | base_main.c:618-684 | if no write fails, after every tick: coasting, or both channels carry the duty given at the last tick that neither coasted nor held, 1000 + 175 y for the sweep, y going from 0 to 39 and back over 80 ticks, or 2000 without it; 0 if there was none |

## Left out

- Console output, `usleep`, the JTAG UART and base addresses: input and output only.
- Bit-level SDA and SCL timing: not part of this model. The RTL is modelled at its registers, one command or byte at a time; a line fault is an event of the environment.
- `i2c_tx_byte`, `i2c_rx_byte`, `mpu6500_probe` and the ADXL345 setters: one-line calls of modelled functions.
- Latching of the written divisor at START, and the register reads of divisor and faults: the driver only writes both.
- The SPI bits TX_READY and CS_ACTIVE and its interrupt registers, `spi_begin_transaction` and `spi_end_transaction`: the blocking path does not use them.
- The float conversions of sw/drivers/src/i2c_mpu6500.c: rounding of floats is not modelled.
- `mpu6500_temp_raw_to_centi_f`: its factor 100/33387 is not that of the temperature formula in the MPU-6500 driver, so no agreement between the two is claimed.
- `motor_apply_switch_control` and its shadow registers in sw/app/src/main.c: when a pending APPLY commits is not stated in any header.
- The motor calls of base_main.c match no header in the repository; `MotorLoop` takes them as shadow writes and a commit, each of which may fail and then changes nothing.
- GPIO, PWM and seven-segment setters: single register writes.
- Bitwise masks and shifts are written as divisions and remainders, C pointers as nullable arrays: two buffers are the same array or disjoint, never partly overlapping.
- I2cStrings.TxPkg: the loop of an unterminated string is followed for any given number of rounds, because the C loop does not return.
- SpiDriver.SpiPort.TransferByteBlocking: asks for an enabled port with nothing on its way, because on any other port it need not return, or not with its own byte; every hold and shift delay is finite, because the C loops wait without a bound.
- SpiDriver.SpiPort.WaitRxValid: asks for a byte on its way on an enabled port, or RX_VALID up, because otherwise the C loop does not return.
- Adxl345.WriteReg: this call and the other ADXL345 calls ask for the port as `spi_init` and each call leave it, because a blocking exchange on a port never enabled does not return (`SpiDevice.ReturnsIffEnabled`).
- Mpu6500.ReadRegsOnEngine: for registers that change by themselves the value is whatever the sensor holds at that read.
