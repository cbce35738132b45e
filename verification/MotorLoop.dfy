/**
 The motor part of the main loop. The loop remembers what it last wrote and skips the writes that would repeat
 it; the results of its motor calls are discarded.
 */
module MotorLoop {
  import opened MachineWords
  import W = Waveforms

  const SMALL_DUTY := 2000

  // ------------------------------------------------------------------- motor

  datatype Drive = Coast | Duty(duty: int)

  datatype Output = Output(left: Drive, right: Drive)

  /** Writes go to shadow registers; applying them commits both channels at once. */
  datatype Motor = Motor(shadow: Output, committed: Output)

  const COASTING := Output(Coast, Coast)

  function Driving(left: int, right: int): Output { Output(Duty(left), Duty(right)) }

  /** Which of the calls of one tick succeed. A call that fails leaves the motor as it was. */
  datatype Luck = Luck(first: bool, second: bool, apply: bool)

  /** `motor_pwm_coast_all` then `motor_pwm_apply`, neither result looked at. */
  function CoastAll(m: Motor, luck: Luck): Motor {
    var shadow := if luck.first then COASTING else m.shadow;
    Motor(shadow, if luck.apply then shadow else m.committed)
  }

  /** `motor_apply_signed_pair`: gives up at the first failure. */
  function ApplyPair(m: Motor, left: int, right: int, luck: Luck): Motor {
    if !luck.first then m
    else
      var half := m.(shadow := m.shadow.(left := Duty(left)));
      if !luck.second then half
      else
        var full := half.(shadow := half.shadow.(right := Duty(right)));
        if !luck.apply then full else full.(committed := full.shadow)
  }

  // -------------------------------------------------------------------- loop

  datatype Switches = Switches(coast: bool, hold: bool, sweep: bool)

  /** The commanded duties the loop carries from one tick to the next. */
  datatype Command = Command(left: int, right: int)

  function NextCommand(c: Command, sw: Switches, tick: Word): Command {
    if sw.coast || sw.hold then c
    else if sw.sweep then var d := W.SweepDuty(tick); Command(d, d)
    else Command(SMALL_DUTY, SMALL_DUTY)
  }

  /** What the motor is meant to do this tick. */
  function Wanted(c: Command, sw: Switches, tick: Word): Output {
    if sw.coast then COASTING
    else
      var n := NextCommand(c, sw, tick);
      Driving(n.left, n.right)
  }

  datatype Lazy = Lazy(command: Command, coasting: bool, tick: Word, motor: Motor)

  predicate Writes(s: Lazy, sw: Switches) {
    if sw.coast then !s.coasting else s.coasting || NextCommand(s.command, sw, s.tick) != s.command
  }

  function Step(s: Lazy, sw: Switches, luck: Luck): Lazy {
    var n := NextCommand(s.command, sw, s.tick);
    var motor := if !Writes(s, sw) then s.motor
                 else if sw.coast then CoastAll(s.motor, luck)
                 else ApplyPair(s.motor, n.left, n.right, luck);
    Lazy(n, sw.coast, W.Wrap(s.tick + 1), motor)
  }

  /** The state `motor_init_idle` leaves when it reports success. */
  const IDLE := Lazy(Command(0, 0), false, 0, Motor(Driving(0, 0), Driving(0, 0)))

  /** The loop as written, over its local variables and the motor's registers. */
  class Controller {
    var left: int
    var right: int
    var coasting: bool
    var tick: Word
    var shadow: Output
    var committed: Output

    constructor ()
      ensures State() == IDLE
    {
      left, right, coasting, tick := 0, 0, false, 0;
      shadow, committed := Driving(0, 0), Driving(0, 0);
    }

    ghost function State(): Lazy
      reads this
    {
      Lazy(Command(left, right), coasting, tick, Motor(shadow, committed))
    }

    method PwmCoastAll(ok: bool)
      modifies this`shadow
      ensures shadow == if ok then COASTING else old(shadow)
    {
      if ok { shadow := COASTING; }
    }

    method PwmApply(ok: bool)
      modifies this`committed
      ensures committed == if ok then shadow else old(committed)
    {
      if ok { committed := shadow; }
    }

    method ApplySignedPair(l: int, r: int, luck: Luck) returns (ok: bool)
      modifies this`shadow, this`committed
      ensures Motor(shadow, committed) == ApplyPair(old(Motor(shadow, committed)), l, r, luck)
      ensures ok <==> luck.first && luck.second && luck.apply
    {
      if !luck.first { return false; }
      shadow := shadow.(left := Duty(l));
      if !luck.second { return false; }
      shadow := shadow.(right := Duty(r));
      PwmApply(luck.apply);
      return luck.apply;
    }

    method Tick(sw: Switches, luck: Luck)
      modifies this
      ensures State() == Step(old(State()), sw, luck)
    {
      var nextLeft, nextRight := left, right;
      if sw.coast {
        if !coasting {
          PwmCoastAll(luck.first);
          PwmApply(luck.apply);
          coasting := true;
        }
      } else {
        if !sw.hold {
          if sw.sweep {
            var duty := W.SweepDuty(tick);
            nextLeft, nextRight := duty, duty;
          } else {
            nextLeft, nextRight := SMALL_DUTY, SMALL_DUTY;
          }
        }
        if coasting || nextLeft != left || nextRight != right {
          var _ := ApplySignedPair(nextLeft, nextRight, luck);
          left, right, coasting := nextLeft, nextRight, false;
        }
      }
      tick := W.Wrap(tick + 1);
    }
  }

  // -------------------------------------------------------------------- runs

  /** Switch settings and call outcomes, tick by tick. */
  datatype Moment = Moment(sw: Switches, luck: Luck)

  function Run(moments: seq<Moment>): Lazy {
    if moments == [] then IDLE
    else Step(Run(moments[..|moments| - 1]), moments[|moments| - 1].sw, moments[|moments| - 1].luck)
  }

  /** The same loop with no memory of what it wrote: every tick writes both channels and applies them. */
  datatype Eager = Eager(command: Command, tick: Word, committed: Output)

  function EagerStep(e: Eager, sw: Switches): Eager {
    Eager(NextCommand(e.command, sw, e.tick), W.Wrap(e.tick + 1), Wanted(e.command, sw, e.tick))
  }

  function EagerRun(moments: seq<Moment>): Eager {
    if moments == [] then Eager(Command(0, 0), 0, Driving(0, 0))
    else EagerStep(EagerRun(moments[..|moments| - 1]), moments[|moments| - 1].sw)
  }

  /** The calls a write makes all succeed. */
  predicate Succeeds(sw: Switches, luck: Luck) { luck.first && (sw.coast || luck.second) && luck.apply }

  /** Every write of the run succeeds; ticks that write nothing are free to be unlucky. */
  predicate Lucky(moments: seq<Moment>) {
    forall i :: 0 <= i < |moments| ==>
      var m := moments[i]; Writes(Run(moments[..i]), m.sw) ==> Succeeds(m.sw, m.luck)
  }

  predicate Agree(moments: seq<Moment>) {
    forall i :: 0 <= i <= |moments| ==> Run(moments[..i]).motor.committed == EagerRun(moments[..i]).committed
  }

  lemma {:induction false} SameCommand(moments: seq<Moment>)
    ensures var s, e := Run(moments), EagerRun(moments);
            && s.command == e.command && s.tick == e.tick
            && (if s.coasting then e.committed == COASTING
                else e.committed == Driving(s.command.left, s.command.right))
  {
    if moments != [] { SameCommand(moments[..|moments| - 1]); }
  }

  /**
     A write is due exactly when the wanted output changes. So one tick keeps the committed output right if the
     write it makes, if any, succeeds; and breaks it if that write fails.
   */
  lemma OneTick(s: Lazy, e: Eager, sw: Switches, luck: Luck)
    requires s.command == e.command && s.tick == e.tick
    requires e.committed == if s.coasting then COASTING else Driving(s.command.left, s.command.right)
    requires s.motor == Motor(e.committed, e.committed)
    ensures var t, f := Step(s, sw, luck), EagerStep(e, sw);
            && (Writes(s, sw) <==> f.committed != e.committed)
            && (t.motor.committed == f.committed <==> Writes(s, sw) ==> Succeeds(sw, luck))
            && (t.motor.committed == f.committed ==> t.motor.shadow == f.committed)
  {
  }

  lemma {:induction false} Synchronised(moments: seq<Moment>)
    requires Agree(moments)
    ensures Run(moments).motor == Motor(EagerRun(moments).committed, EagerRun(moments).committed)
  {
    if moments != [] {
      var before := moments[..|moments| - 1];
      AgreeBefore(moments);
      Synchronised(before);
      SameCommand(before);
      var m := moments[|moments| - 1];
      OneTick(Run(before), EagerRun(before), m.sw, m.luck);
      assert moments[..|moments|] == moments;
    }
  }

  lemma AgreeBefore(moments: seq<Moment>)
    requires moments != [] && Agree(moments)
    ensures Agree(moments[..|moments| - 1])
  {
    var before := moments[..|moments| - 1];
    forall i | 0 <= i <= |before|
      ensures Run(before[..i]).motor.committed == EagerRun(before[..i]).committed
    {
      assert before[..i] == moments[..i];
    }
  }

  /**
     For every switch history, the skipped writes are invisible exactly when no write the loop does make fails:
     the committed output then equals, tick by tick, that of a loop which writes every tick.
   */
  lemma {:induction false} SkippedWritesInvisible(moments: seq<Moment>)
    ensures Agree(moments) <==> Lucky(moments)
  {
    if moments == [] {
      assert moments[..0] == [];
    } else {
      var n := |moments| - 1;
      var before, m := moments[..n], moments[n];
      SkippedWritesInvisible(before);
      SplitLast(moments);
      if Agree(before) {
        Synchronised(before);
        SameCommand(before);
        OneTick(Run(before), EagerRun(before), m.sw, m.luck);
      }
    }
  }

  lemma SplitLast(moments: seq<Moment>)
    requires moments != []
    ensures var n := |moments| - 1;
            var before, m := moments[..n], moments[n];
            && (Agree(moments) <==>
                  Agree(before) && Run(moments).motor.committed == EagerRun(moments).committed)
            && (Lucky(moments) <==> Lucky(before) && (Writes(Run(before), m.sw) ==> Succeeds(m.sw, m.luck)))
  {
    hide Run, EagerRun, Writes, Succeeds;
    var n := |moments| - 1;
    var before := moments[..n];
    assert forall i :: 0 <= i <= n ==> before[..i] == moments[..i];
    assert moments[..|moments|] == moments;
  }

  // -------------------------------------------------------------------- what the switches do

  function Both(duty: int): Output { Output(Duty(duty), Duty(duty)) }

  /** Neither coasting nor holding: the duty is given anew. */
  predicate Free(sw: Switches) { !sw.coast && !sw.hold }

  /** The duty given at tick number `n`: the sweep, in steps of 175 over 80 ticks of a 32-bit counter, or 2000. */
  function Given(sw: Switches, n: nat): int {
    var x := n % 0x1_0000_0000 % 80;
    if sw.sweep then 1000 + 175 * (if x < 40 then x else 79 - x) else 2000
  }

  /** Tick `k` is the last free one. */
  predicate LastFree(moments: seq<Moment>, k: nat) {
    k < |moments| && Free(moments[k].sw) && forall i :: k < i < |moments| ==> !Free(moments[i].sw)
  }

  predicate NeverFree(moments: seq<Moment>) { forall i :: 0 <= i < |moments| ==> !Free(moments[i].sw) }

  /**
     In a run in which no write fails, the switches decide what is committed after every tick.  Coasting lets both
     channels go; otherwise both carry the duty given at the last tick that neither coasted nor held, this one if
     it is such a tick, or 0 if there has been none.
  */
  lemma SwitchesDecide(moments: seq<Moment>)
    requires moments != [] && Lucky(moments)
    ensures var out := Run(moments).motor.committed;
            if moments[|moments| - 1].sw.coast then out == Output(Coast, Coast)
            else
              && (forall k: nat :: LastFree(moments, k) ==> out == Both(Given(moments[k].sw, k)))
              && (NeverFree(moments) ==> out == Both(0))
  {
    hide Given, NextCommand;
    SkippedWritesInvisible(moments);
    assert moments[..|moments|] == moments;
    CommandIs(moments);
    SameCommand(moments);
  }

  lemma {:induction false} CommandIs(moments: seq<Moment>)
    ensures var e := EagerRun(moments);
            && e.tick == |moments| % 0x1_0000_0000
            && (forall k: nat :: LastFree(moments, k) ==>
                  e.command == Command(Given(moments[k].sw, k), Given(moments[k].sw, k)))
            && (NeverFree(moments) ==> e.command == Command(0, 0))
  {
    hide NextCommand, Given, Wanted, W.Wrap, LastFree, NeverFree, Free;
    if moments == [] {
      NothingFree();
    } else {
      var n := |moments| - 1;
      var before, m := moments[..n], moments[n];
      CommandIs(before);
      NextIs(EagerRun(before).command, m.sw, n);
      NextTick(n);
      OneMoreTick(moments);
      forall k: nat | LastFree(moments, k)
        ensures EagerRun(moments).command == Command(Given(moments[k].sw, k), Given(moments[k].sw, k))
      {
        if !Free(m.sw) { assert k < n && LastFree(before, k) && before[k] == moments[k]; }
      }
    }
  }

  lemma NothingFree()
    ensures NeverFree([]) && forall k: nat :: !LastFree([], k)
  {
  }

  lemma NextTick(n: nat)
    ensures W.Wrap(n % 0x1_0000_0000 + 1) == (n + 1) % 0x1_0000_0000
  {
  }

  lemma OneMoreTick(moments: seq<Moment>)
    requires moments != []
    ensures var n := |moments| - 1;
            var before, sw := moments[..n], moments[n].sw;
            && (NeverFree(moments) ==> !Free(sw) && NeverFree(before))
            && forall k: nat :: LastFree(moments, k) ==> if Free(sw) then k == n else k < n && LastFree(before, k)
  {
    hide Free;
    var n := |moments| - 1;
    var before := moments[..n];
    assert forall i :: 0 <= i < n ==> before[i] == moments[i];
    forall k: nat | LastFree(moments, k)
      ensures if Free(moments[n].sw) then k == n else k < n && LastFree(before, k)
    {
      if k < n { assert !Free(moments[n].sw); }
    }
  }

  lemma NextIs(c: Command, sw: Switches, n: nat)
    ensures NextCommand(c, sw, n % 0x1_0000_0000) == if Free(sw) then Command(Given(sw, n), Given(sw, n)) else c
  {
    W.SweepSteps(n % 0x1_0000_0000);
  }
}
