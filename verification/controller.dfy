/** main.c's globals and the code that changes them: the start-up restore in `main`,
    the `TIMER1_COMPA` interrupt, the `cli()`/`sei()` critical sections and
    `loop()`.  Each critical section is one method, and so is the interrupt;
    an interleaving is a sequence of calls in which `Tick` may come between any
    two foreground methods. */
module Controller {
  import opened Stepper
  import opened Commands
  import opened DecimalText

  class Focuser {
    var enabled: bool
    /** The level of the shared enable pin (PB4, active low). */
    var enablePin: bool
    var stepHigh: bool
    var ch1: Channel
    var ch2: Channel
    var eeprom: Eeprom
    /** Everything `print_string` has sent, in order. */
    var replies: seq<string>
    const commandBuffer: array<char>
    var commandLength: nat

    ghost predicate Valid()
      reads this
    {
      commandBuffer.Length == Capacity && commandLength <= Capacity
    }

    /** The interrupt's view of the globals. */
    ghost function DriveState(): Drive
      reads this
    {
      Drive(enabled, enablePin, stepHigh, ch1, ch2)
    }

    /** The foreground's view: channels, EEPROM, replies and the line so far. */
    ghost function ForegroundState(): Foreground
      reads this, commandBuffer
      requires Valid()
    {
      Foreground(Host(ch1, ch2, eeprom, replies), commandBuffer[..commandLength])
    }

    /** `main` up to its `for` loop: globals zeroed, both channels restored from
        their EEPROM slots, the enable pin high, STEP and DIR pins low except
        channel 2's DIR. */
    constructor (stored: Eeprom)
      ensures Valid() && fresh(commandBuffer)
      ensures DriveState() == StartDrive(stored)
      ensures ForegroundState() == Foreground(Host(ch1, ch2, stored, []), [])
    {
      var t1 := if SlotOf(1) in stored then stored[SlotOf(1)] else -1;
      var t2 := if SlotOf(2) in stored then stored[SlotOf(2)] else -1;
      enabled := false;
      stepHigh := false;
      enablePin := true;
      ch1 := Channel(t1, t1, false, false);
      ch2 := Channel(t2, t2, false, true);
      eeprom := stored;
      replies := [];
      commandBuffer := new char[Capacity];
      commandLength := 0;
    }

    /** `ISR(TIMER1_COMPA_vect)`, with the STEP pin rule of a channel on target as a
        parameter. */
    method Tick(rule: PinRule)
      modifies this
      ensures DriveState() == Stepper.Tick(old(DriveState()), rule)
      ensures eeprom == old(eeprom) && replies == old(replies) && commandLength == old(commandLength)
    {
      if !enabled && (ch1.current != ch1.target || ch2.current != ch2.target) {
        enabled := true;
        enablePin := false;
        return;
      } else if enabled && ch1.current == ch1.target && ch2.current == ch2.target {
        enabled := false;
        enablePin := true;
      }
      ch1 := AdvanceChannel(ch1, stepHigh, rule);
      ch2 := AdvanceChannel(ch2, stepHigh, rule);
      stepHigh := !stepHigh;
    }

    /** The `[12]S` critical section. */
    method StopHere(channel: ChannelId)
      modifies this`ch1, this`ch2, this`eeprom
      ensures Host(ch1, ch2, eeprom, replies) == Stopped(old(Host(ch1, ch2, eeprom, replies)), channel)
    {
      if channel == 1 {
        ch1 := ch1.(target := ch1.current);
        eeprom := eeprom[SlotOf(1) := ch1.target];
      } else {
        ch2 := ch2.(target := ch2.current);
        eeprom := eeprom[SlotOf(2) := ch2.target];
      }
    }

    /** The `[12]Z` critical section. */
    method ZeroHere(channel: ChannelId)
      modifies this`ch1, this`ch2, this`eeprom
      ensures Host(ch1, ch2, eeprom, replies) == Zeroed(old(Host(ch1, ch2, eeprom, replies)), channel)
    {
      if channel == 1 {
        ch1 := ch1.(target := 0, current := 0);
        eeprom := eeprom[SlotOf(1) := ch1.target];
      } else {
        ch2 := ch2.(target := 0, current := 0);
        eeprom := eeprom[SlotOf(2) := ch2.target];
      }
    }

    /** The critical section of a move: `target << DOWNSAMPLE_BITS` becomes the
        channel's target and is persisted. */
    method MoveTo(channel: ChannelId, target: int)
      modifies this`ch1, this`ch2, this`eeprom
      ensures Host(ch1, ch2, eeprom, replies) == Retargeted(old(Host(ch1, ch2, eeprom, replies)), channel, target * Scale)
    {
      if channel == 1 {
        ch1 := ch1.(target := target * Scale);
        eeprom := eeprom[SlotOf(1) := ch1.target];
      } else {
        ch2 := ch2.(target := target * Scale);
        eeprom := eeprom[SlotOf(2) := ch2.target];
      }
    }

    /** `print_string(message)`. */
    method Print(message: string)
      modifies this`replies
      ensures replies == old(replies) + [message]
    {
      replies := replies + [message];
    }

    /** The digit scan of a move: true when the line has at most nine characters
        and every one from index 2 on is a digit. */
    method IsNumber() returns (isNumber: bool)
      requires Valid() && 2 < commandLength
      ensures isNumber == (commandLength <= 9 && AllDigits(commandBuffer[2..commandLength]))
    {
      isNumber := commandLength <= 9;
      var i := 2;
      while i < commandLength
        invariant 2 <= i <= commandLength
        invariant isNumber == (commandLength <= 9) && AllDigits(commandBuffer[2..i])
      {
        if commandBuffer[i] < '0' || commandBuffer[i] > '9' {
          assert !IsDigit(commandBuffer[2..commandLength][i - 2]);
          isNumber := false;
          break;
        }
        assert commandBuffer[2..i + 1] == commandBuffer[2..i] + [commandBuffer[i]];
        i := i + 1;
      }
    }

    /** The body of `loop()` for a complete line (lines 83-168). */
    method Execute()
      requires Valid() && 0 < commandLength
      modifies this, commandBuffer
      ensures Valid()
      ensures Host(ch1, ch2, eeprom, replies) == Respond(old(Host(ch1, ch2, eeprom, replies)), old(commandBuffer[..commandLength]))
      ensures enabled == old(enabled) && enablePin == old(enablePin) && stepHigh == old(stepHigh)
    {
      ghost var line := commandBuffer[..commandLength];
      ghost var h := Host(ch1, ch2, eeprom, replies);
      if commandLength == 1 && commandBuffer[0] == '?' {
        Print(StatusText(Host(ch1, ch2, eeprom, replies)));
      } else if commandBuffer[0] == '1' || commandBuffer[0] == '2' {
        var channel: ChannelId := if commandBuffer[0] == '1' then 1 else 2;
        if commandLength == 2 && commandBuffer[1] == 'S' {
          StopHere(channel);
          Print(Ack);
        } else if commandLength == 2 && commandBuffer[1] == 'Z' {
          ZeroHere(channel);
          Print(Ack);
        } else if commandLength > 2 && (commandBuffer[1] == '+' || commandBuffer[1] == '-') {
          assert line[2..] == commandBuffer[2..commandLength];
          var isNumber := IsNumber();
          if isNumber {
            // atol expects a terminated string
            commandBuffer[commandLength] := '\0';
            commandLength := commandLength + 1;
            assert commandBuffer[1..commandLength - 1] == line[1..];
            var target := SignedValue(commandBuffer[1..commandLength - 1]);
            MoveTo(channel, target);
            Print(Ack);
          } else {
            Print(Nak);
          }
        }
      } else {
        Print(Nak);
      }
    }

    /** One pass of the `loop()` body for a received character. */
    method Receive(c: char)
      requires Valid()
      modifies this, commandBuffer
      ensures Valid()
      ensures ForegroundState() == Commands.Receive(old(ForegroundState()), c)
      ensures enabled == old(enabled) && enablePin == old(enablePin) && stepHigh == old(stepHigh)
    {
      if commandLength > 0 && (c == '\r' || c == '\n') {
        Execute();
        commandLength := 0;
      } else if commandLength < Capacity {
        commandBuffer[commandLength] := c;
        commandLength := commandLength + 1;
        assert commandBuffer[..commandLength] == old(commandBuffer[..commandLength]) + [c];
      }
    }

    /** `loop()`: reads while values are available and stops at a negative one. */
    method Loop(input: seq<UsbValue>)
      requires Valid()
      modifies this, commandBuffer
      ensures Valid()
      ensures ForegroundState() == Feed(old(ForegroundState()), input)
      ensures enabled == old(enabled) && enablePin == old(enablePin) && stepHigh == old(stepHigh)
    {
      var i := 0;
      while i < |input|
        invariant i <= |input| && Valid()
        invariant Feed(ForegroundState(), input[i..]) == Feed(old(ForegroundState()), input)
        invariant enabled == old(enabled) && enablePin == old(enablePin) && stepHigh == old(stepHigh)
      {
        var value := input[i];
        if value < 0 {
          break;
        }
        assert input[i..][1..] == input[i + 1..];
        Receive(value as char);
        i := i + 1;
      }
      assert i == |input| ==> input[i..] == [];
    }
  }

  /** The per-channel block of the interrupt. */
  method AdvanceChannel(c: Channel, stepHigh: bool, rule: PinRule) returns (r: Channel)
    ensures r == Advance(c, stepHigh, rule)
  {
    r := c;
    if r.current < r.target {
      r := r.(dirPin := true);
      if !stepHigh {
        r := r.(stepPin := true, current := r.current + 1);
      } else {
        r := r.(stepPin := false);
      }
    } else if r.current > r.target {
      r := r.(dirPin := false);
      if !stepHigh {
        r := r.(stepPin := true, current := r.current - 1);
      } else {
        r := r.(stepPin := false);
      }
    } else if rule == LowerOnTarget {
      r := r.(stepPin := false);
    }
  }

  /** The interrupt state `main` sets up before enabling interrupts. */
  function StartDrive(stored: Eeprom): Drive {
    Drive(false, true, false,
          Channel(ReadSlot(stored, 1), ReadSlot(stored, 1), false, false),
          Channel(ReadSlot(stored, 2), ReadSlot(stored, 2), false, true))
  }

  /** The interrupt never touches targets or the EEPROM, so it keeps the slots
      holding the targets. */
  lemma TickPersists(d: Drive, rule: PinRule, e: Eeprom, replies: seq<string>)
    requires Persisted(Host(d.ch1, d.ch2, e, replies))
    ensures var d' := Stepper.Tick(d, rule); Persisted(Host(d'.ch1, d'.ch2, e, replies))
  {
    TickSteps(d, rule);
  }

  /** A power cycle after any run of commands and ticks (which keep `Persisted`)
      restarts each channel at rest on the target it had, with the driver off. */
  lemma PowerCycleRestores(h: Host)
    requires Persisted(h)
    ensures var d := StartDrive(h.eeprom);
      && d.ch1.target == h.ch1.target && d.ch2.target == h.ch2.target
      && Settled(d) && !d.enabled
  {
  }

  /** Start-up state, whatever the EEPROM holds, satisfies the corrected STEP-pin
      invariant and has the slots holding the targets. */
  lemma StartInvariants(stored: Eeprom)
    ensures PinsLowOnLowPhase(StartDrive(stored))
    ensures Persisted(Host(StartDrive(stored).ch1, StartDrive(stored).ch2, stored, []))
    ensures StartDrive(stored).enablePin == !StartDrive(stored).enabled
  {
  }

  /** Start-up from an EEPROM of dwords begins inside `int32_t`. */
  lemma StartInRange(stored: Eeprom)
    requires Dwords(stored)
    ensures InRange(StartDrive(stored))
    ensures HostInRange(Host(StartDrive(stored).ch1, StartDrive(stored).ch2, stored, []))
  {
  }

  /** The interrupt keeps the positions inside `int32_t` and leaves the slots alone. */
  lemma TickHostInRange(d: Drive, rule: PinRule, e: Eeprom, replies: seq<string>)
    requires HostInRange(Host(d.ch1, d.ch2, e, replies))
    ensures var d' := Stepper.Tick(d, rule); HostInRange(Host(d'.ch1, d'.ch2, e, replies))
  {
    TickInRange(d, rule);
  }

  /** After start-up and any run of received bytes the status line still fits the
      `output` buffer. */
  lemma StartupStatusFits(stored: Eeprom, input: seq<UsbValue>)
    requires Dwords(stored)
    ensures var d := StartDrive(stored);
      var h := Feed(Foreground(Host(d.ch1, d.ch2, stored, []), []), input).host;
      |StatusText(h)| < OutputSize
  {
    var d := StartDrive(stored);
    StartInRange(stored);
    FeedInRange(Foreground(Host(d.ch1, d.ch2, stored, []), []), input);
    StatusFits(Feed(Foreground(Host(d.ch1, d.ch2, stored, []), []), input).host);
  }
}
