/** The node's eight digital pins D0..D7 (gpio.c): their mapping onto the
    microcontroller's ports, the configuration `gpio_dio_setup` issues for a
    direction mask and a value mask, and the bitmap `read_gpio_value`
    assembles. The port driver calls are recorded in order, as issued. */
module NodeGpio {
  import opened Base

  /** `GPIO_COUNT`. */
  const GpioCount: nat := 8

  datatype Port = PortA | PortB
  datatype PinMode = Input | Output
  datatype Pull = NoPull | PullDown

  /** A call into the port driver: `gpio_mode_setup`, `gpio_set` or `gpio_clear`. */
  datatype GpioCall =
    | ModeSetup(port: Port, mode: PinMode, pull: Pull, pin: nat)
    | SetHigh(port: Port, pin: nat)
    | SetLow(port: Port, pin: nat)

  /** `port_mapping`: D0..D2 on the first port, D3..D7 on the second. */
  function PortOf(i: nat): Port
    requires i < GpioCount
  {
    if i < 3 then PortA else PortB
  }

  /** `pin_mapping`: the pin number of D0..D7 within its port. */
  function PinOf(i: nat): nat
    requires i < GpioCount
  {
    [10, 9, 15, 3, 4, 5, 6, 7][i]
  }

  /** No two digital pins share a physical pin. */
  lemma MappingInjective(i: nat, j: nat)
    requires i < GpioCount && j < GpioCount
    requires PortOf(i) == PortOf(j) && PinOf(i) == PinOf(j)
    ensures i == j
  {
  }

  /** The calls one iteration of `gpio_dio_setup` issues for pin `i`: an
      output is set up without pull and then driven to its value bit; an
      input is set up with a pull-down and its value bit is not looked at. */
  function PinCalls(i: nat, output: bool, high: bool): seq<GpioCall>
    requires i < GpioCount
  {
    if output then
      [ModeSetup(PortOf(i), Output, NoPull, PinOf(i)),
       if high then SetHigh(PortOf(i), PinOf(i)) else SetLow(PortOf(i), PinOf(i))]
    else
      [ModeSetup(PortOf(i), Input, PullDown, PinOf(i))]
  }

  /** The calls of the first `n` iterations of `gpio_dio_setup`. */
  function SetupCalls(direction: bv8, value: bv8, n: nat): seq<GpioCall>
    requires n <= GpioCount
  {
    if n == 0 then []
    else SetupCalls(direction, value, n - 1) + PinCalls(n - 1, Bit(direction, n - 1), Bit(value, n - 1))
  }

  /** The physical pin a call addresses. */
  function Target(c: GpioCall): (Port, nat)
  {
    match c
    case ModeSetup(port, _, _, pin) => (port, pin)
    case SetHigh(port, pin) => (port, pin)
    case SetLow(port, pin) => (port, pin)
  }

  /** The calls of `calls` that address `port`/`pin`, in order. */
  function CallsTo(calls: seq<GpioCall>, port: Port, pin: nat): (r: seq<GpioCall>)
    ensures |r| <= |calls|
  {
    if calls == [] then []
    else (CallsTo(calls[..|calls| - 1], port, pin) +
          (if Target(calls[|calls| - 1]) == (port, pin) then [calls[|calls| - 1]] else []))
  }

  lemma {:induction false} CallsToAppend(a: seq<GpioCall>, b: seq<GpioCall>, port: Port, pin: nat)
    ensures CallsTo(a + b, port, pin) == CallsTo(a, port, pin) + CallsTo(b, port, pin)
    decreases |b|
  {
    if b == [] {
      assert a + b == a;
    } else {
      var last := b[|b| - 1];
      assert (a + b)[..|a + b| - 1] == a + b[..|b| - 1];
      CallsToAppend(a, b[..|b| - 1], port, pin);
    }
  }

  lemma CallsToPair(c: GpioCall, d: GpioCall, port: Port, pin: nat)
    ensures CallsTo([c], port, pin) == (if Target(c) == (port, pin) then [c] else [])
    ensures CallsTo([c, d], port, pin) == CallsTo([c], port, pin) + (if Target(d) == (port, pin) then [d] else [])
  {
    assert [c][..0] == [];
    assert [c, d][..1] == [c];
  }

  /** The calls of pin `j`'s iteration address pin `j` only. */
  lemma PinCallsTo(j: nat, output: bool, high: bool, i: nat)
    requires i < GpioCount && j < GpioCount
    ensures CallsTo(PinCalls(j, output, high), PortOf(i), PinOf(i)) ==
      if i == j then PinCalls(j, output, high) else []
  {
    var own := PinCalls(j, output, high);
    if PortOf(i) == PortOf(j) && PinOf(i) == PinOf(j) {
      MappingInjective(i, j);
    }
    if |own| == 2 {
      CallsToPair(own[0], own[1], PortOf(i), PinOf(i));
      assert own == [own[0], own[1]];
    } else {
      CallsToPair(own[0], own[0], PortOf(i), PinOf(i));
      assert own == [own[0]];
    }
  }

  /** Pin `i` is addressed only by its own iteration. */
  lemma {:induction false} SetupCallsTo(direction: bv8, value: bv8, n: nat, i: nat)
    requires n <= GpioCount && i < GpioCount
    ensures CallsTo(SetupCalls(direction, value, n), PortOf(i), PinOf(i)) ==
      if i < n then PinCalls(i, Bit(direction, i), Bit(value, i)) else []
  {
    if n > 0 {
      var own := PinCalls(n - 1, Bit(direction, n - 1), Bit(value, n - 1));
      SetupCallsTo(direction, value, n - 1, i);
      CallsToAppend(SetupCalls(direction, value, n - 1), own, PortOf(i), PinOf(i));
      PinCallsTo(n - 1, Bit(direction, n - 1), Bit(value, n - 1), i);
    }
  }

  /** After `gpio_dio_setup`, every digital pin has been set up exactly once:
      as an output exactly when its direction bit is set, and then driven
      high exactly when its value bit is set; otherwise as a pulled-down
      input that nothing drives. */
  lemma DioSetupPin(direction: bv8, value: bv8, i: nat)
    requires i < GpioCount
    ensures var c := CallsTo(SetupCalls(direction, value, GpioCount), PortOf(i), PinOf(i));
      |c| == (if Bit(direction, i) then 2 else 1) &&
      c[0].ModeSetup? && (c[0].mode == Output <==> Bit(direction, i)) &&
      (c[0].mode == Input ==> c[0].pull == PullDown) &&
      (Bit(direction, i) ==> (c[1].SetHigh? <==> Bit(value, i)) && !c[1].ModeSetup?)
  {
    SetupCallsTo(direction, value, GpioCount, i);
  }

  class Gpio {
    /** The port driver calls issued so far. */
    var calls: seq<GpioCall>
    /** The level `gpio_get` reads on each of D0..D7. */
    var levels: seq<bool>

    constructor (levels: seq<bool>)
      requires |levels| == GpioCount
      ensures calls == [] && this.levels == levels
    {
      calls := [];
      this.levels := levels;
    }

    /** `gpio_dio_setup`. */
    method DioSetup(direction: bv8, value: bv8)
      modifies this`calls
      ensures calls == old(calls) + SetupCalls(direction, value, GpioCount)
    {
      var i := 0;
      while i < GpioCount
        invariant 0 <= i <= GpioCount
        invariant calls == old(calls) + SetupCalls(direction, value, i)
      {
        if Bit(direction, i) {
          calls := calls + [ModeSetup(PortOf(i), Output, NoPull, PinOf(i))];
          if Bit(value, i) {
            calls := calls + [SetHigh(PortOf(i), PinOf(i))];
          } else {
            calls := calls + [SetLow(PortOf(i), PinOf(i))];
          }
        } else {
          calls := calls + [ModeSetup(PortOf(i), Input, PullDown, PinOf(i))];
        }
        i := i + 1;
      }
    }

    /** `read_gpio_value`: bit `i` of the result is the level of D`i`. */
    method ReadGpioValue() returns (value: bv8)
      requires |levels| == GpioCount
      ensures forall i :: 0 <= i < GpioCount ==> (Bit(value, i) <==> levels[i])
    {
      value := 0;
      var i := 0;
      while i < GpioCount
        invariant 0 <= i <= GpioCount
        invariant forall k :: 0 <= k < i ==> (Bit(value, k) <==> levels[k])
        invariant forall k :: i <= k < GpioCount ==> !Bit(value, k)
      {
        if levels[i] {
          var bit: bv8 := 1 << i;
          ghost var before := value;
          value := value | bit;
          forall k | 0 <= k < GpioCount
            ensures Bit(value, k) <==> Bit(before, k) || k == i
          {
            BitOfOr(before, bit, k);
            BitOfShiftedOne(i, k);
          }
        }
        i := i + 1;
      }
    }
  }
}
