/** The node's analog inputs (adc.c, adc.h): the translation of the
    firmware's input mask (A0, A1, A2, battery) into the converter's channel
    selection, and `adc_convert`, which hands out the converter's readings to
    the selected inputs in turn. */
module NodeAdc {
  import opened Base

  /** Input bits of the firmware's analog mask (`A0_CHANNEL` .. `BAT_CHANNEL`). */
  const A0Input: nat := 0
  const A1Input: nat := 1
  const A2Input: nat := 2
  const BatInput: nat := 3
  const InputCount: nat := 4

  /** The converter channel wired to each input (`A0_INTER_CHANNEL` .. `BAT_INTER_CHANNEL`). */
  function InterChannel(i: nat): nat
    requires i < InputCount
  {
    [0, 1, 9, 8][i]
  }

  /** `adc_get_channel_configuration`: bit `InterChannel(i)` of the selection
      is set exactly when input bit `i` is, and every other bit of the mask is
      ignored. */
  function ChannelConfiguration(channels: bv8): (select: bv32)
    ensures Bit32(select, 0) <==> Bit(channels, A0Input)
    ensures Bit32(select, 1) <==> Bit(channels, A1Input)
    ensures Bit32(select, 9) <==> Bit(channels, A2Input)
    ensures Bit32(select, 8) <==> Bit(channels, BatInput)
    ensures forall k :: 0 <= k < 32 && k != 0 && k != 1 && k != 8 && k != 9 ==> !Bit32(select, k)
  {
    var a0: bv32 := if Bit(channels, A0Input) then 1 << 0 else 0;
    var a1: bv32 := if Bit(channels, A1Input) then 1 << 1 else 0;
    var a2: bv32 := if Bit(channels, A2Input) then 1 << 9 else 0;
    var bat: bv32 := if Bit(channels, BatInput) then 1 << 8 else 0;
    a0 | a1 | a2 | bat
  }

  /** How many of the first `n` mask bits are set. */
  function Selected(channels: bv8, n: nat): (c: nat)
    ensures c <= n
  {
    if n == 0 then 0 else Selected(channels, n - 1) + (if Bit(channels, n - 1) then 1 else 0)
  }

  /** The first `n` results of `adc_convert` over the converter's
      `readings`: zero for an unselected input, the next reading for a
      selected one. */
  function Converted(channels: bv8, readings: seq<u16>, n: nat): (r: seq<u16>)
    requires Selected(channels, n) <= |readings|
    ensures |r| == n
  {
    if n == 0 then []
    else
      Converted(channels, readings, n - 1) +
      [if Bit(channels, n - 1) then readings[Selected(channels, n - 1)] else 0]
  }

  lemma {:induction false} SelectedMonotone(channels: bv8, i: nat, j: nat)
    requires i <= j
    ensures Selected(channels, i) <= Selected(channels, j)
    decreases j
  {
    if i < j {
      SelectedMonotone(channels, i, j - 1);
    }
  }

  /** Every result is either zero, for an unselected input, or the reading
      whose rank is the number of selected inputs below it; distinct selected
      inputs get distinct readings. */
  lemma {:induction false} ConvertedEntries(channels: bv8, readings: seq<u16>, n: nat)
    requires Selected(channels, n) <= |readings|
    ensures forall i :: 0 <= i < n && Bit(channels, i) ==>
      Selected(channels, i) < |readings| && Converted(channels, readings, n)[i] == readings[Selected(channels, i)]
    ensures forall i :: 0 <= i < n && !Bit(channels, i) ==> Converted(channels, readings, n)[i] == 0
  {
    if n > 0 {
      SelectedMonotone(channels, n - 1, n);
      ConvertedEntries(channels, readings, n - 1);
      forall i | 0 <= i < n && Bit(channels, i)
        ensures Selected(channels, i) < |readings|
      {
        SelectedMonotone(channels, i + 1, n);
      }
    }
  }

  /** Distinct selected inputs receive distinct readings, in order. */
  lemma {:induction false} SelectedInjective(channels: bv8, i: nat, j: nat)
    requires i < j && Bit(channels, i)
    ensures Selected(channels, i) < Selected(channels, j)
  {
    assert Selected(channels, i + 1) == Selected(channels, i) + 1;
    SelectedMonotone(channels, i + 1, j);
  }

  /** Every reading consumed goes to some selected input. */
  lemma {:induction false} SelectedOnto(channels: bv8, n: nat, r: nat)
    requires r < Selected(channels, n)
    ensures exists i :: 0 <= i < n && Bit(channels, i) && Selected(channels, i) == r
  {
    if Selected(channels, n - 1) <= r {
      assert Bit(channels, n - 1) && Selected(channels, n - 1) == r;
    } else {
      SelectedOnto(channels, n - 1, r);
    }
  }

  /** The readings the converter delivers when it scans the selected channels
      in ascending channel number, for the values `sample` present on A0, A1,
      A2 and the battery input: channel 8 (battery) comes before channel 9 (A2). */
  function ScanReadings(channels: bv8, sample: seq<u16>): (r: seq<u16>)
    requires |sample| == InputCount
    ensures |r| == Selected(channels, InputCount)
  {
    assert Selected(channels, InputCount) == Selected(channels, 3) + (if Bit(channels, 3) then 1 else 0);
    assert Selected(channels, 3) == Selected(channels, 2) + (if Bit(channels, 2) then 1 else 0);
    (if Bit(channels, A0Input) then [sample[A0Input]] else []) +
    (if Bit(channels, A1Input) then [sample[A1Input]] else []) +
    (if Bit(channels, BatInput) then [sample[BatInput]] else []) +
    (if Bit(channels, A2Input) then [sample[A2Input]] else [])
  }

  class Adc {
    /** The converter's channel-selection register. */
    var chselr: bv32
    /** The readings the converter will deliver, one per end of conversion. */
    var conversions: seq<u16>

    constructor (conversions: seq<u16>)
      ensures chselr == 0 && this.conversions == conversions
    {
      chselr := 0;
      this.conversions := conversions;
    }

    /** `adc_convert`: the channel selection is written first; then each of
        the first `len` results is zero for an unselected input or the next
        reading for a selected one. The shift `1 << i` needs `i < 32`, and the
        wait for the end of a conversion needs a reading for every selected
        input. */
    method Convert(channels: bv8, result: array<u16>, len: nat)
      requires len <= result.Length && len < 32
      requires Selected(channels, len) <= |conversions|
      modifies this`chselr, this`conversions, result
      ensures chselr == ChannelConfiguration(channels)
      ensures result[..len] == Converted(channels, old(conversions), len)
      ensures result[len..] == old(result[len..])
      ensures conversions == old(conversions)[Selected(channels, len)..]
    {
      chselr := ChannelConfiguration(channels);
      Collect(channels, result, len);
    }

    /** The conversion loop of `adc_convert`. */
    method Collect(channels: bv8, result: array<u16>, len: nat)
      requires len <= result.Length
      requires Selected(channels, len) <= |conversions|
      modifies this`conversions, result
      ensures result[..len] == Converted(channels, old(conversions), len)
      ensures result[len..] == old(result[len..])
      ensures conversions == old(conversions)[Selected(channels, len)..]
    {
      ghost var readings := conversions;
      var i := 0;
      while i < len
        invariant 0 <= i <= len
        invariant Selected(channels, i) <= Selected(channels, len)
        invariant conversions == readings[Selected(channels, i)..]
        invariant result[..i] == Converted(channels, readings, i)
        invariant forall k :: i <= k < result.Length ==> result[k] == old(result[k])
      {
        SelectedMonotone(channels, i + 1, len);
        ghost var next := if Bit(channels, i) then readings[Selected(channels, i)] else 0;
        assert Converted(channels, readings, i + 1) == Converted(channels, readings, i) + [next];
        if Bit(channels, i) {
          result[i] := conversions[0];
          conversions := conversions[1..];
        } else {
          result[i] := 0;
        }
        assert result[..i + 1] == result[..i] + [next];
        i := i + 1;
      }
    }
  }
}
