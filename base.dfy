/** Shared vocabulary of the gateway and the node firmware: optional values,
    the gateway's error kinds, and bit tests on the machine words both sides
    exchange over the radio. */
module Base {

  datatype Option<T> = None | Some(value: T)

  /** The error kinds of the gateway (error.rs) that the modelled code can raise. */
  datatype Error =
    | RadioError        // the rfm69 driver reported a failure
    | OptionError       // a lookup found nothing (update_output, an empty MQTT message)
    | BincodeError      // Data::try_from rejected a telemetry buffer
    | MqttError         // publishing a reading failed

  datatype Result<T> = Ok(value: T) | Err(error: Error)

  /** Bit `i` of a byte. */
  predicate Bit(b: bv8, i: nat)
  {
    i < 8 && b & ((1 as bv8) << i) != 0
  }

  /** Bit `i` of a 32-bit word. */
  predicate Bit32(w: bv32, i: nat)
  {
    i < 32 && w & ((1 as bv32) << i) != 0
  }

  /** A byte as both sides put it on the wire. */
  type byte = x: int | 0 <= x < 0x100

  /** An unsigned 16-bit word. */
  type u16 = x: int | 0 <= x < 0x1_0000

  /** The most significant byte of a 16-bit word. */
  function Hi(w: u16): byte
  {
    w / 0x100
  }

  /** The least significant byte of a 16-bit word. */
  function Lo(w: u16): byte
  {
    w % 0x100
  }

  /** `(hi << 8) | lo`, as both sides assemble a big-endian 16-bit word. */
  function BigEndian16(hi: byte, lo: byte): u16
  {
    hi * 0x100 + lo
  }

  lemma BigEndian16RoundTrip(w: u16)
    ensures BigEndian16(Hi(w), Lo(w)) == w
  {
  }

  lemma BigEndian16Split(hi: byte, lo: byte)
    ensures Hi(BigEndian16(hi, lo)) == hi && Lo(BigEndian16(hi, lo)) == lo
  {
  }

  /** Only bit `n` of `1 << n` is set. */
  lemma BitOfShiftedOne(n: nat, k: nat)
    requires n < 8 && k < 8
    ensures Bit((1 as bv8) << n, k) <==> n == k
  {
  }

  lemma BitOfOr(a: bv8, b: bv8, k: nat)
    requires k < 8
    ensures Bit(a | b, k) <==> Bit(a, k) || Bit(b, k)
  {
  }

  lemma NoBitOfZero(k: nat)
    requires k < 8
    ensures !Bit(0, k)
  {
  }
}
