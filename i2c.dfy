/** The I2C transport seen by the sensor drivers: a device handle on which a
    write or a read is one `i2c_transfer`, answered by a status (0 or a
    negative errno) and, for a read, the bytes the device clocked out.
    The device's answers are a script fixed when the handle is made, so that
    every statement about which transfers a driver issues can be proved. */
module I2c {

  type byte = x: int | 0 <= x < 256

  /** Linux errno values the drivers use (returned negated). */
  const ENXIO: int := 6
  const ENODEV: int := 19
  const EINVAL: int := 22

  datatype Transfer = Write(bytes: seq<byte>) | Read(count: nat)

  /** The device's answer to one transfer. */
  datatype Reply = Reply(status: int, data: seq<byte>)

  /** How a device answers: transfer k gets replies[k], and every transfer
      after the listed ones gets `after`. */
  datatype Script = Script(replies: seq<Reply>, after: Reply) {
    function At(k: nat): Reply {
      if k < |replies| then replies[k] else after
    }
  }

  /** `hi << 8 | lo`: a 16-bit word sent most significant byte first. */
  function BigEndian16(hi: byte, lo: byte): int {
    hi as int * 256 + lo as int
  }

  lemma BigEndian16RoundTrip(hi: byte, lo: byte)
    ensures 0 <= BigEndian16(hi, lo) < 0x1_0000
    ensures BigEndian16(hi, lo) / 256 == hi as int && BigEndian16(hi, lo) % 256 == lo as int
  {
  }

  /** The `count` bytes a read buffer holds after a transfer whose reply was `data`. */
  function Fit(data: seq<byte>, count: nat): (r: seq<byte>)
    ensures |r| == count
    ensures forall i :: 0 <= i < count ==> r[i] == if i < |data| then data[i] else 0
  {
    if count == 0 then []
    else Fit(data, count - 1) + [if count - 1 < |data| then data[count - 1] else 0]
  }

  /** A device handle (`struct i2c_device`). */
  class Device {
    /** The replies to the transfers issued on this handle. */
    const script: Script
    /** The transfers issued so far, in order. */
    var log: seq<Transfer>

    constructor (script: Script)
      ensures this.script == script && log == []
    {
      this.script := script;
      log := [];
    }

    method Write(bytes: seq<byte>) returns (status: int)
      modifies this
      ensures log == old(log) + [Transfer.Write(bytes)]
      ensures status == script.At(|old(log)|).status
    {
      status := script.At(|log|).status;
      log := log + [Transfer.Write(bytes)];
    }

    method Read(count: nat) returns (status: int, data: seq<byte>)
      modifies this
      ensures log == old(log) + [Transfer.Read(count)]
      ensures status == script.At(|old(log)|).status
      ensures data == Fit(script.At(|old(log)|).data, count)
    {
      var reply := script.At(|log|);
      status, data := reply.status, Fit(reply.data, count);
      log := log + [Transfer.Read(count)];
    }
  }

  /** The external delay service (`callout_delay_us`): it records each delay requested. */
  class Callout {
    var requested: seq<nat>

    constructor ()
      ensures requested == []
    {
      requested := [];
    }

    method DelayUs(us: nat)
      modifies this
      ensures requested == old(requested) + [us]
    {
      requested := requested + [us];
    }
  }
}
