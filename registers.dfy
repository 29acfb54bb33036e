/** The register block the gamepad exposes on the I2C bus
    (the struct I2CJoystickStatus of driver/i2c-joystick-driver.c). */
module Registers {

  /** An unsigned 8-bit field. */
  type U8 = x: int | 0 <= x < 0x100

  /** An unsigned 16-bit field. */
  type U16 = x: int | 0 <= x < 0x1_0000

  /** One snapshot of the registers. The driver never decodes bytes itself:
      the bus read copies the raw block into this struct, so a snapshot is
      taken here as a value. */
  datatype Status = Status(
    buttons: U16,          // one bit per button, 1 = pressed
    axis0: U8,             // first stick axis, centred at 128
    axis1: U8,             // second stick axis, centred at 128
    powerDownRequest: U8,  // nonzero: the gamepad asks the host to halt
    audioVolume: U8)       // volume in percent, 0..100 when reported

  /** sizeof(I2CJoystickStatus): a uint16_t followed by four uint8_t; the
      struct's alignment is 2 and 2 + 4 bytes need no padding. */
  const StatusSize: nat := 6

  /** The largest volume the hardware reports. */
  const MaxReportedVolume: nat := 100

  /** C's conversion of an int to uint8_t: reduction modulo 256. */
  function ToU8(x: int): (r: U8)
    ensures (x - r) % 0x100 == 0
  {
    x % 0x100
  }

  /** The state the driver starts from. The volume is stored as -1 into a
      uint8_t, so that the first reported volume always differs from it. */
  function InitialStatus(): Status {
    Status(0, 127, 127, 0, ToU8(-1))
  }

  lemma InitialVolumeIsSentinel()
    ensures InitialStatus().audioVolume == 255
    ensures InitialStatus().audioVolume > MaxReportedVolume
  {
  }

  /** Whether bit b of v is set, i.e. (v & (1 << b)) != 0 in C. Two values
      give different masks (v & (1 << b)) exactly when this differs. */
  predicate Bit(v: nat, b: nat) {
    if b == 0 then v % 2 == 1 else Bit(v / 2, b - 1)
  }
}
