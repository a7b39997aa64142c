/** ecu/can_tx.h: the transmit-side CAN message state. A handle is the
    address of a `cancomms_tx_state`; `cancomms_tx_init` checks that the
    handle lies in the zero-initialised data segment and carries the magic
    number, then clears the 64-bit message and places a `len`-byte window in
    it: from bit 0 for big-endian layouts, flush with bit 63 for
    little-endian ones. The handle's address test is a boolean parameter;
    the bad-handle log message is left out. */
module CanTx {
  import opened Int32

  /** "CNTX" */
  const CANTX_MAGIC: u32 := 0x434E_8458
  const MAX_LENGTH: u32 := 8
  const MSG_BITS: int := 64

  type u64 = x: int | 0 <= x < 0x1_0000_0000_0000_0000

  /** The bit window of the message that a transmit fills. */
  datatype Window = Window(bitoff: u32, bitlen: u32)

  /** The whole state, as a value. */
  datatype Tx = Tx(magic: u32, window: Window, msg: u64, bigendian: bool)

  /** The window of a `len`-byte message: all `len` bytes, inside the 64-bit
      word, starting at bit 0 when big-endian and ending at bit 63 when
      little-endian. */
  function MessageWindow(len: u32, bigendian: bool): (w: Window)
    requires len <= MAX_LENGTH
    ensures w.bitlen == 8 * len
    ensures w.bitoff + w.bitlen <= MSG_BITS
    ensures bigendian ==> w.bitoff == 0
    ensures !bigendian ==> w.bitoff + w.bitlen == MSG_BITS
  {
    var bitlen := len * 8;
    Window(if bigendian then 0 else 64 - bitlen, bitlen)
  }

  /** The handle test of cancomms_tx_init: inside the data segment and
      carrying the magic number. */
  predicate ValidHandle(s: Tx, inBss: bool)
  {
    inBss && s.magic == CANTX_MAGIC
  }

  /** cancomms_tx_init on a state value: a bad handle changes nothing; a
      good one clears the message and sets its window, and keeps the magic
      number and the byte order. */
  function InitStep(s: Tx, inBss: bool, len: u32): (r: Tx)
    requires ValidHandle(s, inBss) ==> len <= MAX_LENGTH
    ensures !ValidHandle(s, inBss) ==> r == s
    ensures ValidHandle(s, inBss) ==>
              r.msg == 0 && r.window == MessageWindow(len, s.bigendian) &&
              r.magic == s.magic && r.bigendian == s.bigendian
  {
    if !inBss || s.magic != CANTX_MAGIC then s
    else
      var bitlen := len * 8;
      s.(msg := 0, window := Window(if s.bigendian then 0 else 64 - bitlen, bitlen))
  }

  /** Clearing a message twice is clearing it once, and a cleared message
      keeps a valid handle valid. */
  lemma {:induction false} InitIdempotent(s: Tx, inBss: bool, len: u32)
    requires ValidHandle(s, inBss) ==> len <= MAX_LENGTH
    ensures ValidHandle(InitStep(s, inBss, len), inBss) == ValidHandle(s, inBss)
    ensures InitStep(InitStep(s, inBss, len), inBss, len) == InitStep(s, inBss, len)
  {
  }

  /** Re-initialising with another length depends only on the new length:
      whatever was written into the message before is gone. */
  lemma {:induction false} InitForgets(s: Tx, t: Tx, inBss: bool, len: u32)
    requires ValidHandle(s, inBss) && len <= MAX_LENGTH
    requires t.magic == s.magic && t.bigendian == s.bigendian
    ensures InitStep(s, inBss, len) == InitStep(t, inBss, len)
  {
  }

  /** cancomms_tx_state */
  class TxState {
    var magic: u32
    var msgBitoff: u32
    var msgBitlen: u32
    var msg: u64
    var bigendian: bool

    function State(): Tx
      reads this
    {
      Tx(magic, Window(msgBitoff, msgBitlen), msg, bigendian)
    }

    /** Zero-initialised static storage. */
    constructor()
      ensures State() == Tx(0, Window(0, 0), 0, false)
    {
      magic := 0;
      msgBitoff := 0;
      msgBitlen := 0;
      msg := 0;
      bigendian := false;
    }

    /** cancomms_tx_open: empties the window and returns the state itself
        as the handle. The byte order argument is not stored here. */
    method Open(bigEndian: bool) returns (h: TxState)
      modifies this
      ensures h == this
      ensures State() == old(State()).(window := Window(0, 0))
    {
      msgBitoff := 0;
      msgBitlen := 0;
      h := this;
    }

    /** cancomms_tx_init; a length above 8 on a good handle is a build
        error. */
    method Init(inBss: bool, len: u32)
      requires ValidHandle(State(), inBss) ==> len <= MAX_LENGTH
      modifies this
      ensures State() == InitStep(old(State()), inBss, len)
    {
      if !inBss || magic != CANTX_MAGIC {
        return;
      }
      msg := 0;
      msgBitlen := len * 8;
      msgBitoff := if bigendian then 0 else 64 - msgBitlen;
    }
  }
}
