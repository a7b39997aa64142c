/** motec/shared/protocol/can_types.h: the packed CAN identifier and the
    acceptance filter. An identifier is one 32-bit word: the type in bits 30
    and 31 (1 standard, 2 extended, 0 unused), the remote-request flag in
    bit 29, an extended id in bits 0 to 28 and a standard id in bits 18 to
    28, so that a standard id sorts with the extended ids of equal priority.
    A filter is a `matchId` word (the C field `match`) and a `mask` word whose set bits are ignored;
    a match type of 3 turns the pair into an advanced filter whose first word
    holds a protocol (bits 24 to 29) and protocol data. The bit-field
    positions are those of the big-endian bit-field layout of the PowerPC
    target. */
module CanTypes {
  const TYPE_UNUSED: bv32 := 0
  const TYPE_STD: bv32 := 1
  const TYPE_EXT: bv32 := 2
  const TYPE_MASK: bv32 := 3
  /** A filter whose match type has both the STD and EXT bits set. */
  const TYPE_ADVANCED_FILTER: bv32 := 3
  /** Mask types: compare the type and remote-request bits, or ignore them. */
  const TYPE_MATCH: bv32 := 0
  const TYPE_IGNORE: bv32 := 3
  const PROTOCOL_J1939: bv32 := 0
  const EXT_MAX: bv32 := 0x1FFF_FFFF
  const STD_MAX: bv32 := 0x7FF

  datatype Filter = Filter(matchId: bv32, mask: bv32)

  /** flags.type */
  function IdType(val: bv32): bv32
  {
    val >> 30
  }

  /** flags.rr */
  function RemoteRequest(val: bv32): bool
  {
    (val >> 29) & 1 == 1
  }

  /** ext.id */
  function ExtId(val: bv32): (id: bv32)
    ensures id <= EXT_MAX
  {
    val & EXT_MAX
  }

  /** std.id */
  function StdId(val: bv32): (id: bv32)
    ensures id <= STD_MAX
  {
    (val >> 18) & STD_MAX
  }

  /** CAN_ID_SET_STD: type 1 and the id shifted into bits 18 and up; the
      value is not masked. */
  function SetStd(v: bv32): (val: bv32)
    ensures v <= STD_MAX ==> IdType(val) == TYPE_STD && !RemoteRequest(val) && StdId(val) == v
  {
    (TYPE_STD << 30) | (v << 18)
  }

  /** CAN_ID_SET_EXT: type 2 and the id in the low bits; not masked. */
  function SetExt(v: bv32): (val: bv32)
    ensures v <= EXT_MAX ==> IdType(val) == TYPE_EXT && !RemoteRequest(val) && ExtId(val) == v
  {
    (TYPE_EXT << 30) | v
  }

  /** CAN_ID_SET_UNUSED. */
  const UNUSED: bv32 := 0

  /** CAN_ID_UNUSED: the whole word is 0, which is the unused type with no
      remote request and id 0, and is what CAN_ID_SET_UNUSED writes. */
  function IsUnused(val: bv32): (b: bool)
    ensures b ==> IdType(val) == TYPE_UNUSED && !RemoteRequest(val) && ExtId(val) == 0
    ensures IdType(val) == TYPE_UNUSED && !RemoteRequest(val) && ExtId(val) == 0 ==> b
  {
    val == 0
  }

  /** CAN_ID_STD: the type bits are 1. */
  function IsStd(val: bv32): (b: bool)
    ensures b <==> IdType(val) == TYPE_STD
  {
    val & (TYPE_MASK << 30) == TYPE_STD << 30
  }

  /** CAN_ID_EXT: the type bits are 2. */
  function IsExt(val: bv32): (b: bool)
    ensures b <==> IdType(val) == TYPE_EXT
  {
    val & (TYPE_MASK << 30) == TYPE_EXT << 30
  }

  /** CAN_ID_GET: the standard id of a standard identifier, else the
      extended id. */
  function Get(val: bv32): (id: bv32)
    ensures IsStd(val) ==> id <= STD_MAX
    ensures id <= EXT_MAX
  {
    if IsStd(val) then StdId(val) else ExtId(val)
  }

  /** CAN_FILTER_MASK_STD and CAN_FILTER_MASK_EXT: a mask word for the id
      bits only; the type and remote-request bits are then compared. */
  function MaskStd(v: bv32): (mask: bv32)
    ensures v <= STD_MAX ==> IdType(mask) == TYPE_MATCH && !RemoteRequest(mask)
    ensures v <= STD_MAX ==> StdId(mask) == v && mask & !(STD_MAX << 18) == 0
  {
    v << 18
  }

  function MaskExt(v: bv32): (mask: bv32)
    ensures v <= EXT_MAX ==> IdType(mask) == TYPE_MATCH && !RemoteRequest(mask)
    ensures v <= EXT_MAX ==> ExtId(mask) == v
  {
    v
  }

  /** The match word's type is 3: an advanced filter. */
  predicate Advanced(f: Filter)
  {
    f.matchId >> 30 == TYPE_ADVANCED_FILTER
  }

  /** advanced.protocol */
  function Protocol(f: Filter): bv32
  {
    (f.matchId >> 24) & 0x3F
  }

  /** advanced_j1939.sa: the filter owner's own J1939 source address. */
  function SourceAddress(f: Filter): bv32
  {
    (f.matchId >> 16) & 0xFF
  }

  /** A plain hit: the identifier agrees with `matchId` on every bit the mask
      does not ignore. */
  predicate PlainHit(id: bv32, f: Filter)
  {
    (id ^ f.matchId) & !f.mask == 0
  }

  /** CAN_ID_FILTER_MATCH. A plain hit accepts. Otherwise only an advanced
      filter can accept: the J1939 protocol rejects identifiers that are not
      extended and remote requests, accepts any source address other than
      the filter's own, and from its own address accepts only Address Claimed
      messages (PDU format 0xEE, PGN 0xEE00, section 4.2.2 of SAE J1939-81);
      an unknown protocol rejects. */
  function FilterMatch(id: bv32, f: Filter): (accept: bool)
    ensures PlainHit(id, f) ==> accept
    ensures !PlainHit(id, f) && !Advanced(f) ==> !accept
    ensures !PlainHit(id, f) && accept ==>
              Protocol(f) == PROTOCOL_J1939 && IsExt(id) && !RemoteRequest(id)
  {
    if PlainHit(id, f) then true
    else if !Advanced(f) then false
    else if Protocol(f) == PROTOCOL_J1939 then
      if !IsExt(id) then false
      else if RemoteRequest(id) then false
      else if ExtId(id) & 0xFF != SourceAddress(f) then true
      else ExtId(id) & 0xFF_0000 == 0xEE_0000
    else false
  }

  /** CAN_FILTER_VALID: an advanced filter, or a mask that either compares
      or ignores both type bits. */
  function FilterValid(f: Filter): (valid: bool)
    ensures valid <==> Advanced(f) ||
                       IdType(f.mask) == TYPE_MATCH || IdType(f.mask) == TYPE_IGNORE
  {
    if f.matchId >> 30 == TYPE_ADVANCED_FILTER then true
    else if f.mask >> 30 == TYPE_MATCH then true
    else if f.mask >> 30 == TYPE_IGNORE then true
    else false
  }

  /** Round trip of a standard identifier: it reads back as standard, with
      the same id. */
  lemma StdRoundTrip(v: bv32)
    requires v <= STD_MAX
    ensures IsStd(SetStd(v)) && !IsExt(SetStd(v)) && !IsUnused(SetStd(v))
    ensures Get(SetStd(v)) == v
  {
  }

  /** Round trip of an extended identifier. */
  lemma ExtRoundTrip(v: bv32)
    requires v <= EXT_MAX
    ensures IsExt(SetExt(v)) && !IsStd(SetExt(v)) && !IsUnused(SetExt(v))
    ensures Get(SetExt(v)) == v
  {
  }

  /** The unused identifier is neither standard nor extended. */
  lemma UnusedIsNeither()
    ensures IsUnused(UNUSED) && !IsStd(UNUSED) && !IsExt(UNUSED)
  {
  }

  /** Because CAN_ID_SET_STD does not mask its argument, one past the
      standard range sets the remote-request flag instead. */
  lemma StdPastMax()
    ensures RemoteRequest(SetStd(STD_MAX + 1)) && StdId(SetStd(STD_MAX + 1)) == 0
  {
  }

  /** A standard id sits at the top of the extended id: its extended reading
      is the standard id shifted left by 18. */
  lemma StdAlignedToExt(v: bv32)
    requires v <= STD_MAX
    ensures ExtId(SetStd(v)) == v << 18
  {
  }

  /** Any filter accepts an identifier that agrees with its match word on
      every bit the mask keeps. */
  lemma AgreementAccepted(id: bv32, f: Filter)
    requires id & !f.mask == f.matchId & !f.mask
    ensures FilterMatch(id, f)
  {
    NoDifference(id, f.matchId, !f.mask);
  }

  /** A filter that is not advanced accepts only identifiers that agree with
      its match word on every bit the mask keeps. */
  lemma PlainAcceptsAgreement(id: bv32, f: Filter)
    requires !Advanced(f) && FilterMatch(id, f)
    ensures id & !f.mask == f.matchId & !f.mask
  {
    NoDifferenceAgrees(id, f.matchId, !f.mask);
  }

  lemma NoDifference(a: bv32, b: bv32, keep: bv32)
    requires a & keep == b & keep
    ensures (a ^ b) & keep == 0
  {
  }

  lemma NoDifferenceAgrees(a: bv32, b: bv32, keep: bv32)
    requires (a ^ b) & keep == 0
    ensures a & keep == b & keep
  {
  }

  /** Every filter accepts its own match word, and a mask of all ones
      accepts every identifier. */
  lemma FilterExtremes(id: bv32, f: Filter)
    ensures FilterMatch(f.matchId, f)
    ensures f.mask == 0xFFFF_FFFF ==> FilterMatch(id, f)
  {
    NoDifference(f.matchId, f.matchId, !f.mask);
  }

  /** A filter with an all-zero mask that is not advanced accepts nothing
      but its match word. */
  lemma ExactFilter(id: bv32, f: Filter)
    requires f.mask == 0 && !Advanced(f) && FilterMatch(id, f)
    ensures id == f.matchId
  {
    PlainAcceptsAgreement(id, f);
  }

  /** The J1939 advanced filter, on an identifier that is not a plain hit:
      it accepts exactly extended data frames from another source address,
      and Address Claimed frames from its own. */
  lemma J1939Filter(id: bv32, f: Filter)
    requires Advanced(f) && Protocol(f) == PROTOCOL_J1939
    requires !PlainHit(id, f)
    ensures FilterMatch(id, f) <==>
              IsExt(id) && !RemoteRequest(id) &&
              (ExtId(id) & 0xFF != SourceAddress(f) || (ExtId(id) >> 16) & 0xFF == 0xEE)
  {
  }

  /** An advanced filter of an unknown protocol accepts only plain hits. */
  lemma UnknownProtocol(id: bv32, f: Filter)
    requires Advanced(f) && Protocol(f) != PROTOCOL_J1939
    ensures FilterMatch(id, f) <==> PlainHit(id, f)
  {
  }
}
