/** The protocol constants and the checksum macro of qcommon.h: the netchan
    checksum, the ring of old packets indexed by PACKET_MASK, the encode and
    decode offsets of client and server, the adaptive Huffman coder's
    sentinel symbols and the size of the fragment buffers. The header only
    declares the transport; its behaviour is not part of this model. */
module QCommon {

  // ---------------------------------------------------------------------------
  // NETCHAN_GENCHECKSUM

  /** The 32 bits of a C int. */
  type Word = bv32

  /** challenge ^ (sequence * challenge), the product wrapping at 32 bits. */
  function GenChecksum(challenge: Word, sequence: Word): Word {
    challenge ^ (sequence * challenge)
  }

  /** XORing the product back out recovers the challenge. */
  lemma ChecksumUndo(challenge: Word, sequence: Word)
    ensures GenChecksum(challenge, sequence) ^ (sequence * challenge) == challenge
  {
  }

  /** Sequence 0 leaves the challenge as it is. */
  lemma ChecksumSequenceZero(challenge: Word)
    ensures GenChecksum(challenge, 0) == challenge
  {
  }

  /** A zero challenge, or sequence 1, gives checksum 0. */
  lemma ChecksumVanishes(challenge: Word, sequence: Word)
    ensures GenChecksum(0, sequence) == 0
    ensures GenChecksum(challenge, 1) == 0
  {
  }

  // ---------------------------------------------------------------------------
  // PACKET_BACKUP and PACKET_MASK

  const PACKET_BACKUP: int := 32
  const PACKET_MASK: int := PACKET_BACKUP - 1

  /** seq & PACKET_MASK on the bits of a 32-bit int. */
  function PacketSlot(sequence: Word): Word {
    sequence & PACKET_MASK as Word
  }

  /** The slot is in the ring and is the sequence's remainder modulo 32.
      Read unsigned, that is the remainder of a non-negative sequence; since
      32 divides 2^32 it is also the Euclidean remainder of a negative one. */
  lemma PacketSlotInRing(sequence: Word)
    ensures PacketSlot(sequence) < PACKET_BACKUP as Word
    ensures PacketSlot(sequence) == sequence % 32
  {
  }

  /** Sequences fewer than PACKET_BACKUP apart, counting across the
      wrap-around at 2^32, occupy distinct slots. */
  lemma PacketSlotsDistinct(a: Word, b: Word)
    requires 0 < b - a < PACKET_BACKUP as Word
    ensures PacketSlot(a) != PacketSlot(b)
  {
  }

  // ---------------------------------------------------------------------------
  // SV_ENCODE_START, SV_DECODE_START, CL_ENCODE_START, CL_DECODE_START

  datatype Side = Server | Client

  function Other(side: Side): Side {
    if side == Server then Client else Server
  }

  /** Where each side starts encoding its outgoing messages. */
  function EncodeStart(side: Side): int {
    match side
    case Server => 4
    case Client => 12
  }

  /** Where each side starts decoding its incoming messages. */
  function DecodeStart(side: Side): int {
    match side
    case Server => 12
    case Client => 4
  }

  /** Each side decodes from the offset the other side encodes from. */
  lemma OffsetsMirror(side: Side)
    ensures DecodeStart(Other(side)) == EncodeStart(side)
    ensures EncodeStart(Other(side)) == DecodeStart(side)
  {
  }

  // ---------------------------------------------------------------------------
  // The adaptive Huffman coder's symbols

  const HMAX: int := 256
  const NYT: int := HMAX
  const INTERNAL_NODE: int := HMAX + 1
  /** The length of huff_t.loc. */
  const LOC_SLOTS: int := HMAX + 1

  /** What a node's symbol stands for. */
  datatype Symbol = Byte(b: int) | NotYetTransmitted | Internal | Unknown

  function Classify(symbol: int): (r: Symbol)
    ensures r.Byte? <==> 0 <= symbol < 256
    ensures r == NotYetTransmitted <==> symbol == NYT
    ensures r == Internal <==> symbol == INTERNAL_NODE
    ensures r.Byte? ==> r.b == symbol
  {
    if 0 <= symbol < 256 then Byte(symbol)
    else if symbol == NYT then NotYetTransmitted
    else if symbol == INTERNAL_NODE then Internal
    else Unknown
  }

  /** The symbols that index huff_t.loc: every byte and NYT, and not
      INTERNAL_NODE. */
  predicate HasLocSlot(symbol: int) {
    0 <= symbol < LOC_SLOTS
  }

  lemma LocSlots(symbol: int)
    ensures HasLocSlot(symbol) <==> Classify(symbol).Byte? || Classify(symbol) == NotYetTransmitted
  {
  }

  // ---------------------------------------------------------------------------
  // Fragment buffers

  const MAX_MSGLEN: int := 16384 * 2

  /** netchan_t's incoming and outgoing fragment buffers, as lengths. */
  const FRAGMENT_BUFFER: int := MAX_MSGLEN
  const UNSENT_BUFFER: int := MAX_MSGLEN

  /** A message fits either buffer exactly when it is within MAX_MSGLEN. */
  predicate FitsBuffers(length: int) {
    0 <= length <= FRAGMENT_BUFFER && length <= UNSENT_BUFFER
  }

  lemma FitsIffMaxMsgLen(length: int)
    ensures FitsBuffers(length) <==> 0 <= length <= MAX_MSGLEN
    ensures MAX_MSGLEN == 32768
  {
  }
}
