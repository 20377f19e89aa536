/** Register command words of the scope's command/response channel
    (driver/opae/vx_scope.cpp, the CMD_* opcodes and the `(payload << 3) | opcode`
    encoding used by vx_scope_start and vx_scope_stop). */
module Commands {

  /** One 64-bit register word (uint64_t). */
  type Word = bv64

  datatype Option<+T> = None | Some(value: T)

  /** The "no delay" sentinel, uint64_t(-1). */
  const NO_DELAY: Word := 0xFFFF_FFFF_FFFF_FFFF

  /** The payload bits that survive the shift by three: the low 61 bits. */
  const PAYLOAD_MASK: Word := 0x1FFF_FFFF_FFFF_FFFF

  /** The seven commands the recorder understands. */
  datatype Opcode = GetValid | GetData | GetWidth | GetCount | SetDelay | SetStop | GetOffset

  /** The 3-bit code of each command (CMD_GET_VALID = 0 ... CMD_GET_OFFSET = 6). */
  function Code(op: Opcode): Word
  {
    match op
    case GetValid => 0
    case GetData => 1
    case GetWidth => 2
    case GetCount => 3
    case SetDelay => 4
    case SetStop => 5
    case GetOffset => 6
  }

  /** The command a 3-bit code names; code 7 names none. */
  function OpcodeOf(c: Word): (r: Option<Opcode>)
    ensures r.Some? <==> c < 7
    ensures r.Some? ==> Code(r.value) == c
  {
    if c == 0 then Some(GetValid)
    else if c == 1 then Some(GetData)
    else if c == 2 then Some(GetWidth)
    else if c == 3 then Some(GetCount)
    else if c == 4 then Some(SetDelay)
    else if c == 5 then Some(SetStop)
    else if c == 6 then Some(GetOffset)
    else None
  }

  /** The word written to the command register: the payload shifted left by three,
      OR'd with the opcode. The low three bits carry the opcode and the rest carry the
      payload modulo 2^61 (the top three payload bits are shifted out). */
  function Command(op: Opcode, payload: Word): (cmd: Word)
    ensures cmd & 7 == Code(op)
    ensures cmd >> 3 == payload & PAYLOAD_MASK
  {
    (payload << 3) | Code(op)
  }

  /** Splits a command word back into its opcode and payload; none for opcode 7. */
  function DecodeCommand(cmd: Word): (r: Option<(Opcode, Word)>)
    ensures r.Some? <==> cmd & 7 != 7
  {
    match OpcodeOf(cmd & 7)
    case None => None
    case Some(op) => Some((op, cmd >> 3))
  }

  /** Decoding recovers the opcode and the payload modulo 2^61. */
  lemma DecodeCommandOfCommand(op: Opcode, payload: Word)
    ensures DecodeCommand(Command(op, payload)) == Some((op, payload & PAYLOAD_MASK))
  {
    var cmd := Command(op, payload);
    assert OpcodeOf(Code(op)) == Some(op) by {
      match op
      case GetValid =>
      case GetData =>
      case GetWidth =>
      case GetCount =>
      case SetDelay =>
      case SetStop =>
      case GetOffset =>
    }
    assert cmd & 7 == Code(op);
  }

  /** Every word whose low three bits name a command is the encoding of its decoding. */
  lemma CommandOfDecodeCommand(cmd: Word)
    requires cmd & 7 != 7
    ensures DecodeCommand(cmd).Some?
    ensures Command(DecodeCommand(cmd).value.0, DecodeCommand(cmd).value.1) == cmd
  {
    var op := OpcodeOf(cmd & 7).value;
    assert ((cmd >> 3) << 3) | (cmd & 7) == cmd;
  }

  /** Two payloads give the same command word exactly when they agree modulo 2^61. */
  lemma CommandInjective(op: Opcode, p: Word, q: Word)
    ensures Command(op, p) == Command(op, q) <==> p & PAYLOAD_MASK == q & PAYLOAD_MASK
  {
    if p & PAYLOAD_MASK == q & PAYLOAD_MASK {
      ShiftIgnoresTopBits(p, q);
    } else {
      assert Command(op, p) >> 3 != Command(op, q) >> 3;
    }
  }

  /** Shifting left by three loses exactly the top three bits. */
  lemma ShiftIgnoresTopBits(p: Word, q: Word)
    requires p & PAYLOAD_MASK == q & PAYLOAD_MASK
    ensures p << 3 == q << 3
  {
  }

  /** A command without payload is its bare opcode, as the driver writes CMD_GET_VALID etc. */
  lemma BareCommand(op: Opcode)
    ensures Command(op, 0) == Code(op)
  {
  }
}
