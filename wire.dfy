/** Wire-format constants of the iSCSI initiator: header and digest sizes, the
    rounding helpers used for 4-byte padding, the opcode space, and the bit
    layout of the flag byte (byte 1) of the Basic Header Segment for Login,
    SCSI Command, Data-In and Text PDUs (RFC 7143, sections 11.2.1, 11.3, 11.10
    and 11.12; the Data-In byte follows the initiator's own flag constants,
    see below). */
module IscsiWire {

  type byte = bv8

  datatype Option<T> = None | Some(value: T)

  // ---------------------------------------------------------------------------
  // Sizes and rounding
  // ---------------------------------------------------------------------------

  /** Size of the Basic Header Segment. */
  const RawHeaderSize: nat := 48
  /** Size of a CRC32C header or data digest. */
  const DigestSize: nat := 4

  /** The header-digest setting of a connection: none, CRC32C, or one of the
      two preference orders offered during negotiation. */
  datatype HeaderDigest =
    | HeaderDigestNone | HeaderDigestNoneCrc32c | HeaderDigestCrc32cNone | HeaderDigestCrc32c

  /** Bytes of header a PDU carries: the Basic Header Segment, followed by a
      header digest for every setting other than none. */
  function HeaderSize(digest: HeaderDigest): (size: nat)
    ensures digest == HeaderDigestNone <==> size == 48
    ensures digest != HeaderDigestNone <==> size == 52
    ensures size % 4 == 0
  {
    RawHeaderSize + (if digest == HeaderDigestNone then 0 else DigestSize)
  }

  /** MIN(a, b): the smaller of its arguments. */
  function Min(a: int, b: int): (m: int)
    ensures m <= a && m <= b
    ensures m == a || m == b
  {
    if a < b then a else b
  }

  /** MAX(a, b): the larger of its arguments. */
  function Max(a: int, b: int): (m: int)
    ensures m >= a && m >= b
    ensures m == a || m == b
  {
    if a > b then a else b
  }

  /** DIV_ROUND_UP(x, y): the number of y-sized units needed to hold x. The
      result times y is a multiple of y that is at least x, and one unit fewer
      would not hold x. */
  function DivRoundUp(x: nat, y: nat): (q: nat)
    requires y > 0
    ensures q * y >= x
    ensures q > 0 ==> (q - 1) * y < x
  {
    var n := x + y - 1;
    assert n == (n / y) * y + n % y;
    n / y
  }

  /** No multiple of y that holds x is smaller than DIV_ROUND_UP(x, y) * y. */
  lemma DivRoundUpIsLeast(x: nat, y: nat, k: nat)
    requires y > 0
    requires k * y >= x
    ensures DivRoundUp(x, y) <= k
  {
    var q := DivRoundUp(x, y);
    if q > k {
      calc {
        x;
      >  (q - 1) * y;
      >= k * y;
      }
      assert false;
    }
  }

  /** Length of a data segment of n bytes once padded to a 4-byte boundary. */
  function PaddedLength(n: nat): (r: nat)
    ensures r % 4 == 0
    ensures n <= r < n + 4
  {
    var q := DivRoundUp(n, 4);
    assert q * 4 < n + 4;
    q * 4
  }

  /** Padding is the least length with those properties. */
  lemma PaddedLengthIsLeast(n: nat, m: nat)
    requires m % 4 == 0 && m >= n
    ensures PaddedLength(n) <= m
  {
    DivRoundUpIsLeast(n, 4, m / 4);
  }

  /** Number of zero bytes appended after a data segment of n bytes. */
  function PaddingSize(n: nat): (p: nat)
    ensures p < 4
    ensures (n + p) % 4 == 0
    ensures n % 4 == 0 <==> p == 0
  {
    PaddedLength(n) - n
  }

  /** DataSegmentLength: bytes 5 to 7 of the Basic Header Segment, big-endian
      (section 11.2.1 of RFC 7143). */
  function DataSegmentLength(bhs: seq<byte>): (n: nat)
    requires |bhs| >= RawHeaderSize
    ensures n < 0x100_0000
    ensures n % 0x100 == bhs[7] as nat
    ensures (n / 0x100) % 0x100 == bhs[6] as nat
    ensures n / 0x1_0000 == bhs[5] as nat
  {
    var hi, mid, lo := bhs[5] as nat, bhs[6] as nat, bhs[7] as nat;
    var n := hi * 0x1_0000 + mid * 0x100 + lo;
    BigEndian24(hi, mid, lo, n);
    n
  }

  /** Three bytes read big-endian: the low byte is the remainder by 0x100,
      the middle byte the next digit in base 0x100, and the high byte the
      quotient by 0x1_0000. */
  lemma BigEndian24(hi: nat, mid: nat, lo: nat, n: nat)
    requires hi < 0x100 && mid < 0x100 && lo < 0x100
    requires n == hi * 0x1_0000 + mid * 0x100 + lo
    ensures n < 0x100_0000
    ensures n % 0x100 == lo && (n / 0x100) % 0x100 == mid && n / 0x1_0000 == hi
  {
    var q := hi * 0x100 + mid;
    assert n == q * 0x100 + lo;
    assert n / 0x100 == q;
    assert q % 0x100 == mid && q / 0x100 == hi;
  }

  /** Bytes that follow the header on the wire before any data digest. */
  function DataSize(bhs: seq<byte>): (n: nat)
    requires |bhs| >= RawHeaderSize
    ensures n % 4 == 0
    ensures DataSegmentLength(bhs) <= n < DataSegmentLength(bhs) + 4
  {
    PaddedLength(DataSegmentLength(bhs))
  }

  // ---------------------------------------------------------------------------
  // Opcodes
  // ---------------------------------------------------------------------------

  datatype Opcode =
    | NopOut | ScsiRequest | ScsiTaskManagementRequest | LoginRequest
    | TextRequest | DataOut | LogoutRequest
    | NopIn | ScsiResponse | ScsiTaskManagementResponse | LoginResponse
    | TextResponse | DataIn | LogoutResponse
    | R2T | AsyncMsg | Reject
    | NoPdu
  {
    /** The seven PDUs an initiator sends. */
    predicate IsRequest() {
      this in {NopOut, ScsiRequest, ScsiTaskManagementRequest, LoginRequest,
               TextRequest, DataOut, LogoutRequest}
    }
  }

  /** The byte value the enum gives each opcode. Every opcode but the NoPdu
      sentinel fits in the 6-bit opcode field, and initiator opcodes are the
      ones below 0x20 (section 11.2.1.2 of RFC 7143). */
  function Value(op: Opcode): (v: byte)
    ensures op != NoPdu <==> v & 0xc0 == 0
    ensures op.IsRequest() <==> v < 0x20
  {
    match op
    case NopOut => 0x00
    case ScsiRequest => 0x01
    case ScsiTaskManagementRequest => 0x02
    case LoginRequest => 0x03
    case TextRequest => 0x04
    case DataOut => 0x05
    case LogoutRequest => 0x06
    case NopIn => 0x20
    case ScsiResponse => 0x21
    case ScsiTaskManagementResponse => 0x22
    case LoginResponse => 0x23
    case TextResponse => 0x24
    case DataIn => 0x25
    case LogoutResponse => 0x26
    case R2T => 0x31
    case AsyncMsg => 0x32
    case Reject => 0x3f
    case NoPdu => 0xff
  }

  /** The opcode a byte value names, if any. */
  function OpcodeOf(b: byte): (r: Option<Opcode>)
    ensures r.Some? ==> Value(r.value) == b
  {
    if b == 0x00 then Some(NopOut)
    else if b == 0x01 then Some(ScsiRequest)
    else if b == 0x02 then Some(ScsiTaskManagementRequest)
    else if b == 0x03 then Some(LoginRequest)
    else if b == 0x04 then Some(TextRequest)
    else if b == 0x05 then Some(DataOut)
    else if b == 0x06 then Some(LogoutRequest)
    else if b == 0x20 then Some(NopIn)
    else if b == 0x21 then Some(ScsiResponse)
    else if b == 0x22 then Some(ScsiTaskManagementResponse)
    else if b == 0x23 then Some(LoginResponse)
    else if b == 0x24 then Some(TextResponse)
    else if b == 0x25 then Some(DataIn)
    else if b == 0x26 then Some(LogoutResponse)
    else if b == 0x31 then Some(R2T)
    else if b == 0x32 then Some(AsyncMsg)
    else if b == 0x3f then Some(Reject)
    else if b == 0xff then Some(NoPdu)
    else None
  }

  /** Distinct opcodes have distinct values, so the value identifies the
      opcode. */
  lemma OpcodeOfValue(op: Opcode)
    ensures OpcodeOf(Value(op)) == Some(op)
  {
  }

  /** The target opcode the enum places exactly 0x20 above each initiator
      opcode. For six of them it is the response to that request; Data-In
      answers no Data-Out but carries read data for a SCSI Command (section
      11.7 of RFC 7143), and only shares the offset. */
  function ResponseTo(op: Opcode): (r: Opcode)
    requires op.IsRequest()
    ensures Value(r) as int == Value(op) as int + 0x20
    ensures r != NoPdu && !r.IsRequest()
  {
    match op
    case NopOut => NopIn
    case ScsiRequest => ScsiResponse
    case ScsiTaskManagementRequest => ScsiTaskManagementResponse
    case LoginRequest => LoginResponse
    case TextRequest => TextResponse
    case DataOut => DataIn
    case LogoutRequest => LogoutResponse
  }

  /** Every opcode from 0x20 to 0x26 is the target counterpart of the
      initiator opcode 0x20 below it. */
  lemma ResponseToCoversPairs(b: byte)
    requires 0x20 <= b <= 0x26
    ensures OpcodeOf(b).Some? && OpcodeOf(b - 0x20).Some?
    ensures OpcodeOf(b - 0x20).value.IsRequest()
    ensures ResponseTo(OpcodeOf(b - 0x20).value) == OpcodeOf(b).value
  {
  }

  // ---------------------------------------------------------------------------
  // Byte 0: the Immediate bit and the opcode field
  // ---------------------------------------------------------------------------

  const PduImmediate: byte := 0x40
  const OpcodeMask: byte := 0x3f

  /** Byte 0 of a Basic Header Segment: the opcode with the Immediate bit
      (0x40) set for immediate delivery. */
  function EncodeOpcodeByte(op: Opcode, immediate: bool): (b: byte)
    requires op != NoPdu
    ensures b & OpcodeMask == Value(op)
    ensures (b & PduImmediate != 0) == immediate
    ensures b & 0x80 == 0
  {
    Value(op) | (if immediate then PduImmediate else 0)
  }

  /** Reads byte 0 back: None when the reserved top bit is set or the opcode
      field names no known opcode. */
  function DecodeOpcodeByte(b: byte): (r: Option<(Opcode, bool)>)
    ensures r.Some? ==> r.value.0 != NoPdu && EncodeOpcodeByte(r.value.0, r.value.1) == b
    ensures r.None? <==> b & 0x80 != 0 || OpcodeOf(b & OpcodeMask).None?
  {
    if b & 0x80 != 0 then None
    else
      match OpcodeOf(b & OpcodeMask)
      case Some(op) => Some((op, b & PduImmediate != 0))
      case None => None
  }

  /** Setting the Immediate bit and masking with 0x3f gives back the opcode. */
  lemma OpcodeByteRoundTrip(op: Opcode, immediate: bool)
    requires op != NoPdu
    ensures DecodeOpcodeByte(EncodeOpcodeByte(op, immediate)) == Some((op, immediate))
  {
    OpcodeOfValue(op);
  }

  /** The NoPdu sentinel does not fit the 6-bit opcode field: masking it gives
      the Reject opcode, which is why it can never be sent. */
  lemma NoPduIsNotAWireOpcode()
    ensures Value(NoPdu) & OpcodeMask == Value(Reject)
    ensures Value(NoPdu) & OpcodeMask != Value(NoPdu)
  {
  }

  // ---------------------------------------------------------------------------
  // Login Request / Response flags (section 11.12 of RFC 7143)
  // ---------------------------------------------------------------------------

  const LoginTransit: byte := 0x80
  const LoginContinue: byte := 0x40
  const LoginCsgSecNeg: byte := 0x00
  const LoginCsgOpNeg: byte := 0x04
  const LoginCsgFullFeature: byte := 0x0c
  const LoginNsgSecNeg: byte := 0x00
  const LoginNsgOpNeg: byte := 0x01
  const LoginNsgFullFeature: byte := 0x03

  datatype LoginStage = SecurityNegotiation | OperationalNegotiation | FullFeaturePhase

  /** The NSG field value (bits 0-1) of a stage. */
  function NsgBits(s: LoginStage): (b: byte)
    ensures b <= 3 && b != 2
  {
    match s
    case SecurityNegotiation => LoginNsgSecNeg
    case OperationalNegotiation => LoginNsgOpNeg
    case FullFeaturePhase => LoginNsgFullFeature
  }

  /** The CSG field value (bits 2-3) of a stage: its NSG value shifted left
      by two. */
  function CsgBits(s: LoginStage): (b: byte)
    ensures b == NsgBits(s) << 2
  {
    match s
    case SecurityNegotiation => LoginCsgSecNeg
    case OperationalNegotiation => LoginCsgOpNeg
    case FullFeaturePhase => LoginCsgFullFeature
  }

  /** The stage a 2-bit field names; 2 is reserved. */
  function StageOf(bits: byte): (s: Option<LoginStage>)
    requires bits <= 3
    ensures s.Some? ==> NsgBits(s.value) == bits
    ensures s.None? <==> bits == 2
  {
    if bits == 0 then Some(SecurityNegotiation)
    else if bits == 1 then Some(OperationalNegotiation)
    else if bits == 3 then Some(FullFeaturePhase)
    else None
  }

  datatype LoginFlags = LoginFlags(transit: bool, continuing: bool, csg: LoginStage, nsg: LoginStage)

  /** Byte 1 of a Login PDU. Each field can be read back from its own bits
      alone, and the reserved bits 4-5 stay clear. */
  function EncodeLoginFlags(f: LoginFlags): (b: byte)
    ensures (b & LoginTransit != 0) == f.transit
    ensures (b & LoginContinue != 0) == f.continuing
    ensures (b >> 2) & 3 == NsgBits(f.csg)
    ensures b & 3 == NsgBits(f.nsg)
    ensures b & 0x30 == 0
  {
    (if f.transit then LoginTransit else 0)
    | (if f.continuing then LoginContinue else 0)
    | CsgBits(f.csg)
    | NsgBits(f.nsg)
  }

  /** Reads byte 1 of a Login PDU; None when a reserved bit is set or a stage
      field holds the reserved value 2. */
  function DecodeLoginFlags(b: byte): (r: Option<LoginFlags>)
    ensures r.Some? ==> EncodeLoginFlags(r.value) == b
    ensures r.None? <==> b & 0x30 != 0 || (b >> 2) & 3 == 2 || b & 3 == 2
  {
    if b & 0x30 != 0 then None
    else
      match (StageOf((b >> 2) & 3), StageOf(b & 3))
      case (Some(csg), Some(nsg)) =>
        Some(LoginFlags(b & LoginTransit != 0, b & LoginContinue != 0, csg, nsg))
      case _ => None
  }

  lemma LoginFlagsRoundTrip(f: LoginFlags)
    ensures DecodeLoginFlags(EncodeLoginFlags(f)) == Some(f)
  {
  }

  // ---------------------------------------------------------------------------
  // SCSI Command flags (section 11.3 of RFC 7143)
  // ---------------------------------------------------------------------------

  const ScsiFinal: byte := 0x80
  const ScsiRead: byte := 0x40
  const ScsiWrite: byte := 0x20
  const ScsiAttrUntagged: byte := 0x00
  const ScsiAttrSimple: byte := 0x01
  const ScsiAttrOrdered: byte := 0x02
  const ScsiAttrHeadOfQueue: byte := 0x03
  const ScsiAttrAca: byte := 0x04

  datatype TaskAttribute = Untagged | Simple | Ordered | HeadOfQueue | Aca

  /** The ATTR field value (bits 0-2) of a task attribute. */
  function AttrBits(a: TaskAttribute): (b: byte)
    ensures b <= 4
  {
    match a
    case Untagged => ScsiAttrUntagged
    case Simple => ScsiAttrSimple
    case Ordered => ScsiAttrOrdered
    case HeadOfQueue => ScsiAttrHeadOfQueue
    case Aca => ScsiAttrAca
  }

  /** The task attribute a 3-bit field names; 5 to 7 are reserved. */
  function AttrOf(bits: byte): (a: Option<TaskAttribute>)
    requires bits <= 7
    ensures a.Some? ==> AttrBits(a.value) == bits
    ensures a.None? <==> bits > 4
  {
    if bits == 0 then Some(Untagged)
    else if bits == 1 then Some(Simple)
    else if bits == 2 then Some(Ordered)
    else if bits == 3 then Some(HeadOfQueue)
    else if bits == 4 then Some(Aca)
    else None
  }

  datatype ScsiFlags = ScsiFlags(final: bool, read: bool, write: bool, attr: TaskAttribute)

  /** Byte 1 of a SCSI Command PDU: F, R and W in the top three bits, ATTR in
      the bottom three, bits 3-4 reserved. */
  function EncodeScsiFlags(f: ScsiFlags): (b: byte)
    ensures (b & ScsiFinal != 0) == f.final
    ensures (b & ScsiRead != 0) == f.read
    ensures (b & ScsiWrite != 0) == f.write
    ensures b & 7 == AttrBits(f.attr)
    ensures b & 0x18 == 0
  {
    (if f.final then ScsiFinal else 0)
    | (if f.read then ScsiRead else 0)
    | (if f.write then ScsiWrite else 0)
    | AttrBits(f.attr)
  }

  function DecodeScsiFlags(b: byte): (r: Option<ScsiFlags>)
    ensures r.Some? ==> EncodeScsiFlags(r.value) == b
    ensures r.None? <==> b & 0x18 != 0 || b & 7 > 4
  {
    if b & 0x18 != 0 then None
    else
      match AttrOf(b & 7)
      case Some(a) => Some(ScsiFlags(b & ScsiFinal != 0, b & ScsiRead != 0, b & ScsiWrite != 0, a))
      case None => None
  }

  lemma ScsiFlagsRoundTrip(f: ScsiFlags)
    ensures DecodeScsiFlags(EncodeScsiFlags(f)) == Some(f)
  {
  }

  // ---------------------------------------------------------------------------
  // Data-In flags, as the initiator defines them. Section 11.7 of RFC 7143
  // reserves bits 0x10 and 0x08 of a Data-In PDU; the initiator's constants
  // also name them, as the bidirectional overflow and underflow bits that
  // section 11.4 places in the SCSI Response PDU, so they are accepted here.
  // ---------------------------------------------------------------------------

  const DataFinal: byte := 0x80
  const DataAckRequested: byte := 0x40
  const DataBidirOverflow: byte := 0x10
  const DataBidirUnderflow: byte := 0x08
  const DataResidualOverflow: byte := 0x04
  const DataResidualUnderflow: byte := 0x02
  const DataContainsStatus: byte := 0x01

  datatype DataInFlags = DataInFlags(
    final: bool, ackRequested: bool,
    bidirOverflow: bool, bidirUnderflow: bool,
    residualOverflow: bool, residualUnderflow: bool,
    containsStatus: bool)

  /** Byte 1 of a Data-In PDU: one bit per flag, bit 0x20 never set. */
  function EncodeDataInFlags(f: DataInFlags): (b: byte)
    ensures (b & DataFinal != 0) == f.final
    ensures (b & DataAckRequested != 0) == f.ackRequested
    ensures (b & DataBidirOverflow != 0) == f.bidirOverflow
    ensures (b & DataBidirUnderflow != 0) == f.bidirUnderflow
    ensures (b & DataResidualOverflow != 0) == f.residualOverflow
    ensures (b & DataResidualUnderflow != 0) == f.residualUnderflow
    ensures (b & DataContainsStatus != 0) == f.containsStatus
    ensures b & 0x20 == 0
  {
    (if f.final then DataFinal else 0)
    | (if f.ackRequested then DataAckRequested else 0)
    | (if f.bidirOverflow then DataBidirOverflow else 0)
    | (if f.bidirUnderflow then DataBidirUnderflow else 0)
    | (if f.residualOverflow then DataResidualOverflow else 0)
    | (if f.residualUnderflow then DataResidualUnderflow else 0)
    | (if f.containsStatus then DataContainsStatus else 0)
  }

  function DecodeDataInFlags(b: byte): (r: Option<DataInFlags>)
    ensures r.Some? ==> EncodeDataInFlags(r.value) == b
    ensures r.None? <==> b & 0x20 != 0
  {
    if b & 0x20 != 0 then None
    else Some(DataInFlags(
      b & DataFinal != 0, b & DataAckRequested != 0,
      b & DataBidirOverflow != 0, b & DataBidirUnderflow != 0,
      b & DataResidualOverflow != 0, b & DataResidualUnderflow != 0,
      b & DataContainsStatus != 0))
  }

  lemma DataInFlagsRoundTrip(f: DataInFlags)
    ensures DecodeDataInFlags(EncodeDataInFlags(f)) == Some(f)
  {
  }

  // ---------------------------------------------------------------------------
  // Text Request / Response flags (section 11.10 of RFC 7143)
  // ---------------------------------------------------------------------------

  const TextFinal: byte := 0x80
  const TextContinue: byte := 0x40

  datatype TextFlags = TextFlags(final: bool, continuing: bool)

  function EncodeTextFlags(f: TextFlags): (b: byte)
    ensures (b & TextFinal != 0) == f.final
    ensures (b & TextContinue != 0) == f.continuing
    ensures b & 0x3f == 0
  {
    (if f.final then TextFinal else 0) | (if f.continuing then TextContinue else 0)
  }

  function DecodeTextFlags(b: byte): (r: Option<TextFlags>)
    ensures r.Some? ==> EncodeTextFlags(r.value) == b
    ensures r.None? <==> b & 0x3f != 0
  {
    if b & 0x3f != 0 then None
    else Some(TextFlags(b & TextFinal != 0, b & TextContinue != 0))
  }

  lemma TextFlagsRoundTrip(f: TextFlags)
    ensures DecodeTextFlags(EncodeTextFlags(f)) == Some(f)
  {
  }
}
