/** The GGUF header reader of src/gguf.rs as functions on the file's bytes and
    a position, which a seek may move past the end of the file. */
module Gguf {
  import opened Wrappers

  type Octet = b: int | 0 <= b < 256

  type Octets = seq<Octet>

  const MAX_DEPTH := 8
  const MAX_STRING_BYTES := 64 * 1024 * 1024
  const MAX_ARRAY_LEN := 10_000_000
  const MAX_RANK := 8

  /** The element limit of a read that skips nothing. */
  const NO_LIMIT := 0xFFFF_FFFF_FFFF_FFFF

  /** A metadata value; floats are kept as their bits, strings as their bytes. */
  datatype Value =
    | U8(n: nat) | I8(i: int) | U16(n: nat) | I16(i: int) | U32(n: nat) | I32(i: int) | F32(bits: nat)
    | Bool(b: bool) | Str(bytes: Octets)
    | Array(items: seq<Value>) | LargeArray(len: nat)
    | U64(n: nat) | I64(i: int) | F64(bits: nat)

  datatype Error =
    | UnexpectedEof | NestingTooDeep | ImplausibleString(len: nat) | ImplausibleArray(len: nat)
    | UnknownType(ty: nat) | NotGguf | UnsupportedVersion(version: nat) | ImplausibleRank(rank: nat)
    | PastTheEnd(end: nat)

  /** What a read gives and where it leaves the stream. */
  datatype Read<+T> = Ok(value: T, pos: nat) | Err(error: Error)

  // ----- primitive reads -----

  function LittleEndian(s: Octets): nat {
    if s == [] then 0 else s[0] + 256 * LittleEndian(s[1..])
  }

  /** `read_exact`: nothing is read at all when nothing is asked for. */
  function ReadExact(data: Octets, pos: nat, n: nat): Read<Octets> {
    if n == 0 then Ok([], pos)
    else if pos + n <= |data| then Ok(data[pos..pos + n], pos + n)
    else Err(UnexpectedEof)
  }

  function ReadUnsigned(data: Octets, pos: nat, width: nat): Read<nat> {
    match ReadExact(data, pos, width)
    case Ok(s, p) => Ok(LittleEndian(s), p)
    case Err(e) => Err(e)
  }

  function Range(width: nat): nat {
    if width == 0 then 1 else 256 * Range(width - 1)
  }

  /** Two's complement. */
  function Signed(n: nat, width: nat): int {
    if 2 * n < Range(width) then n else n - Range(width)
  }

  function FixedSize(ty: nat): Option<nat> {
    if ty == 0 || ty == 1 || ty == 7 then Some(1)
    else if ty == 2 || ty == 3 then Some(2)
    else if 4 <= ty <= 6 then Some(4)
    else if 10 <= ty <= 12 then Some(8)
    else None
  }

  function Scalar(ty: nat, n: nat): Value
    requires FixedSize(ty).Some?
  {
    match ty
    case 0 => U8(n)
    case 1 => I8(Signed(n, 1))
    case 2 => U16(n)
    case 3 => I16(Signed(n, 2))
    case 4 => U32(n)
    case 5 => I32(Signed(n, 4))
    case 6 => F32(n)
    case 7 => Bool(n != 0)
    case 10 => U64(n)
    case 11 => I64(Signed(n, 8))
    case _ => F64(n)
  }

  function StringLen(data: Octets, pos: nat): Read<nat> {
    match ReadUnsigned(data, pos, 8)
    case Err(e) => Err(e)
    case Ok(len, p) => if len > MAX_STRING_BYTES then Err(ImplausibleString(len)) else Ok(len, p)
  }

  function ReadString(data: Octets, pos: nat): Read<Octets> {
    match StringLen(data, pos)
    case Err(e) => Err(e)
    case Ok(len, p) => ReadExact(data, p, len)
  }

  datatype ArrayHead = ArrayHead(ty: nat, len: nat)

  function ArrayHeader(data: Octets, pos: nat): Read<ArrayHead> {
    match ReadUnsigned(data, pos, 4)
    case Err(e) => Err(e)
    case Ok(ty, p) =>
      match ReadUnsigned(data, p, 8)
      case Err(e) => Err(e)
      case Ok(len, q) => if len > MAX_ARRAY_LEN then Err(ImplausibleArray(len)) else Ok(ArrayHead(ty, len), q)
  }

  // ----- values -----

  function Room(depth: nat): nat {
    if depth > MAX_DEPTH then 0 else MAX_DEPTH + 1 - depth
  }

  /** `value_at`. Arrays of more than `max` elements are stepped over. */
  function ValueAt(data: Octets, pos: nat, ty: nat, depth: nat, max: nat): Read<Value>
    decreases Room(depth), 0, 0
  {
    if depth > MAX_DEPTH then Err(NestingTooDeep)
    else if FixedSize(ty).Some? then
      match ReadUnsigned(data, pos, FixedSize(ty).value)
      case Ok(n, p) => Ok(Scalar(ty, n), p)
      case Err(e) => Err(e)
    else if ty == 8 then
      match ReadString(data, pos)
      case Ok(s, p) => Ok(Str(s), p)
      case Err(e) => Err(e)
    else if ty == 9 then
      match ArrayHeader(data, pos)
      case Err(e) => Err(e)
      case Ok(head, p) =>
        if head.len > max then
          match SkipElements(data, p, head.ty, head.len, depth + 1)
          case Ok(_, q) => Ok(LargeArray(head.len), q)
          case Err(e) => Err(e)
        else
          match Elements(data, p, head.ty, head.len, depth + 1, max)
          case Ok(items, q) => Ok(Array(items), q)
          case Err(e) => Err(e)
    else Err(UnknownType(ty))
  }

  /** `len` values of one type, one after the other. */
  function Elements(data: Octets, pos: nat, ty: nat, len: nat, depth: nat, max: nat): Read<seq<Value>>
    decreases Room(depth), 1, len
  {
    if len == 0 then Ok([], pos)
    else
      match ValueAt(data, pos, ty, depth, max)
      case Err(e) => Err(e)
      case Ok(v, p) =>
        match Elements(data, p, ty, len - 1, depth, max)
        case Err(e) => Err(e)
        case Ok(rest, q) => Ok([v] + rest, q)
  }

  /** `skip_value_at`: steps over a value, unread; a seek never fails. */
  function SkipValueAt(data: Octets, pos: nat, ty: nat, depth: nat): Read<()>
    decreases Room(depth), 0, 0
  {
    if depth > MAX_DEPTH then Err(NestingTooDeep)
    else if FixedSize(ty).Some? then Ok((), pos + FixedSize(ty).value)
    else if ty == 8 then
      match StringLen(data, pos)
      case Ok(len, p) => Ok((), p + len)
      case Err(e) => Err(e)
    else if ty == 9 then
      match ArrayHeader(data, pos)
      case Ok(head, p) => SkipElements(data, p, head.ty, head.len, depth + 1)
      case Err(e) => Err(e)
    else Err(UnknownType(ty))
  }

  /** `skip_elements`: one seek when all elements have the same size. */
  function SkipElements(data: Octets, pos: nat, ty: nat, len: nat, depth: nat): Read<()>
    decreases Room(depth), 2, 0
  {
    if len > 0 && depth > MAX_DEPTH then Err(NestingTooDeep)
    else if FixedSize(ty).Some? then Ok((), pos + FixedSize(ty).value * len)
    else SkipEach(data, pos, ty, len, depth)
  }

  function SkipEach(data: Octets, pos: nat, ty: nat, len: nat, depth: nat): Read<()>
    decreases Room(depth), 1, len
  {
    if len == 0 then Ok((), pos)
    else
      match SkipValueAt(data, pos, ty, depth)
      case Err(e) => Err(e)
      case Ok(_, p) => SkipEach(data, p, ty, len - 1, depth)
  }

  // ----- the header -----

  datatype TensorInfo = TensorInfo(name: Octets, dims: seq<nat>, ggmlType: nat)

  function Metadata(data: Octets, pos: nat, count: nat, max: nat, known: map<Octets, Value>): Read<map<Octets, Value>>
    decreases count
  {
    if count == 0 then Ok(known, pos)
    else
      match ReadString(data, pos)
      case Err(e) => Err(e)
      case Ok(key, p) =>
        match ReadUnsigned(data, p, 4)
        case Err(e) => Err(e)
        case Ok(ty, q) =>
          match ValueAt(data, q, ty, 0, max)
          case Err(e) => Err(e)
          case Ok(v, r) => Metadata(data, r, count - 1, max, known[key := v])
  }

  function Dims(data: Octets, pos: nat, rank: nat): Read<seq<nat>>
    decreases rank
  {
    if rank == 0 then Ok([], pos)
    else
      match ReadUnsigned(data, pos, 8)
      case Err(e) => Err(e)
      case Ok(d, p) =>
        match Dims(data, p, rank - 1)
        case Err(e) => Err(e)
        case Ok(rest, q) => Ok([d] + rest, q)
  }

  function Tensor(data: Octets, pos: nat): Read<TensorInfo> {
    match ReadString(data, pos)
    case Err(e) => Err(e)
    case Ok(name, p) =>
      match ReadUnsigned(data, p, 4)
      case Err(e) => Err(e)
      case Ok(rank, q) =>
        if rank > MAX_RANK then Err(ImplausibleRank(rank)) else
        match Dims(data, q, rank)
        case Err(e) => Err(e)
        case Ok(dims, r) =>
          match ReadUnsigned(data, r, 4)
          case Err(e) => Err(e)
          case Ok(ggmlType, s) =>
            match ReadUnsigned(data, s, 8)
            case Err(e) => Err(e)
            case Ok(_, t) => Ok(TensorInfo(name, dims, ggmlType), t)
  }

  function Tensors(data: Octets, pos: nat, count: nat): Read<seq<TensorInfo>>
    decreases count
  {
    if count == 0 then Ok([], pos)
    else
      match Tensor(data, pos)
      case Err(e) => Err(e)
      case Ok(t, p) =>
        match Tensors(data, p, count - 1)
        case Err(e) => Err(e)
        case Ok(rest, q) => Ok([t] + rest, q)
  }

  const MAGIC: Octets := [0x47, 0x47, 0x55, 0x46]

  datatype Preamble = Preamble(tensorCount: nat, metadataCount: nat)

  function ReadPreamble(data: Octets): Read<Preamble> {
    match ReadExact(data, 0, 4)
    case Err(e) => Err(e)
    case Ok(magic, p) =>
      if magic != MAGIC then Err(NotGguf) else
      match ReadUnsigned(data, p, 4)
      case Err(e) => Err(e)
      case Ok(version, q) =>
        if version < 2 then Err(UnsupportedVersion(version)) else
        match ReadUnsigned(data, q, 8)
        case Err(e) => Err(e)
        case Ok(tensorCount, r) =>
          match ReadUnsigned(data, r, 8)
          case Err(e) => Err(e)
          case Ok(metadataCount, s) => Ok(Preamble(tensorCount, metadataCount), s)
  }

  datatype Header = Header(metadata: map<Octets, Value>, tensors: seq<TensorInfo>)

  /** Everything that is read or skipped, before the final check. */
  function Body(data: Octets, max: nat): Read<Header> {
    match ReadPreamble(data)
    case Err(e) => Err(e)
    case Ok(counts, p) =>
      match Metadata(data, p, counts.metadataCount, max, map[])
      case Err(e) => Err(e)
      case Ok(metadata, q) =>
        match Tensors(data, q, counts.tensorCount)
        case Err(e) => Err(e)
        case Ok(tensors, r) => Ok(Header(metadata, tensors), r)
  }

  /** `read_info_up_to` up to its counts: a skip that went past the end of the
      file is caught here. */
  function ReadHeader(data: Octets, max: nat): Read<Header> {
    match Body(data, max)
    case Err(e) => Err(e)
    case Ok(h, end) => if end > |data| then Err(PastTheEnd(end)) else Ok(h, end)
  }
}
