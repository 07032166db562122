/** What one register access of the polling puts on the wire and hands to its caller: the choice of the library call by
    register type and length, and the reversal of the register groups in the buffer. */
module RegisterTransfer {
  import opened SwapGroups

  const PDU_MAX: nat := 253

  datatype RegType = Holding | Input | CoilStatus | InputStatus

  datatype RegisterData = RegisterData(kind: RegType, addr: nat, length: nat, flip: nat)

  /** The steps are those of the enumeration, and the length fits the buffer. */
  type Register = r: RegisterData | r.length <= PDU_MAX && r.flip in {0, 2, 4, 8}
    witness RegisterData(Holding, 0, 1, 0)

  type Buffer = b: seq<Word> | |b| == PDU_MAX witness seq(PDU_MAX, _ => 0)

  /** A call of the Modbus library. */
  datatype Request =
    | ReadRegisters(addr: nat, length: nat)
    | ReadInputRegisters(addr: nat, length: nat)
    | ReadBits(addr: nat, length: nat)
    | ReadInputBits(addr: nat, length: nat)
    | WriteRegister(addr: nat, word: Word)
    | WriteRegisters(addr: nat, words: seq<Word>)
    | WriteBit(addr: nat, bit: nat)
    | WriteBits(addr: nat, bits: seq<nat>)

  function ReadRequest(r: Register): Request {
    match r.kind
    case Holding => ReadRegisters(r.addr, r.length)
    case Input => ReadInputRegisters(r.addr, r.length)
    case CoilStatus => ReadBits(r.addr, r.length)
    case InputStatus => ReadInputBits(r.addr, r.length)
  }

  /** Byte `i` of a buffer of words, low byte first. */
  function ByteOf(b: Buffer, i: nat): nat
    requires i < 2 * PDU_MAX
  {
    if i % 2 == 0 then b[i / 2] % 0x100 else b[i / 2] / 0x100
  }

  function Reversed(r: Register, b: Buffer): (b': Buffer) {
    GroupsReversed(b, r.flip, r.length)
  }

  predicate Writable(r: Register) {
    r.kind.Holding? || r.kind.CoilStatus?
  }

  /** The call that writes the buffer: registers after the reversal, coils as they are. */
  function WriteRequest(r: Register, b: Buffer): Request
    requires Writable(r)
  {
    if r.kind.Holding? then
      if r.length == 1 then WriteRegister(r.addr, Reversed(r, b)[0])
      else WriteRegisters(r.addr, Reversed(r, b)[..r.length])
    else if r.length == 1 then WriteBit(r.addr, ByteOf(b, 0))
    else WriteBits(r.addr, seq(r.length, i requires 0 <= i < r.length => ByteOf(b, i)))
  }

  // ---------------------------------------------------------------- round trip

  function WordsOf(q: Request): seq<Word> {
    match q
    case WriteRegister(_, w) => [w]
    case WriteRegisters(_, ws) => ws
    case _ => []
  }

  /** The reversal of the first words depends on nothing behind them. */
  lemma ReversalIsLocal(r: Register, b: Buffer, c: Buffer)
    requires b[..r.length] == c[..r.length]
    ensures Reversed(r, b)[..r.length] == Reversed(r, c)[..r.length]
  {
    hide Mirror;
    forall i | 0 <= i < r.length ensures Reversed(r, b)[i] == Reversed(r, c)[i] {
      assert b[i] == b[..r.length][i] && c[i] == c[..r.length][i];
      if Swaps(r.flip, r.length) {
        var m := Mirror(i, r.flip, r.length);
        assert b[m] == b[..r.length][m] && c[m] == c[..r.length][m];
      }
    }
  }

  /** If holding registers answer a read with the words last written to them, the read-back callback gets the words
      that the source supplied for the write. */
  lemma WriteThenRead(r: Register, source: Buffer, answer: Buffer)
    requires r.kind.Holding?
    requires answer[..r.length] == WordsOf(WriteRequest(r, source))
    ensures Reversed(r, answer)[..r.length] == source[..r.length]
  {
    var sent := Reversed(r, source);
    assert WordsOf(WriteRequest(r, source)) == sent[..r.length];
    ReversalIsLocal(r, answer, sent);
    ReversedTwice(source, r.flip, r.length);
  }

  // ---------------------------------------------------------------- which call

  /** The function code of the Modbus application protocol that a library call sends. */
  function FunctionCode(q: Request): nat {
    match q
    case ReadBits(_, _) => 0x01
    case ReadInputBits(_, _) => 0x02
    case ReadRegisters(_, _) => 0x03
    case ReadInputRegisters(_, _) => 0x04
    case WriteBit(_, _) => 0x05
    case WriteRegister(_, _) => 0x06
    case WriteBits(_, _) => 0x0F
    case WriteRegisters(_, _) => 0x10
  }

  /** How many registers or coils a call reads or writes. */
  function CountOf(q: Request): nat {
    match q
    case WriteBit(_, _) => 1
    case WriteRegister(_, _) => 1
    case WriteBits(_, bits) => |bits|
    case WriteRegisters(_, words) => |words|
    case _ => q.length
  }

  /** A read asks for all of the item, with the function code of its register type. */
  lemma ReadCall(r: Register)
    ensures var q := ReadRequest(r);
            && q.addr == r.addr && CountOf(q) == r.length
            && (FunctionCode(q) == 0x01 <==> r.kind.CoilStatus?) && (FunctionCode(q) == 0x02 <==> r.kind.InputStatus?)
            && (FunctionCode(q) == 0x03 <==> r.kind.Holding?) && (FunctionCode(q) == 0x04 <==> r.kind.Input?)
  {
  }

  /** A write carries all of the item, with the single-write code exactly for an item of one. */
  lemma WriteCall(r: Register, b: Buffer)
    requires Writable(r)
    ensures var q := WriteRequest(r, b);
            && q.addr == r.addr && CountOf(q) == r.length
            && (FunctionCode(q) == 0x06 <==> r.kind.Holding? && r.length == 1)
            && (FunctionCode(q) == 0x10 <==> r.kind.Holding? && r.length != 1)
            && (FunctionCode(q) == 0x05 <==> r.kind.CoilStatus? && r.length == 1)
            && (FunctionCode(q) == 0x0F <==> r.kind.CoilStatus? && r.length != 1)
  {
  }

  // ---------------------------------------------------------------- coils

  /** The bytes of the buffer make up its words, low byte first. */
  lemma BytesMakeWords(b: Buffer, w: nat)
    requires w < PDU_MAX
    ensures ByteOf(b, 2 * w) < 0x100 && ByteOf(b, 2 * w + 1) < 0x100
    ensures b[w] == ByteOf(b, 2 * w) + 0x100 * ByteOf(b, 2 * w + 1)
  {
    assert (2 * w) / 2 == w && (2 * w) % 2 == 0 && (2 * w + 1) / 2 == w && (2 * w + 1) % 2 == 1;
  }

  function BitsOf(q: Request): seq<nat> {
    match q
    case WriteBit(_, b) => [b]
    case WriteBits(_, bs) => bs
    case _ => []
  }

  /** Coils that answer a read with the bits last written to them give the callback the bytes of the source. */
  ghost predicate CoilsSurvive(r: Register)
    requires r.kind.CoilStatus?
  {
    forall source: Buffer, answer: Buffer {:trigger Answers(r, source, answer)} ::
      Answers(r, source, answer) ==> SameBytes(r, source, Reversed(r, answer))
  }

  /** The source supplies zeros and ones, and the read leaves in the buffer one byte for each bit written. */
  ghost predicate Answers(r: Register, source: Buffer, answer: Buffer)
    requires r.kind.CoilStatus?
  {
    && (forall i :: 0 <= i < r.length ==> ByteOf(source, i) <= 1)
    && |BitsOf(WriteRequest(r, source))| == r.length
    && forall i :: 0 <= i < r.length ==> ByteOf(answer, i) == BitsOf(WriteRequest(r, source))[i]
  }

  ghost predicate SameBytes(r: Register, source: Buffer, got: Buffer) {
    forall i :: 0 <= i < r.length ==> ByteOf(got, i) == ByteOf(source, i)
  }

  lemma BitsWritten(r: Register, source: Buffer, i: nat)
    requires r.kind.CoilStatus? && i < r.length
    ensures var bits := BitsOf(WriteRequest(r, source)); |bits| == r.length && bits[i] == ByteOf(source, i)
  {
  }

  /** A read reverses the buffer of coils like one of registers, and a write does not. So coils survive the round
      trip exactly when the item is empty or its step moves nothing. */
  lemma CoilsSurviveIff(r: Register)
    requires r.kind.CoilStatus?
    ensures CoilsSurvive(r) <==> r.length == 0 || r.flip == 0 || r.length % r.flip != 0
  {
    if r.flip == 0 || r.length % r.flip != 0 {
      forall source: Buffer, answer: Buffer | Answers(r, source, answer)
        ensures SameBytes(r, source, Reversed(r, answer))
      {
        assert Reversed(r, answer) == answer;
        forall i | 0 <= i < r.length ensures ByteOf(answer, i) == ByteOf(source, i) {
          BitsWritten(r, source, i);
        }
      }
    } else if r.length > 0 {
      CoilsLost(r);
    }
  }

  /** A one in the first coil ends up behind the other words of its group. */
  lemma CoilsLost(r: Register)
    requires r.kind.CoilStatus? && r.length > 0 && r.flip != 0 && r.length % r.flip == 0
    ensures !CoilsSurvive(r)
  {
    var b: Buffer := seq(PDU_MAX, i => if i == 0 then 1 else 0);
    forall i | 0 <= i < r.length ensures ByteOf(b, i) == (if i == 0 then 1 else 0) {
    }
    forall i | 0 <= i < r.length ensures ByteOf(b, i) == BitsOf(WriteRequest(r, b))[i] {
      BitsWritten(r, b, i);
    }
    BitsWritten(r, b, 0);
    assert Answers(r, b, b);
    GroupElement(b, r.flip, r.length, 0, 0);
    assert ByteOf(Reversed(r, b), 0) == 0;
    assert !SameBytes(r, b, Reversed(r, b));
  }

  // ---------------------------------------------------------------- in place

  lemma StepDivides(r: Register)
    requires Swaps(r.flip, r.length)
    ensures r.length % r.flip == 0
  {
  }

  /** The buffer of a read, as the library leaves it, is reversed before the callback gets it. */
  method DeliverRead(r: Register, words: Buffer) returns (delivered: Buffer)
    ensures delivered == Reversed(r, words)
  {
    var u16Buffer := new Word[PDU_MAX](i requires 0 <= i < PDU_MAX => words[i]);
    assert u16Buffer[..] == words;
    if Swaps(r.flip, r.length) {
      StepDivides(r);
    }
    SwapInPlace(u16Buffer, r.flip, r.length);
    delivered := u16Buffer[..];
  }

  /** The choice of the call for a write, with the reversal in the buffer. */
  method PrepareWrite(r: Register, words: Buffer) returns (q: Request)
    requires Writable(r)
    ensures q == WriteRequest(r, words)
  {
    var u16Buffer := new Word[PDU_MAX](i requires 0 <= i < PDU_MAX => words[i]);
    assert u16Buffer[..] == words;
    if r.kind.Holding? {
      if Swaps(r.flip, r.length) {
        StepDivides(r);
      }
      if r.flip != 0 {
        SwapInPlace(u16Buffer, r.flip, r.length);
      }
      assert u16Buffer[..] == Reversed(r, words);
      if r.length == 1 {
        q := WriteRegister(r.addr, u16Buffer[0]);
      } else {
        q := WriteRegisters(r.addr, u16Buffer[..r.length]);
      }
    } else if r.length == 1 {
      q := WriteBit(r.addr, u16Buffer[0] % 0x100);
    } else {
      q := WriteBits(r.addr, seq(r.length, i requires 0 <= i < r.length => ByteOf(words, i)));
    }
  }
}
