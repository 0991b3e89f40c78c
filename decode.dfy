/**
 * Decoding of the trapped privileged instruction. The fields are those of the
 * RISC-V I-type layout used by the SYSTEM opcode and the Zicsr extension:
 * opcode in bits 0-6, rd in 7-11, funct3 in 12-14, rs1 in 15-19 and the CSR
 * number in 20-31.
 */
module Decode {
  import opened VmRegs

  datatype Fields = Fields(op: bv7, rd: bv5, funct3: bv3, rs1: bv5, uimm: bv12)

  /** The five fields, each masked out of the instruction word. */
  function DecodeFields(w: bv32): Fields {
    Fields((w & 0x7f) as bv7,
           ((w >> 7) & 0x1f) as bv5,
           ((w >> 12) & 0x7) as bv3,
           ((w >> 15) & 0x1f) as bv5,
           ((w >> 20) & 0xfff) as bv12)
  }

  /** The instruction word with the given fields. */
  function EncodeFields(f: Fields): bv32 {
    (f.op as bv32) | ((f.rd as bv32) << 7) | ((f.funct3 as bv32) << 12) |
    ((f.rs1 as bv32) << 15) | ((f.uimm as bv32) << 20)
  }

  /** The fields cover the whole word: decoding loses nothing ... */
  lemma EncodeDecode(w: bv32)
    ensures EncodeFields(DecodeFields(w)) == w
  {
  }

  /** ... and every combination of fields is some word. */
  lemma DecodeEncode(f: Fields)
    ensures DecodeFields(EncodeFields(f)) == f
  {
  }

  /** What the dispatcher does with an instruction. */
  datatype Op =
    | Sret
    | Mret
    | Ecall
    | Csrw(rs1: bv5, csr: CsrId)
    | Csrr(rd: bv5, csr: CsrId)
    | Ignored

  /** The switch of trap_and_emulate: funct3 0 is SRET, MRET or (any other
      immediate) ECALL; funct3 1 is a CSR write from rs1; funct3 2 a CSR read
      into rd; any other funct3 is ignored. The opcode is never looked at. */
  function Classify(f: Fields): (op: Op)
    ensures op == Sret <==> f.funct3 == 0 && f.uimm == 0x102
    ensures op == Mret <==> f.funct3 == 0 && f.uimm == 0x302
    ensures op == Ecall <==> f.funct3 == 0 && f.uimm != 0x102 && f.uimm != 0x302
    ensures op.Csrw? <==> f.funct3 == 1
    ensures op.Csrw? ==> op.rs1 == f.rs1 && op.csr == f.uimm
    ensures op.Csrr? <==> f.funct3 == 2
    ensures op.Csrr? ==> op.rd == f.rd && op.csr == f.uimm
    ensures op == Ignored <==> f.funct3 > 2
  {
    match f.funct3
    case 0 => if f.uimm == 0x102 then Sret else if f.uimm == 0x302 then Mret else Ecall
    case 1 => Csrw(f.rs1, f.uimm)
    case 2 => Csrr(f.rd, f.uimm)
    case _ => Ignored
  }

  const SYSTEM: bv7 := 0x73

  /** The standard encoding of each operation: sret, mret, ecall,
      csrrw x0, csr, rs1 and csrrs rd, csr, x0. */
  function Encode(op: Op): bv32
    requires op != Ignored
  {
    match op
    case Sret => EncodeFields(Fields(SYSTEM, 0, 0, 0, 0x102))
    case Mret => EncodeFields(Fields(SYSTEM, 0, 0, 0, 0x302))
    case Ecall => EncodeFields(Fields(SYSTEM, 0, 0, 0, 0))
    case Csrw(rs1, csr) => EncodeFields(Fields(SYSTEM, 0, 1, rs1, csr))
    case Csrr(rd, csr) => EncodeFields(Fields(SYSTEM, rd, 2, 0, csr))
  }

  /** The dispatcher recognises every standard encoding as what it encodes. */
  lemma ClassifyEncode(op: Op)
    requires op != Ignored
    ensures Classify(DecodeFields(Encode(op))) == op
  {
    match op
    case Sret => DecodeEncode(Fields(SYSTEM, 0, 0, 0, 0x102));
    case Mret => DecodeEncode(Fields(SYSTEM, 0, 0, 0, 0x302));
    case Ecall => DecodeEncode(Fields(SYSTEM, 0, 0, 0, 0));
    case Csrw(rs1, csr) => DecodeEncode(Fields(SYSTEM, 0, 1, rs1, csr));
    case Csrr(rd, csr) => DecodeEncode(Fields(SYSTEM, rd, 2, 0, csr));
  }
}
