/** One step of the RISC-V subset interpreter of riscv.c: a 32-entry register file of
    32-bit words and a byte-addressed, little-endian memory kept in a hash table. */
module Riscv {
  import opened HashTables

  datatype Option<T> = None | Some(value: T)

  /* ---------------------------------------------------------------------------------
     Words
     --------------------------------------------------------------------------------- */

  /** The two's complement reading of an unsigned 32-bit value. */
  function SignedOf(u: int): int
  {
    if u < 0x8000_0000 then u else u - 0x1_0000_0000
  }

  lemma WordRange(w: bv32)
    ensures 0 <= w as int < 0x1_0000_0000
  {
  }

  /** Converting a word to an integer and back gives the word. */
  lemma IntRoundTrip(w: bv32)
    ensures (w as int) as bv32 == w
  {
  }

  /** Two's complement reading is one-to-one on unsigned 32-bit values. */
  lemma SignedOfInjective(x: int, y: int)
    requires 0 <= x < 0x1_0000_0000 && 0 <= y < 0x1_0000_0000
    ensures SignedOf(x) == SignedOf(y) ==> x == y
  {
  }

  /** The C `int` value of a 32-bit word. */
  function Signed(w: bv32): (z: int)
    ensures -0x8000_0000 <= z < 0x8000_0000
  {
    WordRange(w);
    SignedOf(w as int)
  }

  /** Distinct words are distinct C `int` values, so they name distinct memory keys. */
  lemma SignedInjective(a: bv32, b: bv32)
    ensures Signed(a) == Signed(b) ==> a == b
  {
    WordRange(a);
    WordRange(b);
    SignedOfInjective(a as int, b as int);
    if a as int == b as int {
      calc {
        a;
        (a as int) as bv32;
        (b as int) as bv32;
        b;
      }
    }
  }

  /** The 32-bit word an integer wraps around to (the conversion of a C `long` to `int`). */
  function Word(z: int): bv32
  {
    (z % 0x1_0000_0000) as bv32
  }

  /** Arithmetic shift right, as `>>` on a signed `int` behaves with the usual compilers. */
  function ArithmeticShiftRight(a: bv32, s: bv32): bv32
    requires s < 32
  {
    if a & 0x8000_0000 == 0 then a >> s else !((!a) >> s)
  }

  /** `(byte << 24) >> 24`: the low byte of a word, sign-extended to 32 bits. */
  function SignExtendByte(b: bv32): bv32
  {
    ArithmeticShiftRight(b << 24, 24)
  }

  /** Sign extension of a byte: below 0x80 it is the byte itself, otherwise the byte with
      the 24 upper bits set; either way the low byte is kept. */
  lemma SignExtendByteValue(b: bv32)
    requires b < 256
    ensures b < 0x80 ==> SignExtendByte(b) == b
    ensures b >= 0x80 ==> SignExtendByte(b) == b | 0xffff_ff00
    ensures SignExtendByte(b) & 0xff == b
  {
  }

  /* ---------------------------------------------------------------------------------
     Instruction text
     --------------------------------------------------------------------------------- */

  /** Instruction formats, as numbered R_TYPE .. UNKNOWN_TYPE. */
  datatype OpType = RType | IType | MemType | UType | Unknown

  const ROps: seq<string> := ["add", "sub", "and", "or", "xor", "nor", "slt", "sll", "sra"]
  const IOps: seq<string> := ["addi", "andi", "ori", "xori", "slti"]
  const MemOps: seq<string> := ["lw", "lb", "sw", "sb"]
  const UOps: seq<string> := ["lui"]

  /** The mnemonics of each format, as the branches of `step` tell them apart. */
  datatype ROp = Add | Sub | And | Or | Xor | Nor | Slt | Sll | Sra
  datatype IOp = Addi | Andi | Ori | Xori | Slti
  datatype MemOp = Lw | Lb | Sw | Sb

  function ROpName(o: ROp): string
  {
    match o
    case Add => "add" case Sub => "sub" case And => "and" case Or => "or" case Xor => "xor"
    case Nor => "nor" case Slt => "slt" case Sll => "sll" case Sra => "sra"
  }

  function IOpName(o: IOp): string
  {
    match o
    case Addi => "addi" case Andi => "andi" case Ori => "ori" case Xori => "xori" case Slti => "slti"
  }

  function MemOpName(o: MemOp): string
  {
    match o
    case Lw => "lw" case Lb => "lb" case Sw => "sw" case Sb => "sb"
  }

  /** The R-type mnemonic a listed name spells (the strcmp chain of the R-type branch). */
  function ROpOf(op: string): (o: ROp)
    requires op in ROps
    ensures ROpName(o) == op
  {
    if op == "add" then Add else if op == "sub" then Sub else if op == "and" then And
    else if op == "or" then Or else if op == "xor" then Xor else if op == "nor" then Nor
    else if op == "slt" then Slt else if op == "sll" then Sll else Sra
  }

  /** The I-type mnemonic a listed name spells. */
  function IOpOf(op: string): (o: IOp)
    requires op in IOps
    ensures IOpName(o) == op
  {
    if op == "addi" then Addi else if op == "andi" then Andi else if op == "ori" then Ori
    else if op == "xori" then Xori else Slti
  }

  /** The memory mnemonic a listed name spells. */
  function MemOpOf(op: string): (o: MemOp)
    requires op in MemOps
    ensures MemOpName(o) == op
  {
    if op == "lw" then Lw else if op == "lb" then Lb else if op == "sw" then Sw else Sb
  }

  /** get_op_type: the format of a mnemonic, searching the four tables in order. */
  function GetOpType(op: string): (t: OpType)
    ensures t == RType <==> op in ROps
    ensures t == IType <==> op in IOps
    ensures t == MemType <==> op in MemOps
    ensures t == UType <==> op == "lui"
    ensures t == Unknown <==> op !in ROps + IOps + MemOps + UOps
  {
    if op in ROps then RType
    else if op in IOps then IType
    else if op in MemOps then MemType
    else if op in UOps then UType
    else Unknown
  }

  /** Each mnemonic name is listed in its table, has no space and spells its mnemonic back. */
  lemma ROpNameListed(o: ROp)
    ensures ROpName(o) in ROps && ' ' !in ROpName(o) && ROpOf(ROpName(o)) == o
  {
  }

  lemma IOpNameListed(o: IOp)
    ensures IOpName(o) in IOps && ' ' !in IOpName(o) && IOpOf(IOpName(o)) == o
  {
  }

  lemma MemOpNameListed(o: MemOp)
    ensures MemOpName(o) in MemOps && ' ' !in MemOpName(o) && MemOpOf(MemOpName(o)) == o
  {
  }

  /** The four tables are disjoint, so each mnemonic has exactly one format. */
  lemma OpTablesDisjoint(op: string)
    ensures (if op in ROps then 1 else 0) + (if op in IOps then 1 else 0) +
            (if op in MemOps then 1 else 0) + (if op in UOps then 1 else 0) <= 1
  {
  }

  /** The result of strsep on a non-NULL string: the token before the first delimiter, and the
      text after it, or None (the NULL pointer) when there is no delimiter. */
  datatype Cut = Cut(token: string, rest: Option<string>)

  /** strsep(&s, delim) for a one-character delimiter. */
  function Strsep(s: string, delim: char): (c: Cut)
    ensures delim !in c.token
    ensures c.rest.None? ==> c.token == s
    ensures c.rest.Some? ==> s == c.token + [delim] + c.rest.value
  {
    if s == [] then Cut([], None)
    else if s[0] == delim then Cut([], Some(s[1..]))
    else
      var c := Strsep(s[1..], delim);
      Cut([s[0]] + c.token, c.rest)
  }

  /** The text with every ' ' deleted and the other characters kept in order. */
  function Unspaced(s: string): (r: string)
    ensures ' ' !in r
    ensures |r| <= |s|
    ensures ' ' !in s ==> r == s
  {
    if s == [] then []
    else if s[0] == ' ' then Unspaced(s[1..])
    else [s[0]] + Unspaced(s[1..])
  }

  /** Deleting spaces distributes over concatenation. */
  lemma {:induction false} UnspacedAppend(a: string, b: string)
    ensures Unspaced(a + b) == Unspaced(a) + Unspaced(b)
  {
    if a == [] {
      assert a + b == b;
    } else {
      assert (a + b)[0] == a[0];
      assert (a + b)[1..] == a[1..] + b;
      UnspacedAppend(a[1..], b);
      if a[0] != ' ' {
        calc {
          Unspaced(a + b);
          [a[0]] + Unspaced(a[1..] + b);
          [a[0]] + (Unspaced(a[1..]) + Unspaced(b));
          ([a[0]] + Unspaced(a[1..])) + Unspaced(b);
        }
      }
    }
  }

  /** The length of the C string held in `s`: the index of its first NUL. */
  function CLength(s: seq<char>): (n: nat)
    requires '\0' in s
    ensures n < |s| && s[n] == '\0' && '\0' !in s[..n]
  {
    if s[0] == '\0' then 0 else 1 + CLength(s[1..])
  }

  /** Deleting spaces from one more character of a prefix. */
  lemma UnspacedSnoc(s: string, i: nat)
    requires i < |s|
    ensures Unspaced(s[..i + 1]) == Unspaced(s[..i]) + (if s[i] == ' ' then [] else [s[i]])
  {
    assert s[..i + 1] == s[..i] + [s[i]];
    UnspacedAppend(s[..i], [s[i]]);
  }

  /** The first NUL at or before the C length is at the C length. */
  lemma CLengthAt(s: seq<char>, i: nat)
    requires '\0' in s && i <= CLength(s) && s[i] == '\0'
    ensures i == CLength(s) && s[..i] == s[..CLength(s)]
  {
  }

  /** remove_spaces: compact the C string in `str` in place, dropping every ' '.
      Returns the new length; the NUL is written just after the kept characters. */
  method RemoveSpaces(str: array<char>) returns (counter: nat)
    requires '\0' in str[..]
    modifies str
    ensures counter < str.Length && str[counter] == '\0'
    ensures str[..counter] == Unspaced(old(str[..CLength(str[..])]))
    ensures forall k :: counter < k < str.Length ==> str[k] == old(str[k])
  {
    ghost var s0 := str[..];
    ghost var n := CLength(s0);
    counter := 0;
    var i := 0;
    while str[i] != '\0'
      invariant 0 <= counter <= i <= n
      invariant str[..counter] == Unspaced(s0[..i])
      invariant forall k :: counter <= k < str.Length ==> str[k] == s0[k]
      decreases n - i
    {
      UnspacedSnoc(s0, i);
      var c := str[i];
      if c != ' ' {
        str[counter] := c;
        assert str[..counter + 1] == str[..counter] + [c];
        counter := counter + 1;
      }
      i := i + 1;
    }
    CLengthAt(s0, i);
    str[counter] := '\0';
  }

  /* ---------------------------------------------------------------------------------
     Numbers in the text
     --------------------------------------------------------------------------------- */

  /** The value of a digit character in base 10 or 16 (either case for hex), if it is one. */
  function DigitValue(c: char, base: nat): (d: Option<nat>)
    ensures d.Some? ==> d.value < base
  {
    if '0' <= c <= '9' && (c as nat - '0' as nat) < base then Some(c as nat - '0' as nat)
    else if base == 16 && 'a' <= c <= 'f' then Some(c as nat - 'a' as nat + 10)
    else if base == 16 && 'A' <= c <= 'F' then Some(c as nat - 'A' as nat + 10)
    else None
  }

  /** The digit values of the longest prefix of `s` made of digits of `base`. */
  function LeadingDigits(s: string, base: nat): (ds: seq<nat>)
    ensures |ds| <= |s|
    ensures forall i :: 0 <= i < |ds| ==> ds[i] < base
  {
    if s == [] then []
    else match DigitValue(s[0], base)
      case None => []
      case Some(d) => [d] + LeadingDigits(s[1..], base)
  }

  /** The number a sequence of digits denotes, most significant first. */
  function ValueOf(ds: seq<nat>, base: nat): nat
  {
    if ds == [] then 0 else ValueOf(ds[..|ds| - 1], base) * base + ds[|ds| - 1]
  }

  /** atoi: an optional sign, then decimal digits up to the first non-digit (0 when there are none). */
  function Atoi(s: string): (r: int)
    ensures |s| > 0 && s[0] == '-' ==> r <= 0
    ensures !(|s| > 0 && s[0] == '-') ==> r >= 0
    ensures (s == [] || (DigitValue(s[0], 10).None? && s[0] != '-' && s[0] != '+')) ==> r == 0
  {
    if |s| > 0 && s[0] == '-' then -(ValueOf(LeadingDigits(s[1..], 10), 10) as int)
    else if |s| > 0 && s[0] == '+' then ValueOf(LeadingDigits(s[1..], 10), 10)
    else ValueOf(LeadingDigits(s, 10), 10)
  }

  /** get_immediate: "0x…" is hex, "-0x…" negated hex, anything else decimal (atoi). */
  function GetImmediate(s: string): (r: int)
    ensures |s| >= 2 && s[0] == '0' && s[1] == 'x' ==> r >= 0
    ensures |s| >= 3 && s[0] == '-' && s[1] == '0' && s[2] == 'x' ==> r <= 0
    ensures (s == [] || (DigitValue(s[0], 10).None? && s[0] != '-' && s[0] != '+')) ==> r == 0
  {
    if |s| >= 2 && s[0] == '0' && s[1] == 'x' then ValueOf(LeadingDigits(s[2..], 16), 16)
    else if |s| >= 3 && s[0] == '-' && s[1] == '0' && s[2] == 'x' then -(ValueOf(LeadingDigits(s[3..], 16), 16) as int)
    else Atoi(s)
  }

  /** The digit character for a digit value below 16 (lower-case for hex). */
  function DigitChar(d: nat): (c: char)
    requires d < 16
    ensures DigitValue(c, 16) == Some(d)
    ensures d < 10 ==> DigitValue(c, 10) == Some(d)
    ensures '0' <= c <= '9' || 'a' <= c <= 'f'
  {
    if d < 10 then ('0' as int + d) as char else ('a' as int + d - 10) as char
  }

  /** Every character of `s` is a digit of `base`. */
  predicate AllDigits(s: string, base: nat)
  {
    forall i :: 0 <= i < |s| ==> DigitValue(s[i], base).Some?
  }

  /** The shortest digit text of n in `base`, most significant digit first. */
  function Digits(n: nat, base: nat): (s: string)
    requires base == 10 || base == 16
    ensures |s| >= 1 && AllDigits(s, base)
    ensures forall i :: 0 <= i < |s| ==> '0' <= s[i] <= '9' || 'a' <= s[i] <= 'f'
  {
    if n < base then [DigitChar(n)] else Digits(n / base, base) + [DigitChar(n % base)]
  }

  /** The digit values of the shortest text of n, most significant first. */
  function DigitValues(n: nat, base: nat): (ds: seq<nat>)
    requires base == 10 || base == 16
  {
    if n < base then [n] else DigitValues(n / base, base) + [n % base]
  }

  /** Reading the digits of a text made only of digits continues into what follows it. */
  lemma {:induction false} LeadingDigitsAppend(s: string, tail: string, base: nat)
    requires AllDigits(s, base)
    ensures LeadingDigits(s + tail, base) == LeadingDigits(s, base) + LeadingDigits(tail, base)
  {
    if s == [] {
      assert s + tail == tail;
    } else {
      assert (s + tail)[0] == s[0];
      assert (s + tail)[1..] == s[1..] + tail;
      var d := DigitValue(s[0], base).value;
      LeadingDigitsAppend(s[1..], tail, base);
      calc {
        LeadingDigits(s + tail, base);
        [d] + LeadingDigits(s[1..] + tail, base);
        [d] + (LeadingDigits(s[1..], base) + LeadingDigits(tail, base));
        ([d] + LeadingDigits(s[1..], base)) + LeadingDigits(tail, base);
      }
    }
  }

  /** The digit text of n reads back as the digits of n. */
  lemma {:induction false} LeadingDigitsOfDigits(n: nat, base: nat)
    requires base == 10 || base == 16
    ensures LeadingDigits(Digits(n, base), base) == DigitValues(n, base)
    decreases n
  {
    if n < base {
      assert Digits(n, base)[1..] == [];
    } else {
      LeadingDigitsOfDigits(n / base, base);
      var c := DigitChar(n % base);
      assert DigitValue(c, base) == Some(n % base);
      assert [c][1..] == [];
      assert LeadingDigits([c], base) == [n % base];
      assert Digits(n, base) == Digits(n / base, base) + [c];
      LeadingDigitsAppend(Digits(n / base, base), [c], base);
    }
  }

  /** The digits of n denote n. */
  lemma {:induction false} ValueOfDigitValues(n: nat, base: nat)
    requires base == 10 || base == 16
    ensures ValueOf(DigitValues(n, base), base) == n
    decreases n
  {
    if n >= base {
      ValueOfDigitValues(n / base, base);
      var ds := DigitValues(n, base);
      assert ds[..|ds| - 1] == DigitValues(n / base, base);
    }
  }

  /** The digit text of n reads back as n. */
  lemma DigitsRoundTrip(n: nat, base: nat)
    requires base == 10 || base == 16
    ensures ValueOf(LeadingDigits(Digits(n, base), base), base) == n
  {
    LeadingDigitsOfDigits(n, base);
    ValueOfDigitValues(n, base);
  }

  /** Decimal text of an integer, with a leading '-' for negative ones. */
  function DecimalText(z: int): string
  {
    if z < 0 then "-" + Digits(-z, 10) else Digits(z, 10)
  }

  /** Hexadecimal text "0x…" of a natural number. */
  function HexText(n: nat): string
  {
    "0x" + Digits(n, 16)
  }

  /** get_immediate reads "0x…" text back as its value. */
  lemma HexRoundTrip(n: nat)
    ensures GetImmediate(HexText(n)) == n
  {
    var s := HexText(n);
    assert s[0] == '0' && s[1] == 'x';
    assert s[2..] == Digits(n, 16);
    DigitsRoundTrip(n, 16);
  }

  /** get_immediate reads "-0x…" text back as the negated value. */
  lemma NegatedHexRoundTrip(n: nat)
    ensures GetImmediate("-" + HexText(n)) == -(n as int)
  {
    var s := "-" + HexText(n);
    assert s[0] == '-' && s[1] == '0' && s[2] == 'x';
    assert s[3..] == Digits(n, 16);
    DigitsRoundTrip(n, 16);
  }

  /** get_immediate reads decimal text, with or without a minus sign, back as its value. */
  lemma DecimalRoundTrip(z: int)
    ensures GetImmediate(DecimalText(z)) == z
  {
    var s := DecimalText(z);
    if z < 0 {
      var d := Digits(-z, 10);
      assert s == "-" + d;
      assert s[0] == '-' && s[1..] == d;
      assert |s| >= 3 ==> s[2] == d[1];
      DigitsRoundTrip(-z, 10);
    } else {
      var d := Digits(z, 10);
      assert s == d;
      DigitsRoundTrip(z, 10);
    }
  }

  /* ---------------------------------------------------------------------------------
     Decoding
     --------------------------------------------------------------------------------- */

  /** `atoi(token + 1)`: the register number after the leading letter of a register token.
      None when the token is empty, where `token + 1` would lie past the string. */
  function RegisterNumber(token: string): Option<int>
  {
    if |token| >= 1 then Some(Atoi(token[1..])) else None
  }

  /** A decoded instruction: its mnemonic, register numbers and immediate, the latter already
      converted to the 32-bit `int` the C code holds it in. */
  datatype Instr =
    | RInstr(rOp: ROp, rd: int, rs1: int, rs2: int)
    | IInstr(iOp: IOp, rd: int, rs1: int, imm: bv32)
    | MemInstr(memOp: MemOp, reg1: int, offset: bv32, reg2: int)
    | UInstr(rd: int, imm: bv32)

  /** The mnemonic an instruction was written with. */
  function Name(i: Instr): string
  {
    match i
    case RInstr(op, _, _, _) => ROpName(op)
    case IInstr(op, _, _, _) => IOpName(op)
    case MemInstr(op, _, _, _) => MemOpName(op)
    case UInstr(_, _) => "lui"
  }

  predicate IsRegister(r: int)
  {
    0 <= r < 32
  }

  /** Every register the instruction indexes names one of the 32 registers
      (`sb` never uses its first register). */
  predicate RegistersInRange(i: Instr)
  {
    match i
    case RInstr(_, rd, rs1, rs2) => IsRegister(rd) && IsRegister(rs1) && IsRegister(rs2)
    case IInstr(_, rd, rs1, _) => IsRegister(rd) && IsRegister(rs1)
    case MemInstr(op, reg1, _, reg2) => (op == Sb || IsRegister(reg1)) && IsRegister(reg2)
    case UInstr(rd, _) => IsRegister(rd)
  }

  /** What `step` makes of a line: Skip for an unknown mnemonic, Malformed for operand text on
      which the C code would dereference NULL, read past a string or index outside `r`. */
  datatype Decoded = Skip | Malformed | Run(instr: Instr)

  /** R-type operands "rd,rs1,rs2" (spaces already removed). */
  function DecodeR(op: ROp, reduced: string): (d: Decoded)
    ensures d != Skip
    ensures d.Run? ==> d.instr.RInstr? && d.instr.rOp == op && RegistersInRange(d.instr)
  {
    var c1 := Strsep(reduced, ',');
    if c1.rest.None? then Malformed
    else
      var c2 := Strsep(c1.rest.value, ',');
      if c2.rest.None? then Malformed
      else
        var c3 := Strsep(c2.rest.value, ',');
        match (RegisterNumber(c1.token), RegisterNumber(c2.token), RegisterNumber(c3.token))
        case (Some(rd), Some(rs1), Some(rs2)) =>
          if IsRegister(rd) && IsRegister(rs1) && IsRegister(rs2) then Run(RInstr(op, rd, rs1, rs2))
          else Malformed
        case _ => Malformed
  }

  /** I-type operands "rd,rs1,imm". */
  function DecodeI(op: IOp, reduced: string): (d: Decoded)
    ensures d != Skip
    ensures d.Run? ==> d.instr.IInstr? && d.instr.iOp == op && RegistersInRange(d.instr)
  {
    var c1 := Strsep(reduced, ',');
    if c1.rest.None? then Malformed
    else
      var c2 := Strsep(c1.rest.value, ',');
      if c2.rest.None? then Malformed
      else
        match (RegisterNumber(c1.token), RegisterNumber(c2.token))
        case (Some(rd), Some(rs1)) =>
          if IsRegister(rd) && IsRegister(rs1) then Run(IInstr(op, rd, rs1, Word(GetImmediate(c2.rest.value))))
          else Malformed
        case _ => Malformed
  }

  /** Memory operands "reg1,offset(reg2)". */
  function DecodeMem(op: MemOp, reduced: string): (d: Decoded)
    ensures d != Skip
    ensures d.Run? ==> d.instr.MemInstr? && d.instr.memOp == op && RegistersInRange(d.instr)
  {
    var c1 := Strsep(reduced, ',');
    if c1.rest.None? then Malformed
    else
      var c2 := Strsep(c1.rest.value, '(');
      if c2.rest.None? then Malformed
      else
        var c3 := Strsep(c2.rest.value, ')');
        match (RegisterNumber(c1.token), RegisterNumber(c3.token))
        case (Some(reg1), Some(reg2)) =>
          if (op == Sb || IsRegister(reg1)) && IsRegister(reg2) then
            Run(MemInstr(op, reg1, Word(GetImmediate(c2.token)), reg2))
          else Malformed
        case _ => Malformed
  }

  /** `lui` operands "rd,imm". */
  function DecodeU(reduced: string): (d: Decoded)
    ensures d != Skip
    ensures d.Run? ==> d.instr.UInstr? && RegistersInRange(d.instr)
  {
    var c1 := Strsep(reduced, ',');
    if c1.rest.None? then Malformed
    else
      match RegisterNumber(c1.token)
      case Some(rd) => if IsRegister(rd) then Run(UInstr(rd, Word(GetImmediate(c1.rest.value)))) else Malformed
      case None => Malformed
  }

  /** The operand text after spaces are removed, decoded for a known format. */
  function DecodeOperands(t: OpType, op: string, reduced: string): (d: Decoded)
    requires t != Unknown && t == GetOpType(op)
    ensures d != Skip
    ensures d.Run? ==> RegistersInRange(d.instr)
    ensures d.Run? ==> (d.instr.RInstr? <==> t == RType) && (d.instr.IInstr? <==> t == IType) &&
                       (d.instr.MemInstr? <==> t == MemType) && (d.instr.UInstr? <==> t == UType)
    ensures d.Run? ==> Name(d.instr) == op
  {
    match t
    case RType => DecodeR(ROpOf(op), reduced)
    case IType => DecodeI(IOpOf(op), reduced)
    case MemType => DecodeMem(MemOpOf(op), reduced)
    case UType => DecodeU(reduced)
  }

  /** How `step` reads an instruction line: the mnemonic up to the first space, then the rest
      of the line with its spaces removed. */
  function Decode(instruction: string): (d: Decoded)
    ensures d == Skip <==> GetOpType(Strsep(instruction, ' ').token) == Unknown
    ensures d.Run? ==> RegistersInRange(d.instr)
    ensures d.Run? ==> Name(d.instr) == Strsep(instruction, ' ').token
  {
    var first := Strsep(instruction, ' ');
    var t := GetOpType(first.token);
    if t == Unknown then Skip
    else if first.rest.None? then Malformed
    else DecodeOperands(t, first.token, Unspaced(first.rest.value))
  }

  /** strsep splits at the first delimiter. */
  lemma {:induction false} StrsepAt(s: string, delim: char, i: nat)
    requires i < |s| && s[i] == delim && delim !in s[..i]
    ensures Strsep(s, delim) == Cut(s[..i], Some(s[i + 1..]))
  {
    if i > 0 {
      assert s[1..][..i - 1] == s[1..i];
      assert s[1..][i - 1] == delim;
      StrsepAt(s[1..], delim, i - 1);
      assert [s[0]] + s[1..i] == s[..i];
    }
  }

  /** strsep on a delimiter that follows a delimiter-free prefix returns that prefix. */
  lemma StrsepConcat(a: string, delim: char, b: string)
    requires delim !in a
    ensures Strsep(a + [delim] + b, delim) == Cut(a, Some(b))
  {
    var s := a + [delim] + b;
    assert s[..|a|] == a;
    assert s[|a| + 1..] == b;
    StrsepAt(s, delim, |a|);
  }

  /** atoi reads back the decimal digits of a natural number. */
  lemma AtoiDigits(n: nat)
    ensures Atoi(Digits(n, 10)) == n
  {
    DigitsRoundTrip(n, 10);
  }

  /** Register i written the way the instructions write it. */
  function RegisterText(r: nat): (s: string)
    ensures ' ' !in s && ',' !in s && '(' !in s && ')' !in s
  {
    "x" + Digits(r, 10)
  }

  /** Immediates written as unsigned hex. */
  function ImmediateText(w: bv32): (s: string)
    ensures ' ' !in s && ',' !in s && '(' !in s && ')' !in s
  {
    WordRange(w);
    HexText(w as int)
  }

  /** One line of assembly for an instruction, without spaces after the mnemonic. */
  function Format(i: Instr): string
    requires RegistersInRange(i) && (i.MemInstr? ==> IsRegister(i.reg1))
  {
    match i
    case RInstr(op, rd, rs1, rs2) =>
      ROpName(op) + " " + RegisterText(rd) + "," + RegisterText(rs1) + "," + RegisterText(rs2)
    case IInstr(op, rd, rs1, imm) =>
      IOpName(op) + " " + RegisterText(rd) + "," + RegisterText(rs1) + "," + ImmediateText(imm)
    case MemInstr(op, reg1, offset, reg2) =>
      MemOpName(op) + " " + RegisterText(reg1) + "," + ImmediateText(offset) + "(" + RegisterText(reg2) + ")"
    case UInstr(rd, imm) =>
      "lui " + RegisterText(rd) + "," + ImmediateText(imm)
  }

  /** The register number of a register token reads back. */
  lemma RegisterRoundTrip(r: nat)
    ensures RegisterNumber(RegisterText(r)) == Some(r as int)
  {
    assert RegisterText(r)[1..] == Digits(r, 10);
    AtoiDigits(r);
  }

  /** An immediate written as hex reads back as the same word. */
  lemma ImmediateRoundTrip(w: bv32)
    ensures Word(GetImmediate(ImmediateText(w))) == w
  {
    WordRange(w);
    HexRoundTrip(w as int);
    IntRoundTrip(w);
  }

  /** Spaces after the mnemonic do not change how a line decodes. */
  lemma SpacesIgnored(op: string, rest: string, rest': string)
    requires ' ' !in op && Unspaced(rest) == Unspaced(rest')
    ensures Decode(op + " " + rest) == Decode(op + " " + rest')
  {
    StrsepConcat(op, ' ', rest);
    StrsepConcat(op, ' ', rest');
  }

  /** A line made of a known mnemonic, one space and operand text decodes the operand text
      with its spaces removed. */
  lemma DecodeLine(op: string, rest: string)
    requires ' ' !in op && GetOpType(op) != Unknown
    ensures Decode(op + " " + rest) == DecodeOperands(GetOpType(op), op, Unspaced(rest))
  {
    StrsepConcat(op, ' ', rest);
  }

  /** The operands of an R-type instruction read back. */
  lemma DecodeOperandsR(op: ROp, rd: nat, rs1: nat, rs2: nat)
    requires IsRegister(rd) && IsRegister(rs1) && IsRegister(rs2)
    ensures DecodeR(op, RegisterText(rd) + "," + RegisterText(rs1) + "," + RegisterText(rs2))
            == Run(RInstr(op, rd, rs1, rs2))
  {
    var t1, t2, t3 := RegisterText(rd), RegisterText(rs1), RegisterText(rs2);
    assert t1 + "," + t2 + "," + t3 == t1 + [','] + (t2 + [','] + t3);
    StrsepConcat(t1, ',', t2 + [','] + t3);
    StrsepConcat(t2, ',', t3);
    RegisterRoundTrip(rd);
    RegisterRoundTrip(rs1);
    RegisterRoundTrip(rs2);
  }

  /** The operands of an I-type instruction read back. */
  lemma DecodeOperandsI(op: IOp, rd: nat, rs1: nat, imm: bv32)
    requires IsRegister(rd) && IsRegister(rs1)
    ensures DecodeI(op, RegisterText(rd) + "," + RegisterText(rs1) + "," + ImmediateText(imm))
            == Run(IInstr(op, rd, rs1, imm))
  {
    var t1, t2, t3 := RegisterText(rd), RegisterText(rs1), ImmediateText(imm);
    assert t1 + "," + t2 + "," + t3 == t1 + [','] + (t2 + [','] + t3);
    StrsepConcat(t1, ',', t2 + [','] + t3);
    StrsepConcat(t2, ',', t3);
    RegisterRoundTrip(rd);
    RegisterRoundTrip(rs1);
    ImmediateRoundTrip(imm);
  }

  /** The operands of a memory instruction read back. */
  lemma DecodeOperandsMem(op: MemOp, reg1: nat, offset: bv32, reg2: nat)
    requires IsRegister(reg1) && IsRegister(reg2)
    ensures DecodeMem(op, RegisterText(reg1) + "," + ImmediateText(offset) + "(" + RegisterText(reg2) + ")")
            == Run(MemInstr(op, reg1, offset, reg2))
  {
    var t1, t2, t3 := RegisterText(reg1), ImmediateText(offset), RegisterText(reg2);
    assert t1 + "," + t2 + "(" + t3 + ")" == t1 + [','] + (t2 + ['('] + (t3 + [')']));
    StrsepConcat(t1, ',', t2 + ['('] + (t3 + [')']));
    StrsepConcat(t2, '(', t3 + [')']);
    assert t3 + [')'] == t3 + [')'] + [];
    StrsepConcat(t3, ')', []);
    RegisterRoundTrip(reg1);
    RegisterRoundTrip(reg2);
    ImmediateRoundTrip(offset);
  }

  /** The operands of a `lui` instruction read back. */
  lemma DecodeOperandsU(rd: nat, imm: bv32)
    requires IsRegister(rd)
    ensures DecodeU(RegisterText(rd) + "," + ImmediateText(imm)) == Run(UInstr(rd, imm))
  {
    var t1, t2 := RegisterText(rd), ImmediateText(imm);
    assert t1 + "," + t2 == t1 + [','] + t2;
    StrsepConcat(t1, ',', t2);
    RegisterRoundTrip(rd);
    ImmediateRoundTrip(imm);
  }

  /** A line whose operand text has no spaces decodes that text as it stands. */
  lemma DecodeUnspacedLine(op: string, rest: string)
    requires ' ' !in op && ' ' !in rest && GetOpType(op) != Unknown
    ensures Decode(op + " " + rest) == DecodeOperands(GetOpType(op), op, rest)
  {
    DecodeLine(op, rest);
  }

  /** An R-type instruction's text decodes back to it. */
  lemma DecodeFormatR(op: ROp, rd: nat, rs1: nat, rs2: nat)
    requires IsRegister(rd) && IsRegister(rs1) && IsRegister(rs2)
    ensures Decode(Format(RInstr(op, rd, rs1, rs2))) == Run(RInstr(op, rd, rs1, rs2))
  {
    var rest := RegisterText(rd) + "," + RegisterText(rs1) + "," + RegisterText(rs2);
    assert Format(RInstr(op, rd, rs1, rs2)) == ROpName(op) + " " + rest;
    ROpNameListed(op);
    DecodeUnspacedLine(ROpName(op), rest);
    assert DecodeOperands(RType, ROpName(op), rest) == DecodeR(op, rest);
    DecodeOperandsR(op, rd, rs1, rs2);
  }

  /** An I-type instruction's text decodes back to it. */
  lemma DecodeFormatI(op: IOp, rd: nat, rs1: nat, imm: bv32)
    requires IsRegister(rd) && IsRegister(rs1)
    ensures Decode(Format(IInstr(op, rd, rs1, imm))) == Run(IInstr(op, rd, rs1, imm))
  {
    var rest := RegisterText(rd) + "," + RegisterText(rs1) + "," + ImmediateText(imm);
    assert Format(IInstr(op, rd, rs1, imm)) == IOpName(op) + " " + rest;
    IOpNameListed(op);
    DecodeUnspacedLine(IOpName(op), rest);
    assert DecodeOperands(IType, IOpName(op), rest) == DecodeI(op, rest);
    DecodeOperandsI(op, rd, rs1, imm);
  }

  /** A memory instruction's text decodes back to it. */
  lemma DecodeFormatMem(op: MemOp, reg1: nat, offset: bv32, reg2: nat)
    requires IsRegister(reg1) && IsRegister(reg2)
    ensures Decode(Format(MemInstr(op, reg1, offset, reg2))) == Run(MemInstr(op, reg1, offset, reg2))
  {
    var rest := RegisterText(reg1) + "," + ImmediateText(offset) + "(" + RegisterText(reg2) + ")";
    assert Format(MemInstr(op, reg1, offset, reg2)) == MemOpName(op) + " " + rest;
    MemOpNameListed(op);
    DecodeUnspacedLine(MemOpName(op), rest);
    assert DecodeOperands(MemType, MemOpName(op), rest) == DecodeMem(op, rest);
    DecodeOperandsMem(op, reg1, offset, reg2);
  }

  /** A `lui` instruction's text decodes back to it. */
  lemma DecodeFormatU(rd: nat, imm: bv32)
    requires IsRegister(rd)
    ensures Decode(Format(UInstr(rd, imm))) == Run(UInstr(rd, imm))
  {
    var rest := RegisterText(rd) + "," + ImmediateText(imm);
    assert Format(UInstr(rd, imm)) == "lui" + " " + rest;
    DecodeUnspacedLine("lui", rest);
    DecodeOperandsU(rd, imm);
  }

  /** Decoding the text of an instruction gives back the instruction. */
  lemma DecodeFormat(i: Instr)
    requires RegistersInRange(i) && (i.MemInstr? ==> IsRegister(i.reg1))
    ensures Decode(Format(i)) == Run(i)
  {
    match i
    case RInstr(op, rd, rs1, rs2) => DecodeFormatR(op, rd, rs1, rs2);
    case IInstr(op, rd, rs1, imm) => DecodeFormatI(op, rd, rs1, imm);
    case MemInstr(op, reg1, offset, reg2) => DecodeFormatMem(op, reg1, offset, reg2);
    case UInstr(rd, imm) => DecodeFormatU(rd, imm);
  }

  /** A mnemonic outside the four tables is skipped. */
  lemma DecodeUnknownExample()
    ensures Decode("mul x1, x2, x3") == Skip
  {
    StrsepAt("mul x1, x2, x3", ' ', 3);
    assert "mul x1, x2, x3"[..3] == "mul";
    assert "mul" !in ROps;
    assert "mul" !in IOps;
    assert "mul" !in MemOps;
    assert "mul" !in UOps;
    assert GetOpType("mul") == Unknown;
  }

  /* ---------------------------------------------------------------------------------
     Semantics
     --------------------------------------------------------------------------------- */

  /** Every stored memory value is a byte. */
  predicate ByteValued(mem: map<int, int>)
  {
    forall k :: k in mem ==> 0 <= mem[k] < 256
  }

  /** The register file and the memory: `registers->r` and the `memory` table's mapping. */
  datatype Cpu = Cpu(r: seq<bv32>, mem: map<int, int>)

  predicate ValidCpu(c: Cpu)
  {
    |c.r| == 32 && ByteValued(c.mem)
  }

  /** The address of a memory instruction: base register plus offset, wrapping around. */
  function EffectiveAddress(base: bv32, offset: bv32): bv32
  {
    base + offset
  }

  /** The memory key of an address: the C `int` the address word stands for. */
  function Key(address: bv32): int
  {
    Signed(address)
  }

  /** `ht_get(memory, address)` as a word (0 for a byte never stored). */
  function LoadByte(mem: map<int, int>, address: bv32): bv32
    requires ByteValued(mem)
  {
    Lookup(mem, Key(address)) as bv32
  }

  /** Memory holds bytes, so a loaded byte is below 256. */
  lemma LoadByteBound(mem: map<int, int>, address: bv32)
    requires ByteValued(mem)
    ensures LoadByte(mem, address) < 256
  {
  }

  /** `lw`: four bytes, least significant at the lowest address. */
  function LoadWord(mem: map<int, int>, address: bv32): bv32
    requires ByteValued(mem)
  {
    LoadByte(mem, address) + (LoadByte(mem, address + 1) << 8) +
    (LoadByte(mem, address + 2) << 16) + (LoadByte(mem, address + 3) << 24)
  }

  /** The byte of `w` that starts at bit `shift`, as the value `ht_add` stores. */
  function ByteOf(w: bv32, shift: bv32): (b: int)
    requires shift < 32
    ensures 0 <= b < 256
  {
    ((w >> shift) & 0xff) as int
  }

  /** `ht_add(memory, address, b)` for a byte b. */
  function StoreByte(mem: map<int, int>, address: bv32, b: int): (mem': map<int, int>)
    requires ByteValued(mem) && 0 <= b < 256
    ensures ByteValued(mem')
  {
    mem[Key(address) := b]
  }

  /** `sw`: the four bytes of `w` at address .. address + 3, least significant first. */
  function StoreWord(mem: map<int, int>, address: bv32, w: bv32): (mem': map<int, int>)
    requires ByteValued(mem)
    ensures ByteValued(mem')
  {
    var m1 := StoreByte(mem, address, ByteOf(w, 0));
    var m2 := StoreByte(m1, address + 1, ByteOf(w, 8));
    var m3 := StoreByte(m2, address + 2, ByteOf(w, 16));
    StoreByte(m3, address + 3, ByteOf(w, 24))
  }

  /** The value an R-type instruction computes from its two source registers. */
  function RResult(op: ROp, a: bv32, b: bv32): bv32
  {
    match op
    case Add => a + b
    case Sub => a - b
    case And => a & b
    case Or => a | b
    case Xor => a ^ b
    case Nor => !(a | b)
    case Slt => if Signed(a) < Signed(b) then 1 else 0
    case Sll => a << (b & 0x1f)
    case Sra => ArithmeticShiftRight(a, b & 0x1f)
  }

  /** The value an I-type instruction computes from its source register and the immediate word. */
  function IResult(op: IOp, a: bv32, imm: bv32): bv32
  {
    match op
    case Addi => a + imm
    case Andi => a & imm
    case Ori => a | imm
    case Xori => a ^ imm
    case Slti => if Signed(a) < Signed(imm) then 1 else 0
  }

  /** The effect of one instruction before x0 is cleared. */
  function Apply(i: Instr, c: Cpu): (c': Cpu)
    requires ValidCpu(c) && RegistersInRange(i)
    ensures ValidCpu(c')
  {
    match i
    case RInstr(op, rd, rs1, rs2) => c.(r := c.r[rd := RResult(op, c.r[rs1], c.r[rs2])])
    case IInstr(op, rd, rs1, imm) => c.(r := c.r[rd := IResult(op, c.r[rs1], imm)])
    case MemInstr(op, reg1, offset, reg2) =>
      var address := EffectiveAddress(c.r[reg2], offset);
      (match op
       case Lw => c.(r := c.r[reg1 := LoadWord(c.mem, address)])
       case Lb => c.(r := c.r[reg1 := SignExtendByte(LoadByte(c.mem, address))])
       case Sw => c.(mem := StoreWord(c.mem, address, c.r[reg1]))
       case Sb => c.(mem := StoreByte(c.mem, address, ByteOf(c.r[reg2], 0))))
    case UInstr(rd, imm) => c.(r := c.r[rd := imm << 12])
  }

  /** One instruction, after which x0 reads 0 again. */
  function Execute(i: Instr, c: Cpu): (c': Cpu)
    requires ValidCpu(c) && RegistersInRange(i)
    ensures ValidCpu(c') && c'.r[0] == 0
  {
    var c1 := Apply(i, c);
    c1.(r := c1.r[0 := 0])
  }

  /** `step` on a decoded line: an unknown mnemonic changes nothing. */
  function StepSpec(d: Decoded, c: Cpu): (c': Cpu)
    requires ValidCpu(c) && d != Malformed && (d.Run? ==> RegistersInRange(d.instr))
    ensures ValidCpu(c')
    ensures d == Skip ==> c' == c
    ensures d.Run? ==> c'.r[0] == 0
  {
    match d
    case Skip => c
    case Run(i) => Execute(i, c)
  }

  /** The register an R, I or U instruction writes. */
  function Destination(i: Instr): int
    requires !i.MemInstr?
  {
    match i
    case RInstr(_, rd, _, _) => rd
    case IInstr(_, rd, _, _) => rd
    case UInstr(rd, _) => rd
  }

  /** R, I and U instructions write only their destination register (and x0) and leave memory alone. */
  lemma RegisterOnly(i: Instr, c: Cpu)
    requires ValidCpu(c) && RegistersInRange(i) && !i.MemInstr?
    ensures Execute(i, c).mem == c.mem
    ensures forall k :: 0 < k < 32 && k != Destination(i) ==> Execute(i, c).r[k] == c.r[k]
  {
  }

  /** `slt` and `slti` write 0 or 1. */
  lemma SetLessThanIsBoolean(a: bv32, b: bv32)
    ensures RResult(Slt, a, b) == 0 || RResult(Slt, a, b) == 1
    ensures IResult(Slti, a, b) == 0 || IResult(Slti, a, b) == 1
  {
  }

  /** The R-type operation an I-type operation shares its branch body with. */
  function RegisterCounterpart(op: IOp): ROp
  {
    match op
    case Addi => Add
    case Andi => And
    case Ori => Or
    case Xori => Xor
    case Slti => Slt
  }

  /** Each I-type operation computes what its R-type counterpart computes with the immediate
      word as the second operand. */
  lemma ImmediateLikeRegister(op: IOp, a: bv32, imm: bv32)
    ensures IResult(op, a, imm) == RResult(RegisterCounterpart(op), a, imm)
  {
  }

  /** `sll` and `sra` use only the low five bits of the shift amount. */
  lemma ShiftAmountLowBits(a: bv32, b: bv32)
    ensures RResult(Sll, a, b) == RResult(Sll, a, b % 32)
    ensures RResult(Sra, a, b) == RResult(Sra, a, b % 32)
  {
  }

  /** `lui rd, imm` writes the immediate shifted up by 12 into rd. */
  lemma LoadUpperImmediate(c: Cpu, rd: int, imm: bv32)
    requires ValidCpu(c) && 0 < rd < 32
    ensures Execute(UInstr(rd, imm), c).r[rd] == imm << 12
  {
  }

  /** A word is the sum of its four bytes shifted into place. */
  lemma WordFromBytes(w: bv32)
    ensures ((w >> 0) & 0xff) + (((w >> 8) & 0xff) << 8) + (((w >> 16) & 0xff) << 16) + (((w >> 24) & 0xff) << 24) == w
  {
  }

  /** The four addresses a word occupies have four distinct keys. */
  lemma WordKeysDistinct(address: bv32)
    ensures Key(address) != Key(address + 1) && Key(address) != Key(address + 2) && Key(address) != Key(address + 3)
    ensures Key(address + 1) != Key(address + 2) && Key(address + 1) != Key(address + 3)
    ensures Key(address + 2) != Key(address + 3)
  {
    SignedInjective(address, address + 1);
    SignedInjective(address, address + 2);
    SignedInjective(address, address + 3);
    SignedInjective(address + 1, address + 2);
    SignedInjective(address + 1, address + 3);
    SignedInjective(address + 2, address + 3);
  }

  /** A stored byte reads back as the same bits. */
  lemma StoredByteLoads(mem: map<int, int>, address: bv32, x: bv32)
    requires ByteValued(mem) && Lookup(mem, Key(address)) == x as int
    ensures LoadByte(mem, address) == x
  {
    IntRoundTrip(x);
  }

  /** After `sw` the four keys hold the four bytes of the word, least significant first. */
  lemma StoreWordLookups(mem: map<int, int>, address: bv32, w: bv32)
    requires ByteValued(mem)
    ensures Lookup(StoreWord(mem, address, w), Key(address)) == ((w >> 0) & 0xff) as int
    ensures Lookup(StoreWord(mem, address, w), Key(address + 1)) == ((w >> 8) & 0xff) as int
    ensures Lookup(StoreWord(mem, address, w), Key(address + 2)) == ((w >> 16) & 0xff) as int
    ensures Lookup(StoreWord(mem, address, w), Key(address + 3)) == ((w >> 24) & 0xff) as int
  {
    WordKeysDistinct(address);
  }

  /** After `sw` the four addresses load as the four bytes of the word. */
  lemma StoreWordLoads(mem: map<int, int>, address: bv32, w: bv32)
    requires ByteValued(mem)
    ensures LoadByte(StoreWord(mem, address, w), address) == (w >> 0) & 0xff
    ensures LoadByte(StoreWord(mem, address, w), address + 1) == (w >> 8) & 0xff
    ensures LoadByte(StoreWord(mem, address, w), address + 2) == (w >> 16) & 0xff
    ensures LoadByte(StoreWord(mem, address, w), address + 3) == (w >> 24) & 0xff
  {
    var mem' := StoreWord(mem, address, w);
    StoreWordLookups(mem, address, w);
    StoredByteLoads(mem', address, (w >> 0) & 0xff);
    StoredByteLoads(mem', address + 1, (w >> 8) & 0xff);
    StoredByteLoads(mem', address + 2, (w >> 16) & 0xff);
    StoredByteLoads(mem', address + 3, (w >> 24) & 0xff);
  }

  /** Reading back the four bytes `sw` wrote gives the stored word. */
  lemma LoadStoredWord(mem: map<int, int>, address: bv32, w: bv32)
    requires ByteValued(mem)
    ensures LoadWord(StoreWord(mem, address, w), address) == w
  {
    StoreWordLoads(mem, address, w);
    WordFromBytes(w);
  }

  /** `sw rs, off(base)` then `lw rd, off(base)` loads the stored word, provided the base
      register reads the same both times (it does unless it is x0 holding a nonzero value). */
  lemma StoreThenLoad(c: Cpu, rs: int, rd: int, base: int, offset: bv32)
    requires ValidCpu(c) && IsRegister(rs) && IsRegister(base) && 0 < rd < 32
    requires base != 0 || c.r[0] == 0
    ensures Execute(MemInstr(Lw, rd, offset, base), Execute(MemInstr(Sw, rs, offset, base), c)).r[rd] == c.r[rs]
  {
    var c1 := Execute(MemInstr(Sw, rs, offset, base), c);
    assert c1.r[base] == c.r[base];
    LoadStoredWord(c.mem, EffectiveAddress(c.r[base], offset), c.r[rs]);
  }

  /** `sw` writes exactly the four keys of address .. address + 3. */
  lemma StoreWordFootprint(mem: map<int, int>, address: bv32, w: bv32, k: int)
    requires ByteValued(mem)
    requires k != Key(address) && k != Key(address + 1) && k != Key(address + 2) && k != Key(address + 3)
    ensures Lookup(StoreWord(mem, address, w), k) == Lookup(mem, k)
    ensures Key(address + 3) in StoreWord(mem, address, w)
  {
  }

  /** `sb rs, off(base)` changes memory only at the address, storing the low byte of the base
      register (the register the C code reads), and changes no register but x0. */
  lemma StoreByteFootprint(c: Cpu, reg1: int, offset: bv32, base: int)
    requires ValidCpu(c) && IsRegister(base)
    ensures var address := EffectiveAddress(c.r[base], offset);
      var c' := Execute(MemInstr(Sb, reg1, offset, base), c);
      Lookup(c'.mem, Key(address)) == (c.r[base] & 0xff) as int &&
      (forall k :: k != Key(address) ==> Lookup(c'.mem, k) == Lookup(c.mem, k)) &&
      c'.r[1..] == c.r[1..]
  {
  }

  /** `lb` loads the byte at the address sign-extended. */
  lemma LoadByteSignExtends(c: Cpu, rd: int, offset: bv32, base: int)
    requires ValidCpu(c) && IsRegister(base) && 0 < rd < 32
    ensures var b := LoadByte(c.mem, EffectiveAddress(c.r[base], offset));
      var v := Execute(MemInstr(Lb, rd, offset, base), c).r[rd];
      b < 256 && v & 0xff == b && (b < 0x80 ==> v == b) && (b >= 0x80 ==> v == b | 0xffff_ff00)
  {
    var b := LoadByte(c.mem, EffectiveAddress(c.r[base], offset));
    LoadByteBound(c.mem, EffectiveAddress(c.r[base], offset));
    assert Apply(MemInstr(Lb, rd, offset, base), c).r[rd] == SignExtendByte(b);
    SignExtendByteValue(b);
  }

  /* ---------------------------------------------------------------------------------
     The machine
     --------------------------------------------------------------------------------- */

  /** The parsing half of `step`: split off the mnemonic, skip an unknown one, copy the rest
      of the line into a NUL-terminated buffer, remove its spaces in place and split the operands. */
  method Parse(instruction: string) returns (d: Decoded)
    requires '\0' !in instruction
    ensures d == Decode(instruction)
  {
    var first := Strsep(instruction, ' ');
    var opType := GetOpType(first.token);
    if opType == Unknown {
      return Skip;
    }
    if first.rest.None? {
      return Malformed;
    }
    var text := first.rest.value;
    var buffer := new char[|text| + 1](i requires 0 <= i <= |text| => if i < |text| then text[i] else '\0');
    assert buffer[..] == text + ['\0'];
    var n := CLength(buffer[..]);
    assert n == |text|;
    assert buffer[..n] == text;
    var length := RemoveSpaces(buffer);
    var reduced := buffer[..length];
    d := DecodeOperands(opType, first.token, reduced);
  }

  /** The interpreter's global state: the register file it was given and the memory table. */
  class Machine {
    var registers: array<bv32>
    var memory: HashTable

    ghost predicate Valid()
      reads this, registers, memory, memory.Repr
    {
      registers.Length == 32 && memory.Valid() && registers !in memory.Repr && this !in memory.Repr &&
      ByteValued(memory.contents)
    }

    /** The register file and memory as a value. */
    ghost function State(): Cpu
      reads this, registers, memory
    {
      Cpu(registers[..], memory.contents)
    }

    /** init: adopt the caller's register file and start with an empty 256-bucket memory. */
    constructor Init(startingRegisters: array<bv32>)
      requires startingRegisters.Length == 32
      ensures Valid() && registers == startingRegisters && fresh(memory.Repr)
      ensures memory.contents == map[] && memory.numBuckets == 256
    {
      registers := startingRegisters;
      memory := new HashTable(256);
    }

    /** `ht_get(memory, address)` as a word. */
    method LoadByteAt(address: bv32) returns (b: bv32)
      requires Valid()
      ensures b == LoadByte(memory.contents, address) && b < 256
    {
      var v := memory.Get(Key(address));
      b := v as bv32;
      LoadByteBound(memory.contents, address);
    }

    /** The four bytes at address .. address + 3 read back as one word, least significant first. */
    method LoadWordAt(address: bv32) returns (w: bv32)
      requires Valid()
      ensures w == LoadWord(memory.contents, address)
    {
      var b0 := LoadByteAt(address);
      var b1 := LoadByteAt(address + 1);
      var b2 := LoadByteAt(address + 2);
      var b3 := LoadByteAt(address + 3);
      w := b0 + (b1 << 8) + (b2 << 16) + (b3 << 24);
    }

    /** `ht_add(memory, address, b)`: one byte stored at one address. */
    method StoreByteAt(address: bv32, b: int)
      requires Valid() && 0 <= b < 256
      modifies memory.Repr
      ensures Valid() && memory.Repr == old(memory.Repr)
      ensures memory.contents == old(memory.contents)[Key(address) := b]
    {
      memory.Add(Key(address), b);
    }

    /** The four bytes of `w` stored at address .. address + 3, least significant first. */
    method StoreWordAt(address: bv32, w: bv32)
      requires Valid()
      modifies memory.Repr
      ensures Valid() && memory.Repr == old(memory.Repr)
      ensures memory.contents == StoreWord(old(memory.contents), address, w)
    {
      StoreByteAt(address, ByteOf(w, 0));
      StoreByteAt(address + 1, ByteOf(w, 8));
      StoreByteAt(address + 2, ByteOf(w, 16));
      StoreByteAt(address + 3, ByteOf(w, 24));
    }

    /** The memory branch of `step`: the address is the base register plus the offset. */
    method ExecuteMem(op: MemOp, reg1: int, offset: bv32, reg2: int)
      requires Valid() && RegistersInRange(MemInstr(op, reg1, offset, reg2))
      modifies registers, memory.Repr
      ensures Valid() && memory.Repr == old(memory.Repr)
      ensures State() == Apply(MemInstr(op, reg1, offset, reg2), old(State()))
    {
      var address := EffectiveAddress(registers[reg2], offset);
      match op {
        case Lw =>
          var w := LoadWordAt(address);
          registers[reg1] := w;
        case Lb =>
          var b := LoadByteAt(address);
          registers[reg1] := SignExtendByte(b);
        case Sw =>
          StoreWordAt(address, registers[reg1]);
        case Sb =>
          StoreByteAt(address, ByteOf(registers[reg2], 0));
      }
    }

    /** The branch of `step` for the instruction's format, before x0 is cleared. */
    method ApplyInstr(instr: Instr)
      requires Valid() && RegistersInRange(instr)
      modifies registers, memory.Repr
      ensures Valid() && memory.Repr == old(memory.Repr)
      ensures State() == Apply(instr, old(State()))
    {
      ghost var c := State();
      match instr {
        case RInstr(op, rd, rs1, rs2) =>
          registers[rd] := RResult(op, registers[rs1], registers[rs2]);
          assert registers[..] == c.r[rd := RResult(op, c.r[rs1], c.r[rs2])];
        case IInstr(op, rd, rs1, imm) =>
          registers[rd] := IResult(op, registers[rs1], imm);
          assert registers[..] == c.r[rd := IResult(op, c.r[rs1], imm)];
        case MemInstr(op, reg1, offset, reg2) =>
          ExecuteMem(op, reg1, offset, reg2);
        case UInstr(rd, imm) =>
          registers[rd] := imm << 12;
          assert registers[..] == c.r[rd := imm << 12];
      }
    }

    /** One decoded instruction, then x0 is cleared. */
    method Run(instr: Instr)
      requires Valid() && RegistersInRange(instr)
      modifies registers, memory.Repr
      ensures Valid() && memory.Repr == old(memory.Repr)
      ensures State() == Execute(instr, old(State()))
    {
      ApplyInstr(instr);
      registers[0] := 0;
    }

    /** step: execute one instruction line on the registers and the memory. */
    method Step(instruction: string)
      requires Valid() && '\0' !in instruction && Decode(instruction) != Malformed
      modifies registers, memory.Repr
      ensures Valid() && memory.Repr == old(memory.Repr)
      ensures State() == StepSpec(Decode(instruction), old(State()))
    {
      var d := Parse(instruction);
      if d.Run? {
        Run(d.instr);
      }
    }
  }
}
