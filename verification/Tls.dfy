/** Laying out a thread's local storage (threads.c): the block's size, the base
    address, and the bytes written, for both layouts of "ELF Handling For
    Thread-Local Storage", section 3, in 64-bit arithmetic. */
module Tls {

  import opened Bytes
  import opened Numbers

  const WORD: nat := 0x1_0000_0000_0000_0000
  const TCB_BYTES: nat := 64

  // ---- Bitwise arithmetic ----

  function Wrap(n: int): (w: nat)
    ensures w < WORD
  {
    n % WORD
  }

  function Not(a: nat): nat
    requires a < WORD
  {
    WORD - 1 - a
  }

  /** Rounding up by masking, as the program does it. */
  function AlignUp(value: nat, align: nat): nat
    requires value < WORD && 0 < align < WORD
  {
    And(Wrap(value + align - 1), Not(align - 1))
  }

  /** Masking with all bits from `k` up clears the bits below. */
  lemma {:induction false} AndMask(v: nat, w: nat, k: nat)
    requires v < Pow2(w) && k <= w && Pow2(k) <= Pow2(w)
    ensures And(v, Pow2(w) - Pow2(k)) == v - v % Pow2(k)
    decreases k
  {
    if k == 0 {
      AndAll(v, w);
    } else {
      var mask := Pow2(w) - Pow2(k);
      AndMask(v / 2, w - 1, k - 1);
      assert mask == 2 * (Pow2(w - 1) - Pow2(k - 1));
      LowBits(v, k - 1);
    }
  }

  lemma WordIsPow2()
    ensures WORD == Pow2(64)
  {
    assert Pow2(8) == 0x100;
    assert Pow2(16) == 0x1_0000;
    assert Pow2(24) == 0x100_0000;
    assert Pow2(32) == 0x1_0000_0000;
    assert Pow2(40) == 0x100_0000_0000;
    assert Pow2(48) == 0x1_0000_0000_0000;
    assert Pow2(56) == 0x100_0000_0000_0000;
  }

  /** `r` is the least multiple of `align` from `value` on. */
  ghost predicate IsRoundUp(r: nat, value: nat, align: nat)
    requires align > 0
  {
    r % align == 0 && value <= r < value + align
  }

  function RoundUp(value: nat, align: nat): (r: nat)
    requires align > 0
    ensures IsRoundUp(r, value, align)
  {
    var q := (value + align - 1) / align;
    ModIs(q * align, align, q, 0);
    q * align
  }

  /** There is only one least multiple. */
  lemma RoundUpIs(r: nat, value: nat, align: nat)
    requires align > 0 && IsRoundUp(r, value, align)
    ensures r == RoundUp(value, align)
  {
    var up := RoundUp(value, align);
    Multiple(r, align);
    Multiple(up, align);
    if r / align < up / align {
      Spaced(r / align, up / align, align);
    } else if up / align < r / align {
      Spaced(up / align, r / align, align);
    }
  }

  lemma Pow2Fits(k: nat)
    requires k < 64
    ensures 0 < Pow2(k) < WORD
  {
    WordIsPow2();
    Pow2Monotone(k, 63);
  }

  /** What the mask does, for any value and any power of two. */
  lemma AlignUpMasks(value: nat, k: nat, align: nat)
    requires value < WORD && k < 64 && align == Pow2(k) < WORD
    ensures var n := Wrap(value + align - 1); AlignUp(value, align) == n - n % align
  {
    WordIsPow2();
    var n := Wrap(value + align - 1);
    AndMask(n, 64, k);
    assert Not(align - 1) == Pow2(64) - align;
  }

  lemma RoundDown(value: nat, align: nat)
    requires align > 0
    ensures var n := value + align - 1; RoundUp(value, align) == n - n % align
  {
    var n := value + align - 1;
    assert n == n / align * align + n % align;
    ModIs(n / align * align, align, n / align, 0);
    RoundUpIs(n - n % align, value, align);
  }

  lemma WrapOnce(n: nat)
    ensures n < WORD ==> Wrap(n) == n
    ensures WORD <= n < 2 * WORD ==> Wrap(n) == n - WORD
  {
  }

  lemma AlignUpFits(value: nat, k: nat, align: nat)
    requires k < 64 && align == Pow2(k) < WORD && value + align - 1 < WORD
    ensures AlignUp(value, align) == RoundUp(value, align)
  {
    WrapOnce(value + align - 1);
    AlignUpMasks(value, k, align);
    RoundDown(value, align);
  }

  lemma AlignUpWraps(value: nat, k: nat, align: nat)
    requires value < WORD && k < 64 && align == Pow2(k) < WORD && value + align - 1 >= WORD
    ensures AlignUp(value, align) == 0
  {
    var n := value + align - 1;
    WrapOnce(n);
    AlignUpMasks(value, k, align);
    ModIs(n - WORD, align, 0, n - WORD);
  }

  /** Main result: masking rounds up to the least multiple exactly when the sum
      does not wrap; when it wraps the answer is 0. */
  lemma AlignUpRounds(value: nat, k: nat, align: nat)
    requires value < WORD && k < 64 && align == Pow2(k) < WORD
    ensures AlignUp(value, align) == if value + align - 1 < WORD then RoundUp(value, align) else 0
    ensures IsRoundUp(AlignUp(value, align), value, align) <==> value + align - 1 < WORD
  {
    if value + align - 1 < WORD {
      AlignUpFits(value, k, align);
    } else {
      AlignUpWraps(value, k, align);
    }
  }

  // ---- The block ----

  /** The program's PT_TLS template: `image` is its file part. */
  datatype Template = Template(image: seq<Byte>, memsz: nat, align: nat)

  /** The exponent of a power of two. */
  ghost predicate IsPow2(n: nat) {
    exists k: nat :: k < 64 && n == Pow2(k)
  }

  /** What the ELF format and the kernel promise of a template. */
  ghost predicate ValidTemplate(t: Template) {
    |t.image| <= t.memsz < WORD && t.align < WORD && (t.align == 0 || IsPow2(t.align))
  }

  function BlockAlign(t: Template): (a: nat)
    ensures a >= 16 && a >= t.align
  {
    if t.align < 16 then 16 else t.align
  }

  function TemplateAlign(t: Template): (a: nat)
    ensures a > 0
  {
    if t.align == 0 then 1 else t.align
  }

  /** The least multiple of the alignment from the value on; 0 asks for no alignment. */
  ghost predicate LeastMultiple(r: nat, value: nat, align: nat) {
    if align == 0 then r == value else r % align == 0 && value <= r < value + align
  }

  /** Sixteen, or the template's alignment if that is more. */
  function AtLeast16(align: nat): nat {
    if align > 16 then align else 16
  }

  datatype Variant = X86 | Arm

  /** The bytes asked of `malloc` for a block. */
  function BlockBytes(t: Template, v: Variant): nat
    requires t.memsz < WORD && t.align < WORD
  {
    match v
    case X86 => Wrap(Wrap(AlignUp(t.memsz, TemplateAlign(t)) + BlockAlign(t)) + TCB_BYTES)
    case Arm => Wrap(Wrap(BlockAlign(t) + AlignUp(16, TemplateAlign(t))) + t.memsz)
  }

  /** The bytes a block needs, as numbers that do not wrap. */
  function RoomNeeded(t: Template, v: Variant): nat {
    match v
    case X86 => RoundUp(t.memsz, TemplateAlign(t)) + BlockAlign(t) + TCB_BYTES
    case Arm => BlockAlign(t) + RoundUp(16, TemplateAlign(t)) + t.memsz
  }

  lemma AlignsArePowers(t: Template)
    requires ValidTemplate(t)
    ensures IsPow2(TemplateAlign(t)) && IsPow2(BlockAlign(t)) && BlockAlign(t) < WORD
    ensures BlockAlign(t) % TemplateAlign(t) == 0
  {
    assert Pow2(0) == 1 && Pow2(1) == 2 && Pow2(2) == 4 && Pow2(3) == 8 && Pow2(4) == 16;
    if t.align >= 16 {
      ModIs(t.align, t.align, 1, 0);
    } else if t.align > 0 {
      var k: nat :| k < 64 && t.align == Pow2(k);
      if k > 4 {
        Pow2Monotone(5, k);
      }
      Pow2Divides(k, 4, 16);
    }
  }

  lemma MultiplesApart(r: nat, w: nat, m: nat)
    requires m > 0 && r % m == 0 && w % m == 0 && r < w
    ensures r + m <= w
  {
    Multiple(r, m);
    Multiple(w, m);
    if r / m >= w / m {
      if w / m < r / m {
        Spaced(w / m, r / m, m);
      }
    } else {
      Spaced(r / m, w / m, m);
    }
  }

  lemma WordIsMultiple(k: nat)
    requires k < 64
    ensures WORD % Pow2(k) == 0
  {
    WordIsPow2();
    ModIs(WORD, WORD, 1, 0);
    Pow2Divides(k, 64, WORD);
  }

  /** Rounding a word up stays a word unless the mask's sum wraps. */
  lemma RoundUpStaysWord(value: nat, k: nat, align: nat)
    requires value < WORD && k < 64 && align == Pow2(k) < WORD
    ensures RoundUp(value, align) < WORD <==> value + align - 1 < WORD
  {
    WordIsMultiple(k);
    if RoundUp(value, align) < WORD {
      MultiplesApart(RoundUp(value, align), WORD, align);
    }
  }

  lemma SumWraps(a: nat, b: nat, c: nat)
    ensures Wrap(Wrap(a + b) + c) == a + b + c <==> a + b + c < WORD
    ensures Wrap(Wrap(a + b) + c) <= a + b + c
  {
    if a + b + c < WORD {
      WrapOnce(a + b);
      WrapOnce(a + b + c);
    }
  }

  /** The variables' bytes on x86-64, rounded up to their alignment. */
  function Span(t: Template): (n: nat)
    ensures n >= t.memsz
  {
    RoundUp(t.memsz, TemplateAlign(t))
  }

  /** The bytes from the base to the variables on AArch64. */
  function Gap(t: Template): (n: nat)
    ensures n >= 16
  {
    RoundUp(16, TemplateAlign(t))
  }

  /** The spans and the block's alignment, in terms of the template's alignment. */
  lemma AlignmentsAre(t: Template)
    ensures LeastMultiple(Span(t), t.memsz, t.align) && LeastMultiple(Gap(t), 16, t.align)
    ensures BlockAlign(t) == AtLeast16(t.align)
  {
    hide IsRoundUp;
    RoundUpMeans(t.memsz, TemplateAlign(t));
    RoundUpMeans(16, TemplateAlign(t));
  }

  lemma RoundUpMeans(value: nat, align: nat)
    requires align > 0
    ensures LeastMultiple(RoundUp(value, align), value, align)
    ensures align == 1 ==> RoundUp(value, align) == value
  {
  }

  /** The room a layout takes: on x86-64 the rounded variables and the control block,
      on AArch64 sixteen rounded bytes and the variables, and slack to align the base. */
  ghost predicate RoomIs(t: Template, v: Variant, room: nat) {
    match v
    case X86 => exists span: nat :: LeastMultiple(span, t.memsz, t.align) && room == span + AtLeast16(t.align) + 64
    case Arm => exists gap: nat :: LeastMultiple(gap, 16, t.align) && room == AtLeast16(t.align) + gap + t.memsz
  }

  lemma RoomMeans(t: Template, v: Variant)
    ensures RoomIs(t, v, RoomNeeded(t, v))
  {
    hide LeastMultiple, RoundUp;
    AlignmentsAre(t);
  }

  /** Main result: the size asked for is the room needed exactly when that room is a
      64-bit number; otherwise it comes out too small. */
  lemma SizeIsRight(t: Template, v: Variant)
    requires ValidTemplate(t)
    ensures BlockBytes(t, v) == RoomNeeded(t, v) <==> RoomNeeded(t, v) < WORD
    ensures BlockBytes(t, v) <= RoomNeeded(t, v)
    ensures RoomIs(t, v, RoomNeeded(t, v))
  {
    hide RoomIs, AlignUp, RoundUp, Wrap, LeastMultiple;
    RoomMeans(t, v);
    AlignsArePowers(t);
    var align := TemplateAlign(t);
    var k: nat :| k < 64 && align == Pow2(k);
    Pow2Fits(k);
    if v == X86 {
      AlignUpRounds(t.memsz, k, align);
      RoundUpStaysWord(t.memsz, k, align);
      SumWraps(AlignUp(t.memsz, align), BlockAlign(t), TCB_BYTES);
    } else {
      SmallRounds(k);
      AlignUpRounds(16, k, align);
      SumWraps(BlockAlign(t), AlignUp(16, align), t.memsz);
    }
  }

  lemma SmallRounds(k: nat)
    requires k < 64
    ensures 16 + Pow2(k) - 1 < WORD
  {
    WordIsPow2();
    Pow2Monotone(k, 63);
  }

  // ---- The layout ----

  /** The template's variables: the file part, then zeros up to `n` bytes. */
  function Variables(t: Template, n: nat): (b: seq<Byte>)
    requires |t.image| <= n
    ensures |b| == n
  {
    t.image + Zeros(n - |t.image|)
  }

  /** Where the variables start, counted from the base: below it on x86-64, above it on AArch64. */
  function DataFromBase(t: Template, v: Variant): int {
    match v
    case X86 => -(Span(t) as int)
    case Arm => Gap(t)
  }

  /** Room for a block laid out at `base`, from the address `at` on. */
  ghost predicate InBlock(t: Template, v: Variant, at: nat, base: nat) {
    match v
    case X86 => at + RoundUp(t.memsz, TemplateAlign(t)) <= base && base + TCB_BYTES <= at + RoomNeeded(t, v)
    case Arm => at <= base && base + RoundUp(16, TemplateAlign(t)) + t.memsz <= at + RoomNeeded(t, v)
  }

  /** Base and variables meet the template's alignment, the base also sixteen bytes. */
  ghost predicate Aligned(t: Template, v: Variant, base: nat) {
    && base % BlockAlign(t) == 0
    && base % TemplateAlign(t) == 0
    && (base + DataFromBase(t, v)) % TemplateAlign(t) == 0
  }

  /** The base and the variables lie where the linker's offsets expect them. On x86-64
      the variables begin below the base by their size rounded up to the template's
      alignment, on AArch64 above it by sixteen rounded up so; the base is the first
      address that leaves room and meets the template's alignment and sixteen. */
  ghost predicate PlacedAt(t: Template, v: Variant, at: nat, base: nat) {
    match v
    case X86 =>
      && LeastMultiple(Span(t), t.memsz, t.align) && DataFromBase(t, X86) == -(Span(t) as int)
      && LeastMultiple(base, at + Span(t), AtLeast16(t.align))
    case Arm =>
      LeastMultiple(Gap(t), 16, t.align) && DataFromBase(t, Arm) == Gap(t) && LeastMultiple(base, at, AtLeast16(t.align))
  }

  lemma DividesTwice(n: nat, b: nat, a: nat)
    requires a > 0 && b > 0 && n % b == 0 && b % a == 0
    ensures n % a == 0
  {
    Multiple(n, b);
    Multiple(b, a);
    assert n / b * (b / a * a) == n / b * (b / a) * a;
    ModIs(n, a, n / b * (b / a), 0);
  }

  lemma MultiplesDiffer(n: nat, m: nat, a: nat)
    requires a > 0 && n % a == 0 && m % a == 0
    ensures (n - m) % a == 0 && (n + m) % a == 0
  {
    Multiple(n, a);
    Multiple(m, a);
    assert n - m == (n / a - m / a) * a && n + m == (n / a + m / a) * a;
    ModIs(n - m, a, n / a - m / a, 0);
    ModIs(n + m, a, n / a + m / a, 0);
  }

  /** Main result: both layouts stay inside the block and meet every alignment. */
  lemma LayoutFits(t: Template, v: Variant, at: nat)
    requires ValidTemplate(t) && at + RoomNeeded(t, v) <= WORD
    ensures var start := if v == X86 then at + RoundUp(t.memsz, TemplateAlign(t)) else at;
            && start < WORD
            && AlignUp(start, BlockAlign(t)) == RoundUp(start, BlockAlign(t))
            && InBlock(t, v, at, RoundUp(start, BlockAlign(t))) && Aligned(t, v, RoundUp(start, BlockAlign(t)))
            && PlacedAt(t, v, at, RoundUp(start, BlockAlign(t)))
  {
    AlignmentsAre(t);
    AlignsArePowers(t);
    var start := if v == X86 then at + RoundUp(t.memsz, TemplateAlign(t)) else at;
    var k: nat :| k < 64 && BlockAlign(t) == Pow2(k);
    AlignUpFits(start, k, BlockAlign(t));
    var base := RoundUp(start, BlockAlign(t));
    DividesTwice(base, BlockAlign(t), TemplateAlign(t));
    MultiplesDiffer(base, if v == X86 then RoundUp(t.memsz, TemplateAlign(t)) else RoundUp(16, TemplateAlign(t)), TemplateAlign(t));
  }

  /** The spans the program computes with the mask are the rounded ones. */
  lemma SpansRound(t: Template, v: Variant)
    requires ValidTemplate(t) && RoomNeeded(t, v) <= WORD
    ensures v == X86 ==> AlignUp(t.memsz, TemplateAlign(t)) == RoundUp(t.memsz, TemplateAlign(t))
    ensures AlignUp(16, TemplateAlign(t)) == RoundUp(16, TemplateAlign(t))
  {
    AlignsArePowers(t);
    var align := TemplateAlign(t);
    var k: nat :| k < 64 && align == Pow2(k);
    SmallRounds(k);
    AlignUpFits(16, k, align);
    if v == X86 {
      RoundUpStaysWord(t.memsz, k, align);
      AlignUpRounds(t.memsz, k, align);
    }
  }

  /** The thread's control word and the rest of its sixty-four bytes. */
  function ControlBlock(base: nat): (b: seq<Byte>)
    ensures |b| == TCB_BYTES
  {
    LittleEndian(base, 8) + Zeros(TCB_BYTES - 8)
  }

  /** Writing over the start of what was just written. */
  lemma SpliceOver(mem: seq<Byte>, at: nat, p: seq<Byte>, q: seq<Byte>)
    requires at + |p| <= |mem| && |q| <= |p|
    ensures Spliced(Spliced(mem, at, p), at, q) == Spliced(mem, at, q + p[|q|..])
  {
  }

  /** Writing right before what was just written. */
  lemma SpliceBefore(mem: seq<Byte>, at: nat, p: seq<Byte>, q: seq<Byte>)
    requires at + |q| + |p| <= |mem|
    ensures Spliced(Spliced(mem, at + |q|, p), at, q) == Spliced(mem, at, q + p)
  {
  }

  lemma SplicesControl(was: seq<Byte>, m1: seq<Byte>, m2: seq<Byte>, at: nat, base: nat)
    requires at + TCB_BYTES <= |was|
    requires m1 == Spliced(was, at, Zeros(TCB_BYTES)) && m2 == Spliced(m1, at, LittleEndian(base, 8))
    ensures m2 == Spliced(was, at, ControlBlock(base))
  {
    SpliceOver(was, at, Zeros(TCB_BYTES), LittleEndian(base, 8));
    assert LittleEndian(base, 8) + Zeros(TCB_BYTES)[8..] == ControlBlock(base);
  }

  lemma VariablesOverZeros(t: Template, span: nat, after: seq<Byte>)
    requires |t.image| <= span
    ensures t.image + (Zeros(span) + after)[|t.image|..] == Variables(t, span) + after
    ensures t.image == [] ==> Zeros(span) + after == Variables(t, span) + after
  {
  }

  lemma SplicesVariables(was: seq<Byte>, m1: seq<Byte>, m2: seq<Byte>, m3: seq<Byte>,
                         data: nat, span: nat, after: seq<Byte>, t: Template)
    requires data + span + |after| <= |was| && |t.image| <= span
    requires m1 == Spliced(was, data + span, after) && m2 == Spliced(m1, data, Zeros(span))
    requires m3 == if |t.image| != 0 then Spliced(m2, data, t.image) else m2
    ensures m3 == Spliced(was, data, Variables(t, span) + after)
  {
    hide Zeros, Spliced, Variables;
    SpliceBefore(was, data, after, Zeros(span));
    SpliceOver(was, data, Zeros(span) + after, t.image);
    VariablesOverZeros(t, span, after);
  }

  /** Writing the x86-64 layout: variables from `data` on, then the control word. */
  method FillX86(mem: array<Byte>, data: nat, span: nat, base: nat, t: Template)
    requires data + span + TCB_BYTES <= mem.Length && |t.image| <= span
    modifies mem
    ensures mem[..] == Spliced(old(mem[..]), data, Variables(t, span) + ControlBlock(base))
  {
    hide Spliced, Variables, ControlBlock, Zeros;
    ghost var was := mem[..];
    Clear(mem, data + span, TCB_BYTES);
    ghost var m1 := mem[..];
    Copy(mem, data + span, LittleEndian(base, 8));
    ghost var m2 := mem[..];
    Clear(mem, data, span);
    ghost var m3 := mem[..];
    if |t.image| != 0 {
      Copy(mem, data, t.image);
    }
    SplicesControl(was, m1, m2, data + span, base);
    SplicesVariables(was, m2, m3, mem[..], data, span, ControlBlock(base), t);
  }

  lemma TemplateFits(t: Template)
    requires ValidTemplate(t)
    ensures |t.image| <= t.memsz < WORD && t.align < WORD
  {
  }

  /** The addresses of the x86-64 layout, all inside the block. */
  lemma PlanX86(t: Template, at: nat)
    requires ValidTemplate(t) && RoomNeeded(t, X86) < WORD && at + BlockBytes(t, X86) <= WORD
    ensures AlignUp(t.memsz, TemplateAlign(t)) == Span(t) && at + Span(t) < WORD
    ensures var base := AlignUp(at + Span(t), BlockAlign(t));
            && at + Span(t) <= base && base + TCB_BYTES <= at + BlockBytes(t, X86)
            && InBlock(t, X86, at, base) && Aligned(t, X86, base) && PlacedAt(t, X86, at, base)
  {
    SizeIsRight(t, X86);
    SpansRound(t, X86);
    LayoutFits(t, X86, at);
  }

  /** Memory outside the written part is as it was. */
  ghost predicate SameOutside(was: seq<Byte>, now: seq<Byte>, from: int, to: int) {
    |now| == |was| && 0 <= from <= to <= |was| && forall i :: 0 <= i < |was| && (i < from || to <= i) ==> now[i] == was[i]
  }

  /** The template's bytes from `from` on, then zeros up to `to`. */
  ghost predicate HoldsVariables(now: seq<Byte>, from: int, to: int, t: Template)
    requires 0 <= from <= to <= |now|
  {
    forall i :: from <= i < to ==> now[i] == if i - from < |t.image| then t.image[i - from] else 0
  }

  /** After the x86-64 layout: the variables below the base, the base in the word at the
      base, zeros to the end of the sixty-four bytes, nothing else changed. */
  ghost predicate HoldsX86(was: seq<Byte>, now: seq<Byte>, data: int, tcb: int, base: nat, t: Template) {
    && SameOutside(was, now, data, tcb + 64) && data <= tcb
    && HoldsVariables(now, data, tcb, t)
    && Value(now[tcb..tcb + 8]) == base
    && forall i :: tcb + 8 <= i < tcb + 64 ==> now[i] == 0
  }

  lemma BytesX86(was: seq<Byte>, data: nat, span: nat, base: nat, t: Template)
    requires data + span + TCB_BYTES <= |was| && |t.image| <= span && base < WORD
    ensures HoldsX86(was, Spliced(was, data, Variables(t, span) + ControlBlock(base)), data, data + span, base, t)
  {
    hide LittleEndian, Value;
    var now := Spliced(was, data, Variables(t, span) + ControlBlock(base));
    assert now[data + span..data + span + 8] == LittleEndian(base, 8);
    WordReadsBack(base);
  }

  /** After the AArch64 layout: zeros from the base up to the variables, at least sixteen,
      then the variables, nothing else changed. */
  ghost predicate HoldsArm(was: seq<Byte>, now: seq<Byte>, tcb: int, gap: int, t: Template) {
    && SameOutside(was, now, tcb, tcb + gap + t.memsz) && gap >= 16
    && (forall i :: tcb <= i < tcb + gap ==> now[i] == 0)
    && HoldsVariables(now, tcb + gap, tcb + gap + t.memsz, t)
  }

  lemma BytesArm(was: seq<Byte>, tcb: nat, gap: nat, t: Template)
    requires tcb + gap + t.memsz <= |was| && |t.image| <= t.memsz && gap >= 16
    ensures HoldsArm(was, Spliced(was, tcb, Zeros(gap) + Variables(t, t.memsz)), tcb, gap, t)
  {
  }

  /** The x86-64 layout in a block at address `at`: variables, then the base. */
  method LayOutX86(mem: array<Byte>, at: nat, t: Template) returns (base: nat)
    requires ValidTemplate(t) && mem.Length == BlockBytes(t, X86) && RoomNeeded(t, X86) < WORD
    requires at + mem.Length <= WORD
    modifies mem
    ensures InBlock(t, X86, at, base) && Aligned(t, X86, base) && PlacedAt(t, X86, at, base)
    ensures HoldsX86(old(mem[..]), mem[..], base - Span(t) - at, base - at, base, t)
    ensures mem[..] == Spliced(old(mem[..]), base + DataFromBase(t, X86) - at, Variables(t, Span(t)) + ControlBlock(base))
  {
    hide Spliced, Variables, ControlBlock, HoldsX86, PlacedAt, Aligned, InBlock, AlignUp, RoomNeeded, ValidTemplate;
    PlanX86(t, at);
    TemplateFits(t);
    var span := AlignUp(t.memsz, TemplateAlign(t));
    base := AlignUp(at + span, BlockAlign(t));
    BytesX86(mem[..], base - span - at, span, base, t);
    FillX86(mem, base - span - at, span, base, t);
  }

  /** Main result: after the x86-64 layout the word at the base is the base, and the
      template's bytes, then zeros, lie right below it. */
  lemma ControlWordIsBase(was: seq<Byte>, t: Template, at: nat, base: nat)
    requires ValidTemplate(t) && RoomNeeded(t, X86) <= |was| && at + |was| <= WORD
    requires InBlock(t, X86, at, base)
    ensures var now := Spliced(was, base + DataFromBase(t, X86) - at, Variables(t, Span(t)) + ControlBlock(base));
            && |now| == |was|
            && Value(now[base - at..base - at + 8]) == base
            && now[base - at - Span(t)..base - at] == Variables(t, Span(t))
  {
    var now := Spliced(was, base + DataFromBase(t, X86) - at, Variables(t, Span(t)) + ControlBlock(base));
    assert now[base - at..base - at + 8] == LittleEndian(base, 8);
    WordReadsBack(base);
  }

  lemma WordReadsBack(v: nat)
    requires v < WORD
    ensures Value(LittleEndian(v, 8)) == v
  {
    assert Power(0x100, 4) == 0x1_0000_0000;
    assert Power(0x100, 8) == WORD;
    ValueReadsBack(v, 8);
  }

  lemma SplicesArm(was: seq<Byte>, m1: seq<Byte>, m2: seq<Byte>, m3: seq<Byte>, tcb: nat, gap: nat, t: Template)
    requires tcb + gap + t.memsz <= |was| && |t.image| <= t.memsz
    requires m1 == Spliced(was, tcb, Zeros(gap))
    requires m2 == Spliced(m1, tcb + gap, Zeros(t.memsz))
    requires m3 == if |t.image| != 0 then Spliced(m2, tcb + gap, t.image) else m2
    ensures m3 == Spliced(was, tcb, Zeros(gap) + Variables(t, t.memsz))
  {
    assert m2 == Spliced(was, tcb, Zeros(gap) + Zeros(t.memsz));
  }

  /** Writing the AArch64 layout: `gap` zeros from `tcb` on, then the variables. */
  method FillArm(mem: array<Byte>, tcb: nat, gap: nat, t: Template)
    requires tcb + gap + t.memsz <= mem.Length && |t.image| <= t.memsz
    modifies mem
    ensures mem[..] == Spliced(old(mem[..]), tcb, Zeros(gap) + Variables(t, t.memsz))
  {
    hide Spliced, Variables, Zeros;
    ghost var was := mem[..];
    Clear(mem, tcb, gap);
    ghost var m1 := mem[..];
    Clear(mem, tcb + gap, t.memsz);
    ghost var m2 := mem[..];
    if |t.image| != 0 {
      Copy(mem, tcb + gap, t.image);
    }
    SplicesArm(was, m1, m2, mem[..], tcb, gap, t);
  }

  /** The addresses of the AArch64 layout, all inside the block. */
  lemma PlanArm(t: Template, at: nat)
    requires ValidTemplate(t) && RoomNeeded(t, Arm) < WORD && at + BlockBytes(t, Arm) <= WORD
    ensures AlignUp(16, TemplateAlign(t)) == DataFromBase(t, Arm) >= 16 && at < WORD
    ensures var base := AlignUp(at, BlockAlign(t));
            && at <= base && base + DataFromBase(t, Arm) + t.memsz <= at + BlockBytes(t, Arm)
            && InBlock(t, Arm, at, base) && Aligned(t, Arm, base) && PlacedAt(t, Arm, at, base)
  {
    SizeIsRight(t, Arm);
    SpansRound(t, Arm);
    LayoutFits(t, Arm, at);
  }

  /** The AArch64 layout in a block at address `at`: the base, then the variables. */
  method LayOutArm(mem: array<Byte>, at: nat, t: Template) returns (base: nat)
    requires ValidTemplate(t) && mem.Length == BlockBytes(t, Arm) && RoomNeeded(t, Arm) < WORD
    requires at + mem.Length <= WORD
    modifies mem
    ensures InBlock(t, Arm, at, base) && Aligned(t, Arm, base) && PlacedAt(t, Arm, at, base)
    ensures HoldsArm(old(mem[..]), mem[..], base - at, Gap(t), t)
    ensures mem[..] == Spliced(old(mem[..]), base - at, Zeros(DataFromBase(t, Arm)) + Variables(t, t.memsz))
  {
    hide Spliced, Variables, HoldsArm, PlacedAt, Aligned, InBlock, AlignUp, RoomNeeded, ValidTemplate;
    PlanArm(t, at);
    TemplateFits(t);
    base := AlignUp(at, BlockAlign(t));
    var gap := AlignUp(16, TemplateAlign(t));
    BytesArm(mem[..], base - at, gap, t);
    FillArm(mem, base - at, gap, t);
  }
}
