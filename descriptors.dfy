/**
 * The i386 descriptor encoders of `arch/i386/kernel/traps.c` and
 * `include/asm-i386/desc.h`: interrupt-gate words in the IDT (section 6.11
 * of the Intel 64 and IA-32 SDM, Volume 3A), TSS and LDT system descriptors
 * in the GDT (section 7.2.2 of the same volume), the GDT slot of each CPU's
 * TSS and LDT, and the selectors loaded into TR and LDTR.
 *
 * A `desc_struct` is a pair of 32-bit words. Addresses are 32-bit values,
 * with 0 standing for `NULL`.
 */
module Descriptors {
  import opened Wrappers

  /** The kernel code segment selector (`__KERNEL_CS`). */
  const KERNEL_CS: bv32 := 0x10
  const IDT_ENTRIES: nat := 256
  const SYSCALL_VECTOR: nat := 0x80
  const FIRST_TSS_ENTRY: nat := 12
  const FIRST_LDT_ENTRY: nat := FIRST_TSS_ENTRY + 1
  /** Entries of a task's own LDT, and of `default_ldt`. */
  const LDT_ENTRIES: bv32 := 8192
  const DEFAULT_LDT_ENTRIES: bv32 := 5
  /** The limit and access byte `set_tss_desc` and `set_ldt_desc` write. */
  const TSS_LIMIT: bv32 := 235
  const TSS_TYPE: bv8 := 0x89
  const LDT_TYPE: bv8 := 0x82

  /** `struct desc_struct`: the low word `a` and the high word `b`. */
  datatype Desc = Desc(a: bv32, b: bv32)

  const EMPTY: Desc := Desc(0, 0)

  /**
   * `_set_gate`: word 0 holds the selector over the low half of the handler
   * address, word 1 the high half of the address over the 16-bit immediate
   * `0x8000 + (dpl << 13) + (type << 8)` (present bit, privilege, type).
   */
  function GateDesc(gateType: bv32, dpl: bv32, addr: bv32): Desc {
    Desc((KERNEL_CS << 16) | (addr & 0xffff),
         (addr & 0xffff0000) | ((0x8000 + (dpl << 13) + (gateType << 8)) & 0xffff))
  }

  /** The fields of a gate descriptor, as the processor reads them. */
  function GateOffset(d: Desc): bv32 { (d.b & 0xffff0000) | (d.a & 0xffff) }
  function GateSelector(d: Desc): bv32 { d.a >> 16 }
  predicate GatePresent(d: Desc) { d.b & 0x8000 != 0 }
  function GateDpl(d: Desc): bv32 { (d.b >> 13) & 3 }
  function GateType(d: Desc): bv32 { (d.b >> 8) & 0x1f }

  /**
   * A gate decodes back to the handler address, the kernel code segment,
   * the privilege level and the type it was built from, and is present.
   */
  lemma GateFields(gateType: bv32, dpl: bv32, addr: bv32)
    requires gateType < 16 && dpl < 4
    ensures var d := GateDesc(gateType, dpl, addr);
      GateOffset(d) == addr && GateSelector(d) == KERNEL_CS && GatePresent(d) &&
      GateDpl(d) == dpl && GateType(d) == gateType && d.b & 0xe0 == 0
  {
  }

  /** The three kinds of gate `traps.c` installs. */
  datatype GateKind = TrapGate | InterruptGate | SystemGate

  /** `set_trap_gate` and `set_system_gate` use type 15, `set_intr_gate` type 14. */
  function KindType(k: GateKind): (t: bv32)
    ensures t == 14 <==> k == InterruptGate
  {
    if k == InterruptGate then 14 else 15
  }

  /** Only a system gate may be entered from user mode (privilege 3). */
  function KindDpl(k: GateKind): (dpl: bv32)
    ensures dpl == 3 <==> k == SystemGate
    ensures dpl == 0 <==> k != SystemGate
  {
    if k == SystemGate then 3 else 0
  }

  /** The gate `trap_init` installs for `vector`, if any. */
  function Installed(vector: nat): (r: Option<GateKind>)
    ensures r.Some? <==> vector < 20 || vector == SYSCALL_VECTOR
  {
    if vector == 2 then Some(InterruptGate)
    else if vector in {3, 4, 5, SYSCALL_VECTOR} then Some(SystemGate)
    else if vector < 20 then Some(TrapGate)
    else None
  }

  /**
   * After `trap_init` only the breakpoint, overflow, bounds and system-call
   * vectors can be raised from user mode, and only the NMI vector runs with
   * interrupts off; every gate points at the kernel code segment.
   */
  lemma InstalledGates(vector: nat, addr: bv32)
    requires Installed(vector).Some?
    ensures var d := GateDesc(KindType(Installed(vector).value), KindDpl(Installed(vector).value), addr);
      GatePresent(d) && GateSelector(d) == KERNEL_CS && GateOffset(d) == addr &&
      (GateDpl(d) == 3 <==> vector in {3, 4, 5, SYSCALL_VECTOR}) &&
      (GateType(d) == 14 <==> vector == 2)
  {
    var k := Installed(vector).value;
    GateFields(KindType(k), KindDpl(k), addr);
  }

  /** The little-endian byte image of a descriptor. */
  function Bytes(d: Desc): (s: seq<bv8>)
    ensures |s| == 8
  {
    [(d.a & 0xff) as bv8, ((d.a >> 8) & 0xff) as bv8, ((d.a >> 16) & 0xff) as bv8, (d.a >> 24) as bv8,
     (d.b & 0xff) as bv8, ((d.b >> 8) & 0xff) as bv8, ((d.b >> 16) & 0xff) as bv8, (d.b >> 24) as bv8]
  }

  /** The descriptor whose memory holds the eight bytes `s`. */
  function FromBytes(s: seq<bv8>): Desc
    requires |s| == 8
  {
    Desc((s[0] as bv32) | ((s[1] as bv32) << 8) | ((s[2] as bv32) << 16) | ((s[3] as bv32) << 24),
         (s[4] as bv32) | ((s[5] as bv32) << 8) | ((s[6] as bv32) << 16) | ((s[7] as bv32) << 24))
  }

  /** Reading the bytes of a descriptor back gives the descriptor. */
  lemma BytesRoundTrip(d: Desc)
    ensures FromBytes(Bytes(d)) == d
  {
  }

  /** Storing eight bytes and reading them back gives the same bytes. */
  lemma FromBytesRoundTrip(s: seq<bv8>)
    requires |s| == 8
    ensures Bytes(FromBytes(s)) == s
  {
  }

  /**
   * `_set_tssldt_desc`: the limit's low half in bytes 0-1, the base's low
   * half in bytes 2-3, base bits 16-23 in byte 4, the access byte `type` in
   * byte 5, 0 in byte 6 and base bits 24-31 in byte 7.
   */
  function SystemDesc(addr: bv32, limit: bv32, sysType: bv8): (d: Desc)
    ensures Bytes(d) == [(limit & 0xff) as bv8, ((limit >> 8) & 0xff) as bv8,
      (addr & 0xff) as bv8, ((addr >> 8) & 0xff) as bv8, ((addr >> 16) & 0xff) as bv8,
      sysType, 0, (addr >> 24) as bv8]
  {
    var s := [(limit & 0xff) as bv8, ((limit >> 8) & 0xff) as bv8,
      (addr & 0xff) as bv8, ((addr >> 8) & 0xff) as bv8, ((addr >> 16) & 0xff) as bv8,
      sysType, 0, (addr >> 24) as bv8];
    FromBytesRoundTrip(s);
    FromBytes(s)
  }

  /** The fields of a segment descriptor, as the processor reads them. */
  function DescBase(d: Desc): bv32 { (d.b & 0xff000000) | ((d.b & 0xff) << 16) | (d.a >> 16) }
  function DescLimit(d: Desc): bv32 { (d.b & 0xf0000) | (d.a & 0xffff) }
  function DescAccess(d: Desc): bv8 { ((d.b >> 8) & 0xff) as bv8 }
  /** Bits 20-23: granularity, default size, the 64-bit flag and the free bit. */
  function DescFlags(d: Desc): bv32 { (d.b >> 20) & 0xf }

  /**
   * A TSS or LDT descriptor decodes to the full base address, the low 16
   * bits of the limit with byte granularity, and the access byte given.
   */
  lemma SystemFields(addr: bv32, limit: bv32, sysType: bv8)
    ensures var d := SystemDesc(addr, limit, sysType);
      DescBase(d) == addr && DescLimit(d) == limit & 0xffff &&
      DescAccess(d) == sysType && DescFlags(d) == 0
  {
    var d := SystemDesc(addr, limit, sysType);
    BytesRoundTrip(d);
  }

  /** `__TSS(n)` and `__LDT(n)`: the GDT slots of CPU `n`'s TSS and LDT. */
  function Tss(n: nat): nat { 4 * n + FIRST_TSS_ENTRY }
  function Ldt(n: nat): nat { 4 * n + FIRST_LDT_ENTRY }

  /**
   * Each CPU's LDT slot is the one right after its TSS slot, and no two
   * CPUs share a slot.
   */
  lemma SlotsApart(n: nat, m: nat)
    ensures Ldt(n) == Tss(n) + 1 && Tss(n) != Ldt(m)
    ensures n != m ==> Tss(n) != Tss(m) && Ldt(n) != Ldt(m)
  {
  }

  /** A GDT selector: the slot index over a zero table bit and privilege 0. */
  function Selector(index: nat): nat { index * 8 }

  /** A selector names its slot in the GDT, with privilege 0. */
  lemma SelectorFields(index: nat)
    ensures Selector(index) / 8 == index && (Selector(index) / 4) % 2 == 0 && Selector(index) % 4 == 0
  {
  }

  /** The LDT limit `(size << 3) - 1`, in unsigned 32-bit arithmetic. */
  function LdtLimit(size: bv32): bv32 { (size << 3) - 1 }

  /**
   * A table of 1 to 8192 entries gets a limit that covers exactly its
   * entries; this holds for `default_ldt` and for a task's own LDT.
   */
  lemma LdtLimitExact(size: bv32)
    requires 1 <= size <= LDT_ENTRIES
    ensures forall addr: bv32 {:trigger SystemDesc(addr, LdtLimit(size), LDT_TYPE)} ::
      DescLimit(SystemDesc(addr, LdtLimit(size), LDT_TYPE)) == LdtLimit(size) &&
      LdtLimit(size) + 1 == 8 * size
  {
    assert LdtLimit(size) & 0xffff == LdtLimit(size);
    forall addr: bv32 {
      SystemFields(addr, LdtLimit(size), LDT_TYPE);
    }
  }

  /** The descriptor tables and the task and LDT registers. */
  class Tables {
    /** `idt_table`. */
    var idt: array<Desc>
    /** `gdt_table`, with room for the TSS and LDT slots of every CPU. */
    var gdt: array<Desc>
    var tr: nat
    var ldtr: nat
    const nrCpus: nat
    /** The address of `default_ldt`. */
    const defaultLdt: bv32

    ghost predicate Valid()
      reads this
    {
      idt.Length == IDT_ENTRIES && gdt.Length == Tss(nrCpus) && idt != gdt
    }

    /** The zero-filled `idt_table`, a zero-filled GDT and clear registers. */
    constructor (nrCpus: nat, defaultLdt: bv32)
      ensures Valid() && this.nrCpus == nrCpus && this.defaultLdt == defaultLdt
      ensures forall v :: 0 <= v < IDT_ENTRIES ==> idt[v] == EMPTY
      ensures forall i :: 0 <= i < Tss(nrCpus) ==> gdt[i] == EMPTY
      ensures tr == 0 && ldtr == 0 && fresh(idt) && fresh(gdt)
    {
      this.nrCpus := nrCpus;
      this.defaultLdt := defaultLdt;
      idt := new Desc[IDT_ENTRIES](_ => EMPTY);
      gdt := new Desc[Tss(nrCpus)](_ => EMPTY);
      tr, ldtr := 0, 0;
    }

    /** `_set_gate` on `idt_table + n`. */
    method SetGate(n: nat, gateType: bv32, dpl: bv32, addr: bv32)
      requires Valid() && n < IDT_ENTRIES
      modifies idt
      ensures idt[..] == old(idt[..])[n := GateDesc(gateType, dpl, addr)]
    {
      idt[n] := GateDesc(gateType, dpl, addr);
    }

    /** `set_trap_gate`, `set_intr_gate` and `set_system_gate`. */
    method SetKindGate(n: nat, k: GateKind, addr: bv32)
      requires Valid() && n < IDT_ENTRIES
      modifies idt
      ensures idt[..] == old(idt[..])[n := GateDesc(KindType(k), KindDpl(k), addr)]
    {
      match k
      case TrapGate => SetGate(n, 15, 0, addr);
      case InterruptGate => SetGate(n, 14, 0, addr);
      case SystemGate => SetGate(n, 15, 3, addr);
    }

    /**
     * `trap_init`: install a gate with a null handler for every vector
     * `Installed` names, and leave every other IDT entry as it was.
     */
    method TrapInit()
      requires Valid()
      modifies idt
      ensures forall v :: 0 <= v < IDT_ENTRIES ==>
        idt[v] == match Installed(v)
          case None => old(idt[v])
          case Some(k) => GateDesc(KindType(k), KindDpl(k), 0)
    {
      SetKindGate(0, TrapGate, 0);
      SetKindGate(1, TrapGate, 0);
      SetKindGate(2, InterruptGate, 0);
      SetKindGate(3, SystemGate, 0);
      SetKindGate(4, SystemGate, 0);
      SetKindGate(5, SystemGate, 0);
      SetKindGate(6, TrapGate, 0);
      SetKindGate(7, TrapGate, 0);
      SetKindGate(8, TrapGate, 0);
      SetKindGate(9, TrapGate, 0);
      SetKindGate(10, TrapGate, 0);
      SetKindGate(11, TrapGate, 0);
      SetKindGate(12, TrapGate, 0);
      SetKindGate(13, TrapGate, 0);
      SetKindGate(14, TrapGate, 0);
      SetKindGate(15, TrapGate, 0);
      SetKindGate(16, TrapGate, 0);
      SetKindGate(17, TrapGate, 0);
      SetKindGate(18, TrapGate, 0);
      SetKindGate(19, TrapGate, 0);
      SetKindGate(SYSCALL_VECTOR, SystemGate, 0);
    }

    /** `_set_tssldt_desc` on `gdt_table + index`. */
    method SetTssLdtDesc(index: nat, addr: bv32, limit: bv32, sysType: bv8)
      requires Valid() && index < gdt.Length
      modifies gdt
      ensures gdt[..] == old(gdt[..])[index := SystemDesc(addr, limit, sysType)]
    {
      gdt[index] := SystemDesc(addr, limit, sysType);
    }

    /** `set_tss_desc`: CPU `n`'s TSS at `addr`, limit 235, an available 32-bit TSS. */
    method SetTssDesc(n: nat, addr: bv32)
      requires Valid() && n < nrCpus
      modifies gdt
      ensures gdt[..] == old(gdt[..])[Tss(n) := SystemDesc(addr, TSS_LIMIT, TSS_TYPE)]
    {
      SetTssLdtDesc(Tss(n), addr, TSS_LIMIT, TSS_TYPE);
    }

    /** `set_ldt_desc`: CPU `n`'s LDT of `size` entries at `addr`. */
    method SetLdtDesc(n: nat, addr: bv32, size: bv32)
      requires Valid() && n < nrCpus
      modifies gdt
      ensures gdt[..] == old(gdt[..])[Ldt(n) := SystemDesc(addr, LdtLimit(size), LDT_TYPE)]
    {
      SetTssLdtDesc(Ldt(n), addr, LdtLimit(size), LDT_TYPE);
    }

    /** `load_TR`: TR names CPU `n`'s TSS slot. */
    method LoadTr(n: nat)
      modifies this`tr
      ensures tr == Selector(Tss(n))
    {
      tr := Selector(Tss(n));
    }

    /**
     * `load_LDT` on CPU `cpu` for a task whose LDT is at `segments`: a task
     * without one (`segments` null) gets the five-entry `default_ldt`, any
     * other task its own table of `LDT_ENTRIES`; LDTR then names the slot.
     */
    method LoadLdt(cpu: nat, segments: bv32)
      requires Valid() && cpu < nrCpus
      modifies gdt, this`ldtr
      ensures var addr := if segments == 0 then defaultLdt else segments;
        var count := if segments == 0 then DEFAULT_LDT_ENTRIES else LDT_ENTRIES;
        gdt[..] == old(gdt[..])[Ldt(cpu) := SystemDesc(addr, LdtLimit(count), LDT_TYPE)]
      ensures ldtr == Selector(Ldt(cpu))
    {
      var addr := segments;
      var count := LDT_ENTRIES;
      if segments == 0 {
        addr := defaultLdt;
        count := DEFAULT_LDT_ENTRIES;
      }
      SetLdtDesc(cpu, addr, count);
      ldtr := Selector(Ldt(cpu));
    }
  }
}
