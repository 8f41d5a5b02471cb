/**
 * The soft-interrupt registration tables of `kernel/softirq.c`: the 32
 * bottom-half routines, the 32 soft-IRQ actions with the per-CPU mask of
 * enabled soft IRQs, and the 32 tasklets that stand in for bottom halves.
 *
 * Function pointers are values of `Handler`: the routines this file defines
 * are named, any other routine is an opaque `Routine(id)`.
 */
module Softirq {
  /** The two soft IRQs `softirq_init` registers (Linux 2.4 numbering). */
  const HI_SOFTIRQ: nat := 0
  const TASKLET_SOFTIRQ: nat := 3
  const NR_SLOTS: nat := 32

  datatype Handler = NoHandler | BhAction | TaskletAction | TaskletHiAction | Routine(id: nat)

  /** `struct softirq_action`; `data` is the `void *`, with 0 for `NULL`. */
  datatype SoftirqAction = SoftirqAction(action: Handler, data: nat)

  /** `struct tasklet_struct`, without its list link. */
  datatype Tasklet = Tasklet(func: Handler, data: nat, state: nat, count: int)

  /** Bit `k` of a 32-bit mask. */
  predicate Bit(m: bv32, k: bv32)
    requires k < 32
  {
    m & (1 << k) != 0
  }

  /** The C `1 << nr` for a soft-IRQ number below 32. */
  lemma ShiftWidth(nr: nat)
    requires nr < 32
    ensures (1 as bv32) << nr == (1 as bv32) << (nr as bv32)
  {
  }

  /** Or-ing in bit `b` sets it and leaves every other bit as it was. */
  lemma OrBit(m: bv32, b: bv32, k: bv32)
    requires b < 32 && k < 32
    ensures Bit(m | (1 << b), k) <==> k == b || Bit(m, k)
  {
  }

  /** `m |= 1 << nr` sets bit `nr` and leaves every other bit as it was. */
  lemma SetBit(m: bv32, nr: nat, k: bv32)
    requires nr < 32 && k < 32
    ensures Bit(m | (1 << nr), k) <==> k == nr as bv32 || Bit(m, k)
  {
    ShiftWidth(nr);
    OrBit(m, nr as bv32, k);
  }

  /** `tasklet_init` on `t[k]` (the C `t` being `&t[k]`). */
  method TaskletInit(t: array<Tasklet>, k: nat, func: Handler, data: nat)
    requires k < t.Length
    modifies t
    ensures t[..] == old(t[..])[k := Tasklet(func, data, 0, 0)]
  {
    t[k] := Tasklet(func, data, 0, 0);
  }

  class Softirqs {
    var bhBase: array<Handler>
    var softirqVec: array<SoftirqAction>
    var bhTaskVec: array<Tasklet>
    /** `irq_stat[0].__softirq_mask`, which `softirq_mask(cpu)` names for every CPU. */
    var softirqMask: bv32
    /** `NR_CPUS`, the number of passes of the loop in `open_softirq`. */
    const nrCpus: nat

    ghost predicate Valid()
      reads this
    {
      bhBase.Length == NR_SLOTS && softirqVec.Length == NR_SLOTS && bhTaskVec.Length == NR_SLOTS &&
      nrCpus >= 1
    }

    /** The zero-filled static tables. */
    constructor (nrCpus: nat)
      requires nrCpus >= 1
      ensures Valid() && this.nrCpus == nrCpus && softirqMask == 0
      ensures forall i :: 0 <= i < NR_SLOTS ==> bhBase[i] == NoHandler
      ensures forall i :: 0 <= i < NR_SLOTS ==> softirqVec[i] == SoftirqAction(NoHandler, 0)
      ensures forall i :: 0 <= i < NR_SLOTS ==> bhTaskVec[i] == Tasklet(NoHandler, 0, 0, 0)
      ensures fresh(bhBase) && fresh(softirqVec) && fresh(bhTaskVec)
    {
      this.nrCpus := nrCpus;
      bhBase := new Handler[NR_SLOTS](_ => NoHandler);
      softirqVec := new SoftirqAction[NR_SLOTS](_ => SoftirqAction(NoHandler, 0));
      bhTaskVec := new Tasklet[NR_SLOTS](_ => Tasklet(NoHandler, 0, 0, 0));
      softirqMask := 0;
    }

    /** `init_bh`: install `routine` as bottom half `nr`. */
    method InitBh(nr: nat, routine: Handler)
      requires Valid() && nr < NR_SLOTS
      modifies bhBase
      ensures bhBase[..] == old(bhBase[..])[nr := routine]
    {
      bhBase[nr] := routine;
    }

    /**
     * `open_softirq`: register `action` with `data` as soft IRQ `nr` and set
     * bit `nr` of the mask once per CPU.
     */
    method OpenSoftirq(nr: nat, action: Handler, data: nat)
      requires Valid() && nr < NR_SLOTS
      modifies softirqVec, this`softirqMask
      ensures softirqVec[..] == old(softirqVec[..])[nr := SoftirqAction(action, data)]
      ensures softirqMask == old(softirqMask) | (1 << nr)
    {
      softirqVec[nr] := softirqVec[nr].(data := data);
      softirqVec[nr] := softirqVec[nr].(action := action);
      var i := 0;
      while i < nrCpus
        invariant i <= nrCpus
        invariant softirqVec[..] == old(softirqVec[..])[nr := SoftirqAction(action, data)]
        invariant softirqMask == if i == 0 then old(softirqMask) else old(softirqMask) | (1 << nr)
      {
        softirqMask := softirqMask | (1 << nr);
        i := i + 1;
      }
    }

    /**
     * `softirq_init`: point the 32 bottom-half tasklets at `bh_action` with
     * their own index as data, and register the normal and the
     * high-priority tasklet soft IRQs.
     */
    method SoftirqInit()
      requires Valid()
      modifies bhTaskVec, softirqVec, this`softirqMask
      ensures forall i :: 0 <= i < NR_SLOTS ==> bhTaskVec[i] == Tasklet(BhAction, i, 0, 0)
      ensures softirqVec[..] == old(softirqVec[..])
        [TASKLET_SOFTIRQ := SoftirqAction(TaskletAction, 0)]
        [HI_SOFTIRQ := SoftirqAction(TaskletHiAction, 0)]
      ensures softirqMask == old(softirqMask) | 0x9
    {
      var i := 0;
      while i < NR_SLOTS
        invariant i <= NR_SLOTS
        modifies bhTaskVec
        invariant forall j :: 0 <= j < i ==> bhTaskVec[j] == Tasklet(BhAction, j, 0, 0)
      {
        TaskletInit(bhTaskVec, i, BhAction, i);
        i := i + 1;
      }
      OpenSoftirq(TASKLET_SOFTIRQ, TaskletAction, 0);
      OpenSoftirq(HI_SOFTIRQ, TaskletHiAction, 0);
    }
  }
}
