/**
 * The per-CPU control block of the hypervisor (`PerCpu`): its lifecycle
 * state, its private address space, the protocol that moves the CPU from
 * the host into the hypervisor and back, and the global count of CPUs that
 * are under hypervisor control (`ACTIVATED_CPUS`).
 *
 * Calls into the virtualization engine (`Vcpu`) are not modelled; their
 * outcomes are parameters. The two calls that never return on success are
 * described by a `Transfer`, and the two protocols that end in them return
 * a `Divergent`, which has no success variant.
 */
module Percpu {
  import opened Machine
  import opened Results
  import opened Memory

  /**
   * Constants the per-CPU code depends on but does not define: the base of
   * the boot-time table (`PER_CPU_ARRAY_PTR`), its length (`max_cpus` of the
   * header), `PER_CPU_SIZE`, `LOCAL_PER_CPU_BASE`, where the `stack` field
   * lies inside a block, `HV_STACK_SIZE` and the size of `GuestRegisters`.
   */
  datatype Layout = Layout(
    perCpuArray: usize,
    maxCpus: nat,
    perCpuSize: nat,
    localBase: usize,
    stackOffset: nat,
    stackSize: nat,
    guestRegsSize: nat)
  {
    /** The address just past the last block of the table. */
    function TableEnd(): int {
      perCpuArray + maxCpus * perCpuSize
    }

    /**
     * The table and the local alias window fit in the address space and do
     * not share a byte; the stack lies inside a block and holds at least one
     * `GuestRegisters`.
     */
    predicate Valid() {
      && 0 < perCpuSize
      && TableEnd() <= WORD
      && localBase + perCpuSize <= WORD
      && (localBase + perCpuSize <= perCpuArray || TableEnd() <= localBase)
      && stackOffset + stackSize <= perCpuSize
      && 0 < guestRegsSize <= stackSize
    }
  }

  /** Block `a + 1` starts no later than block `b` when a < b: (a + 1) * c <= b * c. */
  lemma MulMonotonic(a: nat, b: nat, c: nat)
    requires a < b
    ensures 0 <= a * c && a * c + c <= b * c
  {
    assert a * c + c == (a + 1) * c;
  }

  /**
   * `PerCpu::from_id` and `PerCpu::from_id_mut`: the natural address of the
   * block of `id` in the boot-time table; `None` stands for the panic of the
   * bounds check when `id` is not below `max_cpus`.
   */
  function FromId(layout: Layout, id: usize): (r: Option<usize>)
    requires layout.Valid()
    ensures r.Some? <==> id < layout.maxCpus
    ensures r.Some? ==> layout.perCpuArray <= r.value && r.value + layout.perCpuSize <= layout.TableEnd()
    ensures r.Some? ==> Apart(r.value, layout.localBase, layout.perCpuSize)
  {
    if id < layout.maxCpus then
      var offset := id * layout.perCpuSize;
      MulMonotonic(id, layout.maxCpus, layout.perCpuSize);
      Some(layout.perCpuArray + offset)
    else
      None
  }

  /** The windows [a, a + size) and [b, b + size) share no byte. */
  predicate Apart(a: int, b: int, size: nat) {
    a + size <= b || b + size <= a
  }

  /** The blocks of two different CPUs share no byte: no CPU reaches another's block by its own. */
  lemma {:induction false} NaturalBlocksApart(layout: Layout, i: usize, j: usize)
    requires layout.Valid() && i < layout.maxCpus && j < layout.maxCpus && i != j
    ensures Apart(FromId(layout, i).value, FromId(layout, j).value, layout.perCpuSize)
  {
    if i < j {
      MulMonotonic(i, j, layout.perCpuSize);
    } else {
      MulMonotonic(j, i, layout.perCpuSize);
    }
  }

  /**
   * The stack pointer `sp` lies in the window [base, base + block.size)
   * and `ms` takes it to the matching byte of the block's physical memory.
   */
  ghost predicate StackBacked(ms: MemorySet, sp: int, base: int, block: Region) {
    base <= sp < base + block.size && Resolves(ms, sp, block.paddr + (sp - base))
  }

  /**
   * A stack pointer inside the window [from, from + size), rebased by
   * `to - from`, sits at the same offset inside [to, to + size); when `ms`
   * maps that window to the block, it reaches the same physical byte as before.
   */
  lemma RebasedStackResolves(ms: MemorySet, sp: usize, from: usize, to: usize, block: Region)
    requires from <= sp < from + block.size && to + block.size <= WORD
    requires to in ms && ms[to] == block
    ensures WrappingAdd(sp, WrappingSub(to, from)) - to == sp - from
    ensures StackBacked(ms, WrappingAdd(sp, WrappingSub(to, from)), to, block)
  {
    RebaseWithinWindow(sp, from, to, block.size);
  }

  /**
   * `a - b` on `usize` in a build with overflow checks: `None` stands for
   * the "attempt to subtract with overflow" panic.
   */
  function CheckedSub(a: usize, b: usize): (r: Option<usize>)
    ensures r.Some? <==> b <= a
    ensures r.Some? ==> r.value == WrappingSub(a, b)
  {
    if b <= a then Some(a - b) else None
  }

  /**
   * The stack-rebase offsets of `activate_vmm` and `deactivate_vmm` as
   * written, with checked subtraction: for every block of a valid table one
   * of the two underflows, so with overflow checks on one of the two
   * protocols panics before it reaches the engine.
   */
  lemma {:induction false} CheckedRebasePanics(layout: Layout, id: usize)
    requires layout.Valid() && id < layout.maxCpus
    ensures var natural := FromId(layout, id).value;
      CheckedSub(layout.localBase, natural).None? || CheckedSub(natural, layout.localBase).None?
  {
    var natural := FromId(layout, id).value;
    assert Apart(natural, layout.localBase, layout.perCpuSize);
  }

  /**
   * The address space `init` builds: a clone of the cell's, with the block
   * inserted first at its natural address `vaddr` and then at the alias
   * `alias`; the first insert that meets an existing region ends the build
   * with its conflict.
   */
  function MapBothNames(template: MemorySet, vaddr: usize, alias: usize, region: Region): (r: HvResult<MemorySet>)
    requires 0 < region.size && Apart(vaddr, alias, region.size)
    ensures r.Ok? <==> !Overlaps(template, vaddr, region.size) && !Overlaps(template, alias, region.size)
    ensures Overlaps(template, vaddr, region.size) ==> r == Err(MappingConflict(vaddr))
    ensures !Overlaps(template, vaddr, region.size) && Overlaps(template, alias, region.size) ==>
      r == Err(MappingConflict(alias))
    ensures r.Ok? ==> r.value.Keys == template.Keys + {vaddr, alias}
    ensures r.Ok? ==> r.value[vaddr] == region && r.value[alias] == region
    ensures r.Ok? ==> forall s :: s in template && s != vaddr && s != alias ==> r.value[s] == template[s]
  {
    match Insert(template, vaddr, region)
    case Err(e) => Err(e)
    case Ok(withNatural) =>
      InsertKeepsOtherOverlaps(template, vaddr, region, alias, region.size);
      Insert(withNatural, alias, region)
  }

  /** The address space `init` builds is free of overlaps when the cell's is. */
  lemma {:induction false} MapBothNamesKeepsDisjoint(template: MemorySet, vaddr: usize, alias: usize, region: Region)
    requires 0 < region.size && Apart(vaddr, alias, region.size)
    requires Disjoint(template) && MapBothNames(template, vaddr, alias, region).Ok?
    ensures Disjoint(MapBothNames(template, vaddr, alias, region).value)
  {
    InsertKeepsDisjoint(template, vaddr, region);
    InsertKeepsDisjoint(Insert(template, vaddr, region).value, alias, region);
  }

  datatype CpuState = HvDisabled | HvEnabled

  /** Which of its two virtual names the running code uses for the block. */
  datatype View = Natural | Alias

  /** The `vcpu` field: still the placeholder, or written by `Vcpu::new`. */
  datatype VcpuSlot = NoVcpu | VcpuReady

  /** The `linux` field: the host context captured by `LinuxContext::load_from`. */
  datatype LinuxContext = NotLoaded | LoadedFrom(sp: usize)

  /** How a call into the engine that should never return actually ends. */
  datatype Transfer =
    | Transfers                    // control moves to the guest or to the host: no return
    | Rejects(error: HvError)      // the engine refuses and returns an error
    | ReturnsOk                    // the engine returns `Ok`, breaking its contract

  /** How a protocol that ends in a divergent call ends: never with `Ok`. */
  datatype Divergent =
    | Diverged                     // control left along the divergent call
    | Unreachable                  // `unreachable!()` fired after an `Ok` from the engine
    | Failed(error: HvError)       // an error was propagated to the caller

  /** The steps of init and of the two protocols, in the order they happen. */
  datatype Event =
    | SetState(state: CpuState)
    | LoadLinux(sp: usize)
    | MapBlock
    | MapInsert(vaddr: usize)
    | MapDelete(vaddr: usize)
    | ActivatePageTable
    | FlushTlb
    | VcpuNew
    | CounterAdd(delta: int)
    | StackRebase(offset: usize)
    | SetReturn(code: usize)
    | VcpuActivate
    | VcpuExit
    | LinuxRestore
    | VcpuDeactivate

  /** The fields that `Debug for PerCpu` shows, in order. */
  datatype DebugField =
    | CpuIdField(id: usize)
    | StateField(state: CpuState)
    | GuestStateField
    | LinuxField(linux: LinuxContext)

  /**
   * The tail `call?; unreachable!()` of `activate_vmm_local` and
   * `deactivate_vmm_common`: an error is propagated, a transfer diverges, and
   * an `Ok` is a broken contract.
   */
  function Diverge(t: Transfer): (r: Divergent)
    ensures r.Failed? <==> t.Rejects?
    ensures r.Failed? ==> r.error == t.error
    ensures r == Diverged <==> t == Transfers
  {
    match t
    case Transfers => Diverged
    case Rejects(e) => Failed(e)
    case ReturnsOk => Unreachable
  }

  /** `ACTIVATED_CPUS`: an `isize` that every CPU updates by atomic `fetch_add`. */
  class ActivationCounter {
    var value: int

    ghost predicate Valid()
      reads this
    {
      IsIsize(value)
    }

    constructor ()
      ensures Valid() && value == 0
    {
      value := 0;
    }

    /** `fetch_add(delta)`, which wraps around in two's complement. */
    method FetchAdd(delta: int)
      requires Valid() && IsIsize(delta)
      modifies this
      ensures Valid() && value == WrapIsize(old(value) + delta)
    {
      value := WrapIsize(value + delta);
    }

    /** `PerCpu::activated_cpus`: the counter read as a `usize`. */
    function ActivatedCpus(): (n: usize)
      reads this
      requires Valid()
      ensures 0 <= value ==> n == value
      ensures value < 0 ==> n == value + WORD
    {
      AsUsize(value)
    }
  }

  /** The counter after `fetch_add` of each delta of `deltas` in turn, from `start`. */
  function Replay(start: int, deltas: seq<int>): int {
    if deltas == [] then start else WrapIsize(Replay(start, deltas[..|deltas| - 1]) + deltas[|deltas| - 1])
  }

  /** The exact sum of `deltas`. */
  function Net(deltas: seq<int>): int {
    if deltas == [] then 0 else Net(deltas[..|deltas| - 1]) + deltas[|deltas| - 1]
  }

  /** An activation followed by a deactivation leaves the counter as it was, even at the wrap-around. */
  lemma PairedUpdatesRestore(c: int)
    requires IsIsize(c)
    ensures WrapIsize(WrapIsize(c + 1) - 1) == c
  {
  }

  /**
   * A sequence of activations (+1) and deactivations (-1) that never has
   * more deactivations than activations, on fewer than 2^63 CPUs, leaves the
   * counter equal to the number of CPUs still active; read by
   * `activated_cpus`, that number is never negative.
   */
  lemma {:induction false} CounterTracksActiveCpus(deltas: seq<int>)
    requires forall i :: 0 <= i < |deltas| ==> deltas[i] == 1 || deltas[i] == -1
    requires forall k :: 0 <= k <= |deltas| ==> 0 <= Net(deltas[..k]) < HALF
    ensures Replay(0, deltas) == Net(deltas)
    ensures 0 <= Replay(0, deltas) && AsUsize(Replay(0, deltas)) == Net(deltas)
  {
    assert deltas[..|deltas|] == deltas;
    if deltas != [] {
      var front := deltas[..|deltas| - 1];
      forall k | 0 <= k <= |front|
        ensures 0 <= Net(front[..k]) < HALF
      {
        assert front[..k] == deltas[..k];
      }
      CounterTracksActiveCpus(front);
    }
  }

  /**
   * One per-CPU control block. `natural` is its address in the boot-time
   * table and `paddr` the physical address behind it (`virt_to_phys` of the
   * natural address). `via` records whether the running code reaches the
   * block by its natural address or by `LOCAL_PER_CPU_BASE`; `sp` is the
   * stack pointer of the CPU that runs on the block's stack, and `trace`
   * the steps taken so far.
   */
  class PerCpu {
    const layout: Layout
    const index: usize
    const natural: usize
    const paddr: usize

    var cpuId: usize
    var state: CpuState
    var vcpu: VcpuSlot
    var linux: LinuxContext
    var hvm: MemorySet
    var guestReturn: usize
    var via: View

    ghost var sp: usize
    ghost var trace: seq<Event>

    /** The block is entry `index` of a well-formed table. */
    ghost predicate Valid() {
      layout.Valid() && FromId(layout, index) == Some(natural)
    }

    /** The block as the boot-time table holds it before `init`. */
    constructor (layout: Layout, index: usize, paddr: usize, ghost sp: usize)
      requires layout.Valid() && index < layout.maxCpus
      ensures Valid() && this.layout == layout && this.index == index && this.paddr == paddr
      ensures state == HvDisabled && vcpu == NoVcpu && linux == NotLoaded && hvm == map[]
      ensures via == Natural && this.sp == sp && trace == []
    {
      this.layout := layout;
      this.index := index;
      this.natural := FromId(layout, index).value;
      this.paddr := paddr;
      cpuId := index;
      state := HvDisabled;
      vcpu := NoVcpu;
      linux := NotLoaded;
      hvm := map[];
      guestReturn := 0;
      via := Natural;
      this.sp := sp;
      trace := [];
    }

    /** The address `self` has for the running code: `self as *const _ as usize`. */
    function SelfAddr(): usize
      reads this`via
    {
      if via == Natural then natural else layout.localBase
    }

    /** The region that maps the whole block, read-write, at either of its names. */
    function BlockRegion(): Region {
      Region(paddr, layout.perCpuSize, {Read, Write})
    }

    /** `stack_top`: the end of the `stack` field, as seen through `self`. */
    function StackTop(): (top: int)
      reads this
      requires Valid()
      ensures SelfAddr() + layout.stackOffset < top <= SelfAddr() + layout.perCpuSize
      ensures top <= WORD
    {
      SelfAddr() + layout.stackOffset + layout.stackSize
    }

    /** `guest_regs` and `guest_regs_mut`: the last `GuestRegisters` below `stack_top`, inside the stack. */
    function GuestRegs(): (regs: int)
      reads this
      requires Valid()
      ensures regs + layout.guestRegsSize == StackTop()
      ensures SelfAddr() + layout.stackOffset <= regs < StackTop()
    {
      StackTop() - layout.guestRegsSize
    }

    /** Both names of the block reach its physical memory through `hvm`. */
    ghost predicate BothMapped()
      reads this`hvm
    {
      natural in hvm && layout.localBase in hvm &&
      hvm[natural] == BlockRegion() && hvm[layout.localBase] == BlockRegion()
    }

    /** The alias name of the block is mapped and the natural one is not. */
    ghost predicate AliasOnly()
      reads this`hvm
    {
      natural !in hvm && layout.localBase in hvm && hvm[layout.localBase] == BlockRegion()
    }

    /**
     * `init`: record the id, pass through `HvDisabled`, capture the host
     * context, give a clone of the cell's address space both names of the
     * block, install it, construct the vcpu, and only then become
     * `HvEnabled`. An error from either insert or from `Vcpu::new` is
     * returned at once with the state still `HvDisabled`.
     */
    method Init(id: usize, linuxSp: usize, template: MemorySet, newVcpu: HvResult<()>) returns (r: HvResult<()>)
      requires Valid() && via == Natural
      modifies this`cpuId, this`state, this`linux, this`hvm, this`vcpu, this`trace
      ensures cpuId == id && linux == LoadedFrom(linuxSp)
      ensures var built := MapBothNames(template, natural, layout.localBase, BlockRegion());
        && (r.Ok? <==> built.Ok? && newVcpu.Ok?)
        && (built.Err? ==>
              && r == Err(built.error) && state == HvDisabled && vcpu == old(vcpu) && hvm == old(hvm)
              && trace == old(trace) + [SetState(HvDisabled)] + [LoadLinux(linuxSp)] + [MapBlock])
        && (built.Ok? ==> hvm == built.value)
        && (built.Ok? && newVcpu.Err? ==>
              && r == newVcpu && state == HvDisabled && vcpu == old(vcpu)
              && trace == old(trace) + [SetState(HvDisabled)] + [LoadLinux(linuxSp)] + [MapBlock]
                                     + [ActivatePageTable] + [VcpuNew])
        && (built.Ok? && newVcpu.Ok? ==>
              && r.Ok? && state == HvEnabled && vcpu == VcpuReady
              && trace == old(trace) + [SetState(HvDisabled)] + [LoadLinux(linuxSp)] + [MapBlock]
                                     + [ActivatePageTable] + [VcpuNew] + [SetState(HvEnabled)])
      ensures r.Ok? ==> BothMapped()
      ensures r.Ok? && natural <= sp < natural + layout.perCpuSize ==> StackBacked(hvm, sp, natural, BlockRegion())
    {
      ghost var log := trace;
      var vaddr := SelfAddr();
      cpuId := id;
      state := HvDisabled;
      log := log + [SetState(HvDisabled)];
      linux := LoadedFrom(linuxSp);
      log := log + [LoadLinux(linuxSp)];

      var built := MapBothNames(template, vaddr, layout.localBase, BlockRegion());
      log := log + [MapBlock];
      if built.Err? {
        trace := log;
        return Err(built.error);
      }

      hvm := built.value;
      log := log + [ActivatePageTable];
      log := log + [VcpuNew];
      if newVcpu.Err? {
        trace := log;
        return Err(newVcpu.error);
      }
      vcpu := VcpuReady;
      state := HvEnabled;
      trace := log + [SetState(HvEnabled)];
      r := Ok(());
    }

    /** `activate_vmm_local`: the engine's activation, which must not return. */
    method ActivateVmmLocal(engine: Transfer) returns (r: Divergent)
      modifies this`trace
      ensures r == Diverge(engine)
      ensures trace == old(trace) + [VcpuActivate]
    {
      trace := trace + [VcpuActivate];
      r := Diverge(engine);
    }

    /**
     * `activate_vmm`: count the CPU as active, move the stack to the alias
     * name, delete the natural name, flush the TLB and enter the guest. The
     * counter changes before anything can fail, and an `Ok` never comes back.
     */
    method ActivateVmm(counter: ActivationCounter, engine: Transfer) returns (r: Divergent)
      requires Valid() && counter.Valid()
      modifies this`via, this`sp, this`hvm, this`trace, counter
      ensures counter.Valid() && counter.value == WrapIsize(old(counter.value) + 1)
      ensures via == Alias
      ensures sp == WrappingAdd(old(sp), WrappingSub(layout.localBase, old(SelfAddr())))
      ensures old(SelfAddr()) !in old(hvm) ==>
        && r == Failed(MappingAbsent(old(SelfAddr())))
        && hvm == old(hvm)
        && trace == old(trace) + [CounterAdd(1)] + [StackRebase(WrappingSub(layout.localBase, old(SelfAddr())))]
                                + [MapDelete(old(SelfAddr()))]
      ensures old(SelfAddr()) in old(hvm) ==>
        && r == Diverge(engine)
        && hvm == old(hvm) - {old(SelfAddr())}
        && trace == old(trace) + [CounterAdd(1)] + [StackRebase(WrappingSub(layout.localBase, old(SelfAddr())))]
                                + [MapDelete(old(SelfAddr()))] + [FlushTlb] + [VcpuActivate]
      ensures old(via) == Natural && old(BothMapped()) ==> AliasOnly()
      ensures old(via) == Natural && old(BothMapped()) && old(StackBacked(hvm, sp, natural, BlockRegion())) ==>
        StackBacked(hvm, sp, layout.localBase, BlockRegion()) && sp - layout.localBase == old(sp) - natural
    {
      ghost var log := trace;
      counter.FetchAdd(1);
      log := log + [CounterAdd(1)];

      var oldVaddr := SelfAddr();
      via := Alias;  // `from_local_base_mut`
      var offset := WrappingSub(layout.localBase, oldVaddr);
      ghost var oldSp := sp;
      sp := WrappingAdd(sp, offset);
      log := log + [StackRebase(offset)];

      var deleted := Delete(hvm, oldVaddr);
      log := log + [MapDelete(oldVaddr)];
      if deleted.Err? {
        trace := log;
        return Failed(deleted.error);
      }
      hvm := deleted.value;
      log := log + [FlushTlb];

      if old(via) == Natural && old(BothMapped()) && old(StackBacked(hvm, sp, natural, BlockRegion())) {
        RebasedStackResolves(hvm, oldSp, natural, layout.localBase, BlockRegion());
      }
      trace := log;
      r := ActivateVmmLocal(engine);
    }

    /**
     * `deactivate_vmm_common`: quiesce the engine, restore the host context,
     * become `HvDisabled`, and return to the host, which must not return.
     */
    method DeactivateVmmCommon(exit: HvResult<()>, engine: Transfer) returns (r: Divergent)
      modifies this`state, this`trace
      ensures exit.Err? ==> r == Failed(exit.error) && state == old(state) && trace == old(trace) + [VcpuExit]
      ensures exit.Ok? ==>
        && r == Diverge(engine)
        && state == HvDisabled
        && trace == old(trace) + [VcpuExit] + [LinuxRestore] + [SetState(HvDisabled)] + [VcpuDeactivate]
    {
      trace := trace + [VcpuExit];
      if exit.Err? {
        return Failed(exit.error);
      }
      trace := trace + [LinuxRestore];
      state := HvDisabled;
      trace := trace + [SetState(HvDisabled)];
      trace := trace + [VcpuDeactivate];
      r := Diverge(engine);
    }

    /**
     * `deactivate_vmm`: count the CPU as inactive, leave `retCode` in the
     * guest registers, map the natural name again, flush the TLB, move the
     * stack back to the natural name and leave for the host. The counter
     * changes before anything can fail, and an `Ok` never comes back.
     */
    method DeactivateVmm(counter: ActivationCounter, retCode: usize, exit: HvResult<()>, engine: Transfer)
      returns (r: Divergent)
      requires Valid() && counter.Valid()
      requires cpuId == index
      modifies this`guestReturn, this`via, this`sp, this`hvm, this`state, this`trace, counter
      ensures counter.Valid() && counter.value == WrapIsize(old(counter.value) - 1)
      ensures guestReturn == retCode
      ensures Overlaps(old(hvm), natural, layout.perCpuSize) ==>
        && r == Failed(MappingConflict(natural))
        && hvm == old(hvm) && via == old(via) && sp == old(sp) && state == old(state)
        && trace == old(trace) + [CounterAdd(-1)] + [SetReturn(retCode)] + [MapInsert(natural)]
      ensures !Overlaps(old(hvm), natural, layout.perCpuSize) ==>
        var rebased := old(trace) + [CounterAdd(-1)] + [SetReturn(retCode)] + [MapInsert(natural)] + [FlushTlb]
                       + [StackRebase(WrappingSub(natural, layout.localBase))];
        && hvm == old(hvm)[natural := BlockRegion()]
        && via == Natural
        && sp == WrappingAdd(old(sp), WrappingSub(natural, layout.localBase))
        && (exit.Err? ==> r == Failed(exit.error) && state == old(state) && trace == rebased + [VcpuExit])
        && (exit.Ok? ==> r == Diverge(engine) && state == HvDisabled &&
                         trace == rebased + [VcpuExit] + [LinuxRestore] + [SetState(HvDisabled)] + [VcpuDeactivate])
      ensures old(AliasOnly()) && !Overlaps(old(hvm), natural, layout.perCpuSize) ==> BothMapped()
      ensures old(via) == Alias && old(AliasOnly()) && !Overlaps(old(hvm), natural, layout.perCpuSize) &&
              old(StackBacked(hvm, sp, layout.localBase, BlockRegion())) ==>
        StackBacked(hvm, sp, natural, BlockRegion()) && sp - natural == old(sp) - layout.localBase
    {
      ghost var log := trace;
      counter.FetchAdd(-1);
      log := log + [CounterAdd(-1)];

      guestReturn := retCode;  // `guest_regs_mut().set_return(ret_code)`
      log := log + [SetReturn(retCode)];

      var common := FromId(layout, cpuId).value;
      var inserted := Insert(hvm, common, BlockRegion());
      log := log + [MapInsert(common)];
      if inserted.Err? {
        trace := log;
        return Failed(inserted.error);
      }
      hvm := inserted.value;
      log := log + [FlushTlb];

      var offset := WrappingSub(common, layout.localBase);
      ghost var oldSp := sp;
      sp := WrappingAdd(sp, offset);
      log := log + [StackRebase(offset)];
      via := Natural;  // continue on `common_cpu_data`

      if old(via) == Alias && old(AliasOnly()) && old(StackBacked(hvm, sp, layout.localBase, BlockRegion())) {
        RebasedStackResolves(hvm, oldSp, layout.localBase, natural, BlockRegion());
      }
      trace := log;
      r := DeactivateVmmCommon(exit, engine);
    }

    /** `fault`: inject a fault into the guest; only its error comes back, and nothing in the block changes. */
    method Fault(injected: HvResult<()>) returns (r: HvResult<()>)
      ensures r.Ok? <==> injected.Ok?
      ensures r.Err? ==> r.error == injected.error
    {
      if injected.Err? {
        return Err(injected.error);
      }
      r := Ok(());
    }

    /** `Debug for PerCpu`: id and state, then the guest state unless the block is `HvDisabled`, else the host context. */
    function DebugFields(): (fields: seq<DebugField>)
      reads this
      ensures |fields| == 3 && fields[0] == CpuIdField(cpuId) && fields[1] == StateField(state)
      ensures fields[2].GuestStateField? <==> state != HvDisabled
      ensures fields[2].LinuxField? <==> state == HvDisabled
      ensures fields[2].LinuxField? ==> fields[2].linux == linux
    {
      [CpuIdField(cpuId), StateField(state)] +
      (if state != HvDisabled then [GuestStateField] else [LinuxField(linux)])
    }
  }

  /**
   * An activation of a freshly initialised block followed by a
   * deactivation, with an engine that transfers both times: the counter,
   * the address space and the stack pointer end as they began, the block
   * is reached by its natural name again, and the guest sees `retCode`.
   */
  method PairedActivation(block: PerCpu, counter: ActivationCounter, retCode: usize)
    returns (entered: Divergent, activeWhileGuest: usize, left: Divergent)
    requires block.Valid() && counter.Valid()
    requires block.via == Natural && block.BothMapped() && Disjoint(block.hvm)
    requires block.cpuId == block.index
    modifies block`via, block`sp, block`hvm, block`trace, block`guestReturn, block`state, counter
    ensures entered == Diverged && left == Diverged
    ensures activeWhileGuest == AsUsize(WrapIsize(old(counter.value) + 1))
    ensures counter.Valid() && counter.value == old(counter.value)
    ensures block.hvm == old(block.hvm) && block.via == Natural && block.sp == old(block.sp)
    ensures block.guestReturn == retCode && block.state == HvDisabled
  {
    ReinsertRestores(block.hvm, block.natural);
    entered := block.ActivateVmm(counter, Transfers);
    activeWhileGuest := counter.ActivatedCpus();
    left := block.DeactivateVmm(counter, retCode, Ok(()), Transfers);
    PairedUpdatesRestore(old(counter.value));
    RebaseRoundTrip(old(block.sp), block.layout.localBase, block.natural);
  }

  /** Boot of the block of CPU 0 from an empty cell address space: `init` succeeds and leaves the block ready to activate. */
  method Boot(layout: Layout, paddr: usize) returns (block: PerCpu, initResult: HvResult<()>)
    requires layout.Valid() && 0 < layout.maxCpus
    ensures fresh(block) && block.Valid() && block.layout == layout
    ensures initResult.Ok? && block.via == Natural && block.BothMapped() && Disjoint(block.hvm)
    ensures block.cpuId == block.index
  {
    block := new PerCpu(layout, 0, paddr, layout.perCpuArray);
    var empty: MemorySet := map[];
    assert !Overlaps(empty, block.natural, layout.perCpuSize) && !Overlaps(empty, layout.localBase, layout.perCpuSize);
    MapBothNamesKeepsDisjoint(empty, block.natural, layout.localBase, block.BlockRegion());
    initResult := block.Init(0, 0, empty, Ok(()));
  }

  /**
   * Init, activation and deactivation of the block of CPU 0: the counter
   * reads 1 while the guest runs and 0 afterwards, the address space ends
   * as init built it, the block ends `HvDisabled`, and the return code
   * reaches the guest registers.
   */
  method RoundTrip(layout: Layout, paddr: usize)
    returns (initResult: HvResult<()>, entered: Divergent, left: Divergent,
             activeWhileGuest: usize, activeAfter: usize, returned: usize, restored: bool, finalState: CpuState)
    requires layout.Valid() && 0 < layout.maxCpus
    ensures initResult.Ok? && entered == Diverged && left == Diverged
    ensures activeWhileGuest == 1 && activeAfter == 0
    ensures returned == 7 && restored && finalState == HvDisabled
  {
    var counter := new ActivationCounter();
    var block;
    block, initResult := Boot(layout, paddr);
    var afterInit := block.hvm;
    entered, activeWhileGuest, left := PairedActivation(block, counter, 7);
    activeAfter := counter.ActivatedCpus();
    returned := block.guestReturn;
    restored := block.hvm == afterInit;
    finalState := block.state;
  }
}
