# Per-CPU control block of RVM1.5

RVM1.5 is a type-1 hypervisor for x86_64 that a running Linux kernel
loads. Linux later hands each of its CPUs over to it. Each CPU owns a
`PerCpu` block in a boot-time table. The block holds:

- the CPU id and a lifecycle state (`HvDisabled` / `HvEnabled`);
- the virtual CPU of the virtualization engine;
- the hypervisor stack of that CPU, whose topmost bytes hold the guest
  registers;
- the captured Linux context;
- a private host address space.

Every block can be reached under two virtual names:

- its natural address in the table;
- the fixed alias `LOCAL_PER_CPU_BASE`, which is the same address on every
  CPU.

A global signed counter `ACTIVATED_CPUS` counts the CPUs that are under
hypervisor control.

This project models that component in Dafny:

- `machine.dfy`: 64-bit `usize` and `isize` arithmetic. This covers the
  wrapping subtraction and addition that rebase the stack pointer, and the
  two's-complement wrap of `fetch_add`.
- `results.dfy`: `HvResult` and the errors the block can see from its
  collaborators.
- `memory.dfy`: the address space (`MemorySet`) as a map from region start
  to region.
  - `insert` fails when the new region overlaps an existing one.
  - `delete` fails when no region starts at the address.
  - Lemmas prove that both keep an overlap-free address space overlap-free,
    and that deleting then reinserting gives back the same address space
    (and the other way round).
- `percpu.dfy`: the block itself.
  - The table lookup, and the stack-top and guest-register addresses.
  - `init` and the activation and deactivation protocols. These are methods
    of the class `PerCpu`. Each records the order of its steps in a ghost
    event log.
  - The counter, as the class `ActivationCounter`.
  - The `Debug` output.
  - Three client methods: `Boot`, `PairedActivation` and `RoundTrip`. They
    compose init, an activation and a deactivation, and prove that a pair
    of them restores the counter, the address space and the stack pointer.

How the model is set up:

- The engine is not modelled. Its outcome is a parameter.
  - Calls that return (`Vcpu::new`, `vcpu.exit`, `inject_fault`) take an
    `HvResult<()>`.
  - Calls that must not return (`activate_vmm`, `deactivate_vmm` of the
    vcpu) take a `Transfer`: control leaves (`Transfers`), the engine
    refuses (`Rejects(e)`), or it wrongly returns `Ok` (`ReturnsOk`).
  - The protocols that end in such a call return a `Divergent`. It has no
    success variant, because an `Ok` from the engine ends in
    `unreachable!()`.
- Constants defined elsewhere in the hypervisor are fields of a `Layout`
  whose `Valid()` states what the code relies on:
  - `PER_CPU_ARRAY_PTR` and `max_cpus`
  - `PER_CPU_SIZE` and `LOCAL_PER_CPU_BASE`
  - the place of the `stack` field and `HV_STACK_SIZE`
  - the size of `GuestRegisters`
- Which name the running code uses for the block is the field `via`. It is
  `Natural` or `Alias`, and it gives `self as *const _ as usize`.
- The CPU's stack pointer is the ghost field `sp`.

## Model

| member | source | states |
|---|---|---|
| Machine.WrappingSub | src/percpu.rs:141 | the rebase offset `LOCAL_PER_CPU_BASE - old_vaddr` is the true difference when it is non-negative and the difference plus 2^64 otherwise |
| Machine.WrappingAdd | src/percpu.rs:141 | `add rsp, off` gives the true sum below 2^64 and the sum minus 2^64 above |
| Machine.WrapIsize | src/percpu.rs:136 | `fetch_add` leaves a value in the `isize` range: the exact sum when it fits, otherwise the sum shifted by 2^64 |
| Machine.AsUsize | src/percpu.rs:80-82 | `isize as usize` keeps non-negative values and adds 2^64 to negative ones |
| Machine.OffsetsCancel | src/percpu.rs:166 | the deactivation offset `v - LOCAL_PER_CPU_BASE` and the activation offset `LOCAL_PER_CPU_BASE - v` add up to 0 modulo 2^64 |
| Machine.RebaseRoundTrip | src/percpu.rs:139-141 | moving a stack pointer by `a - b` and then by `b - a` gives back the same pointer for every pointer and both orders of the windows |
| Machine.RebaseWithinWindow | src/percpu.rs:141 | a stack pointer inside the old window lands at the same offset inside the new window when that window fits in the address space |
| Memory.Insert | src/percpu.rs:95-100 | `insert` succeeds exactly when the region meets no mapped region; its error names the start; on success the map gains the region and keeps every other entry |
| Memory.Delete | src/percpu.rs:142 | `delete` succeeds exactly when a region starts at the address; its error names the address; on success only that entry is gone |
| Memory.InsertKeepsDisjoint | src/percpu.rs:159-164 | a successful insert keeps an overlap-free address space overlap-free |
| Memory.DeleteKeepsDisjoint | src/percpu.rs:142 | a successful delete keeps an overlap-free address space overlap-free |
| Memory.InsertKeepsOtherOverlaps | src/percpu.rs:101-106 | after inserting the natural name, the alias window overlaps the grown map exactly when it overlapped the cell's map |
| Memory.ReinsertRestores | src/percpu.rs:159-164 | in an overlap-free map the deleted region meets nothing, and putting it back restores the map |
| Memory.InsertUndoesDelete | src/percpu.rs:159-164 | the insert of deactivation undoes the delete of activation: `insert(delete(ms, s), s, ms[s]) == Ok(ms)` |
| Memory.DeleteUndoesInsert | src/percpu.rs:142 | deleting a freshly inserted region gives back the original map |
| Percpu.FromId | src/percpu.rs:34-48 | `from_id`/`from_id_mut` find a block exactly when `id < max_cpus` (else the bounds-check panic); the block lies inside the table and apart from the alias window |
| Percpu.NaturalBlocksApart | src/percpu.rs:34-48 | the blocks of two different ids share no byte |
| Percpu.RebasedStackResolves | src/percpu.rs:139-143 | a stack pointer rebased into a window mapped to the block reaches the same physical byte at the same offset |
| Percpu.CheckedSub | src/percpu.rs:141 | `usize` subtraction with overflow checks: defined exactly when it does not underflow, and then equal to the wrapping result |
| Percpu.CheckedRebasePanics | src/percpu.rs:166 | for every block of a valid table, one of the two rebase subtractions underflows when overflow checks are on |
| Percpu.MapBothNames | src/percpu.rs:91-106 | the cloned address space gets both names exactly when neither window meets a mapped region; the first conflicting insert's start is the error; on success both names map the block and every other entry is kept |
| Percpu.MapBothNamesKeepsDisjoint | src/percpu.rs:91-106 | the address space `init` builds is overlap-free when the cell's is |
| Percpu.Diverge | src/percpu.rs:119-123 | `call?; unreachable!()` propagates exactly the engine's error, diverges exactly on a transfer, and never yields `Ok` |
| Percpu.ActivationCounter.constructor | src/percpu.rs:15 | the counter starts at 0 |
| Percpu.ActivationCounter.FetchAdd | src/percpu.rs:136 | `fetch_add(delta)` leaves the wrapped sum of the old value and `delta` |
| Percpu.ActivationCounter.ActivatedCpus | src/percpu.rs:80-82 | `activated_cpus` reads the counter as a `usize` |
| Percpu.PairedUpdatesRestore | src/percpu.rs:149 | `fetch_add(-1)` after `fetch_add(1)` restores every counter value, including at the wrap-around |
| Percpu.CounterTracksActiveCpus | src/percpu.rs:136 | a run of +1/-1 updates that never goes negative, on fewer than 2^63 CPUs, leaves the counter at the number of CPUs still active, and `activated_cpus` returns that number |
| Percpu.PerCpu.constructor | src/percpu.rs:24-31 | a table entry before `init`: `HvDisabled`, no vcpu, no Linux context, empty address space, reached by its natural name |
| Percpu.PerCpu.StackTop | src/percpu.rs:58-60 | `stack_top` lies above the start of the stack field, inside the block |
| Percpu.PerCpu.GuestRegs | src/percpu.rs:62-70 | the guest registers are the last `GuestRegisters` below `stack_top`, inside the stack |
| Percpu.PerCpu.Init | src/percpu.rs:84-116 | `init` sets the id, passes through `HvDisabled` and loads the Linux context first; it fails with the address-space error or the vcpu error, in that order and still `HvDisabled`; only after every fallible step is it `HvEnabled` with both names mapped; the steps happen in source order |
| Percpu.PerCpu.ActivateVmmLocal | src/percpu.rs:119-123 | activation on the alias name hands over to the engine and never returns `Ok` |
| Percpu.PerCpu.ActivateVmm | src/percpu.rs:134-145 | the counter goes up before anything can fail; the stack moves by `LOCAL_PER_CPU_BASE - old_vaddr`; a missing natural mapping is the error; otherwise the natural name is unmapped, the TLB flushed and the engine entered, in that order; the stack keeps the same physical byte under the alias |
| Percpu.PerCpu.DeactivateVmmCommon | src/percpu.rs:125-132 | an exit error is returned with the state unchanged; otherwise the Linux context is restored, the state becomes `HvDisabled` and the engine is left, never returning `Ok` |
| Percpu.PerCpu.DeactivateVmm | src/percpu.rs:147-168 | the counter goes down and the return code reaches the guest registers before anything can fail; an insert conflict is the error; otherwise the natural name is mapped again, the TLB flushed, the stack moved back by `natural - LOCAL_PER_CPU_BASE` and the common path taken, in that order |
| Percpu.PerCpu.Fault | src/percpu.rs:170-174 | `fault` returns `Ok` exactly when the injection succeeds and otherwise its error, changing nothing in the block |
| Percpu.PerCpu.DebugFields | src/percpu.rs:177-189 | `Debug` shows `cpu_id` and `state`, then the guest state exactly when the state is not `HvDisabled`, and the Linux context otherwise |
| Percpu.PairedActivation | src/percpu.rs:134-168 | an activation followed by a deactivation restores the counter, the address space and the stack pointer, and the block is reached by its natural name again |
| Percpu.Boot | src/percpu.rs:84-116 | `init` from an empty cell address space succeeds and leaves an overlap-free address space with both names mapped |
| Percpu.RoundTrip | src/percpu.rs:84-168 | init, activate and deactivate of CPU 0: the counter reads 1 and then 0, the address space ends as init built it, the state ends `HvDisabled`, and the return code reaches the guest |

## Left out

- Inline assembly and memory:
  - The `add rsp` of the stack switch is modelled only through its effect on
    the ghost stack pointer `sp`.
  - The stack bytes, `ptr::write` and the raw-pointer casts are not
    modelled.
  - `from_local_base`/`from_local_base_mut` (src/percpu.rs:50-56) are
    modelled as the `via` field switching to `Alias`, not as a second
    reference.
- Atomics and concurrency: `ACTIVATED_CPUS` is one object that one CPU
  updates at a time. Memory orderings and interleavings of several CPUs are
  not modelled.
- Collaborators:
  - The internals of `Vcpu`, `LinuxContext` and `MemorySet` are not part of
    this model.
  - The engine's results are parameters.
  - `vcpu.exit` changing the Linux context is not modelled.
  - An address-space insert fails only on overlap; page-table allocation
    failures are not modelled.
  - `HostPageTable::activate` and the TLB flush appear only as steps in the
    event log.
  - `virt_to_phys` is the block's `paddr`, fixed when the block is created.
- `guest_all_state` and its mutable variant (src/percpu.rs:72-78) appear
  only as the `GuestStateField` of the `Debug` output; the guest state is
  not modelled.
- Logging (`info!`, `debug!`, `println!`, `warn!`) is left out.
- The panic of an out-of-range `cpu_id` in `from_id` is the `None` of
  `FromId`.
- Percpu.PerCpu.Init: requires the block to be reached by its natural
  address, as the boot path reaches it through `from_id_mut`.
- Percpu.PerCpu.DeactivateVmm: requires `cpu_id` to be the block's own
  table index, which `init` with that index sets up. The source would go on
  with whatever block `from_id_mut(cpu_id)` names.
- Percpu.PerCpu.ActivateVmm: the stack ensures hold only when both names
  are mapped before the call. Percpu.PerCpu.DeactivateVmm: they hold only
  when just the alias is mapped and the natural window is free. Other
  starting address spaces are covered only by the map and error ensures.
- Percpu.PerCpu.ActivateVmm and Percpu.PerCpu.DeactivateVmm model both
  rebase subtractions as wrapping (`Machine.WrappingSub`), the corrected
  behaviour under "Findings". The checked form as written is kept in
  `Percpu.CheckedSub`.

## Findings

| source | as written | input that shows it | evidently intended | confidence | as-written member | corrected member |
|---|---|---|---|---|---|---|
| src/percpu.rs:141 | `LOCAL_PER_CPU_BASE - old_percpu_vaddr` and `common_percpu_vaddr - LOCAL_PER_CPU_BASE` (line 166) are plain `usize` subtractions | any block of a valid table: its natural address is never `LOCAL_PER_CPU_BASE`. If it lies above, the activation subtraction underflows; if below, the deactivation one does | wrapping subtraction, so that the two offsets cancel modulo 2^64 | medium: only in builds with overflow checks enabled; not executed | Percpu.CheckedRebasePanics | Machine.OffsetsCancel |
