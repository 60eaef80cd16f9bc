/**
 * The address space of one CPU (`MemorySet<HostPageTable>`) as the per-CPU
 * code uses it: a set of regions keyed by their start address, each mapped
 * at a constant offset to physical memory. Insertion fails when the new
 * region overlaps one already present; deletion fails when no region starts
 * at the given address.
 */
module Memory {
  import opened Machine
  import opened Results

  datatype Flag = Read | Write | Execute

  /** A region mapped with `new_with_offset_mapper`: `size` bytes from `paddr`. */
  datatype Region = Region(paddr: usize, size: nat, flags: set<Flag>)

  /** Regions keyed by their start virtual address. */
  type MemorySet = map<usize, Region>

  /** Some region of `ms` shares a byte with [start, start + size). */
  predicate Overlaps(ms: MemorySet, start: int, size: nat) {
    exists s :: s in ms && s < start + size && start < s + ms[s].size
  }

  /** No two regions of `ms` share a byte. */
  ghost predicate Disjoint(ms: MemorySet) {
    forall s, t :: s in ms && t in ms && s != t ==> s + ms[s].size <= t || t + ms[t].size <= s
  }

  /** Through `ms`, the virtual address `va` reaches the physical address `pa`. */
  ghost predicate Resolves(ms: MemorySet, va: int, pa: int) {
    exists s :: s in ms && s <= va < s + ms[s].size && pa == ms[s].paddr + (va - s)
  }

  /** `MemorySet::insert`: add a region unless it overlaps one already mapped. */
  function Insert(ms: MemorySet, start: usize, region: Region): (r: HvResult<MemorySet>)
    ensures r.Ok? <==> !Overlaps(ms, start, region.size)
    ensures r.Err? ==> r.error == MappingConflict(start)
    ensures r.Ok? ==> r.value.Keys == ms.Keys + {start} && r.value[start] == region
    ensures r.Ok? ==> forall s :: s in ms && s != start ==> r.value[s] == ms[s]
  {
    if Overlaps(ms, start, region.size) then Err(MappingConflict(start)) else Ok(ms[start := region])
  }

  /** `MemorySet::delete`: remove the region that starts at `start`, if there is one. */
  function Delete(ms: MemorySet, start: usize): (r: HvResult<MemorySet>)
    ensures r.Ok? <==> start in ms
    ensures r.Err? ==> r.error == MappingAbsent(start)
    ensures r.Ok? ==> r.value.Keys == ms.Keys - {start}
    ensures r.Ok? ==> forall s :: s in r.value ==> r.value[s] == ms[s]
  {
    if start in ms then Ok(ms - {start}) else Err(MappingAbsent(start))
  }

  /** A successful insert keeps an address space free of overlaps. */
  lemma InsertKeepsDisjoint(ms: MemorySet, start: usize, region: Region)
    requires Disjoint(ms) && Insert(ms, start, region).Ok?
    ensures Disjoint(Insert(ms, start, region).value)
  {
  }

  /** A successful delete keeps an address space free of overlaps. */
  lemma DeleteKeepsDisjoint(ms: MemorySet, start: usize)
    requires Disjoint(ms) && Delete(ms, start).Ok?
    ensures Disjoint(Delete(ms, start).value)
  {
  }

  /**
   * After a successful insert of a non-empty region at `s`, a window that
   * lies apart from the new region overlaps the grown set exactly when it
   * overlapped the old one.
   */
  lemma {:induction false} InsertKeepsOtherOverlaps(ms: MemorySet, s: usize, region: Region, start: int, size: nat)
    requires 0 < region.size && !Overlaps(ms, s, region.size)
    requires s + region.size <= start || start + size <= s
    ensures Overlaps(ms[s := region], start, size) <==> Overlaps(ms, start, size)
  {
    var grown := ms[s := region];
    if s in ms {
      // an old region at `s` would overlap the new one unless it is empty,
      // and an empty region at `s` lies outside the window
      assert !(s < s + region.size && s < s + ms[s].size);
      assert !(s < start + size && start < s + ms[s].size);
    }
    forall t | t in ms && t != s
      ensures t in grown && grown[t] == ms[t]
    {
    }
  }

  /**
   * In an address space without overlaps, the region at `s` does not meet
   * any other region, so putting it back after removing it restores the map.
   */
  lemma ReinsertRestores(ms: MemorySet, s: usize)
    requires Disjoint(ms) && s in ms
    ensures !Overlaps(ms - {s}, s, ms[s].size)
    ensures (ms - {s})[s := ms[s]] == ms
  {
    var rest := ms - {s};
    forall t | t in rest
      ensures !(t < s + ms[s].size && s < t + rest[t].size)
    {
      assert t in ms && t != s;
    }
    assert rest[s := ms[s]] == ms;
  }

  /** Deleting a region and inserting it again gives back the same address space. */
  lemma {:induction false} InsertUndoesDelete(ms: MemorySet, s: usize)
    requires Disjoint(ms) && s in ms
    ensures Delete(ms, s).Ok?
    ensures Insert(Delete(ms, s).value, s, ms[s]) == Ok(ms)
  {
    ReinsertRestores(ms, s);
  }

  /** Inserting a region at a fresh address and deleting it again gives back the same address space. */
  lemma {:induction false} DeleteUndoesInsert(ms: MemorySet, s: usize, region: Region)
    requires s !in ms && Insert(ms, s, region).Ok?
    ensures Delete(Insert(ms, s, region).value, s) == Ok(ms)
  {
    assert ms[s := region] - {s} == ms;
  }
}
