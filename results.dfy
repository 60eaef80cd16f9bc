/**
 * The error and result types of the hypervisor (`HvResult`), and an
 * `Option` for lookups that can miss.
 */
module Results {
  import opened Machine

  datatype Option<+T> = None | Some(value: T)

  /** The failures the per-CPU code can see from its collaborators. */
  datatype HvError =
    | MappingConflict(vaddr: usize)   // insert of a region that overlaps an existing one
    | MappingAbsent(vaddr: usize)     // delete of a region that is not mapped
    | VcpuError(code: int)            // an error reported by the virtualization engine

  datatype HvResult<+T> = Ok(value: T) | Err(error: HvError)
}
