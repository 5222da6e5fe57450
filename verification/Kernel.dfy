/** What every layer of the memory system shares: optional results, the page size and the linear map. */
module Kernel {
  datatype Option<T> = None | Some(value: T)

  const PAGE_SIZE: nat := 4096
  const KBASE: nat := 0xFFFF_FF00_0000_0000  // phys_to_virt(0); KERNEL_VADDR in the boot code
  const KPAGES: nat := 0xF_FFFF_F000_0000    // KBASE / PAGE_SIZE
}
