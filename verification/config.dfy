/** The kernel configuration that the tool reads: `Config` of tool/microkit/src/sel4.rs. */
module KernelConfig {

  datatype Arch = Aarch64(hypervisor: bool, paSizeBits: nat) | Riscv64Sv39 | X86

  /** The size of a kernel object is given by its number of bits. */
  datatype Config = Config(
    arch: Arch,
    virtualBase: nat,
    minimumPageSize: nat,
    rootCnodeBits: nat,
    tcbBits: nat,
    pageBits: nat,
    vspaceBits: nat,
    pageTableBits: nat)

  /** `aarch64_vspace_s2_start_l1`, false where the tool does not ask. */
  predicate StartsAtLevel1(config: Config) {
    config.arch.Aarch64? && config.arch.hypervisor && config.arch.paSizeBits == 40
  }
}
