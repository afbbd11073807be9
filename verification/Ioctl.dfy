/** The structures of mc_user.h that both clients of the driver pass around. */
module Ioctl {
  import opened Wire

  const MAP_MAX := 4

  /** mc_ioctl_buffer; address 0 is no buffer. */
  datatype Slot = Slot(va: nat, len: U32, sva: U64, flags: U32)
}
