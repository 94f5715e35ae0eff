/** The vocabulary of the UEFI interface the bootstrap client is written
    against: status codes, octets, handles, pool addresses and protocols. */
module Efi {

  /** The EFI_STATUS values the client tells apart.  Success and the warnings
      have the high bit clear; every other value has it set and is an error. */
  datatype Status =
    | Success
    | Warning(code: nat)
    | BufferTooSmall
    | NotFound
    | NotReady
    | OutOfResources
    | InvalidParameter
    | DeviceError
    | OtherError(code: nat)

  /** EFI_ERROR(status): the high bit of the status is set. */
  predicate IsError(s: Status) {
    !(s.Success? || s.Warning?)
  }

  /** A status for which EFI_ERROR holds. */
  type ErrorStatus = s: Status | IsError(s) witness BufferTooSmall

  /** UINT8 */
  newtype byte = x: int | 0 <= x < 256

  /** EFI_IPv4_ADDRESS: the four octets Addr[0..3]. */
  type Ip4Address = a: seq<byte> | |a| == 4 witness [0, 0, 0, 0]

  /** A pointer that may be NULL. */
  datatype Option<T> = None | Some(value: T)

  /** EFI_HANDLE */
  type Handle = nat

  /** The address of a block of pool memory. */
  type Ptr = nat

  /** The protocols the client opens on a handle. */
  datatype Protocol = DevicePath | DevicePathToText | Ip4Config2

  /** One open of a protocol interface on a handle, to be matched by one close. */
  datatype Opening = Opening(handle: Handle, protocol: Protocol)
}
