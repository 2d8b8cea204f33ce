/**
 * The libusb calls the driver issues, recorded as a trace, and the resources
 * a trace leaves held: contexts (libusb_init / libusb_exit), device lists
 * (libusb_get_device_list / libusb_free_device_list), device handles
 * (libusb_open / libusb_close), the claimed interface (libusb_claim_interface /
 * libusb_release_interface) and a detached kernel driver
 * (libusb_detach_kernel_driver / libusb_attach_kernel_driver).
 *
 * An acquisition is recorded only when it succeeded; a failed one holds nothing.
 */
module UsbTrace {

  datatype UsbCall =
    | Init
    | Exit
    | GetDeviceList
    | FreeDeviceList
    | OpenDevice(device: nat)
    | ReadSerial(device: nat)
    | CloseDevice(device: nat)
    | DetachKernelDriver
    | AttachKernelDriver
    | ClaimInterface
    | ReleaseInterface
    | ControlTransfer(requestType: bv8, request: bv8, value: int, index: int, length: int)
    | BulkTransfer(endpoint: bv8, length: int)

  /** The resources a libusb call can acquire or release; a handle is the one open on a given device. */
  datatype Resource = Context | List | Handle(device: nat) | Claim | KernelDetached

  /** What one call acquires (+1) or releases (-1) of resource `r`. */
  function Effect(call: UsbCall, r: Resource): int
  {
    match call
    case Init => if r == Context then 1 else 0
    case Exit => if r == Context then -1 else 0
    case GetDeviceList => if r == List then 1 else 0
    case FreeDeviceList => if r == List then -1 else 0
    case OpenDevice(d) => if r == Handle(d) then 1 else 0
    case CloseDevice(d) => if r == Handle(d) then -1 else 0
    case ClaimInterface => if r == Claim then 1 else 0
    case ReleaseInterface => if r == Claim then -1 else 0
    case DetachKernelDriver => if r == KernelDetached then 1 else 0
    case AttachKernelDriver => if r == KernelDetached then -1 else 0
    case ReadSerial(_) => 0
    case ControlTransfer(_, _, _, _, _) => 0
    case BulkTransfer(_, _) => 0
  }

  /** How many of resource `r` the calls of `trace` leave held. */
  function Outstanding(trace: seq<UsbCall>, r: Resource): int
  {
    if trace == [] then 0 else Effect(trace[0], r) + Outstanding(trace[1..], r)
  }

  /** What a concatenation holds is what each part holds. */
  lemma {:induction false} OutstandingConcat(s: seq<UsbCall>, t: seq<UsbCall>, r: Resource)
    ensures Outstanding(s + t, r) == Outstanding(s, r) + Outstanding(t, r)
  {
    if s == [] {
      assert s + t == t;
    } else {
      assert (s + t)[1..] == s[1..] + t;
      OutstandingConcat(s[1..], t, r);
    }
  }

  /** Prefixing one call adds its effect. */
  lemma OutstandingCons(call: UsbCall, t: seq<UsbCall>, r: Resource)
    ensures Outstanding([call] + t, r) == Effect(call, r) + Outstanding(t, r)
  {
    assert ([call] + t)[1..] == t;
  }

  /** A single call holds its own effect. */
  lemma OutstandingOne(call: UsbCall, r: Resource)
    ensures Outstanding([call], r) == Effect(call, r)
  {
    assert [call][1..] == [];
  }

  /** A short trace holds the sum of its calls' effects. */
  lemma OutstandingOfThree(a: UsbCall, b: UsbCall, c: UsbCall, r: Resource)
    ensures Outstanding([a, b, c], r) == Effect(a, r) + Effect(b, r) + Effect(c, r)
  {
    assert [a, b, c] == [a] + [b, c];
    assert [b, c] == [b] + [c];
    assert [c] == [c] + [];
    OutstandingCons(c, [], r);
    OutstandingCons(b, [c], r);
    OutstandingCons(a, [b, c], r);
  }
}
