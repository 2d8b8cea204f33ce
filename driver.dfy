/**
 * The TinklaRelayDriver class: the connection lifecycle (open, close), the
 * guarded control and bulk transfers with their sticky disconnect flag, the
 * telemetry fetch and decode, the descriptor read and the device listing.
 *
 * libusb is not part of this model: what each libusb call reports (success,
 * the device list, the bytes a transfer delivers, its result code) is a
 * parameter of the method that makes the call, and the calls that take or
 * give back a resource are recorded in the ghost `trace`, so that the class
 * invariant can say which resources an open or a closed driver holds.
 */
module Driver {

  import opened Wrappers
  import opened RelayProtocol
  import opened Telemetry
  import opened UsbTrace
  import opened DeviceSearch
  import opened Descriptor

  // libusb result codes the transfers test for
  const LIBUSB_ERROR_IO: int := -1
  const LIBUSB_ERROR_NO_DEVICE: int := -4
  const LIBUSB_ERROR_PIPE: int := -9

  datatype Operation = ControlOp | BulkOp
  datatype Direction = Out | In

  /** The messages appended to the error string. */
  datatype Message =
    | NotOpen(op: Operation)
    | ControlFailed(requestType: bv8, request: bv8)
    | BulkFailed(direction: Direction, endpoint: bv8, address: bv8)
    | InitFailed
    | ListFailed

  /** The by-reference error counter and error string. */
  datatype ErrorLog = ErrorLog(count: int, messages: seq<Message>)

  /** Counting one more error and appending its message. */
  function Report(errs: ErrorLog, m: Message): ErrorLog
  {
    ErrorLog(errs.count + 1, errs.messages + [m])
  }

  /** A control-transfer result that reports the device as gone. */
  predicate ControlLost(result: int)
  {
    result == LIBUSB_ERROR_NO_DEVICE || result == LIBUSB_ERROR_IO || result == LIBUSB_ERROR_PIPE
  }

  /** A bulk-transfer result that reports the device as gone; a stall is not one. */
  predicate BulkLost(result: int)
  {
    result == LIBUSB_ERROR_NO_DEVICE || result == LIBUSB_ERROR_IO
  }

  /** Whether a control transfer on a driver that is `open` reports the device as gone. */
  predicate ControlLostOn(open: bool, wLength: u16, result: int)
  {
    open && result != wLength as int && ControlLost(result)
  }

  /** A device-to-host request. */
  predicate DeviceToHost(requestType: bv8)
  {
    requestType & GET != 0
  }

  /** The error log after one control transfer. */
  function ControlReport(errs: ErrorLog, open: bool, requestType: bv8, request: bv8, wLength: u16, result: int): (r: ErrorLog)
    ensures r.count == errs.count + (if !open || result != wLength as int then 1 else 0)
    ensures r.messages == errs.messages + (if !open then [NotOpen(ControlOp)]
                                           else if result != wLength as int then [ControlFailed(requestType, request)]
                                           else [])
  {
    if !open then Report(errs, NotOpen(ControlOp))
    else if result != wLength as int then Report(errs, ControlFailed(requestType, request))
    else errs
  }

  /** Whether a bulk transfer failed: an error result, or a short count when one is asked for. */
  predicate BulkFailedOn(length: int, transferred: Option<int>, result: int)
  {
    result != 0 || (transferred.Some? && transferred.value != length)
  }

  /** The error log after one bulk transfer. */
  function BulkReport(errs: ErrorLog, open: bool, endpointAddr: bv8, length: int, transferred: Option<int>, result: int): (r: ErrorLog)
    ensures r.count == errs.count + (if !open || BulkFailedOn(length, transferred, result) then 1 else 0)
    ensures errs.messages <= r.messages && |r.messages| == |errs.messages| + (r.count - errs.count)
    ensures !open ==> r.messages == errs.messages + [NotOpen(BulkOp)]
    ensures open && r.count > errs.count ==>
              (r.messages[|errs.messages|].BulkFailed? &&
               (r.messages[|errs.messages|].direction == Out <==> endpointAddr < 0x80) &&
               r.messages[|errs.messages|].endpoint == 0x0f & endpointAddr &&
               r.messages[|errs.messages|].endpoint < 0x10 &&
               r.messages[|errs.messages|].address == endpointAddr)
  {
    if !open then Report(errs, NotOpen(BulkOp))
    else if BulkFailedOn(length, transferred, result) then
      Report(errs, BulkFailed(if endpointAddr < 0x80 then Out else In, 0x0f & endpointAddr, endpointAddr))
    else errs
  }

  /** What a driver open on device `k` holds: a context, the handle on `k` and no other, the claimed interface, and the kernel driver it detached. */
  function HeldWhileOpen(k: nat, kernelDetached: bool, r: Resource): int
  {
    match r
    case Context => 1
    case Handle(d) => if d == k then 1 else 0
    case Claim => 1
    case KernelDetached => if kernelDetached then 1 else 0
    case List => 0
  }

  /** The handle open() obtains: by serial through the search, otherwise the first device libusb matches. */
  function Located(serial: Option<string>, list: DeviceList, plainHandle: Option<nat>): Option<nat>
  {
    if serial.Some? then SearchResult(list, VID, PID, serial.value) else plainHandle
  }

  /** The libusb calls of locating the device. */
  function LocateCalls(serial: Option<string>, list: DeviceList, plainHandle: Option<nat>): seq<UsbCall>
  {
    if serial.Some? then SearchCalls(list, VID, PID, serial.value)
    else if plainHandle.Some? then [OpenDevice(plainHandle.value)]
    else []
  }

  /** The result code of open() on a closed driver. */
  function OpenResult(initOk: bool, located: Option<nat>, claimOk: bool): (rc: int)
    ensures rc in {SUCCESS, ERROR_INIT, ERROR_NOT_FOUND, ERROR_BUSY}
    ensures rc == SUCCESS <==> initOk && located.Some? && claimOk
  {
    if !initOk then ERROR_INIT
    else if located.None? then ERROR_NOT_FOUND
    else if !claimOk then ERROR_BUSY
    else SUCCESS
  }

  function DetachCalls(kernelActive: bool): seq<UsbCall>
  {
    if kernelActive then [DetachKernelDriver] else []
  }

  function AttachCalls(kernelWasAttached: bool): seq<UsbCall>
  {
    if kernelWasAttached then [AttachKernelDriver] else []
  }

  /**
   * The libusb calls of open() once handle `k` is open: detach an active
   * kernel driver, then claim interface 0, or on failure reattach, close the
   * handle and deinitialise.
   */
  function ClaimCalls(k: nat, kernelActive: bool, claimOk: bool): seq<UsbCall>
  {
    DetachCalls(kernelActive) +
    if claimOk then [ClaimInterface] else AttachCalls(kernelActive) + [CloseDevice(k), Exit]
  }

  /** The libusb calls of open() on a closed driver. */
  function OpenCalls(serial: Option<string>, initOk: bool, list: DeviceList, plainHandle: Option<nat>,
                     kernelActive: bool, claimOk: bool): seq<UsbCall>
  {
    if !initOk then []
    else
      var found := [Init] + LocateCalls(serial, list, plainHandle);
      match Located(serial, list, plainHandle)
      case None => found + [Exit]
      case Some(k) => found + ClaimCalls(k, kernelActive, claimOk)
  }

  /** The libusb calls of close() on an open driver. */
  function CloseCalls(k: nat, kernelWasAttached: bool): seq<UsbCall>
  {
    [ReleaseInterface] + AttachCalls(kernelWasAttached) + [CloseDevice(k), Exit]
  }

  /** Locating holds just the located handle. */
  lemma LocateHolds(serial: Option<string>, list: DeviceList, plainHandle: Option<nat>, r: Resource)
    ensures Outstanding(LocateCalls(serial, list, plainHandle), r) ==
            if Located(serial, list, plainHandle).Some? && r == Handle(Located(serial, list, plainHandle).value) then 1 else 0
  {
    if serial.Some? {
      SearchHoldsOnlyItsResult(list, VID, PID, serial.value, r);
    } else if plainHandle.Some? {
      OutstandingOne(OpenDevice(plainHandle.value), r);
    }
  }

  lemma DetachHolds(kernelActive: bool, r: Resource)
    ensures Outstanding(DetachCalls(kernelActive), r) == if kernelActive && r == KernelDetached then 1 else 0
  {
    if kernelActive {
      OutstandingOne(DetachKernelDriver, r);
    }
  }

  lemma AttachHolds(kernelWasAttached: bool, r: Resource)
    ensures Outstanding(AttachCalls(kernelWasAttached), r) == if kernelWasAttached && r == KernelDetached then -1 else 0
  {
    if kernelWasAttached {
      OutstandingOne(AttachKernelDriver, r);
    }
  }

  /**
   * After the handle is open, a successful claim adds the claimed interface
   * and the detached kernel driver; a failed one reattaches what it detached
   * and gives back the handle and the context.
   */
  lemma ClaimCallsHold(k: nat, kernelActive: bool, claimOk: bool, r: Resource)
    ensures Outstanding(ClaimCalls(k, kernelActive, claimOk), r) ==
            if claimOk then (if r == Claim || (r == KernelDetached && kernelActive) then 1 else 0)
            else (if r == Handle(k) || r == Context then -1 else 0)
  {
    var detach := DetachCalls(kernelActive);
    DetachHolds(kernelActive, r);
    if claimOk {
      OutstandingConcat(detach, [ClaimInterface], r);
      OutstandingOne(ClaimInterface, r);
    } else {
      var attach := AttachCalls(kernelActive);
      AttachHolds(kernelActive, r);
      OutstandingConcat(detach, attach + [CloseDevice(k), Exit], r);
      OutstandingConcat(attach, [CloseDevice(k), Exit], r);
      OutstandingCons(CloseDevice(k), [Exit], r);
      OutstandingOne(Exit, r);
      assert [CloseDevice(k), Exit] == [CloseDevice(k)] + [Exit];
    }
  }

  /**
   * open() either fails and gives back everything it took, or succeeds and
   * holds exactly what an open driver holds.
   */
  lemma OpenCallsHold(serial: Option<string>, initOk: bool, list: DeviceList, plainHandle: Option<nat>,
                      kernelActive: bool, claimOk: bool, r: Resource)
    ensures Outstanding(OpenCalls(serial, initOk, list, plainHandle, kernelActive, claimOk), r) ==
            if OpenResult(initOk, Located(serial, list, plainHandle), claimOk) == SUCCESS
            then HeldWhileOpen(Located(serial, list, plainHandle).value, kernelActive, r) else 0
  {
    if initOk {
      var locate := LocateCalls(serial, list, plainHandle);
      var found := [Init] + locate;
      LocateHolds(serial, list, plainHandle, r);
      OutstandingCons(Init, locate, r);
      match Located(serial, list, plainHandle)
      case None =>
        OutstandingConcat(found, [Exit], r);
        OutstandingOne(Exit, r);
      case Some(k) =>
        OutstandingConcat(found, ClaimCalls(k, kernelActive, claimOk), r);
        ClaimCallsHold(k, kernelActive, claimOk, r);
    }
  }

  /** close() gives back exactly what an open driver holds. */
  lemma CloseCallsRelease(k: nat, kernelWasAttached: bool, r: Resource)
    ensures Outstanding(CloseCalls(k, kernelWasAttached), r) == -HeldWhileOpen(k, kernelWasAttached, r)
  {
    var attach := AttachCalls(kernelWasAttached);
    AttachHolds(kernelWasAttached, r);
    OutstandingCons(ReleaseInterface, attach, r);
    OutstandingConcat([ReleaseInterface] + attach, [CloseDevice(k), Exit], r);
    OutstandingCons(CloseDevice(k), [Exit], r);
    OutstandingOne(Exit, r);
    assert [CloseDevice(k), Exit] == [CloseDevice(k)] + [Exit];
  }

  /** A successful open() followed by close() leaves nothing held. */
  lemma OpenThenCloseBalanced(serial: Option<string>, list: DeviceList, plainHandle: Option<nat>,
                              kernelActive: bool, r: Resource)
    requires Located(serial, list, plainHandle).Some?
    ensures Outstanding(OpenCalls(serial, true, list, plainHandle, kernelActive, true) +
                        CloseCalls(Located(serial, list, plainHandle).value, kernelActive), r) == 0
  {
    var k := Located(serial, list, plainHandle).value;
    OpenCallsHold(serial, true, list, plainHandle, kernelActive, true, r);
    CloseCallsRelease(k, kernelActive, r);
    OutstandingConcat(OpenCalls(serial, true, list, plainHandle, kernelActive, true), CloseCalls(k, kernelActive), r);
  }

  /** The libusb calls of listDevices(). */
  function ListCalls(initOk: bool, list: DeviceList): seq<UsbCall>
  {
    if !initOk then []
    else match list
      case ListError => [Init, Exit]
      case Listed(devices) => [Init, GetDeviceList] + Probes(devices, VID, PID, |devices|) + [FreeDeviceList, Exit]
  }

  /** listDevices() gives back everything it takes. */
  lemma ListCallsBalanced(initOk: bool, list: DeviceList, r: Resource)
    ensures Outstanding(ListCalls(initOk, list), r) == 0
  {
    if initOk {
      match list
      case ListError =>
        OutstandingCons(Init, [Exit], r);
        OutstandingCons(Exit, [], r);
        assert [Init, Exit] == [Init] + [Exit];
        assert [Exit] + [] == [Exit];
      case Listed(devices) =>
        var probes := Probes(devices, VID, PID, |devices|);
        ProbesHoldNothing(devices, VID, PID, |devices|, r);
        OutstandingConcat([Init, GetDeviceList] + probes, [FreeDeviceList, Exit], r);
        OutstandingConcat([Init, GetDeviceList], probes, r);
        OutstandingCons(Init, [GetDeviceList], r);
        OutstandingCons(GetDeviceList, [], r);
        OutstandingCons(FreeDeviceList, [Exit], r);
        OutstandingCons(Exit, [], r);
        assert [Init, GetDeviceList] == [Init] + [GetDeviceList];
        assert [GetDeviceList] + [] == [GetDeviceList];
        assert [FreeDeviceList, Exit] == [FreeDeviceList] + [Exit];
        assert [Exit] + [] == [Exit];
    }
  }

  class TinklaRelayDriver {
    /** The open device handle, as the index of its device, or None for a null handle. */
    var handle: Option<nat>
    var disconnectedFlag: bool
    var kernelWasAttached: bool
    /** The decoded telemetry values. */
    var telemetry: TelemetryState
    /** The telemetry frame buffer. */
    const relayData: array<bv8>
    /** The resource-relevant libusb calls made so far. */
    ghost var trace: seq<UsbCall>

    /** What the driver holds right now. */
    ghost function Held(r: Resource): int
      reads this
    {
      if handle.Some? then HeldWhileOpen(handle.value, kernelWasAttached, r) else 0
    }

    /**
     * The class invariant: the frame buffer has its fixed size, and the
     * calls made so far hold exactly what an open driver holds while a
     * handle is open, and nothing at all otherwise.
     */
    ghost predicate Valid()
      reads this
    {
      relayData.Length == FRAME_SIZE &&
      forall r :: Outstanding(trace, r) == Held(r)
    }

    function IsOpen(): bool
      reads this`handle
    {
      handle.Some?
    }

    function Disconnected(): bool
      reads this`disconnectedFlag
    {
      disconnectedFlag
    }

    /** A new driver is closed and reports itself as disconnected. */
    constructor ()
      ensures Valid() && !IsOpen() && Disconnected() && !kernelWasAttached
      ensures telemetry == INITIAL_STATE && trace == []
      ensures fresh(relayData) && relayData[..] == [0, 0, 0, 0, 0, 0, 0, 0, 0, 0]
    {
      handle := None;
      disconnectedFlag := false;
      kernelWasAttached := false;
      disconnectedFlag := true;
      telemetry := INITIAL_STATE;
      relayData := new bv8[FRAME_SIZE](_ => 0);
      trace := [];
    }

    /** Appending calls that hold nothing keeps the invariant. */
    lemma AppendNeutral(calls: seq<UsbCall>)
      requires forall r :: Outstanding(calls, r) == 0
      ensures forall r :: Outstanding(trace + calls, r) == Outstanding(trace, r)
    {
      forall r ensures Outstanding(trace + calls, r) == Outstanding(trace, r) {
        OutstandingConcat(trace, calls, r);
      }
    }

    /**
     * open(): on an open driver, succeeds at once and clears the disconnect
     * flag; otherwise initialises libusb, locates the device (by serial when
     * one is given), detaches an active kernel driver and claims interface 0,
     * undoing every step taken when a later one fails.
     */
    method Open(serial: Option<string>, initOk: bool, list: DeviceList, plainHandle: Option<nat>,
                kernelActive: bool, claimOk: bool) returns (retval: int)
      requires Valid()
      modifies this`handle, this`disconnectedFlag, this`kernelWasAttached, this`trace
      ensures Valid()
      ensures retval == SUCCESS <==> IsOpen()
      ensures old(IsOpen()) ==> retval == SUCCESS && handle == old(handle) && !Disconnected() &&
                                kernelWasAttached == old(kernelWasAttached) && trace == old(trace)
      ensures !old(IsOpen()) ==>
                retval == OpenResult(initOk, Located(serial, list, plainHandle), claimOk) &&
                trace == old(trace) + OpenCalls(serial, initOk, list, plainHandle, kernelActive, claimOk) &&
                (retval == SUCCESS ==> handle == Located(serial, list, plainHandle) && !Disconnected()) &&
                (retval != SUCCESS ==> Disconnected() == old(Disconnected())) &&
                (retval == SUCCESS || retval == ERROR_BUSY ==> kernelWasAttached == kernelActive) &&
                (retval == ERROR_INIT || retval == ERROR_NOT_FOUND ==> kernelWasAttached == old(kernelWasAttached))
    {
      if IsOpen() {
        retval := SUCCESS;
        disconnectedFlag := false;
      } else {
        retval := OpenClosed(serial, initOk, list, plainHandle, kernelActive, claimOk);
      }
    }

    /** open() on a closed driver: initialise libusb, locate and open the device, detach the kernel driver, claim interface 0. */
    method OpenClosed(serial: Option<string>, initOk: bool, list: DeviceList, plainHandle: Option<nat>,
                      kernelActive: bool, claimOk: bool) returns (retval: int)
      requires Valid() && !IsOpen()
      modifies this`handle, this`disconnectedFlag, this`kernelWasAttached, this`trace
      ensures Valid()
      ensures retval == OpenResult(initOk, Located(serial, list, plainHandle), claimOk)
      ensures retval == SUCCESS <==> IsOpen()
      ensures trace == old(trace) + OpenCalls(serial, initOk, list, plainHandle, kernelActive, claimOk)
      ensures retval == SUCCESS ==> handle == Located(serial, list, plainHandle) && !Disconnected()
      ensures retval != SUCCESS ==> Disconnected() == old(Disconnected())
      ensures retval == SUCCESS || retval == ERROR_BUSY ==> kernelWasAttached == kernelActive
      ensures retval == ERROR_INIT || retval == ERROR_NOT_FOUND ==> kernelWasAttached == old(kernelWasAttached)
    {
      if !initOk {
        retval := ERROR_INIT;
      } else {
        ghost var calls: seq<UsbCall>;
        trace := trace + [Init];
        if serial.None? {
          handle := plainHandle;
          calls := if plainHandle.Some? then [OpenDevice(plainHandle.value)] else [];
        } else {
          handle, calls := OpenDeviceWithVidPidSerial(list, VID, PID, serial.value);
        }
        trace := trace + calls;
        if handle.None? {
          trace := trace + [Exit];
          retval := ERROR_NOT_FOUND;
        } else {
          retval := Claim(kernelActive, claimOk);
        }
        OpenTraceShape(old(trace), serial, list, plainHandle, kernelActive, claimOk, trace);
        forall r ensures Outstanding(trace, r) == Held(r) {
          OutstandingConcat(old(trace), OpenCalls(serial, initOk, list, plainHandle, kernelActive, claimOk), r);
          OpenCallsHold(serial, initOk, list, plainHandle, kernelActive, claimOk, r);
        }
      }
    }

    /**
     * The last steps of open() once a handle is open: detach an active kernel
     * driver, claim interface 0, and on failure reattach, close and
     * deinitialise.
     */
    method Claim(kernelActive: bool, claimOk: bool) returns (retval: int)
      requires handle.Some?
      modifies this`handle, this`disconnectedFlag, this`kernelWasAttached, this`trace
      ensures kernelWasAttached == kernelActive
      ensures retval == if claimOk then SUCCESS else ERROR_BUSY
      ensures handle == if claimOk then old(handle) else None
      ensures disconnectedFlag == (old(disconnectedFlag) && !claimOk)
      ensures trace == old(trace) + ClaimCalls(old(handle).value, kernelActive, claimOk)
    {
      if kernelActive {
        trace := trace + [DetachKernelDriver];
        kernelWasAttached := true;
      } else {
        kernelWasAttached := false;
      }
      if !claimOk {
        if kernelWasAttached {
          trace := trace + [AttachKernelDriver];
        }
        trace := trace + [CloseDevice(handle.value), Exit];
        handle := None;
        retval := ERROR_BUSY;
      } else {
        trace := trace + [ClaimInterface];
        disconnectedFlag := false;
        retval := SUCCESS;
      }
    }

    /** The appends of open() spell out OpenCalls. */
    static lemma OpenTraceShape(before: seq<UsbCall>, serial: Option<string>, list: DeviceList, plainHandle: Option<nat>,
                                kernelActive: bool, claimOk: bool, after: seq<UsbCall>)
      requires var found := before + [Init] + LocateCalls(serial, list, plainHandle);
               match Located(serial, list, plainHandle)
               case None => after == found + [Exit]
               case Some(k) => after == found + ClaimCalls(k, kernelActive, claimOk)
      ensures after == before + OpenCalls(serial, true, list, plainHandle, kernelActive, claimOk)
    {
    }

    /** close(): on an open driver, releases the interface, reattaches the kernel driver it detached, closes the handle and deinitialises libusb. */
    method Close()
      requires Valid()
      modifies this`handle, this`trace
      ensures Valid() && !IsOpen()
      ensures old(IsOpen()) ==> trace == old(trace) + CloseCalls(old(handle).value, kernelWasAttached)
      ensures !old(IsOpen()) ==> trace == old(trace)
      ensures forall r :: Outstanding(trace, r) == 0
    {
      if IsOpen() {
        trace := trace + [ReleaseInterface];
        if kernelWasAttached {
          trace := trace + [AttachKernelDriver];
        }
        trace := trace + [CloseDevice(handle.value), Exit];
        assert trace == old(trace) + CloseCalls(handle.value, kernelWasAttached);
        forall r ensures Outstanding(trace, r) == 0 {
          OutstandingConcat(old(trace), CloseCalls(handle.value, kernelWasAttached), r);
          CloseCallsRelease(handle.value, kernelWasAttached, r);
        }
        handle := None;
      }
    }

    /**
     * controlTransfer(): on a closed driver, counts a "not open" error; on an
     * open one, makes the transfer (a device-to-host one fills data[..wLength])
     * and counts an error when fewer or more than wLength bytes moved, setting
     * the disconnect flag when the result says the device is gone.
     * The buffer's element type is a parameter because the driver hands it
     * two kinds of `unsigned char` buffer: descriptor tables, whose bytes are
     * only added and compared, and the telemetry frame, whose bytes are masked
     * and shifted as bit-vectors.
     */
    method ControlTransfer<T>(requestType: bv8, request: bv8, wValue: u16, wIndex: u16, data: array<T>,
                              incoming: seq<T>, wLength: u16, result: int, errs: ErrorLog) returns (errs': ErrorLog)
      requires Valid()
      requires wLength as int <= data.Length && |incoming| == wLength as int
      modifies this`disconnectedFlag, this`trace, data
      ensures Valid()
      ensures errs' == ControlReport(errs, IsOpen(), requestType, request, wLength, result)
      ensures Disconnected() == (old(Disconnected()) || ControlLostOn(IsOpen(), wLength, result))
      ensures trace == old(trace) + if IsOpen() then [UsbCall.ControlTransfer(requestType, request, wValue as int, wIndex as int, wLength as int)] else []
      ensures IsOpen() && DeviceToHost(requestType) ==>
                data[..wLength as int] == incoming && data[wLength as int..] == old(data[wLength as int..])
      ensures !(IsOpen() && DeviceToHost(requestType)) ==> data[..] == old(data[..])
    {
      errs' := errs;
      if !IsOpen() {
        errs' := Report(errs', NotOpen(ControlOp));
      } else {
        var call := UsbCall.ControlTransfer(requestType, request, wValue as int, wIndex as int, wLength as int);
        OutstandingCons(call, [], Context);
        AppendNeutral([call]);
        trace := trace + [call];
        if DeviceToHost(requestType) {
          forall k | 0 <= k < wLength as int {
            data[k] := incoming[k];
          }
        }
        if result != wLength as int {
          errs' := Report(errs', ControlFailed(requestType, request));
          if result == LIBUSB_ERROR_NO_DEVICE || result == LIBUSB_ERROR_IO || result == LIBUSB_ERROR_PIPE {
            disconnectedFlag := true;
          }
        }
      }
    }

    /**
     * bulkTransfer(): on a closed driver, counts a "not open" error; on an
     * open one, makes the transfer (an IN transfer, endpoint address 0x80 and
     * up, fills data[..] with the bytes `incoming` it delivered) and counts an
     * error when the result is not zero or, when a count is asked for, fewer
     * bytes moved than requested, naming the direction and endpoint, and sets
     * the disconnect flag on NO_DEVICE or IO only. Generic in the buffer's
     * element type for the same reason as ControlTransfer.
     */
    method BulkTransfer<T>(endpointAddr: bv8, data: array<T>, incoming: seq<T>, length: int,
                           transferred: Option<int>, result: int, errs: ErrorLog)
      returns (errs': ErrorLog)
      requires Valid()
      requires 0 <= length <= data.Length && |incoming| <= length
      modifies this`disconnectedFlag, this`trace, data
      ensures Valid()
      ensures errs' == BulkReport(errs, IsOpen(), endpointAddr, length, transferred, result)
      ensures Disconnected() == (old(Disconnected()) || (IsOpen() && BulkFailedOn(length, transferred, result) && BulkLost(result)))
      ensures trace == old(trace) + if IsOpen() then [UsbCall.BulkTransfer(endpointAddr, length)] else []
      ensures IsOpen() && endpointAddr >= 0x80 ==>
                data[..|incoming|] == incoming && data[|incoming|..] == old(data[|incoming|..])
      ensures !(IsOpen() && endpointAddr >= 0x80) ==> data[..] == old(data[..])
    {
      errs' := errs;
      if !IsOpen() {
        errs' := Report(errs', NotOpen(BulkOp));
      } else {
        var call := UsbCall.BulkTransfer(endpointAddr, length);
        AppendNeutral([call]);
        trace := trace + [call];
        if endpointAddr >= 0x80 {
          forall k | 0 <= k < |incoming| {
            data[k] := incoming[k];
          }
        }
        if result != 0 || (transferred.Some? && transferred.value != length) {
          if endpointAddr < 0x80 {
            errs' := Report(errs', BulkFailed(Out, 0x0f & endpointAddr, endpointAddr));
          } else {
            errs' := Report(errs', BulkFailed(In, 0x0f & endpointAddr, endpointAddr));
          }
          if result == LIBUSB_ERROR_NO_DEVICE || result == LIBUSB_ERROR_IO {
            disconnectedFlag := true;
          }
        }
      }
    }

    /** getData(): fetches a telemetry frame into the frame buffer; true exactly when the transfer moved all ten bytes. */
    method GetData(result: int, incoming: seq<bv8>) returns (ok: bool)
      requires Valid() && |incoming| == GET_TINKLA_RELAY_DATA_SIZE as int
      modifies this`disconnectedFlag, this`trace, relayData
      ensures Valid()
      ensures ok <==> IsOpen() && result == GET_TINKLA_RELAY_DATA_SIZE as int
      ensures IsOpen() ==> relayData[..] == incoming
      ensures !IsOpen() ==> relayData[..] == old(relayData[..])
      ensures Disconnected() == (old(Disconnected()) || ControlLostOn(IsOpen(), GET_TINKLA_RELAY_DATA_SIZE, result))
      ensures trace == old(trace) + if IsOpen() then [UsbCall.ControlTransfer(GET, GET_TINKLA_RELAY_DATA, 0, 0, FRAME_SIZE)] else []
    {
      var errs := ControlTransfer(GET, GET_TINKLA_RELAY_DATA, 0, 0, relayData, incoming, GET_TINKLA_RELAY_DATA_SIZE,
                                  result, ErrorLog(0, []));
      if errs.count > 0 {
        ok := false;
      } else {
        ok := true;
      }
    }

    /** processDataMessage(): the telemetry values become the decoding of the frame buffer. */
    method ProcessDataMessage()
      requires Valid()
      modifies this`telemetry
      ensures Valid()
      ensures telemetry == DecodeFrame(relayData[..])
    {
      telemetry := DecodeFrame(relayData[..]);
    }

    /** The contents of the descriptor buffer after a transfer: what the device sent when open, else what it held. */
    ghost function Fetched(sent: seq<byte>, held: seq<byte>): seq<byte>
      reads this`handle
    {
      if IsOpen() then sent else held
    }

    /**
     * getDescGeneric(): reads a string descriptor into an uninitialised
     * 64-byte buffer (its stale contents are `stale`) and decodes it, fetching
     * the continuation table with command + 2 when the string continues.
     */
    method GetDescGeneric(command: bv8, stale: seq<byte>, table1: seq<byte>, result1: int,
                          table2: seq<byte>, result2: int, errs: ErrorLog)
      returns (descriptor: seq<u16>, errs': ErrorLog)
      requires Valid()
      requires |stale| == DESC_TBLSIZE as int && |table1| == DESC_TBLSIZE as int && |table2| == DESC_TBLSIZE as int
      requires DecodableTables(command, Fetched(table1, stale), Fetched(table2, Fetched(table1, stale)))
      modifies this`disconnectedFlag, this`trace
      ensures Valid()
      ensures descriptor == DescriptorValue(command, Fetched(table1, stale), Fetched(table2, Fetched(table1, stale)))
      ensures var once := ControlReport(errs, IsOpen(), GET, command, DESC_TBLSIZE, result1);
              errs' == if Continues(command, Fetched(table1, stale)[0] as nat)
                       then ControlReport(once, IsOpen(), GET, command + 2, DESC_TBLSIZE, result2) else once
      ensures Disconnected() ==
              (old(Disconnected()) || ControlLostOn(IsOpen(), DESC_TBLSIZE, result1) ||
               (Continues(command, Fetched(table1, stale)[0] as nat) && ControlLostOn(IsOpen(), DESC_TBLSIZE, result2)))
      ensures var first := UsbCall.ControlTransfer(GET, command, 0, 0, DESC_TBLSIZE as int);
              var second := UsbCall.ControlTransfer(GET, command + 2, 0, 0, DESC_TBLSIZE as int);
              trace == old(trace) + if !IsOpen() then []
                                    else if Continues(command, Fetched(table1, stale)[0] as nat) then [first, second]
                                    else [first]
    {
      var controlBufferIn;
      controlBufferIn, descriptor, errs' := ReadFirstTable(command, stale, table1, result1, errs);
      if (command == GET_MANUFACTURING_STRING_1 || command == GET_PRODUCT_STRING_1) && controlBufferIn[0] as nat > DESC_MAXIDX {
        descriptor, errs' := ReadContinuation(command, controlBufferIn, descriptor, table2, result2, errs');
      }
    }

    /**
     * The first part of getDescGeneric(): fetches the first table into a new
     * 64-byte buffer (whose stale contents are `stale`) and decodes its pairs
     * from index 2 below min(L, 62).
     */
    method ReadFirstTable(command: bv8, stale: seq<byte>, table1: seq<byte>, result1: int, errs: ErrorLog)
      returns (buffer: array<byte>, head: seq<u16>, errs': ErrorLog)
      requires Valid()
      requires |stale| == DESC_TBLSIZE as int && |table1| == DESC_TBLSIZE as int
      modifies this`disconnectedFlag, this`trace
      ensures fresh(buffer) && buffer.Length == DESC_TBLSIZE as int
      ensures Valid()
      ensures buffer[..] == Fetched(table1, stale)
      ensures head == PairUnits(buffer[..], 2, if buffer[0] as nat > DESC_MAXIDX then DESC_MAXIDX else buffer[0] as nat)
      ensures errs' == ControlReport(errs, IsOpen(), GET, command, DESC_TBLSIZE, result1)
      ensures Disconnected() == (old(Disconnected()) || ControlLostOn(IsOpen(), DESC_TBLSIZE, result1))
      ensures trace == old(trace) + if IsOpen() then [UsbCall.ControlTransfer(GET, command, 0, 0, DESC_TBLSIZE as int)] else []
    {
      buffer := new byte[DESC_TBLSIZE as int](k => if 0 <= k < |stale| then stale[k] else 0);
      assert buffer[..] == stale;
      errs' := ControlTransfer(GET, command, 0, 0, buffer, table1, DESC_TBLSIZE, result1, errs);
      assert buffer[..] == buffer[..DESC_TBLSIZE as int];
      var length := buffer[0] as nat;
      var end := if length > DESC_MAXIDX then DESC_MAXIDX else length;
      head := DecodePairs(buffer[..], 2, end);
    }

    /**
     * The continuation part of getDescGeneric(): keeps the low byte of the
     * straddling unit (index 62 of the first table), fetches the continuation
     * table into the same buffer with command + 2, then decodes the rest after
     * the first table's pairs `head`.
     */
    method ReadContinuation(command: bv8, buffer: array<byte>, head: seq<u16>, table2: seq<byte>, result2: int, errs: ErrorLog)
      returns (descriptor: seq<u16>, errs': ErrorLog)
      requires Valid() && buffer.Length == DESC_TBLSIZE as int && |table2| == DESC_TBLSIZE as int
      requires Continues(command, buffer[0] as nat) && buffer[0] as nat <= 2 * DESC_IDXINCR
      requires head == PairUnits(buffer[..], 2, DESC_MAXIDX)
      modifies this`disconnectedFlag, this`trace, buffer
      ensures Valid()
      ensures buffer[..] == Fetched(table2, old(buffer[..]))
      ensures descriptor == DescriptorValue(command, old(buffer[..]), buffer[..])
      ensures errs' == ControlReport(errs, IsOpen(), GET, command + 2, DESC_TBLSIZE, result2)
      ensures Disconnected() == (old(Disconnected()) || ControlLostOn(IsOpen(), DESC_TBLSIZE, result2))
      ensures trace == old(trace) + if IsOpen() then [UsbCall.ControlTransfer(GET, command + 2, 0, 0, DESC_TBLSIZE as int)] else []
    {
      var length := buffer[0] as nat;
      var midLow := buffer[DESC_MAXIDX];
      ghost var first := buffer[..];
      errs' := ControlTransfer(GET, command + 2, 0, 0, buffer, table2, DESC_TBLSIZE, result2, errs);
      assert buffer[..] == buffer[..DESC_TBLSIZE as int];
      descriptor := DecodeContinuation(command, first, head, midLow, buffer[..], length - DESC_IDXINCR);
    }

    /**
     * Decoding the continuation table `table` after the first table's pairs
     * `head`: the straddling unit (low byte `midLow`, kept from index 62 of
     * the first table, high byte at index 0 of `table`) unless it is null,
     * then the pairs of `table` from index 1 below L - 63.
     */
    static method DecodeContinuation(command: bv8, ghost first: seq<byte>, head: seq<u16>, midLow: byte,
                                     table: seq<byte>, end: nat) returns (descriptor: seq<u16>)
      requires |first| == DESC_TBLSIZE as int && |table| == DESC_TBLSIZE as int
      requires Continues(command, first[0] as nat) && first[0] as nat <= 2 * DESC_IDXINCR
      requires head == PairUnits(first, 2, DESC_MAXIDX) && midLow == first[DESC_MAXIDX]
      requires end == first[0] as nat - DESC_IDXINCR
      ensures descriptor == DescriptorValue(command, first, table)
    {
      var midchar := Unit(midLow, table[0]);
      descriptor := head;
      if midchar != 0 {
        descriptor := descriptor + [midchar];
      }
      ghost var middle := descriptor;
      var rest := DecodePairs(table, 1, end);
      descriptor := descriptor + rest;
      ContinuedValue(command, first, table, middle, rest);
    }

    /**
     * listDevices(): the serial numbers of the attached devices with the
     * default ids that open, in enumeration order; a failed initialisation
     * or device listing counts an error and yields no serials.
     */
    static method ListDevices(initOk: bool, list: DeviceList, errs: ErrorLog)
      returns (devices: seq<string>, errs': ErrorLog, ghost calls: seq<UsbCall>)
      ensures !initOk ==> devices == [] && errs' == Report(errs, InitFailed)
      ensures initOk && list.ListError? ==> devices == [] && errs' == Report(errs, ListFailed)
      ensures initOk && list.Listed? ==> devices == CandidateSerials(list.devices, VID, PID, |list.devices|) && errs' == errs
      ensures calls == ListCalls(initOk, list)
    {
      devices := [];
      errs' := errs;
      calls := [];
      if !initOk {
        errs' := Report(errs', InitFailed);
      } else {
        calls := calls + [Init];
        if list.ListError? {
          errs' := Report(errs', ListFailed);
        } else {
          var devs := list.devices;
          calls := calls + [GetDeviceList];
          var i := 0;
          while i < |devs|
            invariant 0 <= i <= |devs|
            invariant devices == CandidateSerials(devs, VID, PID, i)
            invariant calls == [Init, GetDeviceList] + Probes(devs, VID, PID, i)
          {
            var d := devs[i];
            if d.descriptorOk && d.vid == VID && d.pid == PID {
              if d.opens {
                calls := calls + [OpenDevice(i), ReadSerial(i)];
                devices := devices + [d.serial];
                calls := calls + [CloseDevice(i)];
              }
            }
            i := i + 1;
          }
          calls := calls + [FreeDeviceList];
        }
        calls := calls + [Exit];
      }
    }
  }
}
