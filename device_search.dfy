/**
 * libusb_open_device_with_vid_pid_serial(): walk the device list in
 * enumeration order and open the first device whose descriptor can be read,
 * whose vendor and product ids match, that opens, and whose ASCII serial
 * number equals the one asked for. Every device opened and then rejected on
 * its serial is closed again; the list is freed once.
 */
module DeviceSearch {

  import opened Wrappers
  import opened RelayProtocol
  import opened UsbTrace

  /**
   * What libusb reports about one attached device: whether its device
   * descriptor can be read, its ids, whether libusb_open succeeds on it, and
   * the serial-number string libusb_get_string_descriptor_ascii yields.
   */
  datatype Device = Device(descriptorOk: bool, vid: u16, pid: u16, opens: bool, serial: string)

  /** libusb_get_device_list: an error, or the devices before the NULL terminator. */
  datatype DeviceList = ListError | Listed(devices: seq<Device>)

  /** A device the search opens: descriptor read, ids matching, and libusb_open succeeding. */
  predicate Candidate(d: Device, vid: u16, pid: u16)
  {
    d.descriptorOk && d.vid == vid && d.pid == pid && d.opens
  }

  /** A device the search returns: a candidate whose serial equals `serial`. */
  predicate Accepts(d: Device, vid: u16, pid: u16, serial: string)
  {
    Candidate(d, vid, pid) && d.serial == serial
  }

  /** The first device at or after `from` that the search accepts, if any. */
  function FirstAccepted(devices: seq<Device>, vid: u16, pid: u16, serial: string, from: nat): (r: Option<nat>)
    requires from <= |devices|
    ensures r.Some? ==> from <= r.value < |devices| && Accepts(devices[r.value], vid, pid, serial)
    ensures r.Some? ==> forall j :: from <= j < r.value ==> !Accepts(devices[j], vid, pid, serial)
    ensures r.None? ==> forall j :: from <= j < |devices| ==> !Accepts(devices[j], vid, pid, serial)
    decreases |devices| - from
  {
    if from == |devices| then None
    else if Accepts(devices[from], vid, pid, serial) then Some(from)
    else FirstAccepted(devices, vid, pid, serial, from + 1)
  }

  /** The calls made on devices[..n] when every candidate among them is opened, read and closed again. */
  function Probes(devices: seq<Device>, vid: u16, pid: u16, n: nat): seq<UsbCall>
    requires n <= |devices|
  {
    if n == 0 then []
    else Probes(devices, vid, pid, n - 1) +
         (if Candidate(devices[n - 1], vid, pid) then [OpenDevice(n - 1), ReadSerial(n - 1), CloseDevice(n - 1)] else [])
  }

  /** The libusb calls of one search. */
  function SearchCalls(list: DeviceList, vid: u16, pid: u16, serial: string): seq<UsbCall>
  {
    match list
    case ListError => []
    case Listed(devices) =>
      match FirstAccepted(devices, vid, pid, serial, 0)
      case None => [GetDeviceList] + Probes(devices, vid, pid, |devices|) + [FreeDeviceList]
      case Some(k) => [GetDeviceList] + Probes(devices, vid, pid, k) + [OpenDevice(k), ReadSerial(k), FreeDeviceList]
  }

  /** The handle a search returns. */
  function SearchResult(list: DeviceList, vid: u16, pid: u16, serial: string): Option<nat>
  {
    if list.Listed? then FirstAccepted(list.devices, vid, pid, serial, 0) else None
  }

  /** Probing rejected devices leaves nothing held: every handle opened on them is closed. */
  lemma {:induction false} ProbesHoldNothing(devices: seq<Device>, vid: u16, pid: u16, n: nat, r: Resource)
    requires n <= |devices|
    ensures Outstanding(Probes(devices, vid, pid, n), r) == 0
  {
    if n > 0 {
      var d := n - 1;
      ProbesHoldNothing(devices, vid, pid, d, r);
      var tail := if Candidate(devices[d], vid, pid) then [OpenDevice(d), ReadSerial(d), CloseDevice(d)] else [];
      assert Probes(devices, vid, pid, n) == Probes(devices, vid, pid, d) + tail;
      OutstandingConcat(Probes(devices, vid, pid, d), tail, r);
      if Candidate(devices[d], vid, pid) {
        OutstandingOfThree(OpenDevice(d), ReadSerial(d), CloseDevice(d), r);
      }
    }
  }

  /**
   * A search frees the device list it got and leaves at most one handle open,
   * the one it returns; no context, interface or kernel driver is involved.
   */
  lemma SearchHoldsOnlyItsResult(list: DeviceList, vid: u16, pid: u16, serial: string, r: Resource)
    ensures Outstanding(SearchCalls(list, vid, pid, serial), r) ==
            if SearchResult(list, vid, pid, serial).Some? && r == Handle(SearchResult(list, vid, pid, serial).value) then 1 else 0
  {
    if list.Listed? {
      var devices := list.devices;
      var found := FirstAccepted(devices, vid, pid, serial, 0);
      var n := if found.Some? then found.value else |devices|;
      var probes := Probes(devices, vid, pid, n);
      ProbesHoldNothing(devices, vid, pid, n, r);
      var tail := if found.Some? then [OpenDevice(n), ReadSerial(n), FreeDeviceList] else [FreeDeviceList];
      assert SearchCalls(list, vid, pid, serial) == [GetDeviceList] + (probes + tail);
      OutstandingCons(GetDeviceList, probes + tail, r);
      OutstandingConcat(probes, tail, r);
      if found.Some? {
        OutstandingOfThree(OpenDevice(n), ReadSerial(n), FreeDeviceList, r);
      } else {
        OutstandingCons(FreeDeviceList, [], r);
        assert [FreeDeviceList] + [] == [FreeDeviceList];
      }
    }
  }

  /** The serial numbers of the candidates among devices[..n], in enumeration order. */
  function CandidateSerials(devices: seq<Device>, vid: u16, pid: u16, n: nat): seq<string>
    requires n <= |devices|
  {
    if n == 0 then []
    else CandidateSerials(devices, vid, pid, n - 1) +
         (if Candidate(devices[n - 1], vid, pid) then [devices[n - 1].serial] else [])
  }

  /** A serial is listed exactly when some candidate among devices[..n] carries it. */
  lemma {:induction false} CandidateSerialsMembers(devices: seq<Device>, vid: u16, pid: u16, n: nat, serial: string)
    requires n <= |devices|
    ensures serial in CandidateSerials(devices, vid, pid, n) <==>
            exists j :: 0 <= j < n && Accepts(devices[j], vid, pid, serial)
  {
    if n > 0 {
      CandidateSerialsMembers(devices, vid, pid, n - 1, serial);
      if Accepts(devices[n - 1], vid, pid, serial) {
        assert serial in CandidateSerials(devices, vid, pid, n);
      }
    }
  }

  /**
   * Listing and searching agree: a serial is among the candidates' serials
   * exactly when the search for it finds a device.
   */
  lemma ListedSerialsAreFound(devices: seq<Device>, vid: u16, pid: u16, serial: string)
    ensures serial in CandidateSerials(devices, vid, pid, |devices|) <==>
            SearchResult(Listed(devices), vid, pid, serial).Some?
  {
    CandidateSerialsMembers(devices, vid, pid, |devices|, serial);
    var found := FirstAccepted(devices, vid, pid, serial, 0);
    if found.Some? {
      assert Accepts(devices[found.value], vid, pid, serial);
    }
  }

  /** libusb_open_device_with_vid_pid_serial(): the handle is that of a device index, or None for NULL. */
  method OpenDeviceWithVidPidSerial(list: DeviceList, vid: u16, pid: u16, serial: string)
    returns (devhandle: Option<nat>, ghost calls: seq<UsbCall>)
    ensures devhandle == SearchResult(list, vid, pid, serial)
    ensures calls == SearchCalls(list, vid, pid, serial)
  {
    devhandle := None;
    calls := [];
    if list.Listed? {
      var devs := list.devices;
      calls := calls + [GetDeviceList];
      var devcounter := 0;
      while devcounter < |devs|
        invariant 0 <= devcounter <= |devs|
        invariant devhandle == None
        invariant FirstAccepted(devs, vid, pid, serial, 0) == FirstAccepted(devs, vid, pid, serial, devcounter)
        invariant calls == [GetDeviceList] + Probes(devs, vid, pid, devcounter)
      {
        var dev := devs[devcounter];
        devcounter := devcounter + 1;
        if dev.descriptorOk && dev.vid == vid && dev.pid == pid && dev.opens {
          devhandle := Some(devcounter - 1);
          calls := calls + [OpenDevice(devcounter - 1), ReadSerial(devcounter - 1)];
          if dev.serial == serial {
            break;
          } else {
            calls := calls + [CloseDevice(devcounter - 1)];
            devhandle := None;
          }
        }
      }
      calls := calls + [FreeDeviceList];
    }
  }
}
