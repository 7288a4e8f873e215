/** The scan screen's session state, updated in place by the start/stop button
    and by the scan callbacks. Each method is proved to perform the matching
    transition of module SessionSpec, so the lemmas there (invariant, only
    appending, first sighting wins) carry over to every run of the screen. */
module ScanScreen {
  import opened Devices
  import opened SessionSpec

  class Session {
    /** Devices found in this scan, in discovery order. */
    var devices: seq<Device>
    /** Addresses already admitted, kept in step with `devices`. */
    var seenAddresses: seq<string>
    var isScanning: bool

    /** The session as a value. */
    ghost function State(): SessionState
      reads this
    {
      SessionState(devices, seenAddresses, isScanning)
    }

    ghost predicate Valid()
      reads this
    {
      Inv(State())
    }

    /** The screen starts idle with both lists empty. */
    constructor ()
      ensures Valid()
      ensures State() == Initial
    {
      devices := [];
      seenAddresses := [];
      isScanning := false;
    }

    /** The number shown in the "devices found" heading: the number of
        distinct addresses admitted (SessionSpec.CountSinceStart relates it
        to the addresses sighted since the last start). */
    function Count(): (n: nat)
      reads this
      requires Valid()
      ensures n == |seenAddresses|
      ensures n == |set a | a in seenAddresses|
    {
      DistinctCount(seenAddresses);
      |devices|
    }

    /** The start/stop button. While scanning it issues a stop request and
        clears the flag, keeping the list on screen; otherwise it empties both
        lists, registers a new scan and sets the flag. The stop request names
        a fresh callback object, not the registered one, so results keep
        arriving after it. */
    method PressButton()
      requires Valid()
      modifies this
      ensures Valid()
      ensures State() == Press(old(State()))
      ensures isScanning == !old(isScanning)
      ensures old(isScanning) ==> devices == old(devices) && seenAddresses == old(seenAddresses)
      ensures !old(isScanning) ==> devices == [] && seenAddresses == []
    {
      if isScanning {
        isScanning := false;
      } else {
        devices := [];
        seenAddresses := [];
        isScanning := true;
      }
    }

    /** One scan result: appended, with its address, unless its address has
        been seen already. The flag is not consulted, so a result delivered
        after a stop is admitted too. */
    method OnScanResult(device: Device)
      requires Valid()
      modifies this
      ensures Valid()
      ensures State() == Admit(old(State()), device)
      ensures device.address in old(seenAddresses) ==>
                devices == old(devices) && seenAddresses == old(seenAddresses)
      ensures device.address !in old(seenAddresses) ==>
                devices == old(devices) + [device] && seenAddresses == old(seenAddresses) + [device.address]
      ensures isScanning == old(isScanning)
    {
      if device.address !in seenAddresses {
        AddressesAppend(devices, device);
        seenAddresses := seenAddresses + [device.address];
        devices := devices + [device];
      }
    }

    /** A batch of scan results, each handled as a single result, in order. */
    method OnBatchScanResults(results: seq<Device>)
      requires Valid()
      modifies this
      ensures Valid()
      ensures State() == AdmitAll(old(State()), results)
      ensures old(devices) <= devices && old(seenAddresses) <= seenAddresses
      ensures isScanning == old(isScanning)
    {
      for i := 0 to |results|
        invariant Valid()
        invariant State() == AdmitAll(old(State()), results[..i])
      {
        AdmitAllSnoc(old(State()), results[..i], results[i]);
        assert results[..i + 1] == results[..i] + [results[i]];
        var device := results[i];
        if device.address !in seenAddresses {
          AddressesAppend(devices, device);
          seenAddresses := seenAddresses + [device.address];
          devices := devices + [device];
        }
      }
      assert results[..|results|] == results;
      AdmitAllOnlyAppends(old(State()), results);
    }

    /** The 10-second timer: it only issues the same stop request as the
        button, so the lists and the scanning flag are left as they are. */
    method AutoStop()
      requires Valid()
      ensures Valid()
      ensures State() == Step(old(State()), Event.AutoStop)
    {
    }
  }
}
