/** Discovered BLE devices as the scan screen sees them: a hardware address
    and the name the device advertised, if any. */
module Devices {

  datatype Option<+T> = None | Some(value: T)

  /** A scanned peripheral. The address is the deduplication key; the name is
      whatever the first accepted advertisement carried. */
  datatype Device = Device(address: string, name: Option<string>)

  /** Label shown on a device card when the device did not advertise a name. */
  const UnknownName: string := "Nom inconnu"

  /** The name shown on a device card (and handed to the device screen):
      the advertised name when there is one, the fixed fallback otherwise. */
  function DisplayName(d: Device): (s: string)
    ensures d.name.Some? ==> s == d.name.value
    ensures d.name.None? ==> s == UnknownName
  {
    match d.name
    case Some(n) => n
    case None => UnknownName
  }

  /** The addresses of a list of devices, position by position. */
  function Addresses(ds: seq<Device>): (r: seq<string>)
  {
    seq(|ds|, i requires 0 <= i < |ds| => ds[i].address)
  }

  /** No value occurs twice in `s`. */
  predicate NoDuplicates<T(==)>(s: seq<T>)
  {
    forall i, j :: 0 <= i < j < |s| ==> s[i] != s[j]
  }

  /** Appending a device appends its address. */
  lemma AddressesAppend(ds: seq<Device>, d: Device)
    ensures Addresses(ds + [d]) == Addresses(ds) + [d.address]
  {
  }

  /** A list without duplicates has as many distinct values as entries. */
  lemma {:induction false} DistinctCount<T>(s: seq<T>)
    requires NoDuplicates(s)
    ensures |set x | x in s| == |s|
  {
    if s != [] {
      var last := s[|s| - 1];
      var init := s[..|s| - 1];
      DistinctCount(init);
      assert s == init + [last];
      assert last !in init;
      assert (set x | x in s) == (set x | x in init) + {last};
    }
  }
}
