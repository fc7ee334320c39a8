/**
 * Choosing the serial port the printer is on (`findCommPort`).  The ports the
 * RXTX library reports are given as a sequence of records, in the order its
 * enumeration yields them; `getPortIdentifier(name)` is a lookup by name in
 * that sequence.  A suggested port that exists and is serial is taken as is;
 * otherwise the first serial port nobody owns is taken, except that, as
 * written, a suggested port that exists but is not serial is kept and
 * returned (`SelectPort`); `SelectSerialPort` is the selection the message at
 * that point announces.
 */
module CommPort {
  import opened Wrappers

  /** A port identifier: its name, whether it is a serial port, whether another program owns it. */
  datatype Port = Port(name: string, isSerial: bool, isOwned: bool)

  /** `CommPortIdentifier.getPortIdentifier(name)`; None where it throws NoSuchPortException. */
  function Lookup(ports: seq<Port>, name: string): (r: Option<Port>)
    ensures r.Some? ==> r.value in ports && r.value.name == name
    ensures r.None? <==> forall k :: 0 <= k < |ports| ==> ports[k].name != name
    decreases |ports|
  {
    if ports == [] then None
    else if ports[0].name == name then Some(ports[0])
    else Lookup(ports[1..], name)
  }

  predicate IsFree(p: Port) {
    p.isSerial && !p.isOwned
  }

  /** The first serial port nobody owns, in enumeration order. */
  function FirstFreeSerial(ports: seq<Port>): (r: Option<Port>)
    ensures r.None? <==> forall k :: 0 <= k < |ports| ==> !IsFree(ports[k])
    ensures r.Some? ==> exists k :: (0 <= k < |ports| && ports[k] == r.value && IsFree(r.value) &&
      forall j :: 0 <= j < k ==> !IsFree(ports[j]))
    decreases |ports|
  {
    if ports == [] then None
    else if IsFree(ports[0]) then
      assert ports[0] == ports[0];
      Some(ports[0])
    else
      var r := FirstFreeSerial(ports[1..]);
      if r.Some? then
        var k :| 0 <= k < |ports[1..]| && ports[1..][k] == r.value && IsFree(r.value) &&
          forall j :: 0 <= j < k ==> !IsFree(ports[1..][j]);
        assert ports[k + 1] == r.value;
        assert forall j :: 0 <= j < k + 1 ==> !IsFree(ports[j]) by {
          forall j | 0 <= j < k + 1 ensures !IsFree(ports[j]) {
            if j > 0 {
              assert ports[j] == ports[1..][j - 1];
            }
          }
        }
        r
      else
        assert forall k :: 0 <= k < |ports| ==> !IsFree(ports[k]) by {
          forall k | 0 <= k < |ports| ensures !IsFree(ports[k]) {
            if k > 0 {
              assert ports[k] == ports[1..][k - 1];
            }
          }
        }
        r
  }

  /** The suggested port, if a suggestion is given and names a port that exists. */
  function Suggested(ports: seq<Port>, suggestion: Option<string>): Option<Port> {
    if suggestion.Some? then Lookup(ports, suggestion.value) else None
  }

  /**
   * What `findCommPort` returns as written: the suggested port whenever it
   * exists, serial or not (a non-serial one is kept in `foundIdentifier`, and
   * the scan only fills an empty slot), otherwise the first free serial port.
   */
  function SelectPort(ports: seq<Port>, suggestion: Option<string>): Option<Port> {
    if Suggested(ports, suggestion).Some? then Suggested(ports, suggestion) else FirstFreeSerial(ports)
  }

  /** What the message for a non-serial suggestion announces: fall back to the scan. */
  function SelectSerialPort(ports: seq<Port>, suggestion: Option<string>): Option<Port> {
    var s := Suggested(ports, suggestion);
    if s.Some? && s.value.isSerial then s else FirstFreeSerial(ports)
  }

  /** A free port with no free port before it is the one the scan picks. */
  lemma {:induction false} FirstFreeUnique(ports: seq<Port>, k: nat)
    requires k < |ports| && IsFree(ports[k])
    requires forall j :: 0 <= j < k ==> !IsFree(ports[j])
    ensures FirstFreeSerial(ports) == Some(ports[k])
    decreases k
  {
    if k > 0 {
      assert !IsFree(ports[0]);
      var rest := ports[1..];
      assert rest[k - 1] == ports[k];
      assert forall j :: 0 <= j < k - 1 ==> rest[j] == ports[j + 1];
      FirstFreeUnique(rest, k - 1);
    }
  }

  lemma FirstFreeSerialSnoc(ports: seq<Port>, i: nat)
    requires i < |ports|
    ensures FirstFreeSerial(ports[..i + 1]) ==
      if FirstFreeSerial(ports[..i]).Some? then FirstFreeSerial(ports[..i])
      else if IsFree(ports[i]) then Some(ports[i]) else None
  {
    var pre := ports[..i];
    var ext := ports[..i + 1];
    assert forall j :: 0 <= j < i ==> ext[j] == pre[j];
    assert ext[i] == ports[i];
    var a := FirstFreeSerial(pre);
    if a.Some? {
      var k :| 0 <= k < i && pre[k] == a.value && IsFree(a.value) &&
        forall j :: 0 <= j < k ==> !IsFree(pre[j]);
      FirstFreeUnique(ext, k);
    } else if IsFree(ports[i]) {
      FirstFreeUnique(ext, i);
    } else {
      assert forall j :: 0 <= j < i + 1 ==> !IsFree(ext[j]);
    }
  }

  /**
   * The enumeration loop: the first serial port nobody owns fills `found` if it
   * is still empty; owned ports and later free ports are only reported.
   */
  method ScanPorts(ports: seq<Port>, found0: Option<Port>) returns (found: Option<Port>)
    ensures found == if found0.Some? then found0 else FirstFreeSerial(ports)
  {
    found := found0;
    var i := 0;
    assert ports[..0] == [];
    while i < |ports|
      invariant 0 <= i <= |ports|
      invariant found == if found0.Some? then found0 else FirstFreeSerial(ports[..i])
    {
      var ident := ports[i];
      FirstFreeSerialSnoc(ports, i);
      if ident.isSerial {
        if ident.isOwned {
          // owned by another program: reported and skipped
        } else if found.None? {
          found := Some(ident);
        } else {
          // another free serial port: reported and left alone
        }
      }
      i := i + 1;
    }
    assert ports[..i] == ports;
  }

  /** `findCommPort(suggestion)` over the ports the library reports; None is a null result. */
  method FindCommPort(ports: seq<Port>, suggestion: Option<string>) returns (found: Option<Port>)
    ensures found == SelectPort(ports, suggestion)
  {
    found := None;
    if suggestion.Some? {
      found := Lookup(ports, suggestion.value);
      if found.Some? && found.value.isSerial {
        return;
      }
    }
    found := ScanPorts(ports, found);
  }

  /** `findCommPort` as its message for a non-serial suggestion describes it: that port is dropped before the scan. */
  method FindSerialCommPort(ports: seq<Port>, suggestion: Option<string>) returns (found: Option<Port>)
    ensures found == SelectSerialPort(ports, suggestion)
  {
    found := None;
    if suggestion.Some? {
      found := Lookup(ports, suggestion.value);
      if found.Some? && found.value.isSerial {
        return;
      }
    }
    found := ScanPorts(ports, None);
  }

  // ---------------------------------------------------------------------------
  // Properties of the selection

  /** A suggestion that names an existing serial port is returned, whether or not it is owned. */
  lemma SerialSuggestionWins(ports: seq<Port>, name: string)
    requires Lookup(ports, name).Some? && Lookup(ports, name).value.isSerial
    ensures SelectPort(ports, Some(name)) == Lookup(ports, name)
    ensures SelectSerialPort(ports, Some(name)) == Lookup(ports, name)
  {
  }

  /**
   * Without a usable suggestion the result is the first serial port nobody owns,
   * and there is a result exactly when such a port exists.
   */
  lemma ScanFindsFirstFree(ports: seq<Port>, suggestion: Option<string>)
    requires Suggested(ports, suggestion).None?
    ensures var r := SelectPort(ports, suggestion);
      && (r.Some? <==> exists k :: 0 <= k < |ports| && IsFree(ports[k]))
      && (r.Some? ==> IsFree(r.value) && exists k :: (0 <= k < |ports| && ports[k] == r.value &&
            forall j :: 0 <= j < k ==> !IsFree(ports[j])))
  {
  }

  /** As written, a suggestion naming a non-serial port is returned although a free serial port exists. */
  lemma NonSerialSuggestionReturned()
    ensures var ports := [Port("LPT1", false, false), Port("COM1", true, false)];
      && SelectPort(ports, Some("LPT1")) == Some(Port("LPT1", false, false))
      && SelectSerialPort(ports, Some("LPT1")) == Some(Port("COM1", true, false))
  {
    var ports := [Port("LPT1", false, false), Port("COM1", true, false)];
    assert Lookup(ports, "LPT1") == Some(ports[0]);
    assert !IsFree(ports[0]) && IsFree(ports[1]);
    assert FirstFreeSerial(ports[1..]) == Some(ports[1]);
  }

  /** The corrected selection only ever returns a serial port, and agrees with the written one elsewhere. */
  lemma SelectSerialPortIsSerial(ports: seq<Port>, suggestion: Option<string>)
    ensures var r := SelectSerialPort(ports, suggestion);
      && (r.Some? ==> r.value.isSerial && r.value in ports)
      && (r.None? <==>
            (Suggested(ports, suggestion).None? || !Suggested(ports, suggestion).value.isSerial) &&
            (forall k :: 0 <= k < |ports| ==> !IsFree(ports[k])))
    ensures Suggested(ports, suggestion).None? || Suggested(ports, suggestion).value.isSerial ==>
      SelectSerialPort(ports, suggestion) == SelectPort(ports, suggestion)
  {
    var r := SelectSerialPort(ports, suggestion);
    var s := Suggested(ports, suggestion);
    if !(s.Some? && s.value.isSerial) && r.Some? {
      var k :| 0 <= k < |ports| && ports[k] == r.value && IsFree(r.value) &&
        forall j :: 0 <= j < k ==> !IsFree(ports[j]);
    }
  }
}
