/** Port selection in `serial_connect` (bojata.py:43-50): the device names
    reported by the system are filtered by COMPORT_PATTERN (bojata.py:29),
    `/dev/ttyACM\d+|COM\d+`, matched at the start of the name, and the first
    survivor is used.  `\d` is taken to be the ASCII digits. */
module Ports {
  import opened Wrappers
  import RgbLine

  /** `name` begins with `prefix` followed by at least one digit. */
  predicate PrefixThenDigit(name: string, prefix: string) {
    |prefix| < |name| && name[..|prefix|] == prefix && RgbLine.IsDigit(name[|prefix|])
  }

  /** `COMPORT_PATTERN.match(name)` succeeds.  Both alternatives need only a
      first digit: `\d+` is satisfied by it and the rest of the name is not
      looked at. */
  predicate PortMatches(name: string) {
    PrefixThenDigit(name, "/dev/ttyACM") || PrefixThenDigit(name, "COM")
  }

  /** How many of `ports` match COMPORT_PATTERN. */
  function CountMatching(ports: seq<string>): (n: nat)
    ensures n <= |ports|
  {
    if ports == [] then 0
    else (if PortMatches(ports[0]) then 1 else 0) + CountMatching(ports[1..])
  }

  /** `[p for p in ports if COMPORT_PATTERN.match(p)]`: one entry per
      matching name (`Ports.MatchingPortsOrder` gives their order). */
  function MatchingPorts(ports: seq<string>): (r: seq<string>)
    ensures |r| == CountMatching(ports)
    ensures forall p :: p in r <==> p in ports && PortMatches(p)
  {
    if ports == [] then []
    else
      var tail := MatchingPorts(ports[1..]);
      assert forall p :: p in ports <==> p == ports[0] || p in ports[1..];
      if PortMatches(ports[0]) then [ports[0]] + tail else tail
  }

  /** The filter keeps listing order and repeats: a matching name at index
      `i` lands at its rank among the matching names before it.  With
      `|MatchingPorts(ports)| == CountMatching(ports)` this fixes the list. */
  lemma {:induction false} MatchingPortsOrder(ports: seq<string>, i: nat)
    requires i < |ports| && PortMatches(ports[i])
    ensures CountMatching(ports[..i]) < |MatchingPorts(ports)|
    ensures MatchingPorts(ports)[CountMatching(ports[..i])] == ports[i]
  {
    if i > 0 {
      MatchingPortsOrder(ports[1..], i - 1);
      assert ports[..i][1..] == ports[1..][..i - 1];
    }
  }

  /** `matching_ports[0]`, or None where `serial_connect` raises
      SerialException("No serial device available"). */
  function SelectPort(ports: seq<string>): (r: Option<string>)
    ensures r.None? <==> forall k :: 0 <= k < |ports| ==> !PortMatches(ports[k])
    ensures r.Some? ==> r.value in ports && PortMatches(r.value)
  {
    var matching := MatchingPorts(ports);
    if matching == [] then None
    else
      assert matching[0] in matching;
      Some(matching[0])
  }

  /** The selected port is the first matching one in enumeration order. */
  lemma {:induction false} SelectPortIsFirst(ports: seq<string>, i: nat)
    requires i < |ports| && PortMatches(ports[i])
    requires forall j :: 0 <= j < i ==> !PortMatches(ports[j])
    ensures SelectPort(ports) == Some(ports[i])
  {
    if i > 0 {
      SelectPortIsFirst(ports[1..], i - 1);
      assert MatchingPorts(ports) == MatchingPorts(ports[1..]);
    }
  }

  /** A port the selection returns sits at some index with no matching port before it. */
  lemma SelectPortHasIndex(ports: seq<string>) returns (i: nat)
    requires SelectPort(ports).Some?
    ensures i < |ports| && ports[i] == SelectPort(ports).value
    ensures forall j :: 0 <= j < i ==> !PortMatches(ports[j])
  {
    var p := SelectPort(ports).value;
    i := 0;
    while ports[i] != p || !PortMatches(ports[i])
      invariant i < |ports|
      invariant p in ports[i..]
      invariant forall j :: 0 <= j < i ==> !PortMatches(ports[j])
      decreases |ports| - i
    {
      if PortMatches(ports[i]) {
        SelectPortIsFirst(ports, i);
        assert false;
      }
      assert ports[i..] == [ports[i]] + ports[i + 1..];
      i := i + 1;
    }
  }

  /** An Arduino on Linux and on Windows are both recognised; other serial
      devices are not, nor a name whose digits are missing. */
  lemma PortExamples()
    ensures PortMatches("/dev/ttyACM0") && PortMatches("COM3") && PortMatches("COM12x")
    ensures !PortMatches("/dev/ttyUSB0") && !PortMatches("/dev/ttyS0") && !PortMatches("COM")
    ensures !PortMatches("xCOM3")
  {
    assert "/dev/ttyACM0"[..11] == "/dev/ttyACM";
    assert "COM3"[..3] == "COM";
    assert "COM12x"[..3] == "COM";
    assert "/dev/ttyUSB0"[..11][8] != "/dev/ttyACM"[8];
    assert "/dev/ttyUSB0"[..3][0] != "COM"[0] && "/dev/ttyS0"[..3][0] != "COM"[0];
    assert "xCOM3"[..3][0] != "COM"[0];
  }

  /** With a serial console first, the Arduino behind it is chosen. */
  lemma SelectPortExample()
    ensures SelectPort(["/dev/ttyS0", "/dev/ttyACM1", "COM3"]) == Some("/dev/ttyACM1")
  {
    var ports := ["/dev/ttyS0", "/dev/ttyACM1", "COM3"];
    PortExamples();
    assert "/dev/ttyACM1"[..11] == "/dev/ttyACM";
    assert !PortMatches(ports[0]);
    SelectPortIsFirst(ports, 1);
  }
}
