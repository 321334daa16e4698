/** What the monitor reads of a captured frame, and the values it derives
    from it: the DHCPACK test (bridge_monitor.py:209, :217-220), the packet
    signature (`get_packet_signature`, :207-213) and the CSV record written
    to both logs (:239, :241). */
module Dhcp {
  import opened Text
  import opened MacAddress

  /** Value of the DHCP message-type option (option 53) for DHCPACK,
      section 9.6 of RFC 2132. */
  const DhcpAck: int := 5

  /** The `yiaddr` of a reply that assigns no address. */
  const Unassigned: string := "0.0.0.0"

  /** The fields of a captured frame the callback reads: whether it has a
      DHCP layer, the value of its first DHCP option, and the BOOTP
      `chaddr` and `yiaddr` fields. */
  datatype Packet = Packet(hasDhcp: bool, firstOptionValue: int, chaddr: seq<byte>, yiaddr: string)

  /** A DHCP layer whose first option carries the value 5 (:209, :217). */
  predicate IsAck(p: Packet)
  {
    p.hasDhcp && p.firstOptionValue == DhcpAck
  }

  /** The packets `dhcp_ack_callback` acts on: a DHCPACK that assigns an address. */
  predicate IsAssignment(p: Packet)
  {
    IsAck(p) && p.yiaddr != Unassigned
  }

  /** `get_packet_signature`: "mac_ip" for a DHCPACK, None otherwise.
      Unlike the callback it does not look at `yiaddr`. */
  function Signature(p: Packet): (sig: Option<string>)
    ensures sig.Some? <==> IsAck(p)
    ensures sig.Some? ==> StartsWith(sig.value, FormatMac(p.chaddr) + "_")
    ensures sig.Some? ==> |sig.value| == |FormatMac(p.chaddr)| + 1 + |p.yiaddr|
  {
    if IsAck(p) then Some(FormatMac(p.chaddr) + "_" + p.yiaddr) else None
  }

  /** Reads a signature back: the text before the first '_' is the MAC and
      the text after it the address. */
  function ParseSignature(sig: string): Option<(string, string)>
  {
    var n := Span(sig, c => c != '_');
    if n == |sig| then None else Some((sig[..n], sig[n + 1..]))
  }

  /** The rendered MAC has no '_', so a signature determines the (MAC,
      address) pair it was built from. */
  lemma SignatureRoundTrip(p: Packet)
    requires IsAck(p)
    ensures ParseSignature(Signature(p).value) == Some((FormatMac(p.chaddr), p.yiaddr))
  {
    var mac := FormatMac(p.chaddr);
    var sig := mac + "_" + p.yiaddr;
    assert forall i :: 0 <= i < |mac| ==> sig[i] == mac[i] && IsMacChar(mac[i]);
    SpanExact(sig, c => c != '_', |mac|);
    assert sig[..|mac|] == mac;
    assert sig[|mac| + 1..] == p.yiaddr;
  }

  /** Two DHCPACKs share a signature exactly when they render the same MAC
      and carry the same `yiaddr`. */
  lemma SignatureInjective(p: Packet, q: Packet)
    requires IsAck(p) && IsAck(q)
    ensures Signature(p) == Signature(q) <==> FormatMac(p.chaddr) == FormatMac(q.chaddr) && p.yiaddr == q.yiaddr
  {
    SignatureRoundTrip(p);
    SignatureRoundTrip(q);
  }

  /** The record appended to each log: `timestamp,mac,ip,DHCP,interface` and
      a newline. */
  function LogLine(timestamp: string, mac: string, ip: string, iface: string): (line: string)
    ensures |line| > 0 && line[|line| - 1] == '\n'
  {
    timestamp + "," + mac + "," + ip + ",DHCP," + iface + "\n"
  }

  /** The record reads back as its five comma-separated fields when none of
      them holds a comma. */
  lemma LogLineFields(timestamp: string, mac: string, ip: string, iface: string)
    requires ',' !in timestamp && ',' !in mac && ',' !in ip && ',' !in iface
    ensures var line := LogLine(timestamp, mac, ip, iface);
      Split(line[..|line| - 1], ',') == [timestamp, mac, ip, "DHCP", iface]
  {
    var fields := [timestamp, mac, ip, "DHCP", iface];
    var line := LogLine(timestamp, mac, ip, iface);
    assert Join(fields[4..], ',') == iface;
    assert Join(fields[3..], ',') == "DHCP" + [','] + iface;
    assert Join(fields[2..], ',') == ip + [','] + Join(fields[3..], ',');
    assert Join(fields[1..], ',') == mac + [','] + Join(fields[2..], ',');
    assert Join(fields, ',') == timestamp + [','] + Join(fields[1..], ',');
    assert line[..|line| - 1] == Join(fields, ',');
    SplitJoin(fields, ',');
  }
}
