/** `dhcp_ack_callback` (bridge_monitor.py:215-243) and the session state it
    updates: `seen_assignments`, `recent_packets` and the two append-only
    logs, with the notifier that owns the console and the display buffer.

    Capture sessions are left out: the callback is modelled as one call per
    captured frame, in arrival order. The clock reading and the outcome of
    the two file writes are parameters. */
module Monitor {
  import opened Text
  import opened MacAddress
  import opened Dhcp
  import opened Ledger
  import opened Oled

  /** How the two appends of :237-241 turn out. The first failing `open`
      raises, so a failure of the first log also skips the second. */
  datatype LogFault = NoFault | DeviceLogFails(reason: string) | AssignmentsLogFails(reason: string)

  /** The message of :243 for a failed write. */
  function LogErrorMessage(reason: string): string
  {
    "Error writing to log: " + reason
  }

  class Monitor {
    const notifier: Notifier
    /** `seen_assignments` */
    var seen: Assignments
    /** `recent_packets`: signature to the time it was last seen; written, never read. */
    var recent: map<string, string>
    /** Lines appended to LOG_FILE (:40). */
    var deviceLog: seq<string>
    /** Lines appended to ASSIGNMENTS_LOG_FILE (:41). */
    var assignmentsLog: seq<string>

    ghost predicate Valid()
      reads this, notifier
    {
      notifier.Valid()
    }

    /** A fresh process: nothing seen, nothing logged in this session, no display. */
    constructor ()
      ensures Valid() && fresh(notifier)
      ensures seen == map[] && recent == map[] && deviceLog == [] && assignmentsLog == []
      ensures !notifier.active && notifier.lines == [] && notifier.console == []
    {
      var n := new Notifier();
      notifier := n;
      seen := map[];
      recent := map[];
      deviceLog := [];
      assignmentsLog := [];
    }

    /** `dhcp_ack_callback(packet, iface)` with the clock reading `timestamp`
        and the outcome `fault` of the log writes.

        A frame that is not a DHCPACK, or that assigns 0.0.0.0, changes
        nothing. Otherwise the assignment message is printed, whether or not
        the pair is new; the record is updated, and one record line goes to
        each log, only when the MAC is new or its address changed. A failed
        write is reported with a second MultiPrint. */
    method DhcpAckCallback(packet: Packet, iface: string, timestamp: string, fault: LogFault)
      requires Valid()
      modifies this, notifier
      ensures Valid()
      ensures notifier.active == old(notifier.active)
      ensures !IsAssignment(packet) ==>
        && seen == old(seen) && recent == old(recent)
        && deviceLog == old(deviceLog) && assignmentsLog == old(assignmentsLog)
        && notifier.console == old(notifier.console) && notifier.lines == old(notifier.lines)
      ensures IsAssignment(packet) ==>
        var mac, ip := FormatMac(packet.chaddr), packet.yiaddr;
        var logged := Decide(old(seen), mac, ip) != Unchanged;
        var line := LogLine(timestamp, mac, ip, iface);
        var shown := AssignmentMessage(Assignment(iface, mac, ip));
        var displayOn := EnableOled && old(notifier.active);
        var afterShown := Shown(old(notifier.lines), displayOn, shown);
        && seen == Record(old(seen), mac, ip)
        && recent == old(recent)[Signature(packet).value := timestamp]
        && deviceLog == old(deviceLog) + (if logged && !fault.DeviceLogFails? then [line] else [])
        && assignmentsLog == old(assignmentsLog) + (if logged && fault.NoFault? then [line] else [])
        && (!logged || fault.NoFault? ==>
              notifier.console == old(notifier.console) + [Notice(true, shown)]
              && notifier.lines == afterShown)
        && (logged && !fault.NoFault? ==>
              notifier.console == old(notifier.console) + [Notice(true, shown), Notice(false, LogErrorMessage(fault.reason))]
              && notifier.lines == Shown(afterShown, displayOn, LogErrorMessage(fault.reason)))
    {
      if packet.hasDhcp && packet.firstOptionValue == DhcpAck {
        var clientMac := packet.chaddr;
        var assignedIp := packet.yiaddr;
        if assignedIp != Unassigned {
          var formattedMac := FormatMac(clientMac);
          var packetSig := Signature(packet);
          recent := recent[packetSig.value := timestamp];
          notifier.MultiPrint(AssignmentMessage(Assignment(iface, formattedMac, assignedIp)), true);
          LogAssignment(formattedMac, assignedIp, iface, timestamp, fault);
        }
      }
    }

    /** The ledger step of :234-243: for a new MAC or a changed address, the
        record is updated and one line is appended to each log; a failed
        write is reported. A repeated pair changes nothing here. */
    method LogAssignment(mac: string, ip: string, iface: string, timestamp: string, fault: LogFault)
      requires Valid()
      modifies this, notifier
      ensures Valid() && notifier.active == old(notifier.active) && recent == old(recent)
      ensures seen == Record(old(seen), mac, ip)
      ensures var logged := Decide(old(seen), mac, ip) != Unchanged;
        var line := LogLine(timestamp, mac, ip, iface);
        && deviceLog == old(deviceLog) + (if logged && !fault.DeviceLogFails? then [line] else [])
        && assignmentsLog == old(assignmentsLog) + (if logged && fault.NoFault? then [line] else [])
        && (logged && !fault.NoFault? ==>
              notifier.console == old(notifier.console) + [Notice(false, LogErrorMessage(fault.reason))]
              && notifier.lines == Shown(old(notifier.lines), EnableOled && old(notifier.active), LogErrorMessage(fault.reason)))
        && (!logged || fault.NoFault? ==>
              notifier.console == old(notifier.console) && notifier.lines == old(notifier.lines))
    {
      if mac !in seen || seen[mac] != ip {
        seen := seen[mac := ip];
        match fault
        case NoFault =>
          deviceLog := deviceLog + [LogLine(timestamp, mac, ip, iface)];
          assignmentsLog := assignmentsLog + [LogLine(timestamp, mac, ip, iface)];
        case DeviceLogFails(reason) =>
          notifier.MultiPrint(LogErrorMessage(reason), false);
        case AssignmentsLogFails(reason) =>
          deviceLog := deviceLog + [LogLine(timestamp, mac, ip, iface)];
          notifier.MultiPrint(LogErrorMessage(reason), false);
      }
    }
  }

  /** The same accepted DHCPACK twice in a row: the record and both logs end
      as the first call left them, whatever the second call's clock reading
      or write outcome, yet the second call still prints the assignment. */
  method RepeatedAck(m: Monitor, packet: Packet, iface: string, t1: string, t2: string, f1: LogFault, f2: LogFault)
    requires m.Valid() && IsAssignment(packet)
    modifies m, m.notifier
    ensures m.Valid()
    ensures var mac, ip := FormatMac(packet.chaddr), packet.yiaddr;
      var logged := Decide(old(m.seen), mac, ip) != Unchanged;
      var line := LogLine(t1, mac, ip, iface);
      && m.seen == Record(old(m.seen), mac, ip)
      && m.deviceLog == old(m.deviceLog) + (if logged && !f1.DeviceLogFails? then [line] else [])
      && m.assignmentsLog == old(m.assignmentsLog) + (if logged && f1.NoFault? then [line] else [])
      && |m.notifier.console| >= |old(m.notifier.console)| + 2
      && m.notifier.console[|m.notifier.console| - 1] == Notice(true, AssignmentMessage(Assignment(iface, mac, ip)))
  {
    m.DhcpAckCallback(packet, iface, t1, f1);
    RecordIdempotent(old(m.seen), FormatMac(packet.chaddr), packet.yiaddr);
    m.DhcpAckCallback(packet, iface, t2, f2);
  }

  /** An accepted DHCPACK shows as the interface label and the MAC on the
      display: the message the callback builds parses back to its parts. */
  lemma AcceptedAckDisplay(packet: Packet, iface: string)
    requires IsAssignment(packet) && |packet.chaddr| > 0
    requires iface != "" && ')' !in iface
    requires packet.yiaddr != "" && forall i :: 0 <= i < |packet.yiaddr| ==> IsIpChar(packet.yiaddr[i])
    ensures var mac := FormatMac(packet.chaddr);
      NewLines(AssignmentMessage(Assignment(iface, mac, packet.yiaddr))) == [Label(iface, packet.yiaddr), "MAC: " + mac]
  {
    AssignmentLines(Assignment(iface, FormatMac(packet.chaddr), packet.yiaddr));
  }
}
