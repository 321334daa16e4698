/** The notifier `MultiPrint` (bridge_monitor.py:153-201) and the rolling
    line buffer `oled_lines` it keeps for the small display, seeded by
    `OLEDInit` (:74-114) and closed by `OLEDDeInit` (:116-129).

    Every message goes to the console. When the display is up, the message
    also becomes display lines: an assignment message (the text built at
    :232) becomes a label line chosen by interface name and a "MAC: " line;
    any other message becomes its newline-separated lines cut to 21
    characters: all of them when it mentions "DHCP ASSIGNMENT", the first two
    otherwise. The new lines are appended and the buffer cut back to its last
    five entries. */
module Oled {
  import opened Text
  import opened MacAddress
  import opened Startup

  /** ENABLE_OLED (:24). */
  const EnableOled: bool := true
  /** OLED_MAX_LINES (:54). */
  const MaxLines: nat := 5
  /** OLED_CHAR_WIDTH (:58). */
  const CharWidth: nat := 21

  /** The substring test of :169. */
  const Marker: string := "DHCP ASSIGNMENT"
  const MessagePrefix: string := Marker + " ("
  const Arrow: string := " \U{2192} "

  /** The three groups of the assignment message: interface, MAC, address. */
  datatype Assignment = Assignment(iface: string, mac: string, ip: string)

  /** The message `dhcp_ack_callback` hands to MultiPrint (:232). */
  function AssignmentMessage(a: Assignment): string
  {
    MessagePrefix + a.iface + "): " + a.mac + Arrow + a.ip
  }

  /** `[^)]` */
  predicate IsIfaceChar(c: char)
  {
    c != ')'
  }

  /** `[0-9.]` */
  predicate IsIpChar(c: char)
  {
    '0' <= c <= '9' || c == '.'
  }

  /** The groups are nonempty runs of `[^)]`, `[0-9a-f:]` and `[0-9.]`. */
  predicate WellFormed(a: Assignment)
  {
    && |a.iface| > 0 && (forall i :: 0 <= i < |a.iface| ==> IsIfaceChar(a.iface[i]))
    && |a.mac| > 0 && (forall i :: 0 <= i < |a.mac| ==> IsMacChar(a.mac[i]))
    && |a.ip| > 0 && (forall i :: 0 <= i < |a.ip| ==> IsIpChar(a.ip[i]))
  }

  /** One literal step of the match: s must start with lit; the rest follows. */
  function Expect(s: string, lit: string): (rest: Option<string>)
    ensures rest.Some? <==> StartsWith(s, lit)
    ensures rest.Some? ==> s == lit + rest.value
  {
    if StartsWith(s, lit) then
      assert s == s[..|lit|] + s[|lit|..];
      Some(s[|lit|..])
    else None
  }

  lemma ExpectConcat(lit: string, t: string)
    ensures Expect(lit + t, lit) == Some(t)
  {
    assert (lit + t)[..|lit|] == lit;
  }

  /** One greedy group `[class]+`: the maximal nonempty run of class
      characters, and what follows it. */
  function Group(s: string, accepts: char -> bool): (r: Option<(string, string)>)
    ensures r.Some? ==> s == r.value.0 + r.value.1 && |r.value.0| > 0
    ensures r.Some? ==> forall i :: 0 <= i < |r.value.0| ==> accepts(r.value.0[i])
    ensures r.Some? ==> r.value.1 == "" || !accepts(r.value.1[0])
  {
    var n := Span(s, accepts);
    if n == 0 then None
    else
      assert s == s[..n] + s[n..];
      Some((s[..n], s[n..]))
  }

  lemma GroupConcat(g: string, t: string, accepts: char -> bool)
    requires |g| > 0 && forall i :: 0 <= i < |g| ==> accepts(g[i])
    requires t == "" || !accepts(t[0])
    ensures Group(g + t, accepts) == Some((g, t))
  {
    SpanExact(g + t, accepts, |g|);
    assert (g + t)[..|g|] == g;
    assert (g + t)[|g|..] == t;
  }

  /** The regular-expression match of bridge_monitor.py:171, anchored at the
      start: the prefix, an interface group of characters other than ')',
      "): ", a MAC group of `[0-9a-f:]`, the arrow, an address group of
      `[0-9.]`. Each greedy class excludes the character that must follow it (')',
      ' ', and nothing), so giving back characters never helps and the
      match is the maximal run of each class. The result carries the groups and the unmatched rest. */
  function MatchAssignment(msg: string): Option<(Assignment, string)>
  {
    match Expect(msg, MessagePrefix)
    case None => None
    case Some(s1) => MatchIface(s1)
  }

  /** The match from the interface group on. */
  function MatchIface(s1: string): Option<(Assignment, string)>
  {
    match Group(s1, IsIfaceChar)
    case None => None
    case Some((iface, r1)) =>
      match Expect(r1, "): ")
      case None => None
      case Some(s2) =>
        match MatchMac(s2)
        case None => None
        case Some((mac, ip, tail)) => Some((Assignment(iface, mac, ip), tail))
  }

  /** The match from the MAC group on: MAC group, arrow, address group. */
  function MatchMac(s2: string): Option<(string, string, string)>
  {
    match Group(s2, IsMacChar)
    case None => None
    case Some((mac, r2)) =>
      match Expect(r2, Arrow)
      case None => None
      case Some(s3) =>
        match Group(s3, IsIpChar)
        case None => None
        case Some((ip, tail)) => Some((mac, ip, tail))
  }

  lemma MatchMacSound(s2: string)
    requires MatchMac(s2).Some?
    ensures var (mac, ip, tail) := MatchMac(s2).value;
      && s2 == mac + (Arrow + (ip + tail))
      && |mac| > 0 && (forall i :: 0 <= i < |mac| ==> IsMacChar(mac[i]))
      && |ip| > 0 && (forall i :: 0 <= i < |ip| ==> IsIpChar(ip[i]))
      && (tail == "" || !IsIpChar(tail[0]))
  {
  }

  lemma MatchIfaceSound(s1: string)
    requires MatchIface(s1).Some?
    ensures var (a, tail) := MatchIface(s1).value;
      WellFormed(a) && s1 == a.iface + ("): " + (a.mac + (Arrow + (a.ip + tail))))
      && (tail == "" || !IsIpChar(tail[0]))
  {
    var (iface, r1) := Group(s1, IsIfaceChar).value;
    var s2 := Expect(r1, "): ").value;
    MatchMacSound(s2);
  }

  /** A match is the message built from the groups, followed by text that does
      not extend the address. */
  lemma MatchAssignmentSound(msg: string)
    requires MatchAssignment(msg).Some?
    ensures var (a, tail) := MatchAssignment(msg).value;
      WellFormed(a) && msg == AssignmentMessage(a) + tail && (tail == "" || !IsIpChar(tail[0]))
  {
    var s1 := Expect(msg, MessagePrefix).value;
    MatchIfaceSound(s1);
    var (a, tail) := MatchIface(s1).value;
    ConcatSix(MessagePrefix, a.iface, "): ", a.mac, Arrow, a.ip, tail);
  }

  lemma ConcatSix(a: string, b: string, c: string, d: string, e: string, f: string, g: string)
    ensures a + (b + (c + (d + (e + (f + g))))) == a + b + c + d + e + f + g
  {
  }

  lemma MatchMacComplete(a: Assignment, tail: string)
    requires WellFormed(a)
    requires tail == "" || !IsIpChar(tail[0])
    ensures MatchMac(a.mac + (Arrow + (a.ip + tail))) == Some((a.mac, a.ip, tail))
  {
    GroupConcat(a.mac, Arrow + (a.ip + tail), IsMacChar);
    ExpectConcat(Arrow, a.ip + tail);
    GroupConcat(a.ip, tail, IsIpChar);
  }

  lemma MatchIfaceComplete(a: Assignment, tail: string)
    requires WellFormed(a)
    requires tail == "" || !IsIpChar(tail[0])
    ensures MatchIface(a.iface + ("): " + (a.mac + (Arrow + (a.ip + tail))))) == Some((a, tail))
  {
    var s2 := a.mac + (Arrow + (a.ip + tail));
    GroupConcat(a.iface, "): " + s2, IsIfaceChar);
    ExpectConcat("): ", s2);
    MatchMacComplete(a, tail);
  }

  /** Every well-formed assignment message, followed by anything that does not
      extend the address, matches with exactly its groups. */
  lemma MatchAssignmentComplete(a: Assignment, tail: string)
    requires WellFormed(a)
    requires tail == "" || !IsIpChar(tail[0])
    ensures MatchAssignment(AssignmentMessage(a) + tail) == Some((a, tail))
  {
    var s1 := a.iface + ("): " + (a.mac + (Arrow + (a.ip + tail))));
    ConcatSix(MessagePrefix, a.iface, "): ", a.mac, Arrow, a.ip, tail);
    ExpectConcat(MessagePrefix, s1);
    MatchIfaceComplete(a, tail);
  }

  /** The groups of the match, as `match.groups()`. */
  function ParseAssignment(msg: string): Option<Assignment>
  {
    match MatchAssignment(msg)
    case Some((a, _)) => Some(a)
    case None => None
  }

  /** The first display line of an assignment, chosen by interface name (:174-179). */
  function Label(iface: string, ip: string): string
  {
    if StartsWith(iface, "br") || StartsWith(iface, "eth") then "LAN: " + ip
    else if StartsWith(iface, "wl") then "WIFI: " + ip
    else Upper(iface) + ": " + ip
  }

  /** Each line cut to the display width. */
  function TruncateAll(lines: seq<string>): (cut: seq<string>)
    ensures |cut| == |lines|
    ensures forall i :: 0 <= i < |lines| ==> |cut[i]| <= CharWidth && cut[i] == Truncate(lines[i], CharWidth)
  {
    seq(|lines|, i requires 0 <= i < |lines| => Truncate(lines[i], CharWidth))
  }

  /** The display lines a message becomes (:167-188): two lines for an
      assignment message; every newline-separated line, cut to the width,
      for another message that mentions "DHCP ASSIGNMENT"; at most the first
      two such lines for any other message. (`mac.strip()` of :180 is the
      identity here: the group holds no blanks.) */
  function NewLines(msg: string): (lines: seq<string>)
    ensures ParseAssignment(msg).Some? ==> |lines| == 2
    ensures ParseAssignment(msg).None? && Contains(msg, Marker) ==>
      |lines| == |Split(msg, '\n')| && forall i :: 0 <= i < |lines| ==>
        |lines[i]| <= CharWidth && lines[i] == Truncate(Split(msg, '\n')[i], CharWidth)
    ensures !Contains(msg, Marker) ==> 1 <= |lines| <= 2 && |lines| == Min(|Split(msg, '\n')|, 2)
    ensures !Contains(msg, Marker) ==> forall i :: 0 <= i < |lines| ==>
      |lines[i]| <= CharWidth && lines[i] == Truncate(Split(msg, '\n')[i], CharWidth)
  {
    if Contains(msg, Marker) then
      match ParseAssignment(msg)
      case Some(a) => [Label(a.iface, a.ip), "MAC: " + a.mac]
      case None => TruncateAll(Split(msg, '\n'))
    else
      assert ParseAssignment(msg).None? by {
        if ParseAssignment(msg).Some? {
          MatchNeedsMarker(msg);
        }
      }
      var lines := Split(msg, '\n');
      TruncateAll(lines[..Min(|lines|, 2)])
  }

  /** The message built for an accepted DHCPACK becomes exactly the label
      line and the "MAC: " line. */
  lemma AssignmentLines(a: Assignment)
    requires WellFormed(a)
    ensures NewLines(AssignmentMessage(a)) == [Label(a.iface, a.ip), "MAC: " + a.mac]
  {
    MatchAssignmentComplete(a, "");
    assert AssignmentMessage(a) + "" == AssignmentMessage(a);
    MatchNeedsMarker(AssignmentMessage(a));
  }

  /** A message that matches mentions "DHCP ASSIGNMENT", so the substring test
      of :169 never hides a match. */
  lemma MatchNeedsMarker(msg: string)
    requires MatchAssignment(msg).Some?
    ensures Contains(msg, Marker)
  {
    StartsWithPart(msg, Marker, " (");
    assert OccursAt(msg, Marker, 0);
  }

  /** The label line per interface family (:174-179). */
  lemma LabelByInterface(iface: string, ip: string)
    ensures StartsWith(iface, "br") || StartsWith(iface, "eth") ==> Label(iface, ip) == "LAN: " + ip
    ensures !StartsWith(iface, "br") && !StartsWith(iface, "eth") && StartsWith(iface, "wl") ==>
      Label(iface, ip) == "WIFI: " + ip
    ensures !StartsWith(iface, "br") && !StartsWith(iface, "eth") && !StartsWith(iface, "wl") ==>
      Label(iface, ip) == Upper(iface) + ": " + ip && |Label(iface, ip)| == |iface| + 2 + |ip|
  {
  }

  /** `buffer[-5:]` when the buffer holds more than five lines (:192-193):
      the last min(|buffer|, 5) entries, in order. */
  function Trim(buffer: seq<string>): (kept: seq<string>)
    ensures |kept| == Min(|buffer|, MaxLines)
    ensures kept == buffer[|buffer| - |kept|..]
  {
    if |buffer| > MaxLines then buffer[|buffer| - MaxLines..] else buffer
  }

  /** Cutting the buffer back after every message shows the same lines as
      cutting the whole history once: nothing that should be visible is
      dropped early. */
  lemma TrimAppend(older: seq<string>, added: seq<string>)
    ensures Trim(Trim(older) + added) == Trim(older + added)
  {
    var t := Trim(older);
    assert t + added == (older + added)[|older| - |t|..];
    var whole := older + added;
    var part := t + added;
    assert Trim(part) == part[|part| - Min(|part|, MaxLines)..];
    assert Trim(whole) == whole[|whole| - Min(|whole|, MaxLines)..];
  }

  /** The lines a message adds are at the bottom of the buffer when they fit. */
  lemma TrimKeepsNewest(older: seq<string>, added: seq<string>)
    requires |added| <= MaxLines
    ensures var kept := Trim(older + added); |kept| >= |added| && kept[|kept| - |added|..] == added
  {
    var whole := older + added;
    var kept := Trim(whole);
    assert kept[|kept| - |added|..] == whole[|whole| - |added|..];
  }

  /** The buffer after MultiPrint(msg): extended and cut back while the
      display is up, untouched otherwise. */
  function Shown(buffer: seq<string>, displayOn: bool, msg: string): (after: seq<string>)
    ensures |buffer| <= MaxLines ==> |after| <= MaxLines
    ensures !displayOn ==> after == buffer
    ensures displayOn ==> after == Trim(buffer + NewLines(msg))
  {
    if displayOn then Trim(buffer + NewLines(msg)) else buffer
  }

  /** While the display is up, an assignment message leaves its label line
      and its "MAC: " line as the bottom two lines, whatever was shown before. */
  lemma AssignmentShown(buffer: seq<string>, a: Assignment)
    requires WellFormed(a)
    ensures var after := Shown(buffer, true, AssignmentMessage(a));
      |after| >= 2 && after[|after| - 2..] == [Label(a.iface, a.ip), "MAC: " + a.mac]
  {
    AssignmentLines(a);
    TrimKeepsNewest(buffer, NewLines(AssignmentMessage(a)));
  }

  /** "Goodbye!" is not an assignment message and fits on one line. */
  lemma GoodbyeLines()
    ensures NewLines("Goodbye!") == ["Goodbye!"]
  {
    assert !Contains("Goodbye!", Marker);
    SplitJoin(["Goodbye!"], '\n');
    assert Join(["Goodbye!"], '\n') == "Goodbye!";
  }

  /** The lines MultiPrint adds to the display for msg (:167-188), built as
      the source builds them: the label and MAC lines for a match, a loop over
      the split lines for another message that mentions "DHCP ASSIGNMENT", the
      first two split lines otherwise. */
  method DisplayLines(msg: string) returns (newLines: seq<string>)
    ensures newLines == NewLines(msg)
  {
    newLines := [];
    if Contains(msg, Marker) {
      match ParseAssignment(msg)
      case Some(a) =>
        newLines := [Label(a.iface, a.ip), "MAC: " + a.mac];
      case None =>
        var parts := Split(msg, '\n');
        for i := 0 to |parts|
          invariant newLines == TruncateAll(parts[..i])
        {
          newLines := newLines + [Truncate(parts[i], CharWidth)];
        }
        assert parts[..|parts|] == parts;
    } else {
      var parts := Split(msg, '\n');
      newLines := TruncateAll(parts[..Min(|parts|, 2)]);
    }
  }

  /** One MultiPrint call as the console sees it. */
  datatype Notice = Notice(important: bool, text: string)

  /** The console and display side of the monitor: `oled` (whether the
      display is up), `oled_lines`, and the console as the list of messages
      printed so far. */
  class Notifier {
    var active: bool
    var lines: seq<string>
    var console: seq<Notice>
    /** Every line added since the buffer was last seeded. */
    ghost var history: seq<string>

    /** The buffer is the last five lines of its history. */
    ghost predicate Valid()
      reads this
    {
      lines == Trim(history)
    }

    /** The module's initial state: no display, no lines, nothing printed. */
    constructor ()
      ensures Valid()
      ensures !active && lines == [] && console == []
    {
      active := false;
      lines := [];
      console := [];
      history := [];
    }

    /** `OLEDInit`: when the display library is present and the device comes
        up, the buffer is seeded with the address line and the greeting; if
        the device fails, the display stays off and the buffer as it was. */
    method Init(libraryAvailable: bool, deviceOk: bool, bridgeIp: Option<string>)
      requires Valid()
      modifies this
      ensures Valid() && console == old(console)
      ensures EnableOled && libraryAvailable && deviceOk ==>
        active && lines == [IpLine(bridgeIp)] + GreetingLines
      ensures EnableOled && libraryAvailable && !deviceOk ==> !active && lines == old(lines)
      ensures !(EnableOled && libraryAvailable) ==> active == old(active) && lines == old(lines)
    {
      if !EnableOled || !libraryAvailable {
        return;
      }
      if !deviceOk {
        active := false;
        return;
      }
      var startup: seq<string> := [IpLine(bridgeIp)];
      var parts := Split(Banner, '\n');
      for i := 0 to |parts|
        invariant startup == [IpLine(bridgeIp)] + parts[..i]
      {
        startup := startup + [parts[i]];
      }
      BannerLines();
      assert parts[..|parts|] == parts;
      active := true;
      lines := startup;
      history := startup;
    }

    /** `MultiPrint(msg, important)`: always printed; added to the display
        buffer, and the buffer cut back to five lines, only while the
        display is up. */
    method MultiPrint(msg: string, important: bool)
      requires Valid()
      modifies this
      ensures Valid() && active == old(active)
      ensures console == old(console) + [Notice(important, msg)]
      ensures lines == Shown(old(lines), EnableOled && old(active), msg)
      ensures |lines| <= MaxLines
    {
      console := console + [Notice(important, msg)];
      if EnableOled && active {
        var newLines := DisplayLines(msg);
        Extend(newLines);
      }
    }

    /** The buffer step of :190-193: extend by the new lines, then keep the
        last five if the buffer grew past that. */
    method Extend(added: seq<string>)
      requires Valid()
      modifies this
      ensures Valid() && active == old(active) && console == old(console)
      ensures lines == Trim(old(lines) + added)
    {
      lines := lines + added;
      if |lines| > MaxLines {
        lines := lines[|lines| - MaxLines..];
      }
      TrimAppend(history, added);
      history := history + added;
    }

    /** `OLEDDeInit`: while the display is up, say goodbye through
        MultiPrint and take the display down. */
    method DeInit()
      requires Valid()
      modifies this
      ensures Valid()
      ensures EnableOled ==> !active
      ensures EnableOled && old(active) ==>
        console == old(console) + [Notice(false, "Goodbye!")] && lines == Trim(old(lines) + ["Goodbye!"])
      ensures !(EnableOled && old(active)) ==> console == old(console) && lines == old(lines)
    {
      if !EnableOled {
        return;
      }
      if active {
        MultiPrint("Goodbye!", false);
        GoodbyeLines();
        active := false;
      }
    }
  }
}
