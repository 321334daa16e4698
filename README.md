# IP Spy bridge monitor: a verified model of its core

IP Spy watches DHCP traffic on a Linux bridge. For every DHCPACK that
assigns an address it prints an assignment notice to the console and
to a small OLED display. The first time a device's MAC address is
seen, or when the device gets a new address, it also appends a CSV
record to two log files. This project models that core in Dafny
(all of it from `bridge_monitor.py`) and proves properties of it.

The project has seven modules, one per file:

- `Text` (text.dfy): the string operations the core relies on:
  - Python's `split`, slicing to a width and ASCII `upper`
  - the substring test
  - `Span`, the greedy run of one character class
- `MacAddress` (mac.dfy): `format_mac`, with an inverse parse used to
  prove that the rendering is lossless.
- `Dhcp` (dhcp.dfy):
  - the fields of a captured frame the monitor reads
  - the DHCPACK test; option 53 value 5 is DHCPACK, section 9.6 of RFC 2132
  - `get_packet_signature`
  - the CSV log record
- `Ledger` (ledger.dfy):
  - the per-session record `seen_assignments`
  - its three-way New / Changed / Unchanged decision
  - lemmas that follow the record over a whole stream of sightings
- `Startup` (startup.dfy): the startup screen `OLEDInit` seeds the display
  buffer with.
- `Oled` (oled.dfy):
  - the display-line rules of `MultiPrint`: the assignment message and its
    parse, the interface label, truncation, and the five-line buffer trim
  - class `Notifier`, which holds the display state (`oled`, `oled_lines`)
    and the console. Its methods are `Init` (`OLEDInit`), `MultiPrint`
    and `DeInit` (`OLEDDeInit`).
- `Monitor` (monitor.dfy): class `Monitor`, which holds:
  - `seen_assignments` and `recent_packets`
  - the two logs, as sequences of the lines appended so far
  - a `Notifier`

  Its method `DhcpAckCallback` is `dhcp_ack_callback`.

The regular expression of bridge_monitor.py:171 is modelled as a
deterministic parse (`Oled.MatchAssignment`). It takes, for each group,
the longest nonempty run of that group's character class. This gives the same
result as the regular expression's backtracking match, because each class
excludes the character that must come right after it:

| group | class | excludes the following |
|---|---|---|
| interface | `[^)]` | `)` |
| MAC | `[0-9a-f:]` | space |

The address group is last. Python takes it greedily, and so does the parse.

When the message mentions "DHCP ASSIGNMENT" but does not match, the code
(bridge_monitor.py:183-184) adds every newline-separated line of the
message, not just the first two. The model follows the code. Only messages
that do not mention "DHCP ASSIGNMENT" are capped at two lines
(bridge_monitor.py:187-188).

## Model

| member | source | states |
|---|---|---|
| Text.Contains | bridge_monitor.py:169 | the substring test holds exactly when the text occurs at some offset |
| Text.Split | bridge_monitor.py:187 | `split` gives at least one piece, no piece holds the separator, and joining the pieces gives back the text |
| Text.SplitJoin | bridge_monitor.py:102 | splitting a join of separator-free pieces gives back those pieces |
| Text.Truncate | bridge_monitor.py:184 | a slice `s[:n]` keeps the first min(len, n) characters |
| Text.Upper | bridge_monitor.py:179 | `upper` keeps the length and maps each character to its upper case |
| Text.Span | bridge_monitor.py:171 | a greedy character class takes the longest prefix of the class: all taken characters are in it, the next one is not |
| MacAddress.Hex2RoundTrip | bridge_monitor.py:205 | two lowercase hex digits read back to the octet |
| MacAddress.FormatMac | bridge_monitor.py:203-205 | the length is 3n-1 for n of min(len, 6) octets, and 17 for at least six. Octet k is at offset 3k as two hex digits, with ':' between groups. Only `[0-9a-f:]` occurs. Octets after the sixth do not matter. |
| MacAddress.MacRoundTrip | bridge_monitor.py:203-205 | parsing the rendering gives back exactly the first six octets |
| MacAddress.FormatMacInjective | bridge_monitor.py:203-205 | two addresses render alike if and only if their first six octets agree |
| Dhcp.Signature | bridge_monitor.py:207-213 | a signature exists if and only if the frame is a DHCPACK; it is the rendered MAC, '_' and the address |
| Dhcp.SignatureRoundTrip | bridge_monitor.py:207-213 | a signature reads back as its (MAC, address) pair |
| Dhcp.SignatureInjective | bridge_monitor.py:207-213 | two DHCPACKs share a signature if and only if they have the same rendered MAC and address |
| Dhcp.LogLine | bridge_monitor.py:239 | the log record is nonempty and ends in a newline |
| Dhcp.LogLineFields | bridge_monitor.py:239-241 | without commas in its fields, the record splits into timestamp, MAC, address, "DHCP" and interface |
| Ledger.Decide | bridge_monitor.py:234 | New if and only if the MAC is absent; Changed if and only if it maps to another address; Unchanged if and only if it maps to this one |
| Ledger.Record | bridge_monitor.py:234-235 | afterwards the MAC maps to the address, the keys gain only the MAC, and other entries are untouched. The record is unchanged if and only if the decision is Unchanged. |
| Ledger.RecordIdempotent | bridge_monitor.py:234-235 | a repeated sighting is Unchanged and leaves the record as it is |
| Ledger.LastWriteWins | bridge_monitor.py:234-235 | after a stream, a MAC is present if and only if it was present or was sighted. It maps to the address of its latest sighting, or keeps its old entry when it was not sighted. |
| Ledger.ReplayKeys | bridge_monitor.py:234-235 | after a stream, the keys are the initial keys plus every MAC sighted |
| Ledger.ReplaySize | bridge_monitor.py:234-235 | each New decision adds exactly one entry, and nothing else adds one |
| Ledger.NewOncePerDevice | bridge_monitor.py:234-235 | the number of New decisions in a stream is the number of distinct MACs it sights that were not already recorded |
| Ledger.NewAtFirstSighting | bridge_monitor.py:234-235 | a sighting is decided New if and only if its MAC was not recorded and no earlier sighting names it: New comes at a device's first sighting and never again |
| Ledger.RepeatedSighting | bridge_monitor.py:231-241 | n+1 identical sightings record as one, and the n repeats add no log line |
| Startup.IpLine | bridge_monitor.py:93-98 | the first startup line is "My IP: " followed by the bridge address, or DISCONNECTED when there is none or it is empty |
| Startup.BannerLines | bridge_monitor.py:101-103 | the greeting splits into its three display lines |
| Oled.Expect | bridge_monitor.py:171 | a literal step of the match succeeds if and only if the text starts with the literal, and returns the rest |
| Oled.Group | bridge_monitor.py:171 | one greedy group takes a nonempty run of its class, and the next character is not in the class |
| Oled.MatchAssignmentSound | bridge_monitor.py:171-172 | a match is a well-formed (interface, MAC, address) triple, and the message is the assignment message of the triple plus a tail that does not continue the address |
| Oled.MatchAssignmentComplete | bridge_monitor.py:171-172 | the assignment message of any well-formed triple, plus such a tail, matches with exactly that triple |
| Oled.MatchNeedsMarker | bridge_monitor.py:169-171 | a message that matches mentions "DHCP ASSIGNMENT", so the substring test never hides a match |
| Oled.NewLines | bridge_monitor.py:167-188 | a match gives two lines; a non-matching marker message gives every split line cut to 21; any other message gives its first min(n, 2) split lines cut to 21 |
| Oled.AssignmentLines | bridge_monitor.py:171-180 | the message built for a well-formed triple becomes exactly the label line and "MAC: " + mac |
| Oled.LabelByInterface | bridge_monitor.py:174-179 | br/eth gives "LAN: " + ip, otherwise wl gives "WIFI: " + ip, otherwise upper(interface) + ": " + ip |
| Oled.Trim | bridge_monitor.py:192-193 | the buffer keeps its last min(len, 5) entries, in order |
| Oled.TrimAppend | bridge_monitor.py:190-193 | trimming after every message leaves the same buffer as trimming the whole history once |
| Oled.TrimKeepsNewest | bridge_monitor.py:190-193 | the lines a message adds are at the bottom of the buffer |
| Oled.Shown | bridge_monitor.py:165-193 | with the display up, the buffer becomes the trim of old buffer plus new lines; with it down, it is untouched; the result has at most five lines |
| Oled.DisplayLines | bridge_monitor.py:167-188 | the lines built for a message, including the loop over the split lines, are exactly NewLines(msg) |
| Oled.AssignmentShown | bridge_monitor.py:171-193 | with the display up, an assignment message leaves its label line and its "MAC: " line as the bottom two lines of the buffer, whatever it held before |
| Oled.GoodbyeLines | bridge_monitor.py:123 | the goodbye message becomes one display line |
| Oled.Notifier.constructor | bridge_monitor.py:49-53 | no display, no lines, nothing printed |
| Oled.Notifier.Init | bridge_monitor.py:74-114 | when the display comes up, the buffer is the address line followed by the three greeting lines. When the device fails, the display is off and the buffer is kept. With no display library, nothing changes. |
| Oled.Notifier.MultiPrint | bridge_monitor.py:153-201 | the message is appended to the console. The buffer is the trim of the old buffer plus NewLines(msg) while the display is up, and untouched otherwise. The buffer never holds more than five lines. |
| Oled.Notifier.Extend | bridge_monitor.py:190-193 | after extending and cutting back, the buffer is the trim of the old buffer plus the added lines, and the buffer-is-last-five-of-history invariant still holds |
| Oled.Notifier.DeInit | bridge_monitor.py:116-129 | an active display gets "Goodbye!" on the console and in the buffer, then goes off; otherwise nothing changes |
| Monitor.Monitor.constructor | bridge_monitor.py:44-46 | nothing seen, nothing logged, display off |
| Monitor.Monitor.DhcpAckCallback | bridge_monitor.py:215-243 | a frame that is not an address-assigning DHCPACK changes nothing and prints nothing. Otherwise: the signature maps to the time; the record becomes Record(seen, mac, ip); each log gains the same record line exactly when the decision is not Unchanged and its write succeeds; the assignment notice is always printed, followed by an error notice when a write fails. |
| Monitor.Monitor.LogAssignment | bridge_monitor.py:234-243 | the record becomes Record(seen, mac, ip). Each log gains the same line when the decision is not Unchanged and its write gets to run; a failed write prints one error notice. A repeated pair changes nothing. |
| Monitor.RepeatedAck | bridge_monitor.py:231-235 | a second identical DHCPACK leaves the record and both logs as the first left them, yet prints the notice again |
| Monitor.AcceptedAckDisplay | bridge_monitor.py:232 | an accepted DHCPACK shows on the display as its interface label and its MAC |

## Left out

- Packet capture is not modelled: the `AsyncSniffer` instances, their threads, the BPF filter and `packet_handler` with its error notice. The callback is modelled as a sequential stream of calls.
- Concurrency is not modelled. The br0 and wlan0 sniffers (bridge_monitor.py:309-331) both call `packet_handler`, and the source takes no lock (`OLED_LOCK` is commented out at bridge_monitor.py:57). Two callbacks can therefore interleave between the test at :234 and the update at :235, or inside MultiPrint's extend and trim. The model treats each callback as atomic, which the program does not guarantee.
- The interface name is a free parameter of `DhcpAckCallback`. In the program, `packet_handler` always passes `BRIDGE_INTERFACE` (bridge_monitor.py:249), so the name is always "br0" and the label is always "LAN: ". The model covers every name, which includes that case.
- `get_bridge_ip` is not modelled: it is an operating-system query, so its result is an input to `Init`.
- OLED hardware and drawing are not modelled: the I2C device, PIL drawing, `_oled_update` and its debug print, and `time.sleep` in `OLEDDeInit`. The device coming up or failing is the `deviceOk` input. `oled_show_loading.py` and `test_oled.py` are not part of this model.
- Console formatting is not modelled: the console is the list of (important, message) pairs handed to MultiPrint. The clock prefix, the separator lines and the "not available" debug print are left out.
- Timestamps come in as parameters, because the model has no clock.
- `recent_packets`:
  - It stores the timestamp string, not a `datetime` object.
  - Its value is never read.
- Real file I/O is not modelled: each log is the sequence of lines appended in this session. A write failure is the `LogFault` input, which says which `open` raised and the exception text. Failures of other kinds are not modelled.
- Frames whose DHCP options list is empty are not modelled. There the source raises an IndexError, which `packet_handler` catches and reports (bridge_monitor.py:250-251). A first option whose value is not an integer compares unequal to 5 without raising. The model covers that case as a first option value other than 5.
- Signal handling, argument parsing, the root check and `main` are not modelled: they are process set-up.
- Text.Upper: it upper-cases ASCII letters only, whereas Python's `upper` covers all of Unicode.
- Startup.BannerLines: the greeting is stated as the join of its three lines, not as the single literal with embedded newlines.
- Oled.NewLines: for a match, its own contract states only that there are two lines. Their content, for the message the callback builds, is in Oled.AssignmentLines.
- `mac.strip()` is not modelled separately: the MAC group cannot hold whitespace, so it is the identity.
