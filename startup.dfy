/** The startup screen `OLEDInit` puts in the display buffer
    (bridge_monitor.py:91-103): the bridge address line, then the greeting
    split at its newlines. */
module Startup {
  import opened Text

  /** The multi-line greeting of :101 is these three lines joined by newlines. */
  const GreetingLines: seq<string> := ["Seth's IP Spy", "Reboot a device to", "see Mac & IP address"]
  const Banner: string := Join(GreetingLines, '\n')

  /** The first line of the startup screen (:93-98): the bridge address, or
      DISCONNECTED when there is none or it is empty. */
  function IpLine(bridgeIp: Option<string>): (line: string)
    ensures StartsWith(line, "My IP: ")
    ensures bridgeIp.Some? && bridgeIp.value != "" ==> line[7..] == bridgeIp.value
    ensures bridgeIp.None? || bridgeIp.value == "" ==> line[7..] == "DISCONNECTED"
  {
    if bridgeIp.Some? && bridgeIp.value != "" then "My IP: " + bridgeIp.value else "My IP: DISCONNECTED"
  }

  /** The greeting splits into its three display lines. */
  lemma BannerLines()
    ensures Split(Banner, '\n') == GreetingLines
  {
    assert '\n' !in "Seth's IP Spy";
    assert '\n' !in "Reboot a device to";
    assert '\n' !in "see Mac & IP address";
    SplitJoin(GreetingLines, '\n');
  }
}
