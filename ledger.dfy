/** The session record `seen_assignments` (bridge_monitor.py:44) and the
    decision of bridge_monitor.py:234-235: a sighting of (mac, ip) is New
    when the MAC has not been seen, Changed when it was last seen with
    another address, and Unchanged otherwise; only New and Changed touch the
    record (and the logs). The lemmas follow the record over a whole stream
    of sightings. */
module Ledger {
  import opened Text

  /** Rendered MAC to the last address assigned to it. */
  type Assignments = map<string, string>

  datatype Decision = New | Changed | Unchanged

  /** One accepted DHCPACK, as the ledger sees it. */
  datatype Sighting = Sighting(mac: string, ip: string)

  /** The test of :234 (MAC absent, or mapped to another address), split into its two cases. */
  function Decide(seen: Assignments, mac: string, ip: string): (d: Decision)
    ensures d == New <==> mac !in seen
    ensures d == Changed <==> mac in seen && seen[mac] != ip
    ensures d == Unchanged <==> mac in seen && seen[mac] == ip
  {
    if mac !in seen then New else if seen[mac] != ip then Changed else Unchanged
  }

  /** The record after a sighting: the MAC now maps to ip, every other entry
      is as it was, and the record is untouched exactly when the decision is
      Unchanged. */
  function Record(seen: Assignments, mac: string, ip: string): (after: Assignments)
    ensures mac in after && after[mac] == ip
    ensures after.Keys == seen.Keys + {mac}
    ensures forall k :: k in seen && k != mac ==> after[k] == seen[k]
    ensures after == seen <==> Decide(seen, mac, ip) == Unchanged
  {
    if Decide(seen, mac, ip) != Unchanged then seen[mac := ip] else seen
  }

  /** Sighting the same pair again right away is Unchanged and leaves the
      record as it is. */
  lemma RecordIdempotent(seen: Assignments, mac: string, ip: string)
    ensures Decide(Record(seen, mac, ip), mac, ip) == Unchanged
    ensures Record(Record(seen, mac, ip), mac, ip) == Record(seen, mac, ip)
  {
  }

  /** The record after a stream of sightings, oldest first. */
  function Replay(seen: Assignments, sightings: seq<Sighting>): Assignments
    decreases |sightings|
  {
    if sightings == [] then seen
    else
      var last := sightings[|sightings| - 1];
      Record(Replay(seen, sightings[..|sightings| - 1]), last.mac, last.ip)
  }

  /** How many sightings of the stream the ledger decides New. */
  function CountNew(seen: Assignments, sightings: seq<Sighting>): nat
    decreases |sightings|
  {
    if sightings == [] then 0
    else
      var prefix := sightings[..|sightings| - 1];
      var last := sightings[|sightings| - 1];
      CountNew(seen, prefix) + if Decide(Replay(seen, prefix), last.mac, last.ip) == New then 1 else 0
  }

  /** How many sightings of the stream are New or Changed, that is, how many
      lines each log gains. */
  function CountLogged(seen: Assignments, sightings: seq<Sighting>): nat
    decreases |sightings|
  {
    if sightings == [] then 0
    else
      var prefix := sightings[..|sightings| - 1];
      var last := sightings[|sightings| - 1];
      CountLogged(seen, prefix) + if Decide(Replay(seen, prefix), last.mac, last.ip) != Unchanged then 1 else 0
  }

  /** The MACs a stream mentions. */
  function Macs(sightings: seq<Sighting>): set<string>
  {
    set i | 0 <= i < |sightings| :: sightings[i].mac
  }

  /** The address of the latest sighting of mac in the stream, if any. */
  function LastIp(sightings: seq<Sighting>, mac: string): (r: Option<string>)
    ensures r.None? <==> forall i :: 0 <= i < |sightings| ==> sightings[i].mac != mac
    ensures r.Some? ==> exists i :: (0 <= i < |sightings| && sightings[i] == Sighting(mac, r.value)
                                     && forall j :: i < j < |sightings| ==> sightings[j].mac != mac)
    decreases |sightings|
  {
    if sightings == [] then None
    else
      var last := sightings[|sightings| - 1];
      if last.mac == mac then Some(last.ip)
      else
        var r := LastIp(sightings[..|sightings| - 1], mac);
        assert forall i :: 0 <= i < |sightings| - 1 ==> sightings[..|sightings| - 1][i] == sightings[i];
        r
  }

  /** Last write wins: after a stream, a MAC maps to the address of its
      latest sighting, and a MAC the stream never mentions keeps its old
      entry (or stays absent). */
  lemma {:induction false} LastWriteWins(seen: Assignments, sightings: seq<Sighting>, mac: string)
    ensures mac in Replay(seen, sightings) <==> mac in seen || LastIp(sightings, mac).Some?
    ensures LastIp(sightings, mac).Some? ==> Replay(seen, sightings)[mac] == LastIp(sightings, mac).value
    ensures LastIp(sightings, mac).None? && mac in seen ==> Replay(seen, sightings)[mac] == seen[mac]
    decreases |sightings|
  {
    if sightings != [] {
      LastWriteWins(seen, sightings[..|sightings| - 1], mac);
    }
  }

  /** The MACs of a stream are those of all but its last sighting, plus the last one's. */
  lemma MacsSnoc(sightings: seq<Sighting>)
    requires sightings != []
    ensures Macs(sightings) == Macs(sightings[..|sightings| - 1]) + {sightings[|sightings| - 1].mac}
  {
    var prefix := sightings[..|sightings| - 1];
    forall i | 0 <= i < |prefix|
      ensures prefix[i] == sightings[i]
    {
    }
  }

  /** The record's keys are the initial ones plus every MAC sighted. */
  lemma {:induction false} ReplayKeys(seen: Assignments, sightings: seq<Sighting>)
    ensures Replay(seen, sightings).Keys == seen.Keys + Macs(sightings)
    decreases |sightings|
  {
    if sightings != [] {
      var prefix := sightings[..|sightings| - 1];
      var last := sightings[|sightings| - 1];
      var before := Replay(seen, prefix);
      ReplayKeys(seen, prefix);
      MacsSnoc(sightings);
      assert Replay(seen, sightings) == Record(before, last.mac, last.ip);
      assert Record(before, last.mac, last.ip).Keys == before.Keys + {last.mac};
    }
  }

  /** Each New decision adds one entry, and nothing else does. */
  lemma {:induction false} ReplaySize(seen: Assignments, sightings: seq<Sighting>)
    ensures |Replay(seen, sightings)| == |seen| + CountNew(seen, sightings)
    decreases |sightings|
  {
    if sightings != [] {
      var prefix := sightings[..|sightings| - 1];
      var last := sightings[|sightings| - 1];
      var before := Replay(seen, prefix);
      ReplaySize(seen, prefix);
      if last.mac !in before {
        assert Replay(seen, sightings).Keys == before.Keys + {last.mac};
      } else {
        assert Replay(seen, sightings).Keys == before.Keys;
      }
    }
  }

  /** A stream yields New exactly once per MAC that the record did not hold
      before the stream: the first time that MAC is sighted. */
  lemma NewOncePerDevice(seen: Assignments, sightings: seq<Sighting>)
    ensures CountNew(seen, sightings) == |Macs(sightings) - seen.Keys|
  {
    ReplayKeys(seen, sightings);
    ReplaySize(seen, sightings);
    var m := Macs(sightings);
    assert seen.Keys + m == seen.Keys + (m - seen.Keys);
    assert seen.Keys * (m - seen.Keys) == {};
  }

  /** Sighting i of a stream is decided New exactly when its MAC was not
      recorded before the stream and no earlier sighting names it: New comes
      at a device's first sighting, and never again. */
  lemma NewAtFirstSighting(seen: Assignments, sightings: seq<Sighting>, i: nat)
    requires i < |sightings|
    ensures Decide(Replay(seen, sightings[..i]), sightings[i].mac, sightings[i].ip) == New
      <==> sightings[i].mac !in seen && forall j :: 0 <= j < i ==> sightings[j].mac != sightings[i].mac
  {
    LastWriteWins(seen, sightings[..i], sightings[i].mac);
    assert forall j :: 0 <= j < i ==> sightings[..i][j] == sightings[j];
  }

  function Repeat(s: Sighting, n: nat): seq<Sighting>
  {
    seq(n, _ => s)
  }

  /** n + 1 repeats are n repeats followed by one more. */
  lemma RepeatLast(s: Sighting, n: nat)
    ensures |Repeat(s, n + 1)| == n + 1
    ensures Repeat(s, n + 1)[..n] == Repeat(s, n) && Repeat(s, n + 1)[n] == s
  {
  }

  /** Sighting one pair n + 1 times in a row records it once; the n repeats
      leave the record as the first left it and add no log line. */
  lemma {:induction false} RepeatedSighting(seen: Assignments, s: Sighting, n: nat)
    ensures Replay(seen, Repeat(s, n + 1)) == Record(seen, s.mac, s.ip)
    ensures Replay(Record(seen, s.mac, s.ip), Repeat(s, n)) == Record(seen, s.mac, s.ip)
    ensures CountLogged(Record(seen, s.mac, s.ip), Repeat(s, n)) == 0
  {
    RepeatLast(s, n);
    if n == 0 {
      assert Repeat(s, 0) == [];
    } else {
      RepeatedSighting(seen, s, n - 1);
      RepeatLast(s, n - 1);
      RecordIdempotent(seen, s.mac, s.ip);
    }
  }
}
