/** Rendering of a client hardware address (`format_mac`,
    bridge_monitor.py:203-205): the first six octets of `chaddr`, each as two
    lowercase hex digits, joined by ':'; and the inverse parse that shows
    the rendering loses nothing of those six octets. */
module MacAddress {
  import opened Text

  newtype byte = b: int | 0 <= b < 256

  /** Octets of `chaddr` that are rendered; the rest are ignored. */
  const MacOctets: nat := 6

  /** One lowercase hex digit. */
  function HexDigit(d: int): char
    requires 0 <= d < 16
  {
    if d < 10 then ('0' as int + d) as char else ('a' as int + d - 10) as char
  }

  /** Value of a lowercase hex digit; None for any other character. */
  function DigitValue(c: char): Option<int>
  {
    if '0' <= c <= '9' then Some(c as int - '0' as int)
    else if 'a' <= c <= 'f' then Some(c as int - 'a' as int + 10)
    else None
  }

  /** An octet as two lowercase, zero-padded hex digits. */
  function Hex2(b: byte): (s: string)
    ensures |s| == 2
  {
    [HexDigit(b as int / 16), HexDigit(b as int % 16)]
  }

  function ParseHex2(s: string): Option<byte>
  {
    if |s| != 2 then None
    else match (DigitValue(s[0]), DigitValue(s[1]))
      case (Some(hi), Some(lo)) => Some((16 * hi + lo) as byte)
      case _ => None
  }

  lemma Hex2RoundTrip(b: byte)
    ensures ParseHex2(Hex2(b)) == Some(b)
  {
    var hi, lo := b as int / 16, b as int % 16;
    assert DigitValue(HexDigit(hi)) == Some(hi);
    assert DigitValue(HexDigit(lo)) == Some(lo);
  }

  /** The characters `format_mac` can produce: `[0-9a-f:]`. */
  predicate IsMacChar(c: char)
  {
    '0' <= c <= '9' || 'a' <= c <= 'f' || c == ':'
  }

  function HexGroups(octets: seq<byte>): seq<string>
  {
    seq(|octets|, i requires 0 <= i < |octets| => Hex2(octets[i]))
  }

  /** `format_mac(chaddr)`. With at least six octets the result is 17
      characters: six two-digit groups at offsets 0, 3, ..., 15 with a ':'
      between consecutive groups; octets after the sixth do not matter. */
  function FormatMac(chaddr: seq<byte>): (mac: string)
    ensures var n := Min(|chaddr|, MacOctets); |mac| == if n == 0 then 0 else 3 * n - 1
    ensures |chaddr| >= MacOctets ==> |mac| == 17
    ensures forall k :: 0 <= k < Min(|chaddr|, MacOctets) ==> mac[3 * k..3 * k + 2] == Hex2(chaddr[k])
    ensures forall k :: 0 <= k < Min(|chaddr|, MacOctets) - 1 ==> mac[3 * k + 2] == ':'
    ensures forall i :: 0 <= i < |mac| ==> IsMacChar(mac[i])
    ensures |chaddr| > MacOctets ==> mac == FormatMac(chaddr[..MacOctets])
  {
    var octets := chaddr[..Min(|chaddr|, MacOctets)];
    var groups := HexGroups(octets);
    var mac := Join(groups, ':');
    if |octets| == 0 then
      mac
    else
      JoinWidthTwo(groups, ':');
      assert forall k :: 0 <= k < |octets| ==> groups[k] == Hex2(chaddr[k]);
      MacCharsOfLayout(mac, groups);
      assert |chaddr| > MacOctets ==> chaddr[..MacOctets][..Min(MacOctets, MacOctets)] == octets;
      mac
  }

  /** In the width-two layout, every character is a hex digit of a group or
      a separator. */
  lemma MacCharsOfLayout(mac: string, groups: seq<string>)
    requires |groups| >= 1 && |mac| == 3 * |groups| - 1
    requires forall k :: 0 <= k < |groups| ==> |groups[k]| == 2 && mac[3 * k..3 * k + 2] == groups[k]
    requires forall k :: 0 <= k < |groups| - 1 ==> mac[3 * k + 2] == ':'
    requires forall k, j :: 0 <= k < |groups| && 0 <= j < 2 ==> IsMacChar(groups[k][j])
    ensures forall i :: 0 <= i < |mac| ==> IsMacChar(mac[i])
  {
    forall i | 0 <= i < |mac|
      ensures IsMacChar(mac[i])
    {
      var k, r := i / 3, i % 3;
      assert i == 3 * k + r && 0 <= r < 3;
      assert k < |groups|;
      if r < 2 {
        assert mac[i] == mac[3 * k..3 * k + 2][r] == groups[k][r];
      } else {
        assert k < |groups| - 1;
      }
    }
  }

  /** Inverse of FormatMac: ':'-separated two-digit groups back to octets. */
  function ParseMac(mac: string): Option<seq<byte>>
  {
    if mac == "" then Some([]) else ParseGroups(Split(mac, ':'))
  }

  function ParseGroups(groups: seq<string>): Option<seq<byte>>
    decreases |groups|
  {
    if groups == [] then Some([])
    else match (ParseHex2(groups[0]), ParseGroups(groups[1..]))
      case (Some(b), Some(rest)) => Some([b] + rest)
      case _ => None
  }

  lemma {:induction false} ParseGroupsRoundTrip(octets: seq<byte>)
    ensures ParseGroups(HexGroups(octets)) == Some(octets)
    decreases |octets|
  {
    if octets != [] {
      Hex2RoundTrip(octets[0]);
      assert HexGroups(octets)[1..] == HexGroups(octets[1..]);
      ParseGroupsRoundTrip(octets[1..]);
      assert octets == [octets[0]] + octets[1..];
    }
  }

  /** Joined hex groups parse back to their octets. */
  lemma ParseJoinedGroups(octets: seq<byte>)
    ensures ParseMac(Join(HexGroups(octets), ':')) == Some(octets)
  {
    var groups := HexGroups(octets);
    ParseGroupsRoundTrip(octets);
    if octets != [] {
      forall i | 0 <= i < |groups|
        ensures ':' !in groups[i]
      {
        assert groups[i] == Hex2(octets[i]);
      }
      SplitJoin(groups, ':');
    }
  }

  /** The rendering is lossless on the octets it shows: parsing it gives
      back exactly the first six octets (all of them, when fewer). */
  lemma MacRoundTrip(chaddr: seq<byte>)
    ensures ParseMac(FormatMac(chaddr)) == Some(chaddr[..Min(|chaddr|, MacOctets)])
  {
    ParseJoinedGroups(chaddr[..Min(|chaddr|, MacOctets)]);
  }

  /** Two `chaddr` values render alike exactly when their first six octets agree. */
  lemma FormatMacInjective(a: seq<byte>, b: seq<byte>)
    ensures FormatMac(a) == FormatMac(b) <==> a[..Min(|a|, MacOctets)] == b[..Min(|b|, MacOctets)]
  {
    MacRoundTrip(a);
    MacRoundTrip(b);
    if a[..Min(|a|, MacOctets)] == b[..Min(|b|, MacOctets)] {
      if |a| > MacOctets && |b| > MacOctets {
        assert FormatMac(a) == FormatMac(a[..MacOctets]);
      }
    }
  }
}
