/** The part of Python's string API that the monitor relies on: prefix and
    substring tests, `str.split` on one separator, `sep.join`, slicing to a
    width, ASCII upper-casing, and the maximal run of characters of one class
    (what a greedy regular-expression class such as `[0-9.]+` consumes). */
module Text {

  datatype Option<+T> = None | Some(value: T)

  function Min(a: int, b: int): int
  {
    if a <= b then a else b
  }

  /** `s.startswith(prefix)` */
  predicate StartsWith(s: string, prefix: string)
  {
    |prefix| <= |s| && s[..|prefix|] == prefix
  }

  /** A text that starts with a + b starts with a. */
  lemma StartsWithPart(s: string, a: string, b: string)
    requires StartsWith(s, a + b)
    ensures StartsWith(s, a)
  {
    assert s[..|a|] == (a + b)[..|a|];
  }

  /** t occurs in s starting at index i. */
  predicate OccursAt(s: string, t: string, i: int)
  {
    0 <= i <= |s| - |t| && s[i..i + |t|] == t
  }

  /** `t in s`: t occurs in s as a contiguous piece. */
  function Contains(s: string, t: string): (found: bool)
    ensures found <==> exists i :: OccursAt(s, t, i)
    decreases |s|
  {
    if |s| == 0 then
      assert forall i :: OccursAt(s, t, i) ==> i == 0;
      assert StartsWith(s, t) ==> OccursAt(s, t, 0);
      StartsWith(s, t)
    else
      ContainsShift(s, t);
      StartsWith(s, t) || Contains(s[1..], t)
  }

  lemma ContainsShift(s: string, t: string)
    requires |s| > 0
    ensures (exists i :: OccursAt(s, t, i)) <==> StartsWith(s, t) || exists j :: OccursAt(s[1..], t, j)
  {
    if exists i :: OccursAt(s, t, i) {
      var i :| OccursAt(s, t, i);
      if i > 0 {
        assert s[1..][i - 1..i - 1 + |t|] == s[i..i + |t|];
        assert OccursAt(s[1..], t, i - 1);
      }
    }
    if exists j :: OccursAt(s[1..], t, j) {
      var j :| OccursAt(s[1..], t, j);
      assert s[j + 1..j + 1 + |t|] == s[1..][j..j + |t|];
      assert OccursAt(s, t, j + 1);
    }
    if StartsWith(s, t) {
      assert OccursAt(s, t, 0);
    }
  }

  /** `sep.join(parts)` for a one-character separator. */
  function Join(parts: seq<string>, sep: char): string
    decreases |parts|
  {
    if |parts| == 0 then ""
    else if |parts| == 1 then parts[0]
    else parts[0] + [sep] + Join(parts[1..], sep)
  }

  /** `s.split(sep)`: the pieces between separators; never empty, and
      joining the pieces again gives back s. */
  function Split(s: string, sep: char): (parts: seq<string>)
    ensures |parts| >= 1
    ensures forall i :: 0 <= i < |parts| ==> sep !in parts[i]
    ensures Join(parts, sep) == s
    decreases |s|
  {
    if |s| == 0 then [""]
    else
      var rest := Split(s[1..], sep);
      if s[0] == sep then
        assert ([""] + rest)[1..] == rest;
        [""] + rest
      else
        var parts := [[s[0]] + rest[0]] + rest[1..];
        assert parts[1..] == rest[1..];
        assert |rest| > 1 ==> Join(rest, sep) == rest[0] + [sep] + Join(rest[1..], sep);
        parts
  }

  /** Splitting a separator-free prefix glues it onto the first piece. */
  lemma {:induction false} SplitPrefix(a: string, t: string, sep: char)
    requires sep !in a
    ensures Split(a + t, sep) == [a + Split(t, sep)[0]] + Split(t, sep)[1..]
    decreases |a|
  {
    if |a| > 0 {
      assert (a + t)[1..] == a[1..] + t;
      SplitPrefix(a[1..], t, sep);
      var rest := Split(a[1..] + t, sep);
      assert rest == [a[1..] + Split(t, sep)[0]] + Split(t, sep)[1..];
      assert rest[1..] == Split(t, sep)[1..];
      assert [a[0]] + (a[1..] + Split(t, sep)[0]) == a + Split(t, sep)[0];
    } else {
      assert a + t == t;
      assert a + Split(t, sep)[0] == Split(t, sep)[0];
      assert Split(t, sep) == [Split(t, sep)[0]] + Split(t, sep)[1..];
    }
  }

  /** Splitting undoes joining when no piece holds the separator. */
  lemma {:induction false} SplitJoin(parts: seq<string>, sep: char)
    requires |parts| >= 1
    requires forall i :: 0 <= i < |parts| ==> sep !in parts[i]
    ensures Split(Join(parts, sep), sep) == parts
    decreases |parts|
  {
    if |parts| == 1 {
      SplitPrefix(parts[0], "", sep);
      assert parts[0] + "" == parts[0];
      assert Split("", sep) == [""];
    } else {
      var rest := Join(parts[1..], sep);
      SplitJoin(parts[1..], sep);
      assert parts[0] + [sep] + rest == parts[0] + ([sep] + rest);
      SplitPrefix(parts[0], [sep] + rest, sep);
      assert ([sep] + rest)[1..] == rest;
      assert Split([sep] + rest, sep) == [""] + parts[1..];
      assert ([""] + parts[1..])[1..] == parts[1..];
      assert parts[0] + "" == parts[0];
      assert parts == [parts[0]] + parts[1..];
    }
  }

  /** Joining pieces of width two: each piece sits at offset 3k and the
      separator at 3k + 2. */
  lemma {:induction false} JoinWidthTwo(parts: seq<string>, sep: char)
    requires |parts| >= 1
    requires forall i :: 0 <= i < |parts| ==> |parts[i]| == 2
    ensures |Join(parts, sep)| == 3 * |parts| - 1
    ensures forall k :: 0 <= k < |parts| ==> Join(parts, sep)[3 * k..3 * k + 2] == parts[k]
    ensures forall k :: 0 <= k < |parts| - 1 ==> Join(parts, sep)[3 * k + 2] == sep
    decreases |parts|
  {
    if |parts| > 1 {
      var j := Join(parts, sep);
      var rest := Join(parts[1..], sep);
      JoinWidthTwo(parts[1..], sep);
      assert j == parts[0] + [sep] + rest;
      forall k | 0 <= k < |parts|
        ensures j[3 * k..3 * k + 2] == parts[k]
      {
        if k > 0 {
          assert j[3 * k..3 * k + 2] == rest[3 * (k - 1)..3 * (k - 1) + 2];
        }
      }
      forall k | 0 <= k < |parts| - 1
        ensures j[3 * k + 2] == sep
      {
        if k > 0 {
          assert j[3 * k + 2] == rest[3 * (k - 1) + 2];
        }
      }
    }
  }

  /** `s[:n]` for n >= 0. */
  function Truncate(s: string, n: nat): (r: string)
    ensures |r| == Min(|s|, n)
    ensures r == s[..|r|]
  {
    if |s| <= n then s else s[..n]
  }

  /** ASCII upper-casing of one character. */
  function UpperChar(c: char): char
  {
    if 'a' <= c <= 'z' then (c as int - 'a' as int + 'A' as int) as char else c
  }

  /** `s.upper()` restricted to ASCII letters. */
  function Upper(s: string): (r: string)
    ensures |r| == |s|
    ensures forall i :: 0 <= i < |s| ==> r[i] == UpperChar(s[i])
  {
    seq(|s|, i requires 0 <= i < |s| => UpperChar(s[i]))
  }

  /** Length of the longest prefix of s whose every character satisfies p. */
  function Span(s: string, p: char -> bool): (n: nat)
    ensures n <= |s|
    ensures forall i :: 0 <= i < n ==> p(s[i])
    ensures n < |s| ==> !p(s[n])
    decreases |s|
  {
    if |s| == 0 || !p(s[0]) then 0 else 1 + Span(s[1..], p)
  }

  /** The longest prefix is unique: a run of p-characters followed by a
      character outside p (or by the end) has exactly the length Span finds. */
  lemma {:induction false} SpanExact(s: string, p: char -> bool, n: nat)
    requires n <= |s|
    requires forall i :: 0 <= i < n ==> p(s[i])
    requires n < |s| ==> !p(s[n])
    ensures Span(s, p) == n
  {
  }
}
