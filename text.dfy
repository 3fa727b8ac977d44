/**
 * String operations shared by the block, bar and control-protocol models:
 * the display clamp of a block (truncate to a maximum, then pad with spaces
 * to a minimum), joining with a separator and splitting on one character.
 * Strings are sequences of characters; a length is a number of characters.
 */
module Text {
  import opened Wrappers

  /** `" ".repeat(n)` */
  function Spaces(n: nat): (r: string)
    ensures |r| == n
    ensures forall i :: 0 <= i < n ==> r[i] == ' '
  {
    if n == 0 then "" else Spaces(n - 1) + " "
  }

  /** How many leading characters of a string of length `n` survive truncation to `max`. */
  function KeptLength(n: nat, max: Option<nat>): (k: nat)
    ensures k <= n
    ensures max.Some? ==> k <= max.value
    ensures max.None? || n <= max.value ==> k == n
  {
    if max.Some? && max.value < n then max.value else n
  }

  /**
   * `s.truncate(max)` when a maximum is set: keeps the first `max`
   * characters, and leaves a string that is short enough alone.
   */
  function Truncate(s: string, max: Option<nat>): (r: string)
    ensures |r| == KeptLength(|s|, max)
    ensures r == s[..|r|]
  {
    if max.Some? && max.value < |s| then s[..max.value] else s
  }

  /**
   * `s.push_str(&" ".repeat(min - s.len()))` when a minimum is set and `s`
   * is shorter than it.
   */
  function Pad(s: string, min: Option<nat>): (r: string)
    ensures |r| == if min.Some? && |s| < min.value then min.value else |s|
    ensures r[..|s|] == s
    ensures forall i :: |s| <= i < |r| ==> r[i] == ' '
  {
    if min.Some? && |s| < min.value then s + Spaces(min.value - |s|) else s
  }

  /**
   * The clamp a block applies to its text: the first `KeptLength` characters
   * of `s`, followed by nothing but spaces, and exactly as long as `min`
   * demands when the truncated text is shorter than `min`.
   */
  function Clamp(s: string, min: Option<nat>, max: Option<nat>): (r: string)
    ensures var k := KeptLength(|s|, max);
      && |r| == (if min.Some? && k < min.value then min.value else k)
      && r[..k] == s[..k]
      && forall i :: k <= i < |r| ==> r[i] == ' '
  {
    Pad(Truncate(s, max), min)
  }

  /** Clamping an already clamped string changes nothing. */
  lemma ClampIdempotent(s: string, min: Option<nat>, max: Option<nat>)
    ensures Clamp(Clamp(s, min, max), min, max) == Clamp(s, min, max)
  {
    var t := Clamp(s, min, max);
    var k := KeptLength(|s|, max);
    var k' := KeptLength(|t|, max);
    var u := Clamp(t, min, max);
    // The characters t keeps are s's first k, then spaces up to position k'.
    assert k <= k';
    assert |u| == |t|;
    forall i | 0 <= i < |u|
      ensures u[i] == t[i]
    {
      if i < k' {
        assert u[..k'][i] == t[..k'][i];
      }
    }
  }

  /** With only a maximum, the clamp keeps the first `min(|s|, max)` characters. */
  lemma ClampWithoutMinimum(s: string, max: nat)
    ensures Clamp(s, None, Some(max)) == s[..if |s| < max then |s| else max]
  {
    var r := Clamp(s, None, Some(max));
    assert r == r[..KeptLength(|s|, Some(max))];
  }

  /** With a minimum, the clamp is at least that long and ends in nothing but spaces after the kept text. */
  lemma ClampPadsToMinimum(s: string, min: nat, max: Option<nat>)
    ensures var r := Clamp(s, Some(min), max);
      && |r| >= min
      && r == Truncate(s, max) + r[|Truncate(s, max)|..]
      && forall i :: |Truncate(s, max)| <= i < |r| ==> r[i] == ' '
  {
    var r := Clamp(s, Some(min), max);
    var t := Truncate(s, max);
    assert r[..|t|] == t;
    assert r == r[..|t|] + r[|t|..];
  }

  /** The two size examples: a long text cut to ten characters, a short one padded to twenty. */
  lemma ClampExamples()
    ensures Clamp("a very long string", None, Some(10)) == "a very lon"
    ensures Clamp("a short string", Some(20), None) == "a short string      "
  {
    assert Spaces(6) == "      " by {
      assert Spaces(1) == " ";
      assert Spaces(2) == "  ";
      assert Spaces(3) == "   ";
      assert Spaces(4) == "    ";
      assert Spaces(5) == "     ";
    }
  }

  /** `parts.join(sep)` */
  function Join(sep: string, parts: seq<string>): (r: string)
    ensures parts == [] ==> r == ""
    ensures |parts| >= 1 ==> parts[0] <= r
  {
    if |parts| == 0 then ""
    else if |parts| == 1 then parts[0]
    else parts[0] + sep + Join(sep, parts[1..])
  }

  /** Appending a part adds one separator unless the list was empty. */
  lemma {:induction false} JoinSnoc(sep: string, parts: seq<string>, last: string)
    ensures Join(sep, parts + [last]) == if parts == [] then last else Join(sep, parts) + sep + last
    decreases |parts|
  {
    if |parts| >= 2 {
      assert (parts + [last])[1..] == parts[1..] + [last];
      JoinSnoc(sep, parts[1..], last);
    } else if |parts| == 1 {
      assert (parts + [last])[1..] == [last];
    }
  }

  /** Text in front of the first part stays in front of the joined string. */
  lemma JoinPrepend(sep: string, a: string, b: string, rest: seq<string>)
    ensures Join(sep, [a + b] + rest) == a + Join(sep, [b] + rest)
  {
    assert ([a + b] + rest)[1..] == rest;
    assert ([b] + rest)[1..] == rest;
  }

  /**
   * `s.split(sep)`: the pieces between the occurrences of `sep`, always at
   * least one (the empty string gives one empty piece), none holding `sep`,
   * and joined back by `sep` they give `s`.
   */
  function Split(s: string, sep: char): (r: seq<string>)
    ensures |r| >= 1
    ensures forall i :: 0 <= i < |r| ==> sep !in r[i]
    ensures Join([sep], r) == s
    decreases |s|
  {
    if |s| == 0 then [""]
    else
      var rest := Split(s[1..], sep);
      if s[0] == sep then
        assert ([""] + rest)[1..] == rest;
        assert s == [sep] + s[1..];
        [""] + rest
      else
        JoinPrepend([sep], [s[0]], rest[0], rest[1..]);
        assert [rest[0]] + rest[1..] == rest;
        assert s == [s[0]] + s[1..];
        [[s[0]] + rest[0]] + rest[1..]
  }

  /** A string without the separator is one piece. */
  lemma {:induction false} SplitWithoutSeparator(p: string, sep: char)
    requires sep !in p
    ensures Split(p, sep) == [p]
    decreases |p|
  {
    if |p| > 0 {
      SplitWithoutSeparator(p[1..], sep);
      assert [p[0]] + p[1..] == p;
    }
  }

  /** Splitting stops the first piece at the first separator. */
  lemma {:induction false} SplitAtFirstSeparator(p: string, sep: char, t: string)
    requires sep !in p
    ensures Split(p + [sep] + t, sep) == [p] + Split(t, sep)
    decreases |p|
  {
    var s := p + [sep] + t;
    if |p| == 0 {
      assert s[1..] == t;
    } else {
      assert s[1..] == p[1..] + [sep] + t;
      SplitAtFirstSeparator(p[1..], sep, t);
      assert [p[0]] + p[1..] == p;
    }
  }

  /** Splitting undoes joining when no part holds the separator. */
  lemma {:induction false} SplitJoin(parts: seq<string>, sep: char)
    requires |parts| >= 1
    requires forall i :: 0 <= i < |parts| ==> sep !in parts[i]
    ensures Split(Join([sep], parts), sep) == parts
    decreases |parts|
  {
    if |parts| == 1 {
      SplitWithoutSeparator(parts[0], sep);
    } else {
      SplitJoin(parts[1..], sep);
      SplitAtFirstSeparator(parts[0], sep, Join([sep], parts[1..]));
      assert [parts[0]] + parts[1..] == parts;
    }
  }
}
