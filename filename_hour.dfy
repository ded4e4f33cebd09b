/**
 * `extractHourFromFilename`: the hour a filename names, found with three
 * fixed regular expressions tried in order, case-insensitively, each by its
 * leftmost match. The model of the three patterns is written out directly:
 *   DigitsBefore("hour")  is  ([0-9]{1,2})hour
 *   DigitsBefore(".")     is  ([0-9]{1,2})\.
 *   DigitsAfter("hour")   is  hour([0-9]{1,2})
 * Both revisions of the audio table use this same function.
 */
module FilenameHour {
  import opened Wrappers
  import opened Text

  datatype Pattern = DigitsBefore(literal: string) | DigitsAfter(literal: string)

  const Patterns: seq<Pattern> := [DigitsBefore("hour"), DigitsBefore("."), DigitsAfter("hour")]

  /** The literal occurs at position `i` of `s`, ignoring ASCII case. */
  predicate LiteralAt(s: string, i: int, literal: string) {
    0 <= i && i + |literal| <= |s| && Lower(s[i..i + |literal|]) == Lower(literal)
  }

  /**
   * The captured group of a match of `p` that starts at position `i`, if
   * one does. `{1,2}` is greedy: two digits are tried before one.
   */
  function MatchAt(p: Pattern, s: string, i: nat): (group: Option<string>)
    ensures group.Some? ==> 1 <= |group.value| <= 2 && AllDigits(group.value)
  {
    match p
    case DigitsBefore(literal) =>
      if i + 2 <= |s| && IsDigit(s[i]) && IsDigit(s[i + 1]) && LiteralAt(s, i + 2, literal) then
        Some(s[i..i + 2])
      else if i + 1 <= |s| && IsDigit(s[i]) && LiteralAt(s, i + 1, literal) then
        Some(s[i..i + 1])
      else
        None
    case DigitsAfter(literal) =>
      var j := i + |literal|;
      if LiteralAt(s, i, literal) && j < |s| && IsDigit(s[j]) then
        if j + 1 < |s| && IsDigit(s[j + 1]) then Some(s[j..j + 2]) else Some(s[j..j + 1])
      else
        None
  }

  /** `j` is the leftmost position at or after `i` where `p` matches. */
  predicate LeftmostFrom(p: Pattern, s: string, i: nat, j: nat) {
    i <= j <= |s| && MatchAt(p, s, j).Some? &&
    forall k :: i <= k < j ==> MatchAt(p, s, k).None?
  }

  /** The group a match starting at each position 0 to `|s|` of `s` would capture. */
  function MatchesOf(p: Pattern, s: string): (m: seq<Option<string>>)
    ensures |m| == |s| + 1
    ensures forall j :: 0 <= j <= |s| ==> m[j] == MatchAt(p, s, j)
  {
    seq(|s| + 1, (j: int) requires 0 <= j => MatchAt(p, s, j))
  }

  /** The first present group in `m[i..]`, scanning left to right. */
  function FirstSomeFrom(m: seq<Option<string>>, i: nat): (group: Option<string>)
    requires i <= |m|
    ensures group.None? <==> forall j :: i <= j < |m| ==> m[j].None?
    ensures group.Some? ==> exists j :: i <= j < |m| && m[j] == group && forall k :: i <= k < j ==> m[k].None?
    decreases |m| - i
  {
    if i == |m| then None
    else if m[i].Some? then m[i]
    else
      var rest := FirstSomeFrom(m, i + 1);
      assert rest.Some? ==> exists j :: i <= j < |m| && m[j] == rest && forall k :: i <= k < j ==> m[k].None? by {
        if rest.Some? {
          var j :| i + 1 <= j < |m| && m[j] == rest && forall k :: i + 1 <= k < j ==> m[k].None?;
          assert forall k :: i <= k < j ==> m[k].None?;
        }
      }
      rest
  }

  /** The scan stops at the leftmost present group. */
  lemma {:induction false} FirstSomeIsLeftmost(m: seq<Option<string>>, i: nat, j: nat)
    requires i <= j < |m| && m[j].Some?
    requires forall k :: i <= k < j ==> m[k].None?
    ensures FirstSomeFrom(m, i) == m[j]
    decreases j - i
  {
    if i < j {
      assert m[i].None?;
      FirstSomeIsLeftmost(m, i + 1, j);
    }
  }

  /** The first match of `p` in `s[i..]`, scanning left to right. */
  function FirstMatchFrom(p: Pattern, s: string, i: nat): (group: Option<string>)
    requires i <= |s|
    ensures group.None? <==> forall j :: i <= j <= |s| ==> MatchAt(p, s, j).None?
    ensures group.Some? ==> exists j :: LeftmostFrom(p, s, i, j) && MatchAt(p, s, j) == group
  {
    var m := MatchesOf(p, s);
    var group := FirstSomeFrom(m, i);
    assert group.Some? ==> exists j :: LeftmostFrom(p, s, i, j) && MatchAt(p, s, j) == group by {
      if group.Some? {
        var j :| i <= j < |m| && m[j] == group && forall k :: i <= k < j ==> m[k].None?;
        assert LeftmostFrom(p, s, i, j);
      }
    }
    group
  }

  /** The scan returns exactly the group at the leftmost matching position. */
  lemma FirstMatchIsLeftmost(p: Pattern, s: string, i: nat, j: nat)
    requires LeftmostFrom(p, s, i, j)
    ensures FirstMatchFrom(p, s, i) == MatchAt(p, s, j)
  {
    FirstSomeIsLeftmost(MatchesOf(p, s), i, j);
  }

  /** `NSRegularExpression.firstMatch(in:)` over the whole filename. */
  function FirstMatch(p: Pattern, s: string): (group: Option<string>)
    ensures group.None? <==> forall j :: 0 <= j <= |s| ==> MatchAt(p, s, j).None?
    ensures group.Some? ==> 1 <= |group.value| <= 2 && AllDigits(group.value)
    ensures group.Some? ==> exists j :: LeftmostFrom(p, s, 0, j) && MatchAt(p, s, j) == group
  {
    FirstMatchFrom(p, s, 0)
  }

  /**
   * The patterns tried in order: the first one whose leftmost match reads
   * as 0 to 23 decides; an out-of-range match falls through to the next
   * pattern, never to a later match of the same pattern.
   */
  function HourFromPatterns(s: string, ps: seq<Pattern>): (hour: Option<int>)
    ensures hour.Some? ==> 0 <= hour.value <= 23
    ensures hour.Some? ==> exists k :: 0 <= k < |ps| && MatchedHour(ps[k], s) == hour
  {
    if ps == [] then None
    else
      var rest := HourFromPatterns(s, ps[1..]);
      assert rest.Some? ==> exists k :: 0 <= k < |ps| && MatchedHour(ps[k], s) == rest by {
        if rest.Some? {
          var k :| 0 <= k < |ps[1..]| && MatchedHour(ps[1..][k], s) == rest;
          assert ps[k + 1] == ps[1..][k];
        }
      }
      match MatchedHour(ps[0], s)
      case Some(h) => Some(h)
      case None => rest
  }

  /** The hour read from the leftmost match of one pattern, if it is 0 to 23. */
  function MatchedHour(p: Pattern, s: string): (hour: Option<int>)
    ensures hour.Some? <==> FirstMatch(p, s).Some? && DigitsValue(FirstMatch(p, s).value) <= 23
    ensures hour.Some? ==> hour.value == DigitsValue(FirstMatch(p, s).value) && 0 <= hour.value <= 23
  {
    match FirstMatch(p, s)
    case Some(g) => if DigitsValue(g) <= 23 then Some(DigitsValue(g)) else None
    case None => None
  }

  function HourFromFilename(filename: string): (hour: Option<int>)
    ensures hour.Some? ==> 0 <= hour.value <= 23
  {
    HourFromPatterns(filename, Patterns)
  }

  /** `extractHourFromFilename`, looping over the patterns with an early return. */
  method ExtractHourFromFilename(filename: string) returns (hour: Option<int>)
    ensures hour == HourFromFilename(filename)
    ensures hour.Some? ==> 0 <= hour.value <= 23
  {
    var i := 0;
    while i < |Patterns|
      invariant 0 <= i <= |Patterns|
      invariant HourFromPatterns(filename, Patterns[i..]) == HourFromFilename(filename)
    {
      var m := FirstMatch(Patterns[i], filename);
      if m.Some? {
        var value := DigitsValue(m.value);
        if 0 <= value && value <= 23 {
          return Some(value);
        }
      }
      i := i + 1;
    }
    return None;
  }

  /** A pattern is consulted only when every earlier pattern gave no hour in range. */
  lemma {:induction false} PatternOrder(s: string, ps: seq<Pattern>, k: nat)
    requires k < |ps|
    requires forall j :: 0 <= j < k ==> MatchedHour(ps[j], s).None?
    requires MatchedHour(ps[k], s).Some?
    ensures HourFromPatterns(s, ps) == MatchedHour(ps[k], s)
    decreases k
  {
    if k > 0 {
      assert MatchedHour(ps[0], s).None?;
      forall j | 0 <= j < k - 1
        ensures MatchedHour(ps[1..][j], s).None?
      {
        assert ps[1..][j] == ps[j + 1];
      }
      PatternOrder(s, ps[1..], k - 1);
    }
  }

  /** No hour comes out when no pattern yields one in range. */
  lemma {:induction false} NoPatternNoHour(s: string, ps: seq<Pattern>)
    requires forall j :: 0 <= j < |ps| ==> MatchedHour(ps[j], s).None?
    ensures HourFromPatterns(s, ps).None?
  {
    if ps != [] {
      forall j | 0 <= j < |ps| - 1
        ensures MatchedHour(ps[1..][j], s).None?
      {
        assert ps[1..][j] == ps[j + 1];
      }
      NoPatternNoHour(s, ps[1..]);
    }
  }
}
