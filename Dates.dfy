/**
 * The date column: finding the first `\d{2}-\d{2}-\d{4}` in a line, and
 * rearranging a `DD-MM-YYYY` date into Tally's `YYYYMMDD`.
 */
module Dates {
  import opened Wrappers
  import opened Text

  /** The ten characters of `s` from `k` have the shape `NN-NN-NNNN`. */
  predicate IsDateAt(s: string, k: nat) {
    && k + 10 <= |s|
    && IsDigit(s[k]) && IsDigit(s[k + 1]) && s[k + 2] == '-'
    && IsDigit(s[k + 3]) && IsDigit(s[k + 4]) && s[k + 5] == '-'
    && IsDigit(s[k + 6]) && IsDigit(s[k + 7]) && IsDigit(s[k + 8]) && IsDigit(s[k + 9])
  }

  /** `d` is exactly one `NN-NN-NNNN` date. */
  predicate IsDateShape(d: string) {
    |d| == 10 && IsDateAt(d, 0)
  }

  /** A date is a single token: it holds no white space. */
  lemma DateIsSpaceFree(d: string)
    requires IsDateShape(d)
    ensures SpaceFree(d)
  {
    forall k | 0 <= k < |d| ensures !IsSpace(d[k]) {
      if k == 2 || k == 5 {
        assert d[k] == '-';
      } else {
        assert IsDigit(d[k]);
      }
    }
  }

  /** Some substring of `s` is a date. */
  predicate HasDate(s: string) {
    exists k :: 0 <= k <= |s| && IsDateAt(s, k)
  }

  /**
   * The leftmost position at or after `from` where a date starts, as the
   * regular-expression search tries the positions of the line in order.
   */
  function FindDate(s: string, from: nat): (r: Option<nat>)
    requires from <= |s|
    ensures r.Some? ==> from <= r.value && r.value + 10 <= |s|
    decreases |s| - from
  {
    if IsDateAt(s, from) then Some(from)
    else if from + 10 >= |s| then None
    else FindDate(s, from + 1)
  }

  /** The search finds a date exactly when there is one, and then the leftmost. */
  lemma {:induction false} FindDateSpec(s: string, from: nat)
    requires from <= |s|
    ensures FindDate(s, from).Some? ==> IsDateAt(s, FindDate(s, from).value)
    ensures FindDate(s, from).Some? ==> forall k :: from <= k < FindDate(s, from).value ==> !IsDateAt(s, k)
    ensures FindDate(s, from).None? ==> forall k :: from <= k <= |s| ==> !IsDateAt(s, k)
    decreases |s| - from
  {
    if !IsDateAt(s, from) && from + 10 < |s| {
      FindDateSpec(s, from + 1);
    }
  }

  /**
   * `line.match(/\d{2}-\d{2}-\d{4}/)`: the first date of the line, as it is
   * written there, or `None` when the line has none.
   */
  function MatchDate(line: string): (r: Option<string>)
    ensures r.Some? ==> |r.value| == 10
  {
    match FindDate(line, 0)
    case None => None
    case Some(k) => Some(line[k..k + 10])
  }

  /**
   * A line matches exactly when it holds a date; the match is a date, and it
   * is the substring at the leftmost position where a date starts.
   */
  lemma MatchDateSpec(line: string)
    ensures MatchDate(line).None? <==> !HasDate(line)
    ensures MatchDate(line).Some? ==> IsDateShape(MatchDate(line).value)
    ensures MatchDate(line).Some? ==>
              exists k :: 0 <= k <= |line| && IsDateAt(line, k) && MatchDate(line).value == line[k..k + 10]
                          && forall j :: 0 <= j < k ==> !IsDateAt(line, j)
  {
    FindDateSpec(line, 0);
    if FindDate(line, 0).Some? {
      var k := FindDate(line, 0).value;
      var d := line[k..k + 10];
      assert IsDateAt(line, k);
      assert forall i :: 0 <= i < 10 ==> d[i] == line[k + i];
      assert IsDateShape(d);
    }
  }

  /** A destructured array element that does not exist renders as `undefined` in a template literal. */
  const Undefined := "undefined"

  /**
   * `parseDate`: split at `-` into day, month and year and write them as
   * year, month, day. Missing parts render as `undefined`; parts after the
   * third are dropped.
   */
  function ParseDate(dateValue: string): string {
    var parts := SplitOn(dateValue, '-');
    var day := parts[0];
    var month := if |parts| > 1 then parts[1] else Undefined;
    var year := if |parts| > 2 then parts[2] else Undefined;
    year + month + day
  }

  /** For `d-m-y` with dash-free fields, `parseDate` gives `y ++ m ++ d`. */
  lemma ParseDateFields(d: string, m: string, y: string)
    requires '-' !in d && '-' !in m && '-' !in y
    ensures ParseDate(d + "-" + m + "-" + y) == y + m + d
  {
    var parts := [d, m, y];
    assert parts[1..] == [m, y] && parts[1..][1..] == [y];
    assert JoinWith([m, y], "-") == m + "-" + y;
    assert JoinWith(parts, "-") == d + "-" + (m + "-" + y);
    assert d + "-" + (m + "-" + y) == d + "-" + m + "-" + y;
    SplitOnJoin(parts, '-');
  }

  /**
   * A `DD-MM-YYYY` date becomes `YYYYMMDD`: eight digits made of the
   * input's year, month and day groups, and nothing else.
   */
  lemma ParseDateOfShape(v: string)
    requires IsDateShape(v)
    ensures ParseDate(v) == v[6..10] + v[3..5] + v[..2]
    ensures |ParseDate(v)| == 8
    ensures forall k :: 0 <= k < 8 ==> IsDigit(ParseDate(v)[k])
    ensures multiset(ParseDate(v)) + multiset{'-', '-'} == multiset(v)
  {
    var d, m, y := v[..2], v[3..5], v[6..10];
    DateGroups(v);
    ParseDateFields(d, m, y);
    GroupsReordered(d, m, y);
    var r := y + m + d;
    forall k | 0 <= k < 8 ensures IsDigit(r[k]) {
      if k < 4 {
        assert r[k] == v[6 + k];
      } else if k < 6 {
        assert r[k] == v[k - 1];
      } else {
        assert r[k] == v[k - 6];
      }
    }
  }

  /** Writing the groups in another order without the dashes keeps all their characters. */
  lemma GroupsReordered(d: string, m: string, y: string)
    ensures multiset(y + m + d) + multiset{'-', '-'} == multiset(d + "-" + m + "-" + y)
  {
    assert multiset(d + "-" + m + "-" + y) == multiset(d) + multiset("-") + multiset(m) + multiset("-") + multiset(y);
    assert multiset(y + m + d) == multiset(y) + multiset(m) + multiset(d);
  }

  /** A well-formed date is its day, month and year groups joined by dashes. */
  lemma DateGroups(v: string)
    requires IsDateShape(v)
    ensures v == v[..2] + "-" + v[3..5] + "-" + v[6..10]
    ensures '-' !in v[..2] && '-' !in v[3..5] && '-' !in v[6..10]
  {
    assert v[2..3] == "-" && v[5..6] == "-";
    assert v == v[..2] + v[2..3] + v[3..5] + v[5..6] + v[6..10];
    assert forall i :: 0 <= i < 2 ==> v[..2][i] == v[i] && v[3..5][i] == v[3 + i];
    assert forall i :: 0 <= i < 4 ==> v[6..10][i] == v[6 + i];
  }

  /** `YYYYMMDD` written back as `DD-MM-YYYY`. */
  function FormatDate(r: string): (v: string)
    requires |r| == 8
    ensures |v| == 10
  {
    r[6..8] + "-" + r[4..6] + "-" + r[..4]
  }

  /** Rearranging loses nothing: a well-formed date is recovered from its `YYYYMMDD` form. */
  lemma ParseDateRoundTrip(v: string)
    requires IsDateShape(v)
    ensures |ParseDate(v)| == 8 && FormatDate(ParseDate(v)) == v
  {
    ParseDateOfShape(v);
    var r := ParseDate(v);
    assert r[6..8] == v[..2] && r[4..6] == v[3..5] && r[..4] == v[6..10];
    assert v == v[..2] + "-" + v[3..5] + "-" + v[6..10];
  }

  /** The worked example: 15 June 2024. */
  lemma ParseDateExample(v: string)
    requires v == "15-06-2024"
    ensures ParseDate(v) == "20240615"
  {
    assert IsDateShape(v);
    DateGroups(v);
    ParseDateFields(v[..2], v[3..5], v[6..10]);
    var r := ParseDate(v);
    assert r == v[6..10] + v[3..5] + v[..2];
    assert r[0] == v[6] && r[1] == v[7] && r[2] == v[8] && r[3] == v[9];
    assert r[4] == v[3] && r[5] == v[4] && r[6] == v[0] && r[7] == v[1];
  }
}
