/** DurationUtil: compound durations such as "1d2h30m".

    The source matches the trimmed, lowercased text against the regular
    expression `(?:(\d+)d)?(?:(\d+)h)?(?:(\d+)m)?(?:(\d+)s)?` and sums the
    groups. Here the regular expression's language is written out directly
    (`Render` of four optional digit groups) and the parser is a scanner
    that is proved to accept exactly that language. */
module Durations {
  import opened Common

  /** One hour, used when a session has no duration. */
  const DEFAULT_DURATION_SECONDS: nat := 3600

  /** The unit letters in the order the grammar demands them. */
  const UNITS: string := "dhms"

  /** Seconds per unit: day, hour, minute, second. */
  function Weight(k: nat): nat
    requires k < 4
  {
    if k == 0 then 86400 else if k == 1 then 3600 else if k == 2 then 60 else 1
  }

  /** Capture groups 1..4 of the pattern: the digits before `d`, `h`, `m`
      and `s`, or None when the group did not participate in the match. */
  type Groups = g: seq<Option<string>> | |g| == 4 witness [None, None, None, None]

  predicate IsNumeral(s: string) {
    |s| >= 1 && forall i :: 0 <= i < |s| ==> IsDigit(s[i])
  }

  /** Every present group is a non-empty run of ASCII digits (`\d+`). */
  predicate WellFormed(g: Groups) {
    forall k :: 0 <= k < 4 && g[k].Some? ==> IsNumeral(g[k].value)
  }

  /** The text a group contributes: its digits and its unit letter. */
  function Piece(g: Groups, k: nat): string
    requires k < 4
  {
    if g[k].Some? then g[k].value + [UNITS[k]] else ""
  }

  /** The text matched by groups k..3, in grammar order. */
  function RenderFrom(g: Groups, k: nat): string
    requires k <= 4
    decreases 4 - k
  {
    if k == 4 then "" else Piece(g, k) + RenderFrom(g, k + 1)
  }

  /** The language of the pattern: exactly the strings `Render(g)` for a
      well-formed `g`. */
  function Render(g: Groups): string {
    RenderFrom(g, 0)
  }

  /** Groups that did not participate count as 0 (`parseGroup`). */
  function GroupValue(o: Option<string>): nat {
    if o.Some? && IsNumeral(o.value) then DigitsValue(o.value) else 0
  }

  /** days*86400 + hours*3600 + minutes*60 + seconds. */
  function Total(g: Groups): nat {
    GroupValue(g[0]) * 86400 + GroupValue(g[1]) * 3600 + GroupValue(g[2]) * 60 + GroupValue(g[3])
  }

  const NoGroups: Groups := [None, None, None, None]

  /** Length of the run of ASCII digits at the front of `s`. */
  function DigitRun(s: string): (n: nat)
    ensures n <= |s|
    ensures forall i :: 0 <= i < n ==> IsDigit(s[i])
    ensures n < |s| ==> !IsDigit(s[n])
  {
    if s != [] && IsDigit(s[0]) then 1 + DigitRun(s[1..]) else 0
  }

  /** Position of a unit letter in "dhms", or 4 for any other character. */
  function UnitIndex(c: char): (k: nat)
    ensures k <= 4
    ensures k < 4 ==> UNITS[k] == c
    ensures k == 4 ==> c !in UNITS
  {
    if c == 'd' then 0 else if c == 'h' then 1 else if c == 'm' then 2 else if c == 's' then 3 else 4
  }

  /** The scanner: reads `digits unit` pairs whose units come in strictly
      increasing grammar order, starting with units from index `stage` on. */
  function Scan(s: string, stage: nat): (r: Option<Groups>)
    requires stage <= 4
    decreases |s|
  {
    if s == [] then Some(NoGroups)
    else
      var n := DigitRun(s);
      if n == 0 || n == |s| then None
      else
        var k := UnitIndex(s[n]);
        if k == 4 || k < stage then None
        else match Scan(s[n + 1..], k + 1)
          case None => None
          case Some(g) => Some(g[k := Some(s[..n])])
  }

  /** One step of the scanner on a non-empty text it accepts: a run of
      digits, a unit letter no earlier than `stage`, and the scan of the rest. */
  lemma ScanStep(s: string, stage: nat) returns (n: nat, k: nat, g0: Groups)
    requires stage <= 4 && s != [] && Scan(s, stage).Some?
    ensures 0 < n < |s| && n == DigitRun(s)
    ensures k == UnitIndex(s[n]) && stage <= k < 4
    ensures Scan(s[n + 1..], k + 1) == Some(g0)
    ensures Scan(s, stage) == Some(g0[k := Some(s[..n])])
  {
    n := DigitRun(s);
    k := UnitIndex(s[n]);
    g0 := Scan(s[n + 1..], k + 1).value;
  }

  /** The scanner applied to `digits unit rest`, for a unit allowed at `stage`. */
  lemma ScanPiece(digits: string, k: nat, rest: string, stage: nat)
    requires IsNumeral(digits) && stage <= k < 4
    requires Scan(rest, k + 1).Some?
    ensures Scan(digits + [UNITS[k]] + rest, stage) == Some(Scan(rest, k + 1).value[k := Some(digits)])
  {
    var s := digits + [UNITS[k]] + rest;
    DigitRunOf(digits, UNITS[k], rest);
    assert s[|digits|] == UNITS[k];
    assert s[..|digits|] == digits;
    assert s[|digits| + 1..] == rest;
  }

  /** Rendering a group set whose first present group at or after `stage`
      is k: that group's digits, its unit, and the rest. */
  lemma RenderPiece(g0: Groups, stage: nat, k: nat, digits: string)
    requires stage <= k < 4
    requires forall j :: stage <= j < k ==> g0[j].None?
    ensures RenderFrom(g0[k := Some(digits)], stage) == digits + [UNITS[k]] + RenderFrom(g0, k + 1)
  {
    var g := g0[k := Some(digits)];
    RenderAgree(g, g0, k + 1);
    RenderSkip(g, stage, k);
  }

  /** The scanned text is rebuilt from its first digit run, its unit and
      the rendering of the rest. */
  lemma RenderSplit(s: string, stage: nat, n: nat, k: nat, g0: Groups)
    requires 0 < n < |s| && stage <= k < 4 && s[n] == UNITS[k]
    requires forall j :: stage <= j < k ==> g0[j].None?
    requires RenderFrom(g0, k + 1) == s[n + 1..]
    ensures RenderFrom(g0[k := Some(s[..n])], stage) == s
  {
    var g := g0[k := Some(s[..n])];
    RenderAgree(g, g0, k + 1);
    assert Piece(g, k) == s[..n] + [s[n]];
    assert s == s[..n] + [s[n]] + s[n + 1..];
    RenderSkip(g, stage, k);
  }

  /** What the scanner returns is a well-formed set of groups, with nothing
      before `stage`, that renders back to the scanned text. */
  lemma {:induction false} ScanSound(s: string, stage: nat)
    requires stage <= 4
    requires Scan(s, stage).Some?
    ensures WellFormed(Scan(s, stage).value)
    ensures forall k :: 0 <= k < stage ==> Scan(s, stage).value[k].None?
    ensures RenderFrom(Scan(s, stage).value, stage) == s
    decreases |s|
  {
    if s == [] {
      RenderSkip4(NoGroups, stage);
    } else {
      var n, k, g0 := ScanStep(s, stage);
      ScanSound(s[n + 1..], k + 1);
      RenderSplit(s, stage, n, k, g0);
      assert IsNumeral(s[..n]);
    }
  }

  /** Groups before index k that are absent contribute nothing. */
  lemma {:induction false} RenderSkip(g: Groups, stage: nat, k: nat)
    requires stage <= k < 4
    requires forall j :: stage <= j < k ==> g[j].None?
    ensures RenderFrom(g, stage) == RenderFrom(g, k)
    decreases k - stage
  {
    if stage < k {
      RenderSkip(g, stage + 1, k);
    }
  }

  /** Rendering from k depends only on groups k..3. */
  lemma {:induction false} RenderAgree(g: Groups, h: Groups, k: nat)
    requires k <= 4
    requires forall j :: k <= j < 4 ==> g[j] == h[j]
    ensures RenderFrom(g, k) == RenderFrom(h, k)
    decreases 4 - k
  {
    if k < 4 {
      RenderAgree(g, h, k + 1);
    }
  }

  /** The scanner accepts every string of the pattern's language and returns
      exactly the groups it was rendered from. */
  lemma {:induction false} ScanComplete(g: Groups, stage: nat)
    requires stage <= 4
    requires WellFormed(g)
    requires forall k :: 0 <= k < stage ==> g[k].None?
    ensures Scan(RenderFrom(g, stage), stage) == Some(g)
    decreases 4 - stage
  {
    var first := FirstPresent(g, stage);
    if first == 4 {
      RenderSkip4(g, stage);
      assert g == NoGroups;
    } else {
      var digits := g[first].value;
      var g0 := g[first := None];
      assert g0[first := Some(digits)] == g;
      RenderPiece(g0, stage, first, digits);
      ScanComplete(g0, first + 1);
      ScanPiece(digits, first, RenderFrom(g0, first + 1), stage);
    }
  }

  /** Index of the first present group at or after `stage`, or 4. */
  function FirstPresent(g: Groups, stage: nat): (k: nat)
    requires stage <= 4
    ensures stage <= k <= 4
    ensures forall j :: stage <= j < k ==> g[j].None?
    ensures k < 4 ==> g[k].Some?
    decreases 4 - stage
  {
    if stage == 4 || g[stage].Some? then stage else FirstPresent(g, stage + 1)
  }

  lemma {:induction false} RenderSkip4(g: Groups, stage: nat)
    requires stage <= 4
    requires forall j :: stage <= j < 4 ==> g[j].None?
    ensures RenderFrom(g, stage) == ""
    decreases 4 - stage
  {
    if stage < 4 {
      RenderSkip4(g, stage + 1);
    }
  }

  lemma {:induction false} DigitRunOf(digits: string, u: char, rest: string)
    requires IsNumeral(digits) && !IsDigit(u)
    ensures DigitRun(digits + [u] + rest) == |digits|
    decreases |digits|
  {
    var s := digits + [u] + rest;
    if |digits| > 1 {
      assert s[1..] == digits[1..] + [u] + rest;
      DigitRunOf(digits[1..], u, rest);
    } else {
      assert s[1..] == [u] + rest;
    }
  }

  /** `DurationUtil.parseDurationSeconds`: blank text and texts outside the
      grammar give None, and so does a zero total; otherwise the total
      number of seconds, which is always positive. */
  function ParseDurationSeconds(raw: string): (r: Option<nat>)
    ensures IsBlank(raw) ==> r.None?
    ensures r.Some? ==> r.value > 0
  {
    if IsBlank(raw) then None
    else
      match Scan(Lower(Trim(raw)), 0)
      case None => None
      case Some(g) => var total := Total(g); if total == 0 then None else Some(total)
  }

  /** Soundness: an accepted text is, once trimmed and lowercased, a word
      of the pattern's language, and the result is its weighted sum. */
  lemma ParseAcceptsOnlyGrammar(raw: string)
    requires ParseDurationSeconds(raw).Some?
    ensures !IsBlank(raw)
    ensures exists g: Groups ::
      WellFormed(g) && Render(g) == Lower(Trim(raw)) && Total(g) == ParseDurationSeconds(raw).value
  {
    var g := Scan(Lower(Trim(raw)), 0).value;
    ScanSound(Lower(Trim(raw)), 0);
  }

  /** Completeness: every non-blank text that trims and lowercases to a word
      of the language with a positive total is accepted with that total. */
  lemma ParseAcceptsGrammar(raw: string, g: Groups)
    requires !IsBlank(raw) && WellFormed(g) && Render(g) == Lower(Trim(raw))
    requires Total(g) > 0
    ensures ParseDurationSeconds(raw) == Some(Total(g))
  {
    ScanComplete(g, 0);
  }

  /** A zero total is rejected even though it is in the language. */
  lemma ZeroTotalRejected(raw: string, g: Groups)
    requires WellFormed(g) && Render(g) == Lower(Trim(raw))
    requires Total(g) == 0
    ensures ParseDurationSeconds(raw).None?
  {
    ScanComplete(g, 0);
  }

  /** "1d2h30m" is one day, two hours and thirty minutes. */
  lemma ExampleDaysHoursMinutes()
    ensures ParseDurationSeconds("1d2h30m") == Some(95400)
  {
    var g: Groups := [Some("1"), Some("2"), Some("30"), None];
    var raw := "1d2h30m";
    assert Render(g) == Lower(Trim(raw)) by {
      LowerTrimOfPlain(raw);
      assert Render(g) == raw;
    }
    assert WellFormed(g);
    assert Total(g) == 95400 by {
      assert DigitsValue("30") == 30 by { assert "30"[..1] == "3"; }
    }
    assert !IsBlank(raw) by { assert !IsWhitespace(raw[0]); }
    ParseAcceptsGrammar(raw, g);
  }

  lemma ExampleMinutes()
    ensures ParseDurationSeconds("45m") == Some(2700)
  {
    var g: Groups := [None, None, Some("45"), None];
    assert Render(g) == "45m";
    TrimOfTrimmed("45m");
    assert Lower("45m") == "45m";
    assert DigitsValue("45") == 45 by { assert "45"[..1] == "4"; }
    ParseAcceptsGrammar("45m", g);
  }

  /** Surrounding spaces are trimmed and the unit letter is case-insensitive. */
  lemma ExampleTrimmedUpperCase()
    ensures ParseDurationSeconds(" 2H ") == Some(7200)
  {
    var g: Groups := [None, Some("2"), None, None];
    var raw := " 2H ";
    assert Render(g) == Lower(Trim(raw)) by {
      assert Trim(raw) == "2H" by {
        assert TrimStart(raw) == "2H ";
        assert TrimEnd("2H ") == "2H";
      }
      assert Lower("2H") == "2h";
      assert Render(g) == "2h";
    }
    assert WellFormed(g);
    assert Total(g) == 7200;
    assert !IsBlank(raw) by { assert !IsWhitespace(raw[1]); }
    ParseAcceptsGrammar(raw, g);
  }

  /** "0s" is in the grammar but totals zero, so it is rejected. */
  lemma ExampleZero()
    ensures ParseDurationSeconds("0s").None?
  {
    var g: Groups := [None, None, None, Some("0")];
    assert Render(g) == "0s";
    TrimOfTrimmed("0s");
    assert Lower("0s") == "0s";
    ZeroTotalRejected("0s", g);
  }

  /** No separators are allowed between the components. */
  lemma ExampleInnerSpace()
    ensures ParseDurationSeconds("2h 3m").None?
  {
    TrimOfTrimmed("2h 3m");
    assert Lower("2h 3m") == "2h 3m";
    assert DigitRun("2h 3m") == 1;
    assert "2h 3m"[2..] == " 3m";
    assert DigitRun(" 3m") == 0;
  }

  /** Components must come in the order days, hours, minutes, seconds. */
  lemma ExampleOutOfOrder()
    ensures ParseDurationSeconds("3m2h").None?
  {
    TrimOfTrimmed("3m2h");
    assert Lower("3m2h") == "3m2h";
    assert DigitRun("3m2h") == 1;
    assert "3m2h"[2..] == "2h";
    assert DigitRun("2h") == 1;
  }
}
