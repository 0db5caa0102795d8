/** MessageService: placeholder substitution in message templates and the
    relative close-time text. Loading messages.yml, MiniMessage rendering
    and sending are not part of this model. */
module Messages {
  import opened Common

  // ---------------------------------------------------------------------
  // Placeholder substitution

  /** `String.replace(target, repl)`: every occurrence of the target,
      scanning left to right and resuming after each match, is replaced;
      replaced text is not scanned again. */
  function ReplaceAll(s: string, target: string, repl: string): string
    requires |target| > 0
    decreases |s|
  {
    if |s| < |target| then s
    else if s[..|target|] == target then repl + ReplaceAll(s[|target|..], target, repl)
    else [s[0]] + ReplaceAll(s[1..], target, repl)
  }

  /** The target occurs in s starting at index i. */
  predicate OccursAt(s: string, target: string, i: nat) {
    i + |target| <= |s| && s[i..i + |target|] == target
  }

  /** The target occurs nowhere in s. */
  ghost predicate Absent(s: string, target: string) {
    forall i: nat :: !OccursAt(s, target, i)
  }

  /** Text without an occurrence of the target comes back unchanged. */
  lemma {:induction false} ReplaceAbsent(s: string, target: string, repl: string)
    requires |target| > 0 && Absent(s, target)
    ensures ReplaceAll(s, target, repl) == s
    decreases |s|
  {
    if |s| >= |target| {
      assert !OccursAt(s, target, 0);
      assert Absent(s[1..], target) by {
        forall i: nat
          ensures !OccursAt(s[1..], target, i)
        {
          assert !OccursAt(s, target, i + 1);
          if i + |target| <= |s[1..]| {
            assert s[1..][i..i + |target|] == s[i + 1..i + 1 + |target|];
          }
        }
      }
      ReplaceAbsent(s[1..], target, repl);
      assert s == [s[0]] + s[1..];
    }
  }

  /** Replacing the target by itself changes nothing. */
  lemma {:induction false} ReplaceBySelf(s: string, target: string)
    requires |target| > 0
    ensures ReplaceAll(s, target, target) == s
    decreases |s|
  {
    if |s| >= |target| {
      if s[..|target|] == target {
        ReplaceBySelf(s[|target|..], target);
        assert s == s[..|target|] + s[|target|..];
      } else {
        ReplaceBySelf(s[1..], target);
        assert s == [s[0]] + s[1..];
      }
    }
  }

  /** Text starting with the target: the target is replaced and the scan
      resumes right after it. */
  lemma ReplaceAtStart(target: string, b: string, repl: string)
    requires |target| > 0
    ensures ReplaceAll(target + b, target, repl) == repl + ReplaceAll(b, target, repl)
  {
    var s := target + b;
    assert s[..|target|] == target;
    assert s[|target|..] == b;
  }

  /** A first character that cannot start the target is kept. */
  lemma ReplaceSkipsChar(c: char, rest: string, target: string, repl: string)
    requires |target| > 0 && c != target[0]
    ensures ReplaceAll([c] + rest, target, repl) == [c] + ReplaceAll(rest, target, repl)
  {
    var s := [c] + rest;
    assert s[1..] == rest;
    if |s| >= |target| {
      assert s[..|target|][0] == c;
    } else {
      assert ReplaceAll(rest, target, repl) == rest;
    }
  }

  /** Text free of '{' before a placeholder is kept as it is, the
      placeholder is replaced, and the scan resumes right after it. */
  lemma {:induction false} ReplaceAfterPlainText(a: string, target: string, b: string, repl: string)
    requires |target| > 0 && target[0] == '{' && '{' !in a
    ensures ReplaceAll(a + (target + b), target, repl) == a + (repl + ReplaceAll(b, target, repl))
    decreases |a|
  {
    if a == [] {
      assert a + (target + b) == target + b;
      ReplaceAtStart(target, b, repl);
    } else {
      ConsConcat(a, target + b);
      ReplaceSkipsChar(a[0], a[1..] + (target + b), target, repl);
      ReplaceAfterPlainText(a[1..], target, b, repl);
      ConsConcat(a, repl + ReplaceAll(b, target, repl));
    }
  }

  /** Splitting off the first character of a non-empty prefix. */
  lemma ConsConcat(a: string, x: string)
    requires a != []
    ensures a + x == [a[0]] + (a[1..] + x)
  {
    assert a == [a[0]] + a[1..];
  }

  /** The text a key is written as inside a template. */
  function Placeholder(key: string): (t: string)
    ensures |t| == |key| + 2 && t[0] == '{' && t[|t| - 1] == '}'
    ensures t[1..|t| - 1] == key
  {
    "{" + key + "}"
  }

  /** A placeholder entry: key and value, in the map's iteration order. */
  type Entry = (string, string)

  /** The template after each entry's placeholder has been replaced in
      turn, in iteration order. */
  function Substitute(entries: seq<Entry>, template: string): string
    decreases |entries|
  {
    if entries == [] then template
    else Substitute(entries[1..], ReplaceAll(template, Placeholder(entries[0].0), entries[0].1))
  }

  /** `apply`. The source's map iterates in an order it does not fix; here
      the entries come in the order they are iterated. An absent (null)
      map is an empty sequence. */
  method Apply(entries: seq<Entry>, template: string) returns (result: string)
    ensures result == Substitute(entries, template)
    ensures entries == [] ==> result == template
  {
    if entries == [] {
      return template;
    }
    result := template;
    for i := 0 to |entries|
      invariant Substitute(entries[i..], result) == Substitute(entries, template)
    {
      assert entries[i..][1..] == entries[i + 1..];
      result := ReplaceAll(result, Placeholder(entries[i].0), entries[i].1);
    }
    assert entries[|entries|..] == [];
  }

  /** A template with no '{' contains no placeholder, so every map leaves
      it as it is. */
  lemma {:induction false} PlainTemplateUnchanged(entries: seq<Entry>, template: string)
    requires '{' !in template
    ensures Substitute(entries, template) == template
    decreases |entries|
  {
    if entries != [] {
      var t := Placeholder(entries[0].0);
      assert Absent(template, t) by {
        forall i: nat
          ensures !OccursAt(template, t, i)
        {
          if i + |t| <= |template| {
            assert template[i..i + |t|][0] == template[i];
          }
        }
      }
      ReplaceAbsent(template, t, entries[0].1);
      PlainTemplateUnchanged(entries[1..], template);
    }
  }

  /** A template made of plain text and one placeholder at its end, such
      as "Closes {time}", becomes the text followed by the value. */
  lemma SubstituteAtEnd(text: string, key: string, value: string)
    requires '{' !in text
    ensures Substitute([(key, value)], text + Placeholder(key)) == text + value
  {
    var t := Placeholder(key);
    assert t + "" == t;
    ReplaceAfterPlainText(text, t, "", value);
    assert ReplaceAll("", t, value) == "";
    assert [(key, value)][1..] == [];
  }

  // ---------------------------------------------------------------------
  // Relative time

  const SECONDS_PER_DAY: nat := 86400
  const SECONDS_PER_HOUR: nat := 3600
  const SECONDS_PER_MINUTE: nat := 60

  /** Whole days, hours and minutes. */
  datatype Span = Span(days: nat, hours: nat, minutes: nat)

  /** A number of seconds as whole days, hours below a day and minutes
      below an hour; the leftover seconds (fewer than 60) are dropped. */
  function SpanOf(seconds: nat): (s: Span)
    ensures s.hours < 24 && s.minutes < 60
    ensures var whole := s.days * SECONDS_PER_DAY + s.hours * SECONDS_PER_HOUR + s.minutes * SECONDS_PER_MINUTE;
            whole <= seconds < whole + SECONDS_PER_MINUTE
  {
    var rest := seconds % SECONDS_PER_DAY;
    Span(seconds / SECONDS_PER_DAY, rest / SECONDS_PER_HOUR, rest % SECONDS_PER_HOUR / SECONDS_PER_MINUTE)
  }

  /** The parts printed: days and hours only when non-zero, minutes when
      non-zero or when neither of the others is printed. */
  function Parts(s: Span): (p: seq<string>)
    ensures 1 <= |p| <= 3
  {
    (if s.days > 0 then [Decimal(s.days) + "d"] else [])
    + (if s.hours > 0 then [Decimal(s.hours) + "h"] else [])
    + (if s.minutes > 0 || (s.days == 0 && s.hours == 0) then [Decimal(s.minutes) + "m"] else [])
  }

  /** `formatRelativeTime`, as parts joined by single spaces: "in …" for a
      close time now or later, "… ago" for one in the past. */
  function RelativeTime(closesAt: int, now: int): string {
    var diff := closesAt - now;
    if diff < 0 then JoinSpace(Parts(SpanOf(-diff))) + " ago"
    else "in " + JoinSpace(Parts(SpanOf(diff)))
  }

  lemma {:induction false} JoinSpaceSnoc(parts: seq<string>, x: string)
    requires parts != []
    ensures JoinSpace(parts + [x]) == JoinSpace(parts) + " " + x
    decreases |parts|
  {
    if |parts| == 1 {
      assert (parts + [x])[1..] == [x];
    } else {
      assert (parts + [x])[1..] == parts[1..] + [x];
      JoinSpaceSnoc(parts[1..], x);
    }
  }

  /** `formatRelativeTime` with the clock reading passed in. */
  method FormatRelativeTime(closesAt: int, now: int) returns (r: string)
    ensures r == RelativeTime(closesAt, now)
  {
    var diff := closesAt - now;
    var past := diff < 0;
    var abs: nat := if diff < 0 then -diff else diff;
    var span := SplitSeconds(abs);
    var sb := BuildParts(span);
    if past {
      PastFromSpan(closesAt, now, span, sb);
      r := sb + " ago";
    } else {
      FutureFromSpan(closesAt, now, span, sb);
      r := "in " + sb;
    }
  }

  /** The phrase for a close time in the past, from its span's parts. */
  lemma PastFromSpan(closesAt: int, now: int, span: Span, sb: string)
    requires closesAt < now && span == SpanOf(now - closesAt) && sb == JoinSpace(Parts(span))
    ensures RelativeTime(closesAt, now) == sb + " ago"
  {
  }

  /** The phrase for a close time now or later, from its span's parts. */
  lemma FutureFromSpan(closesAt: int, now: int, span: Span, sb: string)
    requires closesAt >= now && span == SpanOf(closesAt - now) && sb == JoinSpace(Parts(span))
    ensures RelativeTime(closesAt, now) == "in " + sb
  {
  }

  /** The divisions of `formatRelativeTime`: whole days first, then whole
      hours and minutes of what is left. */
  method SplitSeconds(seconds: nat) returns (span: Span)
    ensures span == SpanOf(seconds)
  {
    var abs := seconds;
    var days := abs / SECONDS_PER_DAY;
    abs := abs % SECONDS_PER_DAY;
    var hours := abs / SECONDS_PER_HOUR;
    abs := abs % SECONDS_PER_HOUR;
    var minutes := abs / SECONDS_PER_MINUTE;
    span := Span(days, hours, minutes);
  }

  /** Appending one more part to the joined text, with a space first
      unless the text is still empty, joins the longer list. */
  lemma AppendPart(sb: string, parts: seq<string>, x: string)
    requires sb == JoinSpace(parts) && (|sb| == 0 <==> parts == [])
    requires |x| > 0
    ensures var next := (if |sb| > 0 then sb + " " else sb) + x;
            next == JoinSpace(parts + [x]) && |next| > 0
  {
    if parts == [] {
      assert parts + [x] == [x];
    } else {
      JoinSpaceSnoc(parts, x);
    }
  }

  /** The StringBuilder steps of `formatRelativeTime`: each part printed
      is preceded by a space unless it is the first. */
  method BuildParts(span: Span) returns (sb: string)
    ensures sb == JoinSpace(Parts(span))
  {
    sb := "";
    ghost var parts: seq<string> := [];
    if span.days > 0 {
      var x := Decimal(span.days) + "d";
      AppendPart(sb, parts, x);
      sb := sb + x;
      parts := parts + [x];
    }
    ghost var withDays := parts;
    if span.hours > 0 {
      var x := Decimal(span.hours) + "h";
      AppendPart(sb, parts, x);
      if |sb| > 0 {
        sb := sb + " ";
      }
      sb := sb + x;
      parts := parts + [x];
    }
    ghost var withHours := parts;
    if span.minutes > 0 || |sb| == 0 {
      var x := Decimal(span.minutes) + "m";
      AppendPart(sb, parts, x);
      if |sb| > 0 {
        sb := sb + " ";
      }
      sb := sb + x;
      parts := parts + [x];
    }
    assert parts == Parts(span) by {
      assert withDays == if span.days > 0 then [Decimal(span.days) + "d"] else [];
      assert withHours == withDays + if span.hours > 0 then [Decimal(span.hours) + "h"] else [];
    }
  }

  /** The joined parts start with a digit and end in a unit letter. */
  lemma BodyShape(s: Span)
    ensures var b := JoinSpace(Parts(s));
            |b| >= 2 && IsDigit(b[0]) && b[|b| - 1] in "dhm"
  {
    var p := Parts(s);
    var last := p[|p| - 1];
    assert last[|last| - 1] in "dhm";
    if |p| == 1 {
    } else if |p| == 2 {
      assert p[1..] == [p[1]];
    } else {
      assert p[1..][1..] == [p[2]];
    }
  }

  lemma PhraseShape(past: bool, b: string)
    requires |b| >= 2 && IsDigit(b[0]) && b[|b| - 1] in "dhm"
    ensures var r := if past then b + " ago" else "in " + b;
            && (past <==> |r| >= 4 && r[|r| - 4..] == " ago")
            && (!past <==> |r| >= 3 && r[..3] == "in ")
  {
    var r := if past then b + " ago" else "in " + b;
    if past {
      assert r[..3][0] == b[0];
    } else {
      assert r[|r| - 4..][3] == b[|b| - 1];
    }
  }

  lemma PastPhrase(closesAt: int, now: int)
    requires closesAt < now
    ensures var r := RelativeTime(closesAt, now);
            && |r| >= 4 && r[|r| - 4..] == " ago"
            && !(|r| >= 3 && r[..3] == "in ")
  {
    BodyShape(SpanOf(now - closesAt));
    PhraseShape(true, JoinSpace(Parts(SpanOf(now - closesAt))));
  }

  lemma FuturePhrase(closesAt: int, now: int)
    requires closesAt >= now
    ensures var r := RelativeTime(closesAt, now);
            && |r| >= 3 && r[..3] == "in "
            && !(|r| >= 4 && r[|r| - 4..] == " ago")
  {
    BodyShape(SpanOf(closesAt - now));
    PhraseShape(false, JoinSpace(Parts(SpanOf(closesAt - now))));
  }

  lemma PastExactly(closesAt: int, now: int)
    ensures var r := RelativeTime(closesAt, now);
            && (closesAt < now <==> |r| >= 4 && r[|r| - 4..] == " ago")
            && (closesAt >= now <==> |r| >= 3 && r[..3] == "in ")
  {
    if closesAt < now {
      PastPhrase(closesAt, now);
    } else {
      FuturePhrase(closesAt, now);
    }
  }

  /** Less than a minute to go prints "in 0m"; less than a minute late
      prints "0m ago". */
  lemma UnderAMinute(closesAt: int, now: int)
    ensures 0 <= closesAt - now < 60 ==> RelativeTime(closesAt, now) == "in 0m"
    ensures -60 < closesAt - now < 0 ==> RelativeTime(closesAt, now) == "0m ago"
  {
    var diff := closesAt - now;
    var a := if diff < 0 then -diff else diff;
    if a < 60 {
      assert SpanOf(a) == Span(0, 0, 0);
      assert Decimal(0) + "m" == "0m";
      assert Parts(Span(0, 0, 0)) == [] + [] + ["0m"];
    }
  }

  /** With days, hours and minutes all non-zero, all three are printed,
      in that order, separated by single spaces. */
  lemma AllThreeParts(s: Span)
    requires s.days > 0 && s.hours > 0 && s.minutes > 0
    ensures JoinSpace(Parts(s)) == Decimal(s.days) + "d " + Decimal(s.hours) + "h " + Decimal(s.minutes) + "m"
  {
    var d, h, m := Decimal(s.days) + "d", Decimal(s.hours) + "h", Decimal(s.minutes) + "m";
    assert Parts(s) == [d, h, m];
    assert [d, h, m][1..] == [h, m];
    assert [h, m][1..] == [m];
  }

  /** 1 day, 1 hour, 1 minute and 1 second are 90061 seconds. */
  lemma ExampleSpan()
    ensures SpanOf(90061) == Span(1, 1, 1)
  {
  }

  /** Two hours late: zero days and minutes are left out. */
  lemma ExamplePast()
    ensures RelativeTime(0, 7200) == "2h ago"
  {
    assert SpanOf(7200) == Span(0, 2, 0);
    assert Decimal(2) + "h" == "2h";
    assert Parts(Span(0, 2, 0)) == [] + ["2h"] + [];
  }

}
