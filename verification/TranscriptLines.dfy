/** What the transcript parsers read from one line, by the name in front of its first separator. */
module TranscriptLines {
  import opened Wrappers
  import opened Decimals
  import opened Transcript
  import opened TranscriptParsers
  import Paths

  /** Splitting once is finding the first occurrence. */
  lemma SplitOnceTells(text: string, sep: string, a: string, b: string)
    ensures SplitOnce(text, sep) == Some((a, b)) <==>
            text == a + (sep + b) && forall i: nat :: i < |a| ==> !At(text, sep, i)
  {
    if text == a + (sep + b) {
      assert text[|a|..] == sep + b && text[|a|..|a| + |sep|] == sep && text[|a| + |sep|..] == b && text[..|a|] == a;
      assert At(text, sep, |a|);
    }
    if SplitOnce(text, sep).Some? {
      var i := Find(text, sep, 0).value;
      assert text == text[..i] + (text[i..i + |sep|] + text[i + |sep|..]);
    }
  }

  /** Trimming takes white space from both ends and nothing else. */
  lemma TrimTells(s: string) returns (i: nat, j: nat)
    ensures i <= j <= |s| && Trim(s) == s[i..j]
    ensures forall k :: 0 <= k < i || j <= k < |s| ==> White(s[k])
    ensures i < j ==> !White(s[i]) && !White(s[j - 1])
  {
    i := StartTells(s);
    var t := TrimStart(s);
    j := EndTells(t);
    hide White, TrimStart, TrimEnd;
    assert t[..j] == s[i..i + j];
    if j > 0 { assert TrimEnd(t)[j - 1] == t[j - 1]; }
    j := i + j;
  }

  lemma {:induction false} StartTells(s: string) returns (i: nat)
    ensures i <= |s| && TrimStart(s) == s[i..] && (forall k :: 0 <= k < i ==> White(s[k]))
    ensures i < |s| ==> !White(s[i])
  {
    hide White;
    i := 0;
    if s != "" && White(s[0]) {
      i := StartTells(s[1..]);
      i := i + 1;
    }
  }

  lemma {:induction false} EndTells(s: string) returns (j: nat)
    ensures j <= |s| && TrimEnd(s) == s[..j] && (forall k :: j <= k < |s| ==> White(s[k]))
    ensures j > 0 ==> !White(s[j - 1])
  {
    hide White;
    j := |s|;
    if s != "" && White(s[|s| - 1]) {
      j := EndTells(s[..|s| - 1]);
    }
  }

  predicate Colon(c: char) {
    c == ':' || c == '='
  }

  /** Where the name of a line ends. */
  function NameEnd(line: string): (n: nat)
    ensures n <= |line| && (forall i :: 0 <= i < n ==> !Colon(line[i])) && (n < |line| ==> Colon(line[n]))
  {
    if line == "" || Colon(line[0]) then 0 else 1 + NameEnd(line[1..])
  }

  /** The name in lower case, if a separator follows it. */
  function NameOf(line: string): Option<string> {
    if NameEnd(line) < |line| then Some(Lower(line[..NameEnd(line)])) else None
  }

  function ValueOf(line: string): string
    requires NameOf(line).Some?
  {
    Trim(line[NameEnd(line) + 1..])
  }

  ghost predicate Plain(name: string) {
    forall i :: 0 <= i < |name| ==> !Colon(name[i])
  }

  lemma LowerColon(c: char)
    ensures (LowerChar(c) == ':' <==> c == ':') && (LowerChar(c) == '=' <==> c == '=')
  {}

  /** Only the name in front of the first separator can match a label. */
  lemma LabelIsName(line: string, name: string)
    requires Plain(name)
    ensures (name + ":" <= Lower(line) || name + "=" <= Lower(line)) <==> NameOf(line) == Some(name)
    ensures NameOf(line) == Some(name) ==> NameEnd(line) == |name|
  {
    var n, lower := NameEnd(line), Lower(line);
    forall i | 0 <= i < |line| ensures Colon(lower[i]) <==> Colon(line[i]) {
      LowerColon(line[i]);
    }
    if name + ":" <= lower || name + "=" <= lower {
      var mark := lower[..|name| + 1];
      assert mark[..|name|] == name && Colon(mark[|name|]);
      assert forall i :: 0 <= i < |name| ==> lower[i] == name[i];
      assert n == |name|;
      assert Lower(line[..n]) == lower[..n] == name;
    }
    if NameOf(line) == Some(name) {
      assert Lower(line[..n]) == lower[..n] == name;
      LowerColon(line[n]);
      assert lower[..n + 1] == name + [lower[n]];
    }
  }

  lemma {:induction false} ValueByName(line: string, labels: seq<string>)
    requires forall i :: 0 <= i < |labels| ==> Plain(labels[i])
    ensures ValueAfterLabel(line, labels) ==
            if NameOf(line).Some? && NameOf(line).value in labels then Some(ValueOf(line)) else None
  {
    hide Trim, Lower, NameEnd, Plain;
    if labels != [] {
      LabelIsName(line, labels[0]);
      ValueByName(line, labels[1..]);
      assert labels == [labels[0]] + labels[1..];
    }
  }

  lemma {:induction false} IdByName(line: string, labels: seq<string>)
    requires forall i :: 0 <= i < |labels| ==> Plain(labels[i])
    ensures IdAfterLabel(line, labels) ==
            if NameOf(line).Some? && NameOf(line).value in labels && ValueOf(line) != ""
            then Some((IdKind(NameOf(line).value), ValueOf(line))) else None
  {
    hide Plain, IdKind, NameOf, ValueOf;
    if labels != [] {
      ValueByName(line, [labels[0]]);
      IdByName(line, labels[1..]);
      assert labels == [labels[0]] + labels[1..];
    }
  }

  /** What a line says, read off its name: every label stands for itself, in whatever order they are tried. */
  function ByName(line: string): Line {
    match NameOf(line)
    case None => OtherLine
    case Some(name) =>
      if name == "summary" then SummaryLine(ValueOf(line))
      else if name == "changed files" || name == "changed_files" || name == "files changed" then
        FilesLine(FileTokens(SplitAt(ValueOf(line), ",;", 0)))
      else ChangeOrReport(name, line[NameEnd(line)], ValueOf(line))
  }

  function ChangeOrReport(name: string, separator: char, value: string): Line {
    if (name == "modified" || name == "added" || name == "deleted") && separator == ':' then FilesLine(FileToken(value))
    else ReportByName(name, value)
  }

  function ReportByName(name: string, value: string): Line {
    if name == "concern" then ConcernLine(value)
    else if name == "blocker" then BlockerLine(value)
    else CountByName(name, value)
  }

  function CountByName(name: string, value: string): Line {
    if name == "input tokens" || name == "input_tokens" then InputLine(ParseCount(value))
    else if name == "output tokens" || name == "output_tokens" then OutputLine(ParseCount(value))
    else if name == "total tokens" || name == "total_tokens" || name == "tokens" then TotalLine(ParseCount(value))
    else if name == "cost" || name == "cost usd" then CostLine(ParseCost(value))
    else if name in ID_LABELS && value != "" then IdLine(IdKind(name), value)
    else OtherLine
  }

  lemma InPair(name: string, a: string, b: string)
    ensures name in [a, b] <==> name == a || name == b
  {}

  lemma InTriple(name: string, a: string, b: string, c: string)
    ensures name in [a, b, c] <==> name == a || name == b || name == c
  {}

  lemma InSingle(name: string, a: string)
    ensures name in [a] <==> name == a
  {}

  lemma PlainCounts()
    ensures Plain("input tokens") && Plain("input_tokens") && Plain("output tokens") && Plain("output_tokens")
    ensures Plain("total tokens") && Plain("total_tokens") && Plain("tokens") && Plain("cost") && Plain("cost usd")
  {}

  lemma PlainIds()
    ensures forall i :: 0 <= i < |ID_LABELS| ==> Plain(ID_LABELS[i])
  {}

  lemma PlainNames()
    ensures Plain("summary") && Plain("changed files") && Plain("changed_files") && Plain("files changed")
    ensures Plain("modified") && Plain("added") && Plain("deleted") && Plain("concern") && Plain("blocker")
  {}

  lemma CountedByName(line: string)
    ensures Counted(line) ==
            match NameOf(line) case None => OtherLine case Some(name) => CountByName(name, ValueOf(line))
  {
    PlainCounts();
    PlainIds();
    var name := if NameOf(line).Some? then NameOf(line).value else "";
    InPair(name, "input tokens", "input_tokens");
    InPair(name, "output tokens", "output_tokens");
    InTriple(name, "total tokens", "total_tokens", "tokens");
    InPair(name, "cost", "cost usd");
    hide ValueAfterLabel, IdAfterLabel, NameOf, ValueOf, Plain, ParseCount, ParseCost, IdKind;
    ValueByName(line, ["input tokens", "input_tokens"]);
    ValueByName(line, ["output tokens", "output_tokens"]);
    ValueByName(line, ["total tokens", "total_tokens", "tokens"]);
    ValueByName(line, ["cost", "cost usd"]);
    IdByName(line, ID_LABELS);
  }

  /** The change words count with a colon only. */
  lemma ChangeByName(line: string, name: string)
    requires Plain(name)
    ensures name + ":" <= Lower(line) <==> NameOf(line) == Some(name) && line[NameEnd(line)] == ':'
  {
    LabelIsName(line, name);
    var n := |name|;
    if NameOf(line) == Some(name) {
      LowerColon(line[n]);
      LowerColon(line[NameEnd(line)]);
      assert Lower(line)[n] == LowerChar(line[n]);
      assert Lower(line)[..n] == Lower(line[..n]);
      assert Lower(line)[..n + 1] == name + [Lower(line)[n]];
      if name + ":" <= Lower(line) { assert Lower(line)[..n + 1][n] == (name + ":")[n]; }
    }
  }

  /** Behind a colon that ends the name, the value that the change words take is the line's. */
  lemma ChangedFile(line: string)
    requires NameOf(line).Some? && line[NameEnd(line)] == ':'
    ensures SplitOnce(line, ":").Some? && FileToken(SplitOnce(line, ":").value.1) == FileToken(ValueOf(line))
  {
    FirstColon(line);
    TokenOfTrimmed(line[NameEnd(line) + 1..]);
    hide SplitOnce, FileToken, Trim;
  }

  lemma FirstColon(line: string)
    requires NameEnd(line) < |line| && line[NameEnd(line)] == ':'
    ensures SplitOnce(line, ":") == Some((line[..NameEnd(line)], line[NameEnd(line) + 1..]))
  {
    var n := NameEnd(line);
    NoColonBefore(line);
    hide *;
    CutAtColon(line, n);
    SplitOnceTells(line, ":", line[..n], line[n + 1..]);
  }

  lemma CutAtColon(line: string, n: nat)
    requires n < |line| && line[n] == ':'
    ensures line == line[..n] + (":" + line[n + 1..])
  {}

  lemma NoColonBefore(line: string)
    ensures forall i: nat :: i < NameEnd(line) ==> !At(line, ":", i)
  {
    forall i: nat | i < NameEnd(line) ensures !At(line, ":", i) {
      assert !Colon(line[i]);
    }
  }

  lemma TokenOfTrimmed(value: string)
    ensures FileToken(Trim(value)) == FileToken(value)
  {
    TrimTwice(value);
    hide Trim, StripQuotes, StripMarks;
  }

  /** The four labels of texts. */
  lemma TextsByName(line: string)
    ensures var name, value := NameOf(line), if NameOf(line).Some? then Some(ValueOf(line)) else None;
            && ValueAfterLabel(line, ["summary"]) == (if name == Some("summary") then value else None)
            && ValueAfterLabel(line, ["concern"]) == (if name == Some("concern") then value else None)
            && ValueAfterLabel(line, ["blocker"]) == (if name == Some("blocker") then value else None)
  {
    PlainNames();
    var name := if NameOf(line).Some? then NameOf(line).value else "";
    InSingle(name, "summary");
    InSingle(name, "concern");
    InSingle(name, "blocker");
    hide ValueAfterLabel, NameOf, ValueOf, Plain;
    ValueByName(line, ["summary"]);
    ValueByName(line, ["concern"]);
    ValueByName(line, ["blocker"]);
  }

  lemma FilesByName(line: string)
    ensures var name := NameOf(line);
            ValueAfterLabel(line, ["changed files", "changed_files", "files changed"]) ==
            if name == Some("changed files") || name == Some("changed_files") || name == Some("files changed")
            then Some(ValueOf(line)) else None
  {
    PlainNames();
    InTriple(if NameOf(line).Some? then NameOf(line).value else "", "changed files", "changed_files", "files changed");
    hide ValueAfterLabel, NameOf, ValueOf, Plain;
    ValueByName(line, ["changed files", "changed_files", "files changed"]);
  }

  lemma ChangesByName(line: string)
    ensures var name := NameOf(line);
            ("modified:" <= Lower(line) || "added:" <= Lower(line) || "deleted:" <= Lower(line)) <==>
            && (name == Some("modified") || name == Some("added") || name == Some("deleted"))
            && line[NameEnd(line)] == ':'
  {
    PlainNames();
    assert "modified" + ":" == "modified:" && "added" + ":" == "added:" && "deleted" + ":" == "deleted:";
    hide Lower, Plain;
    ChangeByName(line, "modified");
    ChangeByName(line, "added");
    ChangeByName(line, "deleted");
  }

  lemma ReportedByName(line: string)
    ensures Reported(line) ==
            match NameOf(line) case None => OtherLine case Some(name) => ReportByName(name, ValueOf(line))
  {
    TextsByName(line);
    CountedByName(line);
    hide ValueAfterLabel, NameOf, ValueOf, Counted, CountByName;
  }

  lemma ChangedByName(line: string)
    ensures Changed(line) ==
            match NameOf(line)
            case None => OtherLine
            case Some(name) => ChangeOrReport(name, line[NameEnd(line)], ValueOf(line))
  {
    if NameOf(line).Some? && line[NameEnd(line)] == ':' { ChangedFile(line); }
    ChangesByName(line);
    ReportedByName(line);
    hide NameOf, ValueOf, Reported, ReportByName, FileToken, SplitOnce, Lower, NameEnd;
  }

  /** Reading a line is looking its name up: no label hides another, though the parsers try them one by one as
      prefixes. */
  lemma LabelledByName(line: string)
    ensures Labelled(line) == ByName(line)
  {
    TextsByName(line);
    FilesByName(line);
    ChangedByName(line);
    hide ValueAfterLabel, NameOf, ValueOf, Changed, ChangeOrReport, FileTokens, SplitAt, NameEnd;
  }

  /** What one line changes in the result, field by field. */
  lemma LineTells(s: Summary, line: Line)
    ensures var u := GenericLine(s, line);
            && u.rawSummary == (if line.SummaryLine? && s.rawSummary.None? && line.value != "" then Some(line.value)
                                else s.rawSummary)
            && u.changedFiles == (if line.FilesLine? then s.changedFiles + line.files else s.changedFiles)
            && u.concerns == (if line.ConcernLine? then s.concerns + [ParseConcern(line.value)] else s.concerns)
            && u.blockers == (if line.BlockerLine? then s.blockers + [line.value] else s.blockers)
            && u.usage.input == (if line.InputLine? then line.count else s.usage.input)
            && u.usage.output == (if line.OutputLine? then line.count else s.usage.output)
            && u.usage.total == (if line.TotalLine? then line.count else s.usage.total)
            && u.cost == (if line.CostLine? then line.cost else s.cost)
            && u.ids == (if line.IdLine? then s.ids[line.kind := line.value] else s.ids)
  {
    hide ParseConcern;
  }

  lemma {:induction false} DigitsKept(s: string, alsoDots: bool)
    requires forall i :: 0 <= i < |s| ==> '0' <= s[i] <= '9' || (alsoDots && s[i] == '.')
    ensures Filtered(s, alsoDots) == s
  {
    if s != "" {
      DigitsKept(s[1..], alsoDots);
      assert s == [s[0]] + s[1..];
    }
  }

  lemma {:induction false} DigitsNumber(s: string)
    requires forall i :: 0 <= i < |s| ==> '0' <= s[i] <= '9'
    ensures DigitsValue(s) == NumberOf(s)
  {
    if s != "" {
      DigitsNumber(s[..|s| - 1]);
    }
  }

  lemma {:induction false} FilteredConcat(a: string, b: string)
    ensures Filtered(a + b, false) == Filtered(a, false) + Filtered(b, false)
  {
    if a == "" {
      assert a + b == b;
    } else {
      assert (a + b)[0] == a[0] && (a + b)[1..] == a[1..] + b;
      FilteredConcat(a[1..], b);
    }
  }

  lemma {:induction false} NoDigits(s: string)
    requires forall i :: 0 <= i < |s| ==> !('0' <= s[i] <= '9')
    ensures Filtered(s, false) == ""
  {
    if s != "" {
      NoDigits(s[1..]);
    }
  }

  /** A number below 2 to the 64 is read back from its digits, whatever words stand around it; a larger one is not
      read at all. */
  lemma CountReads(before: string, n: nat, after: string)
    requires forall i :: 0 <= i < |before| ==> !('0' <= before[i] <= '9')
    requires forall i :: 0 <= i < |after| ==> !('0' <= after[i] <= '9')
    ensures ParseCount(before + (Decimal(n) + after)) == if n < 18446744073709551616 then Some(n) else None
  {
    DecimalReadsBack(n);
    hide Decimal;
    FilteredConcat(before, Decimal(n) + after);
    FilteredConcat(Decimal(n), after);
    NoDigits(before);
    NoDigits(after);
    DigitsKept(Decimal(n), false);
    DigitsNumber(Decimal(n));
    hide Filtered, DigitsValue, NumberOf;
    assert "" + (Decimal(n) + "") == Decimal(n);
  }

  /** A concern is split at the first dash between blanks; without one its severity is unspecified. */
  lemma ConcernTells(severity: string, message: string, value: string)
    ensures (forall i: nat :: i < |severity| ==> !At(severity + (" - " + message), " - ", i)) ==>
              ParseConcern(severity + (" - " + message)) == Concern(Lower(Trim(severity)), Trim(message))
    ensures !Contains(value, " - ") ==> ParseConcern(value) == Concern("unspecified", Trim(value))
  {
    SplitOnceTells(severity + (" - " + message), " - ", severity, message);
    hide Trim, Lower;
  }

  /** A name that needs no stripping. */
  predicate Bare(value: string) {
    && value != "" && !White(value[0]) && !White(value[|value| - 1]) && value[0] != '-'
    && value[0] !in "`\"'" && value[|value| - 1] !in "`\"'"
  }

  /** A name without decoration is its own token; backslashes become slashes. */
  lemma TokenTells(value: string)
    requires Bare(value)
    ensures FileToken(value) == {Paths.Slashed(value)}
  {
    Trimmed(value);
    assert StripMarks(value) == value by { assert |value| >= 2 ==> value[..2][0] == value[0]; }
    Unquoted(value);
    hide Trim, StripMarks, StripQuotes;
  }

  ghost predicate Digits(s: string) {
    forall i :: 0 <= i < |s| ==> '0' <= s[i] <= '9'
  }

  /** A cost is read with no dot or one, if it has a digit; with two dots it is no number. */
  lemma CostTells(a: string, b: string, c: string)
    requires Digits(a) && Digits(b) && Digits(c)
    ensures ParseCost(a) == if a == "" then None else Some(a)
    ensures ParseCost(a + ("." + b)) == if a + b == "" then None else Some(a + ("." + b))
    ensures ParseCost(a + ("." + (b + ("." + c)))).None?
  {
    DigitsKept(a, true);
    DigitsKept(a + ("." + b), true);
    DigitsKept(a + ("." + (b + ("." + c))), true);
    DigitsKept(a, false);
    DigitsKept(b, false);
    DigitsKept(c, false);
    NoDigits(".");
    FilteredConcat(a, "." + b);
    FilteredConcat(".", b);
    FilteredConcat(a, "." + (b + ("." + c)));
    FilteredConcat(".", b + ("." + c));
    FilteredConcat(b, "." + c);
    FilteredConcat(".", c);
    hide Filtered;
  }

  /** Quotes around a name are taken off, and so is a list mark in front of it. */
  lemma TokenStripped(value: string, quote: char)
    requires quote == '`' || quote == '\"' || quote == '\''
    requires Bare(value)
    ensures FileToken([quote] + value + [quote]) == {Paths.Slashed(value)} == FileToken("- " + value)
  {
    QuotesOff(value, quote);
    MarkOff(value);
    hide Trim, StripMarks, StripQuotes, Bare;
  }

  lemma QuotesOff(value: string, quote: char)
    requires (quote == '`' || quote == '\"' || quote == '\'') && Bare(value)
    ensures value != "" && StripQuotes(StripMarks(Trim([quote] + value + [quote]))) == value
  {
    var quoted := [quote] + value + [quote];
    Trimmed(quoted);
    assert StripMarks(quoted) == quoted by { assert quoted[..2][0] == quote; }
    Unquoted(value);
    hide Trim, StripMarks, White;
    assert quoted[1..] == value + [quote] && (value + [quote])[..|value|] == value;
    assert StripQuotes(quoted) == StripQuotes(value + [quote]);
  }

  lemma MarkOff(value: string)
    requires Bare(value)
    ensures StripQuotes(StripMarks(Trim("- " + value))) == value
  {
    var marked := "- " + value;
    Trimmed(marked);
    Unquoted(value);
    hide Trim, StripQuotes, White;
    assert marked[..2] == "- " && marked[2..] == value;
    assert |value| >= 2 ==> value[..2][0] == value[0];
    assert StripMarks(value) == value;
  }

  lemma Trimmed(s: string)
    requires s != "" && !White(s[0]) && !White(s[|s| - 1])
    ensures Trim(s) == s
  {
    assert TrimStart(s) == s;
  }

  lemma Unquoted(s: string)
    requires s != "" && s[0] !in "`\"'" && s[|s| - 1] !in "`\"'"
    ensures StripQuotes(s) == s
  {}

  /** Ids are filed under the name with an underscore for a blank. */
  lemma IdKindTells(name: string)
    ensures |IdKind(name)| == |name|
    ensures forall i :: 0 <= i < |name| ==> IdKind(name)[i] == if name[i] == ' ' then '_' else name[i]
  {}

  /** What a JSON line carries overrides what was known, field by field; what it lacks stays. */
  lemma MergedTells(s: Summary, json: JsonLine)
    ensures var u := Merged(s, json);
            && (json.usage.input.Some? ==> u.usage.input == json.usage.input)
            && (json.usage.input.None? ==> u.usage.input == s.usage.input)
            && (json.usage.output.Some? ==> u.usage.output == json.usage.output)
            && (json.usage.output.None? ==> u.usage.output == s.usage.output)
            && (json.usage.total.Some? ==> u.usage.total == json.usage.total)
            && (json.usage.total.None? ==> u.usage.total == s.usage.total)
            && (json.cost.Some? ==> u.cost == json.cost) && (json.cost.None? ==> u.cost == s.cost)
            && (forall k :: k in json.ids ==> k in u.ids && u.ids[k] == json.ids[k])
            && (forall k :: k in s.ids && k !in json.ids ==> k in u.ids && u.ids[k] == s.ids[k])
            && u.changedFiles == s.changedFiles && u.concerns == s.concerns && u.blockers == s.blockers
            && u.rawSummary == s.rawSummary
  {}

  /** The pieces with separators put back between them. */
  ghost predicate Pieces(text: string, separators: string, pieces: seq<string>)
    decreases |pieces|
  {
    && pieces != [] && (forall i :: 0 <= i < |pieces[0]| ==> pieces[0][i] !in separators)
    && if |pieces| == 1 then text == pieces[0]
       else exists c :: c in separators && pieces[0] + [c] <= text
                        && Pieces(text[|pieces[0]| + 1..], separators, pieces[1..])
  }

  /** Splitting leaves no separator in a piece and loses nothing. */
  lemma {:induction false} SplitTells(text: string, separators: string, n: nat)
    requires n <= |text| && forall i :: 0 <= i < n ==> text[i] !in separators
    ensures Pieces(text, separators, SplitAt(text, separators, n))
    decreases |text|, |text| - n
  {
    if n == |text| {
      assert SplitAt(text, separators, n) == [text];
    } else if text[n] in separators {
      SplitTells(text[n + 1..], separators, 0);
      var pieces := SplitAt(text, separators, n);
      assert pieces[0] == text[..n] && pieces[1..] == SplitAt(text[n + 1..], separators, 0);
      assert pieces[0] + [text[n]] == text[..n + 1];
    } else {
      SplitTells(text, separators, n + 1);
    }
  }

  /** The code points with the property White_Space, as numbers. */
  lemma WhiteTells(c: char)
    ensures var n := c as int;
            White(c) <==>
            || 9 <= n <= 13 || n == 32 || n == 133 || n == 160 || n == 5760 || 8192 <= n <= 8202
            || n == 8232 || n == 8233 || n == 8239 || n == 8287 || n == 12288
  {}

  /** Capital letters get small and everything else stays. */
  lemma LowerTells(s: string)
    ensures |Lower(s)| == |s|
    ensures forall i :: 0 <= i < |s| ==>
              Lower(s)[i] as int == s[i] as int + if 65 <= s[i] as int <= 90 then 32 else 0
  {}

  /** A message is idle when it is empty or says none, in capitals or not. */
  lemma TellingTells(message: string)
    ensures Telling(message) <==>
            message != "" &&
            !(|message| == 4 && message[0] in "nN" && message[1] in "oO" && message[2] in "nN" && message[3] in "eE")
  {
    LowerTells(message);
    var lower := Lower(message);
    hide Lower;
    assert lower == "none" <==>
           |lower| == 4 && lower[0] == 'n' && lower[1] == 'o' && lower[2] == 'n' && lower[3] == 'e';
  }

  /** A blank line says nothing. A JSON line is merged, and has its label read only if it carries no count and no
      cost; any other line has its label read. */
  lemma ReadTells(s: Summary, raw: string, json: JsonReader, effect: (Summary, Line) -> Summary)
    ensures var line, u := Trim(raw), ReadLine(s, raw, json, effect);
            && (line == "" ==> u == s)
            && (line != "" && json(line).None? ==> u == effect(s, Labelled(line)))
            && (line != "" && json(line).Some? ==>
                  var value := json(line).value;
                  u == if value.usage == Usage(None, None, None) && value.cost == None
                       then effect(Merged(s, value), Labelled(line)) else Merged(s, value))
  {
    hide Trim, Labelled, Merged;
  }
}
