/** The two line-by-line transcript parsers: `parse_scripted_provider_transcript` in
    `crates/ao2-adapters/src/lib.rs` and `parse_generic_transcript` in `crates/ao2-adapter-codex/src/lib.rs`.
    What a line that is JSON says is an oracle; sets and maps stand for their sorted listings. */
module TranscriptParsers {
  import opened Wrappers
  import opened Transcript
  import Paths

  datatype Concern = Concern(severity: string, message: string)

  datatype Usage = Usage(input: Option<nat>, output: Option<nat>, total: Option<nat>)

  /** A cost is kept as its filtered text. */
  datatype Summary = Summary(
    changedFiles: set<string>, concerns: seq<Concern>, blockers: seq<string>, usage: Usage,
    cost: Option<string>, ids: map<string, string>, rawSummary: Option<string>)

  /** The transcript ids, token counts and cost that a JSON line carries. */
  datatype JsonLine = JsonLine(ids: map<string, string>, usage: Usage, cost: Option<string>)

  type JsonReader = string -> Option<JsonLine>

  // The text helpers, which the two crates hold in equal copies.

  predicate White(c: char) {
    '\t' <= c <= '\r' || c == ' ' || c in "\U{85}\U{A0}\U{1680}\U{2028}\U{2029}\U{202F}\U{205F}\U{3000}"
    || '\U{2000}' <= c <= '\U{200A}'
  }

  function TrimStart(s: string): (r: string)
    ensures |r| <= |s| && (r != "" ==> !White(r[0]))
    ensures s == "" || !White(s[0]) ==> r == s
    ensures r != "" ==> r[|r| - 1] == s[|s| - 1]
  {
    if s != "" && White(s[0]) then TrimStart(s[1..]) else s
  }

  function TrimEnd(s: string): (r: string)
    ensures r <= s && (r != "" ==> !White(r[|r| - 1]))
    ensures s == "" || !White(s[|s| - 1]) ==> r == s
  {
    if s != "" && White(s[|s| - 1]) then TrimEnd(s[..|s| - 1]) else s
  }

  function Trim(s: string): string {
    TrimEnd(TrimStart(s))
  }

  lemma TrimTwice(s: string)
    ensures Trim(Trim(s)) == Trim(s)
  {
    var t := Trim(s);
    assert t != "" ==> t[0] == TrimStart(s)[0];
  }

  function LowerChar(c: char): char {
    if 'A' <= c <= 'Z' then (c as int + 32) as char else c
  }

  function Lower(s: string): (r: string)
    ensures |r| == |s|
  {
    seq(|s|, i requires 0 <= i < |s| => LowerChar(s[i]))
  }

  /** `value_after_label`. */
  function ValueAfterLabel(line: string, labels: seq<string>): Option<string> {
    if labels == [] then None
    else
      var mark := labels[0] + ":";
      if mark <= Lower(line) || labels[0] + "=" <= Lower(line) then Some(Trim(line[|mark|..]))
      else ValueAfterLabel(line, labels[1..])
  }

  lemma {:induction false} LabelValueTrimmed(line: string, labels: seq<string>)
    ensures ValueAfterLabel(line, labels).Some? ==>
              Trim(ValueAfterLabel(line, labels).value) == ValueAfterLabel(line, labels).value
  {
    hide Trim, Lower;
    if labels != [] {
      var n := |labels[0] + ":"|;
      if n <= |line| { TrimTwice(line[n..]); }
      LabelValueTrimmed(line, labels[1..]);
    }
  }

  /** The pieces between characters of `separators`. */
  function SplitAt(text: string, separators: string, n: nat): seq<string>
    requires n <= |text|
    decreases |text|, |text| - n
  {
    if n == |text| then [text]
    else if text[n] in separators then [text[..n]] + SplitAt(text[n + 1..], separators, 0)
    else SplitAt(text, separators, n + 1)
  }

  function StripMarks(s: string): string {
    if |s| >= 2 && s[..2] == "- " then StripMarks(s[2..]) else s
  }

  function StripQuotes(s: string): string
    decreases |s|
  {
    if s != "" && s[0] in "`\"'" then StripQuotes(s[1..])
    else if s != "" && s[|s| - 1] in "`\"'" then StripQuotes(s[..|s| - 1])
    else s
  }

  /** `clean_file_token`; the empty token names no file. */
  function FileToken(value: string): set<string> {
    var cleaned := Paths.Slashed(StripQuotes(StripMarks(Trim(value))));
    if cleaned == "" then {} else {cleaned}
  }

  function FileTokens(values: seq<string>): set<string> {
    if values == [] then {} else FileToken(values[0]) + FileTokens(values[1..])
  }

  /** `parse_concern`. */
  function ParseConcern(value: string): Concern {
    match SplitOnce(value, " - ")
    case Some((severity, message)) => Concern(Lower(Trim(severity)), Trim(message))
    case None => Concern("unspecified", Trim(value))
  }

  function Filtered(s: string, alsoDots: bool): (r: string)
    ensures !alsoDots ==> forall i :: 0 <= i < |r| ==> '0' <= r[i] <= '9'
  {
    if s == "" then ""
    else (if '0' <= s[0] <= '9' || (alsoDots && s[0] == '.') then [s[0]] else "") + Filtered(s[1..], alsoDots)
  }

  function DigitsValue(s: string): nat
    requires forall i :: 0 <= i < |s| ==> '0' <= s[i] <= '9'
  {
    if s == "" then 0 else DigitsValue(s[..|s| - 1]) * 10 + (s[|s| - 1] as int - '0' as int)
  }

  /** `parse_u64`: all digits of the text as one number, if it fits 64 bits. */
  function ParseCount(value: string): Option<nat> {
    var digits := Filtered(value, false);
    if digits != "" && DigitsValue(digits) < 0x1_0000_0000_0000_0000 then Some(DigitsValue(digits)) else None
  }

  /** `parse_cost`: digits with at most one dot read as a number. */
  function ParseCost(value: string): Option<string> {
    var text := Filtered(value, true);
    if Filtered(text, false) != "" && |text| <= |Filtered(text, false)| + 1 then Some(text) else None
  }

  const ID_LABELS := [
    "session_id", "session id", "conversation_id", "conversation id", "transcript_id", "transcript id",
    "response_id", "response id", "thread_id", "thread id"]

  function IdKind(name: string): string {
    seq(|name|, i requires 0 <= i < |name| => if name[i] == ' ' then '_' else name[i])
  }

  /** `transcript_id_after_label`. */
  function IdAfterLabel(line: string, labels: seq<string>): Option<(string, string)> {
    if labels == [] then None
    else
      match ValueAfterLabel(line, [labels[0]])
      case Some(value) => if value != "" then Some((IdKind(labels[0]), value)) else IdAfterLabel(line, labels[1..])
      case None => IdAfterLabel(line, labels[1..])
  }

  /** What a line says, by its label; the first label in the order of the source wins. */
  datatype Line =
    | SummaryLine(value: string)
    | FilesLine(files: set<string>)
    | ConcernLine(value: string)
    | BlockerLine(value: string)
    | InputLine(count: Option<nat>)
    | OutputLine(count: Option<nat>)
    | TotalLine(count: Option<nat>)
    | CostLine(cost: Option<string>)
    | IdLine(kind: string, value: string)
    | OtherLine

  function Labelled(line: string): Line {
    var summary := ValueAfterLabel(line, ["summary"]);
    var files := ValueAfterLabel(line, ["changed files", "changed_files", "files changed"]);
    if summary.Some? then SummaryLine(summary.value)
    else if files.Some? then FilesLine(FileTokens(SplitAt(files.value, ",;", 0)))
    else Changed(line)
  }

  function Changed(line: string): Line {
    if "modified:" <= Lower(line) || "added:" <= Lower(line) || "deleted:" <= Lower(line) then
      match SplitOnce(line, ":") case Some((_, value)) => FilesLine(FileToken(value)) case None => FilesLine({})
    else Reported(line)
  }

  function Reported(line: string): Line {
    var concern := ValueAfterLabel(line, ["concern"]);
    var blocker := ValueAfterLabel(line, ["blocker"]);
    if concern.Some? then ConcernLine(concern.value)
    else if blocker.Some? then BlockerLine(blocker.value)
    else Counted(line)
  }

  function Counted(line: string): Line {
    var input := ValueAfterLabel(line, ["input tokens", "input_tokens"]);
    var output := ValueAfterLabel(line, ["output tokens", "output_tokens"]);
    var total := ValueAfterLabel(line, ["total tokens", "total_tokens", "tokens"]);
    var cost := ValueAfterLabel(line, ["cost", "cost usd"]);
    if input.Some? then InputLine(ParseCount(input.value))
    else if output.Some? then OutputLine(ParseCount(output.value))
    else if total.Some? then TotalLine(ParseCount(total.value))
    else if cost.Some? then CostLine(ParseCost(cost.value))
    else match IdAfterLabel(line, ID_LABELS)
      case Some((kind, value)) => IdLine(kind, value)
      case None => OtherLine
  }

  function Or<T>(latest: Option<T>, earlier: Option<T>): Option<T> {
    if latest.Some? then latest else earlier
  }

  /** `merge_transcript_ids` and `merge_usage_metadata`. */
  function Merged(s: Summary, json: JsonLine): Summary {
    s.(ids := s.ids + json.ids, cost := Or(json.cost, s.cost), usage := MergedUsage(s.usage, json.usage))
  }

  function MergedUsage(usage: Usage, line: Usage): Usage {
    Usage(Or(line.input, usage.input), Or(line.output, usage.output), Or(line.total, usage.total))
  }

  /** Whether a JSON line carried a count or a cost, so that its labels are not looked at. */
  predicate Metered(json: JsonLine) {
    json.usage.input.Some? || json.usage.output.Some? || json.usage.total.Some? || json.cost.Some?
  }

  /** Every kind of line but the two that the parsers treat differently. */
  function Common(s: Summary, line: Line): Summary {
    match line
    case SummaryLine(value) => if s.rawSummary.None? && value != "" then s.(rawSummary := Some(value)) else s
    case FilesLine(files) => s.(changedFiles := s.changedFiles + files)
    case InputLine(count) => s.(usage := s.usage.(input := count))
    case OutputLine(count) => s.(usage := s.usage.(output := count))
    case TotalLine(count) => s.(usage := s.usage.(total := count))
    case CostLine(cost) => s.(cost := cost)
    case IdLine(kind, value) => s.(ids := s.ids[kind := value])
    case _ => s
  }

  function GenericLine(s: Summary, line: Line): Summary {
    match line
    case ConcernLine(value) => s.(concerns := s.concerns + [ParseConcern(value)])
    case BlockerLine(value) => s.(blockers := s.blockers + [value])
    case _ => Common(s, line)
  }

  /** Neither empty nor the word none in any case. */
  predicate Telling(message: string) {
    Lower(message) != "none" && message != ""
  }

  function ScriptedLine(s: Summary, line: Line): Summary {
    match line
    case ConcernLine(value) =>
      var parsed := ParseConcern(value);
      if Telling(parsed.message) then s.(concerns := s.concerns + [parsed]) else s
    case BlockerLine(value) =>
      if Telling(Trim(value)) then s.(blockers := s.blockers + [Trim(value)]) else s
    case _ => Common(s, line)
  }

  function Initial(sandboxFiles: set<string>): Summary {
    Summary(sandboxFiles, [], [], Usage(None, None, None), None, map[], None)
  }

  function ReadLine(s: Summary, raw: string, json: JsonReader, effect: (Summary, Line) -> Summary): Summary {
    var line := Trim(raw);
    if line == "" then s
    else
      match json(line)
      case Some(value) => if Metered(value) then Merged(s, value) else effect(Merged(s, value), Labelled(line))
      case None => effect(s, Labelled(line))
  }

  function ReadLines(s: Summary, lines: seq<string>, json: JsonReader, effect: (Summary, Line) -> Summary): Summary {
    if lines == [] then s
    else ReadLine(ReadLines(s, lines[..|lines| - 1], json, effect), lines[|lines| - 1], json, effect)
  }

  /** `lines()`; the carriage return or the last empty piece it would drop is trimmed away by every reader. */
  function LinesOf(text: string): seq<string> {
    SplitAt(text, "\n", 0)
  }

  function Generic(transcript: string, sandboxFiles: set<string>, json: JsonReader): Summary {
    ReadLines(Initial(sandboxFiles), LinesOf(ParseBody(transcript)), json, GenericLine)
  }

  function Scripted(transcript: string, sandboxFiles: set<string>, json: JsonReader): Summary {
    ReadLines(Initial(sandboxFiles), LinesOf(ParseBody(transcript)), json, ScriptedLine)
  }

  lemma ReadNext(s: Summary, lines: seq<string>, i: nat, json: JsonReader, effect: (Summary, Line) -> Summary)
    requires i < |lines|
    ensures ReadLines(s, lines[..i + 1], json, effect) ==
            ReadLine(ReadLines(s, lines[..i], json, effect), lines[i], json, effect)
  {
    assert lines[..i + 1][..i] == lines[..i];
  }

  method ParseGenericTranscript(transcript: string, sandboxFiles: set<string>, json: JsonReader) returns (r: Summary)
    ensures r == Generic(transcript, sandboxFiles, json)
  {
    hide Labelled, Trim, SplitAt, ParseConcern, ParseBody;
    var changedFiles, concerns, blockers := sandboxFiles, [], [];
    var usage, cost := Usage(None, None, None), None;
    var ids: map<string, string> := map[];
    var rawSummary := None;
    var lines := LinesOf(ParseBody(transcript));
    for i := 0 to |lines|
      invariant Summary(changedFiles, concerns, blockers, usage, cost, ids, rawSummary) ==
                ReadLines(Initial(sandboxFiles), lines[..i], json, GenericLine)
    {
      ReadNext(Initial(sandboxFiles), lines, i, json, GenericLine);
      var line := Trim(lines[i]);
      if line == "" {
        continue;
      }
      var value := json(line);
      if value.Some? {
        ids := ids + value.value.ids;
        usage, cost := MergedUsage(usage, value.value.usage), Or(value.value.cost, cost);
        if Metered(value.value) {
          continue;
        }
      }
      match Labelled(line)
      case SummaryLine(text) => if rawSummary.None? && text != "" { rawSummary := Some(text); }
      case FilesLine(files) => changedFiles := changedFiles + files;
      case ConcernLine(text) => concerns := concerns + [ParseConcern(text)];
      case BlockerLine(text) => blockers := blockers + [text];
      case InputLine(count) => usage := usage.(input := count);
      case OutputLine(count) => usage := usage.(output := count);
      case TotalLine(count) => usage := usage.(total := count);
      case CostLine(amount) => cost := amount;
      case IdLine(kind, id) => ids := ids[kind := id];
      case OtherLine =>
    }
    assert lines[..|lines|] == lines;
    r := Summary(changedFiles, concerns, blockers, usage, cost, ids, rawSummary);
  }

  method ParseScriptedTranscript(transcript: string, sandboxFiles: set<string>, json: JsonReader) returns (r: Summary)
    ensures r == Scripted(transcript, sandboxFiles, json)
  {
    hide Labelled, Trim, SplitAt, ParseConcern, ParseBody, Telling;
    var changedFiles, concerns, blockers := sandboxFiles, [], [];
    var usage, cost := Usage(None, None, None), None;
    var ids: map<string, string> := map[];
    var rawSummary := None;
    var lines := LinesOf(ParseBody(transcript));
    for i := 0 to |lines|
      invariant Summary(changedFiles, concerns, blockers, usage, cost, ids, rawSummary) ==
                ReadLines(Initial(sandboxFiles), lines[..i], json, ScriptedLine)
    {
      ReadNext(Initial(sandboxFiles), lines, i, json, ScriptedLine);
      var line := Trim(lines[i]);
      if line == "" {
        continue;
      }
      var value := json(line);
      if value.Some? {
        ids := ids + value.value.ids;
        usage, cost := MergedUsage(usage, value.value.usage), Or(value.value.cost, cost);
        if Metered(value.value) {
          continue;
        }
      }
      match Labelled(line)
      case SummaryLine(text) => if rawSummary.None? && text != "" { rawSummary := Some(text); }
      case FilesLine(files) => changedFiles := changedFiles + files;
      case ConcernLine(text) =>
        var parsed := ParseConcern(text);
        if Telling(parsed.message) { concerns := concerns + [parsed]; }
      case BlockerLine(text) =>
        var message := Trim(text);
        if Telling(message) { blockers := blockers + [message]; }
      case InputLine(count) => usage := usage.(input := count);
      case OutputLine(count) => usage := usage.(output := count);
      case TotalLine(count) => usage := usage.(total := count);
      case CostLine(amount) => cost := amount;
      case IdLine(kind, id) => ids := ids[kind := id];
      case OtherLine =>
    }
    assert lines[..|lines|] == lines;
    r := Summary(changedFiles, concerns, blockers, usage, cost, ids, rawSummary);
  }

  // How the two parsers differ.

  function TellingConcerns(concerns: seq<Concern>): seq<Concern> {
    if concerns == [] then []
    else
      var last := concerns[|concerns| - 1];
      TellingConcerns(concerns[..|concerns| - 1]) + if Telling(last.message) then [last] else []
  }

  function TellingBlockers(blockers: seq<string>): seq<string> {
    if blockers == [] then []
    else
      var last := blockers[|blockers| - 1];
      TellingBlockers(blockers[..|blockers| - 1]) + if Telling(last) then [last] else []
  }

  function OnlyTelling(s: Summary): Summary {
    s.(concerns := TellingConcerns(s.concerns), blockers := TellingBlockers(s.blockers))
  }

  lemma TellingNext(concerns: seq<Concern>, concern: Concern, blockers: seq<string>, blocker: string)
    ensures TellingConcerns(concerns + [concern]) ==
            TellingConcerns(concerns) + if Telling(concern.message) then [concern] else []
    ensures TellingBlockers(blockers + [blocker]) ==
            TellingBlockers(blockers) + if Telling(blocker) then [blocker] else []
  {
    hide Telling;
    assert (concerns + [concern])[..|concerns|] == concerns && (blockers + [blocker])[..|blockers|] == blockers;
  }

  lemma LineFiltered(s: Summary, line: Line)
    requires line.BlockerLine? ==> Trim(line.value) == line.value
    ensures OnlyTelling(GenericLine(s, line)) == ScriptedLine(OnlyTelling(s), line)
  {
    hide Telling, ParseConcern, Trim, TellingConcerns, TellingBlockers;
    match line
    case ConcernLine(value) => TellingNext(s.concerns, ParseConcern(value), [], "");
    case BlockerLine(value) => TellingNext([], Concern("", ""), s.blockers, value);
    case _ =>
  }

  lemma BlockerTrimmed(line: string)
    ensures Labelled(line).BlockerLine? ==> Trim(Labelled(line).value) == Labelled(line).value
  {
    hide ValueAfterLabel, FileTokens, FileToken, SplitOnce, Trim, Lower, SplitAt, IdAfterLabel, ParseCost, ParseCount;
    LabelValueTrimmed(line, ["blocker"]);
  }

  lemma {:induction false} ReadFiltered(s: Summary, lines: seq<string>, json: JsonReader)
    ensures OnlyTelling(ReadLines(s, lines, json, GenericLine)) == ReadLines(OnlyTelling(s), lines, json, ScriptedLine)
  {
    hide GenericLine, ScriptedLine, Labelled, Trim, TellingConcerns, TellingBlockers;
    if lines != [] {
      var init, line := lines[..|lines| - 1], Trim(lines[|lines| - 1]);
      ReadFiltered(s, init, json);
      BlockerTrimmed(line);
      var before := ReadLines(s, init, json, GenericLine);
      LineFiltered(before, Labelled(line));
      if json(line).Some? { LineFiltered(Merged(before, json(line).value), Labelled(line)); }
    }
  }

  /** The scripted parser reads what the generic one reads, in every field, but drops concerns and blockers that
      are empty or say none. */
  lemma ScriptedIsFilteredGeneric(transcript: string, sandboxFiles: set<string>, json: JsonReader)
    ensures Scripted(transcript, sandboxFiles, json) == OnlyTelling(Generic(transcript, sandboxFiles, json))
  {
    hide ReadLines, LinesOf, ParseBody;
    ReadFiltered(Initial(sandboxFiles), LinesOf(ParseBody(transcript)), json);
  }

  /** Of a run's transcript the parsers read nothing but its output, if header and output hold no delimiter. */
  lemma OnlyOutputIsRead(header: string, stdout: string, stderr: string, sandboxFiles: set<string>, json: JsonReader)
    requires EndsInE(header) && !Contains(header, STDOUT) && CleanOutput(stdout)
    ensures Generic(Format(header, stdout, stderr), sandboxFiles, json) ==
            ReadLines(Initial(sandboxFiles), LinesOf(stdout), json, GenericLine)
  {
    hide ReadLines, LinesOf;
    BodyIsStdout(header, stdout, stderr);
  }

  /** No line takes back a changed file. */
  lemma {:induction false} FilesOnlyGrow(s: Summary, lines: seq<string>, json: JsonReader,
                                         effect: (Summary, Line) -> Summary)
    requires effect == GenericLine || effect == ScriptedLine
    ensures s.changedFiles <= ReadLines(s, lines, json, effect).changedFiles
  {
    hide Labelled, Trim, ParseConcern, Telling;
    if lines != [] {
      FilesOnlyGrow(s, lines[..|lines| - 1], json, effect);
    }
  }
}
