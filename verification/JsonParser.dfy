/** A parser for JSON text, after RFC 8259 sections 2 to 7: white space around every structural character,
    all string escapes including surrogate pairs, and the number grammar. */
module JsonParser {
  import opened CanonicalJson

  /** A parsed prefix and what follows it. */
  datatype Parsed<+T> = Got(value: T, rest: string) | Bad {
    predicate IsFailure() {
      Bad?
    }

    function PropagateFailure<U>(): Parsed<U>
      requires Bad?
    {
      Bad
    }

    function Extract(): (T, string)
      requires Got?
    {
      (value, rest)
    }
  }

  predicate Space(c: char) {
    c == ' ' || c == '\t' || c == '\n' || c == '\r'
  }

  function SkipSpace(s: string): (r: string)
    ensures |r| <= |s| && (r != "" ==> !Space(r[0]))
  {
    if s != "" && Space(s[0]) then SkipSpace(s[1..]) else s
  }

  predicate NumberChar(c: char) {
    Digit(c) || c in "+-.eE"
  }

  function NumberRun(s: string): (n: nat)
    ensures n <= |s|
  {
    if s != "" && NumberChar(s[0]) then 1 + NumberRun(s[1..]) else 0
  }

  function ParseNumber(s: string): (r: Parsed<Json>)
    ensures r.Got? ==> |r.rest| < |s|
  {
    var n := NumberRun(s);
    if IsNumber(s[..n]) then Got(Number(s[..n]), s[n..]) else Bad
  }

  function HexValue(c: char): int {
    if '0' <= c <= '9' then c as int - '0' as int
    else if 'a' <= c <= 'f' then c as int - 'a' as int + 10
    else if 'A' <= c <= 'F' then c as int - 'A' as int + 10
    else -1
  }

  /** The four hex digits at the start of `s` as a code unit. */
  function CodeUnit(s: string): (r: Parsed<int>)
    ensures r.Got? ==> |r.rest| < |s| && 0 <= r.value < 0x1_0000
  {
    if |s| < 4 || HexValue(s[0]) < 0 || HexValue(s[1]) < 0 || HexValue(s[2]) < 0 || HexValue(s[3]) < 0 then Bad
    else Got(((HexValue(s[0]) * 16 + HexValue(s[1])) * 16 + HexValue(s[2])) * 16 + HexValue(s[3]), s[4..])
  }

  /** The character after `\u`, which may take two code units. */
  function ParseUnicode(s: string): (r: Parsed<char>)
    ensures r.Got? ==> |r.rest| < |s|
  {
    var (high, rest) :- CodeUnit(s);
    if high < 0xD800 || 0xE000 <= high then Got(high as char, rest)
    else if high < 0xDC00 && |rest| >= 2 && rest[0] == '\\' && rest[1] == 'u' then
      var (low, rest2) :- CodeUnit(rest[2..]);
      if 0xDC00 <= low < 0xE000 then Got((0x1_0000 + (high - 0xD800) * 0x400 + (low - 0xDC00)) as char, rest2) else Bad
    else Bad
  }

  /** The character after a backslash. */
  function ParseEscape(s: string): (r: Parsed<char>)
    ensures r.Got? ==> |r.rest| < |s|
  {
    if s == "" then Bad
    else match s[0]
      case '\"' => Got('\"', s[1..])
      case '\\' => Got('\\', s[1..])
      case '/' => Got('/', s[1..])
      case 'b' => Got(8 as char, s[1..])
      case 'f' => Got(12 as char, s[1..])
      case 'n' => Got('\n', s[1..])
      case 'r' => Got('\r', s[1..])
      case 't' => Got('\t', s[1..])
      case 'u' => ParseUnicode(s[1..])
      case _ => Bad
  }

  /** The rest of a string, after its opening quote. */
  function ParseChars(s: string): (r: Parsed<string>)
    ensures r.Got? ==> |r.rest| < |s|
    decreases |s|
  {
    if s == "" || s[0] < ' ' then Bad
    else if s[0] == '\"' then Got("", s[1..])
    else
      var (c, rest) :- if s[0] == '\\' then ParseEscape(s[1..]) else Got(s[0], s[1..]);
      var (text, rest2) :- ParseChars(rest);
      Got([c] + text, rest2)
  }

  function Literal(s: string, word: string, value: Json): (r: Parsed<Json>)
    requires word != ""
    ensures r.Got? ==> |r.rest| < |s|
  {
    if word <= s then Got(value, s[|word|..]) else Bad
  }

  function ParseValue(s: string): (r: Parsed<Json>)
    ensures r.Got? ==> |r.rest| < |s|
    decreases |s|, 0
  {
    var t := SkipSpace(s);
    if t == "" then Bad
    else match t[0]
      case 'n' => Literal(t, "null", Null)
      case 't' => Literal(t, "true", Bool(true))
      case 'f' => Literal(t, "false", Bool(false))
      case '\"' =>
        var (text, rest) :- ParseChars(t[1..]);
        Got(Str(text), rest)
      case '[' => ParseArray(t[1..])
      case '{' => ParseObject(t[1..])
      case _ => ParseNumber(t)
  }

  /** The rest of an array, after its opening bracket. */
  function ParseArray(s: string): (r: Parsed<Json>)
    ensures r.Got? ==> |r.rest| < |s|
    decreases |s|, 2
  {
    var u := SkipSpace(s);
    if u != "" && u[0] == ']' then Got(Arr([]), u[1..])
    else
      var (items, rest) :- ParseItems(u);
      Got(Arr(items), rest)
  }

  /** The rest of an object, after its opening brace. */
  function ParseObject(s: string): (r: Parsed<Json>)
    ensures r.Got? ==> |r.rest| < |s|
    decreases |s|, 3
  {
    var u := SkipSpace(s);
    if u != "" && u[0] == '}' then Got(Obj([]), u[1..])
    else
      var (members, rest) :- ParseMembers(u);
      Got(Obj(members), rest)
  }

  /** One or more elements and the closing bracket. */
  function ParseItems(s: string): (r: Parsed<seq<Json>>)
    ensures r.Got? ==> |r.rest| < |s|
    decreases |s|, 1
  {
    var (item, rest) :- ParseValue(s);
    var t := SkipSpace(rest);
    if t == "" then Bad
    else if t[0] == ']' then Got([item], t[1..])
    else if t[0] == ',' then
      var (items, rest2) :- ParseItems(t[1..]);
      Got([item] + items, rest2)
    else Bad
  }

  function ParseMember(s: string): (r: Parsed<Member>)
    ensures r.Got? ==> |r.rest| < |s|
    decreases |s|, 1
  {
    var t := SkipSpace(s);
    if t == "" || t[0] != '\"' then Bad
    else
      var (key, rest) :- ParseChars(t[1..]);
      var u := SkipSpace(rest);
      if u == "" || u[0] != ':' then Bad
      else
        var (value, rest2) :- ParseValue(u[1..]);
        Got(Member(key, value), rest2)
  }

  /** One or more members and the closing brace. */
  function ParseMembers(s: string): (r: Parsed<seq<Member>>)
    ensures r.Got? ==> |r.rest| < |s|
    decreases |s|, 2
  {
    var (member, rest) :- ParseMember(s);
    var t := SkipSpace(rest);
    if t == "" then Bad
    else if t[0] == '}' then Got([member], t[1..])
    else if t[0] == ',' then
      var (members, rest2) :- ParseMembers(t[1..]);
      Got([member] + members, rest2)
    else Bad
  }

  /** `JSON-text = ws value ws`. */
  function Parse(s: string): Parsed<Json> {
    var (value, rest) :- ParseValue(s);
    if SkipSpace(rest) == "" then Got(value, "") else Bad
  }
}
