/** AO2 canonical JSON v1 (`write_canonical_json_value` in `crates/ao2-cli/src/cli_util.rs`): sorted keys, no
    white space, minimal escapes. Numbers are tokens of the RFC 8259 section 6 grammar. */
module CanonicalJson {
  import opened Hashing
  import opened Lexicographic

  /** A value as `serde_json` holds it; `members` are in some iteration order. */
  datatype Json =
    | Null
    | Bool(flag: bool)
    | Number(token: string)
    | Str(text: string)
    | Arr(items: seq<Json>)
    | Obj(members: seq<Member>)

  datatype Member = Member(key: string, value: Json)

  predicate Digit(c: char) {
    '0' <= c <= '9'
  }

  /** Length of the run of digits at the start. */
  function DigitRun(s: string): (n: nat)
    ensures n <= |s| && (forall i :: 0 <= i < n ==> Digit(s[i])) && (n < |s| ==> !Digit(s[n]))
  {
    if s != "" && Digit(s[0]) then 1 + DigitRun(s[1..]) else 0
  }

  /** `number = [ minus ] int [ frac ] [ exp ]` (RFC 8259 section 6). */
  predicate IsNumber(token: string) {
    var s := if token != "" && token[0] == '-' then token[1..] else token;
    var n := DigitRun(s);
    n > 0 && (s[0] == '0' ==> n == 1) && IsFraction(s[n..])
  }

  predicate IsFraction(s: string) {
    if s != "" && s[0] == '.' then
      var n := DigitRun(s[1..]);
      n > 0 && IsExponent(s[1..][n..])
    else IsExponent(s)
  }

  predicate IsExponent(s: string) {
    s == "" || (s[0] in {'e', 'E'} &&
                var t := if |s| > 1 && s[1] in {'+', '-'} then s[2..] else s[1..];
                t != "" && DigitRun(t) == |t|)
  }

  function KeysOf(members: seq<Member>): set<string> {
    set m | m in members :: m.key
  }

  /** `map[key]`. */
  function MemberAt(members: seq<Member>, key: string): (r: Member)
    requires key in KeysOf(members)
    ensures r in members && r.key == key
  {
    if members[0].key == key then members[0] else MemberAt(members[1..], key)
  }

  function MembersAt(members: seq<Member>, keys: seq<string>): (r: seq<Member>)
    requires forall k :: k in keys ==> k in KeysOf(members)
    ensures |r| == |keys| && forall i :: 0 <= i < |r| ==> r[i] in members && r[i] == MemberAt(members, keys[i])
  {
    seq(|keys|, i requires 0 <= i < |keys| => MemberAt(members, keys[i]))
  }

  /** The members in ascending order of their keys. */
  ghost function SortMembers(members: seq<Member>): (r: seq<Member>)
    ensures forall m :: m in r ==> m in members
  {
    MembersAt(members, Sorted(KeysOf(members)))
  }

  /** What a Rust `Value` always is: keys of one object are distinct, and numbers print as numbers. */
  ghost predicate Valid(v: Json) {
    match v
    case Number(token) => IsNumber(token)
    case Arr(items) => forall i :: 0 <= i < |items| ==> Valid(items[i])
    case Obj(members) =>
      && (forall i :: 0 <= i < |members| ==> Valid(members[i].value))
      && (forall i, j :: 0 <= i < j < |members| ==> members[i].key != members[j].key)
    case _ => true
  }

  lemma SortedWithin(v: Json, sorted: seq<Member>)
    requires v.Obj? && forall m :: m in sorted ==> m in v.members
    ensures forall i :: 0 <= i < |sorted| ==> sorted[i].value < v
  {
    forall i | 0 <= i < |sorted| ensures sorted[i].value < v {
      assert sorted[i] in v.members;
    }
  }

  function HexDigit(n: nat): char
    requires n < 16
  {
    "0123456789abcdef"[n]
  }

  function EscapeChar(c: char): string {
    match c
    case '\"' => "\\\""
    case '\\' => "\\\\"
    case '\n' => "\\n"
    case '\r' => "\\r"
    case '\t' => "\\t"
    case _ =>
      if c == 8 as char then "\\b"
      else if c == 12 as char then "\\f"
      else if c < ' ' then ['\\', 'u', '0', '0', HexDigit(c as int / 16), HexDigit(c as int % 16)]
      else [c]
  }

  function Escape(text: string): string {
    if text == "" then "" else EscapeChar(text[0]) + Escape(text[1..])
  }

  function PrintString(text: string): string {
    "\"" + Escape(text) + "\""
  }

  ghost function Print(v: Json): string
    decreases v, 1
  {
    match v
    case Null => "null"
    case Bool(flag) => if flag then "true" else "false"
    case Number(token) => token
    case Str(text) => PrintString(text)
    case Arr(items) => "[" + PrintItems(v, items, true) + "]"
    case Obj(members) =>
      SortedWithin(v, SortMembers(members));
      "{" + PrintMembers(v, SortMembers(members), true) + "}"
  }

  function Separator(first: bool): string {
    if first then "" else ","
  }

  /** The elements of `whole`, or some last ones of them, each but the first preceded by a comma. */
  ghost function PrintItems(whole: Json, items: seq<Json>, first: bool): string
    requires forall i :: 0 <= i < |items| ==> items[i] < whole
    decreases whole, 0, |items|
  {
    if items == [] then ""
    else Separator(first) + Print(items[0]) + PrintItems(whole, items[1..], false)
  }

  ghost function PrintMembers(whole: Json, members: seq<Member>, first: bool): string
    requires forall i :: 0 <= i < |members| ==> members[i].value < whole
    decreases whole, 0, |members|
  {
    if members == [] then ""
    else Separator(first) + PrintMember(members[0]) + PrintMembers(whole, members[1..], false)
  }

  ghost function PrintMember(member: Member): string
    decreases member.value, 2
  {
    PrintString(member.key) + ":" + Print(member.value)
  }

  ghost function CanonicalSha256(v: Json): Digest<string> {
    Sha256(Print(v))
  }

  /** Two values are the same when they differ in nothing but the order of object members, at any depth. */
  ghost predicate SameValue(v: Json, w: Json)
    decreases v
  {
    match (v, w)
    case (Arr(xs), Arr(ys)) => |xs| == |ys| && forall i :: 0 <= i < |xs| ==> SameValue(xs[i], ys[i])
    case (Obj(ms), Obj(ns)) =>
      && KeysOf(ms) == KeysOf(ns)
      && forall i, j :: 0 <= i < |ms| && 0 <= j < |ns| && ms[i].key == ns[j].key ==>
                          SameValue(ms[i].value, ns[j].value)
    case _ => v == w
  }

  /** The `&mut String` the writers push into. */
  class TextBuffer {
    var text: string

    constructor ()
      ensures text == ""
    {
      text := "";
    }

    method Push(s: string)
      modifies this
      ensures text == old(text) + s
    {
      text := text + s;
    }
  }

  lemma Regroup(a: string, b: string, c: string, d: string)
    ensures a + (b + c + d) == ((a + b) + c) + d
  {}

  method WriteString(out: TextBuffer, text: string)
    modifies out
    ensures out.text == old(out.text) + PrintString(text)
  {
    hide EscapeChar;
    out.Push("\"");
    ghost var start := out.text;
    for i := 0 to |text|
      invariant out.text + Escape(text[i..]) == start + Escape(text)
    {
      assert text[i..][0] == text[i] && text[i..][1..] == text[i + 1..];
      Regroup(out.text, EscapeChar(text[i]), "", Escape(text[i + 1..]));
      out.Push(EscapeChar(text[i]));
    }
    assert out.text == start + Escape(text);
    out.Push("\"");
  }

  method WriteValue(out: TextBuffer, v: Json)
    modifies out
    ensures out.text == old(out.text) + Print(v)
    decreases v, 1
  {
    hide PrintItems, PrintMembers, PrintString, SortMembers;
    match v
    case Null => out.Push("null");
    case Bool(flag) => out.Push(if flag then "true" else "false");
    case Number(token) => out.Push(token);
    case Str(text) => WriteString(out, text);
    case Arr(items) =>
      Regroup(out.text, "[", PrintItems(v, items, true), "]");
      WriteArray(out, v, items);
    case Obj(members) =>
      SortedWithin(v, SortMembers(members));
      Regroup(out.text, "{", PrintMembers(v, SortMembers(members), true), "}");
      WriteObject(out, v, members);
  }

  method WriteArray(out: TextBuffer, v: Json, items: seq<Json>)
    requires v == Arr(items)
    modifies out
    ensures out.text == ((old(out.text) + "[") + PrintItems(v, items, true)) + "]"
    decreases v, 0, 1
  {
    hide *;
    out.Push("[");
    WriteItems(out, v, items);
    out.Push("]");
  }

  method WriteObject(out: TextBuffer, v: Json, members: seq<Member>)
    requires v == Obj(members)
    modifies out
    ensures forall i :: 0 <= i < |SortMembers(members)| ==> SortMembers(members)[i].value < v
    ensures out.text == ((old(out.text) + "{") + PrintMembers(v, SortMembers(members), true)) + "}"
    decreases v, 0, 1
  {
    var keys := SortKeys(KeysOf(members));
    var sorted := MembersAt(members, keys);
    assert sorted == SortMembers(members);
    SortedWithin(v, sorted);
    hide *;
    out.Push("{");
    WriteMembers(out, v, sorted);
    out.Push("}");
  }

  method WriteSeparator(out: TextBuffer, index: nat)
    modifies out
    ensures out.text == old(out.text) + Separator(index == 0)
  {
    if index > 0 {
      out.Push(",");
    }
  }

  method WriteItems(out: TextBuffer, v: Json, items: seq<Json>)
    requires forall i :: 0 <= i < |items| ==> items[i] < v
    modifies out
    ensures out.text == old(out.text) + PrintItems(v, items, true)
    decreases v, 0, 0
  {
    ghost var start := out.text;
    assert items[0..] == items;
    for index := 0 to |items|
      invariant out.text + PrintItems(v, items[index..], index == 0) == start + PrintItems(v, items, true)
    {
      ItemStep(v, items, index, index == 0);
      Regroup(out.text, Separator(index == 0), Print(items[index]), PrintItems(v, items[index + 1..], false));
      hide *;
      WriteSeparator(out, index);
      WriteValue(out, items[index]);
    }
  }

  lemma ItemStep(v: Json, items: seq<Json>, index: nat, first: bool)
    requires index < |items| && forall i :: 0 <= i < |items| ==> items[i] < v
    ensures PrintItems(v, items[index..], first) ==
            Separator(first) + Print(items[index]) + PrintItems(v, items[index + 1..], false)
  {
    assert items[index..][0] == items[index] && items[index..][1..] == items[index + 1..];
  }

  method WriteMembers(out: TextBuffer, v: Json, members: seq<Member>)
    requires forall i :: 0 <= i < |members| ==> members[i].value < v
    modifies out
    ensures out.text == old(out.text) + PrintMembers(v, members, true)
    decreases v, 0, 0
  {
    ghost var start := out.text;
    assert members[0..] == members;
    for index := 0 to |members|
      invariant out.text + PrintMembers(v, members[index..], index == 0) == start + PrintMembers(v, members, true)
    {
      MemberStep(v, members, index, index == 0);
      Regroup(out.text, Separator(index == 0), PrintMember(members[index]),
              PrintMembers(v, members[index + 1..], false));
      hide *;
      WriteSeparator(out, index);
      WriteMember(out, members[index]);
    }
  }

  method WriteMember(out: TextBuffer, member: Member)
    modifies out
    ensures out.text == old(out.text) + PrintMember(member)
    decreases member.value, 2
  {
    Regroup(out.text, PrintString(member.key), ":", Print(member.value));
    assert PrintMember(member) == PrintString(member.key) + ":" + Print(member.value);
    hide *;
    WriteString(out, member.key);
    out.Push(":");
    WriteValue(out, member.value);
  }

  lemma MemberStep(v: Json, members: seq<Member>, index: nat, first: bool)
    requires index < |members| && forall i :: 0 <= i < |members| ==> members[i].value < v
    ensures PrintMembers(v, members[index..], first) ==
            Separator(first) + PrintMember(members[index]) + PrintMembers(v, members[index + 1..], false)
  {
    hide PrintString;
    assert members[index..][0] == members[index] && members[index..][1..] == members[index + 1..];
  }
}
