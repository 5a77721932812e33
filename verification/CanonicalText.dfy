/** Canonical text piece by piece: what the printer writes for every kind of value. */
module CanonicalText {
  import opened Lexicographic
  import opened CanonicalJson

  /** Every character's escape: the short forms, lower-case hex for the other controls, and itself. */
  lemma EscapeTells(c: char)
    ensures c == '\"' ==> EscapeChar(c) == "\\\""
    ensures c == '\\' ==> EscapeChar(c) == "\\\\"
    ensures c == '\n' ==> EscapeChar(c) == "\\n"
    ensures c == '\r' ==> EscapeChar(c) == "\\r"
    ensures c == '\t' ==> EscapeChar(c) == "\\t"
    ensures c == '\U{8}' ==> EscapeChar(c) == "\\b"
    ensures c == '\U{C}' ==> EscapeChar(c) == "\\f"
    ensures c < ' ' && c !in "\n\r\t\U{8}\U{C}" ==>
              var e := EscapeChar(c);
              |e| == 6 && e[..4] == "\\u00" && LowerHex(e[4], c as int / 16) && LowerHex(e[5], c as int % 16)
    ensures c >= ' ' && c != '\"' && c != '\\' ==> EscapeChar(c) == [c]
  {}

  predicate LowerHex(digit: char, n: int) {
    if 0 <= n < 10 then digit as int == '0' as int + n else digit as int == 'a' as int + n - 10
  }

  /** Strings are escaped character by character. */
  lemma {:induction false} EscapeConcat(a: string, b: string)
    ensures Escape(a + b) == Escape(a) + Escape(b)
  {
    hide EscapeChar;
    if a == "" {
      assert a + b == b;
    } else {
      assert (a + b)[0] == a[0] && (a + b)[1..] == a[1..] + b;
      EscapeConcat(a[1..], b);
    }
  }

  /** Text without controls, quotes and backslashes is printed as it is. */
  lemma {:induction false} PlainText(text: string)
    requires forall i :: 0 <= i < |text| ==> text[i] >= ' ' && text[i] != '\"' && text[i] != '\\'
    ensures Escape(text) == text
  {
    if text != "" {
      EscapeTells(text[0]);
      PlainText(text[1..]);
      hide EscapeChar;
      assert text == [text[0]] + text[1..];
    }
  }

  /** The parts with a comma between them, and nothing else. */
  function Commas(parts: seq<string>): string {
    if parts == [] then ""
    else if |parts| == 1 then parts[0]
    else Commas(parts[..|parts| - 1]) + "," + parts[|parts| - 1]
  }

  lemma {:induction false} CommasFront(first: string, rest: seq<string>)
    requires rest != []
    ensures Commas([first] + rest) == first + "," + Commas(rest)
  {
    var parts := [first] + rest;
    assert parts[..|parts| - 1] == [first] + rest[..|rest| - 1];
    if |rest| > 1 {
      CommasFront(first, rest[..|rest| - 1]);
    }
  }

  ghost function ItemTexts(items: seq<Json>): (r: seq<string>)
    ensures |r| == |items| && forall i :: 0 <= i < |r| ==> r[i] == Print(items[i])
  {
    seq(|items|, i requires 0 <= i < |items| => Print(items[i]))
  }

  ghost function MemberTexts(members: seq<Member>): (r: seq<string>)
    ensures |r| == |members|
    ensures forall i :: 0 <= i < |r| ==> r[i] == PrintString(members[i].key) + ":" + Print(members[i].value)
  {
    seq(|members|, i requires 0 <= i < |members| => PrintString(members[i].key) + ":" + Print(members[i].value))
  }

  /** A continued list is a comma and then the list, or nothing. */
  function Continued(parts: seq<string>, first: bool): string {
    if parts == [] then "" else Separator(first) + Commas(parts)
  }

  lemma ContinuedStep(part: string, rest: seq<string>, first: bool)
    ensures Continued([part] + rest, first) == Separator(first) + part + Continued(rest, false)
  {
    CommasOne(part);
    hide Commas, Separator;
    if rest != [] {
      CommasFront(part, rest);
      Join4(Separator(first), part, ",", Commas(rest));
      SeparatorIsComma();
    } else {
      assert [part] + rest == [part] && Separator(first) + part + "" == Separator(first) + part;
    }
  }

  lemma CommasOne(part: string)
    ensures Commas([part]) == part
  {}

  lemma SeparatorIsComma()
    ensures Separator(false) == ","
  {}

  lemma Join4(a: string, b: string, c: string, d: string)
    ensures a + (b + c + d) == a + b + (c + d)
  {}

  lemma {:induction false} ItemsJoined(v: Json, items: seq<Json>, first: bool)
    requires forall i :: 0 <= i < |items| ==> items[i] < v
    ensures PrintItems(v, items, first) == Continued(ItemTexts(items), first)
  {
    hide Print, Commas;
    if items != [] {
      ItemsJoined(v, items[1..], false);
      assert ItemTexts(items) == [Print(items[0])] + ItemTexts(items[1..]);
      ContinuedStep(Print(items[0]), ItemTexts(items[1..]), first);
    }
  }

  lemma {:induction false} MembersJoined(v: Json, members: seq<Member>, first: bool)
    requires forall i :: 0 <= i < |members| ==> members[i].value < v
    ensures PrintMembers(v, members, first) == Continued(MemberTexts(members), first)
  {
    hide Print, Commas, PrintString;
    if members != [] {
      MembersJoined(v, members[1..], false);
      assert MemberTexts(members) == [PrintMember(members[0])] + MemberTexts(members[1..]);
      ContinuedStep(PrintMember(members[0]), MemberTexts(members[1..]), first);
    }
  }

  /** A string is its escapes in quotes; a number is its token. */
  lemma TokenText(text: string)
    ensures Print(Str(text)) == "\"" + Escape(text) + "\"" && Print(Number(text)) == text
  {
    hide Escape;
  }

  /** Literals, and an array: its elements' texts with commas between them, no blank anywhere. */
  lemma ArrayText(items: seq<Json>)
    ensures Print(Arr(items)) == "[" + Commas(ItemTexts(items)) + "]"
    ensures Print(Null) == "null" && Print(Bool(true)) == "true" && Print(Bool(false)) == "false"
  {
    ItemsJoined(Arr(items), items, true);
    hide Commas, PrintItems, Escape;
    assert Separator(true) + Commas(ItemTexts(items)) == Commas(ItemTexts(items));
  }

  /** An object: its members, each key once, the keys ascending character by character, every value the one that
      the object holds under its key. */
  lemma ObjectText(members: seq<Member>) returns (sorted: seq<Member>)
    ensures Print(Obj(members)) == "{" + Commas(MemberTexts(sorted)) + "}"
    ensures forall i, j :: 0 <= i < j < |sorted| ==> Precedes(sorted[i].key, sorted[j].key)
    ensures forall i :: 0 <= i < |sorted| ==> sorted[i] in members
    ensures (set m | m in sorted :: m.key) == (set m | m in members :: m.key)
  {
    sorted := SortMembers(members);
    SortedWithin(Obj(members), sorted);
    MembersJoined(Obj(members), sorted, true);
    SortedInOrder(members);
    hide Commas, PrintMembers, SortMembers, Precedes;
    assert Separator(true) + Commas(MemberTexts(sorted)) == Commas(MemberTexts(sorted));
  }

  lemma SortedInOrder(members: seq<Member>)
    ensures var sorted := SortMembers(members);
            && (forall i, j :: 0 <= i < j < |sorted| ==> Precedes(sorted[i].key, sorted[j].key))
            && KeysOf(sorted) == KeysOf(members)
  {
    var keys, sorted := Sorted(KeysOf(members)), SortMembers(members);
    AscendingMeaning(keys);
    hide Less, Precedes;
    forall k | k in KeysOf(members) ensures k in KeysOf(sorted) {
      assert k in keys;
      var j :| 0 <= j < |keys| && keys[j] == k;
      assert sorted[j] in sorted && sorted[j].key == k;
    }
  }
}
