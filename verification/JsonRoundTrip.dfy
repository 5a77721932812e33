/** The canonical printer is undone by the RFC 8259 parser, so canonical text and its digest identify the value. */
module JsonRoundTrip {
  import opened Lexicographic
  import opened CanonicalJson
  import opened JsonParser

  /** The value with the members of every object in ascending order. */
  ghost function Canon(v: Json): Json
    decreases v, 1
  {
    match v
    case Arr(items) => Arr(CanonItems(v, items))
    case Obj(members) =>
      SortedWithin(v, SortMembers(members));
      Obj(CanonMembers(v, SortMembers(members)))
    case _ => v
  }

  ghost function CanonItems(whole: Json, items: seq<Json>): (r: seq<Json>)
    requires forall i :: 0 <= i < |items| ==> items[i] < whole
    ensures |r| == |items| && forall i :: 0 <= i < |r| ==> r[i] == Canon(items[i])
    decreases whole, 0, |items|
  {
    if items == [] then [] else [Canon(items[0])] + CanonItems(whole, items[1..])
  }

  ghost function CanonMembers(whole: Json, members: seq<Member>): (r: seq<Member>)
    requires forall i :: 0 <= i < |members| ==> members[i].value < whole
    ensures |r| == |members|
    ensures forall i :: 0 <= i < |r| ==> r[i] == Member(members[i].key, Canon(members[i].value))
    decreases whole, 0, |members|
  {
    if members == [] then []
    else [Member(members[0].key, Canon(members[0].value))] + CanonMembers(whole, members[1..])
  }

  /** What may follow a value: nothing that a number could go on with. */
  predicate Ends(rest: string) {
    rest != "" ==> !NumberChar(rest[0])
  }

  /** Concatenation with the pieces regrouped to the right. */
  lemma Right(a: string, b: string, c: string)
    ensures (a + b) + c == a + (b + c)
  {}

  lemma Right4(a: string, b: string, c: string, d: string)
    ensures ((a + b) + c) + d == a + (b + (c + d))
  {}

  lemma EscapedCharParses(c: char, rest: string)
    ensures ParseChars(EscapeChar(c) + rest) ==
            (match ParseChars(rest) case Bad => Bad case Got(text, r) => Got([c] + text, r))
  {
    EscapeShape(c);
    hide *;
    var e := EscapeChar(c);
    if |e| == 1 {
      PlainChar(c, rest);
    } else {
      EscapeParses(c, rest);
      assert e + rest == ['\\'] + (e[1..] + rest);
      BackslashStep(e[1..] + rest);
    }
  }

  lemma EscapeShape(c: char)
    ensures |EscapeChar(c)| == 1 || (|EscapeChar(c)| >= 2 && EscapeChar(c)[0] == '\\')
  {}

  lemma PlainChar(c: char, rest: string)
    requires |EscapeChar(c)| == 1
    ensures ParseChars(EscapeChar(c) + rest) ==
            (match ParseChars(rest) case Bad => Bad case Got(text, r) => Got([c] + text, r))
  {
    assert EscapeChar(c) == [c] && c != '\"' && c != '\\' && c >= ' ';
    hide EscapeChar;
    assert ([c] + rest)[1..] == rest;
  }

  lemma BackslashStep(s: string)
    requires ParseEscape(s).Got?
    ensures ParseChars(['\\'] + s) ==
            (match ParseChars(ParseEscape(s).rest)
             case Bad => Bad
             case Got(text, r) => Got([ParseEscape(s).value] + text, r))
  {
    hide ParseEscape;
    assert (['\\'] + s)[1..] == s;
  }

  lemma EscapeParses(c: char, rest: string)
    requires |EscapeChar(c)| != 1
    ensures ParseEscape(EscapeChar(c)[1..] + rest) == Got(c, rest)
  {
    var e := EscapeChar(c);
    if |e| == 2 {
      assert e[1..] + rest == [e[1]] + rest && ([e[1]] + rest)[1..] == rest;
    } else {
      ControlEscape(c, rest);
    }
  }

  lemma HexDigitValue(n: nat)
    requires n < 16
    ensures HexValue(HexDigit(n)) == n
  {}

  lemma ControlEscape(c: char, rest: string)
    requires |EscapeChar(c)| == 6
    ensures ParseEscape(EscapeChar(c)[1..] + rest) == Got(c, rest)
  {
    var e := EscapeChar(c);
    var n := c as int;
    HexDigitValue(n / 16);
    HexDigitValue(n % 16);
    var s := e[1..] + rest;
    assert s[0] == 'u' && s[1..] == e[2..] + rest;
    FourDigits(e[2..], rest);
  }

  lemma FourDigits(hex: string, rest: string)
    requires |hex| == 4 && hex[0] == hex[1] == '0' && 0 <= HexValue(hex[2]) < 2 && 0 <= HexValue(hex[3])
    ensures var n := HexValue(hex[2]) * 16 + HexValue(hex[3]);
            n < 0xD800 && ParseUnicode(hex + rest) == Got(n as char, rest)
  {
    var s := hex + rest;
    assert s[0] == hex[0] && s[1] == hex[1] && s[2] == hex[2] && s[3] == hex[3] && s[4..] == rest;
  }

  lemma {:induction false} StringParses(text: string, rest: string)
    ensures ParseChars(Escape(text) + ("\"" + rest)) == Got(text, rest)
  {
    if text == "" {
      ClosingQuote(rest);
    } else {
      EscapeUnfold(text);
      hide *;
      StringParses(text[1..], rest);
      assert text == [text[0]] + text[1..];
      Right(EscapeChar(text[0]), Escape(text[1..]), "\"" + rest);
      EscapedCharParses(text[0], Escape(text[1..]) + ("\"" + rest));
    }
  }

  lemma ClosingQuote(rest: string)
    ensures ParseChars(Escape("") + ("\"" + rest)) == Got("", rest)
  {
    assert "" + ("\"" + rest) == "\"" + rest && ("\"" + rest)[1..] == rest;
  }

  lemma EscapeUnfold(text: string)
    requires text != ""
    ensures Escape(text) == EscapeChar(text[0]) + Escape(text[1..])
  {}

  lemma NumberTokenChars(token: string)
    requires IsNumber(token)
    ensures token != "" && (token[0] == '-' || Digit(token[0]))
    ensures forall i :: 0 <= i < |token| ==> NumberChar(token[i])
  {
    var signed := token != "" && token[0] == '-';
    var s := if signed then token[1..] else token;
    UnsignedChars(s);
    hide *;
    forall i | 0 <= i < |token| ensures NumberChar(token[i]) {
      if !signed { } else if i == 0 { MinusIsNumberChar(); } else { assert token[i] == s[i - 1]; }
    }
  }

  lemma UnsignedChars(s: string)
    requires DigitRun(s) > 0 && IsFraction(s[DigitRun(s)..])
    ensures s != "" && Digit(s[0]) && forall i :: 0 <= i < |s| ==> NumberChar(s[i])
  {
    hide *;
    var n := DigitRun(s);
    FractionChars(s[n..]);
    forall i | 0 <= i < |s| ensures NumberChar(s[i]) {
      if i < n { DigitIsNumberChar(s[i]); } else { assert s[i] == s[n..][i - n]; }
    }
  }

  lemma DigitIsNumberChar(c: char)
    requires Digit(c)
    ensures NumberChar(c)
  {}

  lemma MinusIsNumberChar()
    ensures NumberChar('-')
  {}

  lemma FractionChars(s: string)
    requires IsFraction(s)
    ensures forall i :: 0 <= i < |s| ==> NumberChar(s[i])
  {
    if s != "" && s[0] == '.' {
      var t := s[1..];
      var n := DigitRun(t);
      ExponentChars(t[n..]);
      assert forall i :: n <= i < |t| ==> t[i] == t[n..][i - n];
      assert forall i :: 1 <= i < |s| ==> s[i] == t[i - 1];
    } else {
      ExponentChars(s);
    }
  }

  lemma ExponentChars(s: string)
    requires IsExponent(s)
    ensures forall i :: 0 <= i < |s| ==> NumberChar(s[i])
  {
    if s != "" {
      var signed := |s| > 1 && s[1] in {'+', '-'};
      var t := if signed then s[2..] else s[1..];
      assert forall i :: 0 <= i < |t| ==> Digit(t[i]);
      assert forall i :: |s| - |t| <= i < |s| ==> s[i] == t[i - (|s| - |t|)];
    }
  }

  lemma {:induction false} RunStops(token: string, rest: string)
    requires Ends(rest) && forall i :: 0 <= i < |token| ==> NumberChar(token[i])
    ensures NumberRun(token + rest) == |token|
  {
    if token != "" {
      assert (token + rest)[1..] == token[1..] + rest;
      RunStops(token[1..], rest);
    } else {
      assert token + rest == rest;
    }
  }

  lemma NumberParses(token: string, rest: string)
    requires IsNumber(token) && Ends(rest)
    ensures ParseValue(token + rest) == Got(Number(token), rest)
  {
    NumberTokenChars(token);
    RunStops(token, rest);
    hide IsNumber;
    var s := token + rest;
    assert s[0] == token[0] && SkipSpace(s) == s;
    assert s[..|token|] == token && s[|token|..] == rest;
  }

  /** Printed values start with a visible character that closes nothing. */
  lemma PrintStarts(v: Json)
    requires Valid(v)
    ensures Print(v) != "" && !Space(Print(v)[0]) && Print(v)[0] != ']' && Print(v)[0] != '}'
  {
    if v.Number? { NumberTokenChars(v.token); }
  }

  lemma LiteralParses(word: string, v: Json, rest: string)
    requires (word, v) in {("null", Null), ("true", Bool(true)), ("false", Bool(false))}
    ensures ParseValue(word + rest) == Got(v, rest)
  {
    var s := word + rest;
    assert s[0] == word[0] && SkipSpace(s) == s && s[|word|..] == rest;
  }

  lemma StringValueParses(text: string, rest: string)
    ensures ParseValue(PrintString(text) + rest) == Got(Str(text), rest)
  {
    QuotedStep(text, rest);
    var s := PrintString(text) + rest;
    hide ParseChars, PrintString;
    assert SkipSpace(s) == s;
  }

  /** A printed string begins with a quote, and its body parses back. */
  lemma QuotedStep(text: string, rest: string)
    ensures var s := PrintString(text) + rest;
            s != "" && s[0] == '\"' && ParseChars(s[1..]) == Got(text, rest)
  {
    StringParses(text, rest);
    hide ParseChars, Escape;
    Right4("\"", Escape(text), "\"", rest);
    assert (PrintString(text) + rest)[1..] == Escape(text) + ("\"" + rest);
  }

  lemma {:induction false} ValueParses(v: Json, rest: string)
    requires Valid(v) && Ends(rest)
    ensures ParseValue(Print(v) + rest) == Got(Canon(v), rest)
    decreases v, 2
  {
    hide IsNumber, ParseValue, PrintString, PrintItems, PrintMembers, SortMembers;
    match v
    case Null => LiteralParses("null", v, rest);
    case Bool(flag) => LiteralParses(if flag then "true" else "false", v, rest);
    case Number(token) => NumberParses(token, rest);
    case Str(text) => StringValueParses(text, rest);
    case Arr(items) => ArrayParses(v, items, rest);
    case Obj(members) => ObjectParses(v, members, rest);
  }

  lemma OpeningStep(body: string)
    ensures ParseValue("[" + body) == ParseArray(body)
    ensures ParseValue("{" + body) == ParseObject(body)
  {
    hide ParseArray, ParseObject, ParseChars, ParseNumber, Literal;
    assert ("[" + body)[1..] == body && ("{" + body)[1..] == body;
    assert SkipSpace("[" + body) == "[" + body && SkipSpace("{" + body) == "{" + body;
  }

  lemma {:induction false} ArrayParses(v: Json, items: seq<Json>, rest: string)
    requires Valid(v) && v == Arr(items)
    ensures ParseValue(Print(v) + rest) == Got(Canon(v), rest)
    decreases v, 1
  {
    var inner := PrintItems(v, items, true);
    assert Print(v) == "[" + inner + "]";
    OpeningStep(inner + ("]" + rest));
    Right4("[", inner, "]", rest);
    if items == [] {
      assert inner + ("]" + rest) == "]" + rest && ("]" + rest)[1..] == rest;
    } else {
      ItemsParse(v, items, rest);
      ItemsStart(v, items, "]" + rest);
      hide ParseItems, ParseValue;
    }
  }

  lemma ItemsStart(v: Json, items: seq<Json>, rest: string)
    requires items != [] && Valid(items[0]) && forall i :: 0 <= i < |items| ==> items[i] < v
    ensures var s := PrintItems(v, items, true) + rest;
            s != "" && s[0] != ']' && SkipSpace(s) == s
  {
    PrintStarts(items[0]);
    var first, more := Print(items[0]), PrintItems(v, items[1..], false);
    hide Print, Valid;
    assert PrintItems(v, items, true) == "" + first + more;
    assert (PrintItems(v, items, true) + rest)[0] == first[0];
  }

  lemma ItemsLast(s: string, x: Json, rest: string)
    requires ParseValue(s) == Got(x, "]" + rest)
    ensures ParseItems(s) == Got([x], rest)
  {
    hide ParseValue;
    assert ("]" + rest)[1..] == rest && SkipSpace("]" + rest) == "]" + rest;
  }

  lemma ItemsMore(s: string, x: Json, next: string, xs: seq<Json>, rest: string)
    requires ParseValue(s) == Got(x, "," + next) && ParseItems(next) == Got(xs, rest)
    ensures ParseItems(s) == Got([x] + xs, rest)
  {
    hide ParseValue;
    assert ("," + next)[1..] == next && SkipSpace("," + next) == "," + next;
  }

  /** The printed elements: the first one, then nothing, or a comma and the printed others. */
  lemma ItemsUnfold(v: Json, items: seq<Json>)
    requires items != [] && forall i :: 0 <= i < |items| ==> items[i] < v
    ensures PrintItems(v, items, true) ==
            Print(items[0]) + if |items| == 1 then "" else "," + PrintItems(v, items[1..], true)
    ensures CanonItems(v, items) == [Canon(items[0])] + if |items| == 1 then [] else CanonItems(v, items[1..])
  {
    hide Print, Canon;
    if |items| > 1 {
      Right(",", Print(items[1..][0]), PrintItems(v, items[1..][1..], false));
    }
  }

  lemma CloserEnds(rest: string)
    ensures Ends("]" + rest) && Ends("}" + rest) && Ends("," + rest)
  {}

  lemma {:induction false} ItemsParse(v: Json, items: seq<Json>, rest: string)
    requires items != [] && forall i :: 0 <= i < |items| ==> items[i] < v && Valid(items[i])
    ensures ParseItems(PrintItems(v, items, true) + ("]" + rest)) == Got(CanonItems(v, items), rest)
    decreases v, 0, |items|
  {
    hide *;
    ItemsUnfold(v, items);
    var first := Print(items[0]);
    CloserEnds(rest);
    if |items| == 1 {
      ValueParses(items[0], "]" + rest);
      Right(first, "", "]" + rest);
      assert "" + ("]" + rest) == "]" + rest && [Canon(items[0])] + [] == [Canon(items[0])];
      ItemsLast(first + ("]" + rest), Canon(items[0]), rest);
    } else {
      var next := PrintItems(v, items[1..], true);
      ItemsParse(v, items[1..], rest);
      CloserEnds(next + ("]" + rest));
      ValueParses(items[0], "," + (next + ("]" + rest)));
      Right4(first, ",", next, "]" + rest);
      Right(first, ",", next);
      ItemsMore(first + ("," + (next + ("]" + rest))), Canon(items[0]),
                next + ("]" + rest), CanonItems(v, items[1..]), rest);
    }
  }

  lemma {:induction false} ObjectParses(v: Json, members: seq<Member>, rest: string)
    requires Valid(v) && v == Obj(members)
    ensures ParseValue(Print(v) + rest) == Got(Canon(v), rest)
    decreases v, 1
  {
    var sorted := SortMembers(members);
    SortedWithin(v, sorted);
    var inner := PrintMembers(v, sorted, true);
    assert Print(v) == "{" + inner + "}";
    OpeningStep(inner + ("}" + rest));
    Right4("{", inner, "}", rest);
    if sorted == [] {
      assert inner + ("}" + rest) == "}" + rest && ("}" + rest)[1..] == rest;
    } else {
      SortedValid(v, sorted);
      MembersParse(v, sorted, rest);
      MembersStart(v, sorted, "}" + rest);
      hide ParseMembers, ParseValue;
    }
  }

  lemma SortedValid(v: Json, sorted: seq<Member>)
    requires Valid(v) && v.Obj? && forall m :: m in sorted ==> m in v.members
    ensures forall i :: 0 <= i < |sorted| ==> Valid(sorted[i].value)
  {
    forall i | 0 <= i < |sorted| ensures Valid(sorted[i].value) {
      assert sorted[i] in v.members;
    }
  }

  lemma MembersStart(v: Json, members: seq<Member>, rest: string)
    requires members != [] && forall i :: 0 <= i < |members| ==> members[i].value < v
    ensures var s := PrintMembers(v, members, true) + rest;
            s != "" && s[0] == '\"' && SkipSpace(s) == s
  {
    hide Print, Escape;
    var more := PrintMembers(v, members[1..], false);
    assert PrintMembers(v, members, true) == "" + PrintMember(members[0]) + more;
    assert (PrintMembers(v, members, true) + rest)[0] == PrintMember(members[0])[0] == '\"';
  }

  lemma MembersLast(s: string, m: Member, rest: string)
    requires ParseMember(s) == Got(m, "}" + rest)
    ensures ParseMembers(s) == Got([m], rest)
  {
    hide ParseMember;
    assert ("}" + rest)[1..] == rest && SkipSpace("}" + rest) == "}" + rest;
  }

  lemma MembersMore(s: string, m: Member, next: string, ms: seq<Member>, rest: string)
    requires ParseMember(s) == Got(m, "," + next) && ParseMembers(next) == Got(ms, rest)
    ensures ParseMembers(s) == Got([m] + ms, rest)
  {
    hide ParseMember;
    assert ("," + next)[1..] == next && SkipSpace("," + next) == "," + next;
  }

  lemma MemberStep(s: string, key: string, body: string, value: Json, rest: string)
    requires s != "" && s[0] == '\"' && ParseChars(s[1..]) == Got(key, ":" + body)
    requires ParseValue(body) == Got(value, rest)
    ensures ParseMember(s) == Got(Member(key, value), rest)
  {
    hide ParseChars, ParseValue;
    assert SkipSpace(s) == s && SkipSpace(":" + body) == ":" + body && (":" + body)[1..] == body;
  }

  lemma {:induction false} MemberParses(member: Member, rest: string)
    requires Valid(member.value) && Ends(rest)
    ensures ParseMember(PrintMember(member) + rest) == Got(Member(member.key, Canon(member.value)), rest)
    decreases member.value, 3
  {
    var body := Print(member.value) + rest;
    ValueParses(member.value, rest);
    QuotedStep(member.key, ":" + body);
    assert PrintMember(member) == PrintString(member.key) + ":" + Print(member.value);
    hide *;
    Right4(PrintString(member.key), ":", Print(member.value), rest);
    MemberStep(PrintString(member.key) + (":" + body), member.key, body, Canon(member.value), rest);
  }

  lemma MembersUnfold(v: Json, members: seq<Member>)
    requires members != [] && forall i :: 0 <= i < |members| ==> members[i].value < v
    ensures PrintMembers(v, members, true) ==
            PrintMember(members[0]) + if |members| == 1 then "" else "," + PrintMembers(v, members[1..], true)
    ensures CanonMembers(v, members) == [Member(members[0].key, Canon(members[0].value))] +
              if |members| == 1 then [] else CanonMembers(v, members[1..])
  {
    hide PrintMember, Canon;
    if |members| > 1 {
      Right(",", PrintMember(members[1..][0]), PrintMembers(v, members[1..][1..], false));
    }
  }

  lemma {:induction false} MembersParse(v: Json, members: seq<Member>, rest: string)
    requires members != [] && forall i :: 0 <= i < |members| ==> members[i].value < v && Valid(members[i].value)
    ensures ParseMembers(PrintMembers(v, members, true) + ("}" + rest)) == Got(CanonMembers(v, members), rest)
    decreases v, 0, |members|
  {
    hide *;
    MembersUnfold(v, members);
    var first, m := PrintMember(members[0]), Member(members[0].key, Canon(members[0].value));
    CloserEnds(rest);
    if |members| == 1 {
      MemberParses(members[0], "}" + rest);
      Right(first, "", "}" + rest);
      assert "" + ("}" + rest) == "}" + rest && [m] + [] == [m];
      MembersLast(first + ("}" + rest), m, rest);
    } else {
      var next := PrintMembers(v, members[1..], true);
      MembersParse(v, members[1..], rest);
      CloserEnds(next + ("}" + rest));
      MemberParses(members[0], "," + (next + ("}" + rest)));
      Right4(first, ",", next, "}" + rest);
      Right(first, ",", next);
      MembersMore(first + ("," + (next + ("}" + rest))), m, next + ("}" + rest), CanonMembers(v, members[1..]), rest);
    }
  }

  lemma {:induction false} SamePrintItems(v: Json, xs: seq<Json>, w: Json, ys: seq<Json>, first: bool)
    requires |xs| == |ys| && (forall i :: 0 <= i < |xs| ==> xs[i] < v) && (forall i :: 0 <= i < |ys| ==> ys[i] < w)
    requires forall i :: 0 <= i < |xs| ==> Print(xs[i]) == Print(ys[i])
    ensures PrintItems(v, xs, first) == PrintItems(w, ys, first)
    decreases |xs|
  {
    hide Print;
    if xs != [] {
      SamePrintItems(v, xs[1..], w, ys[1..], false);
    }
  }

  lemma {:induction false} SamePrintMembers(v: Json, ms: seq<Member>, w: Json, ns: seq<Member>, first: bool)
    requires |ms| == |ns|
    requires (forall i :: 0 <= i < |ms| ==> ms[i].value < v) && (forall i :: 0 <= i < |ns| ==> ns[i].value < w)
    requires forall i :: 0 <= i < |ms| ==> ms[i].key == ns[i].key && Print(ms[i].value) == Print(ns[i].value)
    ensures PrintMembers(v, ms, first) == PrintMembers(w, ns, first)
    decreases |ms|
  {
    hide Print;
    if ms != [] {
      SamePrintMembers(v, ms[1..], w, ns[1..], false);
    }
  }

  /** The order of object members leaves no trace in the canonical text. */
  lemma {:induction false} SameValuePrintsSame(v: Json, w: Json)
    requires SameValue(v, w)
    ensures Print(v) == Print(w)
    decreases v
  {
    hide SortMembers;
    match (v, w)
    case (Arr(xs), Arr(ys)) =>
      forall i | 0 <= i < |xs| ensures Print(xs[i]) == Print(ys[i]) {
        SameValuePrintsSame(xs[i], ys[i]);
      }
      SamePrintItems(v, xs, w, ys, true);
    case (Obj(ms), Obj(ns)) =>
      var a, b := SortMembers(ms), SortMembers(ns);
      SortedWithin(v, a);
      SortedWithin(w, b);
      SortedTogether(ms, ns);
      forall i | 0 <= i < |a| ensures Print(a[i].value) == Print(b[i].value) {
        assert a[i] in ms && b[i] in ns;
        SameValuePrintsSame(a[i].value, b[i].value);
      }
      SamePrintMembers(v, a, w, b, true);
    case _ =>
  }

  lemma SortedTogether(ms: seq<Member>, ns: seq<Member>)
    requires KeysOf(ms) == KeysOf(ns)
    ensures var a, b := SortMembers(ms), SortMembers(ns);
            |a| == |b| && forall i :: 0 <= i < |a| ==> a[i].key == b[i].key
  {}

  /** The converse, on the sorted forms. */
  lemma {:induction false} CanonIdentifies(v: Json, w: Json)
    requires Valid(v) && Valid(w) && Canon(v) == Canon(w)
    ensures SameValue(v, w)
    decreases v
  {
    match (v, w)
    case (Arr(xs), Arr(ys)) =>
      forall i | 0 <= i < |xs| ensures SameValue(xs[i], ys[i]) {
        assert Canon(v).items[i] == Canon(xs[i]) && Canon(w).items[i] == Canon(ys[i]);
        CanonIdentifies(xs[i], ys[i]);
      }
    case (Obj(ms), Obj(ns)) =>
      CanonKeys(v, w, ms, ns);
      forall i, j | 0 <= i < |ms| && 0 <= j < |ns| && ms[i].key == ns[j].key
        ensures SameValue(ms[i].value, ns[j].value)
      {
        CanonAt(v, ms, i);
        CanonAt(w, ns, j);
        CanonIdentifies(ms[i].value, ns[j].value);
      }
    case _ =>
  }

  /** The value that the sorted form of an object holds under a key. */
  ghost predicate HoldsAt(v: Json, key: string, value: Json) {
    v.Obj? && exists i :: 0 <= i < |v.members| && v.members[i] == Member(key, value)
  }

  lemma CanonMembersSorted(v: Json, ms: seq<Member>)
    requires v == Obj(ms)
    ensures Canon(v).Obj? && |Canon(v).members| == |Sorted(KeysOf(ms))|
    ensures forall i :: 0 <= i < |Canon(v).members| ==>
              Canon(v).members[i].key == Sorted(KeysOf(ms))[i] &&
              MemberAt(ms, Sorted(KeysOf(ms))[i]) in ms &&
              Canon(v).members[i].value == Canon(MemberAt(ms, Sorted(KeysOf(ms))[i]).value)
  {
    SortedWithin(v, SortMembers(ms));
  }

  lemma CanonKeys(v: Json, w: Json, ms: seq<Member>, ns: seq<Member>)
    requires v == Obj(ms) && w == Obj(ns) && Canon(v) == Canon(w)
    ensures KeysOf(ms) == KeysOf(ns)
  {
    CanonMembersSorted(v, ms);
    CanonMembersSorted(w, ns);
    assert Sorted(KeysOf(ms)) == Sorted(KeysOf(ns));
    hide *;
    assert forall k :: k in KeysOf(ms) <==> k in Sorted(KeysOf(ms));
    assert forall k :: k in KeysOf(ns) <==> k in Sorted(KeysOf(ns));
  }

  lemma CanonAt(v: Json, ms: seq<Member>, i: nat)
    requires v == Obj(ms) && Valid(v) && i < |ms|
    ensures HoldsAt(Canon(v), ms[i].key, Canon(ms[i].value))
    ensures forall x :: HoldsAt(Canon(v), ms[i].key, x) ==> x == Canon(ms[i].value)
  {
    CanonMembersSorted(v, ms);
    var keys := Sorted(KeysOf(ms));
    var key := ms[i].key;
    assert key in KeysOf(ms) && MemberAt(ms, key) == ms[i];
    var n :| 0 <= n < |keys| && keys[n] == key;
    assert Canon(v).members[n] == Member(key, Canon(ms[i].value));
    forall x | HoldsAt(Canon(v), key, x) ensures x == Canon(ms[i].value) {
      var j :| 0 <= j < |Canon(v).members| && Canon(v).members[j] == Member(key, x);
      assert keys[j] == key;
    }
  }

  lemma {:induction false} CanonIsSame(v: Json)
    requires Valid(v)
    ensures SameValue(v, Canon(v))
    decreases v
  {
    match v
    case Arr(items) =>
      forall i | 0 <= i < |items| ensures SameValue(items[i], Canon(v).items[i]) {
        CanonIsSame(items[i]);
      }
    case Obj(ms) =>
      CanonMembersSorted(v, ms);
      var ns := Canon(v).members;
      CanonKeepsKeys(v, ms);
      forall i, j | 0 <= i < |ms| && 0 <= j < |ns| && ms[i].key == ns[j].key
        ensures SameValue(ms[i].value, ns[j].value)
      {
        CanonAt(v, ms, i);
        assert HoldsAt(Canon(v), ms[i].key, ns[j].value);
        CanonIsSame(ms[i].value);
      }
      hide Canon, SortMembers, KeysOf;
    case _ =>
  }

  lemma CanonKeepsKeys(v: Json, ms: seq<Member>)
    requires v == Obj(ms)
    ensures Canon(v).Obj? && KeysOf(Canon(v).members) == KeysOf(ms)
  {
    CanonMembersSorted(v, ms);
    var ns := Canon(v).members;
    hide Canon, SortMembers, MemberAt;
    forall k ensures k in KeysOf(ns) <==> k in KeysOf(ms) {
      if k in KeysOf(ms) {
        var n :| 0 <= n < |ns| && Sorted(KeysOf(ms))[n] == k;
        assert ns[n] in ns;
      }
    }
  }

  /** Reading canonical text back gives the value, up to the order of object members. */
  lemma ParsePrint(v: Json)
    requires Valid(v)
    ensures Parse(Print(v)) == Got(Canon(v), "") && SameValue(v, Canon(v))
  {
    hide Print, Canon, Valid, ParseValue, SameValue;
    ValueParses(v, "");
    CanonIsSame(v);
    assert Print(v) + "" == Print(v);
  }

  /** Canonical text identifies the value, and so does its SHA-256. */
  lemma CanonicalTextIdentifies(v: Json, w: Json)
    requires Valid(v) && Valid(w)
    ensures Print(v) == Print(w) <==> SameValue(v, w)
    ensures CanonicalSha256(v) == CanonicalSha256(w) <==> SameValue(v, w)
  {
    hide Print, Canon, Valid, Parse, SameValue;
    if SameValue(v, w) {
      SameValuePrintsSame(v, w);
    }
    if Print(v) == Print(w) {
      ParsePrint(v);
      ParsePrint(w);
      CanonIdentifies(v, w);
    }
  }
}
