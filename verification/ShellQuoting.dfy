/** `shell_quote` and a reader for words by the quoting rules of the POSIX Shell Command Language, section 2.2. */
module ShellQuoting {
  import opened Wrappers

  predicate Safe(c: char) {
    'a' <= c <= 'z' || 'A' <= c <= 'Z' || '0' <= c <= '9' || c in "-_./:="
  }

  predicate AllSafe(word: string) {
    forall i :: 0 <= i < |word| ==> Safe(word[i])
  }

  /** `replace('\'', "'\\''")`. */
  function EscapeQuotes(word: string): string {
    if word == "" then ""
    else (if word[0] == '\'' then "'\\''" else [word[0]]) + EscapeQuotes(word[1..])
  }

  function ShellQuote(word: string): string {
    if AllSafe(word) then word else "'" + EscapeQuotes(word) + "'"
  }

  function JoinQuoted(words: seq<string>): string {
    if words == [] then ""
    else if |words| == 1 then ShellQuote(words[0])
    else ShellQuote(words[0]) + " " + JoinQuoted(words[1..])
  }

  predicate Blank(c: char) {
    c == ' ' || c == '\t' || c == '\n'
  }

  /** Characters with a meaning of their own when they are not quoted. */
  predicate Special(c: char) {
    c in "|&;<>()$`\\\"'*?[#~%" || Blank(c)
  }

  /** Position of the first single quote. */
  function NextQuote(s: string): (r: Option<nat>)
    ensures r.Some? ==> r.value < |s| && s[r.value] == '\''
  {
    if s == "" then None
    else if s[0] == '\'' then Some(0)
    else match NextQuote(s[1..]) case None => None case Some(n) => Some(n + 1)
  }

  /** The text between double quotes and what follows them; expansions are not modelled. */
  function DoubleQuoted(s: string): (r: Option<(string, string)>)
    ensures r.Some? ==> |r.value.1| < |s|
    decreases |s|
  {
    if s == "" || s[0] == '$' || s[0] == '`' then None
    else if s[0] == '\"' then Some(("", s[1..]))
    else if s[0] == '\\' && |s| > 1 && s[1] in "$`\"\\\n" then
      match DoubleQuoted(s[2..])
      case None => None
      case Some((text, rest)) => Some(((if s[1] == '\n' then "" else [s[1]]) + text, rest))
    else
      match DoubleQuoted(s[1..])
      case None => None
      case Some((text, rest)) => Some(([s[0]] + text, rest))
  }

  function Text(word: Option<string>): string {
    if word.Some? then word.value else ""
  }

  function Finished(word: Option<string>, rest: Option<seq<string>>): Option<seq<string>> {
    if word.Some? && rest.Some? then Some([word.value] + rest.value) else rest
  }

  /** The words of a command line; `word` is the one being read. An unquoted special character or an open
      quote makes the line unreadable here. */
  function Words(s: string, word: Option<string>): Option<seq<string>>
    decreases |s|
  {
    if s == "" then Finished(word, Some([]))
    else if Blank(s[0]) then Finished(word, Words(s[1..], None))
    else if s[0] == '\'' then
      match NextQuote(s[1..])
      case None => None
      case Some(n) => Words(s[n + 2..], Some(Text(word) + s[1..n + 1]))
    else if s[0] == '\\' then
      if |s| < 2 then None
      else if s[1] == '\n' then Words(s[2..], word)
      else Words(s[2..], Some(Text(word) + [s[1]]))
    else if s[0] == '\"' then
      match DoubleQuoted(s[1..])
      case None => None
      case Some((text, rest)) => Words(rest, Some(Text(word) + text))
    else if Special(s[0]) then None
    else Words(s[1..], Some(Text(word) + [s[0]]))
  }

  lemma {:induction false} SafeWordReads(w: string, rest: string, word: Option<string>)
    requires AllSafe(w) && w != ""
    ensures Words(w + rest, word) == Words(rest, Some(Text(word) + w))
    decreases |w|
  {
    SafeTail(w);
    hide *;
    HeadApart(Text(word), w, rest);
    PlainStep(w[0], w[1..] + rest, word);
    if |w| > 1 {
      SafeWordReads(w[1..], rest, Some(Text(word) + [w[0]]));
      TextOfSome(Text(word) + [w[0]]);
    }
  }

  lemma HeadApart(text: string, w: string, rest: string)
    requires w != ""
    ensures w + rest == [w[0]] + (w[1..] + rest) && text + [w[0]] + w[1..] == text + w
    ensures |w| == 1 ==> w[1..] + rest == rest && text + [w[0]] == text + w
  {}

  lemma SafeTail(w: string)
    requires AllSafe(w) && w != ""
    ensures Safe(w[0]) && AllSafe(w[1..])
  {}

  lemma PlainStep(c: char, rest: string, word: Option<string>)
    requires Safe(c)
    ensures Words([c] + rest, word) == Words(rest, Some(Text(word) + [c]))
  {
    SafeIsPlain(c);
    assert ([c] + rest)[1..] == rest;
    hide Safe, Special, Blank, NextQuote, DoubleQuoted;
  }

  lemma SafeIsPlain(c: char)
    requires Safe(c)
    ensures !Special(c) && !Blank(c) && c != '\'' && c != '\\' && c != '\"'
  {}

  lemma {:induction false} NoQuoteBefore(a: string, rest: string)
    requires '\'' !in a
    ensures NextQuote(a + "'" + rest) == Some(|a|)
  {
    if a == "" {
      assert a + "'" + rest == "'" + rest;
    } else {
      assert a + "'" + rest == [a[0]] + (a[1..] + "'" + rest);
      assert ([a[0]] + (a[1..] + "'" + rest))[1..] == a[1..] + "'" + rest;
      NoQuoteBefore(a[1..], rest);
    }
  }

  /** One single-quoted piece. */
  lemma PieceReads(a: string, rest: string, word: Option<string>)
    requires '\'' !in a
    ensures Words("'" + (a + "'" + rest), word) == Words(rest, Some(Text(word) + a))
  {
    NoQuoteBefore(a, rest);
    var s := "'" + (a + "'" + rest);
    assert s[1..] == a + "'" + rest;
    assert s[|a| + 2..] == rest && s[1..|a| + 1] == a;
    hide NextQuote, DoubleQuoted;
  }

  lemma BackslashQuoteReads(rest: string, word: Option<string>)
    ensures Words("\\'" + rest, word) == Words(rest, Some(Text(word) + "'"))
  {
    assert ("\\'" + rest)[2..] == rest;
    hide NextQuote, DoubleQuoted;
  }

  lemma {:induction false} NoEscapeNeeded(a: string, b: string)
    requires '\'' !in a
    ensures EscapeQuotes(a + b) == a + EscapeQuotes(b)
  {
    if a == "" {
      assert a + b == b;
    } else {
      assert (a + b)[1..] == a[1..] + b && (a + b)[0] == a[0];
      NoEscapeNeeded(a[1..], b);
      assert a == [a[0]] + a[1..];
    }
  }

  lemma {:induction false} QuotedReads(w: string, rest: string, word: Option<string>)
    ensures Words("'" + EscapeQuotes(w) + "'" + rest, word) == Words(rest, Some(Text(word) + w))
    decreases |w|
  {
    hide *;
    var q := NextQuote(w);
    if q.None? {
      UnquotedEscapes(w);
      assert "'" + w + "'" + rest == "'" + (w + "'" + rest);
      PieceReads(w, rest, word);
    } else {
      var a, b := w[..q.value], w[q.value + 1..];
      SplitEscapes(w, a, b);
      QuotedReads(b, rest, Some(Text(word) + a + "'"));
      var last := "'" + EscapeQuotes(b) + "'" + rest;
      Regrouped(a, EscapeQuotes(b), rest);
      PieceReads(a, "\\'" + last, word);
      BackslashQuoteReads(last, Some(Text(word) + a));
      TextOfSome(Text(word) + a);
      TextOfSome(Text(word) + a + "'");
      assert Text(word) + a + "'" + b == Text(word) + (a + "'" + b);
    }
  }

  lemma Regrouped(a: string, b: string, rest: string)
    ensures "'" + (a + "'\\''" + b) + "'" + rest == "'" + (a + "'" + ("\\'" + ("'" + b + "'" + rest)))
  {}

  lemma UnquotedEscapes(w: string)
    requires NextQuote(w).None?
    ensures '\'' !in w && EscapeQuotes(w) == w
  {
    NoQuoteAtAll(w);
    NoEscapeNeeded(w, "");
    assert w + "" == w && EscapeQuotes("") == "";
  }

  lemma SplitEscapes(w: string, a: string, b: string)
    requires NextQuote(w).Some? && a == w[..NextQuote(w).value] && b == w[NextQuote(w).value + 1..]
    ensures '\'' !in a && w == a + "'" + b && EscapeQuotes(w) == a + "'\\''" + EscapeQuotes(b)
  {
    FirstQuoteClean(w);
    assert w == a + ("'" + b);
    NoEscapeNeeded(a, "'" + b);
    assert ("'" + b)[1..] == b && EscapeQuotes("'" + b) == "'\\''" + EscapeQuotes(b);
  }

  lemma TextOfSome(w: string)
    ensures Text(Some(w)) == w
  {}

  lemma {:induction false} NoQuoteAtAll(w: string)
    requires NextQuote(w).None?
    ensures '\'' !in w
  {
    if w != "" {
      NoQuoteAtAll(w[1..]);
      assert w == [w[0]] + w[1..];
    }
  }

  lemma {:induction false} FirstQuoteClean(w: string)
    requires NextQuote(w).Some?
    ensures '\'' !in w[..NextQuote(w).value]
  {
    var n := NextQuote(w).value;
    if n > 0 {
      FirstQuoteClean(w[1..]);
      assert w[..n] == [w[0]] + w[1..][..n - 1];
    }
  }

  function NonEmptyWords(words: seq<string>): seq<string> {
    if words == [] then []
    else if words[0] == "" then NonEmptyWords(words[1..])
    else [words[0]] + NonEmptyWords(words[1..])
  }

  lemma QuotedWordReads(w: string, rest: string)
    requires w != ""
    ensures Words(ShellQuote(w) + rest, None) == Words(rest, Some(w))
  {
    if AllSafe(w) {
      SafeWordReads(w, rest, None);
    } else {
      QuotedReads(w, rest, None);
      assert "'" + EscapeQuotes(w) + "'" + rest == ShellQuote(w) + rest;
    }
    assert "" + w == w;
  }

  lemma {:induction false} JoinedReads(words: seq<string>)
    ensures Words(JoinQuoted(words), None) == Some(NonEmptyWords(words))
  {
    hide Safe, Special;
    if words == [] {
    } else if |words| == 1 {
      LastWordReads(words[0]);
      assert words[1..] == [] && [words[0]] + [] == [words[0]];
    } else {
      JoinedReads(words[1..]);
      WordThenRest(words[0], JoinQuoted(words[1..]));
    }
  }

  lemma LastWordReads(w: string)
    ensures Words(ShellQuote(w), None) == Some(if w == "" then [] else [w])
  {
    if w != "" {
      QuotedWordReads(w, "");
      assert ShellQuote(w) + "" == ShellQuote(w);
      assert Words("", Some(w)) == Some([w] + []) && [w] + [] == [w];
    } else {
      assert ShellQuote(w) == "" && Words("", None) == Some([]);
    }
  }

  lemma WordThenRest(w: string, rest: string)
    ensures Words(ShellQuote(w) + " " + rest, None) == Finished(if w == "" then None else Some(w), Words(rest, None))
  {
    BlankStep(rest, None);
    if w == "" {
      assert ShellQuote(w) == "" && "" + " " + rest == " " + rest;
    } else {
      BlankStep(rest, Some(w));
      hide *;
      QuotedWordReads(w, " " + rest);
      assert ShellQuote(w) + " " + rest == ShellQuote(w) + (" " + rest);
    }
  }

  lemma BlankStep(rest: string, word: Option<string>)
    ensures Words(" " + rest, word) == Finished(word, Words(rest, None))
  {
    assert (" " + rest)[1..] == rest;
    hide NextQuote, DoubleQuoted;
  }

  /** Quoted words joined by blanks read back as the same list exactly when no word is empty: an empty word is
      quoted as nothing at all. */
  lemma {:induction false} QuotedListReadsBack(words: seq<string>)
    ensures Words(JoinQuoted(words), None) == Some(words) <==> forall i :: 0 <= i < |words| ==> words[i] != ""
  {
    JoinedReads(words);
    NonEmptyIsAll(words);
  }

  lemma {:induction false} NonEmptyIsAll(words: seq<string>)
    ensures |NonEmptyWords(words)| <= |words|
    ensures NonEmptyWords(words) == words <==> forall i :: 0 <= i < |words| ==> words[i] != ""
  {
    if words != [] {
      NonEmptyIsAll(words[1..]);
      assert words == [words[0]] + words[1..];
    }
  }

  /** A word of letters, digits and the six marks is left alone; any other word is put in single quotes. */
  lemma QuoteTells(word: string)
    ensures (forall i :: 0 <= i < |word| ==> Plain(word[i])) ==> ShellQuote(word) == word
    ensures !(forall i :: 0 <= i < |word| ==> Plain(word[i])) ==>
              |ShellQuote(word)| >= 2 && ShellQuote(word)[0] == '\'' == ShellQuote(word)[|ShellQuote(word)| - 1]
  {
    assert forall c :: Plain(c) <==> Safe(c);
  }

  predicate Plain(c: char) {
    || 'a' <= c <= 'z' || 'A' <= c <= 'Z' || '0' <= c <= '9'
    || c == '-' || c == '_' || c == '.' || c == '/' || c == ':' || c == '='
  }
}
