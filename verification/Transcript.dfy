/** The run transcript and the body that the provider parsers read from it (`LocalCliAdapter::run` and
    `transcript_parse_body` in `crates/ao2-adapters/src/lib.rs`). */
module Transcript {
  import opened Wrappers

  const STDOUT := "\nstdout:\n"
  const STDERR := "\nstderr:\n"

  predicate At(text: string, sep: string, i: nat) {
    i + |sep| <= |text| && text[i..i + |sep|] == sep
  }

  predicate Contains(text: string, sep: string) {
    exists i: nat :: i <= |text| && At(text, sep, i)
  }

  /** The first occurrence of `sep` from position `i` on. */
  function Find(text: string, sep: string, i: nat): (r: Option<nat>)
    ensures r.Some? ==> i <= r.value && At(text, sep, r.value)
    ensures r.Some? ==> forall j: nat :: i <= j < r.value ==> !At(text, sep, j)
    ensures r.None? ==> forall j: nat :: i <= j ==> !At(text, sep, j)
    decreases |text| - i
  {
    if i > |text| then None
    else if At(text, sep, i) then Some(i)
    else Find(text, sep, i + 1)
  }

  /** `split_once`. */
  function SplitOnce(text: string, sep: string): Option<(string, string)> {
    match Find(text, sep, 0)
    case None => None
    case Some(i) => Some((text[..i], text[i + |sep|..]))
  }

  function ParseBody(transcript: string): string {
    match SplitOnce(transcript, STDOUT)
    case None => transcript
    case Some((_, after)) =>
      match SplitOnce(after, STDERR)
      case None => after
      case Some((stdout, _)) => stdout
  }

  function Header(provider: string, role: string, command: string, exitCode: string, timeout: string, timedOut: bool)
    : string
  {
    "provider: " + provider + "\nrole_id: " + role + "\ncommand: " + command + "\nexit_code: " + exitCode
    + "\ntimeout_ms: " + timeout + "\ntimed_out: " + (if timedOut then "true" else "false")
  }

  function Format(header: string, stdout: string, stderr: string): string {
    header + (STDOUT + (stdout + (STDERR + stderr)))
  }

  /** The header ends with the letter of `true` or `false`. */
  ghost predicate EndsInE(header: string) {
    header != "" && header[|header| - 1] == 'e'
  }

  lemma HeaderEnds(provider: string, role: string, command: string, exitCode: string, timeout: string, timedOut: bool)
    ensures EndsInE(Header(provider, role, command, exitCode, timeout, timedOut))
  {
    var last := if timedOut then "true" else "false";
    var h := Header(provider, role, command, exitCode, timeout, timedOut);
    assert last[|last| - 1] == 'e';
    assert h[|h| - 1] == last[|last| - 1];
  }

  predicate Delimiter(sep: string) {
    sep == STDOUT || sep == STDERR
  }

  /** Neither delimiter has a letter e before a newline. */
  lemma DelimiterShape(sep: string, k: nat)
    requires Delimiter(sep)
    ensures |sep| == 9 && sep[0] == '\n' && sep[8] == '\n'
    ensures k < 8 && sep[k] == 'e' ==> sep[k + 1] != '\n'
    ensures 0 < k < 8 ==> sep[k] != '\n'
  {}

  lemma AtChar(text: string, sep: string, i: nat, k: nat)
    requires At(text, sep, i) && k < |sep|
    ensures text[i + k] == sep[k]
  {
    assert text[i..i + |sep|][k] == sep[k];
  }

  /** A delimiter cannot begin in a text that ends in e and go on in what follows a newline. */
  lemma NoStraddle(a: string, b: string, sep: string, i: nat)
    requires Delimiter(sep)
    requires EndsInE(a) && b != "" && b[0] == '\n'
    ensures At(a + b, sep, i) && i < |a| ==> i + 9 <= |a| && At(a, sep, i)
    ensures i >= |a| ==> (At(a + b, sep, i) <==> At(b, sep, i - |a|))
    ensures At(a, sep, i) ==> At(a + b, sep, i)
  {
    hide Delimiter;
    var t := a + b;
    DelimiterShape(sep, 0);
    if At(t, sep, i) && i < |a| {
      if i + 9 > |a| {
        var k := |a| - 1 - i;
        DelimiterShape(sep, k);
        AtChar(t, sep, i, k);
        AtChar(t, sep, i, k + 1);
      } else {
        assert a[i..i + 9] == t[i..i + 9];
      }
    }
    if i >= |a| && i + 9 <= |t| {
      assert t[i..i + 9] == b[i - |a|..i - |a| + 9];
    }
    if At(a, sep, i) {
      assert a[i..i + 9] == t[i..i + 9];
    }
  }

  /** A delimiter that begins in the output and reaches into the next delimiter shares just its newline. */
  lemma ErrOverlap(stdout: string, rest: string, i: nat)
    requires i < |stdout|
    ensures At(stdout + (STDERR + rest), STDERR, i) <==> At(stdout + "\n", STDERR, i)
  {
    var t := stdout + (STDERR + rest);
    var u := stdout + "\n";
    DelimiterShape(STDERR, 0);
    if i + 9 <= |u| {
      assert t[i..i + 9] == u[i..i + 9];
    } else if At(t, STDERR, i) {
      var k := |stdout| - i;
      DelimiterShape(STDERR, k);
      AtChar(t, STDERR, i, k);
    }
  }

  ghost predicate CleanOutput(stdout: string) {
    !Contains(stdout + "\n", STDERR)
  }

  /** What follows the first output delimiter, if the error delimiter comes after the output. */
  lemma BodyAfter(stdout: string, stderr: string)
    ensures var after := stdout + (STDERR + stderr);
            var r := SplitOnce(after, STDERR);
            r.Some? && (r.value.0 == stdout <==> CleanOutput(stdout))
  {
    var after := stdout + (STDERR + stderr);
    DelimiterShape(STDERR, 0);
    assert after[|stdout|..|stdout| + 9] == STDERR;
    assert At(after, STDERR, |stdout|);
    var i := Find(after, STDERR, 0).value;
    if i < |stdout| {
      ErrOverlap(stdout, stderr, i);
      assert |after[..i]| < |stdout|;
    } else {
      assert after[..|stdout|] == stdout;
      forall j: nat | j <= |stdout + "\n"| ensures !At(stdout + "\n", STDERR, j) {
        if j < |stdout| { ErrOverlap(stdout, stderr, j); }
      }
    }
  }

  /** With a header that does not contain the output delimiter, the parse body is the output exactly when the
      output, with a newline after it, does not contain the error delimiter. */
  lemma BodyIsStdout(header: string, stdout: string, stderr: string)
    requires EndsInE(header) && !Contains(header, STDOUT)
    ensures ParseBody(Format(header, stdout, stderr)) == stdout <==> CleanOutput(stdout)
  {
    var after := stdout + (STDERR + stderr);
    var rest := STDOUT + after;
    var t := header + rest;
    DelimiterShape(STDOUT, 0);
    assert rest[0..9] == STDOUT;
    NoStraddle(header, rest, STDOUT, |header|);
    forall i: nat | i < |header| ensures !At(t, STDOUT, i) {
      NoStraddle(header, rest, STDOUT, i);
    }
    assert Find(t, STDOUT, 0) == Some(|header|);
    assert t[|header| + 9..] == after;
    BodyAfter(stdout, stderr);
  }

  lemma {:induction false} FirstFound(a: string, b: string, sep: string)
    requires Delimiter(sep)
    requires EndsInE(a) && b != "" && b[0] == '\n' && Contains(a, sep)
    ensures Find(a, sep, 0).Some? && Find(a + b, sep, 0) == Find(a, sep, 0)
    ensures Find(a, sep, 0).value + 9 < |a|
  {
    hide Delimiter;
    DelimiterShape(sep, 0);
    FoundWithin(a, sep);
    hide *;
    var i := Find(a, sep, 0).value;
    AtChar(a, sep, i, 8);
    LastIsE(a);
    NoStraddle(a, b, sep, i);
    forall j: nat | j < i ensures !At(a + b, sep, j) {
      NoStraddle(a, b, sep, j);
    }
    FindIs(a + b, sep, i);
  }

  lemma LastIsE(a: string)
    requires EndsInE(a)
    ensures a != "" && a[|a| - 1] == 'e'
  {}

  lemma FoundWithin(a: string, sep: string)
    requires Contains(a, sep)
    ensures Find(a, sep, 0).Some? && Find(a, sep, 0).value + |sep| <= |a|
  {
    hide Find;
  }

  lemma FindIs(text: string, sep: string, i: nat)
    requires At(text, sep, i) && forall j: nat :: j < i ==> !At(text, sep, j)
    ensures Find(text, sep, 0) == Some(i)
  {
    hide At, Find;
  }

  /** The first delimiter of a text that has one is not moved by what follows a final e and a newline. */
  lemma FirstStays(a: string, b: string, sep: string)
    requires Delimiter(sep)
    requires EndsInE(a) && b != "" && b[0] == '\n' && Contains(a, sep)
    ensures var r, s := SplitOnce(a + b, sep), SplitOnce(a, sep);
            && r.Some? && s.Some? && r.value.0 == s.value.0 && r.value.1 == s.value.1 + b && EndsInE(s.value.1)
  {
    hide Delimiter, At, Find, Contains;
    DelimiterShape(sep, 0);
    FirstFound(a, b, sep);
    var i := Find(a, sep, 0).value;
    assert (a + b)[..i] == a[..i] && (a + b)[i + |sep|..] == a[i + |sep|..] + b;
  }

  /** What comes out for a header that does contain the output delimiter -- a role or command with these lines in
      it: `tail` is the rest of the header after that delimiter. */
  ghost predicate DirtyMatch(tail: string, stdout: string) {
    if Contains(tail, STDERR) then SplitOnce(tail, STDERR).Some? && stdout == SplitOnce(tail, STDERR).value.0
    else "stderr:\n" <= tail && stdout == tail + "\nstdout:"
  }

  /** The parse body is the output exactly when the header does not contain the output delimiter and the output,
      with a newline after it, does not contain the error delimiter -- but for two coincidences of a header that
      does contain it: the output repeats the header's own text between two delimiters, or what follows the
      header's delimiter begins with the error label, and the output repeats it up to the real output label. */
  lemma BodyIsStdoutExactly(header: string, stdout: string, stderr: string)
    requires EndsInE(header)
    ensures Contains(header, STDOUT) ==> SplitOnce(header, STDOUT).Some?
    ensures ParseBody(Format(header, stdout, stderr)) == stdout <==>
            if Contains(header, STDOUT) then DirtyMatch(SplitOnce(header, STDOUT).value.1, stdout)
            else CleanOutput(stdout)
  {
    if Contains(header, STDOUT) {
      DirtyHeader(header, stdout, stderr);
    } else {
      BodyIsStdout(header, stdout, stderr);
    }
  }

  lemma DirtyHeader(header: string, stdout: string, stderr: string)
    requires EndsInE(header) && Contains(header, STDOUT)
    ensures SplitOnce(header, STDOUT).Some?
    ensures ParseBody(Format(header, stdout, stderr)) == stdout <==>
            DirtyMatch(SplitOnce(header, STDOUT).value.1, stdout)
  {
    var rest := STDOUT + (stdout + (STDERR + stderr));
    DelimiterShape(STDOUT, 0);
    FirstStays(header, rest, STDOUT);
    var tail := SplitOnce(header, STDOUT).value.1;
    if Contains(tail, STDERR) {
      FirstStays(tail, rest, STDERR);
    } else {
      DirtyTail(tail, stdout, stderr);
    }
    hide At, Find, SplitOnce, Contains, DirtyMatch;
  }

  /** The first error delimiter after a tail without one. */
  lemma DirtyTail(tail: string, stdout: string, stderr: string)
    requires EndsInE(tail) && !Contains(tail, STDERR)
    ensures var r := SplitOnce(tail + (STDOUT + (stdout + (STDERR + stderr))), STDERR);
            r.Some? && (r.value.0 == stdout <==> "stderr:\n" <= tail && stdout == tail + "\nstdout:")
  {
    var after := tail + (STDOUT + (stdout + (STDERR + stderr)));
    var n := |tail|;
    DelimiterShape(STDERR, 0);
    assert after[n + 9 + |stdout|..][..9] == STDERR;
    assert At(after, STDERR, n + 9 + |stdout|);
    var i := Find(after, STDERR, 0).value;
    NotInTail(tail, stdout, stderr, i);
    LabelAt(tail, stdout, stderr);
    assert "stderr:\n" <= tail && stdout == tail + "\nstdout:" ==> "stderr:\n" <= stdout + (STDERR + stderr);
    hide Find;
    if i == n + 8 {
      assert after[..i] == tail + "\nstdout:";
      if stdout == tail + "\nstdout:" { LabelFits(tail, stdout, stderr); }
    } else {
      if after[..i] == stdout { EarlierToo(after, stdout, tail, stderr, i); }
    }
  }

  /** Before the output no error delimiter begins, but perhaps at the last newline of the output's own. */
  lemma NotInTail(tail: string, stdout: string, stderr: string, i: nat)
    requires EndsInE(tail) && !Contains(tail, STDERR)
    requires At(tail + (STDOUT + (stdout + (STDERR + stderr))), STDERR, i)
    ensures i == |tail| + 8 || i >= |tail| + 9
  {
    var rest := STDOUT + (stdout + (STDERR + stderr));
    DelimiterShape(STDERR, 0);
    DelimiterShape(STDOUT, 0);
    NoStraddle(tail, rest, STDERR, i);
    if i >= |tail| {
      NoErrorInLabel(stdout + (STDERR + stderr), i - |tail|);
    }
  }

  lemma NoErrorInLabel(follows: string, k: nat)
    requires At(STDOUT + follows, STDERR, k)
    ensures k >= 8
  {
    var rest := STDOUT + follows;
    AtChar(rest, STDERR, k, 0);
    AtChar(rest, STDERR, k, 4);
    assert forall c :: 0 <= c < 9 ==> rest[c] == STDOUT[c];
    assert forall c :: 0 < c < 8 ==> STDOUT[c] != '\n';
    assert STDOUT[4] == 'o' && STDERR[4] == 'e';
  }

  lemma LabelAt(tail: string, stdout: string, stderr: string)
    ensures At(tail + (STDOUT + (stdout + (STDERR + stderr))), STDERR, |tail| + 8) <==>
            "stderr:\n" <= stdout + (STDERR + stderr)
  {
    var follows := stdout + (STDERR + stderr);
    var after := tail + (STDOUT + follows);
    var i := |tail| + 8;
    assert STDERR == "\n" + "stderr:\n";
    assert after[i] == '\n' && after[i + 1..] == follows && |follows| >= 9;
    assert after[i..i + 9] == "\n" + follows[..8];
    assert follows[..8] == "stderr:\n" <==> after[i..i + 9] == STDERR by {
      assert after[i..i + 9][1..] == follows[..8] && STDERR[1..] == "stderr:\n";
    }
  }

  /** A label at the start of what repeats the tail is a label at the start of the tail. */
  lemma LabelFits(tail: string, stdout: string, stderr: string)
    requires EndsInE(tail) && stdout == tail + "\nstdout:" && "stderr:\n" <= stdout + (STDERR + stderr)
    ensures "stderr:\n" <= tail
  {
    var follows := stdout + (STDERR + stderr);
    assert follows[|tail|] == '\n' && follows[|tail| - 1] == 'e';
    LongTail(follows, |tail|);
  }

  lemma LongTail(follows: string, n: nat)
    requires "stderr:\n" <= follows && 0 < n < |follows| && follows[n] == '\n' && follows[n - 1] == 'e'
    ensures n >= 8
  {
    var mark := "stderr:\n";
    assert forall k :: 0 <= k < 8 ==> mark[k] == follows[k];
    assert forall k :: 0 <= k < 7 ==> mark[k] != '\n';
    assert mark[6] == ':';
  }

  /** Were the body the output, which it contains, the delimiter after it would have an earlier occurrence. */
  lemma EarlierToo(after: string, stdout: string, tail: string, stderr: string, i: nat)
    requires after == tail + (STDOUT + (stdout + (STDERR + stderr))) && EndsInE(tail)
    requires At(after, STDERR, i) && i >= |tail| + 9 && after[..i] == stdout
    ensures At(after, STDERR, i - (|tail| + 9))
  {
    var p := |tail| + 9;
    var follows := stdout + (STDERR + stderr);
    assert after[p..] == follows;
    assert after[i..i + 9] == follows[i - p..i - p + 9];
    assert At(follows, STDERR, i - p);
    assert follows[i - p..i - p + 9] == stdout[i - p..i - p + 9] == after[i - p..i - p + 9];
    assert At(after, STDERR, i - p);
  }

  /** No delimiter begins in `a`, where one stands behind it. */
  ghost predicate First(a: string, sep: string, b: string) {
    forall i: nat :: i < |a| ==> !At(a + (sep + b), sep, i)
  }

  lemma FirstSplits(a: string, sep: string, b: string)
    requires First(a, sep, b)
    ensures SplitOnce(a + (sep + b), sep) == Some((a, b))
  {
    var t := a + (sep + b);
    assert t[|a|..|a| + |sep|] == sep && t[..|a|] == a && t[|a| + |sep|..] == b;
    FindIs(t, sep, |a|);
    hide Find;
  }

  /** A text without output delimiter is its own body. Behind the first one everything counts, up to the first error
      delimiter or, where there is none, to the end. */
  lemma BodyTells(header: string, body: string, rest: string)
    ensures !Contains(header, "\nstdout:\n") ==> ParseBody(header) == header
    ensures First(header, "\nstdout:\n", body) && !Contains(body, "\nstderr:\n") ==>
              ParseBody(header + ("\nstdout:\n" + body)) == body
    ensures First(header, "\nstdout:\n", body + ("\nstderr:\n" + rest)) && First(body, "\nstderr:\n", rest) ==>
              ParseBody(header + ("\nstdout:\n" + (body + ("\nstderr:\n" + rest)))) == body
  {
    var long := body + (STDERR + rest);
    if First(header, STDOUT, body) { FirstSplits(header, STDOUT, body); }
    if First(header, STDOUT, long) { FirstSplits(header, STDOUT, long); }
    if First(body, STDERR, rest) { FirstSplits(body, STDERR, rest); }
    if !Contains(body, STDERR) { NoSplit(body, STDERR); }
    if !Contains(header, STDOUT) { NoSplit(header, STDOUT); }
    hide SplitOnce, First, Contains;
  }

  lemma NoSplit(text: string, sep: string)
    requires !Contains(text, sep)
    ensures SplitOnce(text, sep) == None
  {}
}
