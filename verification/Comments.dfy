// RemoveMultiLineComments and its helpers.
module Comments {
  import opened Text

  // What str.strip() removes from a Python 2 unicode string.
  predicate IsBlank(c: char) {
    || '\U{09}' <= c <= '\U{0D}' || '\U{1C}' <= c <= ' ' || c == '\U{85}' || c == '\U{A0}'
    || c == '\U{1680}' || c == '\U{180E}' || '\U{2000}' <= c <= '\U{200A}' || c == '\U{2028}' || c == '\U{2029}'
    || c == '\U{202F}' || c == '\U{205F}' || c == '\U{3000}'
  }

  function StripLeft(s: string): string {
    if s != [] && IsBlank(s[0]) then StripLeft(s[1..]) else s
  }

  function Strip(s: string): string
    decreases |s|
  {
    if s != [] && IsBlank(s[|s| - 1]) then Strip(s[..|s| - 1]) else StripLeft(s)
  }

  // The line opens a comment that does not close on it.
  predicate IsStart(line: string) {
    var s := Strip(line);
    |s| >= 2 && s[0] == '/' && s[1] == '*' && forall i :: 2 <= i < |s| - 1 ==> !(s[i] == '*' && s[i + 1] == '/')
  }

  predicate IsEnd(line: string) {
    var s := Strip(line);
    |s| >= 2 && s[|s| - 2] == '*' && s[|s| - 1] == '/'
  }

  // The same characters one by one, for what is said about the code.
  const BLANKS := "\t\n\U{0B}\U{0C}\r\U{1C}\U{1D}\U{1E}\U{1F} \U{85}\U{A0}\U{1680}\U{180E}\U{2000}\U{2001}" +
    "\U{2002}\U{2003}\U{2004}\U{2005}\U{2006}\U{2007}\U{2008}\U{2009}\U{200A}\U{2028}\U{2029}\U{202F}" +
    "\U{205F}\U{3000}"

  predicate Blank(s: string) { forall c <- s :: c in BLANKS }

  lemma BlankMeaning(c: char)
    ensures IsBlank(c) <==> c in BLANKS
  {
  }

  lemma BlankText(s: string)
    ensures Blank(s) <==> forall c <- s :: IsBlank(c)
  {
    forall c <- s ensures IsBlank(c) <==> c in BLANKS { BlankMeaning(c); }
  }

  predicate AllBlank(s: string, i: nat, j: nat)
    requires j <= |s|
  {
    forall k :: i <= k < j ==> IsBlank(s[k])
  }

  lemma {:induction false} StripLeftSpan(s: string) returns (i: nat)
    ensures i <= |s| && StripLeft(s) == s[i..] && AllBlank(s, 0, i) && (i < |s| ==> !IsBlank(s[i]))
  {
    i := 0;
    if s != [] && IsBlank(s[0]) {
      var n := StripLeftSpan(s[1..]);
      i := n + 1;
      assert forall k :: 1 <= k < i ==> s[k] == s[1..][k - 1];
    }
  }

  lemma SpanOfShorter(line: string, i: nat, j: nat)
    requires line != [] && IsBlank(line[|line| - 1]) && i <= j < |line| && AllBlank(line[..|line| - 1], j, |line| - 1)
    ensures line[..|line| - 1][i..j] == line[i..j] && AllBlank(line, j, |line|)
  {
    assert forall k :: j <= k < |line| - 1 ==> line[k] == line[..|line| - 1][k];
  }

  // strip leaves what stands between the first and the last character that is no blank.
  lemma {:induction false} StripSpan(line: string) returns (i: nat, j: nat)
    ensures i <= j <= |line| && Strip(line) == line[i..j] && AllBlank(line, 0, i) && AllBlank(line, j, |line|)
    ensures i < j ==> !IsBlank(line[i]) && !IsBlank(line[j - 1])
    decreases |line|
  {
    j := |line|;
    if line != [] && IsBlank(line[j - 1]) {
      var shorter := line[..j - 1];
      i, j := StripSpan(shorter);
      SpanOfShorter(line, i, j);
    } else {
      i := StripLeftSpan(line);
    }
  }

  predicate Occurs(w: string, s: string, i: nat) { i + |w| <= |s| && s[i..i + |w|] == w }

  // line reads a / * rest, with blank a and no end of a comment in rest.
  ghost predicate StartsComment(line: string, a: string, rest: string) {
    line == a + "/*" + rest && Blank(a) && forall i :: !Occurs("*/", rest, i)
  }

  // line reads a * / b, with blank b.
  ghost predicate EndsComment(line: string, a: string, b: string) { line == a + "*/" + b && Blank(b) }

  lemma EndAt(rest: string, i: nat)
    ensures Occurs("*/", rest, i) <==> i + 1 < |rest| && rest[i] == '*' && rest[i + 1] == '/'
  {
    if i + 1 < |rest| { assert rest[i..i + 2] == [rest[i], rest[i + 1]]; }
  }

  lemma StartIsRead(line: string)
    requires IsStart(line)
    ensures exists a, rest :: StartsComment(line, a, rest)
  {
    var i, j := StripSpan(line);
    var a, rest := line[..i], line[i + 2..];
    assert line[i] == '/' && line[i + 1] == '*' && line == a + "/*" + rest;
    BlankText(a);
    forall k ensures !Occurs("*/", rest, k) {
      EndAt(rest, k);
      if i + k + 3 < j { assert Strip(line)[k + 2] == line[i + k + 2] && Strip(line)[k + 3] == line[i + k + 3]; }
    }
    assert StartsComment(line, a, rest);
  }

  lemma ReadIsStart(line: string, a: string, rest: string)
    requires StartsComment(line, a, rest)
    ensures IsStart(line)
  {
    var i, j := StripSpan(line);
    var n, s := |a|, Strip(line);
    BlankText(a);
    assert line[n] == '/' && line[n + 1] == '*' && forall k :: 0 <= k < n ==> line[k] == a[k];
    assert i == n && n + 1 < j;
    forall k | 2 <= k < |s| - 1 ensures !(s[k] == '*' && s[k + 1] == '/') {
      EndAt(rest, k - 2);
      assert s[k] == line[n + k] == rest[k - 2] && s[k + 1] == line[n + k + 1] == rest[k - 1];
    }
  }

  // What the tests of the program mean, read as strip, startswith, find and endswith.
  lemma StartMeaning(line: string)
    ensures IsStart(line) <==> exists a, rest :: StartsComment(line, a, rest)
  {
    if IsStart(line) { StartIsRead(line); }
    if a, rest :| StartsComment(line, a, rest) { ReadIsStart(line, a, rest); }
  }

  lemma EndIsRead(line: string)
    requires IsEnd(line)
    ensures exists a, b :: EndsComment(line, a, b)
  {
    var i, j := StripSpan(line);
    var a, b := line[..j - 2], line[j..];
    assert line[j - 2] == '*' && line[j - 1] == '/' && line == a + "*/" + b;
    BlankText(b);
    assert EndsComment(line, a, b);
  }

  lemma ReadIsEnd(line: string, a: string, b: string)
    requires EndsComment(line, a, b)
    ensures IsEnd(line)
  {
    var i, j := StripSpan(line);
    var n := |a|;
    BlankText(b);
    assert line[n] == '*' && line[n + 1] == '/' && forall k :: n + 2 <= k < |line| ==> line[k] == b[k - n - 2];
    assert j == n + 2 && i <= n;
  }

  lemma EndMeaning(line: string)
    ensures IsEnd(line) <==> exists a, b :: EndsComment(line, a, b)
  {
    if IsEnd(line) { EndIsRead(line); }
    if a, b :| EndsComment(line, a, b) { ReadIsEnd(line, a, b); }
  }

  // The two tests on a line and the line put in place of a comment, kept apart from the scan.
  datatype Marks<!L> = Marks(start: L -> bool, end: L -> bool, dummy: L)

  function CMarks(): Marks<string> { Marks(s => IsStart(s), s => IsEnd(s), "/**/") }

  lemma DummyIsNoStart()
    ensures !CMarks().start(CMarks().dummy)
  {
    var d := "/**/";
    assert StripLeft(d) == d && Strip(d) == d;
    assert d[2] == '*' && d[2 + 1] == '/';
  }

  ghost predicate HasEnd<L>(m: Marks<L>, lines: seq<L>) {
    exists k :: 0 <= k < |lines| && m.end(lines[k])
  }

  function Dummies<L>(m: Marks<L>, n: nat): seq<L> { seq(n, _ => m.dummy) }

  // What removal makes of the lines, read one by one; inside says that a comment is open. A
  // comment that is never ended, and everything after it, is kept.
  ghost function Removed<L>(m: Marks<L>, lines: seq<L>, inside: bool): (r: seq<L>)
    ensures |r| == |lines|
  {
    if lines == [] then []
    else if inside || m.start(lines[0]) then
      if inside || HasEnd(m, lines) then [m.dummy] + Removed(m, lines[1..], !m.end(lines[0])) else lines
    else [lines[0]] + Removed(m, lines[1..], false)
  }

  function Shift(n: nat, r: Option<nat>): Option<nat> {
    match r case None => None case Some(b) => Some(n + b)
  }

  // The first line of the comment that is never ended.
  ghost function Unterminated<L>(m: Marks<L>, lines: seq<L>, inside: bool): Option<nat> {
    if lines == [] then None
    else if inside || m.start(lines[0]) then
      if inside || HasEnd(m, lines) then Shift(1, Unterminated(m, lines[1..], !m.end(lines[0]))) else Some(0)
    else Shift(1, Unterminated(m, lines[1..], false))
  }

  // Lines b to e are a comment: a line that starts one, and the first line from there that ends it.
  ghost predicate IsComment<L>(m: Marks<L>, lines: seq<L>, b: int, e: int) {
    0 <= b <= e < |lines| && m.start(lines[b]) && m.end(lines[e]) && forall j :: b <= j < e ==> !m.end(lines[j])
  }

  // Only lines of comments change, and they change to the dummy. An open comment reaches back
  // before the lines given; its part here ends at the first line that ends it.
  lemma {:induction false} OnlyCommentsChange<L>(m: Marks<L>, lines: seq<L>, inside: bool, k: nat)
    requires k < |lines|
    ensures var r := Removed(m, lines, inside)[k];
            || r == lines[k]
            || (r == m.dummy && exists b, e :: b <= k <= e && IsComment(m, lines, b, e))
            || (r == m.dummy && inside && forall j :: 0 <= j < k ==> !m.end(lines[j]))
  {
    var opens := inside || m.start(lines[0]);
    if k > 0 && (!opens || inside || HasEnd(m, lines)) {
      var rest, inside' := lines[1..], opens && !m.end(lines[0]);
      OnlyCommentsChange(m, rest, inside', k - 1);
      if b, e :| b <= k - 1 <= e && IsComment(m, rest, b, e) {
        assert IsComment(m, lines, b + 1, e + 1);
      } else if inside' && forall j :: 0 <= j < k - 1 ==> !m.end(rest[j]) {
        assert forall j :: 1 <= j < k ==> lines[j] == rest[j - 1];
        if !inside { FirstEnd(m, lines, k); }
      }
    } else if opens && !inside && HasEnd(m, lines) {
      FirstEnd(m, lines, 0);
    }
  }

  lemma FirstEnd<L>(m: Marks<L>, lines: seq<L>, k: nat)
    requires k < |lines| && HasEnd(m, lines) && m.start(lines[0])
    requires forall j :: 0 <= j < k ==> !m.end(lines[j])
    ensures exists b, e :: b <= k <= e && IsComment(m, lines, b, e)
  {
    var e := k;
    while !m.end(lines[e])
      invariant k <= e < |lines| && forall j :: 0 <= j < e ==> !m.end(lines[j])
      decreases |lines| - e
    {
      e := e + 1;
    }
    assert IsComment(m, lines, 0, e);
  }

  lemma {:induction false} InsideBecomesDummy<L>(m: Marks<L>, lines: seq<L>, k: nat)
    requires k < |lines| && forall j :: 0 <= j < k ==> !m.end(lines[j])
    ensures Removed(m, lines, true)[k] == m.dummy
  {
    if k > 0 {
      assert forall j :: 0 <= j < k - 1 ==> lines[1..][j] == lines[j + 1];
      InsideBecomesDummy(m, lines[1..], k - 1);
    }
  }

  // Every line of a comment becomes the dummy.
  lemma {:induction false} CommentsBecomeDummies<L>(m: Marks<L>, lines: seq<L>, inside: bool, b: nat, e: nat, k: nat)
    requires IsComment(m, lines, b, e) && b <= k <= e
    ensures Removed(m, lines, inside)[k] == m.dummy
  {
    assert HasEnd(m, lines);
    var rest := lines[1..];
    if b > 0 {
      assert IsComment(m, rest, b - 1, e - 1);
      CommentsBecomeDummies(m, rest, (inside || m.start(lines[0])) && !m.end(lines[0]), b - 1, e - 1, k - 1);
    } else if k > 0 {
      assert forall j :: 0 <= j < k - 1 ==> rest[j] == lines[j + 1];
      InsideBecomesDummy(m, rest, k - 1);
    }
  }

  ghost predicate InComment<L>(m: Marks<L>, lines: seq<L>, k: int) {
    exists b, e :: b <= k <= e && IsComment(m, lines, b, e)
  }

  // What removal does to each line: the lines of comments become the dummy, the others stay.
  lemma RemovalIsExact<L>(m: Marks<L>, lines: seq<L>, k: nat)
    requires k < |lines|
    ensures Removed(m, lines, false)[k] == if InComment(m, lines, k) then m.dummy else lines[k]
  {
    OnlyCommentsChange(m, lines, false, k);
    if InComment(m, lines, k) {
      var b, e :| b <= k <= e && IsComment(m, lines, b, e);
      CommentsBecomeDummies(m, lines, false, b, e, k);
    }
  }

  ghost predicate OpensComment(line: string) { exists a, rest :: StartsComment(line, a, rest) }

  ghost predicate ClosesComment(line: string) { exists a, b :: EndsComment(line, a, b) }

  // Lines b to e of a file are a comment.
  ghost predicate IsCommentText(lines: seq<string>, b: int, e: int) {
    && 0 <= b <= e < |lines| && OpensComment(lines[b]) && ClosesComment(lines[e])
    && forall j :: b <= j < e ==> !ClosesComment(lines[j])
  }

  lemma CommentsAreTexts(lines: seq<string>, b: int, e: int)
    ensures IsComment(CMarks(), lines, b, e) <==> IsCommentText(lines, b, e)
  {
    if 0 <= b <= e < |lines| {
      StartMeaning(lines[b]);
      forall j | b <= j <= e ensures CMarks().end(lines[j]) <==> ClosesComment(lines[j]) { EndMeaning(lines[j]); }
    }
  }

  // For the program's own tests, in terms of the text of the lines.
  lemma RemovedText(lines: seq<string>, k: nat)
    requires k < |lines|
    ensures Removed(CMarks(), lines, false)[k] ==
            if exists b, e :: b <= k <= e && IsCommentText(lines, b, e) then "/**/" else lines[k]
  {
    RemovalIsExact(CMarks(), lines, k);
    forall b, e ensures IsComment(CMarks(), lines, b, e) <==> IsCommentText(lines, b, e) {
      CommentsAreTexts(lines, b, e);
    }
  }

  // A comment opens in line b and never ends.
  ghost predicate StaysOpen<L>(m: Marks<L>, lines: seq<L>, b: int) {
    0 <= b < |lines| && m.start(lines[b]) && forall j :: b <= j < |lines| ==> !m.end(lines[j])
  }

  lemma StaysOpenNext<L>(m: Marks<L>, lines: seq<L>, b: int)
    requires lines != [] && b > 0
    ensures StaysOpen(m, lines, b) <==> StaysOpen(m, lines[1..], b - 1)
  {
    if StaysOpen(m, lines[1..], b - 1) { assert forall j :: b <= j < |lines| ==> lines[j] == lines[1..][j - 1]; }
    if StaysOpen(m, lines, b) { assert forall j :: b - 1 <= j < |lines| - 1 ==> lines[1..][j] == lines[j + 1]; }
  }

  // What is reported is the first such line.
  lemma {:induction false} UnterminatedIsFirst<L>(m: Marks<L>, lines: seq<L>, inside: bool, b: int)
    requires inside ==> HasEnd(m, lines)
    ensures match Unterminated(m, lines, inside)
            case None => !StaysOpen(m, lines, b)
            case Some(first) => StaysOpen(m, lines, first) && (b < first ==> !StaysOpen(m, lines, b))
  {
    if lines != [] {
      var opens := inside || m.start(lines[0]);
      if !opens || inside || HasEnd(m, lines) {
        var inside' := opens && !m.end(lines[0]);
        if HasEnd(m, lines) && !m.end(lines[0]) {
          var e :| 0 <= e < |lines| && m.end(lines[e]);
          assert m.end(lines[1..][e - 1]);
        }
        UnterminatedIsFirst(m, lines[1..], inside', b - 1);
        var r := Unterminated(m, lines[1..], inside');
        if r.Some? { StaysOpenNext(m, lines, r.value + 1); }
        if b > 0 { StaysOpenNext(m, lines, b); }
      }
    }
  }

  ghost predicate StaysOpenText(lines: seq<string>, b: int) {
    0 <= b < |lines| && OpensComment(lines[b]) && forall j :: b <= j < |lines| ==> !ClosesComment(lines[j])
  }

  lemma StaysOpenIsText(lines: seq<string>, b: int)
    ensures StaysOpen(CMarks(), lines, b) <==> StaysOpenText(lines, b)
  {
    if 0 <= b < |lines| {
      StartMeaning(lines[b]);
      forall j | b <= j < |lines| ensures CMarks().end(lines[j]) <==> ClosesComment(lines[j]) { EndMeaning(lines[j]); }
    }
  }

  lemma UnterminatedText(lines: seq<string>)
    ensures match Unterminated(CMarks(), lines, false)
            case None => forall b :: !StaysOpenText(lines, b)
            case Some(first) => StaysOpenText(lines, first) && forall b :: b < first ==> !StaysOpenText(lines, b)
  {
    forall b ensures StaysOpen(CMarks(), lines, b) <==> StaysOpenText(lines, b) { StaysOpenIsText(lines, b); }
    forall b: int ensures
      match Unterminated(CMarks(), lines, false)
      case None => !StaysOpen(CMarks(), lines, b)
      case Some(first) => StaysOpen(CMarks(), lines, first) && (b < first ==> !StaysOpen(CMarks(), lines, b))
    {
      UnterminatedIsFirst(CMarks(), lines, false, b);
    }
  }

  // A second run changes nothing and reports the same unterminated comment, or none.
  lemma {:induction false} Idempotent<L>(m: Marks<L>, lines: seq<L>, inside: bool)
    requires !m.start(m.dummy)
    ensures var r := Removed(m, lines, inside);
            Removed(m, r, false) == r && Unterminated(m, r, false) == Unterminated(m, lines, inside)
  {
    if lines != [] {
      var opens := inside || m.start(lines[0]);
      if !opens || inside || HasEnd(m, lines) {
        var inside' := opens && !m.end(lines[0]);
        var rest := Removed(m, lines[1..], inside');
        Idempotent(m, lines[1..], inside');
        assert Removed(m, lines, inside)[1..] == rest;
      }
    }
  }

  // Line k is before the comment that never ends and starts no comment, or from there on and ends none.
  ghost predicate Settled<L>(m: Marks<L>, r: seq<L>, open: Option<nat>, k: nat)
    requires k < |r|
  {
    match open
    case None => !m.start(r[k])
    case Some(b) => b < |r| && m.start(r[b]) && if k < b then !m.start(r[k]) else !m.end(r[k])
  }

  lemma SettledOneMore<L>(m: Marks<L>, x: L, r: seq<L>, open: Option<nat>, k: nat)
    requires 0 < |r| && k <= |r| && !m.start(x) && Settled(m, r, open, if k > 0 then k - 1 else 0)
    ensures Settled(m, [x] + r, Shift(1, open), k)
  {
  }

  // Nothing is left to remove: up to the comment that never ends no line starts one any more, and
  // from there on no line ends it.
  lemma {:induction false} NothingLeft<L>(m: Marks<L>, lines: seq<L>, inside: bool, k: nat)
    requires !m.start(m.dummy) && k < |lines|
    ensures Settled(m, Removed(m, lines, inside), Unterminated(m, lines, inside), k)
  {
    var opens := inside || m.start(lines[0]);
    if |lines| > 1 && (!opens || inside || HasEnd(m, lines)) {
      var inside' := opens && !m.end(lines[0]);
      var rest, open := Removed(m, lines[1..], inside'), Unterminated(m, lines[1..], inside');
      NothingLeft(m, lines[1..], inside', if k > 0 then k - 1 else 0);
      SettledOneMore(m, if opens then m.dummy else lines[0], rest, open, k);
    }
  }

  // The same for the marks of the program.
  lemma RemovalIsIdempotent(lines: seq<string>)
    ensures var m := CMarks();
            var r := Removed(m, lines, false);
            Removed(m, r, false) == r && Unterminated(m, r, false) == Unterminated(m, lines, false)
  {
    DummyIsNoStart();
    Idempotent(CMarks(), lines, false);
  }

  lemma OneOutside<L>(m: Marks<L>, lines: seq<L>, i: nat)
    requires i < |lines| && !m.start(lines[i])
    ensures Removed(m, lines[i..], false) == [lines[i]] + Removed(m, lines[i + 1..], false)
    ensures Unterminated(m, lines[i..], false) == Shift(1, Unterminated(m, lines[i + 1..], false))
  {
    assert lines[i..][0] == lines[i] && lines[i..][1..] == lines[i + 1..];
  }

  lemma Prepended<L>(x: L, s: seq<L>, t: seq<L>)
    ensures [x] + (s + t) == ([x] + s) + t
  {
  }

  lemma {:induction false} Outside<L>(m: Marks<L>, lines: seq<L>, i: nat, b: nat)
    requires i <= b <= |lines| && forall k :: i <= k < b ==> !m.start(lines[k])
    ensures Removed(m, lines[i..], false) == lines[i..b] + Removed(m, lines[b..], false)
    ensures Unterminated(m, lines[i..], false) == Shift(b - i, Unterminated(m, lines[b..], false))
    decreases b - i
  {
    if i < b {
      OneOutside(m, lines, i);
      Outside(m, lines, i + 1, b);
      Prepended(lines[i], lines[i + 1..b], Removed(m, lines[b..], false));
      assert lines[i..b] == [lines[i]] + lines[i + 1..b];
    } else {
      assert lines[i..b] == [];
    }
  }

  lemma {:induction false} Inside<L>(m: Marks<L>, lines: seq<L>, i: nat, e: nat)
    requires i <= e < |lines| && m.end(lines[e]) && forall k :: i <= k < e ==> !m.end(lines[k])
    ensures Removed(m, lines[i..], true) == Dummies(m, e + 1 - i) + Removed(m, lines[e + 1..], false)
    ensures Unterminated(m, lines[i..], true) == Shift(e + 1 - i, Unterminated(m, lines[e + 1..], false))
    decreases e - i
  {
    var rest := lines[i..];
    assert rest[0] == lines[i] && rest[1..] == lines[i + 1..];
    assert Dummies(m, e + 1 - i) == [m.dummy] + Dummies(m, e - i);
    if i < e { Inside(m, lines, i + 1, e); }
  }

  // A comment that ends, and one that does not.
  lemma AtComment<L>(m: Marks<L>, lines: seq<L>, b: nat, e: nat)
    requires b <= e < |lines| && m.start(lines[b]) && FirstFrom(m.end, lines, b, e)
    ensures Removed(m, lines[b..], false) == Dummies(m, e + 1 - b) + Removed(m, lines[e + 1..], false)
    ensures Unterminated(m, lines[b..], false) == Shift(e + 1 - b, Unterminated(m, lines[e + 1..], false))
  {
    Inside(m, lines, b, e);
    assert m.end(lines[b..][e - b]);
  }

  lemma AtOpenComment<L>(m: Marks<L>, lines: seq<L>, b: nat)
    requires b <= |lines| && FirstFrom(m.end, lines, b, |lines|) && (b < |lines| ==> m.start(lines[b]))
    ensures Removed(m, lines[b..], false) == lines[b..]
    ensures Unterminated(m, lines[b..], false) == if b < |lines| then Some(0) else None
  {
    assert !HasEnd(m, lines[b..]);
  }

  // From line i on, only a comment that does not end is left.
  lemma OutsideToEnd<L>(m: Marks<L>, lines: seq<L>, i: nat, b: nat)
    requires i <= b && FirstFrom(m.start, lines, i, b) && FirstFrom(m.end, lines, b, |lines|)
    ensures Removed(m, lines[i..], false) == lines[i..]
    ensures Unterminated(m, lines[i..], false) == if b < |lines| then Some(b - i) else None
  {
    assert lines[i..b] + lines[b..] == lines[i..];
    AtOpenComment(m, lines, b);
    Outside(m, lines, i, b);
  }

  // No line from `from` up to, not including, `to` passes the test; line `to` does unless it is the end.
  ghost predicate FirstFrom<L>(test: L -> bool, lines: seq<L>, from: nat, to: nat) {
    from <= to <= |lines| && (to < |lines| ==> test(lines[to])) && forall k :: from <= k < to ==> !test(lines[k])
  }

  method FindNextMultiLineCommentStart<L>(m: Marks<L>, lines: array<L>, lineix: nat) returns (r: nat)
    requires lineix <= lines.Length
    ensures FirstFrom(m.start, lines[..], lineix, r)
  {
    r := lineix;
    while r < lines.Length
      invariant lineix <= r <= lines.Length && forall k :: lineix <= k < r ==> !m.start(lines[k])
    {
      if m.start(lines[r]) { return; }
      r := r + 1;
    }
  }

  method FindNextMultiLineCommentEnd<L>(m: Marks<L>, lines: array<L>, lineix: nat) returns (r: nat)
    requires lineix <= lines.Length
    ensures FirstFrom(m.end, lines[..], lineix, r)
  {
    r := lineix;
    while r < lines.Length
      invariant lineix <= r <= lines.Length && forall k :: lineix <= k < r ==> !m.end(lines[k])
    {
      if m.end(lines[r]) { return; }
      r := r + 1;
    }
  }

  method RemoveMultiLineCommentsFromRange<L>(m: Marks<L>, lines: array<L>, begin: nat, end: nat)
    requires begin <= end <= lines.Length
    modifies lines
    ensures forall k :: 0 <= k < lines.Length ==> lines[k] == if begin <= k < end then m.dummy else old(lines[k])
  {
    for i := begin to end
      invariant forall k :: 0 <= k < lines.Length ==> lines[k] == if begin <= k < i then m.dummy else old(lines[k])
    {
      lines[i] := m.dummy;
    }
  }

  // Lines before i have become done; what the run does to the rest it does from outside a comment.
  ghost predicate Progress<L>(m: Marks<L>, was: seq<L>, i: nat, done: seq<L>) {
    && i == |done| <= |was|
    && Removed(m, was, false) == done + Removed(m, was[i..], false)
    && Unterminated(m, was, false) == Shift(i, Unterminated(m, was[i..], false))
  }

  lemma Concat4<T>(a: seq<T>, b: seq<T>, c: seq<T>, d: seq<T>)
    ensures a + (b + (c + d)) == a + b + c + d
  {
  }

  // One round of the loop, and the last one.
  lemma Round<L>(m: Marks<L>, was: seq<L>, i: nat, done: seq<L>, b: nat, e: nat)
    requires Progress(m, was, i, done) && FirstFrom(m.start, was, i, b) && FirstFrom(m.end, was, b, e) && e < |was|
    ensures Progress(m, was, e + 1, done + was[i..b] + Dummies(m, e + 1 - b))
  {
    Outside(m, was, i, b);
    AtComment(m, was, b, e);
    Concat4(done, was[i..b], Dummies(m, e + 1 - b), Removed(m, was[e + 1..], false));
  }

  lemma LastRound<L>(m: Marks<L>, was: seq<L>, i: nat, done: seq<L>, b: nat)
    requires Progress(m, was, i, done) && FirstFrom(m.start, was, i, b) && FirstFrom(m.end, was, b, |was|)
    ensures Removed(m, was, false) == done + was[i..]
    ensures Unterminated(m, was, false) == if b < |was| then Some(b) else None
  {
    OutsideToEnd(m, was, i, b);
  }

  // The array after i lines: those lines done, the rest as it was.
  ghost predicate Mixed<L>(now: seq<L>, was: seq<L>, done: seq<L>) {
    |now| == |was| >= |done| &&
    forall k :: 0 <= k < |was| ==> now[k] == if k < |done| then done[k] else was[k]
  }

  lemma MixedNext<L>(m: Marks<L>, now: seq<L>, next: seq<L>, was: seq<L>, done: seq<L>, b: nat, e: nat)
    requires Mixed(now, was, done) && |done| <= b <= e < |was| == |next|
    requires forall k :: 0 <= k < |was| ==> next[k] == if b <= k < e + 1 then m.dummy else now[k]
    ensures Mixed(next, was, done + was[|done|..b] + Dummies(m, e + 1 - b))
  {
  }

  lemma MixedFirst<L>(test: L -> bool, now: seq<L>, was: seq<L>, done: seq<L>, from: nat, to: nat)
    requires Mixed(now, was, done) && |done| <= from && FirstFrom(test, now, from, to)
    ensures FirstFrom(test, was, from, to)
  {
  }

  lemma MixedAll<L>(now: seq<L>, was: seq<L>, done: seq<L>)
    requires Mixed(now, was, done)
    ensures now == done + was[|done|..]
  {
  }

  // One turn of the loop: at an end of the scan more is false and error the result, which is 1-based.
  method RemoveNext<L>(m: Marks<L>, lines: array<L>, lineix: nat, ghost was: seq<L>, ghost done: seq<L>)
    returns (more: bool, next: nat, error: Option<nat>, ghost done': seq<L>)
    requires lineix < lines.Length && Progress(m, was, lineix, done) && Mixed(lines[..], was, done)
    modifies lines
    ensures more ==> lineix < next <= lines.Length && Progress(m, was, next, done') && Mixed(lines[..], was, done')
    ensures !more ==> lines[..] == Removed(m, was, false) && error == Shift(1, Unterminated(m, was, false))
  {
    ghost var now := lines[..];
    more, next, error, done' := false, lineix, None, done;
    var begin := FindNextMultiLineCommentStart(m, lines, lineix);
    MixedFirst(m.start, now, was, done, lineix, begin);
    if begin >= lines.Length {
      LastRound(m, was, lineix, done, begin);
      MixedAll(now, was, done);
      return;
    }
    var end := FindNextMultiLineCommentEnd(m, lines, begin);
    MixedFirst(m.end, now, was, done, begin, end);
    if end >= lines.Length {
      LastRound(m, was, lineix, done, begin);
      MixedAll(now, was, done);
      error := Some(begin + 1);
      return;
    }
    Round(m, was, lineix, done, begin, end);
    RemoveMultiLineCommentsFromRange(m, lines, begin, end + 1);
    MixedNext(m, now, lines[..], was, done, begin, end);
    more, next, done' := true, end + 1, done + was[lineix..begin] + Dummies(m, end + 1 - begin);
  }

  method RemoveMultiLineComments<L>(m: Marks<L>, lines: array<L>) returns (error: Option<nat>)
    modifies lines
    ensures lines[..] == Removed(m, old(lines[..]), false)
    ensures error == Shift(1, Unterminated(m, old(lines[..]), false))
  {
    ghost var was, done := lines[..], [];
    assert was[0..] == was;
    var lineix := 0;
    while lineix < lines.Length
      invariant Progress(m, was, lineix, done) && Mixed(lines[..], was, done)
      decreases lines.Length - lineix
    {
      var more;
      more, lineix, error, done := RemoveNext(m, lines, lineix, was, done);
      if !more { return; }
    }
    LastRound(m, was, lineix, done, lines.Length);
    MixedAll(lines[..], was, done);
    return None;
  }
}
