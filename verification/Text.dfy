// Characters and the few string tests that the scanners of cpplint.py make.
module Text {

  datatype Option<+T> = None | Some(value: T)

  // The class \s of a regular expression compiled without the Unicode flag.
  predicate IsSpace(c: char) {
    c == ' ' || c == '\t' || c == '\n' || c == '\r' || c == '\U{0B}' || c == '\U{0C}'
  }

  // The class \w of a regular expression compiled without the Unicode flag.
  predicate IsWordChar(c: char) {
    'a' <= c <= 'z' || 'A' <= c <= 'Z' || '0' <= c <= '9' || c == '_'
  }

  function TrimRight(s: string): (r: string)
    ensures r <= s
    ensures forall i :: |r| <= i < |s| ==> IsSpace(s[i])
    ensures r != [] ==> !IsSpace(r[|r| - 1])
  {
    if s != [] && IsSpace(s[|s| - 1]) then TrimRight(s[..|s| - 1]) else s
  }

  // The text ends in the word "operator", which starts at a word boundary, and maybe space.
  predicate EndsInOperator(s: string) {
    var t := TrimRight(s);
    var k := |t| - 8;
    k >= 0 && IsOperatorAt(t, k) && (k == 0 || !IsWordChar(t[k - 1]))
  }

  predicate IsOperatorAt(t: string, k: nat)
    requires k + 8 <= |t|
  {
    t[k] == 'o' && t[k + 1] == 'p' && t[k + 2] == 'e' && t[k + 3] == 'r' &&
    t[k + 4] == 'a' && t[k + 5] == 't' && t[k + 6] == 'o' && t[k + 7] == 'r'
  }

  // Such a text ends in a space or in the last letter of the word, never in a bracket.
  lemma OperatorTail(s: string)
    requires EndsInOperator(s)
    ensures s != [] && (s[|s| - 1] == 'r' || IsSpace(s[|s| - 1]))
  {
    assert |TrimRight(s)| > 0;
  }

  // The same classes written out, for what is said about the code.
  const SPACES := " \t\n\r\U{0B}\U{0C}"

  predicate InWord(s: string, i: int) {
    0 <= i < |s| && ('a' <= s[i] <= 'z' || 'A' <= s[i] <= 'Z' || '0' <= s[i] <= '9' || s[i] == '_')
  }

  lemma SpaceMeaning(c: char)
    ensures IsSpace(c) <==> c in SPACES
  {
  }

  // What the regular expression says: something that does not end inside a word, the word
  // "operator", space.
  predicate ReadsOperator(s: string, a: string, b: string) {
    s == a + "operator" + b && !InWord(a, |a| - 1) && forall c <- b :: c in SPACES
  }

  lemma OperatorParts(s: string) returns (a: string, b: string)
    requires EndsInOperator(s)
    ensures ReadsOperator(s, a, b)
  {
    var t := TrimRight(s);
    var k := |t| - 8;
    a, b := t[..k], s[|t|..];
    AtWord(t, k);
    assert s == t + b;
    forall c <- b ensures c in SPACES { SpaceMeaning(c); }
  }

  lemma AtWord(t: string, k: nat)
    requires k + 8 == |t| && IsOperatorAt(t, k)
    ensures t == t[..k] + "operator"
  {
    assert t[k..] == "operator";
  }

  lemma {:induction false} TrimRightOf(t: string, b: string)
    requires (t != [] ==> !IsSpace(t[|t| - 1])) && forall c <- b :: IsSpace(c)
    ensures TrimRight(t + b) == t
  {
    if b == [] {
      assert t + b == t;
    } else {
      assert (t + b)[..|t + b| - 1] == t + b[..|b| - 1];
      TrimRightOf(t, b[..|b| - 1]);
    }
  }

  lemma OperatorIsRead(s: string, a: string, b: string)
    requires ReadsOperator(s, a, b)
    ensures EndsInOperator(s)
  {
    var t, k := a + "operator", |a|;
    forall c <- b ensures IsSpace(c) { SpaceMeaning(c); }
    assert t[k..] == "operator";
    assert t[k + 7] == t[k..][7];
    TrimRightOf(t, b);
    WordAt(t, k);
  }

  lemma WordAt(t: string, k: nat)
    requires k + 8 == |t| && t[k..] == "operator"
    ensures IsOperatorAt(t, k)
  {
    forall i | 0 <= i < 8 ensures t[k + i] == "operator"[i] { assert t[k..][i] == t[k + i]; }
  }

  ghost predicate IsOperatorText(s: string) { exists a, b :: ReadsOperator(s, a, b) }

  lemma OperatorMeaning(s: string)
    ensures EndsInOperator(s) <==> IsOperatorText(s)
  {
    if EndsInOperator(s) { var a, b := OperatorParts(s); }
    if a, b :| ReadsOperator(s, a, b) { OperatorIsRead(s, a, b); }
  }
}
