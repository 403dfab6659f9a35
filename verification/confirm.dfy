/** The operator prompt of the apply phase (scripts/sync_agents.py,
    `_confirm`): a reply counts as "yes" exactly when, stripped of
    surrounding white space and lower-cased, it reads `y` or `yes`; an
    end of input or an interrupt counts as "no". */
module Prompt {

  /** What one `input()` call yields. */
  datatype Reply =
    | Line(text: string)   // a line typed by the operator
    | EndOfInput           // `EOFError`
    | Interrupted          // `KeyboardInterrupt`

  /** Python's `str.isspace()` on one character. */
  predicate IsSpace(c: char) {
    || c == ' ' || c == '\t' || c == '\n' || c == '\r' || c == '\U{B}' || c == '\U{C}'
    || ('\U{1C}' <= c <= '\U{1F}') || c == '\U{85}' || c == '\U{A0}' || c == '\U{1680}'
    || ('\U{2000}' <= c <= '\U{200A}') || c == '\U{2028}' || c == '\U{2029}'
    || c == '\U{202F}' || c == '\U{205F}' || c == '\U{3000}'
  }

  predicate AllSpace(s: string) {
    forall k :: 0 <= k < |s| ==> IsSpace(s[k])
  }

  /** Drops leading white space. */
  function TrimStart(s: string): string {
    if s != [] && IsSpace(s[0]) then TrimStart(s[1..]) else s
  }

  /** What `TrimStart` keeps is a suffix that starts with a non-space,
      and what it drops is all white space. */
  lemma {:induction false} TrimStartSpec(s: string)
    ensures var r := TrimStart(s);
      && |r| <= |s| && r == s[|s| - |r|..]
      && AllSpace(s[..|s| - |r|])
      && (r == [] || !IsSpace(r[0]))
  {
    if s != [] && IsSpace(s[0]) {
      TrimStartSpec(s[1..]);
      var r := TrimStart(s);
      assert s[1..][|s[1..]| - |r|..] == s[|s| - |r|..];
      assert forall k :: 1 <= k < |s| - |r| ==> s[k] == s[1..][k - 1];
    }
  }

  /** Drops trailing white space. */
  function TrimEnd(s: string): string {
    if s != [] && IsSpace(s[|s| - 1]) then TrimEnd(s[..|s| - 1]) else s
  }

  /** What `TrimEnd` keeps is a prefix that ends with a non-space, and
      what it drops is all white space. */
  lemma {:induction false} TrimEndSpec(s: string)
    ensures var r := TrimEnd(s);
      && |r| <= |s| && r == s[..|r|]
      && AllSpace(s[|r|..])
      && (r == [] || !IsSpace(r[|r| - 1]))
  {
    if s != [] && IsSpace(s[|s| - 1]) {
      TrimEndSpec(s[..|s| - 1]);
      var r := TrimEnd(s);
      assert s[..|s| - 1][..|r|] == s[..|r|];
      assert forall k :: |r| <= k < |s| - 1 ==> s[k] == s[..|s| - 1][k];
    }
  }

  /** Python's `str.strip()` with no argument. */
  function Strip(s: string): string {
    TrimEnd(TrimStart(s))
  }

  function LowerChar(c: char): char {
    if 'A' <= c <= 'Z' then (c - 'A' + 'a') as char else c
  }

  /** `str.lower()`, on the ASCII letters (see README). */
  function Lower(s: string): (r: string)
    ensures |r| == |s|
    ensures forall k :: 0 <= k < |s| ==> r[k] == LowerChar(s[k])
  {
    if s == [] then [] else [LowerChar(s[0])] + Lower(s[1..])
  }

  /** `_confirm` on one reply. */
  function Confirm(reply: Reply): bool {
    match reply
    case Line(text) => Lower(Strip(text)) in {"y", "yes"}
    case EndOfInput => false
    case Interrupted => false
  }

  /** Asks once: the first reply of the stream is consumed; an exhausted
      stream is an end of input. */
  function Ask(replies: seq<Reply>): (r: (bool, seq<Reply>))
    ensures replies == [] ==> r == (false, [])
    ensures replies != [] ==> r.1 == replies[1..]
    ensures r.0 ==> replies != [] && replies[0].Line?
  {
    if replies == [] then (false, []) else (Confirm(replies[0]), replies[1..])
  }

  /** `y` or `yes` in any mix of letter case. */
  predicate YesWord(w: string) {
    || (|w| == 1 && (w[0] == 'y' || w[0] == 'Y'))
    || (&& |w| == 3
        && (w[0] == 'y' || w[0] == 'Y')
        && (w[1] == 'e' || w[1] == 'E')
        && (w[2] == 's' || w[2] == 'S'))
  }

  /** The accepted replies, described without `strip`/`lower`: white space,
      then a yes-word, then white space. */
  ghost predicate Affirmative(text: string) {
    exists i, j :: 0 <= i <= j <= |text| && AllSpace(text[..i]) && AllSpace(text[j..]) && YesWord(text[i..j])
  }

  lemma LowerIsYes(w: string)
    ensures Lower(w) in {"y", "yes"} <==> YesWord(w)
  {
    var l := Lower(w);
    if |w| == 1 {
      assert l == [LowerChar(w[0])];
    } else if |w| == 3 {
      assert l == [LowerChar(w[0]), LowerChar(w[1]), LowerChar(w[2])];
    }
  }

  /** White space up to a non-space at `i` is exactly what `TrimStart`
      drops. */
  lemma {:induction false} TrimStartAt(s: string, i: nat)
    requires i < |s| && AllSpace(s[..i]) && !IsSpace(s[i])
    ensures TrimStart(s) == s[i..]
    decreases i
  {
    if i > 0 {
      assert IsSpace(s[..i][0]);
      assert AllSpace(s[1..i]) by {
        forall k | 0 <= k < i - 1 ensures IsSpace(s[1..i][k]) {
          assert s[1..i][k] == s[..i][k + 1];
        }
      }
      assert s[1..][..i - 1] == s[1..i];
      TrimStartAt(s[1..], i - 1);
      assert s[1..][i - 1..] == s[i..];
    }
  }

  /** White space after a non-space at `j - 1` is exactly what `TrimEnd`
      drops. */
  lemma {:induction false} TrimEndAt(s: string, j: nat)
    requires 0 < j <= |s| && AllSpace(s[j..]) && !IsSpace(s[j - 1])
    ensures TrimEnd(s) == s[..j]
    decreases |s| - j
  {
    if j < |s| {
      var t := s[..|s| - 1];
      assert IsSpace(s[j..][|s| - 1 - j]);
      assert AllSpace(t[j..]) by {
        forall k | 0 <= k < |t| - j ensures IsSpace(t[j..][k]) {
          assert t[j..][k] == s[j..][k];
        }
      }
      assert t[j - 1] == s[j - 1];
      TrimEndAt(t, j);
      assert t[..j] == s[..j];
    }
  }

  /** Stripping removes exactly the white space around a word that begins
      and ends with a non-space character. */
  lemma StripAround(text: string, i: int, j: int)
    requires 0 <= i < j <= |text|
    requires AllSpace(text[..i]) && AllSpace(text[j..])
    requires !IsSpace(text[i]) && !IsSpace(text[j - 1])
    ensures Strip(text) == text[i..j]
  {
    TrimStartAt(text, i);
    assert text[i..][j - i..] == text[j..];
    TrimEndAt(text[i..], j - i);
    assert text[i..][..j - i] == text[i..j];
  }

  /** Every reply `_confirm` accepts is affirmative. */
  lemma ConfirmedIsAffirmative(text: string)
    requires Confirm(Line(text))
    ensures Affirmative(text)
  {
    var a := TrimStart(text);
    TrimStartSpec(text);
    var i := |text| - |a|;
    var b := TrimEnd(a);
    TrimEndSpec(a);
    var j := i + |b|;
    assert text[i..j] == b;
    assert text[j..] == a[|b|..];
    LowerIsYes(b);
  }

  /** Every affirmative reply is accepted by `_confirm`. */
  lemma AffirmativeIsConfirmed(text: string)
    requires Affirmative(text)
    ensures Confirm(Line(text))
  {
    var i, j :| 0 <= i <= j <= |text| && AllSpace(text[..i]) && AllSpace(text[j..]) && YesWord(text[i..j]);
    assert text[i..j][0] == text[i] && text[i..j][j - i - 1] == text[j - 1];
    StripAround(text, i, j);
    LowerIsYes(text[i..j]);
  }

  /** `_confirm` says "yes" exactly to the affirmative lines. */
  lemma ConfirmMeaning(reply: Reply)
    ensures Confirm(reply) <==> reply.Line? && Affirmative(reply.text)
  {
    if reply.Line? {
      if Confirm(reply) {
        ConfirmedIsAffirmative(reply.text);
      }
      if Affirmative(reply.text) {
        AffirmativeIsConfirmed(reply.text);
      }
    }
  }

  lemma ExampleY()
    ensures Confirm(Line("y"))
  {
    StripAround("y", 0, 1);
    LowerIsYes("y");
  }

  lemma ExampleSpacedYes()
    ensures Confirm(Line(" YES\n"))
  {
    StripAround(" YES\n", 1, 4);
    assert " YES\n"[1..4] == "YES";
    LowerIsYes("YES");
  }

  lemma ExampleEmpty()
    ensures !Confirm(Line(""))
  {
    assert TrimStart("") == "";
  }

  /** A reply with more than a yes-word between its white space is refused. */
  lemma RefusesLongWord(text: string)
    requires |text| > 3 && !IsSpace(text[0]) && !IsSpace(text[|text| - 1])
    ensures !Confirm(Line(text))
  {
    ConfirmMeaning(Line(text));
  }

  lemma ExampleLong()
    ensures !Confirm(Line("yes please"))
  {
    RefusesLongWord("yes please");
  }
}
