/**
 * Lines of text as a file object's `readlines()` returns them: every line keeps
 * its terminating newline, and a final piece without one is a line too.
 * Content is an already decoded character sequence in which newline
 * translation has been done, so '\n' is the only line terminator.
 */
module TextLines {

  /** A well-formed line: non-empty, and a newline can only be its last character. */
  predicate IsLine(l: string)
  {
    |l| > 0 && forall i :: 0 <= i < |l| - 1 ==> l[i] != '\n'
  }

  predicate EndsWithNewline(l: string)
  {
    |l| > 0 && l[|l| - 1] == '\n'
  }

  /** What a sequence of lines must look like to be the result of reading some text. */
  predicate WellFormedLines(ls: seq<string>)
  {
    (forall k :: 0 <= k < |ls| ==> IsLine(ls[k])) &&
    (forall k :: 0 <= k < |ls| - 1 ==> EndsWithNewline(ls[k]))
  }

  /** The text that a sequence of lines spells out. */
  function Concat(ls: seq<string>): string
  {
    if ls == [] then [] else ls[0] + Concat(ls[1..])
  }

  /** The length of the first line of `s`: up to and including the first newline, or all of `s`. */
  function FirstLineLength(s: string): (n: nat)
    requires |s| > 0
    ensures 0 < n <= |s|
    ensures forall i :: 0 <= i < n - 1 ==> s[i] != '\n'
    ensures n < |s| ==> s[n - 1] == '\n'
  {
    if s[0] == '\n' || |s| == 1 then 1 else 1 + FirstLineLength(s[1..])
  }

  /** `readlines()` of the text `s`. */
  function ReadLines(s: string): (ls: seq<string>)
    ensures Concat(ls) == s
    ensures WellFormedLines(ls)
    ensures |ls| == 0 <==> |s| == 0
    decreases |s|
  {
    if s == [] then []
    else
      var n := FirstLineLength(s);
      [s[..n]] + ReadLines(s[n..])
  }

  lemma {:induction false} ConcatAppend(a: seq<string>, b: seq<string>)
    ensures Concat(a + b) == Concat(a) + Concat(b)
  {
    if a != [] {
      assert (a + b)[0] == a[0];
      assert (a + b)[1..] == a[1..] + b;
      ConcatAppend(a[1..], b);
    } else {
      assert a + b == b;
    }
  }

  /** The first line of `l + rest` is `l` when `l` is a line that ends there. */
  lemma {:induction false} FirstLineOf(l: string, rest: string)
    requires IsLine(l)
    requires EndsWithNewline(l) || rest == []
    ensures FirstLineLength(l + rest) == |l|
  {
    var s := l + rest;
    if |l| > 1 {
      assert s[0] == l[0] != '\n';
      assert s[1..] == l[1..] + rest;
      FirstLineOf(l[1..], rest);
    }
  }

  /**
   * Reading back: any well-formed sequence of lines is exactly what `readlines()`
   * returns for the text it spells out, so `ReadLines` loses nothing.
   */
  lemma {:induction false} ReadLinesOfConcat(ls: seq<string>)
    requires WellFormedLines(ls)
    ensures ReadLines(Concat(ls)) == ls
  {
    if ls != [] {
      var s := Concat(ls);
      var l, rest := ls[0], Concat(ls[1..]);
      assert s == l + rest;
      assert |ls| == 1 ==> rest == [];
      FirstLineOf(l, rest);
      assert s[..|l|] == l;
      assert s[|l|..] == rest;
      ReadLinesOfConcat(ls[1..]);
    }
  }
}
