/** Strings as the serialiser builds them and as a reader of the file splits them. */
module Text {

  /** The character that ends a line, and the characters that separate words. */
  const LineBreak: set<char> := {'\n'}
  const Blank: set<char> := {' ', '\n'}

  predicate NoneOf(s: string, seps: set<char>) {
    forall i :: 0 <= i < |s| ==> s[i] !in seps
  }

  /** The pieces of `s` between separator characters, empty pieces included. */
  function Segments(s: string, seps: set<char>): (r: seq<string>)
    ensures |r| >= 1
    ensures forall k :: 0 <= k < |r| ==> NoneOf(r[k], seps)
    decreases |s|
  {
    if s == [] then [""]
    else
      var rest := Segments(s[1..], seps);
      if s[0] in seps then [""] + rest
      else [[s[0]] + rest[0]] + rest[1..]
  }

  /** Splitting at a separator splits the pieces. */
  lemma {:induction false} SegmentsAt(a: string, c: char, b: string, seps: set<char>)
    requires c in seps
    ensures Segments(a + [c] + b, seps) == Segments(a, seps) + Segments(b, seps)
    decreases |a|
  {
    if a == [] {
      assert a + [c] + b == [c] + b;
      assert ([c] + b)[1..] == b;
    } else {
      assert (a + [c] + b)[0] == a[0];
      assert (a + [c] + b)[1..] == a[1..] + [c] + b;
      SegmentsAt(a[1..], c, b, seps);
    }
  }

  /** A string without separators is a single piece. */
  lemma {:induction false} SegmentsOfPiece(t: string, seps: set<char>)
    requires NoneOf(t, seps)
    ensures Segments(t, seps) == [t]
    decreases |t|
  {
    if t != [] {
      assert NoneOf(t[1..], seps);
      SegmentsOfPiece(t[1..], seps);
      assert [t[0]] + t[1..] == t;
    }
  }

  /** The non-empty strings of `ss`, in order. */
  function NonEmpty(ss: seq<string>): (r: seq<string>)
    ensures forall k :: 0 <= k < |r| ==> r[k] != ""
  {
    if ss == [] then []
    else (if ss[0] == "" then [] else [ss[0]]) + NonEmpty(ss[1..])
  }

  lemma {:induction false} NonEmptyAppend(a: seq<string>, b: seq<string>)
    ensures NonEmpty(a + b) == NonEmpty(a) + NonEmpty(b)
    decreases |a|
  {
    if a != [] {
      assert (a + b)[0] == a[0];
      assert (a + b)[1..] == a[1..] + b;
      NonEmptyAppend(a[1..], b);
    } else {
      assert a + b == b;
    }
  }

  /** The lines of `s`: the pieces between newlines (a final newline leaves a last, empty piece). */
  function Lines(s: string): seq<string> {
    Segments(s, LineBreak)
  }

  /** The words of `s`: what is left after splitting at spaces and newlines and dropping empty pieces. */
  function Words(s: string): seq<string> {
    NonEmpty(Segments(s, Blank))
  }

  /** A word is a single word. */
  lemma WordsOfWord(t: string)
    requires t != "" && NoneOf(t, Blank)
    ensures Words(t) == [t]
  {
    SegmentsOfPiece(t, Blank);
    assert [t][1..] == [];
    assert NonEmpty([t]) == [t] + NonEmpty([]);
  }

  /** Appending a space and a word adds that word and nothing else. */
  lemma WordsAfterSpace(s: string, t: string)
    requires t != "" && NoneOf(t, Blank)
    ensures Words(s + " " + t) == Words(s) + [t]
  {
    assert s + " " + t == s + [' '] + t;
    SegmentsAt(s, ' ', t, Blank);
    NonEmptyAppend(Segments(s, Blank), Segments(t, Blank));
    WordsOfWord(t);
  }

  /** `s + " " + t` has no separator when neither part has one and the space is not one. */
  lemma JoinedNoneOf(s: string, t: string, seps: set<char>)
    requires NoneOf(s, seps) && NoneOf(t, seps) && ' ' !in seps
    ensures NoneOf(s + " " + t, seps)
  {
    var r := s + " " + t;
    forall i | 0 <= i < |r|
      ensures r[i] !in seps
    {
      if i < |s| {
        assert r[i] == s[i];
      } else if i > |s| {
        assert r[i] == t[i - |s| - 1];
      } else {
        assert r[i] == ' ';
      }
    }
  }

  /** Each line followed by a newline. */
  function JoinLines(ls: seq<string>): string {
    if ls == [] then "" else JoinLines(ls[..|ls| - 1]) + ls[|ls| - 1] + "\n"
  }

  lemma JoinLinesSnoc(ls: seq<string>, l: string)
    ensures JoinLines(ls + [l]) == JoinLines(ls) + l + "\n"
  {
    assert (ls + [l])[..|ls|] == ls;
  }

  /** The pieces of every line, line after line. */
  function SegmentsOfLines(ls: seq<string>, seps: set<char>): seq<string> {
    if ls == [] then [] else SegmentsOfLines(ls[..|ls| - 1], seps) + Segments(ls[|ls| - 1], seps)
  }

  /** The words of every line, line after line. */
  function WordsOfLines(ls: seq<string>): seq<string> {
    NonEmpty(SegmentsOfLines(ls, Blank))
  }

  lemma WordsOfLinesSnoc(ls: seq<string>, l: string)
    ensures WordsOfLines(ls + [l]) == WordsOfLines(ls) + Words(l)
  {
    assert (ls + [l])[..|ls|] == ls;
    NonEmptyAppend(SegmentsOfLines(ls, Blank), Segments(l, Blank));
  }

  /** Splitting joined lines, followed by `t`, yields the pieces of each line and then those of `t`. */
  lemma {:induction false} SegmentsOfJoin(ls: seq<string>, t: string, seps: set<char>)
    requires '\n' in seps
    ensures Segments(JoinLines(ls) + t, seps) == SegmentsOfLines(ls, seps) + Segments(t, seps)
    decreases |ls|
  {
    if ls == [] {
      assert JoinLines(ls) + t == t;
    } else {
      var pre, last := ls[..|ls| - 1], ls[|ls| - 1];
      assert JoinLines(ls) + t == (JoinLines(pre) + last) + ['\n'] + t;
      SegmentsAt(JoinLines(pre) + last, '\n', t, seps);
      SegmentsOfJoin(pre, last, seps);
    }
  }

  /** Lines without separators are their own pieces. */
  lemma {:induction false} SegmentsOfPieces(ls: seq<string>, seps: set<char>)
    requires forall k :: 0 <= k < |ls| ==> NoneOf(ls[k], seps)
    ensures SegmentsOfLines(ls, seps) == ls
    decreases |ls|
  {
    if ls != [] {
      SegmentsOfPieces(ls[..|ls| - 1], seps);
      SegmentsOfPiece(ls[|ls| - 1], seps);
    }
  }

  /** Round trip: the lines of `JoinLines(ls)` are `ls`, and then the empty piece after the final newline. */
  lemma LinesOfJoin(ls: seq<string>)
    requires forall k :: 0 <= k < |ls| ==> NoneOf(ls[k], LineBreak)
    ensures Lines(JoinLines(ls)) == ls + [""]
  {
    SegmentsOfJoin(ls, "", LineBreak);
    SegmentsOfPieces(ls, LineBreak);
    assert JoinLines(ls) + "" == JoinLines(ls);
  }

  /** The words of joined lines are the words of each line, in order. */
  lemma WordsOfJoin(ls: seq<string>, t: string)
    ensures Words(JoinLines(ls) + t) == WordsOfLines(ls) + Words(t)
  {
    SegmentsOfJoin(ls, t, Blank);
    NonEmptyAppend(SegmentsOfLines(ls, Blank), Segments(t, Blank));
  }

  function Digit(d: nat): (c: char)
    requires d < 10
    ensures '0' <= c <= '9'
  {
    ('0' as int + d) as char
  }

  function DigitValue(c: char): nat {
    if '0' <= c <= '9' then c as int - '0' as int else 0
  }

  /** The decimal form of `n`, as Rust's `to_string` and `{}` print it: digits only, no leading zero. */
  function Decimal(n: nat): (s: string)
    ensures 1 <= |s|
    ensures forall i :: 0 <= i < |s| ==> '0' <= s[i] <= '9'
    ensures 1 < |s| ==> s[0] != '0'
    decreases n
  {
    if n < 10 then [Digit(n)] else Decimal(n / 10) + [Digit(n % 10)]
  }

  /** Reading a string of digits as a number. */
  function DecimalValue(s: string): nat {
    if s == [] then 0 else DecimalValue(s[..|s| - 1]) * 10 + DigitValue(s[|s| - 1])
  }

  /** Round trip: reading back what `Decimal` printed gives the number. */
  lemma {:induction false} DecimalRoundTrip(n: nat)
    ensures DecimalValue(Decimal(n)) == n
    decreases n
  {
    if n >= 10 {
      DecimalRoundTrip(n / 10);
      var s := Decimal(n);
      assert s[..|s| - 1] == Decimal(n / 10);
    }
  }

  /** A number below 1000 prints as one to three digits. */
  lemma DecimalLength(n: nat)
    requires n < 1000
    ensures 1 <= |Decimal(n)| <= 3
  {
    if n >= 10 {
      assert |Decimal(n)| == |Decimal(n / 10)| + 1;
      if n / 10 >= 10 {
        assert |Decimal(n / 10)| == |Decimal(n / 10 / 10)| + 1;
        assert n / 10 / 10 < 10;
      }
    }
  }

  /** The values the test programs print. */
  lemma DecimalExamples()
    ensures Decimal(0) == "0" && Decimal(3) == "3" && Decimal(5) == "5"
    ensures Decimal(127) == "127" && Decimal(255) == "255"
  {
  }

  lemma DecimalIsWord(n: nat)
    ensures Decimal(n) != "" && NoneOf(Decimal(n), Blank)
  {
  }
}
