/**
 * The plain-text PPM ("P3") document that the canvas serialiser assembles, as pure functions:
 * the header, the clamped channel values, and the greedy wrapping of the values into lines.
 */
module Ppm {
  import opened Colors
  import opened Text

  /** A line is flushed once the next value would bring it to this many characters. */
  const MaxLineLength: nat := 70

  /** The largest channel value, also written in the header. */
  const MaxChannel: nat := 255

  /** `format!("P3\n{} {}\n255\n", width, height)`. */
  function Header(width: nat, height: nat): string {
    "P3\n" + Decimal(width) + " " + Decimal(height) + "\n255\n"
  }

  /** The three lines of the header. */
  function HeaderLines(width: nat, height: nat): seq<string> {
    ["P3", Decimal(width) + " " + Decimal(height), "255"]
  }

  lemma HeaderIsJoinedLines(width: nat, height: nat)
    ensures Header(width, height) == JoinLines(HeaderLines(width, height))
  {
    var hl := HeaderLines(width, height);
    assert hl[..2][..1] == ["P3"];
    assert hl[..2] == ["P3", Decimal(width) + " " + Decimal(height)];
    assert JoinLines(["P3"]) == "P3\n";
  }

  /** Rust's `as i64` on a finite float: rounds toward zero. */
  function Trunc(x: real): (n: int)
    ensures 0.0 <= x ==> n as real <= x < n as real + 1.0
    ensures x < 0.0 ==> n as real - 1.0 < x <= n as real
  {
    if x >= 0.0 then x.Floor else -((-x).Floor)
  }

  /** `min(max(n, 0), 255)`. */
  function Clamp(n: int): (v: nat)
    ensures v <= MaxChannel
    ensures 0 <= n <= MaxChannel ==> v == n
    ensures n < 0 ==> v == 0
    ensures n > MaxChannel ==> v == MaxChannel
  {
    var atLeastZero := if n > 0 then n else 0;
    if atLeastZero < MaxChannel then atLeastZero else MaxChannel
  }

  /** One channel as written to the file: `min(max((c * 255.0) as i64, 0), 255)`. */
  function Channel(c: real): (v: nat)
    ensures v <= MaxChannel
  {
    Clamp(Trunc(c * 255.0))
  }

  /**
   * Rounding toward zero and then clamping equals clamping the floor: in-range
   * intensities scale down to a whole value, the others saturate.
   */
  lemma ChannelIsClampedFloor(c: real)
    ensures Channel(c) == Clamp((c * 255.0).Floor)
    ensures 0.0 <= c <= 1.0 ==> Channel(c) == (c * 255.0).Floor
    ensures c >= 1.0 ==> Channel(c) == MaxChannel
    ensures c <= 0.0 ==> Channel(c) == 0
  {
  }

  /** The `pixels` array of the serialiser: red, green, blue. */
  function PixelChannels(c: Color): seq<nat> {
    [Channel(c.r), Channel(c.g), Channel(c.b)]
  }

  function PixelTokens(c: Color): seq<string> {
    var ch := PixelChannels(c);
    [Decimal(ch[0]), Decimal(ch[1]), Decimal(ch[2])]
  }

  /** The decimal values of all pixels, three per pixel, in storage order. */
  function Tokens(ps: seq<Color>): seq<string> {
    if ps == [] then [] else Tokens(ps[..|ps| - 1]) + PixelTokens(ps[|ps| - 1])
  }

  lemma TokensSnoc(ps: seq<Color>, i: nat)
    requires i < |ps|
    ensures Tokens(ps[..i + 1]) == Tokens(ps[..i]) + PixelTokens(ps[i])
  {
    assert ps[..i + 1][..i] == ps[..i];
  }

  lemma {:induction false} TokensLength(ps: seq<Color>)
    ensures |Tokens(ps)| == 3 * |ps|
  {
    if ps != [] {
      TokensLength(ps[..|ps| - 1]);
    }
  }

  /** Pixel `i` contributes tokens `3i`, `3i+1` and `3i+2`: its red, green and blue values. */
  lemma {:induction false} TokensAt(ps: seq<Color>, i: nat)
    requires i < |ps|
    ensures |Tokens(ps)| == 3 * |ps|
    ensures Tokens(ps)[3 * i..3 * i + 3] == PixelTokens(ps[i])
  {
    var pre, last := ps[..|ps| - 1], ps[|ps| - 1];
    var front, back := Tokens(pre), PixelTokens(last);
    assert Tokens(ps) == front + back;
    TokensLength(pre);
    if i < |ps| - 1 {
      TokensAt(pre, i);
      assert ps[i] == pre[i];
      SliceOfFront(front, back, 3 * i, 3 * i + 3);
    } else {
      assert (front + back)[|front|..] == back;
    }
  }

  lemma SliceOfFront(front: seq<string>, back: seq<string>, lo: nat, hi: nat)
    requires lo <= hi <= |front|
    ensures (front + back)[lo..hi] == front[lo..hi]
  {
  }

  /** Read back as a number, every token is the clamped channel value it came from. */
  lemma TokenValue(ps: seq<Color>, i: nat, j: nat)
    requires i < |ps| && j < 3
    ensures |Tokens(ps)| == 3 * |ps|
    ensures DecimalValue(Tokens(ps)[3 * i + j]) == PixelChannels(ps[i])[j] <= MaxChannel
  {
    TokensAt(ps, i);
    assert Tokens(ps)[3 * i + j] == Tokens(ps)[3 * i..3 * i + 3][j];
    DecimalRoundTrip(PixelChannels(ps[i])[j]);
  }

  /** What may be placed on a line: non-empty, shorter than a line, no blanks. */
  predicate IsToken(t: string) {
    0 < |t| < MaxLineLength && NoneOf(t, Blank)
  }

  predicate AllTokens(toks: seq<string>) {
    forall k :: 0 <= k < |toks| ==> IsToken(toks[k])
  }

  /** A clamped channel prints as one to three digits. */
  lemma ValueIsToken(v: nat)
    requires v <= MaxChannel
    ensures IsToken(Decimal(v))
  {
    DecimalLength(v);
    DecimalIsWord(v);
  }

  lemma PixelTokensAreTokens(c: Color)
    ensures AllTokens(PixelTokens(c))
  {
    var ch := PixelChannels(c);
    ValueIsToken(ch[0]);
    ValueIsToken(ch[1]);
    ValueIsToken(ch[2]);
  }

  lemma {:induction false} TokensAreTokens(ps: seq<Color>)
    ensures AllTokens(Tokens(ps))
  {
    if ps != [] {
      var pre, last := ps[..|ps| - 1], ps[|ps| - 1];
      TokensAreTokens(pre);
      PixelTokensAreTokens(last);
      assert Tokens(ps) == Tokens(pre) + PixelTokens(last);
    }
  }

  /** The serialiser's `body` (flushed lines) and `row` (the line being built). */
  datatype WrapState = WrapState(lines: seq<string>, row: string)

  /** One step of the wrap loop: flush `row` if `tok` would bring it to 70 characters, else add a space. */
  function Emit(st: WrapState, tok: string): WrapState {
    if |st.row| + |tok| >= MaxLineLength then WrapState(st.lines + [st.row], tok)
    else WrapState(st.lines, st.row + " " + tok)
  }

  /** The state after all of `toks`, starting from an empty body and an empty row. */
  function Wrap(toks: seq<string>): WrapState {
    if toks == [] then WrapState([], "") else Emit(Wrap(toks[..|toks| - 1]), toks[|toks| - 1])
  }

  lemma WrapSnoc(toks: seq<string>, tok: string)
    ensures Wrap(toks + [tok]) == Emit(Wrap(toks), tok)
  {
    assert (toks + [tok])[..|toks|] == toks;
  }

  /** Wrapping one more token of `more` is one more step. */
  lemma WrapExtend(toks: seq<string>, more: seq<string>, k: nat)
    requires k < |more|
    ensures Wrap(toks + more[..k + 1]) == Emit(Wrap(toks + more[..k]), more[k])
  {
    assert toks + more[..k + 1] == (toks + more[..k]) + [more[k]];
    WrapSnoc(toks + more[..k], more[k]);
  }

  /** A flushed line stays flushed: the lines after a prefix of the tokens begin the lines after all of them. */
  lemma {:induction false} WrapKeepsLines(toks: seq<string>, n: nat)
    requires n <= |toks|
    ensures Wrap(toks[..n]).lines <= Wrap(toks).lines
    decreases |toks|
  {
    if n == |toks| {
      assert toks[..n] == toks;
    } else {
      var pre := toks[..|toks| - 1];
      WrapKeepsLines(pre, n);
      assert pre[..n] == toks[..n];
    }
  }

  /** The flushed lines and then the last row. */
  function AllLines(st: WrapState): seq<string> {
    st.lines + [st.row]
  }

  lemma AllTokensPrefix(toks: seq<string>)
    requires AllTokens(toks) && toks != []
    ensures AllTokens(toks[..|toks| - 1]) && IsToken(toks[|toks| - 1])
  {
  }

  /** One step of the loop on the list of lines: a flush starts a new line, otherwise the last line grows. */
  lemma EmitLines(st: WrapState, tok: string)
    ensures |st.row| + |tok| >= MaxLineLength ==> AllLines(Emit(st, tok)) == AllLines(st) + [tok]
    ensures |st.row| + |tok| < MaxLineLength ==> AllLines(Emit(st, tok)) == st.lines + [st.row + " " + tok]
    ensures AllLines(st)[|st.lines|] == st.row
  {
  }

  /** No line is longer than 70 characters or holds a newline. */
  predicate LinesFit(ls: seq<string>) {
    forall k :: 0 <= k < |ls| ==> |ls[k]| <= MaxLineLength && NoneOf(ls[k], LineBreak)
  }

  /** No line is empty, the first starts with a space, and every later one starts with a word. */
  predicate LinesStart(ls: seq<string>) {
    && ls != []
    && (forall k :: 0 <= k < |ls| ==> ls[k] != "")
    && ls[0] != "" && ls[0][0] == ' '
    && (forall k :: 0 < k < |ls| ==> ls[k] != "" && ls[k][0] !in Blank)
  }

  /** Every line but the first holds a word, and that word would not have fit on the line before. */
  predicate LinesGreedy(ls: seq<string>) {
    forall k :: 0 < k < |ls| ==>
      Words(ls[k]) != [] && |ls[k - 1]| + |Words(ls[k])[0]| >= MaxLineLength
  }

  lemma {:induction false} WrapLinesFit(toks: seq<string>)
    requires AllTokens(toks)
    ensures LinesFit(AllLines(Wrap(toks)))
  {
    if toks != [] {
      var pre, tok := toks[..|toks| - 1], toks[|toks| - 1];
      AllTokensPrefix(toks);
      WrapLinesFit(pre);
      var st := Wrap(pre);
      var before, after := AllLines(st), AllLines(Wrap(toks));
      EmitLines(st, tok);
      if |st.row| + |tok| >= MaxLineLength {
        forall k | 0 <= k < |after|
          ensures |after[k]| <= MaxLineLength && NoneOf(after[k], LineBreak)
        {
          if k < |before| {
            assert after[k] == before[k];
          }
        }
      } else {
        JoinedNoneOf(st.row, tok, LineBreak);
        forall k | 0 <= k < |after|
          ensures |after[k]| <= MaxLineLength && NoneOf(after[k], LineBreak)
        {
          if k < |st.lines| {
            assert after[k] == before[k];
          }
        }
      }
    }
  }

  lemma WrapNoTokens()
    ensures AllLines(Wrap([])) == [""]
  {
  }

  lemma {:induction false} WrapLineStarts(toks: seq<string>)
    requires AllTokens(toks) && toks != []
    ensures LinesStart(AllLines(Wrap(toks)))
  {
    var pre, tok := toks[..|toks| - 1], toks[|toks| - 1];
    AllTokensPrefix(toks);
    var st := Wrap(pre);
    var before, after := AllLines(st), AllLines(Wrap(toks));
    EmitLines(st, tok);
    assert Wrap(toks) == Emit(st, tok);
    if pre == [] {
      assert st == WrapState([], "");
      assert "" + " " + tok == " " + tok;
      assert after == [" " + tok];
    } else {
      WrapLineStarts(pre);
      assert st.row != "";
      if |st.row| + |tok| >= MaxLineLength {
        assert after[0] == before[0];
        forall k | 0 < k < |after|
          ensures after[k] != "" && after[k][0] !in Blank
        {
          if k < |before| {
            assert after[k] == before[k];
          } else {
            assert after[k] == tok && tok[0] !in Blank;
          }
        }
      } else {
        var row := st.row + " " + tok;
        assert row[0] == st.row[0];
        assert after[0][0] == ' ' by {
          if st.lines == [] {
            assert after[0] == row && before[0] == st.row;
          } else {
            assert after[0] == before[0];
          }
        }
        forall k | 0 < k < |after|
          ensures after[k] != "" && after[k][0] !in Blank
        {
          if k < |st.lines| {
            assert after[k] == before[k];
          } else {
            assert after[k] == row && before[k] == st.row;
          }
        }
      }
    }
  }

  /** One step adds exactly its token to the words of the lines. */
  lemma EmitWords(st: WrapState, tok: string)
    requires IsToken(tok)
    ensures WordsOfLines(AllLines(Emit(st, tok))) == WordsOfLines(AllLines(st)) + [tok]
  {
    EmitLines(st, tok);
    WordsOfWord(tok);
    WordsOfLinesSnoc(st.lines, st.row);
    if |st.row| + |tok| >= MaxLineLength {
      WordsOfLinesSnoc(AllLines(st), tok);
    } else {
      WordsOfLinesSnoc(st.lines, st.row + " " + tok);
      WordsAfterSpace(st.row, tok);
    }
  }

  /** Reading the words back from the lines gives exactly the tokens, in order. */
  lemma {:induction false} WrapWords(toks: seq<string>)
    requires AllTokens(toks)
    ensures WordsOfLines(AllLines(Wrap(toks))) == toks
  {
    if toks == [] {
      assert AllLines(Wrap(toks)) == [] + [""];
      WordsOfLinesSnoc([], "");
      assert Segments("", Blank) == [""];
      assert NonEmpty([""]) == [] + NonEmpty([]);
    } else {
      var pre, tok := toks[..|toks| - 1], toks[|toks| - 1];
      AllTokensPrefix(toks);
      WrapWords(pre);
      EmitWords(Wrap(pre), tok);
      assert pre + [tok] == toks;
    }
  }

  /** A line is flushed only when the first word of the next line would not have fit on it. */
  lemma {:induction false} WrapIsGreedy(toks: seq<string>)
    requires AllTokens(toks)
    ensures LinesGreedy(AllLines(Wrap(toks)))
  {
    if toks != [] {
      var pre, tok := toks[..|toks| - 1], toks[|toks| - 1];
      AllTokensPrefix(toks);
      WrapIsGreedy(pre);
      var st := Wrap(pre);
      var before, after := AllLines(st), AllLines(Wrap(toks));
      EmitLines(st, tok);
      WordsOfWord(tok);
      if |st.row| + |tok| >= MaxLineLength {
        forall k | 0 < k < |after|
          ensures Words(after[k]) != [] && |after[k - 1]| + |Words(after[k])[0]| >= MaxLineLength
        {
          if k < |before| {
            assert after[k] == before[k] && after[k - 1] == before[k - 1];
          } else {
            assert after[k] == tok && after[k - 1] == st.row;
          }
        }
      } else {
        var row := st.row + " " + tok;
        WordsAfterSpace(st.row, tok);
        forall k | 0 < k < |after|
          ensures Words(after[k]) != [] && |after[k - 1]| + |Words(after[k])[0]| >= MaxLineLength
        {
          if k < |st.lines| {
            assert after[k] == before[k] && after[k - 1] == before[k - 1];
          } else {
            assert after[k] == row && after[k - 1] == before[k - 1] && before[k] == st.row;
            assert Words(row)[0] == Words(st.row)[0];
          }
        }
      }
    }
  }

  /** The lines of the body: the flushed rows and the final row. */
  function BodyLines(ps: seq<Color>): seq<string> {
    AllLines(Wrap(Tokens(ps)))
  }

  /** The serialiser's `body`: every line followed by a newline. */
  function Body(ps: seq<Color>): string {
    JoinLines(BodyLines(ps))
  }

  /** `header + &body`, the bytes written to the file. */
  function Document(width: nat, height: nat, ps: seq<Color>): string {
    Header(width, height) + Body(ps)
  }

  /** The shape of the body lines every reader of the format relies on. */
  lemma BodyLinesShape(ps: seq<Color>)
    ensures LinesFit(BodyLines(ps))
    ensures LinesGreedy(BodyLines(ps))
    ensures ps == [] ==> BodyLines(ps) == [""]
    ensures ps != [] ==> LinesStart(BodyLines(ps))
    ensures WordsOfLines(BodyLines(ps)) == Tokens(ps)
  {
    TokensAreTokens(ps);
    TokensLength(ps);
    WrapLinesFit(Tokens(ps));
    WrapIsGreedy(Tokens(ps));
    if ps != [] {
      WrapLineStarts(Tokens(ps));
    } else {
      WrapNoTokens();
    }
    WrapWords(Tokens(ps));
  }

  /** The document ends with a newline. */
  lemma DocumentEndsWithNewline(width: nat, height: nat, ps: seq<Color>)
    ensures Document(width, height, ps) != [] && Document(width, height, ps)[|Document(width, height, ps)| - 1] == '\n'
  {
    var bl := BodyLines(ps);
    assert Body(ps) == JoinLines(bl[..|bl| - 1]) + bl[|bl| - 1] + "\n";
  }

  /**
   * The lines of the document are the three header lines, then the body lines,
   * then the empty piece after the final newline.
   */
  lemma DocumentLines(width: nat, height: nat, ps: seq<Color>)
    ensures Lines(Document(width, height, ps)) == HeaderLines(width, height) + BodyLines(ps) + [""]
  {
    var hl, bl, body := HeaderLines(width, height), BodyLines(ps), Body(ps);
    HeaderIsJoinedLines(width, height);
    assert Document(width, height, ps) == JoinLines(hl) + body;
    SegmentsOfJoin(hl, body, LineBreak);
    HeaderLinesFit(width, height);
    SegmentsOfPieces(hl, LineBreak);
    BodyLinesShape(ps);
    LinesOfJoin(bl);
  }

  lemma HeaderLinesFit(width: nat, height: nat)
    ensures forall k :: 0 <= k < |HeaderLines(width, height)| ==> NoneOf(HeaderLines(width, height)[k], LineBreak)
  {
    var hl := HeaderLines(width, height);
    DecimalIsWord(width);
    DecimalIsWord(height);
    JoinedNoneOf(Decimal(width), Decimal(height), LineBreak);
    assert NoneOf(hl[0], LineBreak) && NoneOf(hl[1], LineBreak) && NoneOf(hl[2], LineBreak);
  }

  /** The words of the header: the magic number, the width, the height and the maximum value. */
  lemma HeaderWords(width: nat, height: nat)
    ensures WordsOfLines(HeaderLines(width, height)) == ["P3", Decimal(width), Decimal(height), "255"]
  {
    var dims := Decimal(width) + " " + Decimal(height);
    WordsOfThreeLines("P3", dims, "255");
    DecimalIsWord(width);
    DecimalIsWord(height);
    WordsOfWord(Decimal(width));
    WordsAfterSpace(Decimal(width), Decimal(height));
    WordsOfWord("P3");
    WordsOfWord("255");
  }

  lemma WordsOfThreeLines(a: string, b: string, c: string)
    ensures WordsOfLines([a, b, c]) == Words(a) + Words(b) + Words(c)
  {
    assert [a, b, c] == [a, b] + [c];
    assert [a, b] == [a] + [b];
    assert [a] == [] + [a];
    WordsOfLinesSnoc([], a);
    WordsOfLinesSnoc([a], b);
    WordsOfLinesSnoc([a, b], c);
  }

  /**
   * The words of the document are the header's four and then the channel values,
   * three per pixel in storage order.
   */
  lemma DocumentWords(width: nat, height: nat, ps: seq<Color>)
    ensures Words(Document(width, height, ps)) == ["P3", Decimal(width), Decimal(height), "255"] + Tokens(ps)
  {
    var hl, bl := HeaderLines(width, height), BodyLines(ps);
    HeaderIsJoinedLines(width, height);
    BodyLinesShape(ps);
    WordsOfJoin(hl, Body(ps));
    WordsOfJoin(bl, "");
    assert JoinLines(bl) + "" == Body(ps);
    HeaderWords(width, height);
  }

  /** Everything a reader of the document can rely on, in one place. */
  lemma DocumentProperties(width: nat, height: nat, ps: seq<Color>)
    ensures |Document(width, height, ps)| > |Header(width, height)|
    ensures Document(width, height, ps)[..|Header(width, height)|] == "P3\n" + Decimal(width) + " " + Decimal(height) + "\n255\n"
    ensures Document(width, height, ps)[|Document(width, height, ps)| - 1] == '\n'
    ensures Lines(Document(width, height, ps)) == HeaderLines(width, height) + BodyLines(ps) + [""]
    ensures Words(Document(width, height, ps)) == ["P3", Decimal(width), Decimal(height), "255"] + Tokens(ps)
    ensures LinesFit(BodyLines(ps)) && LinesGreedy(BodyLines(ps))
    ensures ps != [] ==> LinesStart(BodyLines(ps))
  {
    DocumentLines(width, height, ps);
    DocumentWords(width, height, ps);
    BodyLinesShape(ps);
    DocumentEndsWithNewline(width, height, ps);
    assert Body(ps) != [];
  }

  /** The out-of-range channels of the serialiser's test are clamped. */
  lemma ChannelExamples()
    ensures Channel(1.5) == 255 && Channel(-1.5) == 0 && Channel(0.0) == 0
    ensures Channel(0.5) == 127 && Channel(1.0) == 255
  {
    ChannelIsClampedFloor(1.5);
    ChannelIsClampedFloor(-1.5);
    ChannelIsClampedFloor(0.0);
    ChannelIsClampedFloor(0.5);
    ChannelIsClampedFloor(1.0);
  }

  /** The colours of the serialiser's test, as written: clamped red, black, clamped blue. */
  lemma PixelTokensExamples()
    ensures PixelTokens(Color(1.5, 0.0, 0.0)) == ["255", "0", "0"]
    ensures PixelTokens(Color(0.0, -1.5, 0.0)) == ["0", "0", "0"]
    ensures PixelTokens(Color(0.0, 0.0, 1.5)) == ["0", "0", "255"]
    ensures PixelTokens(Default()) == ["0", "0", "0"]
  {
    ChannelExamples();
    DecimalExamples();
  }

  /** An empty canvas serialises to the header and a single newline. */
  lemma EmptyDocument(width: nat, height: nat)
    ensures Document(width, height, []) == Header(width, height) + "\n"
  {
  }
}
