/** A width-by-height grid of colours stored column by column, and its PPM serialiser. */
module Canvases {
  import opened Colors
  import opened Text
  import opened Ppm

  /** Where pixel (x, y) lives in storage: column-major, `x * height + y`. */
  function Position(x: nat, y: nat, height: nat): nat {
    x * height + y
  }

  /** An in-range pixel lands inside the storage of a width-by-height canvas. */
  lemma PositionInBounds(x: nat, y: nat, width: nat, height: nat)
    requires x < width && y < height
    ensures Position(x, y, height) < width * height
  {
    assert x * height + height == (x + 1) * height;
    assert (x + 1) * height <= width * height by {
      MulMonotone(x + 1, width, height);
    }
  }

  lemma MulMonotone(a: nat, b: nat, c: nat)
    requires a <= b
    ensures a * c <= b * c
  {
  }

  /** Slots grow with the column: every slot of column x1 lies before every slot of a later column. */
  lemma PositionOrdered(x1: nat, y1: nat, x2: nat, y2: nat, height: nat)
    requires x1 < x2 && y1 < height
    ensures Position(x1, y1, height) < Position(x2, y2, height)
  {
    assert x1 * height + height == (x1 + 1) * height;
    MulMonotone(x1 + 1, x2, height);
  }

  /** Different in-range pixels never share a storage slot. */
  lemma PositionInjective(x1: nat, y1: nat, x2: nat, y2: nat, height: nat)
    requires y1 < height && y2 < height
    ensures Position(x1, y1, height) == Position(x2, y2, height) <==> x1 == x2 && y1 == y2
  {
    if x1 < x2 {
      PositionOrdered(x1, y1, x2, y2, height);
    } else if x2 < x1 {
      PositionOrdered(x2, y2, x1, y1, height);
    }
  }

  /** No bounds check on y: a row past the last one aliases the next column. */
  lemma PositionAliasesNextColumn(x: nat, y: nat, height: nat)
    ensures Position(x, y + height, height) == Position(x + 1, y, height)
  {
    assert (x + 1) * height == x * height + height;
  }

  /** `Canvas`: the fields `width`, `height` and the pixel vector. */
  class Canvas {
    var width: nat
    var height: nat
    var pixels: seq<Color>

    /** The pixel vector holds one colour per pixel. */
    ghost predicate Valid()
      reads this
    {
      |pixels| == width * height
    }

    /** `Canvas::new`: every pixel starts as the default (black) colour. */
    constructor (width: nat, height: nat)
      ensures this.width == width && this.height == height
      ensures Valid()
      ensures forall i :: 0 <= i < |pixels| ==> pixels[i] == Default()
    {
      this.width := width;
      this.height := height;
      pixels := seq(width * height, _ => Default());
    }

    /** `get`: the colour stored for (x, y); indexing out of range is a panic in the source. */
    function Get(x: nat, y: nat): Color
      reads this
      requires Position(x, y, height) < |pixels|
    {
      pixels[Position(x, y, height)]
    }

    /** `put`: overwrite the one slot of (x, y); nothing else changes. */
    method Put(x: nat, y: nat, c: Color)
      requires Position(x, y, height) < |pixels|
      modifies this
      ensures width == old(width) && height == old(height)
      ensures pixels == old(pixels)[Position(x, y, height) := c]
      ensures Get(x, y) == c
      ensures forall i :: 0 <= i < |pixels| && i != Position(x, y, height) ==> pixels[i] == old(pixels[i])
      ensures old(Valid()) ==> Valid()
      ensures forall x': nat, y': nat :: y' < height && Position(x', y', height) < |pixels| && (x', y') != (x, y) && y < height ==>
        Get(x', y') == old(Get(x', y'))
    {
      pixels := pixels[Position(x, y, height) := c];
      forall x': nat, y': nat | y' < height && Position(x', y', height) < |pixels| && (x', y') != (x, y) && y < height
        ensures Get(x', y') == old(Get(x', y'))
      {
        PositionInjective(x', y', x, y, height);
      }
    }

    /**
     * `save_ppm` without the file: the header, then the body. Its lines hold at most 70
     * characters, and read back as words they give the header fields and then every
     * clamped channel value in storage order.
     */
    method SavePpm() returns (ppm: string)
      ensures ppm == Document(width, height, pixels)
      ensures |ppm| > |Header(width, height)| && ppm[..|Header(width, height)|] == "P3\n" + Decimal(width) + " " + Decimal(height) + "\n255\n"
      ensures ppm[|ppm| - 1] == '\n'
      ensures Lines(ppm) == HeaderLines(width, height) + BodyLines(pixels) + [""]
      ensures Words(ppm) == ["P3", Decimal(width), Decimal(height), "255"] + Tokens(pixels)
      ensures LinesFit(BodyLines(pixels)) && LinesGreedy(BodyLines(pixels))
      ensures pixels != [] ==> LinesStart(BodyLines(pixels))
    {
      var header := "P3\n" + Decimal(width) + " " + Decimal(height) + "\n255\n";
      var body := BuildBody();
      ppm := header + body;
      DocumentProperties(width, height, pixels);
    }

    /**
     * The body loop of `save_ppm`: every channel value in storage order, appended to the
     * current row after a space, or to a fresh row once the row and the value together
     * would reach 70 characters; the last row and a newline close the body.
     */
    method BuildBody() returns (body: string)
      ensures body == Body(pixels)
    {
      body := "";
      var row := "";
      ghost var lines: seq<string> := [];
      var idx := 0;
      while idx < |pixels|
        invariant 0 <= idx <= |pixels|
        invariant WrapState(lines, row) == Wrap(Tokens(pixels[..idx]))
        invariant body == JoinLines(lines)
      {
        var color := pixels[idx];
        var channels := [Clamp(Trunc(color.r * 255.0)), Clamp(Trunc(color.g * 255.0)), Clamp(Trunc(color.b * 255.0))];
        assert channels == PixelChannels(color);
        ghost var done, pt := Tokens(pixels[..idx]), PixelTokens(color);
        assert done + pt[..0] == done;
        var k := 0;
        while k < 3
          invariant 0 <= k <= 3
          invariant WrapState(lines, row) == Wrap(done + pt[..k])
          invariant body == JoinLines(lines)
        {
          var pixel := Decimal(channels[k]);
          WrapExtend(done, pt, k);
          body, row, lines := AppendValue(body, row, pixel, lines);
          k := k + 1;
        }
        assert pt[..3] == pt;
        TokensSnoc(pixels, idx);
        idx := idx + 1;
      }
      assert pixels[..idx] == pixels;
      JoinLinesSnoc(lines, row);
      body := body + row;
      body := body + "\n";
    }
  }

  /**
   * One pass of the inner loop of `save_ppm`: if the row and the value together would reach
   * 70 characters, the row goes to the body with a newline and the value starts a new row;
   * otherwise a space and the value are appended to the row.
   */
  method AppendValue(body: string, row: string, pixel: string, ghost lines: seq<string>)
    returns (body': string, row': string, ghost lines': seq<string>)
    requires body == JoinLines(lines)
    ensures |row| + |pixel| >= MaxLineLength ==> body' == body + row + "\n" && row' == pixel
    ensures |row| + |pixel| < MaxLineLength ==> body' == body && row' == row + " " + pixel
    ensures WrapState(lines', row') == Emit(WrapState(lines, row), pixel)
    ensures body' == JoinLines(lines')
  {
    body', row', lines' := body, row, lines;
    if |row'| + |pixel| >= MaxLineLength {
      body' := body' + row';
      body' := body' + "\n";
      JoinLinesSnoc(lines', row');
      lines' := lines' + [row'];
      row' := "";
    } else {
      row' := row' + " ";
    }
    row' := row' + pixel;
  }

  /** The `color_get` test: a fresh canvas reads black everywhere. */
  method ColorGetScenario() returns (c1: Color)
    ensures c1 == Color(0.0, 0.0, 0.0)
    ensures Eq(c1, Color(0.0, 0.0, 0.0))
  {
    var cvs := new Canvas(100, 100);
    PositionInBounds(5, 5, 100, 100);
    c1 := cvs.Get(5, 5);
    EqReflexive(c1);
  }

  /** The `color_put` test: a stored colour reads back. */
  method ColorPutScenario() returns (c1: Color, c2: Color)
    ensures c1 == Color(0.1, 0.2, 0.3) && c2 == c1
    ensures Eq(c1, c2)
  {
    var cvs := new Canvas(100, 100);
    c1 := Color(0.1, 0.2, 0.3);
    PositionInBounds(5, 5, 100, 100);
    cvs.Put(5, 5, c1);
    c2 := cvs.Get(5, 5);
    EqReflexive(c1);
  }

  /**
   * The `save_ppm` test: three out-of-range colours on a 5-by-3 canvas, the last put at
   * row 5 of column 2, which is slot 11, the pixel (3, 2).
   */
  method SavePpmScenario() returns (ppm: string)
    ensures |Words(ppm)| == 4 + 45
    ensures Words(ppm)[..4] == ["P3", "5", "3", "255"]
    ensures Words(ppm)[4..7] == ["255", "0", "0"]
    ensures Words(ppm)[4 + 15..4 + 18] == ["0", "0", "0"]
    ensures Words(ppm)[4 + 33..4 + 36] == ["0", "0", "255"]
    ensures |Lines(ppm)| > 3 && Lines(ppm)[..3] == ["P3", "5 3", "255"]
    ensures |Lines(ppm)[3]| == 70
  {
    var cvs := new Canvas(5, 3);
    ghost var blank := cvs.pixels;
    var c1 := Color(1.5, 0.0, 0.0);
    var c2 := Color(0.0, -1.5, 0.0);
    var c3 := Color(0.0, 0.0, 1.5);
    cvs.Put(0, 0, c1);
    cvs.Put(1, 2, c2);
    assert cvs.pixels[0] == c1;
    PositionAliasesNextColumn(2, 2, 3);
    cvs.Put(2, 5, c3);
    ScenarioCanvas(blank, cvs.pixels);
    ppm := cvs.SavePpm();
    ScenarioWords(cvs.pixels, ppm);
    ScenarioLines(cvs.pixels, ppm);
  }

  /** The test's three puts on a black 5-by-3 canvas fill slots 0, 5 and 11 and leave the rest black. */
  lemma ScenarioCanvas(blank: seq<Color>, ps: seq<Color>)
    requires |blank| == 15 && forall i :: 0 <= i < |blank| ==> blank[i] == Default()
    requires ps == blank[Position(0, 0, 3) := Color(1.5, 0.0, 0.0)][Position(1, 2, 3) := Color(0.0, -1.5, 0.0)][Position(2, 5, 3) := Color(0.0, 0.0, 1.5)]
    ensures |ps| == 15
    ensures ps[0] == Color(1.5, 0.0, 0.0) && ps[5] == Color(0.0, -1.5, 0.0) && ps[11] == Color(0.0, 0.0, 1.5)
    ensures forall i :: 0 < i < 15 && i != 5 && i != 11 ==> ps[i] == Default()
  {
    assert Position(0, 0, 3) == 0 && Position(1, 2, 3) == 5 && Position(2, 5, 3) == 11;
  }

  /** The words of the test's output: the header fields, then 45 values with the clamped colours in slots 0, 5 and 11. */
  lemma ScenarioWords(ps: seq<Color>, ppm: string)
    requires |ps| == 15
    requires ps[0] == Color(1.5, 0.0, 0.0) && ps[5] == Color(0.0, -1.5, 0.0) && ps[11] == Color(0.0, 0.0, 1.5)
    requires forall i :: 0 < i < 15 && i != 5 && i != 11 ==> ps[i] == Default()
    requires ppm == Document(5, 3, ps)
    ensures |Words(ppm)| == 4 + 45
    ensures Words(ppm)[..4] == ["P3", "5", "3", "255"]
    ensures Words(ppm)[4..7] == ["255", "0", "0"]
    ensures Words(ppm)[4 + 15..4 + 18] == ["0", "0", "0"]
    ensures Words(ppm)[4 + 33..4 + 36] == ["0", "0", "255"]
  {
    DocumentWords(5, 3, ps);
    DecimalExamples();
    ScenarioTokens(ps);
    WordsOfScenario(Words(ppm), Tokens(ps));
  }

  /** The lines of the test's output: the three header lines, then a first body line of exactly 70 characters. */
  lemma ScenarioLines(ps: seq<Color>, ppm: string)
    requires |ps| == 15
    requires ps[0] == Color(1.5, 0.0, 0.0) && ps[5] == Color(0.0, -1.5, 0.0) && ps[11] == Color(0.0, 0.0, 1.5)
    requires forall i :: 0 < i < 15 && i != 5 && i != 11 ==> ps[i] == Default()
    requires ppm == Document(5, 3, ps)
    ensures |Lines(ppm)| > 3 && Lines(ppm)[..3] == ["P3", "5 3", "255"]
    ensures |Lines(ppm)[3]| == 70
  {
    DocumentLines(5, 3, ps);
    DecimalExamples();
    var hl, bl := HeaderLines(5, 3), BodyLines(ps);
    assert Decimal(5) + " " + Decimal(3) == "5 3" by {
      assert "5" + " " + "3" == "5 3";
    }
    assert Lines(ppm)[..3] == hl && Lines(ppm)[3] == bl[0];
    ScenarioTokens(ps);
    ScenarioFirstLine(Tokens(ps));
  }

  /** Leading "255" and then k zeros: nothing is flushed yet, and the row is " 255" and k times " 0". */
  lemma {:induction false} ScenarioFirstRow(toks: seq<string>, k: nat)
    requires k <= 33 && k < |toks|
    requires toks[0] == "255" && forall i :: 1 <= i <= k ==> toks[i] == "0"
    ensures Wrap(toks[..k + 1]).lines == [] && |Wrap(toks[..k + 1]).row| == 4 + 2 * k
  {
    assert toks[..k + 1] == toks[..k] + [toks[k]];
    WrapSnoc(toks[..k], toks[k]);
    if k == 0 {
      assert toks[..0] == [];
    } else {
      ScenarioFirstRow(toks, k - 1);
    }
  }

  /** With 34 zeros after the "255", the first line reaches exactly 70 characters before the 35th value flushes it. */
  lemma ScenarioFirstLine(toks: seq<string>)
    requires |toks| >= 35
    requires toks[0] == "255" && forall i :: 1 <= i < 35 ==> toks[i] == "0"
    ensures |AllLines(Wrap(toks))| > 1 && |AllLines(Wrap(toks))[0]| == 70
  {
    ScenarioFirstRow(toks, 33);
    assert toks[..35] == toks[..34] + [toks[34]];
    WrapSnoc(toks[..34], toks[34]);
    WrapKeepsLines(toks, 35);
  }

  lemma WordsOfScenario(w: seq<string>, toks: seq<string>)
    requires w == ["P3", "5", "3", "255"] + toks
    requires |toks| == 45
    requires toks[0..3] == ["255", "0", "0"] && toks[15..18] == ["0", "0", "0"] && toks[33..36] == ["0", "0", "255"]
    ensures |w| == 4 + 45
    ensures w[..4] == ["P3", "5", "3", "255"]
    ensures w[4..7] == ["255", "0", "0"]
    ensures w[4 + 15..4 + 18] == ["0", "0", "0"]
    ensures w[4 + 33..4 + 36] == ["0", "0", "255"]
  {
    assert w[4..] == toks;
  }

  /** The values of a 15-pixel canvas whose slots 0, 5 and 11 hold the test's colours. */
  lemma ScenarioTokens(ps: seq<Color>)
    requires |ps| == 15
    requires ps[0] == Color(1.5, 0.0, 0.0) && ps[5] == Color(0.0, -1.5, 0.0) && ps[11] == Color(0.0, 0.0, 1.5)
    requires forall i :: 0 < i < 15 && i != 5 && i != 11 ==> ps[i] == Default()
    ensures |Tokens(ps)| == 45
    ensures Tokens(ps)[0..3] == ["255", "0", "0"]
    ensures Tokens(ps)[15..18] == ["0", "0", "0"]
    ensures Tokens(ps)[33..36] == ["0", "0", "255"]
    ensures Tokens(ps)[0] == "255" && forall i :: 1 <= i < 35 ==> Tokens(ps)[i] == "0"
  {
    TokensAt(ps, 0);
    TokensAt(ps, 5);
    TokensAt(ps, 11);
    PixelTokensExamples();
    assert Tokens(ps)[0] == Tokens(ps)[0..3][0];
    forall i | 1 <= i < 35
      ensures Tokens(ps)[i] == "0"
    {
      var p := i / 3;
      TokensAt(ps, p);
      assert Tokens(ps)[i] == Tokens(ps)[3 * p..3 * p + 3][i - 3 * p];
    }
  }
}
