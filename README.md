# rayray canvas and algebra, modelled in Dafny

This project models the core of `rayray`, a small ray tracer:

- **the `Canvas`:** a width-by-height grid of colours stored as one flat vector, column by column. Pixel (x, y) lives in slot `x * height + y`.
- **its plain-text PPM ("P3") serialiser `save_ppm`:** it writes the header `P3\n{w} {h}\n255\n` and then every colour channel in storage order. Each channel is scaled by 255, truncated to an integer and clamped to [0, 255]. The values are wrapped greedily into lines of at most 70 characters.
- **the componentwise algebra types:** `Color`, the homogeneous 4-tuple `Tuple3D`, `Point3D` (tagged w = 1) and `Vector3D` (tagged w = 0).

Modules:

- `Approx`: the epsilon comparisons that `PartialEq` uses.
- `Colors`, `Tuples`, `Vectors`, `Points`: the algebra. Components are real numbers.
- `Text`: strings as a reader of the file splits them into lines and words, and the decimal form of numbers.
- `Ppm`: a pure specification of the serialised document, which covers:
  - the header;
  - the channel values;
  - the greedy wrap;
  - the lines and the words of the result.
- `Canvases`: the class `Canvas` with `Put`, and `SavePpm`.
  - `SavePpm` is written as the source's loop over pixels and their three channels.
  - It is proved equal to `Ppm.Document`, and everything proved about the document carries over to its result.
  - The module also holds the three canvas tests, written as methods.

Notes on the code as written:

- **Truncation, not rounding.** The channel conversion `(c * 255.0) as i64` truncates toward zero; it does not round. `Ppm.Trunc` models the cast as written, and `Ppm.ChannelIsClampedFloor` shows that after clamping it equals the clamped floor. So 0.5 becomes 127, not 128.
- **Lines can reach 70 characters.** The wrap test `row.len() + pixel.len() >= 70` does not count the separating space, so a line can be exactly 70 characters long. The comment at `src/canvas.rs:40` says lines "should not exceed 70", and 70 meets that. The `save_ppm` test reaches it: its first body line is " 255" followed by 33 fields " 0", exactly 70 characters, one more than a reading of the limit as "at most 69" would allow (`Canvases.ScenarioLines`).
- **The first body line starts with a space.** `row` starts empty, and the else branch prepends `" "` even then.
- **Storage is column-major**, `x * height + y`. Neither `get` nor `put` checks that `y < height`, so the only real precondition is that the slot exists. The `save_ppm` test puts at (2, 5) on a 5-by-3 canvas. That is slot 11, the pixel (3, 2) (`Canvases.PositionAliasesNextColumn`).

## Model

| member | source | states |
|---|---|---|
| Approx.Abs | src/color.rs:19-21 | the absolute value used by every `eq`: non-negative, and either x or -x |
| Approx.CloseReflexive | src/color.rs:17-23 | a value is within EPSILON of itself, under both `<=` and `<` |
| Approx.CloseSymmetric | src/tuple3d.rs:34-41 | closeness is symmetric, under both `<=` and `<` |
| Colors.Default | src/color.rs:57-61 | the default colour is the identity of addition and the zero of the Hadamard product |
| Colors.Sub | src/color.rs:34-41 | adding `b` back to `a - b` gives `a` |
| Colors.SubUndoesAdd | src/color.rs:25-41 | `(a + b) - b == a` exactly |
| Colors.AddCommutes | src/color.rs:25-32 | colour addition is commutative |
| Colors.HadamardCommutes | src/color.rs:50-55 | colour times colour is commutative |
| Colors.ScaleIsHadamardByGrey | src/color.rs:43-55 | scaling by f is the Hadamard product with the grey (f, f, f) |
| Colors.EqReflexive | src/color.rs:17-23 | colour equality is reflexive |
| Colors.EqSymmetric | src/color.rs:17-23 | colour equality is symmetric |
| Colors.EqExample | src/color.rs:68-73 | the `colors_are_equal` test: (0.5,0.25,0.1) compares equal to (0.5,0.25,0.1) |
| Colors.AddExample | src/color.rs:75-81 | (0.9,0.6,0.75)+(0.7,0.1,0.25) is (1.6,0.7,1.0), unclamped |
| Colors.SubExample | src/color.rs:83-89 | (0.9,0.6,0.75)-(0.7,0.1,0.25) is (0.2,0.5,0.5) |
| Colors.ScaleExample | src/color.rs:91-96 | (0.2,0.3,0.4)*2 is (0.4,0.6,0.8) |
| Colors.HadamardExample | src/color.rs:98-104 | (1,0.2,0.4)*(0.9,1,1) is (0.9,0.2,0.4) |
| Tuples.Sub | src/tuple3d.rs:53-61 | adding `b` back to `a - b` gives `a`, in all four components |
| Tuples.Neg | src/tuple3d.rs:63-68 | the negation is the additive inverse, including w |
| Tuples.Div | src/tuple3d.rs:77-82 | for f ≠ 0, scaling the quotient back by f gives `t` |
| Tuples.SumOfSquares | src/tuple3d.rs:19-21 | the radicand of `magnitude` (all four squares) is non-negative |
| Tuples.SubUndoesAdd | src/tuple3d.rs:43-61 | `(a + b) - b == a` over all four components |
| Tuples.NegInvolutive | src/tuple3d.rs:63-68 | `-(-t) == t` |
| Tuples.NegIsScaleByMinusOne | src/tuple3d.rs:63-75 | negation is scaling by -1 |
| Tuples.DivIsScaleByReciprocal | src/tuple3d.rs:70-82 | for f ≠ 0, `t / f == t * (1/f)` |
| Tuples.DotSymmetric | src/tuple3d.rs:28-30 | the written `dot` is symmetric |
| Tuples.DotOfDirections | src/tuple3d.rs:28-30 | on w = 0 tuples the written `dot` is the 3-D dot product, and agrees with the corrected one |
| Tuples.DotAsWrittenIsNotSumOfSquares | src/tuple3d.rs:29 | the written `dot` of (0,0,0,1) with itself is 2, while its sum of squares is 1 |
| Tuples.DotAsWrittenWithZero | src/tuple3d.rs:29 | the written `dot` of (0,0,0,1) with Zero is 1, not 0 |
| Tuples.DotProductOfSelf | src/tuple3d.rs:19-30 | the corrected dot product of a tuple with itself is the radicand of `magnitude` |
| Tuples.DotProductBilinear | src/tuple3d.rs:28-30 | the corrected dot product is symmetric, additive, homogeneous and zero on Zero |
| Tuples.NegPreservesSumOfSquares | src/tuple3d.rs:19-21 | negation keeps the sum of squares |
| Tuples.EqReflexive | src/tuple3d.rs:34-41 | tuple equality is reflexive |
| Tuples.EqSymmetric | src/tuple3d.rs:34-41 | tuple equality is symmetric |
| Tuples.EqComparesW | src/tuple3d.rs:34-41 | tuple equality compares w strictly: a difference of EPSILON in w breaks it |
| Tuples.AddExample | src/tuple3d.rs:96-103 | (1,2,3,4)+(1,2,3,4) is (2,4,6,8) |
| Tuples.NegExample | src/tuple3d.rs:105-111 | -(1,2,3,-4) is (-1,-2,-3,4) |
| Tuples.ScaleExamples | src/tuple3d.rs:113-127 | (1,-2,3,-4) scaled by 3.5 and by 0.5 |
| Tuples.DivExample | src/tuple3d.rs:129-135 | (1,-2,3,-4)/2 is (0.5,-1,1.5,-2) |
| Tuples.DotExample | src/tuple3d.rs:137-143 | (1,2,3,0)·(2,3,4,0) is 20 |
| Vectors.New | src/vector3d.rs:14-16 | a new vector has the given x, y, z and is tagged w = 0 |
| Vectors.Add | src/vector3d.rs:45-52 | vector plus vector is tagged w = 0 |
| Vectors.Sub | src/vector3d.rs:54-61 | the difference is a direction, and adding `b` back gives every direction `a` |
| Vectors.Neg | src/vector3d.rs:63-68 | the negation is a direction and the additive inverse |
| Vectors.SumOfSquares | src/vector3d.rs:18-20 | the radicand of `magnitude` (x, y, z only) is non-negative |
| Vectors.AddCommutes | src/vector3d.rs:45-52 | vector addition is commutative |
| Vectors.NegInvolutive | src/vector3d.rs:63-68 | `-(-v) == v` for directions |
| Vectors.NegInvolutiveUpToEq | src/vector3d.rs:63-68 | `-(-v)` equals `v` under `eq` for every vector |
| Vectors.SumOfSquaresIgnoresW | src/vector3d.rs:18-20 | the sum of squares ignores w |
| Vectors.NegPreservesSumOfSquares | src/vector3d.rs:18-20 | negation keeps the sum of squares |
| Vectors.AgreesWithTuples | src/vector3d.rs:45-68 | on directions, add, sub, neg and the sum of squares agree with the tuple operations |
| Vectors.EqReflexive | src/vector3d.rs:28-34 | vector equality is reflexive |
| Vectors.EqSymmetric | src/vector3d.rs:28-34 | vector equality is symmetric |
| Vectors.EqIgnoresW | src/vector3d.rs:28-34 | vector equality ignores w |
| Vectors.AddExample | src/vector3d.rs:93-100 | (2,-4,3)+(2,-4,3) is (4,-8,6) |
| Vectors.SubExample | src/vector3d.rs:102-109 | (3,2,1)-(5,6,7) is (-2,-4,-6) |
| Vectors.NegExample | src/vector3d.rs:111-117 | -(3,-2,1) is (-3,2,-1) |
| Vectors.SumOfSquaresExamples | src/vector3d.rs:119-152 | the unit axes have sum of squares 1; (1,2,3) and its negation have 14 |
| Points.New | src/point3d.rs:14-16 | a new point has the given x, y, z and is tagged w = 1 |
| Points.AddVector | src/point3d.rs:27-34 | point plus vector is a point |
| Points.SubVector | src/point3d.rs:36-43 | point minus vector is a point; adding the vector back restores a tagged point |
| Points.SubPoint | src/point3d.rs:45-52 | point minus point is a vector `d`, and `q + d == p` |
| Points.VectorAddPoint | src/vector3d.rs:36-43 | vector plus point is a point |
| Points.AddThenSubVector | src/point3d.rs:27-43 | `(p + v) - v == p` exactly, for tagged points |
| Points.AddThenSubVectorUpToEq | src/point3d.rs:27-43 | `(p + v) - v` equals `p` under `eq` for every point |
| Points.VectorAddPointCommutes | src/vector3d.rs:36-43 | vector plus point is point plus vector |
| Points.SubPointAntisymmetric | src/point3d.rs:45-52 | `q - p == -(p - q)` |
| Points.AgreesWithTuples | src/point3d.rs:27-52 | on tagged values the typed operations are the tuple operations |
| Points.EqReflexive | src/point3d.rs:19-25 | point equality is reflexive |
| Points.EqSymmetric | src/point3d.rs:19-25 | point equality is symmetric |
| Points.EqIgnoresW | src/point3d.rs:19-25 | point equality ignores w |
| Points.AddVectorExample | src/point3d.rs:66-73 | the `point_plus_vector` test: (2,-4,3)+(2,-4,3) is the point (4,-8,6). The second ensures, vector plus point, is the model's own addition: no source test calls `Add<Point3D> for Vector3D`, because the test `vector_plus_point` (src/vector3d.rs:84-91) computes `p + v` |
| Points.SubPointExample | src/point3d.rs:75-82 | the points (3,2,1)-(5,6,7) give the vector (-2,-4,-6) |
| Points.SubVectorExample | src/point3d.rs:84-91 | the point (3,2,1) minus the vector (5,6,7) is the point (-2,-4,-6) |
| Text.Decimal | src/canvas.rs:68 | `to_string` prints digits only, with no leading zero |
| Text.DecimalRoundTrip | src/canvas.rs:68 | reading back the printed decimal gives the number |
| Text.DecimalLength | src/canvas.rs:68 | a value below 1000 prints as one to three digits |
| Ppm.HeaderIsJoinedLines | src/canvas.rs:36 | the header is the three lines "P3", "w h" and "255", each ended by a newline |
| Ppm.Trunc | src/canvas.rs:62-64 | `as i64` rounds toward zero |
| Ppm.Clamp | src/canvas.rs:62-64 | `min(max(n, 0), 255)`: in range, unchanged inside [0, 255], 0 below it, 255 above it |
| Ppm.Channel | src/canvas.rs:61-65 | every channel value lies in [0, 255] |
| Ppm.ChannelIsClampedFloor | src/canvas.rs:61-65 | the channel value is the clamped floor of c*255; 0 for c ≤ 0 and 255 for c ≥ 1 |
| Ppm.TokensSnoc | src/canvas.rs:60-79 | one more pixel appends its three values |
| Ppm.TokensLength | src/canvas.rs:60-79 | the value stream holds exactly three values per pixel |
| Ppm.TokensAt | src/canvas.rs:60-79 | values 3i to 3i+2 are the r, g, b of pixel i, in storage order |
| Ppm.TokenValue | src/canvas.rs:61-68 | each value reads back as its pixel's clamped channel, at most 255 |
| Ppm.TokensAreTokens | src/canvas.rs:61-68 | every value is a non-empty word shorter than 70 characters |
| Ppm.WrapExtend | src/canvas.rs:67-77 | one more value advances the wrap by one step |
| Ppm.EmitLines | src/canvas.rs:69-76 | a flush appends the value as a new line; otherwise the value joins the current row after a space |
| Ppm.WrapKeepsLines | src/canvas.rs:69-72 | a flushed line is never changed by later values: the lines after a prefix of the values begin the lines after all of them |
| Ppm.WrapLinesFit | src/canvas.rs:67-81 | every wrapped line is at most 70 characters and holds no newline |
| Ppm.WrapNoTokens | src/canvas.rs:80-81 | with no values the body is one empty line |
| Ppm.WrapLineStarts | src/canvas.rs:67-81 | with at least one value no line is empty, the first starts with a space and the others with a value |
| Ppm.WrapWords | src/canvas.rs:67-81 | the words of the wrapped lines are the values, in order, none lost or added |
| Ppm.WrapIsGreedy | src/canvas.rs:69 | every new line starts with a value that would have brought the previous line to 70 characters or more |
| Ppm.BodyLinesShape | src/canvas.rs:58-81 | the body lines fit, are greedy, are non-empty except for a zero-pixel canvas, and hold the values |
| Ppm.DocumentEndsWithNewline | src/canvas.rs:80-81 | the output ends with a newline |
| Ppm.DocumentLines | src/canvas.rs:36-89 | the lines of the output are the header's three, the body's, then the empty piece after the last newline |
| Ppm.HeaderWords | src/canvas.rs:36 | the header's words are "P3", the width, the height and "255" |
| Ppm.DocumentWords | src/canvas.rs:36-89 | the words of the output are the header's four and then 3 values per pixel in storage order |
| Ppm.DocumentProperties | src/canvas.rs:30-89 | everything above about the finished output, in one lemma |
| Ppm.ChannelExamples | src/canvas.rs:117-119 | 1.5 gives 255, -1.5 gives 0, 0.5 gives 127, 1.0 gives 255 |
| Ppm.PixelTokensExamples | src/canvas.rs:116-122 | the test's colours give "255 0 0", "0 0 0" and "0 0 255"; the default colour gives "0 0 0" |
| Ppm.EmptyDocument | src/canvas.rs:58-89 | a canvas with no pixels serialises to the header and a single newline |
| Canvases.PositionInBounds | src/canvas.rs:21 | an in-range (x, y) lands inside the w*h storage |
| Canvases.PositionOrdered | src/canvas.rs:21 | the slots of a column come before those of every later column |
| Canvases.PositionInjective | src/canvas.rs:21 | two pixels with y < height share a slot exactly when they are the same pixel |
| Canvases.PositionAliasesNextColumn | src/canvas.rs:21 | (x, y + height) is the slot of (x + 1, y): `y` is never bounds-checked |
| Canvases.Canvas.constructor | src/canvas.rs:15-17 | a new canvas has the given size, exactly w*h pixels, and every pixel is the default colour |
| Canvases.Canvas.Put | src/canvas.rs:20-28 | only slot x*height+y changes, to `c`; get(x, y) returns `c`; the size, the other pixels and the w*h invariant are unchanged |
| Canvases.Canvas.SavePpm | src/canvas.rs:30-89 | the output is the document: the exact header, then lines of at most 70 characters; it ends with a newline and its words are the header fields and 3 clamped values per pixel |
| Canvases.Canvas.BuildBody | src/canvas.rs:58-81 | the loop over pixels and channels builds exactly the specified body |
| Canvases.AppendValue | src/canvas.rs:68-76 | one pass of the inner loop: when the row and the value together reach 70 characters the row is flushed to `body` with a newline and the value starts a new row, otherwise it joins the row after a space; this is one step of the greedy wrap, and `body` stays the join of the flushed rows |
| Canvases.ColorGetScenario | src/canvas.rs:97-103 | a fresh 100-by-100 canvas reads black at (5, 5) |
| Canvases.ColorPutScenario | src/canvas.rs:105-112 | a colour put at (5, 5) reads back |
| Canvases.SavePpmScenario | src/canvas.rs:114-125 | the test's canvas serialises to the header lines "P3", "5 3", "255" and 45 values, with the clamped colours in slots 0, 5 and 11; its first body line is exactly 70 characters long |
| Canvases.ScenarioCanvas | src/canvas.rs:116-122 | the puts at (0, 0), (1, 2) and (2, 5) fill slots 0, 5 and 11 and leave the other twelve pixels black |
| Canvases.ScenarioWords | src/canvas.rs:114-125 | the words of the test's output: "P3 5 3 255", then 45 values, "255 0 0" first, "0 0 0" for slot 5 and "0 0 255" for slot 11 |
| Canvases.ScenarioLines | src/canvas.rs:114-125 | the lines of the test's output: the three header lines, then a first body line of exactly 70 characters |
| Canvases.ScenarioFirstLine | src/canvas.rs:67-77 | after " 255" and 33 fields " 0" the row has 70 characters, and the next "0" flushes it as the first line |

## Left out

- The file write in `save_ppm` (`src/canvas.rs:31`, `:83-90`) is I/O. `SavePpm` returns the assembled string `header + body` instead, and the path argument is dropped.
- The commented-out serialiser (`src/canvas.rs:43-56`) is dead code.
- Ownership is not modelled. `get` and `save_ppm` take `self` by value and consume the canvas; the model's `Get` and `SavePpm` leave it in place.
- The `u64` arithmetic is not modelled. `x * height + y` and `width * height` can overflow in the source, and the cast `as usize` can truncate; the model uses unbounded naturals.
- Out-of-range indexing panics in the source. The model states the condition for it as the precondition `Position(x, y, height) < |pixels|` of `Get` and `Put`.
- Components are real numbers, not IEEE doubles. As a result:
  - NaN, infinity and the saturating behaviour of `as i64` on huge values are not represented;
  - rounding in the algebra is not represented, so the decimal-literal tests hold exactly.
- `Tuples.Div` requires `f != 0`. In IEEE arithmetic, division by zero gives an infinity or NaN, which reals cannot express.
- `magnitude` and `normalize` (`src/tuple3d.rs:19-26`, `src/vector3d.rs:18-25`) use a floating-point square root. Only the sum of squares under the root is modelled, as `SumOfSquares`. The `normalize` tests (`src/vector3d.rs:154-167`) are left out for the same reason.
- The epsilon-equality tests (`src/tuple3d.rs:89-94`, `src/point3d.rs:59-64`, `src/vector3d.rs:77-82`) rely on IEEE rounding that absorbs `EPSILON` into 3.0. Over reals they do not hold, so they are left out.
- `EPSILON` is fixed at 2^-52, the value of `f64::EPSILON`. The proofs only use that it is positive.
- The driver programs `src/ch_01.rs` and `src/ch_02.rs` are glue code. They loop, print and save files, and they depend on `normalize`.
- `Canvas::get` is a function without a contract of its own. What it returns is stated by the ensures of `Canvas.Put` and of the constructor.
- These definitions have no contract of their own; the lemmas named beside each state their properties:
  - `Tuples.Add`, `Tuples.Scale`, `Colors.Add`, `Colors.Scale`, `Colors.Hadamard` (`src/tuple3d.rs:43-51`, `:70-75`; `src/color.rs:25-32`, `:43-55`): the componentwise operations. See the `SubUndoesAdd`, commutativity, `NegIsScaleByMinusOne`, `DivIsScaleByReciprocal` and `ScaleIsHadamardByGrey` lemmas and the test examples.
  - `Colors.Eq`, `Tuples.Eq`, `Vectors.Eq`, `Points.Eq` (`src/color.rs:17-23`, `src/tuple3d.rs:34-41`, `src/vector3d.rs:28-34`, `src/point3d.rs:19-25`): the `PartialEq` predicates. See the `EqReflexive`, `EqSymmetric`, `Tuples.EqComparesW`, `Vectors.EqIgnoresW` and `Points.EqIgnoresW` lemmas and `Colors.EqExample`.
  - `Tuples.Dot` (`src/tuple3d.rs:28-30`), the written `dot`: see `Tuples.DotSymmetric`, `Tuples.DotOfDirections`, `Tuples.DotAsWrittenIsNotSumOfSquares`, `Tuples.DotAsWrittenWithZero` and `Tuples.DotExample`. Its corrected partner `Tuples.DotProduct`: see `Tuples.DotProductOfSelf` and `Tuples.DotProductBilinear`.
  - `Canvases.Position` (`src/canvas.rs:21`, `:26`), the slot `x * height + y`: see `Canvases.PositionInBounds`, `PositionOrdered`, `PositionInjective` and `PositionAliasesNextColumn`.
  - `Ppm.Header` (`src/canvas.rs:36`): see `Ppm.HeaderIsJoinedLines`, `Ppm.HeaderWords` and `Ppm.DocumentProperties`.
  - `Ppm.PixelChannels`, `Ppm.PixelTokens`, `Ppm.Tokens` (`src/canvas.rs:60-68`): see `Ppm.TokensSnoc`, `TokensLength`, `TokensAt`, `TokenValue`, `TokensAreTokens` and `PixelTokensExamples`.
  - `Ppm.Emit` and `Ppm.Wrap` (`src/canvas.rs:67-77`): see `Ppm.EmitLines`, `WrapExtend`, `WrapKeepsLines`, `WrapLinesFit`, `WrapLineStarts`, `WrapWords` and `WrapIsGreedy`; `Canvases.AppendValue` and `Canvases.Canvas.BuildBody` are proved against them.
  - `Ppm.BodyLines`, `Ppm.Body`, `Ppm.Document` (`src/canvas.rs:58-89`): see `Ppm.BodyLinesShape`, `DocumentLines`, `DocumentWords`, `DocumentEndsWithNewline`, `DocumentProperties` and `EmptyDocument`; `Canvases.Canvas.SavePpm` is proved equal to `Ppm.Document`.

## Findings

| source | as written | input that shows it | evidently intended | confidence | as-written member | corrected member |
|---|---|---|---|---|---|---|
| src/tuple3d.rs:29 | `dot` ends with `+ (self.w + other.w)`, adding the w components | (0,0,0,1)·(0,0,0,1) gives 2, although the squared magnitude is 1; (0,0,0,1)·Zero gives 1, although it should be 0 | the product `self.w * other.w`, so that `dot` is bilinear and `t·t` is the squared magnitude | not executed | Tuples.Dot (with Tuples.DotAsWrittenIsNotSumOfSquares, Tuples.DotAsWrittenWithZero) | Tuples.DotProduct (with Tuples.DotProductOfSelf, Tuples.DotProductBilinear) |
