/** Placeholder tokens for images and their slices, and the bounds that are read back from the prompt. */
module ImagePlaceholder {
  import opened Arithmetic
  import opened Common
  import opened ImageSlicing
  import opened Sequences

  datatype Token = ImStart | ImEnd | SliceStart | SliceEnd | IdStart | IdEnd | Unk | Newline | Word(id: nat)

  // ----- reading bounds

  predicate IsStart(t: Token, newSchema: bool) {
    t == ImStart || (newSchema && t == SliceStart)
  }

  predicate IsEnd(t: Token, newSchema: bool) {
    t == ImEnd || (newSchema && t == SliceEnd)
  }

  /** One past each start token. */
  function Starts(tokens: seq<Token>, newSchema: bool): seq<nat> {
    if tokens == [] then []
    else
      var n := |tokens| - 1;
      Starts(tokens[..n], newSchema) + (if IsStart(tokens[n], newSchema) then [n + 1] else [])
  }

  function Ends(tokens: seq<Token>, newSchema: bool): seq<nat> {
    if tokens == [] then []
    else
      var n := |tokens| - 1;
      Ends(tokens[..n], newSchema) + (if IsEnd(tokens[n], newSchema) then [n] else [])
  }

  datatype Bound = Bound(start: nat, end: nat)

  /** `build_image_bound`: the k-th start with the k-th end; unequal counts raise. */
  method BuildImageBound(tokens: seq<Token>, newSchema: bool) returns (r: Option<seq<Bound>>)
    ensures r == Bounds(tokens, newSchema)
  {
    var starts, ends := [], [];
    for i := 0 to |tokens|
      invariant starts == Starts(tokens[..i], newSchema) && ends == Ends(tokens[..i], newSchema)
    {
      assert tokens[..i + 1][..i] == tokens[..i];
      if IsStart(tokens[i], newSchema) {
        starts := starts + [i + 1];
      }
      if IsEnd(tokens[i], newSchema) {
        ends := ends + [i];
      }
    }
    assert tokens[..|tokens|] == tokens;
    if |starts| != |ends| {
      return None;
    }
    return Some(seq(|starts|, k requires 0 <= k < |starts| => Bound(starts[k], ends[k])));
  }

  function Bounds(tokens: seq<Token>, newSchema: bool): Option<seq<Bound>> {
    var starts, ends := Starts(tokens, newSchema), Ends(tokens, newSchema);
    if |starts| != |ends| then None
    else Some(seq(|starts|, k requires 0 <= k < |starts| => Bound(starts[k], ends[k])))
  }

  // ----- writing placeholders

  function Unks(q: nat): seq<Token> {
    seq(q, _ => Unk)
  }

  function ImageBlock(q: nat): seq<Token> {
    [ImStart] + Unks(q) + [ImEnd]
  }

  function SliceBlock(q: nat, newSchema: bool): seq<Token> {
    if newSchema then [SliceStart] + Unks(q) + [SliceEnd] else ImageBlock(q)
  }

  method LinePlaceholder(cols: nat, q: nat, newSchema: bool) returns (tokens: seq<Token>)
    ensures tokens == Flatten(Slices(cols), q, newSchema)
  {
    tokens := [];
    for j := 0 to cols
      invariant tokens == Flatten(Slices(j), q, newSchema)
    {
      FlattenSnoc(Slices(j), Slice, q, newSchema);
      assert Slices(j + 1) == Slices(j) + [Slice];
      tokens := tokens + SliceBlock(q, newSchema);
    }
  }

  lemma LinesStep(cols: nat, i: nat, q: nat, newSchema: bool)
    ensures Flatten(Lines(cols, i + 1), q, newSchema) ==
            Flatten(Lines(cols, i), q, newSchema) + (if i > 0 then [Newline] else []) +
                Flatten(Slices(cols), q, newSchema)
  {
    if i > 0 {
      FlattenSnoc(Lines(cols, i), Text([Newline]), q, newSchema);
      FlattenAppend(Lines(cols, i) + [Text([Newline])], Slices(cols), q, newSchema);
    } else {
      assert Lines(cols, 1) == Slices(cols);
    }
  }

  lemma GridWrapped(g: Grid, q: nat)
    ensures Flatten(GridSegments(g, false), q, false) ==
              [SliceStart] + Flatten(Lines(g.cols, g.rows), q, false) + [SliceEnd]
  {
    var open := [Text([SliceStart])];
    FlattenSnoc([], Text([SliceStart]), q, false);
    assert open == [] + [Text([SliceStart])] && Flatten(open, q, false) == [SliceStart];
    FlattenAppend(open, Lines(g.cols, g.rows), q, false);
    FlattenSnoc(open + Lines(g.cols, g.rows), Text([SliceEnd]), q, false);
  }

  /** `rows` lines of `cols` slice placeholders, a newline between lines. */
  method GetGridPlaceholder(g: Grid, q: nat, newSchema: bool) returns (tokens: seq<Token>)
    ensures tokens == Flatten(GridSegments(g, newSchema), q, newSchema)
  {
    tokens := [];
    for i := 0 to g.rows
      invariant tokens == Flatten(Lines(g.cols, i), q, newSchema)
    {
      var line := LinePlaceholder(g.cols, q, newSchema);
      LinesStep(g.cols, i, q, newSchema);
      tokens := tokens + (if i > 0 then [Newline] else []) + line;
    }
    if !newSchema {
      GridWrapped(g, q);
      tokens := [SliceStart] + tokens + [SliceEnd];
    }
  }

  /** A piece of prompt: ordinary tokens, the placeholder of a whole image, or that of a slice. */
  datatype Segment = Text(tokens: seq<Token>) | Image | Slice

  function TokensOf(s: Segment, q: nat, newSchema: bool): seq<Token> {
    match s
    case Text(tokens) => tokens
    case Image => ImageBlock(q)
    case Slice => SliceBlock(q, newSchema)
  }

  function TokensOfAll(segments: seq<Segment>, q: nat, newSchema: bool): seq<seq<Token>> {
    seq(|segments|, i requires 0 <= i < |segments| => TokensOf(segments[i], q, newSchema))
  }

  function Flatten(segments: seq<Segment>, q: nat, newSchema: bool): seq<Token> {
    Join(TokensOfAll(segments, q, newSchema))
  }

  function Slices(n: nat): seq<Segment> {
    seq(n, _ => Slice)
  }

  function Lines(cols: nat, rows: nat): seq<Segment> {
    if rows == 0 then []
    else Lines(cols, rows - 1) + (if rows > 1 then [Text([Newline])] else []) + Slices(cols)
  }

  function GridSegments(g: Grid, newSchema: bool): seq<Segment> {
    if newSchema then Lines(g.cols, g.rows)
    else [Text([SliceStart])] + Lines(g.cols, g.rows) + [Text([SliceEnd])]
  }

  lemma FlattenSnoc(segments: seq<Segment>, s: Segment, q: nat, newSchema: bool)
    ensures Flatten(segments + [s], q, newSchema) == Flatten(segments, q, newSchema) + TokensOf(s, q, newSchema)
  {
    JoinSnoc(TokensOfAll(segments, q, newSchema), TokensOf(s, q, newSchema));
    assert TokensOfAll(segments + [s], q, newSchema) ==
        TokensOfAll(segments, q, newSchema) + [TokensOf(s, q, newSchema)];
  }

  lemma FlattenAppend(a: seq<Segment>, b: seq<Segment>, q: nat, newSchema: bool)
    ensures Flatten(a + b, q, newSchema) == Flatten(a, q, newSchema) + Flatten(b, q, newSchema)
  {
    JoinAppend(TokensOfAll(a, q, newSchema), TokensOfAll(b, q, newSchema));
    assert TokensOfAll(a + b, q, newSchema) == TokensOfAll(a, q, newSchema) + TokensOfAll(b, q, newSchema);
  }

  // ----- bounds of a prompt

  function Pictures(segments: seq<Segment>): nat {
    if segments == [] then 0
    else Pictures(segments[..|segments| - 1]) + (if segments[|segments| - 1].Text? then 0 else 1)
  }

  ghost predicate PlainTokens(tokens: seq<Token>, newSchema: bool) {
    forall t :: t in tokens ==> !IsStart(t, newSchema) && !IsEnd(t, newSchema)
  }

  ghost predicate PlainTexts(segments: seq<Segment>, newSchema: bool) {
    forall i :: 0 <= i < |segments| && segments[i].Text? ==> PlainTokens(segments[i].tokens, newSchema)
  }

  lemma {:induction false} PlainAppend(tokens: seq<Token>, more: seq<Token>, newSchema: bool)
    requires PlainTokens(more, newSchema)
    ensures Starts(tokens + more, newSchema) == Starts(tokens, newSchema)
    ensures Ends(tokens + more, newSchema) == Ends(tokens, newSchema)
    decreases |more|
  {
    if more == [] {
      assert tokens + more == tokens;
    } else {
      var n := |more| - 1;
      PlainAppend(tokens, more[..n], newSchema);
      assert (tokens + more)[..|tokens + more| - 1] == tokens + more[..n];
      assert more[n] in more;
    }
  }

  lemma TokenAppend(tokens: seq<Token>, t: Token, newSchema: bool)
    ensures Starts(tokens + [t], newSchema) ==
              Starts(tokens, newSchema) + (if IsStart(t, newSchema) then [|tokens| + 1] else [])
    ensures Ends(tokens + [t], newSchema) == Ends(tokens, newSchema) + (if IsEnd(t, newSchema) then [|tokens|] else [])
  {
    assert (tokens + [t])[..|tokens|] == tokens;
  }

  lemma OpenAppend(tokens: seq<Token>, first: seq<Token>, after: seq<Token>, q: nat, newSchema: bool)
    requires |first| == |tokens| + 1 && first == tokens + [first[|tokens|]] && after == first + Unks(q)
    requires IsStart(first[|tokens|], newSchema)
    ensures Starts(after, newSchema) == Starts(tokens, newSchema) + [|tokens| + 1]
    ensures Ends(after, newSchema) == Ends(tokens, newSchema)
  {
    TokenAppend(tokens, first[|tokens|], newSchema);
    PlainAppend(first, Unks(q), newSchema);
  }

  lemma CloseAppend(tokens: seq<Token>, close: Token, newSchema: bool)
    requires IsEnd(close, newSchema)
    ensures Starts(tokens + [close], newSchema) == Starts(tokens, newSchema)
    ensures Ends(tokens + [close], newSchema) == Ends(tokens, newSchema) + [|tokens|]
  {
    TokenAppend(tokens, close, newSchema);
  }

  function Opener(s: Segment, newSchema: bool): Token {
    if s.Slice? && newSchema then SliceStart else ImStart
  }

  function Closer(s: Segment, newSchema: bool): Token {
    if s.Slice? && newSchema then SliceEnd else ImEnd
  }

  lemma BlockShape(tokens: seq<Token>, s: Segment, q: nat, newSchema: bool)
    requires !s.Text?
    ensures var middle := (tokens + [Opener(s, newSchema)]) + Unks(q);
      && tokens + TokensOf(s, q, newSchema) == middle + [Closer(s, newSchema)] && |middle| == |tokens| + 1 + q
      && (middle + [Closer(s, newSchema)])[|tokens| + 1..|tokens| + 1 + q] == Unks(q)
  {
  }

  lemma BracketAppend(
    tokens: seq<Token>, first: seq<Token>, middle: seq<Token>, after: seq<Token>, q: nat, newSchema: bool)
    requires |first| == |tokens| + 1 && first == tokens + [first[|tokens|]] && middle == first + Unks(q)
    requires |after| == |middle| + 1 && after == middle + [after[|middle|]]
    requires IsStart(first[|tokens|], newSchema) && IsEnd(after[|middle|], newSchema)
    ensures Starts(after, newSchema) == Starts(tokens, newSchema) + [|tokens| + 1]
    ensures Ends(after, newSchema) == Ends(tokens, newSchema) + [|tokens| + 1 + q]
  {
    OpenAppend(tokens, first, middle, q, newSchema);
    CloseAppend(middle, after[|middle|], newSchema);
  }

  /** A picture's tokens add one start and one end, around its query tokens. */
  lemma BlockAppend(tokens: seq<Token>, s: Segment, q: nat, newSchema: bool)
    requires !s.Text?
    ensures var after := tokens + TokensOf(s, q, newSchema);
      && Starts(after, newSchema) == Starts(tokens, newSchema) + [|tokens| + 1]
      && Ends(after, newSchema) == Ends(tokens, newSchema) + [|tokens| + 1 + q]
      && |after| == |tokens| + q + 2 && after[|tokens| + 1..|tokens| + 1 + q] == Unks(q)
  {
    var first := tokens + [Opener(s, newSchema)];
    var middle := first + Unks(q);
    BlockShape(tokens, s, q, newSchema);
    BracketAppend(tokens, first, middle, middle + [Closer(s, newSchema)], q, newSchema);
  }

  /** Each bound delimits exactly the q query tokens of one picture. */
  ghost predicate Delimits(tokens: seq<Token>, b: Bound, q: nat) {
    b.start <= b.end <= |tokens| && b.end - b.start == q && tokens[b.start..b.end] == Unks(q)
  }

  ghost predicate Paired(tokens: seq<Token>, starts: seq<nat>, ends: seq<nat>, q: nat) {
    |starts| == |ends| && forall k :: 0 <= k < |starts| ==> Delimits(tokens, Bound(starts[k], ends[k]), q)
  }

  lemma PairedExtend(tokens: seq<Token>, more: seq<Token>, starts: seq<nat>, ends: seq<nat>, q: nat)
    requires Paired(tokens, starts, ends, q)
    ensures Paired(tokens + more, starts, ends, q)
  {
    forall k | 0 <= k < |starts|
      ensures Delimits(tokens + more, Bound(starts[k], ends[k]), q)
    {
      assert Delimits(tokens, Bound(starts[k], ends[k]), q);
      assert (tokens + more)[starts[k]..ends[k]] == tokens[starts[k]..ends[k]];
    }
  }

  lemma LastPaired(init: seq<Token>, last: Segment, q: nat, newSchema: bool)
    requires Paired(init, Starts(init, newSchema), Ends(init, newSchema), q)
    requires last.Text? ==> PlainTokens(last.tokens, newSchema)
    ensures var tokens := init + TokensOf(last, q, newSchema);
      && Paired(tokens, Starts(tokens, newSchema), Ends(tokens, newSchema), q)
      && |Starts(tokens, newSchema)| == |Starts(init, newSchema)| + if last.Text? then 0 else 1
  {
    PairedExtend(init, TokensOf(last, q, newSchema), Starts(init, newSchema), Ends(init, newSchema), q);
    if last.Text? {
      PlainAppend(init, last.tokens, newSchema);
    } else {
      BlockAppend(init, last, q, newSchema);
    }
  }

  lemma {:induction false} SegmentsPaired(segments: seq<Segment>, q: nat, newSchema: bool)
    requires PlainTexts(segments, newSchema)
    ensures var tokens := Flatten(segments, q, newSchema);
      && Paired(tokens, Starts(tokens, newSchema), Ends(tokens, newSchema), q)
      && |Starts(tokens, newSchema)| == Pictures(segments)
    decreases |segments|
  {
    if segments == [] {
    } else {
      var n := |segments| - 1;
      SegmentsPaired(segments[..n], q, newSchema);
      FlattenSnoc(segments[..n], segments[n], q, newSchema);
      assert segments == segments[..n] + [segments[n]];
      LastPaired(Flatten(segments[..n], q, newSchema), segments[n], q, newSchema);
    }
  }

  /** Reading the bounds never fails and gives one bound a picture, around its query tokens. */
  lemma BoundsOfSegments(segments: seq<Segment>, q: nat, newSchema: bool)
    requires PlainTexts(segments, newSchema)
    ensures var r := Bounds(Flatten(segments, q, newSchema), newSchema);
      && r.Some? && |r.value| == Pictures(segments)
      && forall k :: 0 <= k < |r.value| ==> Delimits(Flatten(segments, q, newSchema), r.value[k], q)
  {
    SegmentsPaired(segments, q, newSchema);
  }

  // ----- what stands around a bound

  /** The pictures among the segments: whole images and slices. */
  function Kinds(segments: seq<Segment>): seq<Segment> {
    if segments == [] then []
    else
      var last := segments[|segments| - 1];
      Kinds(segments[..|segments| - 1]) + if last.Text? then [] else [last]
  }

  lemma {:induction false} KindsAppend(a: seq<Segment>, b: seq<Segment>)
    ensures Kinds(a + b) == Kinds(a) + Kinds(b)
    decreases |b|
  {
    if b == [] {
      assert a + b == a;
    } else {
      KindsAppend(a, b[..|b| - 1]);
      assert (a + b)[..|a + b| - 1] == a + b[..|b| - 1];
    }
  }

  lemma OneKind(segment: Segment)
    ensures Kinds([segment]) == if segment.Text? then [] else [segment]
  {
    assert [segment][..0] == [];
  }

  /** In front of and behind each pair of places stand the marks of its picture's kind. */
  ghost predicate Marked(tokens: seq<Token>, starts: seq<nat>, ends: seq<nat>, kinds: seq<Segment>, newSchema: bool) {
    |starts| == |ends| == |kinds| && forall k :: 0 <= k < |starts| ==>
      && 0 < starts[k] <= |tokens| && ends[k] < |tokens|
      && tokens[starts[k] - 1] == (if kinds[k].Slice? && newSchema then SliceStart else ImStart)
      && tokens[ends[k]] == (if kinds[k].Slice? && newSchema then SliceEnd else ImEnd)
  }

  lemma LastMarked(init: seq<Token>, last: Segment, kinds: seq<Segment>, q: nat, newSchema: bool)
    requires Marked(init, Starts(init, newSchema), Ends(init, newSchema), kinds, newSchema)
    requires last.Text? ==> PlainTokens(last.tokens, newSchema)
    ensures var tokens := init + TokensOf(last, q, newSchema);
            Marked(tokens, Starts(tokens, newSchema), Ends(tokens, newSchema),
                   kinds + if last.Text? then [] else [last], newSchema)
  {
    if last.Text? {
      PlainAppend(init, last.tokens, newSchema);
    } else {
      BlockAppend(init, last, q, newSchema);
      BlockShape(init, last, q, newSchema);
    }
  }

  lemma {:induction false} SegmentsMarked(segments: seq<Segment>, q: nat, newSchema: bool)
    requires PlainTexts(segments, newSchema)
    ensures var tokens := Flatten(segments, q, newSchema);
            Marked(tokens, Starts(tokens, newSchema), Ends(tokens, newSchema), Kinds(segments), newSchema)
    decreases |segments|
  {
    if segments == [] {
    } else {
      var n := |segments| - 1;
      SegmentsMarked(segments[..n], q, newSchema);
      FlattenSnoc(segments[..n], segments[n], q, newSchema);
      assert segments == segments[..n] + [segments[n]];
      LastMarked(Flatten(segments[..n], q, newSchema), segments[n], Kinds(segments[..n]), q, newSchema);
    }
  }

  // ----- the layout of a grid

  /** Line `r` of a grid stands behind `r` lines and line breaks, its slices one after another, its break at the end. */
  lemma {:induction false} GridLayout(cols: nat, rows: nat, r: nat, c: nat)
    requires r < rows && c < cols
    ensures |Lines(cols, rows)| == rows * (cols + 1) - 1
    ensures 0 <= r * (cols + 1) + c < |Lines(cols, rows)| && Lines(cols, rows)[r * (cols + 1) + c] == Slice
    ensures r < rows - 1 ==>
              0 <= r * (cols + 1) + cols < |Lines(cols, rows)| &&
              Lines(cols, rows)[r * (cols + 1) + cols] == Text([Newline])
    decreases rows
  {
    MulSucc(rows - 1, cols + 1);
    MulSucc(r, cols + 1);
    MulMonotone(r, rows - 1, cols + 1);
    LinesLength(cols, rows);
    if r < rows - 1 {
      LinesLength(cols, rows - 1);
      MulMonotone(r + 1, rows - 1, cols + 1);
      GridLayout(cols, rows - 1, r, c);
    } else if rows > 1 {
      LinesLength(cols, rows - 1);
    }
  }

  lemma {:induction false} LinesLength(cols: nat, rows: nat)
    requires rows > 0
    ensures |Lines(cols, rows)| == rows * (cols + 1) - 1
    decreases rows
  {
    MulSucc(rows - 1, cols + 1);
    if rows > 1 {
      LinesLength(cols, rows - 1);
    } else {
      assert Lines(cols, 1) == [] + [] + Slices(cols);
    }
  }

  lemma {:induction false} LinesKinds(cols: nat, rows: nat, count: nat)
    requires count == rows * cols
    ensures Kinds(Lines(cols, rows)) == Slices(count)
    decreases rows
  {
    if rows == 0 {
    } else {
      MulSucc(rows - 1, cols);
      LinesKinds(cols, rows - 1, count - cols);
      LineKinds(Lines(cols, rows - 1), cols, rows > 1);
      assert Slices(count - cols) + Slices(cols) == Slices(count);
    }
  }

  lemma LineKinds(lines: seq<Segment>, cols: nat, broken: bool)
    ensures Kinds(lines + (if broken then [Text([Newline])] else []) + Slices(cols)) == Kinds(lines) + Slices(cols)
  {
    var breaks: seq<Segment> := if broken then [Text([Newline])] else [];
    KindsAppend(lines + breaks, Slices(cols));
    KindsAppend(lines, breaks);
    OneKind(Text([Newline]));
    SlicesKinds(cols);
  }

  lemma {:induction false} SlicesKinds(n: nat)
    ensures Kinds(Slices(n)) == Slices(n)
  {
    if n == 0 {
    } else {
      SlicesKinds(n - 1);
      assert Slices(n)[..n - 1] == Slices(n - 1);
    }
  }

  lemma GridKinds(g: Grid, newSchema: bool)
    ensures Kinds(GridSegments(g, newSchema)) == Slices(g.rows * g.cols)
  {
    LinesKinds(g.cols, g.rows, g.rows * g.cols);
    if !newSchema {
      KindsAppend([Text([SliceStart])], Lines(g.cols, g.rows));
      KindsAppend([Text([SliceStart])] + Lines(g.cols, g.rows), [Text([SliceEnd])]);
      OneKind(Text([SliceStart]));
      OneKind(Text([SliceEnd]));
    }
  }

  // ----- counting pictures

  lemma {:induction false} PicturesAppend(a: seq<Segment>, b: seq<Segment>)
    ensures Pictures(a + b) == Pictures(a) + Pictures(b)
    decreases |b|
  {
    if b == [] {
      assert a + b == a;
    } else {
      PicturesAppend(a, b[..|b| - 1]);
      assert (a + b)[..|a + b| - 1] == a + b[..|b| - 1];
    }
  }

  lemma {:induction false} PicturesOfSlices(n: nat)
    ensures Pictures(Slices(n)) == n
  {
    if n == 0 {
    } else {
      PicturesOfSlices(n - 1);
      assert Slices(n)[..n - 1] == Slices(n - 1);
    }
  }

  lemma OneText(tokens: seq<Token>)
    ensures Pictures([Text(tokens)]) == 0
  {
    assert [Text(tokens)][..0] == [];
  }

  lemma {:induction false} PicturesOfLines(cols: nat, rows: nat)
    ensures Pictures(Lines(cols, rows)) == rows * cols
  {
    if rows == 0 {
    } else {
      PicturesOfLines(cols, rows - 1);
      MulSucc(rows - 1, cols);
      var newline := if rows > 1 then [Text([Newline])] else [];
      OneText([Newline]);
      PicturesAppend(Lines(cols, rows - 1), newline);
      PicturesOfSlices(cols);
      PicturesAppend(Lines(cols, rows - 1) + newline, Slices(cols));
    }
  }

  lemma PicturesOfGrid(g: Grid, newSchema: bool)
    ensures Pictures(GridSegments(g, newSchema)) == g.rows * g.cols
  {
    PicturesOfLines(g.cols, g.rows);
    if !newSchema {
      OneText([SliceStart]);
      OneText([SliceEnd]);
      PicturesAppend([Text([SliceStart])], Lines(g.cols, g.rows));
      PicturesAppend([Text([SliceStart])] + Lines(g.cols, g.rows), [Text([SliceEnd])]);
    }
  }

  lemma {:induction false} LinesPlain(cols: nat, rows: nat, newSchema: bool)
    ensures PlainTexts(Lines(cols, rows), newSchema)
  {
    if rows == 0 {
    } else {
      LinesPlain(cols, rows - 1, newSchema);
    }
  }

  lemma GridPlain(g: Grid, newSchema: bool)
    ensures PlainTexts(GridSegments(g, newSchema), newSchema)
  {
    LinesPlain(g.cols, g.rows, newSchema);
  }

  // ----- the images of a prompt

  /** What slicing made of an image: nothing more than itself, or a grid of patches. */
  datatype Sliced = Whole | Cut(grid: Grid)

  function ImageCount(s: Sliced): nat {
    1 + if s.Cut? then s.grid.rows * s.grid.cols else 0
  }

  function ImageTotal(images: seq<Sliced>): nat {
    if images == [] then 0 else ImageTotal(images[..|images| - 1]) + ImageCount(images[|images| - 1])
  }

  /** The placeholder of one image on the slicing path; the id is added only to sliced images. */
  function Placeholder(s: Sliced, id: nat, newSchema: bool): seq<Segment> {
    match s
    case Whole => [Image]
    case Cut(g) => [Text(IdTokens(id, newSchema))] + [Image] + GridSegments(g, newSchema)
  }

  lemma PlainTextsAppend(a: seq<Segment>, b: seq<Segment>, newSchema: bool)
    requires PlainTexts(a, newSchema) && PlainTexts(b, newSchema)
    ensures PlainTexts(a + b, newSchema)
  {
  }

  lemma PlaceholderFacts(s: Sliced, id: nat, newSchema: bool)
    ensures PlainTexts(Placeholder(s, id, newSchema), newSchema)
    ensures Pictures(Placeholder(s, id, newSchema)) == ImageCount(s)
  {
    assert [Image][..0] == [] && Pictures([Image]) == 1;
    if s.Cut? {
      var grid := GridSegments(s.grid, newSchema);
      var front := [Text(IdTokens(id, newSchema))];
      OneText(IdTokens(id, newSchema));
      PicturesAppend(front, [Image]);
      PicturesAppend(front + [Image], grid);
      PicturesOfGrid(s.grid, newSchema);
      GridPlain(s.grid, newSchema);
      PlainTextsAppend(front + [Image], grid, newSchema);
    }
  }

  function IdTokens(id: nat, newSchema: bool): seq<Token> {
    if newSchema then [IdStart, Word(id), IdEnd] else []
  }

  lemma PlaceholderTokens(g: Grid, id: nat, q: nat, newSchema: bool)
    ensures Flatten(Placeholder(Cut(g), id, newSchema), q, newSchema) ==
            IdTokens(id, newSchema) + ImageBlock(q) + Flatten(GridSegments(g, newSchema), q, newSchema)
  {
    var front := [Text(IdTokens(id, newSchema))];
    FlattenSnoc([], front[0], q, newSchema);
    assert [] + [front[0]] == front && [] + IdTokens(id, newSchema) == IdTokens(id, newSchema);
    FlattenSnoc(front, Image, q, newSchema);
    FlattenAppend(front + [Image], GridSegments(g, newSchema), q, newSchema);
  }

  /** In the new schema a sliced image is announced by its id; the whole image comes first, then its grid. */
  lemma SlicedPlaceholder(g: Grid, id: nat, q: nat)
    ensures Flatten(Placeholder(Cut(g), id, true), q, true) ==
            [IdStart, Word(id), IdEnd] + [ImStart] + seq(q, _ => Unk) + [ImEnd] +
                Flatten(Lines(g.cols, g.rows), q, true)
    ensures Flatten(Placeholder(Cut(g), id, false), q, false) ==
            [ImStart] + seq(q, _ => Unk) + [ImEnd] +
              ([SliceStart] + Flatten(Lines(g.cols, g.rows), q, false) + [SliceEnd])
  {
    PlaceholderTokens(g, id, q, true);
    PlaceholderTokens(g, id, q, false);
    GridWrapped(g, q);
  }

  /** The placeholder of one image, and the images it stands for. */
  method OnePlaceholder(s: Sliced, id: nat, q: nat, newSchema: bool) returns (tokens: seq<Token>)
    ensures tokens == Flatten(Placeholder(s, id, newSchema), q, newSchema)
  {
    match s {
      case Whole =>
        FlattenSnoc([], Image, q, newSchema);
        assert [] + [Image] == [Image] && [] + ImageBlock(q) == ImageBlock(q);
        tokens := ImageBlock(q);
      case Cut(g) =>
        PlaceholderTokens(g, id, q, newSchema);
        var grid := GetGridPlaceholder(g, q, newSchema);
        tokens := IdTokens(id, newSchema) + ImageBlock(q) + grid;
    }
  }

  /** One image handed to the vision encoder: image `no` as a whole, or one of its patches. */
  datatype Picture = Source(no: nat) | Patch(no: nat, row: nat, col: nat)

  /** The patches of the first rows of a grid, row by row. */
  function PatchRows(no: nat, cols: nat, rows: nat): seq<Picture> {
    Join(seq(rows, row requires 0 <= row < rows => PatchRow(no, cols, row)))
  }

  function PatchRow(no: nat, cols: nat, row: nat): seq<Picture> {
    seq(cols, col requires 0 <= col < cols => Patch(no, row, col))
  }

  function PicturesOf(s: Sliced, no: nat): seq<Picture> {
    [Source(no)] + if s.Cut? then PatchRows(no, s.grid.cols, s.grid.rows) else []
  }

  /** Whole images stand as images, patches as slices. */
  function KindsOf(pictures: seq<Picture>): seq<Segment> {
    seq(|pictures|, k requires 0 <= k < |pictures| => if pictures[k].Patch? then Slice else Image)
  }

  /** The patch in row `r` and column `c` comes after the image and the patches of the rows above, in its place. */
  lemma PatchAtPlace(g: Grid, no: nat, r: nat, c: nat)
    requires r < g.rows && c < g.cols
    ensures PicturesOf(Cut(g), no)[0] == Source(no)
    ensures 0 <= r * g.cols + c && 1 + r * g.cols + c < |PicturesOf(Cut(g), no)|
    ensures PicturesOf(Cut(g), no)[1 + r * g.cols + c] == Patch(no, r, c)
  {
    GroupIndex(r, c, g.rows, g.cols);
    PatchRowsCount(no, g.cols, g.rows);
    PatchRowsAt(no, g.cols, g.rows, r, c);
  }

  lemma {:induction false} PatchRowsAt(no: nat, cols: nat, rows: nat, r: nat, c: nat)
    requires r < rows && c < cols
    ensures |PatchRows(no, cols, rows)| == rows * cols && 0 <= r * cols + c < rows * cols
    ensures PatchRows(no, cols, rows)[r * cols + c] == Patch(no, r, c)
    decreases rows
  {
    GroupIndex(r, c, rows, cols);
    PatchRowsCount(no, cols, rows);
    PatchRowsCount(no, cols, rows - 1);
    PatchRowsStep(no, cols, rows - 1);
    if r < rows - 1 {
      PatchRowsAt(no, cols, rows - 1, r, c);
    }
  }

  lemma {:induction false} PatchRowsKinds(no: nat, cols: nat, rows: nat)
    ensures KindsOf(PatchRows(no, cols, rows)) == Slices(rows * cols)
  {
    PatchRowsCount(no, cols, rows);
    forall k | 0 <= k < rows * cols
      ensures PatchRows(no, cols, rows)[k].Patch?
    {
      GroupOfIndex(k, rows, cols);
      PatchRowsAt(no, cols, rows, k / cols, k % cols);
    }
  }

  lemma FrontKinds(text: seq<Token>, grid: seq<Segment>)
    ensures Kinds([Text(text)] + [Image] + grid) == [Image] + Kinds(grid)
  {
    OneKind(Text(text));
    OneKind(Image);
    KindsAppend([Text(text)], [Image]);
    KindsAppend([Text(text)] + [Image], grid);
  }

  lemma PlaceholderKinds(s: Sliced, id: nat, no: nat, newSchema: bool)
    ensures Kinds(Placeholder(s, id, newSchema)) == KindsOf(PicturesOf(s, no))
  {
    OneKind(Image);
    if s.Cut? {
      FrontKinds(IdTokens(id, newSchema), GridSegments(s.grid, newSchema));
      GridKinds(s.grid, newSchema);
      PatchRowsKinds(no, s.grid.cols, s.grid.rows);
      KindsOfAppend([Source(no)], PatchRows(no, s.grid.cols, s.grid.rows));
    }
  }

  /** Every image followed by its patches. */
  function PicturesOfAll(images: seq<Sliced>): seq<Picture> {
    if images == [] then []
    else PicturesOfAll(images[..|images| - 1]) + PicturesOf(images[|images| - 1], |images| - 1)
  }

  lemma PatchRowsStep(no: nat, cols: nat, rows: nat)
    ensures PatchRows(no, cols, rows + 1) == PatchRows(no, cols, rows) + PatchRow(no, cols, rows)
  {
    var before := seq(rows, row requires 0 <= row < rows => PatchRow(no, cols, row));
    assert seq(rows + 1, row requires 0 <= row < rows + 1 => PatchRow(no, cols, row)) ==
        before + [PatchRow(no, cols, rows)];
    JoinSnoc(before, PatchRow(no, cols, rows));
  }

  /** As many pictures as sliced images count for. */
  lemma {:induction false} PicturesCount(images: seq<Sliced>)
    ensures |PicturesOfAll(images)| == ImageTotal(images)
    decreases |images|
  {
    if images == [] {
    } else {
      var n := |images| - 1;
      PicturesCount(images[..n]);
      if images[n].Cut? {
        PatchRowsCount(n, images[n].grid.cols, images[n].grid.rows);
      }
    }
  }

  lemma PatchRowsCount(no: nat, cols: nat, rows: nat)
    ensures |PatchRows(no, cols, rows)| == rows * cols
  {
    JoinLength(seq(rows, row requires 0 <= row < rows => PatchRow(no, cols, row)), cols);
  }

  /** The loops that list one image and its patches. */
  method ListPictures(s: Sliced, no: nat) returns (pictures: seq<Picture>)
    ensures pictures == PicturesOf(s, no)
  {
    pictures := [Source(no)];
    if s.Cut? {
      for i := 0 to s.grid.rows
        invariant pictures == [Source(no)] + PatchRows(no, s.grid.cols, i)
      {
        ghost var before := pictures;
        for j := 0 to s.grid.cols
          invariant pictures == before + PatchRow(no, j, i)
        {
          pictures := pictures + [Patch(no, i, j)];
        }
        PatchRowsStep(no, s.grid.cols, i);
      }
    }
  }

  /** The id of the next sliced image: how many were sliced before it. */
  function Cuts(images: seq<Sliced>): nat {
    if images == [] then 0 else Cuts(images[..|images| - 1]) + if images[|images| - 1].Cut? then 1 else 0
  }

  /** The placeholder of image `i`, with its id where the schema has one. */
  function PartOf(images: seq<Sliced>, i: nat, newSchema: bool): seq<Segment>
    requires i < |images|
  {
    Placeholder(images[i], Cuts(images[..i]), newSchema)
  }

  lemma IdOnlyInNewSchema(s: Sliced, a: nat, b: nat, newSchema: bool)
    requires newSchema ==> a == b
    ensures Placeholder(s, a, newSchema) == Placeholder(s, b, newSchema)
  {
  }

  /** The loop over images: every image and its patches are listed in order, and a placeholder is made for it. */
  method CollectImages(images: seq<Sliced>, q: nat, newSchema: bool)
    returns (pictures: seq<Picture>, placeholders: seq<seq<Token>>)
    ensures pictures == PicturesOfAll(images) && |placeholders| == |images|
    ensures forall i :: 0 <= i < |images| ==> placeholders[i] == Flatten(PartOf(images, i, newSchema), q, newSchema)
  {
    pictures, placeholders := [], [];
    var idCount := 0;
    for i := 0 to |images|
      invariant pictures == PicturesOfAll(images[..i]) && |placeholders| == i
      invariant newSchema ==> idCount == Cuts(images[..i])
      invariant forall k :: 0 <= k < i ==> placeholders[k] == Flatten(PartOf(images, k, newSchema), q, newSchema)
    {
      assert images[..i + 1][..i] == images[..i];
      var listed := ListPictures(images[i], i);
      pictures := pictures + listed;
      IdOnlyInNewSchema(images[i], idCount, Cuts(images[..i]), newSchema);
      var tokens := OnePlaceholder(images[i], idCount, q, newSchema);
      placeholders := placeholders + [tokens];
      if images[i].Cut? && newSchema {
        idCount := idCount + 1;
      }
    }
    assert images[..|images|] == images;
  }

  /** What one turn of the loop without slicing assigns to the placeholder variable. */
  function NextPlaceholder(placeholder: Option<seq<Token>>, id: nat, q: nat, useImageId: bool): Option<seq<Token>> {
    if useImageId then
      var before :- placeholder;
      Some(IdTokens(id, true) + before)
    else Some(ImageBlock(q))
  }

  /**
   Without slicing, an id is put in front of the placeholder variable, which holds the placeholder of the image before
   and nothing for the first image; reading it then raises. So the loop raises exactly when ids are used and there is
   an image.
   */
  method CollectUnsliced(count: nat, q: nat, useImageId: bool) returns (r: Option<seq<seq<Token>>>)
    ensures r == None <==> useImageId && count > 0
    ensures r.Some? ==> |r.value| == count && forall i :: 0 <= i < count ==> r.value[i] == ImageBlock(q)
  {
    var placeholders: seq<seq<Token>> := [];
    var placeholder: Option<seq<Token>> := None;
    var idCount := 0;
    for i := 0 to count
      invariant |placeholders| == i && (useImageId ==> i == 0 && placeholder == None)
      invariant forall k :: 0 <= k < i ==> placeholders[k] == ImageBlock(q)
    {
      placeholder := NextPlaceholder(placeholder, idCount, q, useImageId);
      if placeholder == None {
        return None;
      }
      idCount := idCount + if useImageId then 1 else 0;
      placeholders := placeholders + [placeholder.value];
    }
    return Some(placeholders);
  }

  // ----- the prompt

  /** A piece of a conversation after splitting: text, or the name of an image. */
  datatype Part = Wording(tokens: seq<Token>) | Named(name: string)

  datatype Piece = Words(tokens: seq<Token>) | Reference(image: nat)

  ghost predicate Resolves(part: Part, piece: Piece, names: seq<string>) {
    match part
    case Wording(tokens) => piece == Words(tokens)
    case Named(name) => piece.Reference? && piece.image < |names| && names[piece.image] == name
  }

  /** Looking a name up in the dictionary of placeholders. */
  method Lookup(names: seq<string>, name: string) returns (r: Option<nat>)
    ensures r.None? <==> name !in names
    ensures r.Some? ==> r.value < |names| && names[r.value] == name
  {
    for i := 0 to |names|
      invariant name !in names[..i]
    {
      if names[i] == name {
        return Some(i);
      }
    }
    return None;
  }

  /** The loop over parts: every name is replaced, and an unknown one raises. */
  method ReplaceNames(parts: seq<Part>, names: seq<string>) returns (r: Option<seq<Piece>>)
    ensures r == None <==> exists i :: 0 <= i < |parts| && parts[i].Named? && parts[i].name !in names
    ensures r.Some? ==> |r.value| == |parts| && forall i :: 0 <= i < |parts| ==> Resolves(parts[i], r.value[i], names)
  {
    var pieces: seq<Piece> := [];
    for i := 0 to |parts|
      invariant |pieces| == i && forall k :: 0 <= k < i ==> Resolves(parts[k], pieces[k], names)
      invariant forall k :: 0 <= k < i && parts[k].Named? ==> parts[k].name in names
    {
      match parts[i] {
        case Wording(tokens) =>
          pieces := pieces + [Words(tokens)];
        case Named(name) =>
          var found := Lookup(names, name);
          if found == None {
            return None;
          }
          pieces := pieces + [Reference(found.value)];
      }
    }
    return Some(pieces);
  }

  /** The images that the pieces refer to, in any order and any number of times. */
  function References(pieces: seq<Piece>): seq<nat> {
    if pieces == [] then []
    else
      var n := |pieces| - 1;
      References(pieces[..n]) + if pieces[n].Reference? then [pieces[n].image] else []
  }

  predicate InRange(pieces: seq<Piece>, count: nat) {
    forall i :: 0 <= i < |pieces| && pieces[i].Reference? ==> pieces[i].image < count
  }

  /** The prompt: every reference replaced by its image's placeholder. */
  function Prompt(pieces: seq<Piece>, placeholders: seq<seq<Token>>): seq<Token>
    requires InRange(pieces, |placeholders|)
  {
    if pieces == [] then []
    else
      var n := |pieces| - 1;
      Prompt(pieces[..n], placeholders)
      + match pieces[n] case Words(tokens) => tokens case Reference(i) => placeholders[i]
  }

  ghost predicate PlainWords(pieces: seq<Piece>, newSchema: bool) {
    forall i :: 0 <= i < |pieces| && pieces[i].Words? ==> PlainTokens(pieces[i].tokens, newSchema)
  }

  ghost predicate PlaceholdersOf(placeholders: seq<seq<Token>>, images: seq<Sliced>, q: nat, newSchema: bool) {
    |placeholders| == |images| &&
    forall i :: 0 <= i < |images| ==> placeholders[i] == Flatten(PartOf(images, i, newSchema), q, newSchema)
  }

  predicate AllBelow(refs: seq<nat>, count: nat) {
    forall i :: 0 <= i < |refs| ==> refs[i] < count
  }

  /** The pictures that a sequence of references asks for. */
  function Referenced(images: seq<Sliced>, refs: seq<nat>): seq<Picture>
    requires AllBelow(refs, |images|)
  {
    if refs == [] then []
    else Referenced(images, refs[..|refs| - 1]) + PicturesOf(images[refs[|refs| - 1]], refs[|refs| - 1])
  }

  lemma {:induction false} ReferencesBelow(pieces: seq<Piece>, count: nat)
    requires InRange(pieces, count)
    ensures AllBelow(References(pieces), count)
    decreases |pieces|
  {
    if pieces == [] {
    } else {
      ReferencesBelow(pieces[..|pieces| - 1], count);
    }
  }

  lemma ReferencedSnoc(images: seq<Sliced>, refs: seq<nat>, r: nat)
    requires AllBelow(refs, |images|) && r < |images|
    ensures AllBelow(refs + [r], |images|)
    ensures Referenced(images, refs + [r]) == Referenced(images, refs) + PicturesOf(images[r], r)
  {
    assert (refs + [r])[..|refs|] == refs;
  }

  lemma KindsOfAppend(a: seq<Picture>, b: seq<Picture>)
    ensures KindsOf(a + b) == KindsOf(a) + KindsOf(b)
  {
  }

  lemma PicturesOfCount(s: Sliced, no: nat)
    ensures |PicturesOf(s, no)| == ImageCount(s)
  {
    if s.Cut? {
      PatchRowsCount(no, s.grid.cols, s.grid.rows);
    }
  }

  /** A prompt is its segments put one after another, as many of them pictures as the references ask for. */
  lemma {:induction false} PromptSegments(
    pieces: seq<Piece>, placeholders: seq<seq<Token>>, images: seq<Sliced>, q: nat, newSchema: bool)
    returns (segments: seq<Segment>)
    requires PlaceholdersOf(placeholders, images, q, newSchema) && InRange(pieces, |images|)
    requires PlainWords(pieces, newSchema)
    ensures Flatten(segments, q, newSchema) == Prompt(pieces, placeholders) && PlainTexts(segments, newSchema)
    ensures AllBelow(References(pieces), |images|)
    ensures Pictures(segments) == |Referenced(images, References(pieces))|
    ensures Kinds(segments) == KindsOf(Referenced(images, References(pieces)))
    decreases |pieces|
  {
    ReferencesBelow(pieces, |images|);
    if pieces == [] {
      segments := [];
    } else {
      var n := |pieces| - 1;
      var init := PromptSegments(pieces[..n], placeholders, images, q, newSchema);
      match pieces[n] {
        case Words(tokens) =>
          segments := init + [Text(tokens)];
          FlattenSnoc(init, Text(tokens), q, newSchema);
          OneText(tokens);
          PicturesAppend(init, [Text(tokens)]);
          KindsAppend(init, [Text(tokens)]);
          OneKind(Text(tokens));
          assert References(pieces) == References(pieces[..n]);
        case Reference(i) =>
          segments := init + PartOf(images, i, newSchema);
          FlattenAppend(init, PartOf(images, i, newSchema), q, newSchema);
          PlaceholderFacts(images[i], Cuts(images[..i]), newSchema);
          PlainTextsAppend(init, PartOf(images, i, newSchema), newSchema);
          PicturesAppend(init, PartOf(images, i, newSchema));
          ReferencedSnoc(images, References(pieces[..n]), i);
          PicturesOfCount(images[i], i);
          KindsAppend(init, PartOf(images, i, newSchema));
          PlaceholderKinds(images[i], Cuts(images[..i]), i, newSchema);
          KindsOfAppend(Referenced(images, References(pieces[..n])), PicturesOf(images[i], i));
      }
    }
  }

  /** Starts and ends of what is already there stay, and new starts come behind. */
  lemma {:induction false} StartsGrow(tokens: seq<Token>, more: seq<Token>, newSchema: bool)
    ensures Starts(tokens, newSchema) <= Starts(tokens + more, newSchema)
    ensures forall k :: |Starts(tokens, newSchema)| <= k < |Starts(tokens + more, newSchema)| ==>
              Starts(tokens + more, newSchema)[k] > |tokens|
    ensures Ends(tokens, newSchema) <= Ends(tokens + more, newSchema)
    decreases |more|
  {
    if more == [] {
      assert tokens + more == tokens;
    } else {
      var n := |more| - 1;
      StartsGrow(tokens, more[..n], newSchema);
      assert tokens + more == (tokens + more[..n]) + [more[n]];
      TokenAppend(tokens + more[..n], more[n], newSchema);
    }
  }

  lemma {:induction false} PromptPrefix(
    pieces: seq<Piece>, placeholders: seq<seq<Token>>, j: nat) returns (more: seq<Token>)
    requires InRange(pieces, |placeholders|) && j <= |pieces|
    ensures InRange(pieces[..j], |placeholders|)
    ensures Prompt(pieces, placeholders) == Prompt(pieces[..j], placeholders) + more
    decreases |pieces|
  {
    if j == |pieces| {
      more := [];
      assert pieces[..j] == pieces;
    } else {
      var n := |pieces| - 1;
      more := PromptPrefix(pieces[..n], placeholders, j);
      assert pieces[..n][..j] == pieces[..j];
      more := more + match pieces[n] case Words(tokens) => tokens case Reference(i) => placeholders[i];
    }
  }

  /** The prompt has exactly one bound for each picture that is referred to, around the picture's query tokens. */
  lemma BoundsMatchImages(
    pieces: seq<Piece>, placeholders: seq<seq<Token>>, images: seq<Sliced>, q: nat, newSchema: bool)
    requires PlaceholdersOf(placeholders, images, q, newSchema) && InRange(pieces, |images|)
    requires PlainWords(pieces, newSchema)
    ensures AllBelow(References(pieces), |images|)
    ensures var (tokens, count) := (Prompt(pieces, placeholders), |Referenced(images, References(pieces))|);
      && Bounds(tokens, newSchema).Some? && |Bounds(tokens, newSchema).value| == count
      && forall k :: 0 <= k < count ==> Delimits(tokens, Bounds(tokens, newSchema).value[k], q)
  {
    var segments := PromptSegments(pieces, placeholders, images, q, newSchema);
    BoundsOfSegments(segments, q, newSchema);
  }

  ghost predicate MarksPictures(tokens: seq<Token>, bounds: seq<Bound>, pictures: seq<Picture>, newSchema: bool) {
    |bounds| == |pictures| && forall k :: 0 <= k < |bounds| ==>
      && 0 < bounds[k].start <= |tokens| && bounds[k].end < |tokens|
      && tokens[bounds[k].start - 1] == (if pictures[k].Patch? && newSchema then SliceStart else ImStart)
      && tokens[bounds[k].end] == (if pictures[k].Patch? && newSchema then SliceEnd else ImEnd)
  }

  /**
   Each bound stands between the marks of its picture: those of a slice around a patch in the new schema, those of an
   image otherwise.
   */
  lemma BoundsMarkPictures(
    pieces: seq<Piece>, placeholders: seq<seq<Token>>, images: seq<Sliced>, q: nat, newSchema: bool)
    requires PlaceholdersOf(placeholders, images, q, newSchema) && InRange(pieces, |images|)
    requires PlainWords(pieces, newSchema)
    ensures AllBelow(References(pieces), |images|) && Bounds(Prompt(pieces, placeholders), newSchema).Some?
    ensures MarksPictures(Prompt(pieces, placeholders), Bounds(Prompt(pieces, placeholders), newSchema).value,
                          Referenced(images, References(pieces)), newSchema)
  {
    var segments := PromptSegments(pieces, placeholders, images, q, newSchema);
    SegmentsMarked(segments, q, newSchema);
    MarkedBounds(Prompt(pieces, placeholders), Referenced(images, References(pieces)), newSchema);
  }

  lemma MarkedBounds(tokens: seq<Token>, pictures: seq<Picture>, newSchema: bool)
    requires Marked(tokens, Starts(tokens, newSchema), Ends(tokens, newSchema), KindsOf(pictures), newSchema)
    ensures Bounds(tokens, newSchema).Some?
    ensures MarksPictures(tokens, Bounds(tokens, newSchema).value, pictures, newSchema)
  {
    assert forall k :: 0 <= k < |pictures| ==> (KindsOf(pictures)[k].Slice? <==> pictures[k].Patch?);
  }

  lemma StartsMatchImages(
    pieces: seq<Piece>, placeholders: seq<seq<Token>>, images: seq<Sliced>, q: nat, newSchema: bool)
    requires PlaceholdersOf(placeholders, images, q, newSchema) && InRange(pieces, |images|)
    requires PlainWords(pieces, newSchema)
    ensures AllBelow(References(pieces), |images|) && Bounds(Prompt(pieces, placeholders), newSchema).Some?
    ensures |Starts(Prompt(pieces, placeholders), newSchema)| == |Referenced(images, References(pieces))|
  {
    BoundsMatchImages(pieces, placeholders, images, q, newSchema);
  }

  /**
   Bounds follow the references: those of the first `j` pieces lie in their part of the prompt, from start to end, and
   all others start behind it.
   */
  lemma BoundsFollowReferences(
    pieces: seq<Piece>, placeholders: seq<seq<Token>>, images: seq<Sliced>, q: nat, newSchema: bool, j: nat)
    requires PlaceholdersOf(placeholders, images, q, newSchema) && InRange(pieces, |images|)
    requires PlainWords(pieces, newSchema) && j <= |pieces|
    ensures AllBelow(References(pieces[..j]), |images|) && Bounds(Prompt(pieces, placeholders), newSchema).Some?
    ensures var bounds := Bounds(Prompt(pieces, placeholders), newSchema).value;
            var (early, length) := (|Referenced(images, References(pieces[..j]))|, |Prompt(pieces[..j], placeholders)|);
            forall k :: 0 <= k < |bounds| ==>
              if k < early then bounds[k].start <= length && bounds[k].end < length else bounds[k].start > length
  {
    StartsMatchImages(pieces, placeholders, images, q, newSchema);
    StartsMatchImages(pieces[..j], placeholders, images, q, newSchema);
    var more := PromptPrefix(pieces, placeholders, j);
    EarlyBounds(Prompt(pieces[..j], placeholders), more, newSchema);
  }

  lemma {:induction false} MarksWithin(tokens: seq<Token>, newSchema: bool)
    ensures forall k :: 0 <= k < |Starts(tokens, newSchema)| ==> Starts(tokens, newSchema)[k] <= |tokens|
    ensures forall k :: 0 <= k < |Ends(tokens, newSchema)| ==> Ends(tokens, newSchema)[k] < |tokens|
    decreases |tokens|
  {
    if tokens == [] {
    } else {
      MarksWithin(tokens[..|tokens| - 1], newSchema);
    }
  }

  lemma EarlyBounds(before: seq<Token>, more: seq<Token>, newSchema: bool)
    requires Bounds(before, newSchema).Some? && Bounds(before + more, newSchema).Some?
    ensures var bounds := Bounds(before + more, newSchema).value;
            forall k :: 0 <= k < |bounds| ==>
              if k < |Starts(before, newSchema)| then bounds[k].start <= |before| && bounds[k].end < |before|
              else bounds[k].start > |before|
  {
    StartsGrow(before, more, newSchema);
    MarksWithin(before, newSchema);
    var (starts, ends) := (Starts(before, newSchema), Ends(before, newSchema));
    var bounds := Bounds(before + more, newSchema).value;
    forall k | 0 <= k < |starts|
      ensures bounds[k].start == starts[k] && bounds[k].end == ends[k]
    {
      assert Starts(before + more, newSchema)[k] == starts[k] && Ends(before + more, newSchema)[k] == ends[k];
    }
  }

  // ----- when bounds and pictures pair up

  /** The images whose whole pictures a list holds. */
  function Sources(pictures: seq<Picture>): seq<nat> {
    if pictures == [] then []
    else
      var n := |pictures| - 1;
      Sources(pictures[..n]) + if pictures[n].Source? then [pictures[n].no] else []
  }

  lemma {:induction false} SourcesAppend(a: seq<Picture>, b: seq<Picture>)
    ensures Sources(a + b) == Sources(a) + Sources(b)
    decreases |b|
  {
    if b == [] {
      assert a + b == a;
    } else {
      var n := |b| - 1;
      SourcesAppend(a, b[..n]);
      assert (a + b)[..|a + b| - 1] == a + b[..n];
    }
  }

  lemma {:induction false} NoSources(pictures: seq<Picture>)
    requires forall i :: 0 <= i < |pictures| ==> pictures[i].Patch?
    ensures Sources(pictures) == []
    decreases |pictures|
  {
    if pictures == [] {
    } else {
      NoSources(pictures[..|pictures| - 1]);
    }
  }

  lemma {:induction false} PatchRowsPatches(no: nat, cols: nat, rows: nat)
    ensures forall i :: 0 <= i < |PatchRows(no, cols, rows)| ==> PatchRows(no, cols, rows)[i].Patch?
  {
    if rows == 0 {
    } else {
      PatchRowsPatches(no, cols, rows - 1);
      PatchRowsStep(no, cols, rows - 1);
    }
  }

  lemma SourcesOf(s: Sliced, no: nat)
    ensures Sources(PicturesOf(s, no)) == [no]
  {
    var rest := if s.Cut? then PatchRows(no, s.grid.cols, s.grid.rows) else [];
    if s.Cut? {
      PatchRowsPatches(no, s.grid.cols, s.grid.rows);
    }
    NoSources(rest);
    SourcesAppend([Source(no)], rest);
    assert [Source(no)][..0] == [] && Sources([Source(no)]) == [] + [no];
  }

  lemma {:induction false} ReferencedSources(images: seq<Sliced>, refs: seq<nat>)
    requires AllBelow(refs, |images|)
    ensures Sources(Referenced(images, refs)) == refs
    decreases |refs|
  {
    if refs == [] {
    } else {
      var init, last := refs[..|refs| - 1], refs[|refs| - 1];
      ReferencedSources(images, init);
      assert refs == init + [last];
      SourcesSnoc(images, init, last);
    }
  }

  lemma SourcesSnoc(images: seq<Sliced>, init: seq<nat>, last: nat)
    requires AllBelow(init, |images|) && last < |images| && Sources(Referenced(images, init)) == init
    ensures AllBelow(init + [last], |images|) && Sources(Referenced(images, init + [last])) == init + [last]
  {
    ReferencedSnoc(images, init, last);
    SourcesOf(images[last], last);
    SourcesAppend(Referenced(images, init), PicturesOf(images[last], last));
  }

  function UpTo(n: nat): seq<nat> {
    seq(n, i => i)
  }

  lemma {:induction false} ReferencedInOrder(images: seq<Sliced>, n: nat)
    requires n <= |images|
    ensures Referenced(images, UpTo(n)) == PicturesOfAll(images[..n])
  {
    if n == 0 {
    } else {
      ReferencedInOrder(images, n - 1);
      assert UpTo(n)[..n - 1] == UpTo(n - 1) && images[..n][..n - 1] == images[..n - 1];
    }
  }

  /** Bound k is that of picture k, for all k, exactly when the prompt refers to every image once and in order. */
  lemma PairedExactly(images: seq<Sliced>, refs: seq<nat>)
    requires AllBelow(refs, |images|)
    ensures Referenced(images, refs) == PicturesOfAll(images) <==> refs == UpTo(|images|)
  {
    ReferencedInOrder(images, |images|);
    assert images[..|images|] == images;
    ReferencedSources(images, refs);
    ReferencedSources(images, UpTo(|images|));
  }

  /** A single image: its name is replaced where it stands, or its placeholder is put in front, on a line of its own. */
  function SinglePieces(pieces: seq<Piece>): seq<Piece> {
    if References(pieces) == [] then [Reference(0), Words([Newline])] + pieces else pieces
  }

  lemma {:induction false} ReferencesAppend(a: seq<Piece>, b: seq<Piece>)
    ensures References(a + b) == References(a) + References(b)
    decreases |b|
  {
    if b == [] {
      assert a + b == a;
    } else {
      ReferencesAppend(a, b[..|b| - 1]);
      assert (a + b)[..|a + b| - 1] == a + b[..|b| - 1];
    }
  }

  lemma SingleReferences(pieces: seq<Piece>)
    ensures References(SinglePieces(pieces)) == if References(pieces) == [] then [0] else References(pieces)
  {
    var first, line := Reference(0), Words([Newline]);
    ReferencesAppend([first, line], pieces);
    assert [first, line][..1] == [first];
    assert References([first]) == [0];
  }

  lemma OnlyZero(refs: seq<nat>)
    requires AllBelow(refs, 1)
    ensures refs == UpTo(1) <==> |refs| == 1
  {
    assert |UpTo(1)| == 1 && UpTo(1)[0] == 0;
  }

  /** Its pictures and their bounds pair exactly when it is named at most once. */
  lemma SinglePaired(images: seq<Sliced>, pieces: seq<Piece>)
    requires |images| == 1 && InRange(pieces, 1)
    ensures AllBelow(References(SinglePieces(pieces)), 1)
    ensures Referenced(images, References(SinglePieces(pieces))) == PicturesOfAll(images) <==> |References(pieces)| <= 1
  {
    ReferencesBelow(SinglePieces(pieces), 1);
    SingleReferences(pieces);
    OnlyZero(References(SinglePieces(pieces)));
    PairedExactly(images, References(SinglePieces(pieces)));
  }
}
