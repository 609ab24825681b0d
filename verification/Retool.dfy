/** Turning an annotated transcript into alternating assistant and tool messages. */
module Retool {
  import opened Common

  const CODE := "<code>"
  const END_CODE := "</code>"
  const ANSWER := "<answer>"
  const END_ANSWER := "</answer>"
  const INTERPRETER := "<interpreter>"
  const END_INTERPRETER := "</interpreter>"
  const FENCE := "```python"
  const END_FENCE := "```"

  datatype Message =
    | Call(content: string, code: string)
    | Final(content: string)
    | Tool(content: string)

  predicate FromAssistant(m: Message) {
    m.Call? || m.Final?
  }

  // ----- string operations

  predicate StartsAt(s: string, pat: string, i: nat) {
    i + |pat| <= |s| && s[i..i + |pat|] == pat
  }

  /** `s.find(pat)`: the first place where `pat` occurs. */
  function Find(s: string, pat: string): (r: Option<nat>)
    ensures r.Some? ==> StartsAt(s, pat, r.value) && forall j: nat :: j < r.value ==> !StartsAt(s, pat, j)
    ensures r.None? ==> forall j: nat :: !StartsAt(s, pat, j)
  {
    FindFrom(s, pat, 0)
  }

  function FindFrom(s: string, pat: string, i: nat): (r: Option<nat>)
    requires i <= |s|
    ensures r.Some? ==> i <= r.value && StartsAt(s, pat, r.value) && forall j: nat :: i <= j < r.value ==>
              !StartsAt(s, pat, j)
    ensures r.None? ==> forall j: nat :: i <= j ==> !StartsAt(s, pat, j)
    decreases |s| - i
  {
    if StartsAt(s, pat, i) then Some(i)
    else if i == |s| then None
    else FindFrom(s, pat, i + 1)
  }

  /** The characters that `strip` removes: those that Unicode calls white space, and the four separators. */
  predicate IsSpace(c: char) {
    || c == ' ' || '\t' <= c <= '\r' || '\U{1c}' <= c <= '\U{1f}' || c == '\U{85}' || c == '\U{a0}'
    || c == '\U{1680}' || '\U{2000}' <= c <= '\U{200a}' || c == '\U{2028}' || c == '\U{2029}'
    || c == '\U{202f}' || c == '\U{205f}' || c == '\U{3000}'
  }

  /** By code point. */
  lemma SpacesAre(c: char)
    ensures IsSpace(c) <==>
              c as int in {9, 10, 11, 12, 13, 28, 29, 30, 31, 32, 133, 160, 5760, 8192, 8193, 8194, 8195, 8196, 8197,
                           8198, 8199, 8200, 8201, 8202, 8232, 8233, 8239, 8287, 12288}
  {
  }

  /** `s[lo:hi]`, empty when the bounds cross. */
  function Between(s: string, lo: nat, hi: nat): string
    requires hi <= |s|
  {
    if lo <= hi then s[lo..hi] else []
  }

  function StripLeft(s: string): string {
    if s != [] && IsSpace(s[0]) then StripLeft(s[1..]) else s
  }

  function StripRight(s: string): string {
    if s != [] && IsSpace(s[|s| - 1]) then StripRight(s[..|s| - 1]) else s
  }

  function Strip(s: string): string {
    StripRight(StripLeft(s))
  }

  predicate Stripped(s: string) {
    s == [] || (!IsSpace(s[0]) && !IsSpace(s[|s| - 1]))
  }

  ghost predicate Blank(s: string) {
    forall i :: 0 <= i < |s| ==> IsSpace(s[i])
  }

  lemma StripFront(s: string, right: string)
    requires s == StripRight(s) + right && (s == [] || !IsSpace(s[0]))
    ensures StripRight(s) == [] || !IsSpace(StripRight(s)[0])
  {
  }

  /** Stripping takes blanks off both ends, and as many as there are. */
  lemma StripExactly(s: string) returns (left: string, right: string)
    ensures s == left + Strip(s) + right && Blank(left) && Blank(right) && Stripped(Strip(s))
  {
    left := StripLeftExactly(s);
    right := StripRightExactly(StripLeft(s));
    assert left + (Strip(s) + right) == left + Strip(s) + right;
    StripFront(StripLeft(s), right);
  }

  lemma {:induction false} StripLeftExactly(s: string) returns (left: string)
    ensures s == left + StripLeft(s) && Blank(left) && (StripLeft(s) == [] || !IsSpace(StripLeft(s)[0]))
    decreases |s|
  {
    left := [];
    if s != [] && IsSpace(s[0]) {
      var rest := StripLeftExactly(s[1..]);
      left := [s[0]] + rest;
      assert s == [s[0]] + s[1..];
    }
  }

  lemma {:induction false} StripRightExactly(s: string) returns (right: string)
    ensures s == StripRight(s) + right && Blank(right) &&
              (StripRight(s) == [] || !IsSpace(StripRight(s)[|StripRight(s)| - 1]))
    decreases |s|
  {
    right := [];
    if s != [] && IsSpace(s[|s| - 1]) {
      var rest := StripRightExactly(s[..|s| - 1]);
      right := rest + [s[|s| - 1]];
      assert s == s[..|s| - 1] + [s[|s| - 1]];
    }
  }

  /** The text inside the first code fence, stripped; the text itself when no fence is closed. */
  function Unfenced(code: string): string {
    match Find(code, FENCE)
    case None => code
    case Some(a) =>
      match FindFrom(code, END_FENCE, a + |FENCE|)
      case None => code
      case Some(b) => Strip(code[a + |FENCE|..b])
  }

  // ----- extraction

  /** A message and what is left; `Missing` when the opening tag is absent, `Malformed` when the assertion fails. */
  datatype Extracted = Found(message: Message, rest: string) | Missing | Malformed

  /** The text before the opening tag, between the tags and after the closing tag, each tag at its first occurrence. */
  datatype Cut = NoTag | BadTags | Cut(before: string, body: string, after: string)

  function CutAt(s: string, open: string, close: string): (c: Cut)
    ensures c.Cut? ==> |c.after| <= |s| && (close != [] ==> |c.after| < |s|)
  {
    match Find(s, open)
    case None => NoTag
    case Some(i) =>
      match Find(s, close)
      case None => BadTags
      case Some(j) => if j <= i then BadTags else Cut(s[..i], Between(s, i + |open|, j), s[j + |close|..])
  }

  function ExtractCode(s: string): Extracted {
    match CutAt(s, CODE, END_CODE)
    case NoTag => Missing
    case BadTags => Malformed
    case Cut(before, body, after) => Found(Call(Strip(before), Unfenced(body)), after)
  }

  function ExtractAnswer(s: string): Extracted {
    match CutAt(s, ANSWER, END_ANSWER)
    case NoTag => Missing
    case BadTags => Malformed
    case Cut(before, body, after) => Found(Final(Strip(before + body)), after)
  }

  function ExtractInterpreter(s: string): Extracted {
    match CutAt(s, INTERPRETER, END_INTERPRETER)
    case NoTag => Missing
    case BadTags => Malformed
    case Cut(before, body, after) => Found(Tool(Strip(body)), after)
  }

  /** The next message: code first, an answer otherwise, or the interpreter's output. */
  function Extract(s: string, assistant: bool): (r: Extracted)
    ensures r.Found? ==> |r.rest| < |s| && FromAssistant(r.message) == assistant
  {
    if assistant then
      var code := ExtractCode(s);
      if code.Missing? then ExtractAnswer(s) else code
    else ExtractInterpreter(s)
  }

  /** The tag `open` stands at `i` and `close` at `j`, each for the first time, and in this order. */
  ghost predicate Tagged(s: string, open: string, close: string, i: int, j: int) {
    && 0 <= i < j && StartsAt(s, open, i) && StartsAt(s, close, j)
    && (forall k: nat :: k < i ==> !StartsAt(s, open, k)) && (forall k: nat :: k < j ==> !StartsAt(s, close, k))
  }

  ghost predicate Has(s: string, pat: string) {
    exists k: nat :: StartsAt(s, pat, k)
  }

  lemma CutAtExactly(s: string, open: string, close: string)
    ensures CutAt(s, open, close).NoTag? <==> !Has(s, open)
    ensures CutAt(s, open, close).Cut? <==> exists i, j :: Tagged(s, open, close, i, j)
  {
    if CutAt(s, open, close).Cut? {
      assert Tagged(s, open, close, Find(s, open).value, Find(s, close).value);
    }
    if i, j :| Tagged(s, open, close, i, j) {
      FindIs(s, open, i);
      FindIs(s, close, j);
    }
  }

  /** When an assertion fails: no tag of the turn's kind, or its closing tag is missing or comes first. */
  lemma ExtractExactly(s: string)
    ensures Extract(s, true).Found? <==>
              if Has(s, "<code>") then exists i, j :: Tagged(s, "<code>", "</code>", i, j)
              else exists i, j :: Tagged(s, "<answer>", "</answer>", i, j)
    ensures Extract(s, false).Found? <==> exists i, j :: Tagged(s, "<interpreter>", "</interpreter>", i, j)
  {
    CutAtExactly(s, CODE, END_CODE);
    CutAtExactly(s, ANSWER, END_ANSWER);
    CutAtExactly(s, INTERPRETER, END_INTERPRETER);
  }

  /** The messages of a transcript; `None` when an assertion fails. */
  function Parse(s: string, assistant: bool): Option<seq<Message>>
    decreases |s|
  {
    if s == [] then Some([])
    else
      match Extract(s, assistant)
      case Found(m, rest) => var more :- Parse(rest, !assistant); Some([m] + more)
      case _ => None
  }

  function Prepend(ms: seq<Message>, more: Option<seq<Message>>): Option<seq<Message>> {
    if more.Some? then Some(ms + more.value) else None
  }

  lemma PrependStep(ms: seq<Message>, s: string, assistant: bool)
    requires s != []
    ensures Prepend(ms, Parse(s, assistant)) ==
            match Extract(s, assistant)
            case Found(m, rest) => Prepend(ms + [m], Parse(rest, !assistant))
            case _ => None
  {
    var e := Extract(s, assistant);
    if e.Found? {
      var more := Parse(e.rest, !assistant);
      if more.Some? {
        assert ms + ([e.message] + more.value) == (ms + [e.message]) + more.value;
      }
    }
  }

  ghost predicate Alternating(ms: seq<Message>, assistant: bool) {
    ms == [] || (FromAssistant(ms[0]) == assistant && Alternating(ms[1..], !assistant))
  }

  /** Assistant and tool messages take turns. */
  lemma {:induction false} ParseAlternates(s: string, assistant: bool)
    ensures Parse(s, assistant).Some? ==> Alternating(Parse(s, assistant).value, assistant)
    decreases |s|
  {
    if s != [] && Extract(s, assistant).Found? {
      var Found(m, rest) := Extract(s, assistant);
      ParseAlternates(rest, !assistant);
      var more := Parse(rest, !assistant);
      assert more.Some? ==> ([m] + more.value)[1..] == more.value;
    }
  }

  /** The multi-turn loop of `process`; every turn shortens what is left, so it ends. */
  method Process(transcript: string) returns (r: Option<seq<Message>>)
    ensures r == Parse(transcript, true)
    ensures r.Some? ==> Alternating(r.value, true)
  {
    var content, assistant := transcript, true;
    var messages: seq<Message> := [];
    ghost var all := Parse(transcript, true);
    assert all.Some? ==> [] + all.value == all.value;
    ParseAlternates(transcript, true);
    while |content| > 0
      invariant all == Prepend(messages, Parse(content, assistant))
      decreases |content|
    {
      PrependStep(messages, content, assistant);
      var next := Extract(content, assistant);
      if !next.Found? {
        return None;
      }
      messages := messages + [next.message];
      content, assistant := next.rest, !assistant;
    }
    assert messages + [] == messages;
    return Some(messages);
  }

  // ----- printing

  datatype Turn = Turn(text: string, code: string, output: string)

  datatype Transcript = Transcript(turns: seq<Turn>, text: string, answer: string)

  function RenderCall(t: Turn): string {
    t.text + "<code>" + t.code + "</code>"
  }

  function RenderOutput(t: Turn): string {
    "<interpreter>" + t.output + "</interpreter>"
  }

  function Render(t: Transcript): string
    decreases |t.turns|
  {
    if t.turns == [] then t.text + "<answer>" + t.answer + "</answer>"
    else RenderCall(t.turns[0]) + (RenderOutput(t.turns[0]) + Render(t.(turns := t.turns[1..])))
  }

  /** The conversation as it was. */
  function Messages(t: Transcript): seq<Message>
    decreases |t.turns|
  {
    if t.turns == [] then [Final(t.text + t.answer)]
    else
      [Call(t.turns[0].text, t.turns[0].code), Tool(t.turns[0].output)] + Messages(t.(turns := t.turns[1..]))
  }

  function Clean(m: Message): Message {
    match m
    case Call(content, code) => Call(Strip(content), Unfenced(code))
    case Final(content) => Final(Strip(content))
    case Tool(content) => Tool(Strip(content))
  }

  function CleanAll(ms: seq<Message>): seq<Message> {
    seq(|ms|, i requires 0 <= i < |ms| => Clean(ms[i]))
  }

  ghost predicate Plain(s: string) {
    '<' !in s
  }

  ghost predicate PlainTranscript(t: Transcript) {
    && Plain(t.text) && Plain(t.answer)
    && forall i :: 0 <= i < |t.turns| ==>
         Plain(t.turns[i].text) && Plain(t.turns[i].code) && Plain(t.turns[i].output)
  }

  // ----- finding tags

  /** `i` is where `Find` looks, when `pat` starts there and nowhere before. */
  lemma FindIs(s: string, pat: string, i: nat)
    requires StartsAt(s, pat, i) && forall j: nat :: j < i ==> !StartsAt(s, pat, j)
    ensures Find(s, pat) == Some(i)
  {
  }

  lemma NotStartingWith(s: string, pat: string, j: nat)
    requires pat != [] && j < |s| && s[j] != pat[0]
    ensures !StartsAt(s, pat, j)
  {
    if j + |pat| <= |s| {
      assert s[j..j + |pat|][0] == s[j];
    }
  }

  /** A tag cannot start inside text without '<'. */
  lemma FindAfterPlain(text: string, pat: string, rest: string)
    requires Plain(text) && pat != [] && pat[0] == '<' && pat <= rest
    ensures Find(text + rest, pat) == Some(|text|)
  {
    var s := text + rest;
    assert s[|text|..|text| + |pat|] == pat;
    forall j: nat | j < |text|
      ensures !StartsAt(s, pat, j)
    {
      assert s[j] == text[j];
      NotStartingWith(s, pat, j);
    }
    FindIs(s, pat, |text|);
  }

  ghost predicate IsTag(tag: string) {
    |tag| >= 2 && tag[0] == '<' && Plain(tag[1..])
  }

  /** Nothing that differs in its second character starts inside the text or the tag. */
  lemma NotBefore(text: string, tag: string, rest: string, pat: string, j: nat)
    requires Plain(text) && IsTag(tag) && IsTag(pat) && pat[1] != tag[1] && j < |text| + |tag|
    ensures !StartsAt(text + tag + rest, pat, j)
  {
    var s := text + tag + rest;
    if j < |text| {
      assert s[j] == text[j];
      NotStartingWith(s, pat, j);
    } else if j == |text| {
      if j + |pat| <= |s| {
        assert s[j..j + |pat|][1] == s[j + 1] == tag[1];
      }
    } else {
      assert s[j] == tag[1..][j - |text| - 1];
      NotStartingWith(s, pat, j);
    }
  }

  lemma ShiftStarts(front: string, rest: string, pat: string, k: nat)
    ensures StartsAt(front + rest, pat, |front| + k) <==> StartsAt(rest, pat, k)
  {
    if k + |pat| <= |rest| {
      assert (front + rest)[|front| + k..|front| + k + |pat|] == rest[k..k + |pat|];
    }
  }

  /** Skipping a different tag: the pattern is found in what follows. */
  lemma FindPastTag(text: string, tag: string, rest: string, pat: string, k: nat)
    requires Plain(text) && IsTag(tag) && IsTag(pat) && pat[1] != tag[1] && Find(rest, pat) == Some(k)
    ensures Find(text + tag + rest, pat) == Some(|text| + |tag| + k)
  {
    var s, n := text + tag + rest, |text| + |tag|;
    ShiftStarts(text + tag, rest, pat, k);
    forall j: nat | j < n + k
      ensures !StartsAt(s, pat, j)
    {
      if j < n {
        NotBefore(text, tag, rest, pat, j);
      } else {
        ShiftStarts(text + tag, rest, pat, j - n);
      }
    }
    FindIs(s, pat, n + k);
  }

  lemma FindNowherePastTag(text: string, tag: string, rest: string, pat: string)
    requires Plain(text) && IsTag(tag) && IsTag(pat) && pat[1] != tag[1] && Find(rest, pat) == None
    ensures Find(text + tag + rest, pat) == None
  {
    var s, n := text + tag + rest, |text| + |tag|;
    forall j: nat
      ensures !StartsAt(s, pat, j)
    {
      if j < n {
        NotBefore(text, tag, rest, pat, j);
      } else {
        ShiftStarts(text + tag, rest, pat, j - n);
      }
    }
  }

  lemma Tags()
    ensures IsTag(CODE) && IsTag(END_CODE) && IsTag(ANSWER) && IsTag(END_ANSWER)
    ensures IsTag(INTERPRETER) && IsTag(END_INTERPRETER)
  {
  }

  lemma FindClosing(text: string, open: string, body: string, close: string, rest: string)
    requires Plain(text) && Plain(body) && IsTag(open) && IsTag(close) && open[1] != close[1]
    ensures Find(text + open + body + close + rest, close) == Some(|text| + |open| + |body|)
  {
    FindAfterPlain(body, close, close + rest);
    assert body + (close + rest) == body + close + rest;
    FindPastTag(text, open, body + close + rest, close, |body|);
    assert text + open + (body + close + rest) == text + open + body + close + rest;
  }

  /** A text, an opening tag, a body and its closing tag: where both are found. */
  lemma FindPair(text: string, open: string, body: string, close: string, rest: string)
    requires Plain(text) && Plain(body) && IsTag(open) && IsTag(close) && open[1] != close[1]
    ensures var s := text + open + body + close + rest;
            Find(s, open) == Some(|text|) && Find(s, close) == Some(|text| + |open| + |body|)
  {
    assert text + open + body + close + rest == text + (open + body + close + rest);
    FindAfterPlain(text, open, open + body + close + rest);
    FindClosing(text, open, body, close, rest);
  }

  /** Cutting a rendered block gives its parts back. */
  lemma CutRendered(text: string, open: string, body: string, close: string, rest: string)
    requires Plain(text) && Plain(body) && IsTag(open) && IsTag(close) && open[1] != close[1]
    ensures CutAt(text + open + body + close + rest, open, close) == Cut(text, body, rest)
  {
    var s := text + open + body + close + rest;
    FindPair(text, open, body, close, rest);
    assert s[..|text|] == text;
    assert s[|text| + |open|..|text| + |open| + |body|] == body;
    assert s[|text| + |open| + |body| + |close|..] == rest;
  }

  lemma NoTagInPlain(s: string, pat: string)
    requires Plain(s) && IsTag(pat)
    ensures Find(s, pat) == None
  {
    forall j: nat
      ensures !StartsAt(s, pat, j)
    {
      if j < |s| {
        NotStartingWith(s, pat, j);
      }
    }
  }

  /** A pattern that neither tag of a block begins like, and that does not occur behind the block, occurs nowhere. */
  lemma NotInBlock(text: string, open: string, body: string, close: string, rest: string, pat: string)
    requires Plain(text) && Plain(body) && Find(rest, pat) == None && IsTag(open) && IsTag(close) && IsTag(pat)
    requires pat[1] != open[1] && pat[1] != close[1]
    ensures Find(text + open + body + close + rest, pat) == None
  {
    FindNowherePastTag(body, close, rest, pat);
    FindNowherePastTag(text, open, body + close + rest, pat);
    assert text + open + (body + close + rest) == text + open + body + close + rest;
  }

  // ----- round trip

  lemma ExtractRenderedCall(t: Turn, rest: string)
    requires Plain(t.text) && Plain(t.code)
    ensures Extract(RenderCall(t) + rest, true) == Found(Clean(Call(t.text, t.code)), rest)
  {
    Tags();
    CutRendered(t.text, CODE, t.code, END_CODE, rest);
  }

  lemma ExtractRenderedOutput(t: Turn, rest: string)
    requires Plain(t.output)
    ensures Extract(RenderOutput(t) + rest, false) == Found(Tool(Strip(t.output)), rest)
  {
    Tags();
    CutRendered([], INTERPRETER, t.output, END_INTERPRETER, rest);
    assert [] + INTERPRETER + t.output + END_INTERPRETER + rest == RenderOutput(t) + rest;
  }

  lemma ExtractRenderedAnswer(text: string, answer: string, extra: string)
    requires Plain(text) && Plain(answer) && Find(extra, CODE) == None
    ensures Extract(text + ANSWER + answer + END_ANSWER + extra, true) == Found(Final(Strip(text + answer)), extra)
  {
    Tags();
    NotInBlock(text, ANSWER, answer, END_ANSWER, extra, CODE);
    CutRendered(text, ANSWER, answer, END_ANSWER, extra);
  }

  lemma ParseStep(s: string, assistant: bool, m: Message, rest: string)
    requires s != [] && Extract(s, assistant) == Found(m, rest)
    ensures Parse(s, assistant) == Prepend([m], Parse(rest, !assistant))
  {
  }

  /** One rendered turn is read off, and parsing goes on behind it. */
  lemma TurnStep(turn: Turn, rest: string)
    requires Plain(turn.text) && Plain(turn.code) && Plain(turn.output)
    ensures Parse(RenderCall(turn) + (RenderOutput(turn) + rest), true) ==
            Prepend([Clean(Call(turn.text, turn.code)), Clean(Tool(turn.output))], Parse(rest, true))
  {
    var output := RenderOutput(turn) + rest;
    ExtractRenderedOutput(turn, rest);
    assert RenderOutput(turn) != [] && output != [];
    ParseStep(output, false, Clean(Tool(turn.output)), rest);
    ExtractRenderedCall(turn, output);
    assert RenderCall(turn) != [] && RenderCall(turn) + output != [];
    ParseStep(RenderCall(turn) + output, true, Clean(Call(turn.text, turn.code)), output);
    PrependTwo(Clean(Call(turn.text, turn.code)), Clean(Tool(turn.output)), Parse(rest, true));
  }

  lemma PrependTwo(a: Message, b: Message, more: Option<seq<Message>>)
    ensures Prepend([a], Prepend([b], more)) == Prepend([a, b], more)
  {
    assert more.Some? ==> [a] + ([b] + more.value) == [a, b] + more.value;
  }

  lemma PrependAppend(ms: seq<Message>, ns: seq<Message>, more: Option<seq<Message>>)
    ensures Prepend(ms, Prepend(ns, more)) == Prepend(ms + ns, more)
  {
    assert more.Some? ==> ms + (ns + more.value) == (ms + ns) + more.value;
  }

  /**
   A rendered conversation with something behind it: its messages, and then what the parser makes of the rest, from
   which it expects an interpreter block first. The rest must not hold another code block.
   */
  lemma {:induction false} ParseRenderThen(t: Transcript, extra: string)
    requires PlainTranscript(t) && Find(extra, CODE) == None
    ensures Parse(Render(t) + extra, true) == Prepend(CleanAll(Messages(t)), Parse(extra, false))
    decreases |t.turns|
  {
    if t.turns == [] {
      ExtractRenderedAnswer(t.text, t.answer, extra);
      assert Render(t) + extra == t.text + ANSWER + t.answer + END_ANSWER + extra;
      assert Render(t) != [] && Render(t) + extra != [];
      ParseStep(Render(t) + extra, true, Final(Strip(t.text + t.answer)), extra);
      assert [Final(Strip(t.text + t.answer))] == CleanAll(Messages(t));
    } else {
      var turn, rest := t.turns[0], t.(turns := t.turns[1..]);
      ParseRenderThen(rest, extra);
      assert Render(t) + extra == RenderCall(turn) + (RenderOutput(turn) + (Render(rest) + extra));
      TurnStep(turn, Render(rest) + extra);
      var pair := [Clean(Call(turn.text, turn.code)), Clean(Tool(turn.output))];
      PrependAppend(pair, CleanAll(Messages(rest)), Parse(extra, false));
      CleanTurn(Call(turn.text, turn.code), Tool(turn.output), Messages(rest));
    }
  }

  /** Parsing the rendered conversation gives back its messages, stripped and out of their fences. */
  lemma ParseRender(t: Transcript)
    requires PlainTranscript(t)
    ensures Parse(Render(t), true) == Some(CleanAll(Messages(t)))
  {
    var empty: string := [];
    NoTagInPlain(empty, CODE);
    ParseRenderThen(t, empty);
    assert Render(t) + empty == Render(t) && CleanAll(Messages(t)) + [] == CleanAll(Messages(t));
  }

  lemma CleanTurn(a: Message, b: Message, rest: seq<Message>)
    ensures CleanAll([a, b] + rest) == [Clean(a), Clean(b)] + CleanAll(rest)
  {
  }

  /** Nothing to strip, and no code fence. */
  ghost predicate Tidy(m: Message) {
    Stripped(m.content) && (m.Call? ==> Find(m.code, FENCE) == None)
  }

  ghost predicate AllTidy(ms: seq<Message>) {
    forall i :: 0 <= i < |ms| ==> Tidy(ms[i])
  }

  lemma CleanTidy(m: Message)
    requires Tidy(m)
    ensures Clean(m) == m
  {
  }

  lemma CleanAllTidy(ms: seq<Message>)
    requires AllTidy(ms)
    ensures CleanAll(ms) == ms
  {
    forall i | 0 <= i < |ms|
      ensures CleanAll(ms)[i] == ms[i]
    {
      CleanTidy(ms[i]);
    }
  }

  /** A conversation whose messages are tidy comes back unchanged. */
  lemma ParseInvertsRender(t: Transcript)
    requires PlainTranscript(t) && AllTidy(Messages(t))
    ensures Parse(Render(t), true) == Some(Messages(t))
  {
    ParseRender(t);
    CleanAllTidy(Messages(t));
  }

  lemma FindFromIs(s: string, pat: string, i: nat, k: nat)
    requires i <= k && StartsAt(s, pat, k) && forall j: nat :: i <= j < k ==> !StartsAt(s, pat, j)
    ensures FindFrom(s, pat, i) == Some(k)
  {
  }

  /** Fenced code is what stands inside the first fence, up to where it is first closed. */
  lemma FencedCode(before: string, body: string, after: string)
    requires Find(before + "```python", "```python") == Some(|before|) && Find(body + "```", "```") == Some(|body|)
    ensures Unfenced(before + "```python" + body + "```" + after) == Strip(body)
  {
    var s := before + FENCE + body + END_FENCE + after;
    var a, b := |before|, |before| + |FENCE| + |body|;
    assert s[a..a + |FENCE|] == FENCE && s[b..b + |END_FENCE|] == END_FENCE && s[a + |FENCE|..b] == body;
    forall j: nat | j < a
      ensures !StartsAt(s, FENCE, j)
    {
      assert s[j..j + |FENCE|] == (before + FENCE)[j..j + |FENCE|];
      assert !StartsAt(before + FENCE, FENCE, j);
    }
    forall j: nat | a + |FENCE| <= j < b
      ensures !StartsAt(s, END_FENCE, j)
    {
      var k := j - a - |FENCE|;
      assert s[j..j + |END_FENCE|] == (body + END_FENCE)[k..k + |END_FENCE|];
      assert !StartsAt(body + END_FENCE, END_FENCE, k);
    }
    FindIs(s, FENCE, a);
    FindFromIs(s, END_FENCE, a + |FENCE|, b);
  }

  // ----- what may follow the final answer

  /** Plain text after the final answer is accepted exactly when there is none. */
  lemma TrailingTextExactly(t: Transcript, extra: string)
    requires PlainTranscript(t) && Plain(extra)
    ensures Parse(Render(t) + extra, true).Some? <==> extra == []
  {
    Tags();
    NoTagInPlain(extra, CODE);
    NoTagInPlain(extra, INTERPRETER);
    ParseRenderThen(t, extra);
    assert extra != [] ==> Extract(extra, false) == Missing;
  }

  lemma ParseOutput(output: string)
    requires Plain(output)
    ensures Parse(INTERPRETER + output + END_INTERPRETER, false) == Some([Tool(Strip(output))])
  {
    var turn, empty := Turn([], [], output), "";
    ExtractRenderedOutput(turn, empty);
    assert RenderOutput(turn) + empty == RenderOutput(turn) == INTERPRETER + output + END_INTERPRETER;
    assert INTERPRETER != [] && INTERPRETER + output + END_INTERPRETER != [];
    ParseStep(INTERPRETER + output + END_INTERPRETER, false, Tool(Strip(output)), empty);
    assert [Tool(Strip(output))] + [] == [Tool(Strip(output))];
  }

  lemma NoCodeInOutput(output: string)
    requires Plain(output)
    ensures Find(INTERPRETER + output + END_INTERPRETER, CODE) == None
  {
    var empty := "";
    Tags();
    NoTagInPlain(empty, CODE);
    NotInBlock(empty, INTERPRETER, output, END_INTERPRETER, empty, CODE);
    assert empty + INTERPRETER + output + END_INTERPRETER + empty == INTERPRETER + output + END_INTERPRETER;
  }

  /** One more interpreter block after the final answer is read as one more tool message. */
  lemma TrailingOutputAccepted(t: Transcript, output: string)
    requires PlainTranscript(t) && Plain(output)
    ensures Parse(Render(t) + ("<interpreter>" + output + "</interpreter>"), true)
            == Some(CleanAll(Messages(t)) + [Tool(Strip(output))])
  {
    NoCodeInOutput(output);
    ParseRenderThen(t, INTERPRETER + output + END_INTERPRETER);
    ParseOutput(output);
  }
}
