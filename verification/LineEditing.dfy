/** The line editor's keys and what each writes to the terminal. Characters are one cell wide and the line does not
    wrap. */
module LineEditing {
  import opened Order
  import opened TextLines

  const MAX_HISTORY: nat := 1000

  datatype Key =
    | Cancel | Enter | Back | Delete | Left | Right | Home | End | Up | Down | Escape | Typed(c: char) | Ignored

  datatype Editor = Editor(buffer: string, cursor: nat, draft: string, index: nat, history: seq<string>)

  /** The terminal line and the column of the caret. */
  datatype Screen = Screen(line: string, caret: nat)

  // The terminal.

  function Blanks(n: nat): (s: string)
    ensures |s| == n
  {
    seq(n, _ => ' ')
  }

  /** ESC [2K after a carriage return. */
  function Clear(s: Screen): Screen {
    Screen("", 0)
  }

  /** Text overwrites the cells from the caret on. */
  function Write(s: Screen, text: string): Screen {
    var end := s.caret + |text|;
    var before := if s.caret <= |s.line| then s.line[..s.caret] else s.line + Blanks(s.caret - |s.line|);
    var after := if end < |s.line| then s.line[end..] else "";
    Screen(before + text + after, end)
  }

  function MoveLeft(s: Screen, n: nat): Screen {
    s.(caret := if n <= s.caret then s.caret - n else 0)
  }

  function MoveRight(s: Screen, n: nat): Screen {
    s.(caret := s.caret + n)
  }

  /** Render. */
  function Render(s: Screen, prompt: string, buffer: string, cursor: nat): Screen
    requires cursor <= |buffer|
  {
    MoveLeft(Write(Write(Clear(s), prompt), buffer), |buffer| - cursor)
  }

  /** What the user should see. */
  function Picture(prompt: string, e: Editor): Screen {
    Screen(prompt + e.buffer, |prompt| + e.cursor)
  }

  // Keys.

  predicate Valid(e: Editor) {
    e.cursor <= |e.buffer| && e.index <= |e.history|
  }

  function Fresh(history: seq<string>): Editor {
    Editor("", 0, "", |history|, history)
  }

  function Showing(e: Editor, text: string): Editor {
    e.(buffer := text, cursor := |text|)
  }

  /** One key, except those that end the line. */
  function Press(e: Editor, key: Key): (f: Editor)
    requires Valid(e)
  {
    match key
    case Cancel => Fresh(e.history)
    case Enter => e
    case Back =>
      if e.cursor > 0 then e.(buffer := e.buffer[..e.cursor - 1] + e.buffer[e.cursor..], cursor := e.cursor - 1) else e
    case Delete =>
      if e.cursor < |e.buffer| then e.(buffer := e.buffer[..e.cursor] + e.buffer[e.cursor + 1..]) else e
    case Left => if e.cursor > 0 then e.(cursor := e.cursor - 1) else e
    case Right => if e.cursor < |e.buffer| then e.(cursor := e.cursor + 1) else e
    case Home => e.(cursor := 0)
    case End => e.(cursor := |e.buffer|)
    case Up =>
      if e.index == 0 then e
      else
        var d := if e.index == |e.history| then e.(draft := e.buffer) else e;
        Showing(d.(index := e.index - 1), e.history[e.index - 1])
    case Down =>
      if e.index == |e.history| then e
      else
        Showing(e.(index := e.index + 1), if e.index + 1 == |e.history| then e.draft else e.history[e.index + 1])
    case Escape => if e.buffer != "" then e.(buffer := "", cursor := 0) else e
    case Typed(c) => e.(buffer := e.buffer[..e.cursor] + [c] + e.buffer[e.cursor..], cursor := e.cursor + 1)
    case Ignored => e
  }

  /** What the editor writes for a key: short caret moves where they do, else a new drawing of the line. */
  function Draw(s: Screen, prompt: string, e: Editor, key: Key): Screen
    requires Valid(e)
  {
    var f := Press(e, key);
    PressKeeps(e, key);
    match key
    case Cancel => Render(Clear(s), prompt, f.buffer, f.cursor)
    case Left => if e.cursor > 0 then MoveLeft(s, 1) else s
    case Right => if e.cursor < |e.buffer| then MoveRight(s, 1) else s
    case Home => MoveLeft(s, e.cursor)
    case End => MoveRight(s, |e.buffer| - e.cursor)
    case Back => if e.cursor > 0 then Render(s, prompt, f.buffer, f.cursor) else s
    case Delete => if e.cursor < |e.buffer| then Render(s, prompt, f.buffer, f.cursor) else s
    case Up => if e.index > 0 then Render(s, prompt, f.buffer, f.cursor) else s
    case Down => if e.index < |e.history| then Render(s, prompt, f.buffer, f.cursor) else s
    case Escape => if e.buffer != "" then Render(s, prompt, f.buffer, f.cursor) else s
    case Typed(_) => Render(s, prompt, f.buffer, f.cursor)
    case _ => s
  }

  /** The caret stays within the buffer and the history position within the history. */
  lemma {:induction false} PressKeeps(e: Editor, key: Key)
    requires Valid(e)
    ensures Valid(Press(e, key)) && Press(e, key).history == e.history
  {
  }

  lemma {:induction false} RenderShows(s: Screen, prompt: string, buffer: string, cursor: nat)
    requires cursor <= |buffer|
    ensures Render(s, prompt, buffer, cursor) == Screen(prompt + buffer, |prompt| + cursor)
  {
    var written := Write(Clear(s), prompt);
    assert written.line == prompt && written.caret == |prompt|;
    assert prompt[..|prompt|] == prompt;
    assert Write(written, buffer).line == prompt + buffer;
  }

  /** Whatever a key wrote, the screen is what a full redraw would show. */
  lemma {:induction false} DrawShows(s: Screen, prompt: string, e: Editor, key: Key)
    requires Valid(e) && s == Picture(prompt, e)
    ensures Draw(s, prompt, e, key) == Picture(prompt, Press(e, key))
  {
    var f := Press(e, key);
    PressKeeps(e, key);
    RenderShows(s, prompt, f.buffer, f.cursor);
    RenderShows(Clear(s), prompt, f.buffer, f.cursor);
  }

  // A reference for the edits: the text before the caret and the text behind it.

  datatype Split = Split(before: string, behind: string)

  function SplitOf(e: Editor): Split
    requires Valid(e)
  {
    Split(e.buffer[..e.cursor], e.buffer[e.cursor..])
  }

  function EditSplit(s: Split, key: Key): Split {
    match key
    case Back => if s.before == "" then s else s.(before := s.before[..|s.before| - 1])
    case Delete => if s.behind == "" then s else s.(behind := s.behind[1..])
    case Left =>
      if s.before == "" then s
      else Split(s.before[..|s.before| - 1], [s.before[|s.before| - 1]] + s.behind)
    case Right => if s.behind == "" then s else Split(s.before + [s.behind[0]], s.behind[1..])
    case Home => Split("", s.before + s.behind)
    case End => Split(s.before + s.behind, "")
    case Typed(c) => s.(before := s.before + [c])
    case Escape => Split("", "")
    case Cancel => Split("", "")
    case _ => s
  }

  /** Every editing key acts on the text around the caret; no other text is touched. */
  lemma {:induction false} EditsAroundCaret(e: Editor, key: Key)
    requires Valid(e) && !key.Up? && !key.Down?
    ensures Valid(Press(e, key)) && SplitOf(Press(e, key)) == EditSplit(SplitOf(e), key)
  {
    var s, f := SplitOf(e), Press(e, key);
    assert e.buffer == s.before + s.behind;
    assert SplitOf(f).before == EditSplit(s, key).before;
    assert SplitOf(f).behind == EditSplit(s, key).behind;
  }

  // Whole lines.

  datatype Ending = Submitted(line: string) | Quit

  /** Enter ends the line; a cancel key does when there is nothing to discard. */
  predicate EndsLine(e: Editor, key: Key) {
    key.Enter? || (key.Cancel? && e.buffer == "")
  }

  /** Reading one line: the keys are pressed until one ends it; when the input ends the editor quits. */
  function Read(e: Editor, keys: seq<Key>): (r: (Ending, Editor))
    requires Valid(e)
    decreases |keys|
  {
    if keys == [] then (Quit, e)
    else if EndsLine(e, keys[0]) then (if keys[0].Enter? then Submitted(e.buffer) else Quit, e)
    else (PressKeeps(e, keys[0]); Read(Press(e, keys[0]), keys[1..]))
  }

  function Pressed(e: Editor, keys: seq<Key>): (f: Editor)
    requires Valid(e)
    ensures Valid(f) && f.history == e.history
    decreases |keys|
  {
    if keys == [] then e else (PressKeeps(e, keys[0]); Pressed(Press(e, keys[0]), keys[1..]))
  }

  /** Number of keys pressed before the one that ends the line, if any does. */
  function Taken(e: Editor, keys: seq<Key>): (k: nat)
    requires Valid(e)
    ensures k <= |keys|
    decreases |keys|
  {
    if keys == [] || EndsLine(e, keys[0]) then 0
    else (PressKeeps(e, keys[0]); 1 + Taken(Press(e, keys[0]), keys[1..]))
  }

  /** The line handed over is the buffer after all keys before the first that ends the line, and it is handed over
      exactly when that key is Enter. */
  lemma {:induction false} ReadMeaning(e: Editor, keys: seq<Key>)
    requires Valid(e)
    ensures var k := Taken(e, keys);
            && Read(e, keys).1 == Pressed(e, keys[..k])
            && Read(e, keys).0 == (if k < |keys| && keys[k].Enter? then Submitted(Pressed(e, keys[..k]).buffer) else Quit)
            && (k < |keys| ==> keys[k].Enter? || (keys[k].Cancel? && Pressed(e, keys[..k]).buffer == ""))
            && forall j :: 0 <= j < k ==> !keys[j].Enter? && (keys[j].Cancel? ==> Pressed(e, keys[..j]).buffer != "")
    decreases |keys|
  {
    if keys != [] && !EndsLine(e, keys[0]) {
      var k, f, rest := Taken(e, keys), Press(e, keys[0]), keys[1..];
      PressKeeps(e, keys[0]);
      ReadMeaning(f, rest);
      assert keys[..k][1..] == rest[..k - 1];
      forall j | 0 <= j < k
        ensures !keys[j].Enter? && (keys[j].Cancel? ==> Pressed(e, keys[..j]).buffer != "")
      {
        if j > 0 { assert keys[..j][1..] == rest[..j - 1]; }
      }
    }
  }

  function Drawn(s: Screen, prompt: string, e: Editor, keys: seq<Key>): Screen
    requires Valid(e)
    decreases |keys|
  {
    if keys == [] then s
    else
      PressKeeps(e, keys[0]);
      Drawn(Draw(s, prompt, e, keys[0]), prompt, Press(e, keys[0]), keys[1..])
  }

  /** Incremental drawing agrees with full redraw after every key sequence. */
  lemma {:induction false} AlwaysShows(s: Screen, prompt: string, e: Editor, keys: seq<Key>)
    requires Valid(e) && s == Picture(prompt, e)
    ensures Drawn(s, prompt, e, keys) == Picture(prompt, Pressed(e, keys))
    decreases |keys|
  {
    if keys != [] {
      PressKeeps(e, keys[0]);
      DrawShows(s, prompt, e, keys[0]);
      AlwaysShows(Draw(s, prompt, e, keys[0]), prompt, Press(e, keys[0]), keys[1..]);
    }
  }

  // History.

  predicate Walks(keys: seq<Key>) {
    forall k :: k in keys ==> k.Up? || k.Down?
  }

  /** The draft is shown, or kept aside while its place in the history is shown. */
  predicate Keeps(e: Editor, draft: string)
    requires Valid(e)
  {
    if e.index == |e.history| then e.buffer == draft else e.draft == draft && e.buffer == e.history[e.index]
  }

  /** However the user walks up and down, the draft is there again whenever the walk is back at its end. */
  lemma {:induction false} DraftReturns(e: Editor, draft: string, keys: seq<Key>)
    requires Valid(e) && Keeps(e, draft) && Walks(keys)
    ensures Keeps(Pressed(e, keys), draft)
    decreases |keys|
  {
    if keys != [] {
      PressKeeps(e, keys[0]);
      assert keys[0] in keys;
      DraftReturns(Press(e, keys[0]), draft, keys[1..]);
    }
  }

  function Times(key: Key, k: nat): (keys: seq<Key>)
    ensures |keys| == k
  {
    seq(k, _ => key)
  }

  lemma {:induction false} PressedUp(e: Editor, k: nat)
    requires Valid(e)
    ensures Pressed(e, Times(Up, k)).index == if k <= e.index then e.index - k else 0
    decreases k
  {
    if k > 0 {
      assert Times(Up, k)[1..] == Times(Up, k - 1);
      PressKeeps(e, Up);
      PressedUp(Press(e, Up), k - 1);
    }
  }

  lemma {:induction false} PressedDown(e: Editor, k: nat)
    requires Valid(e)
    ensures Pressed(e, Times(Down, k)).index == if e.index + k <= |e.history| then e.index + k else |e.history|
    decreases k
  {
    if k > 0 {
      assert Times(Down, k)[1..] == Times(Down, k - 1);
      PressKeeps(e, Down);
      PressedDown(Press(e, Down), k - 1);
    }
  }

  /** From the draft, as many Down keys as Up keys bring the draft back, even past the oldest entry; on the way up the
      `k`th newest entry is shown. */
  lemma {:induction false} UpThenDown(e: Editor, k: nat)
    requires Valid(e) && e.index == |e.history|
    ensures var up := Pressed(e, Times(Up, k));
            var down := Pressed(up, Times(Down, k));
            && (1 <= k <= |e.history| ==> up.buffer == e.history[|e.history| - k])
            && down.buffer == e.buffer && down.index == |e.history|
  {
    var up := Pressed(e, Times(Up, k));
    PressedUp(e, k);
    DraftReturns(e, e.buffer, Times(Up, k));
    PressedDown(up, k);
    DraftReturns(up, e.buffer, Times(Down, k));
  }

  /** Walking through the history leaves the caret at the end of the text shown, unless it leads nowhere. */
  lemma {:induction false} WalkEndsAtEnd(e: Editor, keys: seq<Key>)
    requires Valid(e) && Walks(keys)
    ensures Pressed(e, keys).cursor == |Pressed(e, keys).buffer| || Pressed(e, keys) == e
    decreases |keys|
  {
    if keys != [] {
      assert keys[0] in keys;
      PressKeeps(e, keys[0]);
      WalkEndsAtEnd(Press(e, keys[0]), keys[1..]);
    }
  }

  /** Editing keys do not move in the history and do not touch the draft. */
  lemma {:induction false} EditsKeepPlace(e: Editor, key: Key)
    requires Valid(e) && !key.Up? && !key.Down? && !key.Cancel?
    ensures Press(e, key).index == e.index && Press(e, key).draft == e.draft
  {
  }

  /** After a cancel, wherever it came, the line is empty, the `k`th Up shows the `k`th newest entry, and as many Downs
      lead back to the empty line. */
  lemma {:induction false} CancelStartsOver(e: Editor, k: nat)
    requires Valid(e)
    ensures var start := Press(e, Cancel);
            && Valid(start) && start.buffer == "" && start.cursor == 0
            && var up := Pressed(start, Times(Up, k));
               var down := Pressed(up, Times(Down, k));
               && (1 <= k <= |e.history| ==> up.buffer == e.history[|e.history| - k] && up.cursor == |up.buffer|)
               && down.buffer == "" && down.cursor == 0
  {
    PressKeeps(e, Cancel);
    var start := Press(e, Cancel);
    UpThenDown(start, k);
    WalkEndsAtEnd(start, Times(Up, k));
    WalkEndsAtEnd(Pressed(start, Times(Up, k)), Times(Down, k));
    PressedUp(start, k);
  }

  /** AddHistory: empty lines and repetitions of the last one are not kept; at most 1000 are. */
  function Added(history: seq<string>, line: string): seq<string> {
    if line == "" || (history != [] && history[|history| - 1] == line) then history
    else
      var longer := history + [line];
      if |longer| > MAX_HISTORY then longer[1..] else longer
  }

  function AddedAll(history: seq<string>, lines: seq<string>): seq<string>
    decreases |lines|
  {
    if lines == [] then history else AddedAll(Added(history, lines[0]), lines[1..])
  }

  /** The lines without empty ones and without immediate repetitions, `last` being the one before. */
  function Compact(last: string, lines: seq<string>): seq<string>
    decreases |lines|
  {
    if lines == [] then []
    else if lines[0] == "" || lines[0] == last then Compact(last, lines[1..])
    else [lines[0]] + Compact(lines[0], lines[1..])
  }

  /** The newest `n` of the lines. */
  function Newest(lines: seq<string>, n: nat): seq<string> {
    if |lines| <= n then lines else lines[|lines| - n..]
  }

  function LastOf(history: seq<string>): string {
    if history == [] then "" else history[|history| - 1]
  }

  lemma {:induction false} AddedNewest(history: seq<string>, line: string, rest: seq<string>)
    requires line != "" && line != LastOf(history)
    ensures var bound := Max(MAX_HISTORY, |history|);
            && Newest(Added(history, line) + rest, bound) == Newest(history + ([line] + rest), bound)
            && Max(MAX_HISTORY, |Added(history, line)|) == bound
  {
    var next, all := Added(history, line), history + ([line] + rest);
    if |history| < MAX_HISTORY { assert next + rest == all; } else { assert next + rest == all[1..]; }
  }

  /** The history is the newest thousand of the lines with empty ones and repetitions dropped, or as many as there were
      when it was longer to begin with: adding lines to a longer history never shortens it. */
  lemma {:induction false} HistoryKeepsNewest(history: seq<string>, lines: seq<string>)
    ensures AddedAll(history, lines)
            == Newest(history + Compact(LastOf(history), lines), if |history| > 1000 then |history| else 1000)
    decreases |lines|
  {
    if lines == [] {
      assert history + [] == history;
    } else {
      hide Newest;
      var next := Added(history, lines[0]);
      HistoryKeepsNewest(next, lines[1..]);
      if lines[0] != "" && lines[0] != LastOf(history) {
        assert LastOf(next) == lines[0];
        AddedNewest(history, lines[0], Compact(lines[0], lines[1..]));
      }
    }
  }

  // The history file.

  /** SaveHistory: each line and a line feed. */
  function SavedText(history: seq<string>): string {
    if history == [] then "" else history[0] + ("\n" + SavedText(history[1..]))
  }

  /** LoadHistory: the lines of the text, each without a carriage return at its end, the empty ones left out. */
  function LoadedLines(text: string): (lines: seq<string>)
    ensures forall i :: 0 <= i < |lines| ==> lines[i] != "" && NoLineFeed(lines[i])
    decreases |text|
  {
    if text == "" then []
    else
      var end := LineEnd(text);
      var line := WithoutCr(text[..end]);
      (if line == "" then [] else [line]) + LoadedLines(if end == |text| then "" else text[end + 1..])
  }

  predicate NoLineFeed(line: string) {
    forall k :: 0 <= k < |line| ==> line[k] != '\n'
  }

  /** A line that a file of lines can hold. */
  predicate Storable(line: string) {
    line != "" && NoLineFeed(line) && line[|line| - 1] != '\r'
  }

  function Size(lines: seq<string>): nat {
    if lines == [] then 0 else |lines[0]| + 1 + Size(lines[1..])
  }

  lemma {:induction false} LoadFirst(line: string, rest: string)
    requires NoLineFeed(line)
    ensures LoadedLines(line + ("\n" + rest))
            == (if WithoutCr(line) == "" then [] else [WithoutCr(line)]) + LoadedLines(rest)
  {
    var text := line + ("\n" + rest);
    assert text[|line|] == '\n' && LineEnd(text) == |line| && text[..|line|] == line && text[|line| + 1..] == rest;
  }

  lemma {:induction false} SizeFirst(line: string, lines: seq<string>)
    ensures Size([line] + lines) == |line| + 1 + Size(lines)
  {
    assert ([line] + lines)[1..] == lines;
  }

  function OneLine(line: string): seq<string> {
    if WithoutCr(line) == "" then [] else [WithoutCr(line)]
  }

  lemma {:induction false} LoadStep(history: seq<string>)
    requires history != [] && NoLineFeed(history[0])
    ensures LoadedLines(SavedText(history)) == OneLine(history[0]) + LoadedLines(SavedText(history[1..]))
    ensures Size(LoadedLines(SavedText(history))) == Size(OneLine(history[0])) + Size(LoadedLines(SavedText(history[1..])))
  {
    var rest := LoadedLines(SavedText(history[1..]));
    LoadFirst(history[0], SavedText(history[1..]));
    hide LoadedLines;
    if OneLine(history[0]) != [] { SizeFirst(OneLine(history[0])[0], rest); } else { assert [] + rest == rest; }
    assert OneLine(history[0]) != [] ==> OneLine(history[0])[1..] == [];
  }

  lemma {:induction false} OneLineSize(line: string)
    requires NoLineFeed(line)
    ensures Size(OneLine(line)) <= |line| + 1
    ensures !Storable(line) ==> Size(OneLine(line)) < |line| + 1
    ensures Storable(line) ==> OneLine(line) == [line]
  {
    assert OneLine(line) != [] ==> OneLine(line)[1..] == [];
  }

  /** What is loaded again is never larger. */
  lemma {:induction false} LoadedAtMost(history: seq<string>)
    requires forall i :: 0 <= i < |history| ==> NoLineFeed(history[i])
    ensures Size(LoadedLines(SavedText(history))) <= Size(history)
    decreases |history|
  {
    if history != [] {
      hide LoadedLines, OneLine;
      LoadStep(history);
      OneLineSize(history[0]);
      LoadedAtMost(history[1..]);
    }
  }

  /** And smaller as soon as one line cannot be stored. */
  lemma {:induction false} LoadedLess(history: seq<string>, k: nat)
    requires forall i :: 0 <= i < |history| ==> NoLineFeed(history[i])
    requires k < |history| && !Storable(history[k])
    ensures Size(LoadedLines(SavedText(history))) < Size(history)
    decreases |history|
  {
    hide LoadedLines, OneLine, Storable;
    LoadStep(history);
    OneLineSize(history[0]);
    if k == 0 { LoadedAtMost(history[1..]); } else { LoadedLess(history[1..], k - 1); }
  }

  lemma {:induction false} LoadedAgain(history: seq<string>)
    requires forall i :: 0 <= i < |history| ==> Storable(history[i])
    ensures LoadedLines(SavedText(history)) == history
    decreases |history|
  {
    if history != [] {
      hide LoadedLines, OneLine;
      LoadStep(history);
      OneLineSize(history[0]);
      LoadedAgain(history[1..]);
      assert [history[0]] + history[1..] == history;
    }
  }

  /** Saving a history and loading it again gives it back exactly when every line can be stored: not empty, without a
      line feed, and not ending in a carriage return. */
  lemma {:induction false} SaveThenLoad(history: seq<string>)
    ensures LoadedLines(SavedText(history)) == history <==> forall i :: 0 <= i < |history| ==> Storable(history[i])
  {
    var loaded := LoadedLines(SavedText(history));
    if forall i :: 0 <= i < |history| ==> Storable(history[i]) {
      LoadedAgain(history);
    } else if forall i :: 0 <= i < |history| ==> NoLineFeed(history[i]) {
      var k :| 0 <= k < |history| && !Storable(history[k]);
      LoadedLess(history, k);
    } else {
      assert forall i :: 0 <= i < |loaded| ==> NoLineFeed(loaded[i]);
    }
  }
}
