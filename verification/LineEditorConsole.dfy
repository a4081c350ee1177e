/** The line editor as an object: its history, its draft, and the terminal it writes to. */
module LineEditorConsole {
  import opened LineEditing
  import opened Order
  import opened TextLines

  /** One turn of LoadHistory's loop. */
  lemma {:induction false} LoadNext(text: string)
    ensures text == "" ==> LoadedLines(text) == []
    ensures text != "" ==>
              var end := LineEnd(text);
              LoadedLines(text) == OneLine(text[..end]) + LoadedLines(if end == |text| then "" else text[end + 1..])
  {
  }

  datatype ModeFlag = LineInput | EchoInput | ProcessedInput | OtherFlag(bit: nat)

  class LineEditor {
    var history: seq<string>
    var historyIndex: nat
    var draft: string
    var line: string
    var caret: nat
    var mode: set<ModeFlag>
    var originalMode: set<ModeFlag>

    ghost function Terminal(): Screen
      reads this
    {
      Screen(line, caret)
    }

    constructor (consoleMode: set<ModeFlag>)
      ensures mode == consoleMode && history == [] && historyIndex == 0 && draft == "" && Terminal() == Screen("", 0)
    {
      history, historyIndex, draft, line, caret, mode, originalMode := [], 0, "", "", 0, consoleMode, {};
    }

    method WriteRaw(text: string)
      modifies this`line, this`caret
      ensures Terminal() == Write(old(Terminal()), text)
    {
      var end := caret + |text|;
      var before := if caret <= |line| then line[..caret] else line + Blanks(caret - |line|);
      line := before + text + if end < |line| then line[end..] else "";
      caret := end;
    }

    method ClearLine()
      modifies this`line, this`caret
      ensures Terminal() == Clear(old(Terminal()))
    {
      line, caret := "", 0;
    }

    method MoveCursorLeft(count: nat)
      modifies this`caret
      ensures Terminal() == MoveLeft(old(Terminal()), count)
    {
      if count == 0 {
        return;
      }
      caret := if count <= caret then caret - count else 0;
    }

    method MoveCursorRight(count: nat)
      modifies this`caret
      ensures Terminal() == MoveRight(old(Terminal()), count)
    {
      if count == 0 {
        return;
      }
      caret := caret + count;
    }

    method Show(prompt: string, buffer: string, cursor: nat)
      requires cursor <= |buffer|
      modifies this`line, this`caret
      ensures Terminal() == Render(old(Terminal()), prompt, buffer, cursor)
    {
      ClearLine();
      WriteRaw(prompt);
      WriteRaw(buffer);
      MoveCursorLeft(|buffer| - cursor);
    }

    /** One key that does not end the line: the new buffer and cursor, with the drawing done on the way. */
    method HandleKey(prompt: string, buffer: string, cursor: nat, key: Key) returns (newBuffer: string, newCursor: nat)
      requires Valid(Editor(buffer, cursor, draft, historyIndex, history))
      modifies this`draft, this`historyIndex, this`line, this`caret
      ensures var e := Editor(buffer, cursor, old(draft), old(historyIndex), history);
              && Editor(newBuffer, newCursor, draft, historyIndex, history) == Press(e, key)
              && Terminal() == Draw(old(Terminal()), prompt, e, key)
    {
      newBuffer, newCursor := buffer, cursor;
      match key
      case Cancel =>
        newBuffer, newCursor := "", 0;
        draft := "";
        historyIndex := |history|;
        ClearLine();
        Show(prompt, newBuffer, newCursor);
      case Back =>
        if cursor > 0 {
          newBuffer := buffer[..cursor - 1] + buffer[cursor..];
          newCursor := cursor - 1;
          Show(prompt, newBuffer, newCursor);
        }
      case Delete =>
        if cursor < |buffer| {
          newBuffer := buffer[..cursor] + buffer[cursor + 1..];
          Show(prompt, newBuffer, newCursor);
        }
      case Left =>
        if cursor > 0 {
          newCursor := cursor - 1;
          MoveCursorLeft(1);
        }
      case Right =>
        if cursor < |buffer| {
          newCursor := cursor + 1;
          MoveCursorRight(1);
        }
      case Home =>
        MoveCursorLeft(cursor);
        newCursor := 0;
      case End =>
        MoveCursorRight(|buffer| - cursor);
        newCursor := |buffer|;
      case Up =>
        if historyIndex > 0 {
          if historyIndex == |history| {
            draft := buffer;
          }
          historyIndex := historyIndex - 1;
          newBuffer := history[historyIndex];
          newCursor := |newBuffer|;
          Show(prompt, newBuffer, newCursor);
        }
      case Down =>
        if historyIndex < |history| {
          historyIndex := historyIndex + 1;
          newBuffer := if historyIndex == |history| then draft else history[historyIndex];
          newCursor := |newBuffer|;
          Show(prompt, newBuffer, newCursor);
        }
      case Escape =>
        if buffer != "" {
          newBuffer, newCursor := "", 0;
          Show(prompt, newBuffer, newCursor);
        }
      case Typed(c) =>
        newBuffer := buffer[..cursor] + [c] + buffer[cursor..];
        newCursor := cursor + 1;
        Show(prompt, newBuffer, newCursor);
      case Enter =>
      case Ignored =>
    }

    /** ReadLine; `shown` is the terminal before the line feed that ends the line. Whatever ends it, the console gets
        its mode back. */
    method ReadLine(hasInput: bool, prompt: string, keys: seq<Key>)
      returns (ending: Ending, ghost shown: Screen, ghost last: Editor)
      modifies this`draft, this`historyIndex, this`line, this`caret, this`mode, this`originalMode
      ensures mode == old(mode)
      ensures !hasInput ==> ending == Quit && draft == old(draft) && historyIndex == old(historyIndex) && Terminal() == old(Terminal())
      ensures hasInput ==>
                && (ending, last) == Read(Fresh(history), keys)
                && draft == last.draft && historyIndex == last.index
                && Valid(last) && shown == Picture(prompt, last)
    {
      if !hasInput {
        return Quit, Terminal(), Fresh(history);
      }
      originalMode := mode;
      mode := mode - {LineInput, EchoInput, ProcessedInput};
      ending, shown, last := EditLine(prompt, keys);
      mode := originalMode;
    }

    /** The key loop. */
    method EditLine(prompt: string, keys: seq<Key>) returns (ending: Ending, ghost shown: Screen, ghost last: Editor)
      modifies this`draft, this`historyIndex, this`line, this`caret
      ensures (ending, last) == Read(Fresh(history), keys)
      ensures draft == last.draft && historyIndex == last.index
      ensures Valid(last) && shown == Picture(prompt, last)
    {
      var buffer, cursor := "", 0;
      draft := "";
      historyIndex := |history|;
      RenderShows(Terminal(), prompt, buffer, cursor);
      Show(prompt, buffer, cursor);
      last := Fresh(history);
      var i := 0;
      while i < |keys|
        invariant i <= |keys| && last == Editor(buffer, cursor, draft, historyIndex, history) && Valid(last)
        invariant Terminal() == Picture(prompt, last)
        invariant Read(last, keys[i..]) == Read(Fresh(history), keys)
      {
        ghost var left := keys[i..];
        assert left[0] == keys[i] && left[1..] == keys[i + 1..];
        shown := Terminal();
        if keys[i].Enter? || (keys[i].Cancel? && buffer == "") {
          ending := if keys[i].Enter? then Submitted(buffer) else Quit;
          line, caret := "", 0;
          return;
        }
        DrawShows(Terminal(), prompt, last, keys[i]);
        PressKeeps(last, keys[i]);
        buffer, cursor := HandleKey(prompt, buffer, cursor, keys[i]);
        last := Press(last, keys[i]);
        i := i + 1;
      }
      shown := Terminal();
      ending := Quit;
    }

    method AddHistory(text: string)
      modifies this`history, this`historyIndex
      ensures history == Added(old(history), text)
      ensures historyIndex == if history == old(history) then old(historyIndex) else |history|
    {
      if text == "" || (history != [] && history[|history| - 1] == text) {
        return;
      }
      history := history + [text];
      if |history| > MAX_HISTORY {
        history := history[1..];
      }
      historyIndex := |history|;
    }

    /** LoadHistory, once the file has been read and converted. */
    method LoadHistory(content: string)
      modifies this`history, this`historyIndex
      ensures history == old(history) + LoadedLines(content) && historyIndex == |history|
    {
      hide LoadedLines;
      var left := content;
      while left != ""
        invariant history + LoadedLines(left) == old(history) + LoadedLines(content)
        decreases |left|
      {
        LoadNext(left);
        var end := LineEnd(left);
        var line := WithoutCr(left[..end]);
        ghost var before := history;
        left := if end == |left| then "" else left[end + 1..];
        if line != "" {
          history := history + [line];
          assert before + ([line] + LoadedLines(left)) == history + LoadedLines(left);
        } else {
          assert [] + LoadedLines(left) == LoadedLines(left);
        }
      }
      LoadNext("");
      assert history + [] == history;
      historyIndex := |history|;
    }

    /** The text SaveHistory writes. */
    method HistoryText() returns (text: string)
      ensures text == SavedText(history)
    {
      text := "";
      for i := 0 to |history|
        invariant text + SavedText(history[i..]) == SavedText(history)
      {
        assert history[i..][1..] == history[i + 1..];
        ghost var before := text;
        text := text + (history[i] + "\n");
        assert before + (history[i] + ("\n" + SavedText(history[i + 1..]))) == text + SavedText(history[i + 1..]);
      }
    }
  }
}
