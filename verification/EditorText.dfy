/** The save-time steps on the text of an editor, which is changed in place. */
module EditorText {
  import opened Lines
  import opened SaveText

  class Editor {
    var text: string
    var diffLexer: bool
    var eolMode: EolMode
    var stripTrailingSpaces: bool
    var ensureConsistentLineEnds: bool
    var ensureFinalLineEnd: bool

    constructor (text: string, diffLexer: bool, eolMode: EolMode, strip: bool, consistent: bool, final: bool)
      ensures this.text == text && SaveOptions() == Options(strip, consistent, final, diffLexer, eolMode)
    {
      this.text, this.diffLexer, this.eolMode := text, diffLexer, eolMode;
      stripTrailingSpaces, ensureConsistentLineEnds, ensureFinalLineEnd := strip, consistent, final;
    }

    function SaveOptions(): Options
      reads this
    {
      Options(stripTrailingSpaces, ensureConsistentLineEnds, ensureFinalLineEnd, diffLexer, eolMode)
    }

    method StripTrailingSpaces()
      modifies this`text
      ensures text == Strip(old(text), diffLexer)
    {
      hide LineCount, StripLine;
      var maxLines := LineCount(text);
      var line := 0;
      while line < maxLines
        invariant line <= maxLines
        invariant StripFrom(text, line, maxLines, diffLexer) == Strip(old(text), diffLexer)
      {
        StripTrailingSpacesOf(line);
        line := line + 1;
      }
    }

    /** The body of the loop. */
    method StripTrailingSpacesOf(line: nat)
      modifies this`text
      ensures text == StripLine(old(text), line, diffLexer)
    {
      hide LinesOf;
      EndBound(text, line);
      var lineStart := PositionFromLine(text, line);
      var lineEnd := LineEndPosition(text, line);
      var i := lineEnd - 1;
      var ch := CharAt(text, i);
      if diffLexer { lineStart := lineStart + 1; }
      while i >= lineStart && (ch == ' ' || ch == '\t')
        invariant -1 <= i < lineEnd && ch == CharAt(text, i)
        invariant ScanBack(text, i, lineStart) == ScanBack(text, lineEnd - 1, lineStart)
        decreases i + 1
      {
        i := i - 1;
        ch := CharAt(text, i);
      }
      if i < lineEnd - 1 {
        text := text[..i + 1] + text[lineEnd..];
      } else {
        assert text == text[..lineEnd] + text[lineEnd..];
      }
    }

    method EnsureFinalLineEnd()
      modifies this`text
      ensures text == EnsureFinal(old(text), eolMode)
    {
      hide LinesOf;
      var maxLines := LineCount(text);
      var enddoc := PositionFromLine(text, maxLines);
      EndOfText(text);
      if maxLines <= 1 || enddoc > PositionFromLine(text, maxLines - 1) {
        text := text[..enddoc] + EolText(eolMode) + text[enddoc..];
      }
    }

    method EnsureConsistentLineEnds()
      modifies this`text
      ensures text == ConvertEols(old(text), eolMode)
    {
      text := ConvertEols(text, eolMode);
    }

    /** The part of cbEditor::Save that works on the text. */
    method NormaliseForSave()
      modifies this`text
      ensures text == Save(old(text), SaveOptions())
    {
      if stripTrailingSpaces { StripTrailingSpaces(); }
      if ensureConsistentLineEnds { EnsureConsistentLineEnds(); }
      if ensureFinalLineEnd { EnsureFinalLineEnd(); }
    }
  }

  lemma EndOfText(t: string)
    ensures PositionFromLine(t, LineCount(t)) == |t|
  {
    hide LinesOf, Join;
    JoinLines(t);
    assert LinesOf(t)[..LineCount(t)] == LinesOf(t);
  }
}
