/** `SrcFileData`: the cached text of one source file, as it is read and highlighted. */
module SrcFile {
  import opened Numeric
  import opened LineRange

  class SrcFileData {
    /** The file's full name, which is also its key in the cache. */
    const fileName: string
    var lines: seq<string>
    var linesHighlight: seq<HighlightLine>
    var readDone: bool
    var highlightDone: bool

    /** `SrcFileData::new`: an entry for the file with nothing read and nothing highlighted. */
    constructor (fileName: string)
      ensures this.fileName == fileName && lines == [] && linesHighlight == []
      ensures !readDone && !highlightDone
    {
      this.fileName := fileName;
      lines := [];
      linesHighlight := [];
      readDone := false;
      highlightDone := false;
    }

    /** `get_key`: entries are keyed by the file name they were created for. */
    function GetKey(): (k: string)
      ensures k == fileName
    {
      fileName
    }

    function GetReadDone(): bool
      reads this
    {
      readDone
    }

    /** `set_read_done`: raises the read flag and touches nothing else. */
    method SetReadDone()
      modifies this
      ensures readDone && highlightDone == old(highlightDone)
      ensures lines == old(lines) && linesHighlight == old(linesHighlight)
    {
      readDone := true;
    }

    function GetHighlightDone(): bool
      reads this
    {
      highlightDone
    }

    /** `set_highlight_done`: raises the highlight flag and touches nothing else. */
    method SetHighlightDone()
      modifies this
      ensures highlightDone && readDone == old(readDone)
      ensures lines == old(lines) && linesHighlight == old(linesHighlight)
    {
      highlightDone := true;
    }

    /** `get_lines_len`. */
    function GetLinesLen(): (n: nat)
      reads this
      ensures n == |lines|
    {
      |lines|
    }

    /** `add_line`: one more line at the end; earlier lines, highlights and flags stay. */
    method AddLine(line: string)
      modifies this
      ensures lines == old(lines) + [line]
      ensures linesHighlight == old(linesHighlight) && readDone == old(readDone) && highlightDone == old(highlightDone)
    {
      lines := lines + [line];
    }

    /** `add_highlight_line`: one more highlighted line; the plain lines and flags stay. */
    method AddHighlightLine(line: HighlightLine)
      modifies this
      ensures linesHighlight == old(linesHighlight) + [line]
      ensures lines == old(lines) && readDone == old(readDone) && highlightDone == old(highlightDone)
    {
      linesHighlight := linesHighlight + [line];
    }

    /** `get_lines_range`: the 1-based window over the plain lines. */
    function GetLinesRange(start: usize, end: usize): (r: (seq<string>, usize, usize))
      reads this
      requires |lines| < USIZE_MAX
      ensures r == LinesRange(lines, start, end)
    {
      LinesRange(lines, start, end)
    }

    /** `get_highlight_lines_range`: the same window over the highlighted lines. */
    function GetHighlightLinesRange(start: usize, end: usize): (r: (seq<HighlightLine>, usize, usize))
      reads this
      requires |linesHighlight| < USIZE_MAX
      ensures r == LinesRange(linesHighlight, start, end)
    {
      LinesRange(linesHighlight, start, end)
    }
  }

  /**
   * Reading a file line by line: after `new` and `n` calls of `add_line`, the entry holds
   * exactly those lines, in call order, so `get_lines_len` counts the calls.
   */
  method ReadLines(fileName: string, text: seq<string>) returns (f: SrcFileData)
    ensures f.fileName == fileName && f.lines == text && f.GetLinesLen() == |text|
    ensures f.linesHighlight == [] && !f.readDone && !f.highlightDone
  {
    f := new SrcFileData(fileName);
    for i := 0 to |text|
      invariant f.lines == text[..i] && f.fileName == fileName
      invariant f.linesHighlight == [] && !f.readDone && !f.highlightDone
    {
      assert text[..i + 1] == text[..i] + [text[i]];
      f.AddLine(text[i]);
    }
    assert text[..|text|] == text;
  }
}
