/** Texts as lines, with git's distinction between a last line that ends in a newline and
    one that does not. */
module Text {
  import opened Split

  /** Appended to a last line with no newline after it. */
  const NO_EOL: char := '\0'

  /** The lines of `text`; a terminating newline yields no trailing empty line. */
  function ToLines(text: string): seq<string>
  {
    var p := Pieces(text, '\n');
    if p[|p| - 1] == "" then p[..|p| - 1] else p
  }

  function EndedLines(text: string): (lines: seq<string>)
    ensures |lines| == |ToLines(text)|
  {
    var lines := ToLines(text);
    if lines != [] && text[|text| - 1..] != "\n"
    then lines[|lines| - 1 := lines[|lines| - 1] + [NO_EOL]]
    else lines
  }

  function Bare(line: string): string
  {
    if Unended(line) then line[..|line| - 1] else line
  }

  predicate Unended(line: string)
  {
    line != "" && line[|line| - 1] == NO_EOL
  }

  function BareLines(lines: seq<string>): (bare: seq<string>)
    ensures |bare| == |lines|
    ensures forall i :: 0 <= i < |lines| ==> bare[i] == Bare(lines[i])
  {
    if lines == [] then [] else [Bare(lines[0])] + BareLines(lines[1..])
  }

  /** Writes ended lines out: bare, parted by newlines, and with a last one unless the last line
      is marked as having none. */
  function EndedText(lines: seq<string>): string
  {
    if lines == [] then ""
    else
      var glued := Glue(BareLines(lines), '\n');
      if Unended(lines[|lines| - 1]) then glued else glued + "\n"
  }

  /** A text is its lines glued, with a last newline where it has one. */
  lemma PlainGlued(text: string)
    requires text != ""
    ensures ToLines(text) != []
    ensures text == Glue(ToLines(text), '\n') + if text[|text| - 1] == '\n' then "\n" else ""
  {
    var p := Pieces(text, '\n');
    LastPiece(text, '\n');
    GluePieces(text, '\n');
    if text[|text| - 1] == '\n' {
      InitLast(p);
      GlueSnoc(p[..|p| - 1], '\n', "");
    }
  }

  lemma InitLast<T>(p: seq<T>)
    requires p != []
    ensures p == p[..|p| - 1] + [p[|p| - 1]]
  {
  }

  /** Some line that a newline ends has a NUL as its last character. */
  predicate NulBeforeNewline(text: string)
  {
    exists i :: 0 <= i < |text| - 1 && NulAt(text, i)
  }

  predicate NulAt(text: string, i: int)
    requires 0 <= i < |text| - 1
  {
    text[i] == NO_EOL && text[i + 1] == '\n'
  }

  /** No piece before the last ends in a NUL. */
  predicate CleanPieces(p: seq<string>)
    requires p != []
  {
    forall k | 0 <= k < |p| - 1 :: !Unended(p[k])
  }

  lemma NulInPiece(text: string, k: nat)
    requires k < |text| && text[k] == '\n' && '\n' !in text[..k]
    ensures NulBeforeNewline(text) <==> Unended(text[..k]) || NulBeforeNewline(text[k + 1..])
  {
    var rest := text[k + 1..];
    forall q | 0 <= q < k
      ensures text[q] != '\n'
    {
      assert text[..k][q] in text[..k];
    }
    if Unended(text[..k]) {
      assert NulAt(text, k - 1);
    }
    if NulBeforeNewline(rest) {
      var i :| 0 <= i < |rest| - 1 && NulAt(rest, i);
      assert NulAt(text, k + 1 + i);
    }
    if NulBeforeNewline(text) {
      var i :| 0 <= i < |text| - 1 && NulAt(text, i);
      assert i > k ==> NulAt(rest, i - k - 1);
    }
  }

  lemma {:induction false} NulPieces(text: string)
    ensures NulBeforeNewline(text) <==> !CleanPieces(Pieces(text, '\n'))
    decreases |text|
  {
    var k := IndexOf(text, '\n');
    if k == |text| {
      assert NulBeforeNewline(text) ==> '\n' in text;
    } else {
      NulPieces(text[k + 1..]);
      NulInPiece(text, k);
      CleanFirst(text[..k], Pieces(text[k + 1..], '\n'), Pieces(text, '\n'));
    }
  }

  lemma CleanFirst(first: string, rest: seq<string>, all: seq<string>)
    requires rest != [] && all == [first] + rest
    ensures CleanPieces(all) <==> !Unended(first) && CleanPieces(rest)
  {
    assert forall k | 0 <= k < |rest| :: all[k + 1] == rest[k];
    assert all[0] == first;
    if CleanPieces(all) {
      forall k | 0 <= k < |rest| - 1
        ensures !Unended(rest[k])
      {
        assert !Unended(all[k + 1]);
      }
    }
  }

  /** The lines of a text that a newline ends. */
  function Closed(text: string): seq<string>
    requires text != ""
  {
    var lines := ToLines(text);
    if text[|text| - 1] == '\n' || lines == [] then lines else lines[..|lines| - 1]
  }

  lemma ClosedClean(text: string)
    requires text != ""
    ensures ToLines(text) != []
    ensures NulBeforeNewline(text) <==> exists k :: 0 <= k < |Closed(text)| && Unended(Closed(text)[k])
  {
    var p := Pieces(text, '\n');
    PlainGlued(text);
    LastPiece(text, '\n');
    NulPieces(text);
    assert Closed(text) == p[..|p| - 1];
    if !CleanPieces(p) {
      var k :| 0 <= k < |p| - 1 && Unended(p[k]);
      assert Unended(Closed(text)[k]);
    }
  }

  lemma {:induction false} GlueShorter(p: seq<string>, q: seq<string>, at: nat)
    requires |p| == |q| >= 1 && forall k | 0 <= k < |p| :: |q[k]| <= |p[k]|
    ensures |Glue(q, '\n')| <= |Glue(p, '\n')|
    ensures at < |p| && |q[at]| < |p[at]| ==> |Glue(q, '\n')| < |Glue(p, '\n')|
  {
    if |p| > 1 {
      GlueShorter(p[1..], q[1..], if at > 0 then at - 1 else 0);
    }
  }

  lemma EndedElements(text: string)
    requires text != "" && ToLines(text) != []
    ensures var lines, ended := ToLines(text), EndedLines(text);
            && |ended| == |lines|
            && forall k | 0 <= k < |lines| ::
                 ended[k] == if k == |lines| - 1 && text[|text| - 1] != '\n' then lines[k] + [NO_EOL] else lines[k]
  {
    assert text[|text| - 1..] == [text[|text| - 1]];
    assert text[|text| - 1] != '\n' ==> text[|text| - 1..][0] != '\n';
  }

  lemma BareMarked(line: string)
    ensures Unended(line + [NO_EOL]) && Bare(line + [NO_EOL]) == line
  {
    assert (line + [NO_EOL])[..|line|] == line;
  }

  /** Reading a text as ended lines and writing them back loses nothing, its last newline or
      lack of one included, exactly when no NUL stands before a newline. */
  lemma EndedTextInverts(text: string)
    ensures EndedText(EndedLines(text)) == text <==> !NulBeforeNewline(text)
  {
    if text != "" {
      ClosedClean(text);
      PlainGlued(text);
      if NulBeforeNewline(text) {
        DirtyShrinks(text);
      } else {
        CleanEndedLines(text);
      }
    }
  }

  lemma CleanEndedLines(text: string)
    requires text != "" && !NulBeforeNewline(text)
    ensures EndedLines(text) != [] && BareLines(EndedLines(text)) == ToLines(text)
    ensures Unended(EndedLines(text)[|EndedLines(text)| - 1]) <==> text[|text| - 1] != '\n'
  {
    ClosedClean(text);
    EndedElements(text);
    var lines, ended := ToLines(text), EndedLines(text);
    BareMarked(lines[|lines| - 1]);
    forall k | 0 <= k < |lines|
      ensures Bare(ended[k]) == lines[k]
      ensures Unended(ended[k]) <==> k == |lines| - 1 && text[|text| - 1] != '\n'
    {
      if !(k == |lines| - 1 && text[|text| - 1] != '\n') {
        assert Closed(text)[k] == lines[k];
      }
    }
  }

  lemma DirtyShrinks(text: string)
    requires text != "" && NulBeforeNewline(text)
    ensures |EndedText(EndedLines(text))| < |text|
  {
    ClosedClean(text);
    EndedElements(text);
    PlainGlued(text);
    var lines, ended := ToLines(text), EndedLines(text);
    var at :| 0 <= at < |Closed(text)| && Unended(Closed(text)[at]);
    BareShrinks(lines, ended, at);
    BareMarked(lines[|lines| - 1]);
  }

  lemma BareShrinks(lines: seq<string>, ended: seq<string>, at: nat)
    requires |ended| == |lines| && at < |lines| && ended[at] == lines[at] && Unended(lines[at])
    requires forall k | 0 <= k < |lines| :: ended[k] == lines[k] || ended[k] == lines[k] + [NO_EOL]
    ensures |Glue(BareLines(ended), '\n')| < |Glue(lines, '\n')|
  {
    var bare := BareLines(ended);
    forall k | 0 <= k < |lines|
      ensures |bare[k]| <= |lines[k]|
    {
      BareMarked(lines[k]);
    }
    GlueShorter(lines, bare, at);
  }

  /** A NUL in the first 8000 characters marks a text as binary, and it is not read by line. */
  function IsBinary(text: string): bool
  {
    NO_EOL in if |text| > 8000 then text[..8000] else text
  }

  lemma ReadByLine(text: string)
    requires !IsBinary(text)
    ensures forall k | 0 <= k < |text| && k < 8000 :: text[k] != NO_EOL
  {
    var head := if |text| > 8000 then text[..8000] else text;
    forall k | 0 <= k < |text| && k < 8000
      ensures text[k] != NO_EOL
    {
      assert head[k] == text[k] && head[k] in head;
    }
  }

  /** A text read by line comes back shorter all the same, exactly when a NUL further in stands
      before a newline: it is not looked for there. */
  lemma LateNulIsLost(text: string)
    requires !IsBinary(text)
    ensures EndedText(EndedLines(text)) != text <==> exists k :: 8000 <= k < |text| - 1 && NulAt(text, k)
    ensures (exists k :: 8000 <= k < |text| - 1 && NulAt(text, k)) ==> |EndedText(EndedLines(text))| < |text|
  {
    EndedTextInverts(text);
    if NulBeforeNewline(text) {
      DirtyShrinks(text);
      var k :| 0 <= k < |text| - 1 && NulAt(text, k);
      ReadByLine(text);
    }
  }

  /** There are such texts, whatever comes after. */
  lemma LateNulExists(plain: string, rest: string)
    requires |plain| >= 8000 && NO_EOL !in plain[..8000]
    ensures var text := plain + [NO_EOL, '\n'] + rest;
            !IsBinary(text) && |EndedText(EndedLines(text))| < |text|
  {
    var text := plain + [NO_EOL, '\n'] + rest;
    assert text[..8000] == plain[..8000];
    assert NulAt(text, |plain|);
    LateNulIsLost(text);
  }

  // ----- lines that say for themselves whether a newline ends them -----

  datatype Line = Line(text: string, open: bool)

  function TextOf(line: Line): string
  {
    line.text
  }

  function Marked(line: Line): string
  {
    if line.open then line.text + [NO_EOL] else line.text
  }

  function FlaggedLines(text: string): (lines: seq<Line>)
    ensures |lines| == |ToLines(text)|
    ensures forall k | 0 <= k < |lines| ::
              lines[k] == Line(ToLines(text)[k], k == |lines| - 1 && text != "" && text[|text| - 1] != '\n')
  {
    var lines := ToLines(text);
    seq(|lines|, k requires 0 <= k < |lines| =>
          Line(lines[k], k == |lines| - 1 && text != "" && text[|text| - 1] != '\n'))
  }

  function Texts(lines: seq<Line>): (texts: seq<string>)
    ensures |texts| == |lines| && forall k | 0 <= k < |lines| :: texts[k] == lines[k].text
  {
    seq(|lines|, k requires 0 <= k < |lines| => lines[k].text)
  }

  function FlaggedText(lines: seq<Line>): string
  {
    if lines == [] then ""
    else Glue(Texts(lines), '\n') + if lines[|lines| - 1].open then "" else "\n"
  }

  lemma FlaggedTextInverts(text: string)
    ensures FlaggedText(FlaggedLines(text)) == text
  {
    if text != "" {
      PlainGlued(text);
      assert Texts(FlaggedLines(text)) == ToLines(text);
    }
  }

  lemma FlaggedIsEnded(text: string)
    ensures |EndedLines(text)| == |FlaggedLines(text)|
    ensures forall k | 0 <= k < |EndedLines(text)| :: EndedLines(text)[k] == Marked(FlaggedLines(text)[k])
  {
    if text != "" {
      PlainGlued(text);
      EndedElements(text);
    }
  }

  /** A line no newline ends is not empty. */
  lemma OpenNotEmpty(text: string)
    requires text != "" && text[|text| - 1] != '\n'
    ensures ToLines(text) != [] && ToLines(text)[|ToLines(text)| - 1] != ""
  {
    LastPiece(text, '\n');
  }
}
