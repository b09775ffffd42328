/** Reading newline-terminated request frames off a buffered stream. */
module Framing {
  import opened Split

  type Byte = bv8

  const NEWLINE: Byte := 10

  datatype StreamEnd = Eof | Broken(reason: string)

  datatype SliceError = Nil | BufferFull | Ended(end: StreamEnd)

  /** A buffered reader: `rest` is everything the stream still delivers before `end`.
      `endWithData` is whether the last delivery brought its error along, which only
      shows when exactly one buffer of data is left. */
  class Reader {
    const size: nat
    const end: StreamEnd
    const endWithData: bool
    var rest: seq<Byte>

    constructor (size: nat, data: seq<Byte>, end: StreamEnd, endWithData: bool)
      requires size > 0
      ensures this.size == size && this.end == end && rest == data
    {
      this.size, this.end, this.endWithData, this.rest := size, end, endWithData, data;
    }

    /** What any buffered reader gives for ReadSlice on a newline: a chunk ending in the
        only newline it holds, a full buffer without one, or the tail and the error. */
    method ReadSlice() returns (chunk: seq<Byte>, e: SliceError)
      requires size > 0
      modifies this
      ensures old(rest) == chunk + rest && |chunk| <= size
      ensures e.Nil? ==> chunk != [] && chunk[|chunk| - 1] == NEWLINE && NEWLINE !in chunk[..|chunk| - 1]
      ensures e.BufferFull? ==> |chunk| == size && NEWLINE !in chunk
      ensures e.Ended? ==> NEWLINE !in chunk && rest == [] && e.end == end
    {
      var k := IndexOf(rest, NEWLINE);
      var n := |rest|;
      if k < size && k < |rest| {
        n, e := k + 1, Nil;
        assert rest[..n][..n - 1] == rest[..k];
      } else if |rest| < size || (|rest| == size && endWithData) {
        e := Ended(end);
      } else {
        n, e := size, BufferFull;
        forall i | 0 <= i < n
          ensures rest[i] != NEWLINE
        {
          assert rest[i] == rest[..k][i];
        }
      }
      chunk, rest := rest[..n], rest[n..];
    }
  }

  function TrimSuffix(chunk: seq<Byte>): seq<Byte>
  {
    if chunk != [] && chunk[|chunk| - 1] == NEWLINE then chunk[..|chunk| - 1] else chunk
  }

  /** What is left once the frame `s` starts with and its terminator are gone. */
  function AfterFrame(s: seq<Byte>): seq<Byte>
  {
    var k := IndexOf(s, NEWLINE);
    if k < |s| then s[k + 1..] else []
  }

  lemma AfterChunk(before: seq<Byte>, chunk: seq<Byte>, rest: seq<Byte>)
    requires before == chunk + rest && NEWLINE !in chunk
    ensures AfterFrame(before) == AfterFrame(rest)
    ensures IndexOf(before, NEWLINE) == |chunk| + IndexOf(rest, NEWLINE)
  {
    var k := IndexOf(rest, NEWLINE);
    if k < |rest| {
      assert before == (chunk + rest[..k]) + [NEWLINE] + rest[k + 1..];
      IndexOfPrefix(chunk + rest[..k], NEWLINE, rest[k + 1..]);
    } else {
      assert NEWLINE !in before;
    }
  }

  lemma AfterTerminator(before: seq<Byte>, chunk: seq<Byte>, rest: seq<Byte>)
    requires before == chunk + rest && chunk != []
    requires chunk[|chunk| - 1] == NEWLINE && NEWLINE !in chunk[..|chunk| - 1]
    ensures IndexOf(before, NEWLINE) == |chunk| - 1 < |before| && AfterFrame(before) == rest
  {
    var head := chunk[..|chunk| - 1];
    assert before == head + [NEWLINE] + rest;
    IndexOfPrefix(head, NEWLINE, rest);
  }

  /** One terminated chunk ends the frame that `line` has so far. */
  lemma LastChunk(whole: seq<Byte>, line: seq<Byte>, chunk: seq<Byte>, rest: seq<Byte>)
    requires whole == line + (chunk + rest) && NEWLINE !in line && chunk != []
    requires chunk[|chunk| - 1] == NEWLINE && NEWLINE !in chunk[..|chunk| - 1]
    ensures var frame := line + chunk[..|chunk| - 1];
            && IndexOf(whole, NEWLINE) == |frame| < |whole|
            && whole[..|frame|] == frame && AfterFrame(whole) == rest
  {
    assert line + chunk == (line + chunk[..|chunk| - 1]) + [NEWLINE];
    assert whole == (line + chunk) + rest;
    AfterTerminator(whole, line + chunk, rest);
  }

  /** A chunk without a terminator extends the frame `line` has so far. */
  lemma InnerChunk(whole: seq<Byte>, line: seq<Byte>, chunk: seq<Byte>, rest: seq<Byte>)
    requires whole == line + (chunk + rest) && NEWLINE !in line && NEWLINE !in chunk
    ensures whole == (line + chunk) + rest && NEWLINE !in line + chunk
    ensures IndexOf(whole, NEWLINE) == |line + chunk| + IndexOf(rest, NEWLINE)
    ensures AfterFrame(whole) == AfterFrame(rest)
    ensures NEWLINE in whole <==> NEWLINE in rest
  {
    assert whole == (line + chunk) + rest;
    AfterChunk(whole, line + chunk, rest);
  }

  /** The error a caller sees at the end of a frame: none after a terminator. */
  function FrameError(s: seq<Byte>, end: StreamEnd): SliceError
  {
    if NEWLINE in s then Nil else Ended(end)
  }

  /** Drops what is left of the current frame, terminator included. */
  method DiscardFrame(r: Reader) returns (e: SliceError)
    requires r.size > 0
    modifies r
    ensures r.rest == AfterFrame(old(r.rest))
    ensures e == FrameError(old(r.rest), r.end)
  {
    while true
      invariant AfterFrame(r.rest) == AfterFrame(old(r.rest))
      invariant FrameError(r.rest, r.end) == FrameError(old(r.rest), r.end)
      decreases |r.rest|
    {
      ghost var before := r.rest;
      var chunk, err := r.ReadSlice();
      if err.Nil? {
        AfterTerminator(before, chunk, r.rest);
      } else {
        AfterChunk(before, chunk, r.rest);
      }
      if !err.BufferFull? {
        return err;
      }
    }
  }

  /** The next frame, whatever the buffer size and wherever its chunks fall: the bytes up
      to the newline, or none and `oversized` when they run past `maxLine`. The reader is
      left just past the terminator, and BufferFull never reaches the caller. `peak` is
      the most bytes ever accumulated. */
  method ReadFrame(r: Reader, maxLine: nat)
    returns (line: seq<Byte>, oversized: bool, e: SliceError, ghost peak: nat)
    requires r.size > 0
    modifies r
    ensures var k := IndexOf(old(r.rest), NEWLINE);
            && oversized == (k > maxLine)
            && line == if oversized then [] else old(r.rest)[..k]
    ensures r.rest == AfterFrame(old(r.rest))
    ensures e == FrameError(old(r.rest), r.end)
    ensures peak <= maxLine + r.size
  {
    line, peak := [], 0;
    ghost var whole := r.rest;
    while true
      invariant whole == line + r.rest
      invariant NEWLINE !in line && |line| <= maxLine
      invariant peak <= maxLine + r.size
      decreases |r.rest|
    {
      var chunk, err := r.ReadSlice();
      var full := err.BufferFull?;
      if err.Nil? {
        LastChunk(whole, line, chunk, r.rest);
      } else {
        InnerChunk(whole, line, chunk, r.rest);
      }
      if !full {
        chunk := TrimSuffix(chunk);
      }
      line := line + chunk;
      peak := if |line| > peak then |line| else peak;
      if |line| > maxLine {
        if full {
          err := DiscardFrame(r);
        }
        return [], true, err, peak;
      }
      if !full {
        return line, false, err, peak;
      }
    }
  }

  /** One frame as Run's loop sees it: nothing, an oversized frame, or a line to parse. */
  datatype Frame = Blank | Oversized | Line(bytes: seq<Byte>)

  function Classify(piece: seq<Byte>, maxLine: nat): Frame
  {
    if |piece| > maxLine then Oversized else if piece == [] then Blank else Line(piece)
  }

  function ClassifyAll(pieces: seq<seq<Byte>>, maxLine: nat): (frames: seq<Frame>)
    ensures |frames| == |pieces|
    ensures forall i :: 0 <= i < |frames| ==> frames[i] == Classify(pieces[i], maxLine)
  {
    if pieces == [] then [] else [Classify(pieces[0], maxLine)] + ClassifyAll(pieces[1..], maxLine)
  }

  /** The frames of a stream: its newline-separated pieces, an unterminated tail included. */
  function Frames(data: seq<Byte>, maxLine: nat): seq<Frame>
  {
    ClassifyAll(Pieces(data, NEWLINE), maxLine)
  }

  lemma ClassifyFirst(first: seq<Byte>, rest: seq<seq<Byte>>, maxLine: nat)
    ensures ClassifyAll([first] + rest, maxLine) == [Classify(first, maxLine)] + ClassifyAll(rest, maxLine)
  {
    assert ([first] + rest)[1..] == rest;
  }

  lemma FramesLast(data: seq<Byte>, maxLine: nat)
    requires IndexOf(data, NEWLINE) == |data|
    ensures Frames(data, maxLine) == [Classify(data, maxLine)]
  {
    assert [data][1..] == [];
  }

  lemma FramesMore(data: seq<Byte>, k: nat, maxLine: nat)
    requires IndexOf(data, NEWLINE) == k < |data|
    ensures Frames(data, maxLine) == [Classify(data[..k], maxLine)] + Frames(AfterFrame(data), maxLine)
  {
    ClassifyFirst(data[..k], Pieces(data[k + 1..], NEWLINE), maxLine);
  }

  lemma FramesUnfold(data: seq<Byte>, maxLine: nat)
    ensures var k := IndexOf(data, NEWLINE);
            Frames(data, maxLine) == [Classify(data[..k], maxLine)]
            + (if k < |data| then Frames(AfterFrame(data), maxLine) else [])
  {
    var k := IndexOf(data, NEWLINE);
    if k == |data| {
      FramesLast(data, maxLine);
      assert data[..k] == data;
      assert [Classify(data, maxLine)] + [] == [Classify(data, maxLine)];
    } else {
      FramesMore(data, k, maxLine);
    }
  }

  /** A client's frames on the wire, each ended by a line feed. */
  function Sent(lines: seq<seq<Byte>>): seq<Byte>
  {
    if lines == [] then [] else lines[0] + [10] + Sent(lines[1..])
  }

  lemma {:induction false} SentGlued(lines: seq<seq<Byte>>)
    ensures Sent(lines) == Glue(lines + [[]], NEWLINE)
  {
    if lines != [] {
      SentGlued(lines[1..]);
      assert (lines + [[]])[1..] == lines[1..] + [[]];
    }
  }

  lemma FramesSent(lines: seq<seq<Byte>>, maxLine: nat)
    requires forall i :: 0 <= i < |lines| ==> NEWLINE !in lines[i]
    ensures Frames(Sent(lines), maxLine) == ClassifyAll(lines + [[]], maxLine)
  {
    SentGlued(lines);
    PiecesGlue(lines + [[]], NEWLINE);
  }

  /** Every newline-free frame a client sends arrives once, in order and on its own
      account, whichever of its neighbours run past the cap. */
  lemma FramesArrive(lines: seq<seq<Byte>>, maxLine: nat)
    requires forall i :: 0 <= i < |lines| ==> 10 !in lines[i]
    ensures var frames := Frames(Sent(lines), maxLine);
            && |frames| == |lines| + 1 && frames[|lines|] == Blank
            && forall i :: 0 <= i < |lines| ==>
                 && (frames[i] == Oversized <==> |lines[i]| > maxLine)
                 && (frames[i] == Line(lines[i]) <==> 0 < |lines[i]| <= maxLine)
  {
    FramesSent(lines, maxLine);
  }
}
