/** Frames read line by line from a buffered reader, whatever pieces the bytes come in. */
module LineFramer {
  import opened Utf8
  import opened Texts

  const MAX_LINE_BYTES := 8 * 1024 * 1024

  /** What one read gives: a line, the end of the input, or an error. */
  datatype Frame = Line(text: string) | End | TooLong | NotUtf8 | Broken

  function Find(s: string): (n: nat)
    ensures n <= |s| && '\n' !in s[..n] && (n < |s| ==> s[n] == '\n')
  {
    if s == "" || s[0] == '\n' then 0
    else
      var n := 1 + Find(s[1..]);
      assert s[..n] == [s[0]] + s[1..][..n - 1];
      n
  }

  function Decoded(bytes: string): Frame {
    if ValidUtf8(bytes) then Line(bytes) else NotUtf8
  }

  function Trimmed(line: string): string {
    if line != "" && line[|line| - 1] == '\r' then line[..|line| - 1] else line
  }

  // ---------------------------------------------------------------- the program

  predicate Filled(chunks: seq<string>) {
    forall i | 0 <= i < |chunks| :: chunks[i] != ""
  }

  function Consumed(chunks: seq<string>, count: nat): seq<string>
    requires chunks != [] && count <= |chunks[0]|
  {
    if count == |chunks[0]| then chunks[1..] else [chunks[0][count..]] + chunks[1..]
  }

  /** A buffered reader: the chunks it will hand out, and whether it fails behind them. */
  class Reader {
    var chunks: seq<string>
    const broken: bool

    predicate Valid()
      reads this
    {
      Filled(chunks)
    }

    constructor (chunks: seq<string>, broken: bool)
      requires Filled(chunks)
      ensures Valid() && this.chunks == chunks && this.broken == broken
    {
      this.chunks, this.broken := chunks, broken;
    }

    /** The buffered bytes; none at the end of the input. */
    method FillBuf() returns (failed: bool, chunk: string)
      requires Valid()
      ensures failed <==> chunks == [] && broken
      ensures chunk == if chunks == [] then "" else chunks[0]
    {
      failed := chunks == [] && broken;
      chunk := if chunks == [] then "" else chunks[0];
    }

    method Consume(count: nat)
      requires Valid() && chunks != [] && count <= |chunks[0]|
      modifies this
      ensures Valid() && chunks == Consumed(old(chunks), count)
    {
      chunks := Consumed(chunks, count);
    }
  }

  datatype Reading = Reading(frame: Frame, chunks: seq<string>)

  function Taken(chunk: string): (take: nat)
    ensures take <= |chunk| && (chunk != "" ==> take > 0)
  {
    if Find(chunk) < |chunk| then Find(chunk) + 1 else |chunk|
  }

  /** A read that has gathered `bytes` so far. */
  function FromChunks(chunks: seq<string>, broken: bool, bytes: string): (out: Reading)
    requires Filled(chunks)
    ensures Filled(out.chunks)
    decreases |chunks|
  {
    if chunks == [] then Reading(if broken then Broken else if bytes == "" then End else Decoded(bytes), [])
    else
      var take := Taken(chunks[0]);
      if |bytes| + take > MAX_LINE_BYTES then Reading(TooLong, chunks)
      else if chunks[0][take - 1] == '\n' then
        Reading(Decoded(Trimmed(bytes + chunks[0][..take - 1])), Consumed(chunks, take))
      else FromChunks(chunks[1..], broken, bytes + chunks[0])
  }

  /** What one chunk does to a read. */
  lemma ChunkStep(chunks: seq<string>, broken: bool, bytes: string)
    requires Filled(chunks) && chunks != []
    ensures var chunk, take := chunks[0], Taken(chunks[0]);
            && chunk != "" && 0 < take <= |chunk|
            && (chunk[take - 1] != '\n' ==> take == |chunk| == Find(chunk) && Consumed(chunks, take) == chunks[1..])
            && FromChunks(chunks, broken, bytes) ==
               if |bytes| + take > MAX_LINE_BYTES then Reading(TooLong, chunks)
               else if chunk[take - 1] == '\n' then
                 Reading(Decoded(Trimmed(bytes + chunk[..take - 1])), Consumed(chunks, take))
               else FromChunks(Consumed(chunks, take), broken, bytes + chunk[..take])
  {
    TakenWhole(chunks[0]);
    hide Decoded, Trimmed, Taken, Find;
    assert chunks[0][..|chunks[0]|] == chunks[0];
  }

  /** `read_line`. */
  method ReadLine(reader: Reader) returns (frame: Frame)
    requires reader.Valid()
    modifies reader
    ensures reader.Valid()
    ensures Reading(frame, reader.chunks) == FromChunks(old(reader.chunks), reader.broken, "")
  {
    var bytes := "";
    ghost var start := reader.chunks;
    while true
      invariant reader.Valid()
      invariant FromChunks(reader.chunks, reader.broken, bytes) == FromChunks(start, reader.broken, "")
      decreases |reader.chunks|
    {
      if reader.chunks != [] {
        ChunkStep(reader.chunks, reader.broken, bytes);
      } else {
        NoChunk(reader.broken, bytes);
      }
      hide FromChunks, Consumed, Filled, Decoded, Taken, Find;
      var failed, chunk := reader.FillBuf();
      if failed {
        return Broken;
      }
      if chunk == "" {
        return if bytes == "" then End else Decoded(bytes);
      }
      var take := Taken(chunk);
      if |bytes| + take > MAX_LINE_BYTES {
        return TooLong;
      }
      Gathered(bytes, chunk, take);
      bytes := bytes + chunk[..take];
      reader.Consume(take);
      if bytes[|bytes| - 1] == '\n' {
        bytes := bytes[..|bytes| - 1];
        if bytes != "" && bytes[|bytes| - 1] == '\r' {
          bytes := bytes[..|bytes| - 1];
        }
        return Decoded(bytes);
      }
    }
  }

  lemma NoChunk(broken: bool, bytes: string)
    ensures FromChunks([], broken, bytes) ==
            Reading(if broken then Broken else if bytes == "" then End else Decoded(bytes), [])
  {
  }

  lemma Gathered(bytes: string, chunk: string, take: nat)
    requires 0 < take <= |chunk|
    ensures var more := bytes + chunk[..take];
            more[|more| - 1] == chunk[take - 1] && more[..|more| - 1] == bytes + chunk[..take - 1]
    ensures chunk[..|chunk|] == chunk
  {
  }

  lemma TakenWhole(chunk: string)
    requires chunk != ""
    ensures chunk[Taken(chunk) - 1] != '\n' ==> Taken(chunk) == |chunk| == Find(chunk)
  {
    hide Find;
  }

  // ---------------------------------------------------------------- one frame of a stream

  function Flat(chunks: seq<string>): string {
    if chunks == [] then "" else chunks[0] + Flat(chunks[1..])
  }

  /** Bytes of the first line of a stream, its line feed included. */
  function LineLength(data: string): nat {
    if Find(data) < |data| then Find(data) + 1 else |data|
  }

  /** The first frame of a stream, with no regard to how it arrives. */
  function FirstFrame(data: string, broken: bool): Frame {
    if LineLength(data) > MAX_LINE_BYTES then TooLong
    else if Find(data) < |data| then Decoded(Trimmed(data[..Find(data)]))
    else if broken then Broken
    else if data == "" then End
    else Decoded(data)
  }

  function Behind(data: string): string {
    data[LineLength(data)..]
  }

  lemma {:induction false} FindAfter(bytes: string, data: string)
    requires '\n' !in bytes
    ensures Find(bytes + data) == |bytes| + Find(data)
    decreases |bytes|
  {
    if bytes == "" {
      assert bytes + data == data;
    } else {
      FindAfter(bytes[1..], data);
      assert (bytes + data)[1..] == bytes[1..] + data;
    }
  }

  lemma {:induction false} FindInFirst(chunk: string, rest: string)
    requires Find(chunk) < |chunk|
    ensures Find(chunk + rest) == Find(chunk)
    decreases |chunk|
  {
    if chunk[0] != '\n' {
      FindInFirst(chunk[1..], rest);
      assert (chunk + rest)[1..] == chunk[1..] + rest;
    }
  }

  /** Whatever chunks a stream comes in, the frame read from it is its first one, with the
    length limit set against the whole line; except after a line that is too long, what
    is left to read is what stands behind that line. */
  lemma {:induction false} ReadsFirstFrame(chunks: seq<string>, broken: bool, bytes: string)
    requires Filled(chunks) && '\n' !in bytes && |bytes| <= MAX_LINE_BYTES
    ensures var data, out := bytes + Flat(chunks), FromChunks(chunks, broken, bytes);
            && out.frame == FirstFrame(data, broken)
            && (out.frame != TooLong ==> Flat(out.chunks) == Behind(data))
    decreases |chunks|
  {
    hide Decoded, Trimmed, Find, Taken, FromChunks;
    var data := bytes + Flat(chunks);
    FindAfter(bytes, Flat(chunks));
    if chunks == [] {
      assert data == bytes;
      NoChunk(broken, bytes);
      assert Find("") == 0;
    } else {
      var take, rest := Taken(chunks[0]), Flat(chunks[1..]);
      ChunkStep(chunks, broken, bytes);
      if chunks[0][take - 1] == '\n' {
        FoundInChunk(bytes, chunks[0], rest);
        assert Flat(Consumed(chunks, take)) == chunks[0][take..] + rest;
      } else {
        FindAfter(chunks[0], rest);
        assert chunks[0][..take] == chunks[0];
        assert data == (bytes + chunks[0]) + rest;
        if |bytes| + take <= MAX_LINE_BYTES {
          ReadsFirstFrame(chunks[1..], broken, bytes + chunks[0]);
        }
      }
    }
  }

  lemma FoundInChunk(bytes: string, chunk: string, rest: string)
    requires '\n' !in bytes && chunk != "" && chunk[Taken(chunk) - 1] == '\n'
    ensures var data, take := bytes + (chunk + rest), Taken(chunk);
            && Find(data) == |bytes| + take - 1 < |data| && data[..Find(data)] == bytes + chunk[..take - 1]
            && Behind(data) == chunk[take..] + rest
  {
    var data, take := bytes + (chunk + rest), Taken(chunk);
    assert Find(chunk) < |chunk| && take == Find(chunk) + 1;
    FindInFirst(chunk, rest);
    FindAfter(bytes, chunk + rest);
    hide Find, Taken;
    CutInChunk(bytes, chunk, rest, take);
  }

  lemma CutInChunk(bytes: string, chunk: string, rest: string, take: nat)
    requires 0 < take <= |chunk|
    ensures var data := bytes + (chunk + rest);
            data[..|bytes| + take - 1] == bytes + chunk[..take - 1] && data[|bytes| + take..] == chunk[take..] + rest
  {
  }

  // ---------------------------------------------------------------- all frames

  /** The frames of a stream up to its end or its first error. */
  function Frames(data: string, broken: bool): seq<Frame>
    decreases |data|
  {
    var frame := FirstFrame(data, broken);
    if frame.Line? then [frame] + Frames(Behind(data), broken) else [frame]
  }

  /** The frames that repeated reads take from the chunks. */
  function AllFromChunks(chunks: seq<string>, broken: bool): seq<Frame>
    requires Filled(chunks)
    decreases |Flat(chunks)|
  {
    ReadsFirstFrame(chunks, broken, "");
    var out := FromChunks(chunks, broken, "");
    assert "" + Flat(chunks) == Flat(chunks);
    if out.frame.Line? then [out.frame] + AllFromChunks(out.chunks, broken) else [out.frame]
  }

  /** `read_loop`, up to what is done with each line. */
  method ReadLoop(reader: Reader) returns (frames: seq<Frame>)
    requires reader.Valid()
    modifies reader
    ensures frames == AllFromChunks(old(reader.chunks), reader.broken)
  {
    hide FromChunks, FirstFrame;
    frames := [];
    ghost var start := reader.chunks;
    ghost var all := AllFromChunks(start, reader.broken);
    assert frames + all == all;
    while true
      invariant reader.Valid() && frames + AllFromChunks(reader.chunks, reader.broken) == all
      decreases |Flat(reader.chunks)|
    {
      ghost var chunks := reader.chunks;
      ReadsFirstFrame(chunks, reader.broken, "");
      assert "" + Flat(chunks) == Flat(chunks);
      LineShortens(Flat(chunks), reader.broken);
      var frame := ReadLine(reader);
      frames := frames + [frame];
      if !frame.Line? {
        return;
      }
      assert frames + AllFromChunks(reader.chunks, reader.broken) == all;
    }
  }

  lemma LineShortens(data: string, broken: bool)
    ensures FirstFrame(data, broken).Line? ==> |Behind(data)| < |data|
  {
  }

  lemma {:induction false} ChunksGiveFrames(chunks: seq<string>, broken: bool)
    requires Filled(chunks)
    ensures AllFromChunks(chunks, broken) == Frames(Flat(chunks), broken)
    decreases |Flat(chunks)|
  {
    hide FromChunks, FirstFrame, Behind;
    ReadsFirstFrame(chunks, broken, "");
    assert "" + Flat(chunks) == Flat(chunks);
    var out := FromChunks(chunks, broken, "");
    LineShortens(Flat(chunks), broken);
    if out.frame.Line? {
      ChunksGiveFrames(out.chunks, broken);
    }
  }

  /** The same bytes give the same frames in whatever chunks they arrive. */
  lemma ChunkingIsImmaterial(a: seq<string>, b: seq<string>, broken: bool)
    requires Filled(a) && Filled(b) && Flat(a) == Flat(b)
    ensures AllFromChunks(a, broken) == AllFromChunks(b, broken)
  {
    ChunksGiveFrames(a, broken);
    ChunksGiveFrames(b, broken);
  }

  lemma {:induction false} FindNothing(s: string)
    requires '\n' !in s
    ensures Find(s) == |s|
    decreases |s|
  {
    if s != "" {
      FindNothing(s[1..]);
    }
  }

  /** After a line that is too long it does depend on the chunks where the reader stands: the
    same bytes in one chunk and in two leave different bytes to read. */
  lemma TooLongLeavesByChunks()
    ensures var head, tail := "a", seq(MAX_LINE_BYTES, _ => 'a');
            var one, two := [head + tail], [head, tail];
            && Filled(one) && Filled(two) && Flat(one) == Flat(two)
            && FromChunks(one, false, "") == Reading(TooLong, one)
            && FromChunks(two, false, "") == Reading(TooLong, [tail])
            && Flat(one) != Flat([tail])
  {
    var head, tail := "a", seq(MAX_LINE_BYTES, _ => 'a');
    var one, two := [head + tail], [head, tail];
    FindNothing(head);
    FindNothing(tail);
    FindNothing(head + tail);
    hide Find;
    assert two[1..] == [tail] && one[1..] == [] && [tail][1..] == [];
    hide Decoded, Trimmed;
    ChunkStep(one, false, "");
    ChunkStep(two, false, "");
    ChunkStep([tail], false, head);
    hide FromChunks;
    assert "" + head[..1] == head;
    FlatOfOne(tail);
    FlatOfOne(head + tail);
    assert Flat(two) == head + Flat([tail]);
  }

  lemma FlatOfOne(chunk: string)
    ensures Flat([chunk]) == chunk
  {
    assert [chunk][1..] == [] && Flat([]) == "" && chunk + "" == chunk;
  }

  // ---------------------------------------------------------------- lines

  /** What the pieces between line feeds are read as: each but the last loses one carriage
    return at its end and counts one byte for its line feed. */
  function LinesRead(parts: seq<string>, broken: bool): seq<Frame>
    requires parts != []
  {
    if |parts| == 1 then
      [if |parts[0]| > 8_388_608 then TooLong
       else if broken then Broken
       else if parts[0] == "" then End
       else Decoded(parts[0])] + (if |parts[0]| <= 8_388_608 && !broken && parts[0] != "" && ValidUtf8(parts[0]) then [End] else [])
    else if |parts[0]| + 1 > 8_388_608 then [TooLong]
    else if Decoded(Trimmed(parts[0])) == NotUtf8 then [NotUtf8]
    else [Decoded(Trimmed(parts[0]))] + LinesRead(parts[1..], broken)
  }

  lemma {:induction false} SplitAtFind(data: string)
    ensures Find(data) == |data| ==> Split(data, '\n') == [data]
    ensures Find(data) < |data| ==> Split(data, '\n') == [data[..Find(data)]] + Split(Behind(data), '\n')
  {
    var n := Find(data);
    if n == |data| {
      assert data[..n] == data;
      SplitOne(data, '\n');
    } else {
      SplitHead(data[..n], '\n', Behind(data));
      assert data == data[..n] + "\n" + Behind(data);
    }
  }

  /** The frames of a stream are its pieces between line feeds. */
  lemma {:induction false} FramesAreLines(data: string, broken: bool)
    ensures Frames(data, broken) == LinesRead(Split(data, '\n'), broken)
    decreases |data|
  {
    hide ValidUtf8, Split, Trimmed, Find;
    SplitAtFind(data);
    var parts := Split(data, '\n');
    if Find(data) < |data| {
      assert parts[0] == data[..Find(data)] && parts[1..] == Split(Behind(data), '\n');
      FramesAreLines(Behind(data), broken);
    } else {
      NoFrameBehind(broken);
      assert Behind(data) == "";
    }
  }

  lemma NoFrameBehind(broken: bool)
    ensures Frames("", broken) == [if broken then Broken else End]
  {
  }

  // ---------------------------------------------------------------- written lines

  /** A line and how it is ended. */
  datatype Written = Written(text: string, crlf: bool)

  function WrittenText(w: Written): string {
    w.text + if w.crlf then "\r\n" else "\n"
  }

  function AllWritten(ws: seq<Written>): string {
    if ws == [] then "" else WrittenText(ws[0]) + AllWritten(ws[1..])
  }

  /** UTF-8 without a line feed, short enough, and not ending in a carriage return that the
    line end could be taken for. */
  predicate Readable(w: Written) {
    && '\n' !in w.text && ValidUtf8(w.text) && |WrittenText(w)| <= 8_388_608
    && (!w.crlf && w.text != "" ==> w.text[|w.text| - 1] != '\r')
  }

  function TextsOf(ws: seq<Written>): seq<Frame> {
    if ws == [] then [End] else [Line(ws[0].text)] + TextsOf(ws[1..])
  }

  lemma WrittenIsFirst(w: Written, rest: string)
    requires Readable(w)
    ensures FirstFrame(WrittenText(w) + rest, false) == Line(w.text) && Behind(WrittenText(w) + rest) == rest
  {
    hide ValidUtf8;
    var line := w.text + if w.crlf then "\r" else "";
    var data := WrittenText(w) + rest;
    assert data == line + ("\n" + rest);
    FindAfter(line, "\n" + rest);
    assert Find("\n" + rest) == 0;
    hide Find;
    assert data[..|line|] == line && data[|line| + 1..] == rest;
    TrimmedLine(w.text, w.crlf);
  }

  lemma TrimmedLine(text: string, crlf: bool)
    requires !crlf && text != "" ==> text[|text| - 1] != '\r'
    ensures Trimmed(text + if crlf then "\r" else "") == text
  {
    if !crlf {
      assert text + "" == text;
    }
  }

  /** Lines written with either line end are read back, each as it was, and then the end. */
  lemma {:induction false} LinesReadBack(ws: seq<Written>)
    requires forall i | 0 <= i < |ws| :: Readable(ws[i])
    ensures Frames(AllWritten(ws), false) == TextsOf(ws)
    decreases |ws|
  {
    hide FirstFrame, Behind, WrittenText, Readable;
    if ws == [] {
      NoFrameBehind(false);
    } else {
      WrittenIsFirst(ws[0], AllWritten(ws[1..]));
      LinesReadBack(ws[1..]);
    }
  }
}
