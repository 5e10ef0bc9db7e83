/** Bounded, cancellation-safe record framing. */
module JsonlInput {
  type Byte = b: int | 0 <= b < 256

  const LF: Byte := 10
  const CR: Byte := 13

  /** Invalid stands for the InvalidData error of a bounded record that is not UTF-8. */
  datatype Frame = Line(text: seq<Byte>) | TooLarge | Invalid

  // ----- What a byte stream means, whatever the reads -----

  function IndexOfLf(s: seq<Byte>): (i: nat)
    ensures i <= |s| && (i < |s| ==> s[i] == LF)
    ensures forall j :: 0 <= j < i ==> s[j] != LF
  {
    if s == [] || s[0] == LF then 0 else 1 + IndexOfLf(s[1..])
  }

  /** One CR is part of the delimiter, but only in front of a LF. */
  function Body(content: seq<Byte>, terminated: bool): seq<Byte> {
    if terminated && content != [] && content[|content| - 1] == CR then content[..|content| - 1] else content
  }

  function Decode(content: seq<Byte>, terminated: bool, maximum: nat, utf8: seq<Byte> -> bool): Frame {
    var body := Body(content, terminated);
    if |body| > maximum then TooLarge
    else if utf8(body) then Line(body) else Invalid
  }

  /** Split at LF; a final record without one is kept unless it is empty. */
  function FramesOf(stream: seq<Byte>, maximum: nat, utf8: seq<Byte> -> bool): seq<Frame>
    decreases |stream|
  {
    if stream == [] then []
    else
      var i := IndexOfLf(stream);
      if i == |stream| then [Decode(stream, false, maximum, utf8)]
      else [Decode(stream[..i], true, maximum, utf8)] + FramesOf(stream[i + 1..], maximum, utf8)
  }

  lemma {:induction false} IndexOfLfAppend(s: seq<Byte>, rest: seq<Byte>)
    ensures IndexOfLf(s + rest) == if IndexOfLf(s) < |s| then IndexOfLf(s) else |s| + IndexOfLf(rest)
  {
    if s == [] {
      assert s + rest == rest;
    } else if s[0] != LF {
      assert (s + rest)[1..] == s[1..] + rest;
      IndexOfLfAppend(s[1..], rest);
    }
  }

  lemma {:induction false} NoLf(s: seq<Byte>)
    requires LF !in s
    ensures IndexOfLf(s) == |s|
  {
    if s != [] {
      NoLf(s[1..]);
    }
  }

  /** A chunk cut at its first LF, if it has one at `count`. */
  lemma CutChunk(record: seq<Byte>, available: seq<Byte>, count: nat, rest: seq<Byte>)
    requires count <= |available| && (count < |available| ==> available[count] == LF)
    ensures record + (available + rest) == record + available[..count] +
      (if count < |available| then [LF] + (available[count + 1..] + rest) else rest)
  {
    if count < |available| {
      assert available == available[..count] + [LF] + available[count + 1..];
      Reassociate(record, available[..count], [LF], available[count + 1..], rest);
    } else {
      assert available[..count] == available;
    }
  }

  lemma Reassociate(a: seq<Byte>, b: seq<Byte>, c: seq<Byte>, d: seq<Byte>, e: seq<Byte>)
    ensures a + ((b + c + d) + e) == a + b + (c + (d + e))
  {
  }

  /** The bytes of a chunk in front of its first LF continue the record. */
  lemma ExtendRecord(record: seq<Byte>, available: seq<Byte>)
    requires IndexOfLf(record) == |record|
    ensures IndexOfLf(record + available[..IndexOfLf(available)]) == |record| + IndexOfLf(available)
  {
    NoLf(available[..IndexOfLf(available)]);
    IndexOfLfAppend(record, available[..IndexOfLf(available)]);
  }

  lemma FinalRecord(content: seq<Byte>, maximum: nat, utf8: seq<Byte> -> bool)
    requires IndexOfLf(content) == |content| && content != []
    ensures FramesOf(content, maximum, utf8) == [Decode(content, false, maximum, utf8)]
  {
  }

  /** A complete record at the front of a stream. */
  lemma FirstRecord(content: seq<Byte>, rest: seq<Byte>, maximum: nat, utf8: seq<Byte> -> bool)
    requires IndexOfLf(content) == |content|
    ensures FramesOf(content + ([LF] + rest), maximum, utf8)
         == [Decode(content, true, maximum, utf8)] + FramesOf(rest, maximum, utf8)
  {
    CutAt(content, rest);
  }

  lemma CutAt(content: seq<Byte>, rest: seq<Byte>)
    requires IndexOfLf(content) == |content|
    ensures var stream := content + ([LF] + rest);
      && |stream| == |content| + 1 + |rest| && IndexOfLf(stream) == |content|
      && stream[..|content|] == content && stream[|content| + 1..] == rest
  {
    IndexOfLfAppend(content, [LF] + rest);
  }

  /** Records joined with LF (false) or CRLF (true). */
  function Join(records: seq<seq<Byte>>, crlf: seq<bool>): seq<Byte>
    requires |records| == |crlf|
  {
    if records == [] then []
    else (if crlf[0] then records[0] + [CR] else records[0]) + [LF] + Join(records[1..], crlf[1..])
  }

  /** With a LF behind it, and a CR before that if `crlf`, this is the record meant: one
      CR at most belongs to the delimiter. */
  predicate Delimited(record: seq<Byte>, crlf: bool) {
    LF !in record && (crlf || record == [] || record[|record| - 1] != CR)
  }

  /** What a frame says of its record. */
  predicate FrameFor(frame: Frame, record: seq<Byte>, maximum: nat, utf8: seq<Byte> -> bool) {
    && (frame == TooLarge <==> |record| > maximum)
    && (frame == Invalid <==> |record| <= maximum && !utf8(record))
    && (frame == Line(record) <==> |record| <= maximum && utf8(record))
  }

  lemma FirstJoined(record: seq<Byte>, crlf: bool, rest: seq<Byte>, maximum: nat, utf8: seq<Byte> -> bool)
    requires Delimited(record, crlf)
    ensures var content := if crlf then record + [CR] else record;
      var frames := FramesOf(content + ([LF] + rest), maximum, utf8);
      frames != [] && FrameFor(frames[0], record, maximum, utf8) && frames[1..] == FramesOf(rest, maximum, utf8)
  {
    var content := if crlf then record + [CR] else record;
    NoLf(content);
    FirstRecord(content, rest, maximum, utf8);
    assert Body(content, true) == record;
  }

  lemma JoinFirst(records: seq<seq<Byte>>, crlf: seq<bool>, last: seq<Byte>)
    requires |records| == |crlf| > 0
    ensures var content := if crlf[0] then records[0] + [CR] else records[0];
      Join(records, crlf) + last == content + ([LF] + (Join(records[1..], crlf[1..]) + last))
  {
    var content := if crlf[0] then records[0] + [CR] else records[0];
    assert Join(records, crlf) == content + [LF] + Join(records[1..], crlf[1..]);
    FourParts(content, [LF], Join(records[1..], crlf[1..]), last);
  }

  lemma FourParts<X>(a: seq<X>, b: seq<X>, c: seq<X>, d: seq<X>)
    ensures a + b + c + d == a + (b + (c + d))
  {
  }

  /** One frame for each record, in order, and one for what is left behind the last LF
      unless that is empty. */
  ghost predicate FramesFor(
    frames: seq<Frame>, records: seq<seq<Byte>>, last: seq<Byte>, maximum: nat, utf8: seq<Byte> -> bool)
  {
    && |frames| == |records| + (if last == [] then 0 else 1)
    && (forall i :: 0 <= i < |records| ==> FrameFor(frames[i], records[i], maximum, utf8))
    && (last != [] ==> FrameFor(frames[|records|], last, maximum, utf8))
  }

  /** Every record of a stream has its frame: too large exactly when it is longer than
      the maximum, invalid exactly when it fits and is not UTF-8, and otherwise itself.
      One CR before a LF is not counted; without a LF every byte is. */
  lemma {:induction false} FramesAreOfRecords(records: seq<seq<Byte>>, crlf: seq<bool>, last: seq<Byte>,
                                              maximum: nat, utf8: seq<Byte> -> bool)
    requires |records| == |crlf| && LF !in last
    requires forall i :: 0 <= i < |records| ==> Delimited(records[i], crlf[i])
    ensures FramesFor(FramesOf(Join(records, crlf) + last, maximum, utf8), records, last, maximum, utf8)
    decreases |records|
  {
    if records == [] {
      assert Join(records, crlf) + last == last;
      NoLf(last);
    } else {
      var rest := Join(records[1..], crlf[1..]) + last;
      JoinFirst(records, crlf, last);
      FirstJoined(records[0], crlf[0], rest, maximum, utf8);
      FramesAreOfRecords(records[1..], crlf[1..], last, maximum, utf8);
      FramesForFirst(FramesOf(Join(records, crlf) + last, maximum, utf8), records, last, maximum, utf8);
    }
  }

  lemma FramesForFirst(
    frames: seq<Frame>, records: seq<seq<Byte>>, last: seq<Byte>, maximum: nat, utf8: seq<Byte> -> bool)
    requires frames != [] && records != [] && FrameFor(frames[0], records[0], maximum, utf8)
    requires FramesFor(frames[1..], records[1..], last, maximum, utf8)
    ensures FramesFor(frames, records, last, maximum, utf8)
  {
    forall i | 0 <= i < |records| ensures FrameFor(frames[i], records[i], maximum, utf8) {
      if i > 0 {
        assert FrameFor(frames[1..][i - 1], records[1..][i - 1], maximum, utf8);
      }
    }
  }

  /** Every byte stream is such a list of records. */
  lemma {:induction false} EveryStreamIsRecords(stream: seq<Byte>)
    returns (records: seq<seq<Byte>>, crlf: seq<bool>, last: seq<Byte>)
    ensures |records| == |crlf| && LF !in last && stream == Join(records, crlf) + last
    ensures forall i :: 0 <= i < |records| ==> Delimited(records[i], crlf[i])
    decreases |stream|
  {
    var n := IndexOfLf(stream);
    if n == |stream| {
      records, crlf, last := [], [], stream;
      assert stream == Join(records, crlf) + last;
    } else {
      var content := stream[..n];
      var ended := content != [] && content[n - 1] == CR;
      var record := if ended then content[..n - 1] else content;
      var others, ends, final := EveryStreamIsRecords(stream[n + 1..]);
      records, crlf, last := [record] + others, [ended] + ends, final;
      assert records[1..] == others && crlf[1..] == ends;
      JoinFirst(records, crlf, last);
      assert content == (if ended then record + [CR] else record);
      assert stream == content + ([LF] + stream[n + 1..]);
    }
  }

  predicate Plain(record: seq<Byte>, maximum: nat, utf8: seq<Byte> -> bool) {
    && LF !in record
    && (record != [] ==> record[|record| - 1] != CR)
    && |record| <= maximum && utf8(record)
  }

  function AsLines(records: seq<seq<Byte>>): seq<Frame> {
    seq(|records|, i requires 0 <= i < |records| => Line(records[i]))
  }

  /** Records that fit, without LF or a trailing CR, come back exactly, whichever
      line ending each had; a final record without a LF that fits comes back as it is,
      with any CR. */
  lemma RecordsComeBack(records: seq<seq<Byte>>, crlf: seq<bool>, last: seq<Byte>,
                        maximum: nat, utf8: seq<Byte> -> bool)
    requires |records| == |crlf|
    requires forall i :: 0 <= i < |records| ==> Plain(records[i], maximum, utf8)
    requires LF !in last
    ensures var frames := FramesOf(Join(records, crlf) + last, maximum, utf8);
      && |frames| == |records| + (if last == [] then 0 else 1) && frames[..|records|] == AsLines(records)
      && (last != [] ==> FrameFor(frames[|records|], last, maximum, utf8))
  {
    FramesAreOfRecords(records, crlf, last, maximum, utf8);
  }

  // ----- The reader -----

  /** What the next poll of the input gives: bytes, or the call is abandoned
      (cancelled, or failed by the transport) with the reader kept. */
  datatype Read = Chunk(bytes: seq<Byte>) | Interrupted

  datatype Poll = Ready(frame: Frame) | End | Abandoned

  function Flatten(input: seq<Read>): seq<Byte> {
    if input == [] then []
    else (if input[0].Chunk? then input[0].bytes else []) + Flatten(input[1..])
  }

  predicate NoEmptyChunk(input: seq<Read>) {
    forall i :: 0 <= i < |input| ==> input[i] != Chunk([])
  }

  class Frames {
    var reader: seq<Read>
    var bytes: seq<Byte>
    var capacity: nat
    var oversized: bool
    const maximum: nat
    const utf8: seq<Byte> -> bool
    // Everything read since the last LF.
    ghost var record: seq<Byte>

    ghost predicate Valid() reads this {
      && NoEmptyChunk(reader)
      && |bytes| <= capacity <= maximum + 1
      && IndexOfLf(record) == |record|
      && oversized == (|record| > maximum + 1)
      && bytes == if oversized then [] else record
    }

    /** The part of the byte stream that no frame has been returned for. */
    ghost function Stream(): seq<Byte> reads this {
      record + Flatten(reader)
    }

    constructor (reader: seq<Read>, maximum: nat, utf8: seq<Byte> -> bool)
      requires NoEmptyChunk(reader)
      ensures Valid() && Stream() == Flatten(reader) && this.reader == reader
      ensures this.maximum == maximum && this.utf8 == utf8
    {
      this.reader, this.maximum, this.utf8 := reader, maximum, utf8;
      bytes, capacity, oversized, record := [], 0, false, [];
    }

    /** The next frame of the stream, however the reads are chunked.  An
        abandoned call loses nothing: the stream is what it was. */
    method Next() returns (poll: Poll)
      requires Valid()
      modifies this
      ensures Valid()
      ensures poll.Ready? ==>
        FramesOf(old(Stream()), maximum, utf8) == [poll.frame] + FramesOf(Stream(), maximum, utf8)
      ensures poll.Ready? ==> |Stream()| < |old(Stream())|
      ensures poll.End? ==> old(Stream()) == [] && Stream() == [] && reader == []
      ensures poll.Abandoned? ==> Stream() == old(Stream()) && |reader| < |old(reader)|
    {
      while true
        invariant Valid() && Stream() == old(Stream()) && |reader| <= |old(reader)|
        decreases |reader|
      {
        if reader == [] {
          if oversized || bytes != [] {
            assert Stream() == record && record != [];
            FinalRecord(record, maximum, utf8);
            var frame := Finish(false);
            assert Stream() == [];
            return Ready(frame);
          }
          return End;
        }
        if reader[0].Interrupted? {
          Skip();
          return Abandoned;
        }
        var newline := Absorb();
        if newline {
          ghost var left := Flatten(reader);
          FirstRecord(record, left, maximum, utf8);
          var frame := Finish(true);
          assert Stream() == left;
          return Ready(frame);
        }
      }
    }

    /** Take the bytes of the current chunk up to its first LF, and that LF. */
    method Absorb() returns (newline: bool)
      requires Valid() && reader != [] && reader[0].Chunk?
      modifies this
      ensures Valid() && (newline ==> |reader| <= |old(reader)|) && (!newline ==> |reader| < |old(reader)|)
      ensures old(Stream()) == record + (if newline then [LF] + Flatten(reader) else Flatten(reader))
    {
      var available := reader[0].bytes;
      var count := IndexOfLf(available);
      newline := count < |available|;
      ghost var longer, later := record + available[..count], Flatten(reader[1..]);
      CutChunk(record, available, count, later);
      ExtendRecord(record, available);
      assert |longer| == |record| + count && Flatten(reader) == available + later;
      if !oversized {
        // One extra byte permits CR at the end of a maximum-sized record.
        var fits := ExtendBounded(available[..count], maximum + 1);
        oversized := !fits;
      }
      record := longer;
      Consume(if newline then count + 1 else count);
      assert newline ==> Flatten(reader) == available[count + 1..] + later;
      assert !newline ==> Flatten(reader) == later;
    }

    method Skip()
      requires Valid() && reader != [] && reader[0].Interrupted?
      modifies `reader
      ensures Valid() && Stream() == old(Stream()) && |reader| < |old(reader)|
    {
      reader := reader[1..];
    }

    method Consume(count: nat)
      requires reader != [] && reader[0].Chunk? && count <= |reader[0].bytes| && NoEmptyChunk(reader)
      modifies `reader
      ensures NoEmptyChunk(reader) && Flatten(reader) == old(reader[0].bytes[count..] + Flatten(reader[1..]))
      ensures |reader| == |old(reader)| - (if count == |old(reader[0].bytes)| then 1 else 0)
    {
      var rest := reader[0].bytes[count..];
      if rest == [] {
        reader := reader[1..];
      } else {
        var unread := [Chunk(rest)] + reader[1..];
        assert unread[1..] == reader[1..];
        reader := unread;
      }
    }

    method Finish(newline: bool) returns (frame: Frame)
      requires Valid()
      modifies `bytes, `capacity, `oversized, `record
      ensures Valid() && record == []
      ensures frame == Decode(old(record), newline, maximum, utf8)
    {
      if newline && bytes != [] && bytes[|bytes| - 1] == CR {
        bytes := bytes[..|bytes| - 1];
      }
      if oversized || |bytes| > maximum {
        bytes := [];
        oversized := false;
        record := [];
        return TooLarge;
      }
      var text := bytes;
      bytes, capacity, record := [], 0, [];
      frame := if utf8(text) then Line(text) else Invalid;
    }

    /** Grow geometrically, never beyond the ceiling; on overflow keep nothing. */
    method ExtendBounded(chunk: seq<Byte>, ceiling: nat) returns (fits: bool)
      requires |bytes| <= capacity <= ceiling
      modifies `bytes, `capacity
      ensures fits == (|old(bytes)| + |chunk| <= ceiling)
      ensures bytes == if fits then old(bytes) + chunk else []
      ensures |bytes| <= capacity <= ceiling
    {
      if |chunk| > ceiling - |bytes| {
        bytes := [];
        return false;
      }
      var needed := |bytes| + |chunk|;
      if needed > capacity {
        var doubled := if capacity * 2 > needed then capacity * 2 else needed;
        capacity := if doubled < ceiling then doubled else ceiling;
      }
      bytes := bytes + chunk;
      return true;
    }
  }

  /** A consumer that polls again after every abandoned call sees exactly the
      frames of the byte stream. */
  method ReadAll(frames: Frames) returns (all: seq<Frame>)
    requires frames.Valid()
    modifies frames
    ensures all == FramesOf(old(frames.Stream()), frames.maximum, frames.utf8)
    ensures frames.Valid() && frames.Stream() == []
  {
    all := [];
    ghost var whole := FramesOf(frames.Stream(), frames.maximum, frames.utf8);
    while true
      invariant frames.Valid()
      invariant whole == all + FramesOf(frames.Stream(), frames.maximum, frames.utf8)
      decreases |frames.Stream()|, |frames.reader|
    {
      var poll := frames.Next();
      if poll.End? {
        return;
      }
      if poll.Ready? {
        all := all + [poll.frame];
      }
    }
  }
}
