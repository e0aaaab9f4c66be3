/** Round trips, bounds and precedence of the response reader. */
module HttpLaws {
  import opened Basics
  import opened Numerals
  import opened HttpReader

  // ----- The size bound -----

  lemma ChunkWithinLimit(s: Stream, limit: Budget, out: Bytes)
    requires |out| <= limit
    ensures ReadChunk(s, limit, out).Grown? ==> |ReadChunk(s, limit, out).out| <= limit
  {
  }

  lemma {:induction false} ChunksWithinLimit(s: Stream, limit: Budget, out: Bytes)
    requires |out| <= limit && ReadChunks(s, limit, out).Ok?
    ensures |ReadChunks(s, limit, out).value.0| <= limit
    decreases |s.rest|
  {
    ChunkWithinLimit(s, limit, out);
    var step := ReadChunk(s, limit, out);
    if step.Grown? {
      ChunksWithinLimit(step.rest, limit, step.out);
    }
  }

  lemma ReadBodyWithinLimit(s: Stream, f: Framing, limit: Budget)
    requires ReadBody(s, f, limit).Ok?
    ensures |ReadBody(s, f, limit).value| <= limit
  {
    if f.chunked {
      ChunksWithinLimit(s, limit, "");
    }
  }

  /** No framing hands out a body beyond the limit, on success or with an error status. */
  lemma BodyWithinLimit(s: Stream, limit: Budget)
    ensures match ParseResponse(s, limit)
            case Ok(resp) => |resp.body| <= limit && 200 <= resp.status < 300
            case Err(HttpStatus(status, body)) => |body| <= limit && !(200 <= status < 300)
            case Err(_) => true
  {
    var r := ParseResponse(s, limit);
    if r.Ok? || r.error.HttpStatus? {
      var (line, s1) := ReadLine(s).value;
      var (framing, s2) := ReadHeaders(s1, NoFraming).value;
      ReadBodyWithinLimit(s2, framing, limit);
    }
  }

  // ----- Written lines -----

  predicate IsLine(l: Bytes) {
    '\n' !in l && ValidUtf8(l + "\r\n")
  }

  lemma ReadWrittenLine(l: Bytes, tail: Bytes, broken: bool)
    requires IsLine(l)
    ensures ReadLine(Stream(l + "\r\n" + tail, broken)) == Ok((l + "\r\n", Stream(tail, broken)))
  {
    var rest := l + "\r\n" + tail;
    assert rest == (l + "\r") + ['\n'] + tail;
    FindFirst(l + "\r", '\n', tail);
    assert rest[..|l| + 2] == l + "\r\n";
    assert rest[|l| + 2..] == tail;
  }

  lemma ChompWritten(l: Bytes)
    requires l == "" || !IsLineEnd(l[|l| - 1])
    ensures Chomp(l + "\r\n") == l
  {
    var a, b := l + "\r\n", l + "\r";
    assert a[..|a| - 1] == b && b[..|b| - 1] == l;
    assert Chomp(a) == Chomp(b) && Chomp(b) == Chomp(l);
  }

  // ----- Chunked bodies -----

  /** A chunk as some sender wrote it: any numeral for its size, any extension. */
  datatype Chunk = Chunk(sizeText: Bytes, extension: Bytes, data: Bytes)

  predicate IsSizeLine(sizeText: Bytes, extension: Bytes, size: nat) {
    && '\r' !in sizeText && ';' !in sizeText
    && ParseNat(Trim(sizeText), 16, USIZE_MAX) == Some(size)
    && (extension == "" || extension[0] == ';')
    && IsLine(sizeText + extension)
  }

  predicate IsChunk(c: Chunk) {
    c.data != "" && IsSizeLine(c.sizeText, c.extension, |c.data|)
  }

  predicate IsTrailer(t: Bytes) {
    IsLine(t) && Trim(t + "\r\n") != ""
  }

  ghost predicate AllChunks(chunks: seq<Chunk>) {
    forall i :: 0 <= i < |chunks| ==> IsChunk(chunks[i])
  }

  ghost predicate AllTrailers(trailers: seq<Bytes>) {
    forall i :: 0 <= i < |trailers| ==> IsTrailer(trailers[i])
  }

  function Lines(ls: seq<Bytes>): Bytes {
    if ls == [] then "\r\n" else ls[0] + "\r\n" + Lines(ls[1..])
  }

  function Encoded(chunks: seq<Chunk>, last: Chunk, trailers: seq<Bytes>): Bytes {
    if chunks == [] then last.sizeText + last.extension + "\r\n" + Lines(trailers)
    else
      var c := chunks[0];
      c.sizeText + c.extension + "\r\n" + (c.data + "\r\n" + Encoded(chunks[1..], last, trailers))
  }

  function Payload(chunks: seq<Chunk>): Bytes {
    if chunks == [] then "" else chunks[0].data + Payload(chunks[1..])
  }

  lemma BareSizeLine(text: Bytes)
    requires text != "" && ';' !in text && '\r' !in text && '\n' !in text
    ensures Before(Chomp(text + "\r\n"), ';') == text
  {
    assert text[|text| - 1] in text;
    ChompWritten(text);
  }

  lemma ExtendedSizeLine(text: Bytes, b: Bytes)
    requires ';' !in text
    ensures Before(Chomp(text + [';'] + b), ';') == text
  {
    ChompKeepsFront(text, ';', b);
    var k: nat :| k <= |b| && Chomp(text + [';'] + b) == text + [';'] + b[..k];
    FindFirst(text, ';', b[..k]);
    assert (text + [';'] + b[..k])[..|text|] == text;
  }

  lemma BlankIsNoNumber()
    ensures ParseNat(Trim(""), 16, USIZE_MAX) == None
  {
  }

  lemma SizeLineText(text: Bytes, extension: Bytes)
    requires text != "" && ';' !in text && '\r' !in text && '\n' !in text
    requires extension == "" || extension[0] == ';'
    ensures Before(Chomp(text + extension + "\r\n"), ';') == text
  {
    if extension == "" {
      assert text + extension == text;
      BareSizeLine(text);
    } else {
      var b := extension[1..] + "\r\n";
      assert text + extension + "\r\n" == text + [';'] + b;
      ExtendedSizeLine(text, b);
    }
  }

  lemma ReadWrittenSize(sizeText: Bytes, extension: Bytes, size: nat, tail: Bytes, broken: bool)
    requires IsSizeLine(sizeText, extension, size)
    ensures ReadSize(Stream(sizeText + extension + "\r\n" + tail, broken)) == Ok((size, Stream(tail, broken)))
  {
    ReadWrittenLine(sizeText + extension, tail, broken);
    BlankIsNoNumber();
    assert forall c :: c in sizeText ==> c in sizeText + extension;
    SizeLineText(sizeText, extension);
  }

  lemma SkipBlank(tail: Bytes, broken: bool)
    ensures SkipTrailers(Stream("\r\n" + tail, broken)) == Ok(Stream(tail, broken))
  {
    hide ReadLine;
    assert IsLine("") by { AsciiIsValid("\r\n"); assert "" + "\r\n" == "\r\n"; }
    ReadWrittenLine("", tail, broken);
    assert "" + "\r\n" == "\r\n";
    assert SpaceHead("\r\n") == 1 && "\r\n"[1..] == "\n" && SpaceHead("\n") == 1 && "\n"[1..] == "";
    assert Trim("\r\n") == "";
  }

  lemma {:induction false} SkipWrittenTrailers(trailers: seq<Bytes>, tail: Bytes, broken: bool)
    requires AllTrailers(trailers)
    ensures SkipTrailers(Stream(Lines(trailers) + tail, broken)) == Ok(Stream(tail, broken))
  {
    hide ReadLine, Trim, ValidUtf8;
    if trailers == [] {
      SkipBlank(tail, broken);
    } else {
      var t := trailers[0];
      var more := Lines(trailers[1..]) + tail;
      assert Lines(trailers) + tail == t + "\r\n" + more;
      ReadWrittenLine(t, more, broken);
      SkipWrittenTrailers(trailers[1..], tail, broken);
    }
  }

  lemma ReadWrittenData(data: Bytes, tail: Bytes, broken: bool)
    ensures ReadChunkData(Stream(data + "\r\n" + tail, broken), |data|) == Ok((data, Stream(tail, broken)))
  {
    var rest := data + "\r\n" + tail;
    assert rest[..|data|] == data && rest[|data|..] == "\r\n" + tail;
    assert ("\r\n" + tail)[..2] == "\r\n" && ("\r\n" + tail)[2..] == tail;
  }

  lemma GrowStep(s: Stream, size: nat, s1: Stream, data: Bytes, s2: Stream, limit: Budget, out: Bytes)
    requires ReadSize(s) == Ok((size, s1)) && 0 < size && |out| + size <= limit
    requires ReadChunkData(s1, size) == Ok((data, s2))
    ensures ReadChunk(s, limit, out) == Grown(out + data, s2)
    ensures ReadChunks(s, limit, out) == ReadChunks(s2, limit, out + data)
  {
  }

  lemma FinishStep(s: Stream, s1: Stream, s2: Stream, limit: Budget, out: Bytes)
    requires ReadSize(s) == Ok((0, s1)) && SkipTrailers(s1) == Ok(s2)
    ensures ReadChunks(s, limit, out) == Ok((out, s2))
  {
  }

  lemma EncodedParts(chunks: seq<Chunk>, last: Chunk, trailers: seq<Bytes>, tail: Bytes)
    ensures chunks == [] ==>
      Encoded(chunks, last, trailers) + tail == last.sizeText + last.extension + "\r\n" + (Lines(trailers) + tail)
    ensures chunks != [] ==>
      var c := chunks[0];
      Encoded(chunks, last, trailers) + tail
      == c.sizeText + c.extension + "\r\n" + (c.data + "\r\n" + (Encoded(chunks[1..], last, trailers) + tail))
  {
    if chunks == [] {
      Regroup(last.sizeText + last.extension + "\r\n", Lines(trailers), tail);
    } else {
      var c, more := chunks[0], Encoded(chunks[1..], last, trailers);
      Regroup(c.sizeText + c.extension + "\r\n", c.data + "\r\n" + more, tail);
      Regroup(c.data + "\r\n", more, tail);
    }
    hide *;
  }

  lemma Regroup(a: Bytes, b: Bytes, c: Bytes)
    ensures a + b + c == a + (b + c)
  { }

  lemma DecodeLast(last: Chunk, trailers: seq<Bytes>, tail: Bytes, broken: bool, limit: Budget, out: Bytes)
    requires IsSizeLine(last.sizeText, last.extension, 0)
    requires AllTrailers(trailers)
    ensures ReadChunks(Stream(Encoded([], last, trailers) + tail, broken), limit, out) == Ok((out, Stream(tail, broken)))
  {
    EncodedParts([], last, trailers, tail);
    var more := Lines(trailers) + tail;
    ReadWrittenSize(last.sizeText, last.extension, 0, more, broken);
    SkipWrittenTrailers(trailers, tail, broken);
    FinishStep(Stream(Encoded([], last, trailers) + tail, broken), Stream(more, broken), Stream(tail, broken), limit, out);
  }

  lemma DecodeFirst(c: Chunk, more: Bytes, broken: bool, limit: Budget, out: Bytes)
    requires IsChunk(c) && |out| + |c.data| <= limit
    ensures ReadChunks(Stream(c.sizeText + c.extension + "\r\n" + (c.data + "\r\n" + more), broken), limit, out)
         == ReadChunks(Stream(more, broken), limit, out + c.data)
  {
    var rest := c.data + "\r\n" + more;
    ReadWrittenSize(c.sizeText, c.extension, |c.data|, rest, broken);
    ReadWrittenData(c.data, more, broken);
    GrowStep(Stream(c.sizeText + c.extension + "\r\n" + rest, broken), |c.data|, Stream(rest, broken), c.data,
             Stream(more, broken), limit, out);
  }

  /**
   Decoding what any sender encoded gives the chunks' concatenation and stops
   exactly behind the encoding (section 4.1 of RFC 7230).
   */
  lemma {:induction false} DecodeEncoded(
      chunks: seq<Chunk>, last: Chunk, trailers: seq<Bytes>, tail: Bytes, broken: bool, limit: Budget, out: Bytes)
    requires AllChunks(chunks)
    requires IsSizeLine(last.sizeText, last.extension, 0)
    requires AllTrailers(trailers)
    requires |out| + |Payload(chunks)| <= limit
    ensures ReadChunks(Stream(Encoded(chunks, last, trailers) + tail, broken), limit, out)
         == Ok((out + Payload(chunks), Stream(tail, broken)))
    decreases chunks
  {
    hide ReadChunks, IsChunk, IsSizeLine;
    if chunks == [] {
      DecodeLast(last, trailers, tail, broken, limit, out);
      assert out + Payload(chunks) == out;
    } else {
      EncodedParts(chunks, last, trailers, tail);
      DecodeFirst(chunks[0], Encoded(chunks[1..], last, trailers) + tail, broken, limit, out);
      DecodeEncoded(chunks[1..], last, trailers, tail, broken, limit, out + chunks[0].data);
      assert (out + chunks[0].data) + Payload(chunks[1..]) == out + Payload(chunks);
    }
  }

  /** What refuses a body that does not fit: the first chunk too many, or a size sum that wraps there. */
  function Refusal(chunks: seq<Chunk>, held: nat, limit: Budget): HttpError
    requires held <= limit < held + |Payload(chunks)|
  {
    var total := held + |chunks[0].data|;
    if total > USIZE_MAX then CapacityOverflow
    else if total > limit then BodyTooLarge(limit)
    else Refusal(chunks[1..], total, limit)
  }

  lemma RefuseFirst(s: Stream, size: nat, s1: Stream, limit: Budget, out: Bytes)
    requires |out| <= limit < |out| + size && size <= USIZE_MAX && ReadSize(s) == Ok((size, s1))
    ensures ReadChunks(s, limit, out) == Err(if |out| + size > USIZE_MAX then CapacityOverflow else BodyTooLarge(limit))
  {
  }

  /** Decoding a written body beyond the limit fails as soon as the limit is passed, whatever follows. */
  lemma {:induction false} DecodeBeyondLimit(
      chunks: seq<Chunk>, last: Chunk, trailers: seq<Bytes>, tail: Bytes, broken: bool, limit: Budget, out: Bytes)
    requires AllChunks(chunks)
    requires |out| <= limit < |out| + |Payload(chunks)|
    ensures ReadChunks(Stream(Encoded(chunks, last, trailers) + tail, broken), limit, out)
         == Err(Refusal(chunks, |out|, limit))
    decreases chunks
  {
    hide ReadChunks, IsSizeLine;
    var c, more := chunks[0], Encoded(chunks[1..], last, trailers) + tail;
    EncodedParts(chunks, last, trailers, tail);
    assert Encoded(chunks, last, trailers) + tail == c.sizeText + c.extension + "\r\n" + (c.data + "\r\n" + more);
    assert |Payload(chunks)| == |c.data| + |Payload(chunks[1..])|;
    SizeFits(c.sizeText, c.extension, |c.data|);
    if |out| + |c.data| > limit {
      var rest := c.data + "\r\n" + more;
      ReadWrittenSize(c.sizeText, c.extension, |c.data|, rest, broken);
      RefuseFirst(Stream(c.sizeText + c.extension + "\r\n" + rest, broken), |c.data|, Stream(rest, broken), limit, out);
    } else {
      DecodeFirst(c, more, broken, limit, out);
      DecodeBeyondLimit(chunks[1..], last, trailers, tail, broken, limit, out + c.data);
    }
  }

  lemma SizeFits(sizeText: Bytes, extension: Bytes, size: nat)
    requires IsSizeLine(sizeText, extension, size)
    ensures size <= USIZE_MAX
  {
  }

  /** With chunks some buffer can hold the refusal is the plain one. */
  lemma {:induction false} RefusalIsTooLarge(chunks: seq<Chunk>, held: nat, limit: Budget)
    requires held <= limit < held + |Payload(chunks)|
    requires forall i :: 0 <= i < |chunks| ==> |chunks[i].data| <= ISIZE_MAX
    ensures Refusal(chunks, held, limit) == BodyTooLarge(limit)
  {
    var total := held + |chunks[0].data|;
    if total <= limit {
      RefusalIsTooLarge(chunks[1..], total, limit);
    }
  }

  /** The chunk an ordinary sender writes: the size in hexadecimal and nothing else. */
  lemma PlainChunkIsChunk(data: Bytes)
    requires 0 < |data| <= USIZE_MAX
    ensures IsChunk(Chunk(PrintNat(|data|, 16), "", data))
    ensures IsSizeLine("0", "", 0)
  {
    PlainSizeLine(|data|);
    PlainSizeLine(0);
    assert PrintNat(0, 16) == "0";
  }

  lemma PlainSizeLine(n: nat)
    requires n <= USIZE_MAX
    ensures IsSizeLine(PrintNat(n, 16), "", n)
  {
    hide PrintNat, ParseNat, Trim, ValidUtf8;
    var text := PrintNat(n, 16);
    PrintNatDigits(n, 16);
    assert DigitValue('\r').None? && DigitValue('\n').None? && DigitValue(';').None?;
    PrintedIsPlain(n, 16);
    ParsePrinted(n, 16, USIZE_MAX);
    assert text + "" == text;
    AsciiIsValid(text + "\r\n");
  }

  // ----- Where the budget test wraps -----

  /** The next chunk line announces a size whose sum with what is buffered leaves 64 bits. */
  predicate Overflows(s: Stream, out: Bytes) {
    ReadSize(s).Ok? && |out| + ReadSize(s).value.0 > USIZE_MAX
  }

  /** The stream and buffer after `k` more data chunks. */
  function AfterChunks(s: Stream, limit: Budget, out: Bytes, k: nat): Option<(Stream, Bytes)>
    decreases k
  {
    if k == 0 then Some((s, out))
    else
      match ReadChunk(s, limit, out)
      case Grown(out', s') => AfterChunks(s', limit, out', k - 1)
      case _ => None
  }

  lemma ChunkOverflow(s: Stream, limit: Budget, out: Bytes)
    requires |out| <= limit
    ensures ReadChunk(s, limit, out) == Failed(CapacityOverflow) <==> Overflows(s, out)
    ensures ReadChunk(s, limit, out).Grown? ==> |ReadChunk(s, limit, out).out| <= limit
  {
    hide ReadChunkData, SkipTrailers, ReadSize;
  }

  ghost predicate PanicsAfter(s: Stream, limit: Budget, out: Bytes, k: nat) {
    AfterChunks(s, limit, out, k).Some?
    && Overflows(AfterChunks(s, limit, out, k).value.0, AfterChunks(s, limit, out, k).value.1)
  }

  lemma PanicsLater(s: Stream, limit: Budget, out: Bytes, k: nat)
    ensures PanicsAfter(s, limit, out, 0) <==> Overflows(s, out)
    ensures PanicsAfter(s, limit, out, k + 1)
       <==> var step := ReadChunk(s, limit, out); step.Grown? && PanicsAfter(step.rest, limit, step.out, k)
  {
  }

  /**
   Decoding ends in the allocation panic exactly when, behind some data chunks, a
   size line overflows the sum; every other oversized chunk is `BodyTooLarge`.
   */
  lemma {:induction false} PanicIffOverflow(s: Stream, limit: Budget, out: Bytes)
    requires |out| <= limit
    ensures ReadChunks(s, limit, out) == Err(CapacityOverflow) <==> exists k: nat :: PanicsAfter(s, limit, out, k)
    decreases |s.rest|
  {
    ChunkOverflow(s, limit, out);
    PanicsLater(s, limit, out, 0);
    var step := ReadChunk(s, limit, out);
    if step.Grown? {
      PanicIffOverflow(step.rest, limit, step.out);
      if k: nat :| PanicsAfter(step.rest, limit, step.out, k) {
        PanicsLater(s, limit, out, k);
        assert PanicsAfter(s, limit, out, k + 1);
      }
    }
    if k: nat :| PanicsAfter(s, limit, out, k) {
      if k > 0 {
        PanicsLater(s, limit, out, k - 1);
      }
    }
  }

  const OneByte: Chunk := Chunk("1", "", "x")

  /** One byte, then the largest size a machine word holds. */
  function WrappingBody(tail: Bytes): Bytes {
    "1\r\n" + ("x\r\n" + (PrintNat(USIZE_MAX, 16) + "\r\n" + tail))
  }

  lemma OneByteIsChunk()
    ensures IsChunk(OneByte)
  {
    PlainSizeLine(1);
    assert PrintNat(1, 16) == "1";
  }

  lemma WrappingBodyPanics(tail: Bytes, broken: bool, limit: Budget)
    requires limit >= 1
    ensures ReadChunks(Stream(WrappingBody(tail), broken), limit, "") == Err(CapacityOverflow)
  {
    hide ReadChunks, IsSizeLine, PrintNat;
    var text := PrintNat(USIZE_MAX, 16);
    var more := text + "\r\n" + tail;
    OneByteIsChunk();
    assert "1" + "" + "\r\n" == "1\r\n" && "x" + "\r\n" + more == "x\r\n" + more && "" + "x" == "x";
    DecodeFirst(OneByte, more, broken, limit, "");
    PlainSizeLine(USIZE_MAX);
    ReadWrittenSize(text, "", USIZE_MAX, tail, broken);
    assert text + "" == text;
    RefuseFirst(Stream(more, broken), USIZE_MAX, Stream(tail, broken), limit, "x");
  }

  /** Some stream makes the decoder panic exactly when the limit lets one byte be held. */
  lemma PanicPossibleIff(limit: Budget)
    ensures (exists s :: ReadChunks(s, limit, "") == Err(CapacityOverflow)) <==> limit >= 1
  {
    hide ReadChunks;
    if limit >= 1 {
      WrappingBodyPanics("", false, limit);
    } else {
      forall s ensures ReadChunks(s, limit, "") != Err(CapacityOverflow) {
        NoPanicWithoutRoom(s);
      }
    }
  }

  lemma NoPanicWithoutRoom(s: Stream)
    ensures ReadChunks(s, 0, "") != Err(CapacityOverflow)
  {
    ChunkOverflow(s, 0, "");
  }

  // ----- Headers -----

  predicate IsLengthHeader(h: Bytes) {
    Find(h, ':').Some? && EqIgnoreCase(Trim(h[..Find(h, ':').value]), "content-length")
  }

  function LengthText(h: Bytes): Bytes
    requires IsLengthHeader(h)
  {
    Trim(h[Find(h, ':').value + 1..])
  }

  predicate IsChunkedHeader(h: Bytes) {
    && Find(h, ':').Some?
    && EqIgnoreCase(Trim(h[..Find(h, ':').value]), "transfer-encoding")
    && EqIgnoreCase(Trim(h[Find(h, ':').value + 1..]), "chunked")
  }

  /** A header line as the reader accepts it. */
  predicate IsHeader(h: Bytes) {
    && IsLine(h) && h != "" && !IsLineEnd(h[|h| - 1])
    && Find(h, ':').Some?
    && (IsLengthHeader(h) ==> ParseNat(LengthText(h), 10, USIZE_MAX).Some?)
  }

  ghost predicate AllHeaders(hs: seq<Bytes>) {
    forall i :: 0 <= i < |hs| ==> IsHeader(hs[i])
  }

  /** The framing a list of headers asks for: the last length, and whether any line says chunked. */
  ghost function LastLength(hs: seq<Bytes>): Option<nat>
    requires AllHeaders(hs)
  {
    if hs == [] then None
    else
      var h := hs[|hs| - 1];
      if IsLengthHeader(h) then ParseNat(LengthText(h), 10, USIZE_MAX) else LastLength(hs[..|hs| - 1])
  }

  ghost function FramingOf(hs: seq<Bytes>): Framing
    requires AllHeaders(hs)
  {
    Framing(LastLength(hs), exists h :: h in hs && IsChunkedHeader(h))
  }

  lemma HeaderLineFolds(done: seq<Bytes>, h: Bytes)
    requires IsHeader(h) && AllHeaders(done)
    ensures AllHeaders(done + [h])
    ensures HeaderLine(h, FramingOf(done)) == Ok(FramingOf(done + [h]))
  {
    var done' := done + [h];
    assert done'[..|done'| - 1] == done;
    assert h in done' && forall x :: x in done' <==> x in done || x == h;
    assert IsLengthHeader(h) ==> !IsChunkedHeader(h) by {
      var k := Trim(h[..Find(h, ':').value]);
      assert |"content-length"| != |"transfer-encoding"|;
    }
  }

  lemma HeadersStep(s: Stream, line: Bytes, s': Stream, f: Framing, f': Framing)
    requires ReadLine(s) == Ok((line, s')) && Chomp(line) != "" && HeaderLine(Chomp(line), f) == Ok(f')
    ensures ReadHeaders(s, f) == ReadHeaders(s', f')
  {
    assert Chomp("") == "";
  }

  lemma HeadersEnd(f: Framing, tail: Bytes, broken: bool)
    ensures ReadHeaders(Stream(Lines([]) + tail, broken), f) == Ok((f, Stream(tail, broken)))
  {
    assert IsLine("") by { AsciiIsValid("\r\n"); assert "" + "\r\n" == "\r\n"; }
    ReadWrittenLine("", tail, broken);
    assert "" + "\r\n" + tail == Lines([]) + tail;
    ChompWritten("");
  }

  lemma HeadersFirst(done: seq<Bytes>, h: Bytes, more: Bytes, broken: bool)
    requires IsHeader(h) && AllHeaders(done)
    ensures AllHeaders(done + [h])
    ensures ReadHeaders(Stream(h + "\r\n" + more, broken), FramingOf(done))
         == ReadHeaders(Stream(more, broken), FramingOf(done + [h]))
  {
    ReadWrittenLine(h, more, broken);
    ChompWritten(h);
    HeaderLineFolds(done, h);
    HeadersStep(Stream(h + "\r\n" + more, broken), h + "\r\n", Stream(more, broken), FramingOf(done), FramingOf(done + [h]));
  }

  lemma {:induction false} ReadWrittenHeaders(done: seq<Bytes>, hs: seq<Bytes>, tail: Bytes, broken: bool)
    requires AllHeaders(done)
    requires AllHeaders(hs)
    ensures AllHeaders(done + hs)
    ensures ReadHeaders(Stream(Lines(hs) + tail, broken), FramingOf(done)) == Ok((FramingOf(done + hs), Stream(tail, broken)))
    decreases hs
  {
    hide ReadHeaders, IsHeader, FramingOf;
    if hs == [] {
      assert done + hs == done;
      HeadersEnd(FramingOf(done), tail, broken);
    } else {
      var more := Lines(hs[1..]) + tail;
      assert Lines(hs) + tail == hs[0] + "\r\n" + more;
      HeadersFirst(done, hs[0], more, broken);
      ReadWrittenHeaders(done + [hs[0]], hs[1..], tail, broken);
      assert (done + [hs[0]]) + hs[1..] == done + hs;
    }
  }

  /** A written header block is read as the framing its lines ask for. */
  lemma HeadersFraming(hs: seq<Bytes>, tail: Bytes, broken: bool)
    requires AllHeaders(hs)
    ensures ReadHeaders(Stream(Lines(hs) + tail, broken), NoFraming) == Ok((FramingOf(hs), Stream(tail, broken)))
  {
    assert [] + hs == hs;
    ReadWrittenHeaders([], hs, tail, broken);
  }

  function Written(statusLine: Bytes, hs: seq<Bytes>, body: Bytes): Bytes {
    statusLine + "\r\n" + (Lines(hs) + body)
  }

  lemma ResponseFraming(statusLine: Bytes, hs: seq<Bytes>, body: Bytes, broken: bool, limit: Budget)
    requires IsLine(statusLine) && ParseStatus(statusLine + "\r\n").Ok?
    requires AllHeaders(hs)
    ensures ParseResponse(Stream(Written(statusLine, hs, body), broken), limit)
         == match ReadBody(Stream(body, broken), FramingOf(hs), limit)
            case Err(e) => Err(e)
            case Ok(text) =>
              var status := ParseStatus(statusLine + "\r\n").value;
              if 200 <= status < 300 then Ok(HttpResponse(status, text)) else Err(HttpStatus(status, text))
  {
    ReadWrittenLine(statusLine, Lines(hs) + body, broken);
    HeadersFraming(hs, body, broken);
  }

  // ----- Status lines -----

  /** A status line as a sender means it. */
  datatype Head = Head(version: Bytes, status: nat, reason: Option<Bytes>)

  function StatusLine(head: Head): Bytes {
    head.version + " " + PrintNat(head.status, 10) + match head.reason { case None => "" case Some(text) => " " + text }
  }

  predicate NoLineEnd(s: Bytes) {
    '\r' !in s && '\n' !in s
  }

  predicate IsHead(head: Head) {
    && ' ' !in head.version && NoLineEnd(head.version) && head.status <= 65535
    && (head.reason.Some? ==> NoLineEnd(head.reason.value))
    && ValidUtf8(StatusLine(head) + "\r\n")
  }

  lemma ChompPlain(l: Bytes)
    requires NoLineEnd(l)
    ensures Chomp(l + "\r\n") == l
  {
    assert l != "" ==> l[|l| - 1] in l;
    ChompWritten(l);
  }

  lemma StatusLineIsPlain(head: Head)
    requires IsHead(head)
    ensures NoLineEnd(StatusLine(head)) && ' ' !in PrintNat(head.status, 10)
  {
    hide PrintNat, Value;
    PrintNatDigits(head.status, 10);
    assert DigitValue('\r').None? && DigitValue('\n').None? && DigitValue(' ').None?;
  }

  /** Every written status line, with or without a reason, has the status its sender meant. */
  lemma WrittenStatus(head: Head)
    requires IsHead(head)
    ensures IsLine(StatusLine(head)) && ParseStatus(StatusLine(head) + "\r\n") == Ok(head.status)
  {
    hide PrintNat, ParseNat, ValidUtf8, Chomp, ParseStatus, StatusLine;
    StatusLineIsPlain(head);
    ChompPlain(StatusLine(head));
    var rest := match head.reason { case None => "" case Some(reason) => " " + reason };
    StatusLineParts(head, rest);
    ParsePrinted(head.status, 10, 65535);
    ReadParts(StatusLine(head) + "\r\n", head.version, PrintNat(head.status, 10), rest);
  }

  lemma StatusLineParts(head: Head, rest: Bytes)
    requires rest == match head.reason { case None => "" case Some(reason) => " " + reason }
    ensures StatusLine(head) == head.version + " " + (PrintNat(head.status, 10) + rest) && (rest == "" || rest[0] == ' ')
  {
    hide PrintNat;
  }

  /** A line of these parts is read by its numeral. */
  lemma ReadParts(line: Bytes, version: Bytes, numeral: Bytes, rest: Bytes)
    requires StatusParts(Chomp(line), version, numeral, rest)
    ensures ParseStatus(line)
         == match ParseNat(numeral, 10, 65535) { case None => Err(InvalidStatusLine) case Some(n) => Ok(n) }
  {
    hide ParseNat, Chomp, Find;
    var text, after := Chomp(line), numeral + rest;
    assert text == version + [' '] + after;
    FindFirst(version, ' ', after);
    assert text[|version| + 1..] == after;
    BeforeRest(numeral, rest);
  }

  lemma BeforeRest(numeral: Bytes, rest: Bytes)
    requires ' ' !in numeral && (rest == "" || rest[0] == ' ')
    ensures Before(numeral + rest, ' ') == numeral
  {
    hide Before, Find;
    if rest == "" {
      assert numeral + rest == numeral;
      BeforeWritten(numeral, ' ', "");
    } else {
      assert numeral + rest == numeral + [' '] + rest[1..];
      BeforeWritten(numeral, ' ', rest[1..]);
    }
  }

  /** Which status lines are read, and as what. */
  lemma StatusIff(line: Bytes, n: nat)
    ensures ParseStatus(line) == Ok(n)
       <==> exists version, numeral, rest ::
              StatusParts(Chomp(line), version, numeral, rest) && ParseNat(numeral, 10, 65535) == Some(n)
    ensures ParseStatus(line).Err? ==> ParseStatus(line) == Err(InvalidStatusLine)
  {
    hide ParseNat, Chomp, StatusParts, Find, Before;
    var text := Chomp(line);
    if version, numeral, rest :| StatusParts(text, version, numeral, rest) && ParseNat(numeral, 10, 65535) == Some(n) {
      ReadParts(line, version, numeral, rest);
    }
    if ParseStatus(line) == Ok(n) {
      var version, numeral, rest := StatusSplits(line);
      assert StatusParts(text, version, numeral, rest) && ParseNat(numeral, 10, 65535) == Some(n);
    }
  }

  lemma StatusSplits(line: Bytes) returns (version: Bytes, numeral: Bytes, rest: Bytes)
    requires ParseStatus(line).Ok?
    ensures StatusParts(Chomp(line), version, numeral, rest)
    ensures ParseNat(numeral, 10, 65535) == Some(ParseStatus(line).value)
  {
    hide ParseNat, Chomp, Before;
    var text := Chomp(line);
    var i := Find(text, ' ').value;
    var after := text[i + 1..];
    version, numeral := text[..i], Before(after, ' ');
    hide Find;
    BeforeSplits(after, ' ');
    rest := after[|numeral|..];
    assert after == numeral + rest;
    assert text == version + " " + after;
    hide *;
  }

  predicate StatusParts(text: Bytes, version: Bytes, numeral: Bytes, rest: Bytes) {
    && text == version + " " + (numeral + rest)
    && ' ' !in version && ' ' !in numeral && (rest == "" || rest[0] == ' ')
  }

  lemma HeadFraming(head: Head, hs: seq<Bytes>, body: Bytes, broken: bool, limit: Budget)
    requires IsHead(head) && AllHeaders(hs)
    ensures ParseResponse(Stream(Written(StatusLine(head), hs, body), broken), limit)
         == match ReadBody(Stream(body, broken), FramingOf(hs), limit)
            case Err(e) => Err(e)
            case Ok(text) => Reported(head.status, text)
  {
    hide ParseResponse, ReadBody, StatusLine, IsHead, ParseStatus, Written;
    WrittenStatus(head);
    ResponseFraming(StatusLine(head), hs, body, broken, limit);
  }

  /**
   When a header says chunked, nothing else in a well-formed header block matters: not
   a Content-Length, not the order of the lines (section 3.3.3 of RFC 7230).
   */
  lemma ChunkedTakesPrecedence(
      head: Head, hs: seq<Bytes>, others: seq<Bytes>, body: Bytes, broken: bool, limit: Budget)
    requires IsHead(head)
    requires AllHeaders(hs)
    requires AllHeaders(others)
    requires exists h :: h in hs && IsChunkedHeader(h)
    requires exists h :: h in others && IsChunkedHeader(h)
    ensures ParseResponse(Stream(Written(StatusLine(head), hs, body), broken), limit)
         == ParseResponse(Stream(Written(StatusLine(head), others, body), broken), limit)
  {
    HeadFraming(head, hs, body, broken, limit);
    HeadFraming(head, others, body, broken, limit);
  }

  // The three framings end to end: what a sender meant is what the caller gets.

  /** What the caller gets for a body that was read. */
  function Reported(status: nat, text: Bytes): Result<HttpResponse, HttpError> {
    if 200 <= status < 300 then Ok(HttpResponse(status, text)) else Err(HttpStatus(status, text))
  }

  lemma ChunkedResponse(
      head: Head, hs: seq<Bytes>, chunks: seq<Chunk>, last: Chunk, trailers: seq<Bytes>, tail: Bytes, broken: bool,
      limit: Budget)
    requires IsHead(head)
    requires AllHeaders(hs)
    requires exists h :: h in hs && IsChunkedHeader(h)
    requires AllChunks(chunks)
    requires IsSizeLine(last.sizeText, last.extension, 0)
    requires AllTrailers(trailers)
    ensures ParseResponse(Stream(Written(StatusLine(head), hs, Encoded(chunks, last, trailers) + tail), broken), limit)
         == if |Payload(chunks)| > limit then Err(Refusal(chunks, 0, limit))
            else if !ValidUtf8(Payload(chunks)) then Err(MalformedHeaders)
            else Reported(head.status, Payload(chunks))
  {
    hide IsLine, ParseStatus, ValidUtf8, IsSizeLine, ReadChunks;
    HeadFraming(head, hs, Encoded(chunks, last, trailers) + tail, broken, limit);
    if |Payload(chunks)| <= limit {
      DecodeEncoded(chunks, last, trailers, tail, broken, limit, "");
      assert "" + Payload(chunks) == Payload(chunks);
    } else {
      DecodeBeyondLimit(chunks, last, trailers, tail, broken, limit, "");
    }
  }

  lemma LengthResponse(head: Head, hs: seq<Bytes>, text: Bytes, tail: Bytes, broken: bool, limit: Budget)
    requires IsHead(head)
    requires AllHeaders(hs) && forall h :: h in hs ==> !IsChunkedHeader(h)
    requires LastLength(hs) == Some(|text|)
    ensures ParseResponse(Stream(Written(StatusLine(head), hs, text + tail), broken), limit)
         == if |text| > limit then Err(BodyTooLarge(limit))
            else if !ValidUtf8(text) then Err(MalformedHeaders)
            else Reported(head.status, text)
  {
    HeadFraming(head, hs, text + tail, broken, limit);
    assert (text + tail)[..|text|] == text;
  }

  /** A body that ends before its announced length is a read error. */
  lemma ShortLengthResponse(head: Head, hs: seq<Bytes>, text: Bytes, broken: bool, limit: Budget)
    requires IsHead(head)
    requires AllHeaders(hs) && forall h :: h in hs ==> !IsChunkedHeader(h)
    requires LastLength(hs).Some? && |text| < LastLength(hs).value
    ensures ParseResponse(Stream(Written(StatusLine(head), hs, text), broken), limit)
         == if LastLength(hs).value > limit then Err(BodyTooLarge(limit)) else Err(ReadError)
  {
    HeadFraming(head, hs, text, broken, limit);
  }

  // ----- Headers the standard would refuse or read differently -----

  lemma WrittenHeader(name: Bytes, value: Bytes)
    requires name != "" && ':' !in name && (forall c :: c in name ==> (c as int) < 128)
    requires !IsAsciiSpace(name[0]) && !IsAsciiSpace(name[|name| - 1])
    requires value != "" && (forall c :: c in value ==> (c as int) < 128) && '\n' !in name && '\n' !in value
    requires !IsAsciiSpace(value[0]) && !IsAsciiSpace(value[|value| - 1])
    ensures var h := name + ": " + value;
            && IsLine(h) && h != "" && !IsLineEnd(h[|h| - 1]) && Find(h, ':') == Some(|name|)
            && Trim(h[..|name|]) == name && Trim(h[|name| + 1..]) == value
  {
    hide Trim, ValidUtf8, SpaceHead;
    var h := name + ": " + value;
    assert h == name + [':'] + (" " + value);
    FindFirst(name, ':', " " + value);
    assert h[..|name|] == name && h[|name| + 1..] == " " + value;
    TrimSpaced(name);
    TrimSpaced(value);
    AsciiIsValid(h + "\r\n");
    assert h[|h| - 1] == value[|value| - 1];
  }

  function LengthHeader(n: nat): Bytes {
    "Content-Length" + ": " + PrintNat(n, 10)
  }

  lemma LengthHeaderSays(n: nat)
    requires n <= USIZE_MAX
    ensures IsHeader(LengthHeader(n)) && IsLengthHeader(LengthHeader(n)) && !IsChunkedHeader(LengthHeader(n))
    ensures ParseNat(LengthText(LengthHeader(n)), 10, USIZE_MAX) == Some(n)
  {
    hide Trim, PrintNat, ParseNat, IsLine, Find, EqIgnoreCase, AllDigits, Value;
    PrintedSuitsHeader(n);
    ParsePrinted(n, 10, USIZE_MAX);
    WrittenHeader("Content-Length", PrintNat(n, 10));
    LengthName();
  }

  lemma LengthName()
    ensures EqIgnoreCase("Content-Length", "content-length") && !EqIgnoreCase("Content-Length", "transfer-encoding")
  { }

  lemma PrintedSuitsHeader(n: nat)
    ensures var digits := PrintNat(n, 10);
            && digits != "" && (forall c :: c in digits ==> (c as int) < 128) && '\n' !in digits
            && !IsAsciiSpace(digits[0]) && !IsAsciiSpace(digits[|digits| - 1])
  {
    hide PrintNat, Value;
    var digits := PrintNat(n, 10);
    PrintNatDigits(n, 10);
    DigitsAreAscii(digits, 10);
    assert digits[0] in digits && digits[|digits| - 1] in digits;
    assert forall c :: IsAsciiSpace(c) ==> DigitValue(c).None?;
    assert IsAsciiSpace('\n');
  }

  /** Two lengths that disagree are accepted, and the last one frames the body. */
  lemma DisagreeingLengthsAreAccepted(head: Head, m: nat, text: Bytes, tail: Bytes, broken: bool, limit: Budget)
    requires IsHead(head)
    requires m <= USIZE_MAX && m != |text| <= limit && ValidUtf8(text)
    ensures ParseResponse(Stream(Written(StatusLine(head), [LengthHeader(m), LengthHeader(|text|)], text + tail), broken), limit)
         == Reported(head.status, text)
  {
    assert |text| <= USIZE_MAX;
    hide *;
    LastOfTwoLengths(m, |text|);
    LengthResponse(head, [LengthHeader(m), LengthHeader(|text|)], text, tail, broken, limit);
  }

  lemma LastOfTwoLengths(m: nat, n: nat)
    requires m <= USIZE_MAX && n <= USIZE_MAX
    ensures var hs := [LengthHeader(m), LengthHeader(n)];
            AllHeaders(hs) && (forall h :: h in hs ==> !IsChunkedHeader(h)) && LastLength(hs) == Some(n)
  {
    hide IsHeader, IsLengthHeader, IsChunkedHeader, LengthHeader, LengthText, ParseNat;
    LengthHeaderSays(m);
    LengthHeaderSays(n);
  }

  /** The header an ordinary sender writes, in whatever case. */
  lemma ChunkedHeaderSays()
    ensures var h := "Transfer-Encoding" + ": " + "chunked"; IsHeader(h) && IsChunkedHeader(h) && !IsLengthHeader(h)
    ensures var h := "TRANSFER-ENCODING" + ": " + "CHUNKED"; IsHeader(h) && IsChunkedHeader(h) && !IsLengthHeader(h)
  {
    hide *;
    CodingNames();
    PlainNames();
    PlainValues();
    NamedChunked("Transfer-Encoding", "chunked");
    NamedChunked("TRANSFER-ENCODING", "CHUNKED");
  }

  /** A word of visible ASCII without a colon. */
  predicate IsPlainWord(s: Bytes) {
    s != "" && forall c :: c in s ==> 32 < (c as int) < 127 && c != ':'
  }

  lemma PlainNames()
    ensures IsPlainWord("Transfer-Encoding") && IsPlainWord("TRANSFER-ENCODING")
  { }

  lemma PlainValues()
    ensures IsPlainWord("chunked") && IsPlainWord("CHUNKED")
  { }

  /** Any header of that name and value, whatever their case. */
  lemma NamedChunked(name: Bytes, value: Bytes)
    requires EqIgnoreCase(name, "transfer-encoding") && !EqIgnoreCase(name, "content-length") && EqIgnoreCase(value, "chunked")
    requires IsPlainWord(name) && IsPlainWord(value)
    ensures var h := name + ": " + value; IsHeader(h) && IsChunkedHeader(h) && !IsLengthHeader(h)
  {
    hide Trim, ParseNat, IsLine, Find, EqIgnoreCase;
    assert name[0] in name && name[|name| - 1] in name && value[0] in value && value[|value| - 1] in value;
    WrittenHeader(name, value);
  }

  lemma CodingNames()
    ensures EqIgnoreCase("Transfer-Encoding", "transfer-encoding") && EqIgnoreCase("TRANSFER-ENCODING", "transfer-encoding")
    ensures EqIgnoreCase("chunked", "chunked") && EqIgnoreCase("CHUNKED", "chunked")
    ensures !EqIgnoreCase("Transfer-Encoding", "content-length") && !EqIgnoreCase("TRANSFER-ENCODING", "content-length")
  { }

  const CodingList: Bytes := "Transfer-Encoding" + ": " + "gzip, chunked"

  lemma CodingListFramesNothing()
    ensures IsHeader(CodingList) && !IsChunkedHeader(CodingList) && !IsLengthHeader(CodingList)
  {
    hide Trim, ParseNat, ValidUtf8;
    WrittenHeader("Transfer-Encoding", "gzip, chunked");
    assert |"content-length"| != |"transfer-encoding"| && |"gzip, chunked"| != |"chunked"|;
  }

  /** A list of codings that ends in chunked leaves the framing to the other headers. */
  lemma CodingListIsIgnored(hs: seq<Bytes>)
    requires AllHeaders(hs)
    ensures AllHeaders(hs + [CodingList]) && FramingOf(hs + [CodingList]) == FramingOf(hs)
  {
    hide IsHeader, IsChunkedHeader, IsLengthHeader;
    CodingListFramesNothing();
    var all := hs + [CodingList];
    assert all[..|all| - 1] == hs;
    assert forall h :: h in all <==> h in hs || h == CodingList;
  }

  /** Alone it gives the body as the connection delivers it, chunk sizes and all. */
  lemma CodingListReadsToTheEnd(head: Head, body: Bytes, limit: Budget)
    requires IsHead(head)
    requires |body| <= limit && ValidUtf8(body)
    ensures ParseResponse(Stream(Written(StatusLine(head), [CodingList], body), false), limit) == Reported(head.status, body)
  {
    hide IsHeader, IsChunkedHeader, IsLengthHeader, ParseResponse, ValidUtf8, ParseStatus, IsLine, Written;
    CodingListFramesNothing();
    CloseResponse(head, [CodingList], body, false, limit);
  }

  lemma CloseResponse(head: Head, hs: seq<Bytes>, text: Bytes, broken: bool, limit: Budget)
    requires IsHead(head)
    requires AllHeaders(hs) && forall h :: h in hs ==> !IsChunkedHeader(h) && !IsLengthHeader(h)
    ensures ParseResponse(Stream(Written(StatusLine(head), hs, text), broken), limit)
         == if |text| > limit then Err(BodyTooLarge(limit))
            else if broken then Err(ReadError)
            else if !ValidUtf8(text) then Err(MalformedHeaders)
            else Reported(head.status, text)
  {
    hide ParseResponse, IsHeader, IsLengthHeader, IsLine, ParseStatus, ValidUtf8, Written;
    HeadFraming(head, hs, text, broken, limit);
    NoLength(hs);
  }

  lemma NoLength(hs: seq<Bytes>)
    requires AllHeaders(hs) && forall h :: h in hs ==> !IsLengthHeader(h)
    ensures LastLength(hs) == None
  {
    if hs != [] {
      NoLength(hs[..|hs| - 1]);
    }
  }
}
