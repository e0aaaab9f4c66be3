/**
 The HTTP/1.1 response reader of the loopback client: status line, headers, and a
 body framed by chunks, by Content-Length or by the end of the connection.
 */
module HttpReader {
  import opened Basics
  import opened Numerals

  /** `CapacityOverflow` is the panic of an allocation no machine can serve, not a returned error. */
  datatype HttpError =
    | ReadError
    | InvalidStatusLine
    | HttpStatus(status: nat, body: Bytes)
    | BodyTooLarge(limit: nat)
    | MalformedHeaders
    | CapacityOverflow

  datatype HttpResponse = HttpResponse(status: nat, body: Bytes)

  /** The failures of reading and decoding itself. */
  predicate IsLocal(e: HttpError) {
    e.ReadError? || e.MalformedHeaders?
  }

  /** What is left of the stream; a broken one fails where a whole one would end. */
  datatype Stream = Stream(rest: Bytes, broken: bool)

  /** A byte budget a buffer can have at all. */
  type Budget = n: nat | n <= ISIZE_MAX

  type Read<T> = Result<(T, Stream), HttpError>

  // ----- Lines and exact reads -----

  /** One line with its line feed; at the end of the stream, whatever is left. */
  function ReadLine(s: Stream): (r: Read<Bytes>)
    ensures r.Ok? ==> r.value.0 + r.value.1.rest == s.rest && r.value.1.broken == s.broken
    ensures r.Ok? && s.rest != "" ==> r.value.0 != ""
    ensures r.Err? ==> IsLocal(r.error)
  {
    match Find(s.rest, '\n')
    case Some(i) =>
      if ValidUtf8(s.rest[..i + 1]) then Ok((s.rest[..i + 1], s.(rest := s.rest[i + 1..]))) else Err(ReadError)
    case None =>
      if s.broken || !ValidUtf8(s.rest) then Err(ReadError) else Ok((s.rest, s.(rest := "")))
  }

  function ReadExact(s: Stream, n: nat): (r: Read<Bytes>)
    ensures r.Ok? ==> |r.value.0| == n && r.value.0 + r.value.1.rest == s.rest && r.value.1.broken == s.broken
    ensures r.Err? ==> IsLocal(r.error)
  {
    if n <= |s.rest| then Ok((s.rest[..n], s.(rest := s.rest[n..]))) else Err(ReadError)
  }

  // ----- The chunked decoder -----

  function SkipTrailers(s: Stream): (r: Result<Stream, HttpError>)
    ensures r.Ok? ==> |r.value.rest| <= |s.rest| && r.value.broken == s.broken
    ensures r.Err? ==> IsLocal(r.error)
    decreases |s.rest|
  {
    var (line, s') :- ReadLine(s);
    if line == "" || Trim(line) == "" then Ok(s') else SkipTrailers(s')
  }

  /** The size announced by the next line. */
  function ReadSize(s: Stream): (r: Read<nat>)
    ensures r.Ok? ==> |r.value.1.rest| < |s.rest| && r.value.1.broken == s.broken && r.value.0 <= USIZE_MAX
    ensures r.Err? ==> IsLocal(r.error)
  {
    var (line, s') :- ReadLine(s);
    match ParseNat(Trim(Before(Chomp(line), ';')), 16, USIZE_MAX)
    case None => Err(MalformedHeaders)
    case Some(size) => assert line == "" ==> Chomp(line) == "" && Before("", ';') == "" && Trim("") == ""; Ok((size, s'))
  }

  function ReadChunkData(s: Stream, size: nat): (r: Read<Bytes>)
    ensures r.Ok? ==> |r.value.0| == size && |r.value.1.rest| <= |s.rest|
    ensures r.Err? ==> IsLocal(r.error)
  {
    var (data, s1) :- ReadExact(s, size);
    var (crlf, s2) :- ReadExact(s1, 2);
    if crlf != "\r\n" then Err(MalformedHeaders) else Ok((data, s2))
  }

  /** The budget test adds two 64-bit lengths, and the sum wraps. */
  function WrappingSum(a: nat, b: nat): nat {
    if a + b > USIZE_MAX then a + b - (USIZE_MAX + 1) else a + b
  }

  datatype ChunkStep = Finished(rest: Stream) | Grown(out: Bytes, rest: Stream) | Failed(error: HttpError)

  function ReadChunk(s: Stream, limit: Budget, out: Bytes): (r: ChunkStep)
    ensures r.Grown? ==> |r.rest.rest| < |s.rest|
    ensures r.Failed? ==> !r.error.HttpStatus?
  {
    match ReadSize(s)
    case Err(e) => Failed(e)
    case Ok((size, s1)) =>
      if size == 0 then
        match SkipTrailers(s1) { case Err(e) => Failed(e) case Ok(s2) => Finished(s2) }
      else if WrappingSum(|out|, size) > limit then Failed(BodyTooLarge(limit))
      else if size > ISIZE_MAX then Failed(CapacityOverflow)
      else
        match ReadChunkData(s1, size)
        case Err(e) => Failed(e)
        case Ok((data, s2)) => Grown(out + data, s2)
  }

  function ReadChunks(s: Stream, limit: Budget, out: Bytes): (r: Read<Bytes>)
    ensures r.Err? ==> !r.error.HttpStatus?
    decreases |s.rest|
  {
    match ReadChunk(s, limit, out)
    case Finished(s') => Ok((out, s'))
    case Failed(e) => Err(e)
    case Grown(out', s') => ReadChunks(s', limit, out')
  }

  function AsText(body: Bytes): Result<Bytes, HttpError> {
    if ValidUtf8(body) then Ok(body) else Err(MalformedHeaders)
  }

  // ----- Status line, headers, body -----

  function ParseStatus(line: Bytes): Result<nat, HttpError> {
    var text := Chomp(line);
    match Find(text, ' ')
    case None => Err(InvalidStatusLine)
    case Some(i) =>
      match ParseNat(Before(text[i + 1..], ' '), 10, 65535)
      case None => Err(InvalidStatusLine)
      case Some(status) => Ok(status)
  }

  datatype Framing = Framing(contentLength: Option<nat>, chunked: bool)

  const NoFraming := Framing(None, false)

  /** What one header line adds to the framing. */
  function HeaderLine(line: Bytes, f: Framing): Result<Framing, HttpError> {
    match Find(line, ':')
    case None => Err(MalformedHeaders)
    case Some(i) =>
      var k, v := Trim(line[..i]), Trim(line[i + 1..]);
      if EqIgnoreCase(k, "content-length") then
        match ParseNat(v, 10, USIZE_MAX)
        case None => Err(MalformedHeaders)
        case Some(n) => Ok(f.(contentLength := Some(n)))
      else if EqIgnoreCase(k, "transfer-encoding") && EqIgnoreCase(v, "chunked") then Ok(f.(chunked := true))
      else Ok(f)
  }

  function ReadHeaders(s: Stream, f: Framing): (r: Read<Framing>)
    ensures r.Err? ==> IsLocal(r.error)
    decreases |s.rest|
  {
    var (line, s') :- ReadLine(s);
    if line == "" then Err(MalformedHeaders)
    else if Chomp(line) == "" then Ok((f, s'))
    else
      var f' :- HeaderLine(Chomp(line), f);
      ReadHeaders(s', f')
  }

  function ReadToEnd(s: Stream, limit: Budget): Result<Bytes, HttpError> {
    if |s.rest| > limit then Err(BodyTooLarge(limit))
    else if s.broken then Err(ReadError)
    else AsText(s.rest)
  }

  function ReadBody(s: Stream, f: Framing, limit: Budget): (r: Result<Bytes, HttpError>)
    ensures r.Err? ==> !r.error.HttpStatus?
  {
    if f.chunked then
      var (out, _) :- ReadChunks(s, limit, "");
      AsText(out)
    else if f.contentLength.Some? then
      if f.contentLength.value > limit then Err(BodyTooLarge(limit))
      else
        var (body, _) :- ReadExact(s, f.contentLength.value);
        AsText(body)
    else ReadToEnd(s, limit)
  }

  function ParseResponse(s: Stream, limit: Budget): Result<HttpResponse, HttpError> {
    var (line, s1) :- ReadLine(s);
    var status :- ParseStatus(line);
    var (framing, s2) :- ReadHeaders(s1, NoFraming);
    var body :- ReadBody(s2, framing, limit);
    if 200 <= status < 300 then Ok(HttpResponse(status, body)) else Err(HttpStatus(status, body))
  }

  // ----- The reader as the program runs it -----

  class Reader {
    const data: Bytes
    const broken: bool
    var pos: nat
    /** The most body bytes held together with a buffer asked for at any time so far, granted or not. */
    ghost var peak: nat

    ghost predicate Valid()
      reads this
    {
      pos <= |data|
    }

    ghost function Left(): Stream
      requires Valid()
      reads this
    {
      Stream(data[pos..], broken)
    }

    constructor (data: Bytes, broken: bool)
      ensures Valid() && Left() == Stream(data, broken) && peak == 0
    {
      this.data, this.broken, pos, peak := data, broken, 0, 0;
    }

    method Line() returns (r: Result<Bytes, HttpError>)
      requires Valid()
      modifies this`pos
      ensures Valid()
      ensures match ReadLine(old(Left()))
              case Ok((line, s)) => r == Ok(line) && Left() == s
              case Err(e) => r == Err(e)
    {
      hide ValidUtf8, Find;
      var start := pos;
      ghost var rest := data[start..];
      while pos < |data| && data[pos] != '\n'
        invariant start <= pos <= |data|
        invariant forall i :: start <= i < pos ==> data[i] != '\n'
      {
        pos := pos + 1;
      }
      if pos < |data| {
        FindFirst(data[start..pos], '\n', data[pos + 1..]);
        assert rest == data[start..pos] + ['\n'] + data[pos + 1..];
        pos := pos + 1;
        assert data[start..pos] == rest[..pos - start];
        assert data[pos..] == rest[pos - start..];
      } else {
        assert data[start..pos] == rest;
        assert forall i :: 0 <= i < |rest| ==> rest[i] == data[start + i];
        if broken {
          return Err(ReadError);
        }
      }
      r := if ValidUtf8(data[start..pos]) then Ok(data[start..pos]) else Err(ReadError);
    }

    method Exact(n: nat) returns (r: Result<Bytes, HttpError>)
      requires Valid()
      modifies this`pos
      ensures Valid()
      ensures match ReadExact(old(Left()), n)
              case Ok((bytes, s)) => r == Ok(bytes) && Left() == s
              case Err(e) => r == Err(e)
    {
      if n > |data| - pos {
        return Err(ReadError);
      }
      assert data[pos..][..n] == data[pos..pos + n];
      assert data[pos..][n..] == data[pos + n..];
      r := Ok(data[pos..pos + n]);
      pos := pos + n;
    }

    method Size() returns (r: Result<nat, HttpError>)
      requires Valid()
      modifies this`pos
      ensures Valid()
      ensures match ReadSize(old(Left()))
              case Ok((size, s)) => r == Ok(size) && Left() == s
              case Err(e) => r == Err(e)
    {
      var line := Line();
      if line.Err? {
        return Err(line.error);
      }
      var size := ParseNat(Trim(Before(Chomp(line.value), ';')), 16, USIZE_MAX);
      r := if size.None? then Err(MalformedHeaders) else Ok(size.value);
    }

    method ChunkData(size: nat) returns (r: Result<Bytes, HttpError>)
      requires Valid()
      modifies this`pos
      ensures Valid()
      ensures match ReadChunkData(old(Left()), size)
              case Ok((chunk, s)) => r == Ok(chunk) && Left() == s
              case Err(e) => r == Err(e)
    {
      r := Exact(size);
      if r.Err? {
        return;
      }
      var crlf := Exact(2);
      if crlf.Err? {
        return Err(crlf.error);
      }
      if crlf.value != "\r\n" {
        return Err(MalformedHeaders);
      }
    }

    /** One turn of the chunk loop: `None` ends the body. */
    method Chunk(limit: Budget, out: Bytes) returns (r: Result<Option<Bytes>, HttpError>)
      requires Valid() && |out| <= limit && peak <= limit
      modifies this`pos, this`peak
      ensures Valid() && (r == Err(CapacityOverflow) <==> peak > limit)
      ensures peak > limit ==> peak > limit + 1
      ensures match ReadChunk(old(Left()), limit, out)
              case Finished(s) => r == Ok(None) && Left() == s
              case Grown(out', s) => r == Ok(Some(out')) && Left() == s && |out'| <= limit
              case Failed(e) => r == Err(e)
    {
      var size := Size();
      if size.Err? {
        return Err(size.error);
      }
      if size.value == 0 {
        var done := Trailers();
        return if done.Ok? then Ok(None) else Err(done.error);
      }
      if WrappingSum(|out|, size.value) > limit {
        return Err(BodyTooLarge(limit));
      }
      if peak < |out| + size.value {
        peak := |out| + size.value;
      }
      if size.value > ISIZE_MAX {
        return Err(CapacityOverflow);
      }
      var chunk := ChunkData(size.value);
      r := if chunk.Ok? then Ok(Some(out + chunk.value)) else Err(chunk.error);
    }

    /** A buffer beyond the limit is asked for exactly in the runs whose size sum wraps. */
    method Chunked(limit: Budget) returns (r: Result<Bytes, HttpError>)
      requires Valid() && peak == 0
      modifies this`pos, this`peak
      ensures Valid()
      ensures match ReadChunks(old(Left()), limit, "")
              case Ok((out, s)) => Left() == s && r == AsText(out)
              case Err(e) => r == Err(e)
      ensures peak > limit <==> r == Err(CapacityOverflow)
      ensures peak > limit ==> peak > limit + 1
    {
      var out := "";
      while true
        invariant Valid() && |out| <= limit && peak <= limit
        invariant ReadChunks(old(Left()), limit, "") == ReadChunks(Left(), limit, out)
        decreases |data| - pos
      {
        var step := Chunk(limit, out);
        if step.Err? {
          return Err(step.error);
        }
        if step.value.None? {
          return AsText(out);
        }
        out := step.value.value;
      }
    }

    method Trailers() returns (r: Result<(), HttpError>)
      requires Valid()
      modifies this`pos
      ensures Valid()
      ensures match SkipTrailers(old(Left()))
              case Ok(s) => r.Ok? && Left() == s
              case Err(e) => r == Err(e)
    {
      while true
        invariant Valid()
        invariant SkipTrailers(old(Left())) == SkipTrailers(Left())
        decreases |data| - pos
      {
        var line := Line();
        if line.Err? {
          return Err(line.error);
        }
        if line.value == "" || Trim(line.value) == "" {
          return Ok(());
        }
      }
    }

    method Headers() returns (r: Result<Framing, HttpError>)
      requires Valid()
      modifies this`pos
      ensures Valid()
      ensures match ReadHeaders(old(Left()), NoFraming)
              case Ok((f, s)) => r == Ok(f) && Left() == s
              case Err(e) => r == Err(e)
    {
      var framing := NoFraming;
      while true
        invariant Valid()
        invariant ReadHeaders(old(Left()), NoFraming) == ReadHeaders(Left(), framing)
        decreases |data| - pos
      {
        var line := Line();
        if line.Err? {
          return Err(line.error);
        }
        if line.value == "" {
          return Err(MalformedHeaders);
        }
        if Chomp(line.value) == "" {
          return Ok(framing);
        }
        var next := HeaderLine(Chomp(line.value), framing);
        if next.Err? {
          return Err(next.error);
        }
        framing := next.value;
      }
    }

    /** Only the read-to-end framing looks one byte past the limit; a wrapped size sum asks for more. */
    method Response(limit: Budget) returns (r: Result<HttpResponse, HttpError>)
      requires Valid() && peak == 0
      modifies this
      ensures Valid()
      ensures r == ParseResponse(old(Left()), limit)
      ensures peak > limit + 1 <==> r == Err(CapacityOverflow)
    {
      var line := Line();
      if line.Err? {
        return Err(line.error);
      }
      var status := ParseStatus(line.value);
      if status.Err? {
        return Err(status.error);
      }
      var framing := Headers();
      if framing.Err? {
        return Err(framing.error);
      }
      var body: Result<Bytes, HttpError>;
      if framing.value.chunked {
        body := Chunked(limit);
      } else if framing.value.contentLength.Some? {
        var len := framing.value.contentLength.value;
        if len > limit {
          return Err(BodyTooLarge(limit));
        }
        peak := len;
        body := Exact(len);
        if body.Ok? {
          body := AsText(body.value);
        }
      } else {
        peak := limit + 1;
        var n := if |data| - pos <= limit then |data| - pos else limit + 1;
        if n > limit {
          return Err(BodyTooLarge(limit));
        }
        body := if broken then Err(ReadError) else AsText(data[pos..]);
        pos := |data|;
      }
      if body.Err? {
        return Err(body.error);
      }
      if 200 <= status.value < 300 {
        r := Ok(HttpResponse(status.value, body.value));
      } else {
        r := Err(HttpStatus(status.value, body.value));
      }
    }
  }
}
