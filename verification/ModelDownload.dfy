/**
 Model downloads: the resumable transfer into a partial file, and the manager that
 verifies it and renames it into place. The network and the disk are oracles.
 */
module ModelDownload {
  import opened Basics
  import opened Numerals
  import opened Urls

  /** The files of the models directory by name. */
  type Files = map<string, Bytes>


  // ----- The network and the disk -----

  datatype ReadEvent = Data(bytes: Bytes) | Broken

  /** What the server does with one request; the body ends where the events do. */
  datatype Reply =
    | NoAnswer
    | Answer(status: nat, location: Option<Bytes>, contentRange: Option<Bytes>, contentLength: Option<Bytes>, body: seq<ReadEvent>)

  /** Which disk operations fail; `write` names the failing write and how many bytes it still stores. */
  datatype DiskFaults =
    DiskFaults(mkdir: bool, open: bool, write: Option<(nat, nat)>, flush: bool, removeStale: bool)

  const GoodDisk := DiskFaults(false, false, None, false, false)

  datatype DownloadError = DiskError | HttpFailure | Status(code: nat) | MissingLength | DisallowedRedirect

  /** How a transfer ends: the files, every state they pass through on the way, the progress reports, the result. */
  datatype Transfer = Transfer(files: Files, trace: seq<Files>, progress: seq<(nat, nat)>, result: Result<(), DownloadError>)

  // ----- One transfer -----

  /** Up to `hops` requests along checked redirects. */
  function Follow(url: Bytes, replies: seq<Reply>, hops: nat): Result<Reply, DownloadError>
    decreases hops
  {
    if hops == 0 || replies == [] || replies[0].NoAnswer? then Err(HttpFailure)
    else
      var r := replies[0];
      if 300 <= r.status < 400 then
        if r.location.None? then Err(Status(r.status))
        else
          var next := Absolutise(url, r.location.value);
          if !ValidateRedirect(next) then Err(DisallowedRedirect) else Follow(next, replies[1..], hops - 1)
      else Ok(r)
  }

  /** The URLs those requests go to. */
  function Requested(url: Bytes, replies: seq<Reply>, hops: nat): seq<Bytes>
    decreases hops
  {
    if hops == 0 then []
    else if replies == [] || replies[0].NoAnswer? || !(300 <= replies[0].status < 400) || replies[0].location.None? then [url]
    else
      var next := Absolutise(url, replies[0].location.value);
      if !ValidateRedirect(next) then [url] else [url] + Requested(next, replies[1..], hops - 1)
  }

  function AfterLastSlash(s: Bytes): Bytes {
    if LastSlash(s) < |s| then s[LastSlash(s) + 1..] else s
  }

  /** The total a progress bar shows. */
  function TotalSize(r: Reply, resume: nat, expected: nat): Result<nat, DownloadError>
    requires r.Answer?
  {
    if r.contentRange.Some? then
      Ok(match ParseNat(Trim(AfterLastSlash(r.contentRange.value)), 10, U64_MAX) { case Some(n) => n case None => expected })
    else if r.contentLength.Some? then
      var body := match ParseNat(r.contentLength.value, 10, U64_MAX) { case Some(n) => n case None => 0 };
      Ok(if r.status == 206 then resume + body else body)
    else if expected > 0 then Ok(expected)
    else Err(MissingLength)
  }

  function Saturated(n: nat): nat {
    if n > U64_MAX then U64_MAX else n
  }

  const PROGRESS_EVERY_CHUNKS := 16

  function Append(files: Files, name: string, bytes: Bytes): Files
    requires name in files
  {
    files[name := files[name] + bytes]
  }

  /** A copy under way: bytes `done`, chunks `since` the last report, the faults still to come. */
  datatype Copy = Copy(files: Files, trace: seq<Files>, progress: seq<(nat, nat)>, done: nat, since: nat, faults: DiskFaults)

  predicate WriteFails(faults: DiskFaults) {
    faults.write.Some? && faults.write.value.0 == 0
  }

  /** A failing write stores only the beginning of its chunk. */
  function Torn(c: Copy, name: string, bytes: Bytes): Copy
    requires name in c.files && c.faults.write.Some?
  {
    var k := c.faults.write.value.1;
    var files := Append(c.files, name, if k <= |bytes| then bytes[..k] else bytes);
    c.(files := files, trace := c.trace + [files])
  }

  function CopyChunk(c: Copy, name: string, bytes: Bytes, total: nat): (c': Copy)
    requires name in c.files
    ensures name in c'.files
  {
    var files := Append(c.files, name, bytes);
    var done := Saturated(c.done + |bytes|);
    var report := c.since + 1 >= PROGRESS_EVERY_CHUNKS;
    Copy(files, c.trace + [files], if report then c.progress + [(done, total)] else c.progress,
         done, if report then 0 else c.since + 1, Later(c.faults))
  }

  /** Copying the body to the file. */
  function CopyBody(c: Copy, name: string, body: seq<ReadEvent>, total: nat): (Copy, Result<(), DownloadError>)
    requires name in c.files
    decreases body
  {
    if body == [] || body[0] == Data("") then
      if c.faults.flush then (c, Err(DiskError)) else (c.(progress := c.progress + [(c.done, total)]), Ok(()))
    else if body[0].Broken? then (c, Err(DiskError))
    else if WriteFails(c.faults) then (Torn(c, name, body[0].bytes), Err(DiskError))
    else CopyBody(CopyChunk(c, name, body[0].bytes, total), name, body[1..], total)
  }

  /** The faults as seen after one more write succeeded. */
  function Later(faults: DiskFaults): DiskFaults {
    match faults.write
    case Some((n, k)) => if n > 0 then faults.(write := Some((n - 1, k))) else faults
    case None => faults
  }

  /** What was logged before a copy stays in front of what the copy logs. */
  lemma {:induction false} CopyBodyLogs(c: Copy, t: seq<Files>, p: seq<(nat, nat)>, name: string, body: seq<ReadEvent>, total: nat)
    requires name in c.files
    ensures var (c1, r1) := CopyBody(c, name, body, total);
            CopyBody(c.(trace := t + c.trace, progress := p + c.progress), name, body, total)
            == (c1.(trace := t + c1.trace, progress := p + c1.progress), r1)
    decreases body
  {
    if body == [] || body[0] == Data("") {
      assert p + (c.progress + [(c.done, total)]) == (p + c.progress) + [(c.done, total)];
    } else if body[0].Data? {
      var shifted := c.(trace := t + c.trace, progress := p + c.progress);
      if WriteFails(c.faults) {
        var files := Torn(c, name, body[0].bytes).files;
        assert t + (c.trace + [files]) == (t + c.trace) + [files];
      } else {
        var c' := CopyChunk(c, name, body[0].bytes, total);
        assert t + (c.trace + [c'.files]) == (t + c.trace) + [c'.files];
        assert p + (c.progress + [(c'.done, total)]) == (p + c.progress) + [(c'.done, total)];
        assert CopyChunk(shifted, name, body[0].bytes, total) == c'.(trace := t + c'.trace, progress := p + c'.progress);
        CopyBodyLogs(c', t, p, name, body[1..], total);
      }
    }
  }

  function Resume(files: Files, name: string): nat {
    if name in files then |files[name]| else 0
  }

  /** Storing an answer with status 200 or 206. */
  function Store(files: Files, name: string, r: Reply, expected: nat, faults: DiskFaults): Transfer
    requires r.Answer?
  {
    var resume := Resume(files, name);
    match TotalSize(r, resume, expected)
    case Err(e) => Transfer(files, [], [], Err(e))
    case Ok(total) =>
      var resuming := r.status == 206;
      var start := if resuming then resume else 0;
      if faults.mkdir || faults.open || (resuming && name !in files) then
        Transfer(files, [], [(start, total)], Err(DiskError))
      else
        var emptied := if resuming then files else files[name := ""];
        var trace := if resuming then [] else [emptied];
        var (c, result) := CopyBody(Copy(emptied, trace, [(start, total)], start, 0, faults), name, r.body, total);
        Transfer(c.files, c.trace, c.progress, result)
  }

  function DownloadToFile(
      files: Files, name: string, url: Bytes, expected: nat, replies: seq<Reply>, faults: DiskFaults): Transfer
  {
    if !ValidateRedirect(url) then Transfer(files, [], [], Err(DisallowedRedirect))
    else
      match Follow(url, replies, 5)
      case Err(e) => Transfer(files, [], [], Err(e))
      case Ok(r) =>
        if r.Answer? && (r.status == 200 || r.status == 206) then Store(files, name, r, expected, faults)
        else
          var code := if r.Answer? then r.status else 0;
          // A range the server cannot serve: the stale partial goes, so that the next try starts over.
          if code == 416 && Resume(files, name) > 0 && !faults.removeStale then
            Transfer(files - {name}, [files - {name}], [], Err(Status(code)))
          else Transfer(files, [], [], Err(Status(code)))
  }

  // ----- The manager -----

  datatype ModelTier = Small | Medium | Large {
    function Filename(): string {
      match this
      case Small => "Ternary-Bonsai-1.7B-Q2_0.gguf"
      case Medium => "Ternary-Bonsai-4B-Q2_0.gguf"
      case Large => "Ternary-Bonsai-8B-Q2_0.gguf"
    }
  }

  datatype ModelDescriptor =
    ModelDescriptor(tier: ModelTier, filename: string, hash: Bytes, downloadUrl: Option<Bytes>, sizeBytes: nat)
  {
    function Partial(): string {
      filename + ".partial"
    }
  }

  datatype DownloadState = Downloading | Verifying | Completed | Failed(stage: string)

  datatype ManagerError =
    | MissingDescriptor
    | NoDownloadUrl
    | IoError
    | ChecksumMismatch
    | Download(error: DownloadError)

  datatype Faults = Faults(
    createDir: bool, hashFinal: bool, removeFinal: bool, hashPartial: bool, renamePartial: bool,
    disk: DiskFaults, hashDownloaded: bool, removeBad: bool, renameDownloaded: bool)

  const NoFaults := Faults(false, false, false, false, false, GoodDisk, false, false, false)

  /** How an attempt ends, with every state the directory passes through and the states reported. */
  datatype Attempt = Attempt(
    files: Files, trace: seq<Files>, states: seq<DownloadState>, progress: seq<(nat, nat)>, result: Result<string, ManagerError>)

  function FindDescriptor(ds: seq<ModelDescriptor>, tier: ModelTier): Option<ModelDescriptor> {
    if ds == [] then None
    else if ds[0].tier == tier then Some(ds[0])
    else FindDescriptor(ds[1..], tier)
  }

  function Renamed(files: Files, from: string, to: string): Files
    requires from in files
  {
    (files - {from})[to := files[from]]
  }

  /** Hash the downloaded partial and rename it, or delete it. */
  function VerifyAndRename(files: Files, d: ModelDescriptor, hash: Bytes -> Bytes, faults: Faults): Attempt {
    var partial, final := d.Partial(), d.tier.Filename();
    if faults.hashDownloaded || partial !in files then
      Attempt(files, [], [Verifying, Failed("verify")], [], Err(IoError))
    else if hash(files[partial]) != d.hash then
      var files' := if faults.removeBad then files else files - {partial};
      Attempt(files', [files'], [Verifying, Failed("verify")], [], Err(ChecksumMismatch))
    else if faults.renameDownloaded then
      Attempt(files, [], [Verifying, Failed("rename")], [], Err(IoError))
    else
      var files' := Renamed(files, partial, final);
      Attempt(files', [files'], [Verifying, Completed], [], Ok(final))
  }

  function FetchAndVerify(files: Files, d: ModelDescriptor, url: Bytes, hash: Bytes -> Bytes, replies: seq<Reply>, faults: Faults): Attempt {
    var t := DownloadToFile(files, d.Partial(), url, d.sizeBytes, replies, faults.disk);
    match t.result
    case Err(e) => Attempt(t.files, t.trace, [Downloading, Failed("download")], t.progress, Err(Download(e)))
    case Ok(_) =>
      var v := VerifyAndRename(t.files, d, hash, faults);
      Attempt(v.files, t.trace + v.trace, [Downloading] + v.states, t.progress, v.result)
  }

  /** The attempt once no verified final file is there. */
  function FromPartial(files: Files, d: ModelDescriptor, url: Bytes, hash: Bytes -> Bytes, replies: seq<Reply>, faults: Faults): Attempt {
    var partial, final := d.Partial(), d.tier.Filename();
    if partial in files && !faults.hashPartial && hash(files[partial]) == d.hash then
      if faults.renamePartial then Attempt(files, [], [Verifying, Failed("rename")], [], Err(IoError))
      else
        var files' := Renamed(files, partial, final);
        Attempt(files', [files'], [Verifying, Completed], [], Ok(final))
    else FetchAndVerify(files, d, url, hash, replies, faults)
  }

  function DownloadModel(
      files: Files, ds: seq<ModelDescriptor>, tier: ModelTier, hash: Bytes -> Bytes, replies: seq<Reply>, faults: Faults): Attempt
  {
    match FindDescriptor(ds, tier)
    case None => Attempt(files, [], [], [], Err(MissingDescriptor))
    case Some(d) =>
      match d.downloadUrl
      case None => Attempt(files, [], [], [], Err(NoDownloadUrl))
      case Some(url) =>
        var final := tier.Filename();
        if faults.createDir then Attempt(files, [], [], [], Err(IoError))
        else if final in files then
          if faults.hashFinal then Attempt(files, [], [], [], Err(IoError))
          else if hash(files[final]) == d.hash then Attempt(files, [], [Completed], [], Ok(final))
          else if faults.removeFinal then Attempt(files, [], [], [], Err(IoError))
          else
            var files' := files - {final};
            var a := FromPartial(files', d, url, hash, replies, faults);
            a.(trace := [files'] + a.trace)
        else FromPartial(files, d, url, hash, replies, faults)
  }

  // ----- The program's steps -----

  /** The models directory with the manager's callbacks; `trace` keeps every state a crash could leave. */
  class ModelStore {
    const descriptors: seq<ModelDescriptor>
    const hash: Bytes -> Bytes
    var files: Files
    ghost var trace: seq<Files>
    var states: seq<DownloadState>
    var progress: seq<(nat, nat)>

    constructor (descriptors: seq<ModelDescriptor>, hash: Bytes -> Bytes, files: Files)
      ensures this.descriptors == descriptors && this.hash == hash && this.files == files
      ensures trace == [] && states == [] && progress == []
    {
      this.descriptors, this.hash, this.files := descriptors, hash, files;
      trace, states, progress := [], [], [];
    }

    method SetFiles(files': Files)
      modifies this`files, this`trace
      ensures files == files' && trace == old(trace) + [files']
    {
      files := files';
      trace := trace + [files'];
    }

    method FollowRedirects(url: Bytes, replies: seq<Reply>) returns (r: Result<Reply, DownloadError>, requested: seq<Bytes>)
      ensures r == Follow(url, replies, 5)
      ensures requested == Requested(url, replies, 5)
    {
      r, requested := FollowUpTo(url, replies, 5);
    }

    method FollowUpTo(url: Bytes, replies: seq<Reply>, hops: nat) returns (r: Result<Reply, DownloadError>, requested: seq<Bytes>)
      ensures r == Follow(url, replies, hops)
      ensures requested == Requested(url, replies, hops)
    {
      hide Absolutise, ValidateRedirect;
      var current := url;
      requested := [];
      var i := 0;
      while i < hops
        invariant 0 <= i <= hops
        invariant i <= |replies|
        invariant Follow(url, replies, hops) == Follow(current, replies[i..], hops - i)
        invariant Requested(url, replies, hops) == requested + Requested(current, replies[i..], hops - i)
      {
        requested := requested + [current];
        if i == |replies| || replies[i].NoAnswer? {
          return Err(HttpFailure), requested;
        }
        var reply := replies[i];
        if !(300 <= reply.status < 400) {
          return Ok(reply), requested;
        }
        if reply.location.None? {
          return Err(Status(reply.status)), requested;
        }
        var next := Absolutise(current, reply.location.value);
        if !ValidateRedirect(next) {
          return Err(DisallowedRedirect), requested;
        }
        assert replies[i..][1..] == replies[i + 1..];
        current := next;
        i := i + 1;
      }
      r := Err(HttpFailure);
    }

    method Write(name: string, body: seq<ReadEvent>, start: nat, total: nat, faults: DiskFaults)
      returns (r: Result<(), DownloadError>)
      requires name in files
      modifies this`files, this`trace, this`progress
      ensures var (c, result) := CopyBody(Copy(old(files), old(trace), old(progress), start, 0, faults), name, body, total);
              files == c.files && trace == c.trace && progress == c.progress && r == result
    {
      hide Append, Saturated;
      var i, left := 0, faults;
      var done: nat, since: nat := start, 0;
      while i < |body| && body[i] != Data("")
        invariant 0 <= i <= |body|
        invariant name in files
        invariant CopyBody(Copy(old(files), old(trace), old(progress), start, 0, faults), name, body, total)
               == CopyBody(Copy(files, trace, progress, done, since, left), name, body[i..], total)
      {
        if body[i].Broken? {
          return Err(DiskError);
        }
        var bytes := body[i].bytes;
        assert body[i..][0] == body[i] && body[i..][1..] == body[i + 1..];
        if WriteFails(left) {
          var k := left.write.value.1;
          SetFiles(Append(files, name, if k <= |bytes| then bytes[..k] else bytes));
          return Err(DiskError);
        }
        SetFiles(Append(files, name, bytes));
        done := Saturated(done + |bytes|);
        since := since + 1;
        if since >= PROGRESS_EVERY_CHUNKS {
          progress := progress + [(done, total)];
          since := 0;
        }
        left := Later(left);
        i := i + 1;
      }
      if left.flush {
        return Err(DiskError);
      }
      progress := progress + [(done, total)];
      r := Ok(());
    }

    method StoreAnswer(name: string, reply: Reply, expected: nat, faults: DiskFaults) returns (r: Result<(), DownloadError>)
      requires reply.Answer?
      modifies this`files, this`trace, this`progress
      ensures var t := Store(old(files), name, reply, expected, faults);
              files == t.files && trace == old(trace) + t.trace && progress == old(progress) + t.progress && r == t.result
    {
      hide CopyBody, TotalSize;
      var resume := Resume(files, name);
      var total := TotalSize(reply, resume, expected);
      if total.Err? {
        return Err(total.error);
      }
      var resuming := reply.status == 206;
      var start := if resuming then resume else 0;
      progress := progress + [(start, total.value)];
      if faults.mkdir || faults.open || (resuming && name !in files) {
        return Err(DiskError);
      }
      if !resuming {
        SetFiles(files[name := ""]);
      }
      ghost var c := Copy(files, if resuming then [] else [files], [(start, total.value)], start, 0, faults);
      CopyBodyLogs(c, old(trace), old(progress), name, reply.body, total.value);
      assert trace == old(trace) + c.trace;
      r := Write(name, reply.body, start, total.value, faults);
    }

    method Fetch(name: string, url: Bytes, expected: nat, replies: seq<Reply>, faults: DiskFaults)
      returns (r: Result<(), DownloadError>)
      modifies this`files, this`trace, this`progress
      ensures var t := DownloadToFile(old(files), name, url, expected, replies, faults);
              files == t.files && trace == old(trace) + t.trace && progress == old(progress) + t.progress && r == t.result
    {
      hide Follow, Store, ValidateRedirect;
      if !ValidateRedirect(url) {
        return Err(DisallowedRedirect);
      }
      var answer, _ := FollowRedirects(url, replies);
      if answer.Err? {
        return Err(answer.error);
      }
      var reply := answer.value;
      if reply.Answer? && (reply.status == 200 || reply.status == 206) {
        r := StoreAnswer(name, reply, expected, faults);
        return;
      }
      var code := if reply.Answer? then reply.status else 0;
      if code == 416 && Resume(files, name) > 0 && !faults.removeStale {
        SetFiles(files - {name});
      }
      r := Err(Status(code));
    }

    method Emit(s: DownloadState)
      modifies this`states
      ensures states == old(states) + [s]
    {
      states := states + [s];
    }

    method Verify(d: ModelDescriptor, faults: Faults) returns (r: Result<string, ManagerError>)
      modifies this`files, this`trace, this`states
      ensures var v := VerifyAndRename(old(files), d, hash, faults);
              files == v.files && trace == old(trace) + v.trace && states == old(states) + v.states && r == v.result
    {
      var partial, final := d.Partial(), d.tier.Filename();
      Emit(Verifying);
      if faults.hashDownloaded || partial !in files {
        Emit(Failed("verify"));
        return Err(IoError);
      }
      if hash(files[partial]) != d.hash {
        SetFiles(if faults.removeBad then files else files - {partial});
        Emit(Failed("verify"));
        return Err(ChecksumMismatch);
      }
      if faults.renameDownloaded {
        Emit(Failed("rename"));
        return Err(IoError);
      }
      SetFiles(Renamed(files, partial, final));
      Emit(Completed);
      r := Ok(final);
    }

    method RunFromPartial(d: ModelDescriptor, url: Bytes, replies: seq<Reply>, faults: Faults)
      returns (r: Result<string, ManagerError>)
      modifies this
      ensures var a := FromPartial(old(files), d, url, hash, replies, faults);
              && files == a.files && trace == old(trace) + a.trace && states == old(states) + a.states
              && progress == old(progress) + a.progress && r == a.result
    {
      hide DownloadToFile, VerifyAndRename;
      var partial, final := d.Partial(), d.tier.Filename();
      if partial in files && !faults.hashPartial && hash(files[partial]) == d.hash {
        Emit(Verifying);
        if faults.renamePartial {
          Emit(Failed("rename"));
          return Err(IoError);
        }
        SetFiles(Renamed(files, partial, final));
        Emit(Completed);
        return Ok(final);
      }
      Emit(Downloading);
      var t := Fetch(partial, url, d.sizeBytes, replies, faults.disk);
      if t.Err? {
        Emit(Failed("download"));
        return Err(Download(t.error));
      }
      r := Verify(d, faults);
    }

    method Run(tier: ModelTier, replies: seq<Reply>, faults: Faults) returns (r: Result<string, ManagerError>)
      modifies this
      ensures var a := DownloadModel(old(files), descriptors, tier, hash, replies, faults);
              && files == a.files && trace == old(trace) + a.trace && states == old(states) + a.states
              && progress == old(progress) + a.progress && r == a.result
    {
      hide FromPartial, FindDescriptor;
      var found := FindDescriptor(descriptors, tier);
      if found.None? {
        return Err(MissingDescriptor);
      }
      var d := found.value;
      if d.downloadUrl.None? {
        return Err(NoDownloadUrl);
      }
      if faults.createDir {
        return Err(IoError);
      }
      var final := tier.Filename();
      if final in files {
        if faults.hashFinal {
          return Err(IoError);
        }
        if hash(files[final]) == d.hash {
          Emit(Completed);
          return Ok(final);
        }
        if faults.removeFinal {
          return Err(IoError);
        }
        SetFiles(files - {final});
      }
      r := RunFromPartial(d, d.downloadUrl.value, replies, faults);
    }
  }
}
