/** What repeated, interrupted and recovered downloads keep. */
module DownloadLaws {
  import opened Basics
  import opened Numerals
  import opened Urls
  import opened ModelDownload

  // ----- Requests -----

  /** The host the URL names is one the allow list admits. */
  ghost predicate GoesToAllowed(url: Bytes) {
    HostOf(url).Some? && Allowed(HostOf(url).value)
  }

  /** At most `hops` requests are made, the first to the given URL and each further one to an allowed host. */
  lemma RequestsAreAllowed(url: Bytes, replies: seq<Reply>, hops: nat)
    ensures |Requested(url, replies, hops)| <= hops
    ensures Requested(url, replies, hops) != [] ==> Requested(url, replies, hops)[0] == url
    ensures forall i :: 1 <= i < |Requested(url, replies, hops)| ==> GoesToAllowed(Requested(url, replies, hops)[i])
    ensures ValidateRedirect(url) <==> GoesToAllowed(url)
  {
    hide Absolutise, HostIsAllowed, HostOf, Allowed;
    if HostOf(url).Some? {
      HostIsAllowedIff(HostOf(url).value);
    }
    FurtherRequestsAreChecked(url, replies, hops);
    forall i | 1 <= i < |Requested(url, replies, hops)| ensures GoesToAllowed(Requested(url, replies, hops)[i]) {
      HostIsAllowedIff(HostOf(Requested(url, replies, hops)[i]).value);
    }
  }

  lemma {:induction false} FurtherRequestsAreChecked(url: Bytes, replies: seq<Reply>, hops: nat)
    ensures var r := Requested(url, replies, hops);
            |r| <= hops && (r != [] ==> r[0] == url) && forall i :: 1 <= i < |r| ==> ValidateRedirect(r[i])
    decreases hops
  {
    hide ValidateRedirect, Absolutise;
    if hops > 0 && replies != [] && replies[0].Answer? && replies[0].location.Some? {
      var next := Absolutise(url, replies[0].location.value);
      if ValidateRedirect(next) {
        FurtherRequestsAreChecked(next, replies[1..], hops - 1);
      }
    }
  }

  // ----- What an attempt may touch -----

  /** A final name ends in `f`, a partial name in `l`. */
  lemma NamesDiffer(d: ModelDescriptor, tier: ModelTier)
    ensures d.Partial() != tier.Filename()
  {
    var p, f := d.Partial(), tier.Filename();
    assert p[|p| - 1] == ".partial"[|".partial"| - 1] == 'l';
    assert f[|f| - 1] == 'f';
  }

  /** `a` and `b` differ at most in the named file. */
  ghost predicate SameBut(name: string, a: Files, b: Files) {
    forall n :: n != name ==> (n in a <==> n in b) && (n in a ==> a[n] == b[n])
  }

  ghost predicate AllSameBut(name: string, a: Files, trace: seq<Files>) {
    forall i :: 0 <= i < |trace| ==> SameBut(name, a, trace[i])
  }

  lemma {:induction false} CopyTouches(c: Copy, name: string, body: seq<ReadEvent>, total: nat, a: Files)
    requires name in c.files && SameBut(name, a, c.files) && AllSameBut(name, a, c.trace)
    ensures var (c', _) := CopyBody(c, name, body, total);
            name in c'.files && SameBut(name, a, c'.files) && AllSameBut(name, a, c'.trace)
    decreases body
  {
    if body != [] && body[0].Data? && body[0].bytes != "" && !WriteFails(c.faults) {
      CopyTouches(CopyChunk(c, name, body[0].bytes, total), name, body[1..], total, a);
    }
  }

  lemma TransferTouches(files: Files, name: string, url: Bytes, expected: nat, replies: seq<Reply>, faults: DiskFaults)
    ensures var t := DownloadToFile(files, name, url, expected, replies, faults);
            && SameBut(name, files, t.files) && AllSameBut(name, files, t.trace)
            && (t.result.Ok? ==> name in t.files)
  {
    hide ValidateRedirect, CopyBody, TotalSize;
    var f := Follow(url, replies, 5);
    if f.Ok? && f.value.Answer? && TotalSize(f.value, Resume(files, name), expected).Ok? {
      var r := f.value;
      var total := TotalSize(r, Resume(files, name), expected).value;
      var start := if r.status == 206 then Resume(files, name) else 0;
      if name in files {
        CopyTouches(Copy(files, [], [(start, total)], start, 0, faults), name, r.body, total, files);
      }
      var emptied := files[name := ""];
      CopyTouches(Copy(emptied, [emptied], [(start, total)], start, 0, faults), name, r.body, total, files);
    }
  }

  /** In state `g` the final file is the old one or one with the right hash, and only the two files moved. */
  ghost predicate Passes(files: Files, d: ModelDescriptor, hash: Bytes -> Bytes, g: Files) {
    var final := d.tier.Filename();
    && (forall n :: n != final && n != d.Partial() ==> (n in files <==> n in g) && (n in g ==> g[n] == files[n]))
    && (final in g ==> hash(g[final]) == d.hash || (final in files && g[final] == files[final]))
  }

  ghost predicate AllPass(files: Files, d: ModelDescriptor, hash: Bytes -> Bytes, trace: seq<Files>) {
    forall i :: 0 <= i < |trace| ==> Passes(files, d, hash, trace[i])
  }

  lemma PartialPasses(files: Files, d: ModelDescriptor, url: Bytes, hash: Bytes -> Bytes, replies: seq<Reply>, faults: Faults)
    ensures var a := FromPartial(files, d, url, hash, replies, faults);
            Passes(files, d, hash, a.files) && AllPass(files, d, hash, a.trace)
  {
    hide DownloadToFile;
    NamesDiffer(d, d.tier);
    TransferTouches(files, d.Partial(), url, d.sizeBytes, replies, faults.disk);
  }

  lemma {:induction false} FoundTier(ds: seq<ModelDescriptor>, tier: ModelTier)
    requires FindDescriptor(ds, tier).Some?
    ensures FindDescriptor(ds, tier).value.tier == tier
  {
    if ds[0].tier != tier {
      FoundTier(ds[1..], tier);
    }
  }

  /** Every directory state of an attempt, under any network and any disk. */
  lemma AttemptPasses(
      files: Files, ds: seq<ModelDescriptor>, tier: ModelTier, hash: Bytes -> Bytes, replies: seq<Reply>, faults: Faults)
    requires FindDescriptor(ds, tier).Some?
    ensures var d := FindDescriptor(ds, tier).value;
            var a := DownloadModel(files, ds, tier, hash, replies, faults);
            Passes(files, d, hash, a.files) && AllPass(files, d, hash, a.trace)
  {
    hide FromPartial;
    FoundTier(ds, tier);
    var d := FindDescriptor(ds, tier).value;
    if d.downloadUrl.Some? {
      PartialPasses(files, d, d.downloadUrl.value, hash, replies, faults);
      PartialPasses(files - {tier.Filename()}, d, d.downloadUrl.value, hash, replies, faults);
    }
  }

  // ----- Sessions of attempts and crashes -----

  /** One attempt; a crash leaves the directory as it is after that many of its changes. */
  datatype Visit = Visit(tier: ModelTier, replies: seq<Reply>, faults: Faults, crash: Option<nat>)

  function AfterVisit(files: Files, ds: seq<ModelDescriptor>, hash: Bytes -> Bytes, v: Visit): Files {
    var a := DownloadModel(files, ds, v.tier, hash, v.replies, v.faults);
    match v.crash
    case None => a.files
    case Some(k) => if k == 0 || a.trace == [] then files else a.trace[if k <= |a.trace| then k - 1 else |a.trace| - 1]
  }

  function Session(files: Files, ds: seq<ModelDescriptor>, hash: Bytes -> Bytes, visits: seq<Visit>): Files
    decreases visits
  {
    if visits == [] then files else Session(AfterVisit(files, ds, hash, visits[0]), ds, hash, visits[1..])
  }

  /** Every final file with a descriptor has the descriptor's hash. */
  ghost predicate Safe(files: Files, ds: seq<ModelDescriptor>, hash: Bytes -> Bytes) {
    forall t: ModelTier ::
      FindDescriptor(ds, t).Some? && t.Filename() in files ==> hash(files[t.Filename()]) == FindDescriptor(ds, t).value.hash
  }

  lemma FilenamesDiffer(t: ModelTier, u: ModelTier)
    requires t != u
    ensures t.Filename() != u.Filename()
  {
    var a, b, c := Small.Filename(), Medium.Filename(), Large.Filename();
    assert a[15] == '1' && b[15] == '4' && c[15] == '8';
  }

  lemma PassesKeepsSafe(files: Files, ds: seq<ModelDescriptor>, tier: ModelTier, hash: Bytes -> Bytes, g: Files)
    requires Safe(files, ds, hash) && FindDescriptor(ds, tier).Some?
    requires Passes(files, FindDescriptor(ds, tier).value, hash, g)
    ensures Safe(g, ds, hash)
  {
    var d := FindDescriptor(ds, tier).value;
    FoundTier(ds, tier);
    forall t: ModelTier | FindDescriptor(ds, t).Some? && t.Filename() in g
      ensures hash(g[t.Filename()]) == FindDescriptor(ds, t).value.hash
    {
      NamesDiffer(d, t);
      if t != tier {
        FilenamesDiffer(t, tier);
      }
    }
  }

  /**
   Final files that start absent or with the right hash stay so across any attempts,
   truncated transfers, disk failures and crashes.
   */
  lemma {:induction false} SessionKeepsSafe(files: Files, ds: seq<ModelDescriptor>, hash: Bytes -> Bytes, visits: seq<Visit>)
    requires Safe(files, ds, hash)
    ensures Safe(Session(files, ds, hash, visits), ds, hash)
    decreases visits
  {
    hide DownloadModel, Passes, Safe;
    if visits != [] {
      var v := visits[0];
      var next := AfterVisit(files, ds, hash, v);
      if FindDescriptor(ds, v.tier).Some? {
        AttemptPasses(files, ds, v.tier, hash, v.replies, v.faults);
        if next != files {
          PassesKeepsSafe(files, ds, v.tier, hash, next);
        }
      } else {
        NothingWithoutDescriptor(files, ds, v.tier, hash, v.replies, v.faults);
      }
      SessionKeepsSafe(next, ds, hash, visits[1..]);
    }
  }

  lemma NothingWithoutDescriptor(
      files: Files, ds: seq<ModelDescriptor>, tier: ModelTier, hash: Bytes -> Bytes, replies: seq<Reply>, faults: Faults)
    requires FindDescriptor(ds, tier).None?
    ensures var a := DownloadModel(files, ds, tier, hash, replies, faults); a.files == files && a.trace == []
  {
  }

  // ----- Results and reported states -----

  /** The reports of an attempt for `d` agree with its result and with the directory. */
  ghost predicate Faithful(a: Attempt, d: ModelDescriptor, hash: Bytes -> Bytes) {
    var final := d.tier.Filename();
    && (a.result.Ok? <==> a.states != [] && a.states[|a.states| - 1] == Completed)
    && (forall i :: 0 <= i < |a.states| - 1 ==> a.states[i].Downloading? || a.states[i].Verifying?)
    && (a.result.Ok? ==> a.result.value == final && final in a.files && hash(a.files[final]) == d.hash)
  }

  lemma VerifyIsFaithful(files: Files, d: ModelDescriptor, hash: Bytes -> Bytes, faults: Faults)
    ensures Faithful(VerifyAndRename(files, d, hash, faults), d, hash)
    ensures VerifyAndRename(files, d, hash, faults).states != []
  {
  }

  lemma PartialIsFaithful(files: Files, d: ModelDescriptor, url: Bytes, hash: Bytes -> Bytes, replies: seq<Reply>, faults: Faults)
    ensures Faithful(FromPartial(files, d, url, hash, replies, faults), d, hash)
  {
    hide DownloadToFile, VerifyAndRename;
    var t := DownloadToFile(files, d.Partial(), url, d.sizeBytes, replies, faults.disk);
    VerifyIsFaithful(t.files, d, hash, faults);
    var v := VerifyAndRename(t.files, d, hash, faults);
    var states := [Downloading] + v.states;
    assert states[|states| - 1] == v.states[|v.states| - 1];
  }

  /** Success is reported exactly by a last `Completed`, and means a verified file is in place. */
  lemma OkIffCompleted(
      files: Files, ds: seq<ModelDescriptor>, tier: ModelTier, hash: Bytes -> Bytes, replies: seq<Reply>, faults: Faults)
    ensures var a := DownloadModel(files, ds, tier, hash, replies, faults);
            && (FindDescriptor(ds, tier).None? ==> a.result.Err? && a.states == [])
            && (FindDescriptor(ds, tier).Some? ==> Faithful(a, FindDescriptor(ds, tier).value, hash))
  {
    hide FromPartial;
    if FindDescriptor(ds, tier).Some? {
      FoundTier(ds, tier);
      var d := FindDescriptor(ds, tier).value;
      if d.downloadUrl.Some? {
        PartialIsFaithful(files, d, d.downloadUrl.value, hash, replies, faults);
        PartialIsFaithful(files - {tier.Filename()}, d, d.downloadUrl.value, hash, replies, faults);
      }
    }
  }

  // ----- Honest bodies and the prefix invariant -----

  /** The bytes a body delivers before it ends or breaks. */
  function Delivered(body: seq<ReadEvent>): Bytes {
    if body == [] || body[0].Broken? || body[0].bytes == "" then "" else body[0].bytes + Delivered(body[1..])
  }

  predicate Unbroken(body: seq<ReadEvent>) {
    body == [] || (body[0].Data? && (body[0].bytes == "" || Unbroken(body[1..])))
  }

  /** A body that may be cut short but delivers nothing but the asked-for range of the content. */
  predicate ServesPrefix(content: Bytes, resume: nat, r: Reply) {
    r.Answer? ==>
      && (r.status == 206 ==> resume <= |content| && Delivered(r.body) <= content[resume..])
      && (r.status == 200 ==> Delivered(r.body) <= content)
  }

  predicate PartialIsPrefix(files: Files, name: string, content: Bytes) {
    name in files ==> files[name] <= content
  }

  ghost predicate AllPrefixes(trace: seq<Files>, name: string, content: Bytes) {
    forall i :: 0 <= i < |trace| ==> PartialIsPrefix(trace[i], name, content)
  }

  lemma {:induction false} CopyKeepsPrefix(c: Copy, name: string, body: seq<ReadEvent>, total: nat, content: Bytes)
    requires name in c.files && c.files[name] + Delivered(body) <= content && AllPrefixes(c.trace, name, content)
    ensures var (c', _) := CopyBody(c, name, body, total);
            PartialIsPrefix(c'.files, name, content) && AllPrefixes(c'.trace, name, content)
    decreases body
  {
    var have := c.files[name];
    assert have <= content;
    if body != [] && body[0].Data? && body[0].bytes != "" {
      var bytes := body[0].bytes;
      assert have + Delivered(body) == have + bytes + Delivered(body[1..]);
      if WriteFails(c.faults) {
        var k := c.faults.write.value.1;
        if k <= |bytes| {
          assert have + bytes == have + bytes[..k] + bytes[k..];
        }
      } else {
        CopyKeepsPrefix(CopyChunk(c, name, bytes, total), name, body[1..], total, content);
      }
    }
  }

  lemma StoreKeepsPrefix(files: Files, name: string, r: Reply, expected: nat, faults: DiskFaults, content: Bytes)
    requires r.Answer? && (r.status == 200 || r.status == 206)
    requires PartialIsPrefix(files, name, content) && ServesPrefix(content, Resume(files, name), r)
    ensures var t := Store(files, name, r, expected, faults);
            PartialIsPrefix(t.files, name, content) && AllPrefixes(t.trace, name, content)
  {
    hide CopyBody, TotalSize, Delivered;
    var resume := Resume(files, name);
    if TotalSize(r, resume, expected).Ok? {
      var total := TotalSize(r, resume, expected).value;
      if r.status == 206 {
        if name in files {
          assert files[name] == content[..resume] && content == content[..resume] + content[resume..];
          CopyKeepsPrefix(Copy(files, [], [(resume, total)], resume, 0, faults), name, r.body, total, content);
        }
      } else {
        var emptied := files[name := ""];
        assert "" + Delivered(r.body) == Delivered(r.body);
        CopyKeepsPrefix(Copy(emptied, [emptied], [(0, total)], 0, 0, faults), name, r.body, total, content);
      }
    }
  }

  /** Whatever answer the redirects lead to is honest about the content. */
  ghost predicate HonestBodies(content: Bytes, resume: nat, replies: seq<Reply>) {
    forall i :: 0 <= i < |replies| ==> ServesPrefix(content, resume, replies[i])
  }

  lemma {:induction false} FollowedReply(url: Bytes, replies: seq<Reply>, hops: nat)
    requires Follow(url, replies, hops).Ok?
    ensures Follow(url, replies, hops).value in replies && Follow(url, replies, hops).value.Answer?
    decreases hops
  {
    hide ValidateRedirect, Absolutise;
    if 300 <= replies[0].status < 400 {
      FollowedReply(Absolutise(url, replies[0].location.value), replies[1..], hops - 1);
    }
  }

  lemma TransferKeepsPrefix(files: Files, name: string, url: Bytes, expected: nat, replies: seq<Reply>, faults: DiskFaults, content: Bytes)
    requires PartialIsPrefix(files, name, content) && HonestBodies(content, Resume(files, name), replies)
    ensures var t := DownloadToFile(files, name, url, expected, replies, faults);
            PartialIsPrefix(t.files, name, content) && AllPrefixes(t.trace, name, content)
  {
    hide ValidateRedirect, Follow, Store, ServesPrefix;
    if Follow(url, replies, 5).Ok? {
      var r := Follow(url, replies, 5).value;
      FollowedReply(url, replies, 5);
      if r.status == 200 || r.status == 206 {
        StoreKeepsPrefix(files, name, r, expected, faults, content);
      }
    }
  }

  lemma PartialKeepsPrefix(
      files: Files, d: ModelDescriptor, url: Bytes, hash: Bytes -> Bytes, replies: seq<Reply>, faults: Faults, content: Bytes)
    requires PartialIsPrefix(files, d.Partial(), content)
    requires HonestBodies(content, Resume(files, d.Partial()), replies)
    ensures var a := FromPartial(files, d, url, hash, replies, faults);
            PartialIsPrefix(a.files, d.Partial(), content) && AllPrefixes(a.trace, d.Partial(), content)
  {
    hide DownloadToFile, HonestBodies;
    NamesDiffer(d, d.tier);
    TransferKeepsPrefix(files, d.Partial(), url, d.sizeBytes, replies, faults.disk, content);
  }

  /** With a server that never sends wrong bytes, every directory state keeps the partial a prefix of the content. */
  lemma AttemptKeepsPrefix(
      files: Files, ds: seq<ModelDescriptor>, tier: ModelTier, hash: Bytes -> Bytes, replies: seq<Reply>, faults: Faults, content: Bytes)
    requires FindDescriptor(ds, tier).Some?
    requires var partial := FindDescriptor(ds, tier).value.Partial();
             PartialIsPrefix(files, partial, content) && HonestBodies(content, Resume(files, partial), replies)
    ensures var partial := FindDescriptor(ds, tier).value.Partial();
            var a := DownloadModel(files, ds, tier, hash, replies, faults);
            PartialIsPrefix(a.files, partial, content) && AllPrefixes(a.trace, partial, content)
  {
    hide FromPartial, HonestBodies;
    var d := FindDescriptor(ds, tier).value;
    NamesDiffer(d, tier);
    if d.downloadUrl.Some? {
      PartialKeepsPrefix(files, d, d.downloadUrl.value, hash, replies, faults, content);
      var removed := files - {tier.Filename()};
      assert Resume(removed, d.Partial()) == Resume(files, d.Partial());
      PartialKeepsPrefix(removed, d, d.downloadUrl.value, hash, replies, faults, content);
    }
  }

  /** The visit works on this partial file. */
  predicate WorksOn(ds: seq<ModelDescriptor>, tier: ModelTier, partial: string) {
    FindDescriptor(ds, tier).Some? && FindDescriptor(ds, tier).value.Partial() == partial
  }

  /** Each visit that works on the partial file meets an honest server for what it finds there. */
  ghost predicate HonestSession(files: Files, ds: seq<ModelDescriptor>, hash: Bytes -> Bytes, visits: seq<Visit>, partial: string, content: Bytes)
    decreases visits
  {
    visits == []
    || (&& (WorksOn(ds, visits[0].tier, partial) ==> HonestBodies(content, Resume(files, partial), visits[0].replies))
        && HonestSession(AfterVisit(files, ds, hash, visits[0]), ds, hash, visits[1..], partial, content))
  }

  lemma PassesKeepsOthers(files: Files, ds: seq<ModelDescriptor>, tier: ModelTier, hash: Bytes -> Bytes, g: Files, d: ModelDescriptor)
    requires FindDescriptor(ds, tier).Some? && !WorksOn(ds, tier, d.Partial())
    requires Passes(files, FindDescriptor(ds, tier).value, hash, g)
    ensures d.Partial() in files <==> d.Partial() in g
    ensures d.Partial() in g ==> g[d.Partial()] == files[d.Partial()]
  {
    FoundTier(ds, tier);
    NamesDiffer(d, tier);
  }

  /** One visit, of any tier, leaves the partial file a prefix. */
  lemma VisitKeepsPrefix(files: Files, ds: seq<ModelDescriptor>, d: ModelDescriptor, hash: Bytes -> Bytes, v: Visit, content: Bytes)
    requires PartialIsPrefix(files, d.Partial(), content)
    requires WorksOn(ds, v.tier, d.Partial()) ==> HonestBodies(content, Resume(files, d.Partial()), v.replies)
    ensures PartialIsPrefix(AfterVisit(files, ds, hash, v), d.Partial(), content)
  {
    hide DownloadModel, HonestBodies, Passes;
    var next := AfterVisit(files, ds, hash, v);
    if FindDescriptor(ds, v.tier).None? {
      NothingWithoutDescriptor(files, ds, v.tier, hash, v.replies, v.faults);
    } else if WorksOn(ds, v.tier, d.Partial()) {
      AttemptKeepsPrefix(files, ds, v.tier, hash, v.replies, v.faults, content);
    } else {
      AttemptPasses(files, ds, v.tier, hash, v.replies, v.faults);
      if next != files {
        PassesKeepsOthers(files, ds, v.tier, hash, next, d);
      }
    }
  }

  /** The prefix invariant of a partial file over a whole session of any tiers, crashes included. */
  lemma {:induction false} SessionKeepsPrefix(
      files: Files, ds: seq<ModelDescriptor>, d: ModelDescriptor, hash: Bytes -> Bytes, visits: seq<Visit>, content: Bytes)
    requires PartialIsPrefix(files, d.Partial(), content)
    requires HonestSession(files, ds, hash, visits, d.Partial(), content)
    ensures PartialIsPrefix(Session(files, ds, hash, visits), d.Partial(), content)
    decreases visits
  {
    hide DownloadModel, HonestBodies, PartialIsPrefix, WorksOn;
    if visits != [] {
      VisitKeepsPrefix(files, ds, d, hash, visits[0], content);
      SessionKeepsPrefix(AfterVisit(files, ds, hash, visits[0]), ds, d, hash, visits[1..], content);
    }
  }

  // ----- What each answer does to the file -----

  /** A reply that is no redirect and no content: only a range that cannot be served costs the partial file. */
  lemma OtherStatusKeepsFiles(
      files: Files, name: string, url: Bytes, expected: nat, r: Reply, more: seq<Reply>, faults: DiskFaults)
    requires GoesToAllowed(url) && r.Answer? && !(300 <= r.status < 400) && r.status != 200 && r.status != 206
    ensures var t := DownloadToFile(files, name, url, expected, [r] + more, faults);
            && t.result == Err(Status(r.status)) && t.progress == []
            && (if r.status == 416 && name in files && files[name] != "" && !faults.removeStale
                then t.files == files - {name} && t.trace == [files - {name}]
                else t.files == files && t.trace == [])
  {
    hide HostOf, Allowed, HostIsAllowed, Absolutise;
    HostIsAllowedIff(HostOf(url).value);
    assert ([r] + more)[0] == r;
  }

  /** A start at a host that is not allowed asks nobody and changes nothing. */
  lemma RefusedStartDoesNothing(files: Files, name: string, url: Bytes, expected: nat, replies: seq<Reply>, faults: DiskFaults)
    requires !GoesToAllowed(url)
    ensures DownloadToFile(files, name, url, expected, replies, faults) == Transfer(files, [], [], Err(DisallowedRedirect))
  {
    hide HostOf, Allowed, HostIsAllowed;
    if HostOf(url).Some? {
      HostIsAllowedIff(HostOf(url).value);
    }
  }

  /** A redirect counts as one hop, and is followed exactly to allowed hosts. */
  lemma RedirectStep(url: Bytes, r: Reply, more: seq<Reply>, hops: nat)
    requires r.Answer? && 300 <= r.status < 400 && hops > 0
    ensures Follow(url, [r] + more, hops)
         == if r.location.None? then Err(Status(r.status))
            else if GoesToAllowed(Absolutise(url, r.location.value)) then Follow(Absolutise(url, r.location.value), more, hops - 1)
            else Err(DisallowedRedirect)
    ensures Follow(url, [r] + more, 0) == Err(HttpFailure)
  {
    hide HostOf, Allowed, HostIsAllowed, Absolutise;
    assert ([r] + more)[1..] == more;
    if r.location.Some? {
      var next := Absolutise(url, r.location.value);
      if HostOf(next).Some? {
        HostIsAllowedIff(HostOf(next).value);
      }
    }
  }

  /** Where the shown total comes from: the range, else the length behind what is there, else the descriptor. */
  lemma TotalComesFrom(r: Reply, resume: nat, expected: nat, n: nat, range: Bytes)
    requires r.Answer? && n <= U64_MAX && '/' !in range
    ensures r.contentRange == Some(range + "/" + PrintNat(n, 10)) ==> TotalSize(r, resume, expected) == Ok(n)
    ensures r.contentRange == None && r.contentLength == Some(PrintNat(n, 10))
            ==> TotalSize(r, resume, expected) == Ok(if r.status == 206 then resume + n else n)
    ensures r.contentRange == None && r.contentLength == None
            ==> TotalSize(r, resume, expected) == if expected == 0 then Err(MissingLength) else Ok(expected)
  {
    hide PrintNat, ParseNat, Trim, Value;
    var digits := PrintNat(n, 10);
    ParsePrinted(n, 10, U64_MAX);
    PrintedIsPlain(n, 10);
    PrintNatDigits(n, 10);
    assert DigitValue('/').None?;
    var text := range + "/" + digits;
    assert text[|range|] == '/' && forall i :: |range| < i < |text| ==> text[i] == digits[i - |range| - 1] && text[i] in digits;
    assert LastSlash(text) == |range|;
    assert text[|range| + 1..] == digits;
  }

  /** The number of pieces a body arrives in. */
  function Pieces(body: seq<ReadEvent>): nat {
    if body == [] || body[0].Broken? || body[0].bytes == "" then 0 else 1 + Pieces(body[1..])
  }

  lemma {:induction false} CopyReportsEvery16(c: Copy, name: string, body: seq<ReadEvent>, total: nat)
    requires name in c.files && c.since < 16
    ensures var (c', r) := CopyBody(c, name, body, total);
            r.Ok? ==> |c'.progress| == |c.progress| + (c.since + Pieces(body)) / 16 + 1
    decreases body
  {
    hide WriteFails, Saturated, Append, Later;
    if body != [] && body[0].Data? && body[0].bytes != "" && !WriteFails(c.faults) {
      var next := CopyChunk(c, name, body[0].bytes, total);
      CopyReportsEvery16(next, name, body[1..], total);
      SixteenMore(c.since, Pieces(body[1..]));
    }
  }

  lemma SixteenMore(since: nat, more: nat)
    requires since < 16
    ensures (since + (1 + more)) / 16 == if since == 15 then 1 + more / 16 else (since + 1 + more) / 16
  { }

  /** A completed transfer reports at its start, after every sixteenth piece, and at its end. */
  lemma ReportsEverySixteen(files: Files, name: string, r: Reply, expected: nat, faults: DiskFaults)
    requires r.Answer? && Store(files, name, r, expected, faults).result.Ok?
    ensures |Store(files, name, r, expected, faults).progress| == 2 + Pieces(r.body) / 16
  {
    hide CopyBody, TotalSize;
    var resume := Resume(files, name);
    var total := TotalSize(r, resume, expected).value;
    if r.status == 206 {
      CopyReportsEvery16(Copy(files, [], [(resume, total)], resume, 0, faults), name, r.body, total);
    } else {
      var emptied := files[name := ""];
      CopyReportsEvery16(Copy(emptied, [emptied], [(0, total)], 0, 0, faults), name, r.body, total);
    }
  }

  /** The callbacks of an attempt, whatever happens, by how it ends. */
  predicate Tells(states: seq<DownloadState>, result: Result<string, ManagerError>) {
    match result
    case Ok(_) => states in {[Completed], [Verifying, Completed], [Downloading, Verifying, Completed]}
    case Err(Download(_)) => states == [Downloading, Failed("download")]
    case Err(ChecksumMismatch) => states == [Downloading, Verifying, Failed("verify")]
    case Err(IoError) =>
      states in {[], [Verifying, Failed("rename")], [Downloading, Verifying, Failed("verify")], [Downloading, Verifying, Failed("rename")]}
    case Err(_) => states == []
  }

  lemma StatesTell(files: Files, ds: seq<ModelDescriptor>, tier: ModelTier, hash: Bytes -> Bytes, replies: seq<Reply>, faults: Faults)
    ensures var a := DownloadModel(files, ds, tier, hash, replies, faults); Tells(a.states, a.result)
  {
    hide Tells, FromPartial;
    TellsEarly();
    if FindDescriptor(ds, tier).Some? && FindDescriptor(ds, tier).value.downloadUrl.Some? {
      var d := FindDescriptor(ds, tier).value;
      PartialTells(files, d, d.downloadUrl.value, hash, replies, faults);
      PartialTells(files - {tier.Filename()}, d, d.downloadUrl.value, hash, replies, faults);
    }
  }

  lemma TellsEarly()
    ensures Tells([], Err(MissingDescriptor)) && Tells([], Err(NoDownloadUrl)) && Tells([], Err(IoError))
    ensures forall final :: Tells([Completed], Ok(final))
  { }

  lemma PartialTells(files: Files, d: ModelDescriptor, url: Bytes, hash: Bytes -> Bytes, replies: seq<Reply>, faults: Faults)
    ensures var a := FromPartial(files, d, url, hash, replies, faults); Tells(a.states, a.result)
  {
    hide DownloadToFile;
    var t := DownloadToFile(files, d.Partial(), url, d.sizeBytes, replies, faults.disk);
    if t.result.Ok? {
      var v := VerifyAndRename(t.files, d, hash, faults);
      assert [Downloading] + [Verifying, Completed] == [Downloading, Verifying, Completed];
      assert [Downloading] + [Verifying, Failed("verify")] == [Downloading, Verifying, Failed("verify")];
      assert [Downloading] + [Verifying, Failed("rename")] == [Downloading, Verifying, Failed("rename")];
    }
  }

  // ----- Recovery -----

  /** A complete and correct answer to a request that resumes at `resume`. */
  predicate HonestAnswer(content: Bytes, resume: nat, expected: nat, r: Reply) {
    && r.Answer?
    && (r.status == 200 || (resume > 0 && r.status == if resume < |content| then 206 else 416))
    && (r.status == 200 ==> Unbroken(r.body) && Delivered(r.body) == content)
    && (r.status == 206 ==> Unbroken(r.body) && Delivered(r.body) == content[resume..])
    && (r.status != 416 ==> r.contentRange.Some? || r.contentLength.Some? || expected > 0)
  }

  /** At most `hops - 1` redirects to allowed hosts, then an honest answer. */
  predicate HonestServer(url: Bytes, replies: seq<Reply>, hops: nat, content: Bytes, resume: nat, expected: nat)
    decreases hops
  {
    && hops > 0 && replies != [] && replies[0].Answer?
    && if 300 <= replies[0].status < 400 then
         && replies[0].location.Some?
         && var next := Absolutise(url, replies[0].location.value);
            ValidateRedirect(next) && HonestServer(next, replies[1..], hops - 1, content, resume, expected)
       else HonestAnswer(content, resume, expected, replies[0])
  }

  lemma {:induction false} HonestFollow(url: Bytes, replies: seq<Reply>, hops: nat, content: Bytes, resume: nat, expected: nat)
    requires HonestServer(url, replies, hops, content, resume, expected)
    ensures Follow(url, replies, hops).Ok? && HonestAnswer(content, resume, expected, Follow(url, replies, hops).value)
    decreases hops
  {
    hide ValidateRedirect, Absolutise, HonestAnswer;
    if 300 <= replies[0].status < 400 {
      HonestFollow(Absolutise(url, replies[0].location.value), replies[1..], hops - 1, content, resume, expected);
    }
  }

  lemma {:induction false} CopyCompletes(c: Copy, name: string, body: seq<ReadEvent>, total: nat)
    requires name in c.files && c.faults == GoodDisk && Unbroken(body)
    ensures var (c', r) := CopyBody(c, name, body, total);
            r.Ok? && c'.files == c.files[name := c.files[name] + Delivered(body)]
    decreases body
  {
    if body == [] || body[0] == Data("") {
      assert c.files[name] + "" == c.files[name];
      assert c.files[name := c.files[name]] == c.files;
    } else {
      var c1 := CopyChunk(c, name, body[0].bytes, total);
      CopyCompletes(c1, name, body[1..], total);
      assert c1.files[name] + Delivered(body[1..]) == c.files[name] + Delivered(body);
      assert c1.files[name := c1.files[name] + Delivered(body[1..])] == c.files[name := c.files[name] + Delivered(body)];
    }
  }

  /** What a complete transfer leaves in the partial file, if it leaves one. */
  function Fetched(files: Files, name: string, content: Bytes, r: Reply): Option<Bytes>
    requires r.Answer?
  {
    if r.status == 200 then Some(content)
    else if r.status == 206 && name in files && |files[name]| <= |content| then Some(files[name] + content[|files[name]|..])
    else None
  }

  lemma TransferCompletes(files: Files, name: string, url: Bytes, expected: nat, replies: seq<Reply>, content: Bytes)
    requires ValidateRedirect(url) && HonestServer(url, replies, 5, content, Resume(files, name), expected)
    ensures Follow(url, replies, 5).Ok? && Follow(url, replies, 5).value.Answer?
    ensures var t := DownloadToFile(files, name, url, expected, replies, GoodDisk);
            match Fetched(files, name, content, Follow(url, replies, 5).value)
            case Some(bytes) => t.result.Ok? && t.files == files[name := bytes]
            case None => t.result.Err? && t.files == files - {name}
  {
    hide ValidateRedirect, Follow, CopyBody, HonestServer, Delivered, Unbroken, TotalSize;
    HonestFollow(url, replies, 5, content, Resume(files, name), expected);
    var r := Follow(url, replies, 5).value;
    var resume := Resume(files, name);
    if r.status != 416 {
      HonestTotal(r, resume, expected, content);
      var total := TotalSize(r, resume, expected).value;
      if r.status == 206 {
        CopyCompletes(Copy(files, [], [(resume, total)], resume, 0, GoodDisk), name, r.body, total);
      } else {
        var emptied := files[name := ""];
        CopyCompletes(Copy(emptied, [emptied], [(0, total)], 0, 0, GoodDisk), name, r.body, total);
        assert "" + content == content;
        assert emptied[name := content] == files[name := content];
      }
    }
  }

  lemma HonestTotal(r: Reply, resume: nat, expected: nat, content: Bytes)
    requires HonestAnswer(content, resume, expected, r) && r.status != 416
    ensures TotalSize(r, resume, expected).Ok?
  {
    hide Delivered, Unbroken, ParseNat, Trim, AfterLastSlash;
  }

  /** The hash identifies the content among all byte strings. */
  ghost predicate Identifies(hash: Bytes -> Bytes, d: ModelDescriptor, content: Bytes) {
    forall bytes :: hash(bytes) == d.hash <==> bytes == content
  }

  /** Exactly when one uninterrupted attempt against an honest server is enough. */
  predicate OneTryIsEnough(files: Files, d: ModelDescriptor, url: Bytes, replies: seq<Reply>, content: Bytes) {
    var partial, final := d.Partial(), d.tier.Filename();
    || (final in files && files[final] == content)
    || (partial in files && files[partial] == content)
    || (Follow(url, replies, 5).Ok? && Follow(url, replies, 5).value.Answer?
        && (|| Follow(url, replies, 5).value.status == 200
            || (Follow(url, replies, 5).value.status == 206 && partial in files && files[partial] <= content)))
  }

  lemma PartialRecovers(files: Files, d: ModelDescriptor, url: Bytes, hash: Bytes -> Bytes, replies: seq<Reply>, content: Bytes)
    requires Identifies(hash, d, content) && ValidateRedirect(url) && d.tier.Filename() !in files
    requires HonestServer(url, replies, 5, content, Resume(files, d.Partial()), d.sizeBytes)
    ensures var a := FromPartial(files, d, url, hash, replies, NoFaults);
            var final := d.tier.Filename();
            && (a.result.Ok? <==> OneTryIsEnough(files, d, url, replies, content))
            && (a.result.Ok? ==> final in a.files && a.files[final] == content)
            && (a.result.Err? ==> final !in a.files && d.Partial() !in a.files)
  {
    hide ValidateRedirect, Follow, DownloadToFile, HonestServer;
    NamesDiffer(d, d.tier);
    TransferCompletes(files, d.Partial(), url, d.sizeBytes, replies, content);
    var r := Follow(url, replies, 5).value;
    if d.Partial() in files && r.status == 206 {
      ResumedIsContent(files[d.Partial()], content);
    }
  }

  /** Appending the rest of the content gives the content exactly to its prefixes. */
  lemma ResumedIsContent(have: Bytes, content: Bytes)
    ensures |have| <= |content| ==> (have + content[|have|..] == content <==> have <= content)
  {
    if |have| <= |content| {
      assert content == content[..|have|] + content[|have|..];
      assert (have + content[|have|..])[..|have|] == have;
    }
  }

  /** The first attempt installs the content or leaves neither file behind. */
  lemma FirstTry(files: Files, ds: seq<ModelDescriptor>, tier: ModelTier, hash: Bytes -> Bytes, replies: seq<Reply>, content: Bytes)
    requires FindDescriptor(ds, tier).Some? && FindDescriptor(ds, tier).value.downloadUrl.Some?
    requires var d := FindDescriptor(ds, tier).value;
             && Identifies(hash, d, content) && ValidateRedirect(d.downloadUrl.value)
             && HonestServer(d.downloadUrl.value, replies, 5, content, Resume(files, d.Partial()), d.sizeBytes)
    ensures var d := FindDescriptor(ds, tier).value;
            var a := DownloadModel(files, ds, tier, hash, replies, NoFaults);
            var final := tier.Filename();
            && (a.result.Ok? <==> OneTryIsEnough(files, d, d.downloadUrl.value, replies, content))
            && (a.result.Ok? ==> final in a.files && a.files[final] == content)
            && (a.result.Err? ==> final !in a.files && d.Partial() !in a.files)
  {
    hide ValidateRedirect, Follow, FromPartial, HonestServer;
    FoundTier(ds, tier);
    var d := FindDescriptor(ds, tier).value;
    NamesDiffer(d, tier);
    var cleared := files - {tier.Filename()};
    assert Resume(cleared, d.Partial()) == Resume(files, d.Partial());
    PartialRecovers(cleared, d, d.downloadUrl.value, hash, replies, content);
    assert tier.Filename() !in files ==> cleared == files;
  }

  /**
   Recovery bound: from any contents of the two files, two uninterrupted attempts
   against an honest server end with the correct file in place.
   */
  lemma TwoTriesRecover(
      files: Files, ds: seq<ModelDescriptor>, tier: ModelTier, hash: Bytes -> Bytes, first: seq<Reply>, second: seq<Reply>, content: Bytes)
    requires FindDescriptor(ds, tier).Some? && FindDescriptor(ds, tier).value.downloadUrl.Some?
    requires var d := FindDescriptor(ds, tier).value;
             var files1 := DownloadModel(files, ds, tier, hash, first, NoFaults).files;
             && Identifies(hash, d, content) && ValidateRedirect(d.downloadUrl.value)
             && HonestServer(d.downloadUrl.value, first, 5, content, Resume(files, d.Partial()), d.sizeBytes)
             && HonestServer(d.downloadUrl.value, second, 5, content, Resume(files1, d.Partial()), d.sizeBytes)
    ensures var files1 := DownloadModel(files, ds, tier, hash, first, NoFaults).files;
            var a := DownloadModel(files1, ds, tier, hash, second, NoFaults);
            a.result == Ok(tier.Filename()) && tier.Filename() in a.files && a.files[tier.Filename()] == content
  {
    hide ValidateRedirect, Follow, DownloadModel, HonestServer;
    var d := FindDescriptor(ds, tier).value;
    var files1 := DownloadModel(files, ds, tier, hash, first, NoFaults).files;
    FoundTier(ds, tier);
    FirstTry(files, ds, tier, hash, first, content);
    FirstTry(files1, ds, tier, hash, second, content);
    HonestFollow(d.downloadUrl.value, second, 5, content, Resume(files1, d.Partial()), d.sizeBytes);
    OkIffCompleted(files1, ds, tier, hash, second, NoFaults);
  }

  // ----- Progress -----

  /** The reported byte counts never go back. */
  ghost predicate Climbs(progress: seq<(nat, nat)>) {
    forall i, j :: 0 <= i < j < |progress| ==> progress[i].0 <= progress[j].0
  }

  ghost predicate Reported(c: Copy) {
    Climbs(c.progress) && (forall i :: 0 <= i < |c.progress| ==> c.progress[i].0 <= c.done) && c.done <= U64_MAX
  }

  lemma ChunkReports(c: Copy, name: string, bytes: Bytes, total: nat)
    requires name in c.files && Reported(c)
    ensures Reported(CopyChunk(c, name, bytes, total))
    ensures Climbs(c.progress + [(c.done, total)])
    ensures CopyChunk(c, name, bytes, total).done == Saturated(c.done + |bytes|)
  { }

  lemma {:induction false} CopyClimbs(c: Copy, name: string, body: seq<ReadEvent>, total: nat)
    requires name in c.files && Reported(c)
    ensures var (c', r) := CopyBody(c, name, body, total);
            && Climbs(c'.progress)
            && (r.Ok? ==> c'.progress != [] && c'.progress[|c'.progress| - 1] == (Saturated(c.done + |Delivered(body)|), total))
    decreases body
  {
    hide Climbs, WriteFails, CopyChunk;
    ChunkReports(c, name, if body != [] && body[0].Data? then body[0].bytes else "", total);
    if body != [] && body[0].Data? && body[0].bytes != "" && !WriteFails(c.faults) {
      CopyClimbs(CopyChunk(c, name, body[0].bytes, total), name, body[1..], total);
    }
  }

  /** A completed transfer's reports climb and end with the bytes the file then holds. */
  lemma ProgressEndsAtSize(files: Files, name: string, r: Reply, expected: nat, faults: DiskFaults)
    requires r.Answer? && Resume(files, name) <= U64_MAX
    ensures var t := Store(files, name, r, expected, faults);
            var start := if r.status == 206 then Resume(files, name) else 0;
            && Climbs(t.progress)
            && (t.result.Ok? ==>
                 && t.progress != []
                 && t.progress[|t.progress| - 1]
                    == (Saturated(start + |Delivered(r.body)|), TotalSize(r, Resume(files, name), expected).value))
  {
    hide CopyBody, TotalSize, Delivered, Saturated;
    var resume := Resume(files, name);
    if TotalSize(r, resume, expected).Ok? {
      var total := TotalSize(r, resume, expected).value;
      if name in files {
        CopyClimbs(Copy(files, [], [(resume, total)], resume, 0, faults), name, r.body, total);
      }
      var emptied := files[name := ""];
      CopyClimbs(Copy(emptied, [emptied], [(0, total)], 0, 0, faults), name, r.body, total);
    }
  }
}
