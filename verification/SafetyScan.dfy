/**
 The validator's scanners over payload strings, taken as bytes, and the walk over
 every string of a JSON payload.
 */
module SafetyScan {
  import opened Basics
  import opened Numerals
  import opened Urls

  datatype Json =
    | Null
    | Bool(b: bool)
    | Num(n: real)
    | Str(s: Bytes)
    | Arr(items: seq<Json>)
    | Obj(fields: map<Bytes, Json>)

  // ----- Character classes -----

  predicate IsAlpha(c: char) {
    'a' <= c <= 'z' || 'A' <= c <= 'Z'
  }

  predicate IsAlnum(c: char) {
    IsAlpha(c) || '0' <= c <= '9'
  }

  predicate IsSchemeChar(c: char) {
    IsAlnum(c) || c == '+' || c == '-' || c == '.'
  }

  predicate IsHostChar(c: char) {
    IsAlnum(c) || c == '.' || c == '-'
  }

  predicate IsShareChar(c: char) {
    IsHostChar(c) || c == '_'
  }

  predicate IsSeparator(c: char) {
    c == '/' || c == '\\'
  }

  // ----- What the scanners look for -----

  ghost predicate DelimiterAt(s: Bytes, i: nat) {
    i + 3 <= |s| && s[i..i + 3] == "://"
  }

  /** `j` starts the maximal run of scheme characters that ends before `i`. */
  ghost predicate RunStart(s: Bytes, j: nat, i: nat) {
    && j <= i <= |s|
    && (forall k :: j <= k < i ==> IsSchemeChar(s[k]))
    && (j == 0 || !IsSchemeChar(s[j - 1]))
  }

  /** A scheme from `j` to the delimiter at `i`. */
  ghost predicate SchemeAt(s: Bytes, j: nat, i: nat) {
    DelimiterAt(s, i) && RunStart(s, j, i) && j < i && IsAlpha(s[j])
  }

  predicate DrivePathAt(s: Bytes, i: nat) {
    && i + 2 < |s| && IsAlpha(s[i]) && s[i + 1] == ':' && IsSeparator(s[i + 2])
    && (i == 0 || !IsAlnum(s[i - 1]))
  }

  /** Two equal separators, a host up to `h`, a separator there, and a share behind it. */
  ghost predicate UncAt(s: Bytes, i: nat, h: nat) {
    && i + 2 < h < |s| - 1
    && IsSeparator(s[i]) && s[i + 1] == s[i]
    && (forall k :: i + 2 <= k < h ==> IsHostChar(s[k]))
    && IsSeparator(s[h]) && IsShareChar(s[h + 1])
  }

  // ----- The scanners -----

  lemma RunStartUnique(s: Bytes, j: nat, k: nat, i: nat)
    requires RunStart(s, j, i) && RunStart(s, k, i)
    ensures j == k
  {
  }

  method RunBefore(s: Bytes, i: nat) returns (j: nat)
    requires i <= |s|
    ensures RunStart(s, j, i)
  {
    hide IsSchemeChar;
    j := i;
    while j > 0 && IsSchemeChar(s[j - 1])
      invariant j <= i
      invariant forall k :: j <= k < i ==> IsSchemeChar(s[k])
    {
      j := j - 1;
    }
  }

  /** The start of the scheme at the first delimiter that has one. */
  method FindUrlScheme(s: Bytes) returns (r: Option<nat>)
    ensures r.Some? ==> exists i: nat :: SchemeAt(s, r.value, i) && forall k: nat, m: nat :: k < i ==> !SchemeAt(s, m, k)
    ensures r.None? ==> forall i: nat, j: nat :: !SchemeAt(s, j, i)
  {
    hide IsSchemeChar, IsAlpha;
    var i := 0;
    while i + 3 <= |s|
      invariant forall k: nat, m: nat :: k < i ==> !SchemeAt(s, m, k)
    {
      if s[i..i + 3] == "://" {
        var j := RunBefore(s, i);
        if j < i && IsAlpha(s[j]) {
          assert SchemeAt(s, j, i);
          return Some(j);
        }
        forall m: nat ensures !SchemeAt(s, m, i) {
          if RunStart(s, m, i) {
            RunStartUnique(s, j, m, i);
          }
        }
      }
      i := i + 1;
    }
    r := None;
  }

  method FindWindowsDrivePath(s: Bytes) returns (r: Option<nat>)
    ensures r.Some? ==> DrivePathAt(s, r.value) && forall k: nat :: k < r.value ==> !DrivePathAt(s, k)
    ensures r.None? ==> forall k: nat :: !DrivePathAt(s, k)
  {
    hide IsAlnum;
    var i := 0;
    while i + 2 < |s|
      invariant forall k: nat :: k < i ==> !DrivePathAt(s, k)
    {
      if IsAlpha(s[i]) && s[i + 1] == ':' && (s[i + 2] == '\\' || s[i + 2] == '/') {
        var precededByLetter := i > 0 && IsAlnum(s[i - 1]);
        if !precededByLetter {
          return Some(i);
        }
      }
      i := i + 1;
    }
    r := None;
  }

  lemma HostEndUnique(s: Bytes, i: nat, h: nat, j: nat)
    requires j <= |s| && i + 2 <= j && forall k :: i + 2 <= k < j ==> IsHostChar(s[k])
    requires j == |s| || !IsHostChar(s[j])
    requires UncAt(s, i, h)
    ensures h == j
  {
  }

  /** The end of the host run that starts at `start`. */
  method HostEnd(s: Bytes, start: nat) returns (j: nat)
    requires start <= |s|
    ensures start <= j <= |s| && forall k :: start <= k < j ==> IsHostChar(s[k])
    ensures j == |s| || !IsHostChar(s[j])
  {
    hide IsHostChar;
    j := start;
    while j < |s| && IsHostChar(s[j])
      invariant start <= j <= |s|
      invariant forall k :: start <= k < j ==> IsHostChar(s[k])
    {
      j := j + 1;
    }
  }

  method FindUncPath(s: Bytes) returns (r: Option<nat>)
    ensures r.Some? ==> (exists h: nat :: UncAt(s, r.value, h)) && forall k: nat, h: nat :: k < r.value ==> !UncAt(s, k, h)
    ensures r.None? ==> forall k: nat, h: nat :: !UncAt(s, k, h)
  {
    if |s| < 5 {
      return None;
    }
    var i := 0;
    while i + 1 < |s|
      invariant forall k: nat, h: nat :: k < i ==> !UncAt(s, k, h)
    {
      if s[i] == s[i + 1] && IsSeparator(s[i]) {
        if !(i + 2 < |s| && IsSeparator(s[i + 2])) {
          var j := HostEnd(s, i + 2);
          if j > i + 2 && j < |s| && IsSeparator(s[j]) {
            var shareEnd := j + 1;
            while shareEnd < |s| && IsShareChar(s[shareEnd])
              invariant j + 1 <= shareEnd <= |s|
              invariant shareEnd > j + 1 ==> IsShareChar(s[j + 1])
            {
              shareEnd := shareEnd + 1;
            }
            if shareEnd > j + 1 {
              assert UncAt(s, i, j);
              return Some(i);
            }
          }
          forall h: nat ensures !UncAt(s, i, h) {
            if UncAt(s, i, h) {
              HostEndUnique(s, i, h, j);
              assert false;
            }
          }
        }
      }
      i := i + 1;
    }
    r := None;
  }

  // ----- One string, every string -----

  const PosixPrefixes: seq<Bytes> := [
    "/etc/", "/var/", "/usr/", "/opt/", "/sys/", "/proc/", "/run/", "/root/", "/home/", "/users/", "/private/",
    "/mnt/", "/media/", "/tmp/"]

  predicate OccursAt(s: Bytes, pat: Bytes, i: nat) {
    i + |pat| <= |s| && s[i..i + |pat|] == pat
  }

  predicate Occurs(s: Bytes, pat: Bytes) {
    exists i: nat :: i <= |s| && OccursAt(s, pat, i)
  }

  ghost predicate HasScheme(s: Bytes) {
    exists i: nat, j: nat :: SchemeAt(s, j, i)
  }

  /** The first listed prefix that occurs, whatever its case. */
  ghost predicate FirstPrefix(s: Bytes, k: int) {
    0 <= k < |PosixPrefixes| && Occurs(LowerAll(s), PosixPrefixes[k])
    && forall m :: 0 <= m < k ==> !Occurs(LowerAll(s), PosixPrefixes[m])
  }

  ghost predicate HasPrefix(s: Bytes) {
    exists k :: 0 <= k < |PosixPrefixes| && Occurs(LowerAll(s), PosixPrefixes[k])
  }

  ghost predicate HasDrivePath(s: Bytes) {
    exists i: nat :: DrivePathAt(s, i)
  }

  ghost predicate HasUncPath(s: Bytes) {
    exists i: nat, h: nat :: UncAt(s, i, h)
  }

  /** One of the four patterns is in the string. */
  ghost predicate Flagged(s: Bytes) {
    HasScheme(s) || HasPrefix(s) || HasDrivePath(s) || HasUncPath(s)
  }

  /** A string without a colon and without slashes of either kind is never flagged. */
  lemma PlainIsUnflagged(s: Bytes)
    requires ':' !in s && '/' !in s && '\\' !in s
    ensures !Flagged(s)
  {
    forall i: nat, j: nat ensures !SchemeAt(s, j, i) {
      if SchemeAt(s, j, i) {
        DelimiterHasColon(s, i);
      }
    }
    forall k | 0 <= k < |PosixPrefixes| ensures !Occurs(LowerAll(s), PosixPrefixes[k]) {
      if Occurs(LowerAll(s), PosixPrefixes[k]) {
        PrefixHasSlash(s, PosixPrefixes[k]);
      }
    }
  }

  lemma DelimiterHasColon(s: Bytes, i: nat)
    requires DelimiterAt(s, i)
    ensures ':' in s
  {
    assert s[i..i + 3][0] == s[i];
  }

  lemma PrefixHasSlash(s: Bytes, pat: Bytes)
    requires pat != "" && pat[0] == '/' && Occurs(LowerAll(s), pat)
    ensures '/' in s
  {
    var lower := LowerAll(s);
    var i: nat :| i <= |s| && OccursAt(lower, pat, i);
    assert lower[i..i + |pat|][0] == lower[i] && lower[i] == Lower(s[i]) && s[i] in s;
  }

  /** A delimiter has a scheme exactly when the whole run of scheme characters before it starts with a letter. */
  lemma SchemeIffRunStartsWithLetter(s: Bytes, j: nat, i: nat)
    requires DelimiterAt(s, i) && RunStart(s, j, i)
    ensures (exists m: nat :: SchemeAt(s, m, i)) <==> j < i && IsAlpha(s[j])
  {
    if m: nat :| SchemeAt(s, m, i) {
      RunStartUnique(s, j, m, i);
    }
    assert j < i && IsAlpha(s[j]) ==> SchemeAt(s, j, i);
  }

  /** "d" is a scheme name by itself, but the run before the delimiter starts with a digit. */
  lemma DigitHidesScheme()
    ensures HasScheme("d://x") && OccursAt("2d://x", "d://x", 1) && !Flagged("2d://x")
  {
    var s := "2d://x";
    assert RunStart("d://x", 0, 1) && DelimiterAt("d://x", 1) && SchemeAt("d://x", 0, 1);
    forall i: nat, j: nat ensures !SchemeAt(s, j, i) {
      if SchemeAt(s, j, i) {
        OnlyDelimiter(i);
        assert RunStart(s, 0, 2);
        SchemeIffRunStartsWithLetter(s, 0, 2);
      }
    }
    forall k | 0 <= k < |PosixPrefixes| ensures !Occurs(LowerAll(s), PosixPrefixes[k]) {
      TooShortForPrefix(PosixPrefixes[k]);
    }
    forall i: nat, h: nat ensures !UncAt(s, i, h) { }
  }

  lemma OnlyDelimiter(i: nat)
    requires DelimiterAt("2d://x", i)
    ensures i == 2
  {
    var s := "2d://x";
    assert s[i] == s[i..i + 3][0] == ':';
  }

  lemma TooShortForPrefix(pat: Bytes)
    requires |pat| >= 5 && pat[0] == '/'
    ensures !Occurs(LowerAll("2d://x"), pat)
  {
    var lower := LowerAll("2d://x");
    assert lower[0] == '2' && lower[1] == 'd';
    forall i: nat ensures !OccursAt(lower, pat, i) {
      if i + |pat| <= |lower| {
        assert lower[i..i + |pat|][0] == lower[i];
      }
    }
  }

  /** Nothing in front of a UNC path hides it, not even one more separator. */
  lemma FrontKeepsUncPath(front: Bytes, s: Bytes)
    requires HasUncPath(s)
    ensures HasUncPath(front + s)
  {
    var i: nat, h: nat :| UncAt(s, i, h);
    ShiftedUncPath(front, s, i, h);
  }

  lemma ShiftedUncPath(front: Bytes, s: Bytes, i: nat, h: nat)
    requires UncAt(s, i, h)
    ensures UncAt(front + s, |front| + i, |front| + h)
  {
    hide IsHostChar, IsShareChar, IsSeparator;
    var t, n := front + s, |front|;
    assert t[n + i] == s[i] && t[n + i + 1] == s[i + 1] && t[n + h] == s[h] && t[n + h + 1] == s[h + 1];
    forall k | n + i + 2 <= k < n + h ensures IsHostChar(t[k]) {
      assert t[k] == s[k - n];
    }
  }

  datatype Reason = NetworkUrl | SensitivePath(prefix: Bytes) | DrivePath | UncPath

  /** The first reason found, in the order of the four checks. */
  method CheckString(s: Bytes) returns (r: Option<Reason>)
    ensures r.Some? <==> Flagged(s)
    ensures r == Some(NetworkUrl) <==> HasScheme(s)
    ensures r.Some? && r.value.SensitivePath? <==> HasPrefix(s) && !HasScheme(s)
    ensures r.Some? && r.value.SensitivePath? ==> exists k :: FirstPrefix(s, k) && r.value.prefix == PosixPrefixes[k]
    ensures r == Some(DrivePath) <==> HasDrivePath(s) && !HasPrefix(s) && !HasScheme(s)
    ensures r == Some(UncPath) <==> HasUncPath(s) && !HasDrivePath(s) && !HasPrefix(s) && !HasScheme(s)
  {
    hide SchemeAt, UncAt, DrivePathAt, Occurs;
    var scheme := FindUrlScheme(s);
    if scheme.Some? {
      return Some(NetworkUrl);
    }
    var lower := LowerAll(s);
    var k := 0;
    while k < |PosixPrefixes|
      invariant 0 <= k <= |PosixPrefixes|
      invariant forall m :: 0 <= m < k ==> !Occurs(lower, PosixPrefixes[m])
    {
      if Occurs(lower, PosixPrefixes[k]) {
        assert FirstPrefix(s, k);
        return Some(SensitivePath(PosixPrefixes[k]));
      }
      k := k + 1;
    }
    var drive := FindWindowsDrivePath(s);
    if drive.Some? {
      return Some(DrivePath);
    }
    var unc := FindUncPath(s);
    if unc.Some? {
      return Some(UncPath);
    }
    r := None;
  }

  /** The recursive walk: strings are judged, keys and other literals are not. */
  ghost predicate Passes(v: Json) {
    match v
    case Str(s) => !Flagged(s)
    case Arr(items) => forall i :: 0 <= i < |items| ==> Passes(items[i])
    case Obj(fields) => forall k :: k in fields ==> Passes(fields[k])
    case _ => true
  }

  datatype PathStep = Index(i: nat) | Key(k: Bytes)

  ghost function ValueAt(v: Json, path: seq<PathStep>): Option<Json>
    decreases path
  {
    if path == [] then Some(v)
    else
      match (v, path[0])
      case (Arr(items), Index(i)) => if i < |items| then ValueAt(items[i], path[1..]) else None
      case (Obj(fields), Key(k)) => if k in fields then ValueAt(fields[k], path[1..]) else None
      case _ => None
  }

  lemma {:induction false} PassesAt(v: Json, path: seq<PathStep>)
    requires Passes(v) && ValueAt(v, path).Some?
    ensures Passes(ValueAt(v, path).value)
    decreases path
  {
    hide Flagged;
    if path != [] {
      match (v, path[0])
      case (Arr(items), Index(i)) => PassesAt(items[i], path[1..]);
      case (Obj(fields), Key(k)) => PassesAt(fields[k], path[1..]);
    }
  }

  lemma {:induction false} FailsSomewhere(v: Json) returns (path: seq<PathStep>)
    requires !Passes(v)
    ensures ValueAt(v, path).Some? && ValueAt(v, path).value.Str? && Flagged(ValueAt(v, path).value.s)
  {
    hide Flagged;
    match v
    case Str(_) => path := [];
    case Arr(items) =>
      var i :| 0 <= i < |items| && !Passes(items[i]);
      var rest := FailsSomewhere(items[i]);
      path := [Index(i)] + rest;
      assert path[1..] == rest;
    case Obj(fields) =>
      var k :| k in fields && !Passes(fields[k]);
      var rest := FailsSomewhere(fields[k]);
      path := [Key(k)] + rest;
      assert path[1..] == rest;
  }

  /** The walk accepts exactly when every string value at any depth passes, whatever the keys are. */
  lemma PassesIffEveryString(v: Json)
    ensures Passes(v) <==> forall path :: ValueAt(v, path).Some? && ValueAt(v, path).value.Str? ==> !Flagged(ValueAt(v, path).value.s)
  {
    hide Flagged;
    if Passes(v) {
      forall path | ValueAt(v, path).Some? && ValueAt(v, path).value.Str? ensures !Flagged(ValueAt(v, path).value.s) {
        PassesAt(v, path);
      }
    } else {
      var path := FailsSomewhere(v);
    }
  }

  // ----- The four patterns written out -----


  predicate IsLetter(c: char) {
    c in Alphabet || c in Capitals
  }

  predicate IsDigit(c: char) {
    c in "0123456789"
  }

  lemma LetterIff(c: char)
    ensures IsAlpha(c) <==> IsLetter(c)
  {
    forall d: nat | d < 26 ensures Capitals[d] as int == 'A' as int + d && Alphabet[d] as int == 'a' as int + d {
      CapitalAt(d);
    }
    if 'a' <= c <= 'z' {
      assert Alphabet[c as int - 'a' as int] == c;
    }
    if 'A' <= c <= 'Z' {
      assert Capitals[c as int - 'A' as int] == c;
    }
    if c in Alphabet {
      var d :| 0 <= d < 26 && Alphabet[d] == c;
    }
    if c in Capitals {
      var d :| 0 <= d < 26 && Capitals[d] == c;
    }
  }

  lemma DigitIff(c: char)
    ensures '0' <= c <= '9' <==> IsDigit(c)
  {
    if '0' <= c <= '9' {
      assert "0123456789"[c as int - '0' as int] == c by {
        DigitAt(c as int - '0' as int);
        assert LowerDigits[..10] == "0123456789";
      }
    }
  }

  /** The character classes of the scanners. */
  lemma ClassesSay(c: char)
    ensures IsAlpha(c) <==> IsLetter(c)
    ensures IsAlnum(c) <==> IsLetter(c) || IsDigit(c)
    ensures IsSchemeChar(c) <==> IsLetter(c) || IsDigit(c) || c == '+' || c == '-' || c == '.'
    ensures IsHostChar(c) <==> IsLetter(c) || IsDigit(c) || c == '.' || c == '-'
    ensures IsShareChar(c) <==> IsLetter(c) || IsDigit(c) || c == '.' || c == '-' || c == '_'
    ensures IsSeparator(c) <==> c == '/' || c == '\\'
  {
    LetterIff(c);
    DigitIff(c);
  }

  ghost predicate UrlParts(s: Bytes, front: Bytes, name: Bytes, rest: Bytes) {
    && s == front + name + "://" + rest && name != "" && IsAlpha(name[0]) && (forall c :: c in name ==> IsSchemeChar(c))
    && (front == "" || !IsSchemeChar(front[|front| - 1]))
  }

  /** A scheme: a name that starts with a letter, with nothing that could belong to it in front, before "://". */
  lemma HasSchemeIff(s: Bytes)
    ensures HasScheme(s) <==> exists front, name, rest :: UrlParts(s, front, name, rest)
  {
    hide IsAlpha, IsSchemeChar;
    if i: nat, j: nat :| SchemeAt(s, j, i) {
      UrlSplits(s, j, i);
    }
    if front, name, rest :| UrlParts(s, front, name, rest) {
      UrlJoins(s, front, name, rest);
    }
  }

  lemma UrlSplits(s: Bytes, j: nat, i: nat)
    requires SchemeAt(s, j, i)
    ensures exists front, name, rest :: UrlParts(s, front, name, rest)
  {
    hide IsAlpha, IsSchemeChar;
    var front, name, rest := s[..j], s[j..i], s[i + 3..];
    assert s == front + name + s[i..i + 3] + rest;
    assert UrlParts(s, front, name, rest);
  }

  lemma UrlJoins(s: Bytes, front: Bytes, name: Bytes, rest: Bytes)
    requires UrlParts(s, front, name, rest)
    ensures HasScheme(s)
  {
    hide IsAlpha, IsSchemeChar;
    var j, i := |front|, |front| + |name|;
    assert s[i..i + 3] == "://";
    assert forall k :: j <= k < i ==> s[k] == name[k - j] && s[k] in name;
    assert SchemeAt(s, j, i);
  }

  ghost predicate DriveParts(s: Bytes, front: Bytes, drive: char, sep: char, rest: Bytes) {
    && s == front + [drive, ':', sep] + rest && IsAlpha(drive) && IsSeparator(sep)
    && (front == "" || !IsAlnum(front[|front| - 1]))
  }

  /** A drive path: a letter that ends no word, a colon, a separator. */
  lemma HasDrivePathIff(s: Bytes)
    ensures HasDrivePath(s) <==> exists front, drive, sep, rest :: DriveParts(s, front, drive, sep, rest)
  {
    hide IsAlpha, IsAlnum, IsSeparator;
    if i: nat :| DrivePathAt(s, i) {
      var front, rest := s[..i], s[i + 3..];
      assert s == front + [s[i], s[i + 1], s[i + 2]] + rest;
      assert DriveParts(s, front, s[i], s[i + 2], rest);
    }
    if front, drive, sep, rest :| DriveParts(s, front, drive, sep, rest) {
      assert DrivePathAt(s, |front|);
    }
  }

  ghost predicate UncParts(s: Bytes, front: Bytes, sep: char, host: Bytes, sep2: char, share: char, rest: Bytes) {
    && s == front + [sep, sep] + host + [sep2, share] + rest
    && IsSeparator(sep) && IsSeparator(sep2) && host != "" && (forall c :: c in host ==> IsHostChar(c)) && IsShareChar(share)
  }

  /** A UNC path: the same separator twice, a host, a separator, a share. */
  lemma HasUncPathIff(s: Bytes)
    ensures HasUncPath(s) <==> exists front, sep, host, sep2, share, rest :: UncParts(s, front, sep, host, sep2, share, rest)
  {
    if i: nat, h: nat :| UncAt(s, i, h) {
      UncSplits(s, i, h);
    }
    if front, sep, host, sep2, share, rest :| UncParts(s, front, sep, host, sep2, share, rest) {
      UncJoins(s, front, sep, host, sep2, share, rest);
    }
  }

  lemma UncSplits(s: Bytes, i: nat, h: nat)
    requires UncAt(s, i, h)
    ensures exists front, sep, host, sep2, share, rest :: UncParts(s, front, sep, host, sep2, share, rest)
  {
    hide IsSeparator, IsHostChar, IsShareChar;
    var front, host, rest := s[..i], s[i + 2..h], s[h + 2..];
    assert s == front + [s[i], s[i + 1]] + host + [s[h], s[h + 1]] + rest;
    assert UncParts(s, front, s[i], host, s[h], s[h + 1], rest);
  }

  lemma UncJoins(s: Bytes, front: Bytes, sep: char, host: Bytes, sep2: char, share: char, rest: Bytes)
    requires UncParts(s, front, sep, host, sep2, share, rest)
    ensures HasUncPath(s)
  {
    hide IsSeparator, IsHostChar, IsShareChar;
    var i, h := |front|, |front| + 2 + |host|;
    assert s[i] == sep && s[i + 1] == sep && s[h] == sep2 && s[h + 1] == share;
    assert forall k :: i + 2 <= k < h ==> s[k] == host[k - i - 2] && s[k] in host;
    assert UncAt(s, i, h);
  }

  predicate KnownDirectory(dir: Bytes) {
    dir in {"/etc/", "/var/", "/usr/", "/opt/", "/sys/", "/proc/", "/run/", "/root/", "/home/", "/users/", "/private/",
            "/mnt/", "/media/", "/tmp/"}
  }

  ghost predicate DirectoryParts(s: Bytes, front: Bytes, dir: Bytes, rest: Bytes) {
    LowerAll(s) == front + dir + rest && KnownDirectory(dir)
  }

  /** The directories the scan knows, in whatever case. */
  lemma HasPrefixIff(s: Bytes)
    ensures HasPrefix(s) <==> exists front, dir, rest :: DirectoryParts(s, front, dir, rest)
  {
    var lower := LowerAll(s);
    if k :| 0 <= k < |PosixPrefixes| && Occurs(lower, PosixPrefixes[k]) {
      ListedDirectory(PosixPrefixes[k]);
      OccursIff(lower, PosixPrefixes[k]);
      var front, rest :| lower == front + PosixPrefixes[k] + rest;
      assert DirectoryParts(s, front, PosixPrefixes[k], rest);
    }
    if front, dir, rest :| DirectoryParts(s, front, dir, rest) {
      OccursIff(lower, dir);
      ListedDirectory(dir);
      assert dir in PosixPrefixes;
    }
  }

  lemma OccursIff(s: Bytes, pat: Bytes)
    ensures Occurs(s, pat) <==> exists front, rest :: s == front + pat + rest
  {
    if i: nat :| i <= |s| && OccursAt(s, pat, i) {
      assert s == s[..i] + pat + s[i + |pat|..];
    }
    if front, rest :| s == front + pat + rest {
      assert OccursAt(s, pat, |front|);
    }
  }

  lemma ListedDirectory(dir: Bytes)
    ensures dir in PosixPrefixes <==> KnownDirectory(dir)
  {
    assert |PosixPrefixes| == 14;
    assert PosixPrefixes[0] == "/etc/" && PosixPrefixes[1] == "/var/" && PosixPrefixes[2] == "/usr/" && PosixPrefixes[3] == "/opt/";
    assert PosixPrefixes[4] == "/sys/" && PosixPrefixes[5] == "/proc/" && PosixPrefixes[6] == "/run/" && PosixPrefixes[7] == "/root/";
    assert PosixPrefixes[8] == "/home/" && PosixPrefixes[9] == "/users/" && PosixPrefixes[10] == "/private/";
    assert PosixPrefixes[11] == "/mnt/" && PosixPrefixes[12] == "/media/" && PosixPrefixes[13] == "/tmp/";
  }
}
