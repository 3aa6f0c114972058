/**
 * The three installation steps of the Turbo C++ installer: download the
 * TURBOC3 archive into memory, extract it into
 * `<home>\Documents\TURBOC3_extract_dir`, and patch DOSBox's configuration so
 * that DOSBox mounts that directory and starts `tc.exe`.
 *
 * The network, the zip library and the file system are replaced by values:
 * the downloaded chunks, the list of archive entries, a set of directories
 * and a map from file path to file content.
 */
module InstallTurbo {
  import opened Lines
  import opened Sums

  newtype byte = b: int | 0 <= b < 256

  datatype Option<T> = None | Some(value: T)

  /** The exceptions the three steps can raise and do not catch. */
  datatype Failure =
    | MissingContentLength  // `int(None)`: the response has no content-length header
    | ZeroDivision          // a chunk arrives while the declared length is 0
    | MissingParentDir      // `os.mkdir` when `<home>\Documents` does not exist
    | CorruptArchive        // `zipfile.ZipFile` cannot read the downloaded bytes
    | NoConfigMatch         // `glob(...)[0]` on an empty list of matches
    | ConfigNotFound        // `open(path, "r+")` on a path that is not a file

  datatype Outcome<T> = Done(value: T) | Failed(error: Failure)

  /** A progress value kept as a fraction `done / total`, never divided out. */
  datatype Progress = Progress(done: int, total: int)

  /** One member of the archive as `infolist()` reports it. */
  datatype Entry = Entry(name: string, compressSize: nat)

  datatype ExtractOutcome =
    | AlreadyExists                     // the work directory was there: nothing is extracted
    | Extracted(events: seq<Progress>)  // one progress value per entry, in archive order
    | ExtractFailed(error: Failure)

  datatype PatchOutcome = AlreadyApplied | Applied | PatchFailed(error: Failure)

  // ---------------------------------------------------------------------
  // Paths

  /** `os.path.join(a, b)` on Windows for a relative `b` with no drive. */
  function PathJoin(a: string, b: string): string
  {
    if a == "" then b
    else if a[|a| - 1] == '\\' || a[|a| - 1] == '/' then a + b
    else a + "\\" + b
  }

  function DocumentsDir(home: string): string
  {
    PathJoin(home, "Documents")
  }

  /** The directory the archive is extracted into. */
  function WorkDir(home: string): string
  {
    PathJoin(DocumentsDir(home), "TURBOC3_extract_dir")
  }

  function DosboxDir(localAppData: string): string
  {
    PathJoin(localAppData, "DOSBox")
  }

  /** The sibling file the old configuration is copied to. */
  function Backup(conf: string): string
  {
    conf + ".bak"
  }

  // ---------------------------------------------------------------------
  // The DOSBox stanza

  /** The five lines the configuration must end with; the mount line is
      built by string formatting, not by path joining. */
  function StanzaLines(home: string): seq<string>
  {
    ["[autoexec]",
     "mount c " + home + "\\Documents\\TURBOC3_extract_dir",
     "c:",
     "cd TURBOC3\\BIN",
     "tc.exe"]
  }

  /** The text written into the configuration: the stanza, with no newline after `tc.exe`. */
  function NewConfig(home: string): string
  {
    "[autoexec]\n"
    + "mount c " + home + "\\Documents\\TURBOC3_extract_dir\n"
    + "c:\n"
    + "cd TURBOC3\\BIN\n"
    + "tc.exe"
  }

  /** The check that the program has already been run: the last five
      newline-separated lines of the content are the stanza. */
  predicate AlreadyPatched(content: string, home: string)
  {
    LastN(Split(content, '\n'), 5) == StanzaLines(home)
  }

  /** The content ends with the written stanza, either as the whole
      content or right after a newline. */
  predicate EndsWithStanza(content: string, home: string)
  {
    var s := NewConfig(home);
    |content| >= |s| && content[|content| - |s|..] == s &&
    (|content| == |s| || content[|content| - |s| - 1] == '\n')
  }

  /** What a file holds after `seek(0)` and `write(data)` in "r+" mode: the
      file is not truncated, so bytes past the end of `data` survive. */
  function Overwrite(content: string, data: string): (r: string)
    ensures |r| == if |content| <= |data| then |data| else |content|
    ensures forall i :: 0 <= i < |r| ==> r[i] == if i < |data| then data[i] else content[i]
  {
    if |content| <= |data| then data else data + content[|data|..]
  }

  /** The file system after `write_dosbox_conf` has opened `conf`. */
  function PatchFiles(files: map<string, string>, conf: string, home: string): (r: map<string, string>)
    requires conf in files
    ensures conf in r && Backup(conf) != conf
    ensures AlreadyPatched(files[conf], home) ==> r == files
    ensures !AlreadyPatched(files[conf], home) ==>
      && r.Keys == files.Keys + {Backup(conf)}
      && r[Backup(conf)] == files[conf]
      && r[conf] == Overwrite(files[conf], NewConfig(home))
      && forall p :: p in files && p != conf && p != Backup(conf) ==> r[p] == files[p]
  {
    var content := files[conf];
    if AlreadyPatched(content, home) then files
    else files[Backup(conf) := content][conf := Overwrite(content, NewConfig(home))]
  }

  /** The written text is the five stanza lines joined by newlines. */
  lemma NewConfigIsJoinedStanza(home: string)
    ensures NewConfig(home) == Join(StanzaLines(home), '\n')
  {
    var l := StanzaLines(home);
    assert Join(l[4..], '\n') == "tc.exe";
    assert Join(l[3..], '\n') == "cd TURBOC3\\BIN\ntc.exe";
    assert Join(l[2..], '\n') == "c:\ncd TURBOC3\\BIN\ntc.exe";
    assert Join(l[1..], '\n') == l[1] + "\n" + "c:\ncd TURBOC3\\BIN\ntc.exe";
  }

  /** A home path with a newline in it can never pass the check: the mount
      line would hold a newline, and no split piece does. */
  lemma NewlineInHomeNeverPatched(content: string, home: string)
    requires '\n' in home
    ensures !AlreadyPatched(content, home)
  {
    var k :| 0 <= k < |home| && home[k] == '\n';
    var mount := StanzaLines(home)[1];
    assert mount[8 + k] == '\n';
    var last := LastN(Split(content, '\n'), 5);
    if |last| == 5 {
      assert '\n' !in last[1];
      assert last[1] != mount;
    }
  }

  /** With a newline-free home path, the mount line has no newline either. */
  lemma MountLineNoNewline(home: string)
    requires '\n' !in home
    ensures '\n' !in StanzaLines(home)[1]
  {
    var mount := StanzaLines(home)[1];
    forall i | 0 <= i < |mount| ensures mount[i] != '\n' {
      if 8 <= i < 8 + |home| {
        assert mount[i] == home[i - 8];
      }
    }
  }

  /** With a newline-free home path, the written text splits back into
      exactly the stanza lines. */
  lemma {:induction false} NewConfigSplits(home: string)
    requires '\n' !in home
    ensures Split(NewConfig(home), '\n') == StanzaLines(home)
  {
    var l := StanzaLines(home);
    MountLineNoNewline(home);
    NewConfigIsJoinedStanza(home);
    JoinSplit(l, '\n');
  }

  /** Passing the check means the content ends with the written stanza
      (as the whole file or after a newline) and the home path has no newline. */
  lemma {:induction false} PatchedEndsWithStanza(content: string, home: string)
    requires AlreadyPatched(content, home)
    ensures '\n' !in home && EndsWithStanza(content, home)
  {
    var s := NewConfig(home);
    if '\n' in home {
      NewlineInHomeNeverPatched(content, home);
      return;
    }
    NewConfigIsJoinedStanza(home);
    var lines := Split(content, '\n');
    var a := lines[..|lines| - 5];
    assert lines == a + StanzaLines(home);
    SplitJoin(content, '\n');
    if |a| > 0 {
      JoinAppend(a, StanzaLines(home), '\n');
      assert content == Join(a, '\n') + "\n" + s;
      assert content[|content| - |s|..] == s;
    }
  }

  /** Conversely, content that ends with the written stanza passes the
      check when the home path has no newline. */
  lemma {:induction false} EndsWithStanzaPatched(content: string, home: string)
    requires '\n' !in home && EndsWithStanza(content, home)
    ensures AlreadyPatched(content, home)
  {
    var s := NewConfig(home);
    NewConfigSplits(home);
    if |content| == |s| {
      assert content == s;
    } else {
      var p := content[..|content| - |s| - 1];
      assert content == p + ['\n'] + s;
      SplitAround(p, '\n', s);
      var lines := Split(content, '\n');
      assert lines == Split(p, '\n') + StanzaLines(home);
      assert lines[|lines| - 5..] == StanzaLines(home);
    }
  }

  /** Content no longer than the stanza becomes exactly the stanza, which
      then passes the check: a second patch changes nothing. */
  lemma ShortContentPatched(content: string, home: string)
    requires '\n' !in home
    requires |content| <= |NewConfig(home)|
    ensures Overwrite(content, NewConfig(home)) == NewConfig(home)
    ensures AlreadyPatched(Overwrite(content, NewConfig(home)), home)
  {
    NewConfigSplits(home);
  }

  /** The written stanza before its mount line. */
  const StanzaHead := "[autoexec]\n"

  /** The written stanza after its mount line. */
  const StanzaTail := "\nc:\ncd TURBOC3\\BIN\ntc.exe"

  /** In the stanza's last three lines, every newline is followed by a letter. */
  lemma StanzaTailNewlines(i: nat)
    requires i < |StanzaTail| && StanzaTail[i] == '\n'
    ensures i + 1 < |StanzaTail| && StanzaTail[i + 1] != '['
  {
    assert i == 0 || i == 3 || i == 18;
  }

  /** A newline in head + mount line + tail is followed by something other
      than `[`, given a mount line that starts with `m` and has no newline. */
  lemma NewlineFollowerInParts(m: string, j: nat)
    requires |m| > 0 && m[0] == 'm' && '\n' !in m
    requires j < |StanzaHead + m + StanzaTail| && (StanzaHead + m + StanzaTail)[j] == '\n'
    ensures j + 1 < |StanzaHead + m + StanzaTail| && (StanzaHead + m + StanzaTail)[j + 1] != '['
  {
    var a, z := StanzaHead, StanzaTail;
    var s := a + m + z;
    if j < |a| {
      assert j == 10 by {
        assert a[j] == '\n';
      }
      assert s[j + 1] == m[0];
    } else if j >= |a| + |m| {
      var i := j - |a| - |m|;
      assert s[j] == z[i];
      StanzaTailNewlines(i);
      assert s[j + 1] == z[i + 1];
    }
  }

  /** Inside the written stanza, a newline is never its last character and
      is never followed by `[`: the text after each newline starts with
      `m`, `c`, `c` or `t`. */
  lemma StanzaNewlineFollower(home: string, j: nat)
    requires '\n' !in home
    requires j < |NewConfig(home)| && NewConfig(home)[j] == '\n'
    ensures j + 1 < |NewConfig(home)| && NewConfig(home)[j + 1] != '['
  {
    var m := StanzaLines(home)[1];
    MountLineNoNewline(home);
    assert NewConfig(home) == StanzaHead + m + StanzaTail;
    NewlineFollowerInParts(m, j);
  }

  /** Past the written data, the overwritten content is the old content. */
  lemma OverwriteKeepsEnd(content: string, data: string, k: nat)
    requires |data| <= k <= |content|
    ensures Overwrite(content, data)[k..] == content[k..]
  {
  }

  /** Content longer than the stanza keeps its tail after the stanza. If
      the content did not pass the check, the patched content does not pass
      it either, so every later run rewrites the file again. */
  lemma {:induction false} LongContentNeverPatched(content: string, home: string)
    requires |content| > |NewConfig(home)|
    requires !AlreadyPatched(content, home)
    ensures !AlreadyPatched(Overwrite(content, NewConfig(home)), home)
  {
    var s := NewConfig(home);
    var r := Overwrite(content, s);
    if AlreadyPatched(r, home) {
      PatchedEndsWithStanza(r, home);
      var m := |r| - |s| - 1;
      assert r[m + 1..] == s;
      assert r[m] == '\n' && r[m + 1] == '[';
      if m >= |s| {
        OverwriteKeepsEnd(content, s, m);
        assert content[m..] == r[m..];
        assert content[m] == '\n' && content[m + 1..] == s;
        EndsWithStanzaPatched(content, home);
      } else {
        assert r[m] == s[m];
        assert m + 1 < |s| ==> r[m + 1] == s[m + 1];
        StanzaNewlineFollower(home, m);
      }
    }
  }

  /** Running the patch twice on content no longer than the stanza leaves
      the whole file system as one run left it. */
  lemma PatchTwiceShort(files: map<string, string>, conf: string, home: string)
    requires conf in files
    requires '\n' !in home
    requires |files[conf]| <= |NewConfig(home)|
    ensures PatchFiles(PatchFiles(files, conf, home), conf, home) == PatchFiles(files, conf, home)
  {
    var once := PatchFiles(files, conf, home);
    ShortContentPatched(files[conf], home);
    if AlreadyPatched(files[conf], home) {
      assert once == files;
    } else {
      assert once[conf] == NewConfig(home);
    }
  }

  /** Running the patch twice on content longer than the stanza that does
      not pass the check: the configuration does not change again, but the
      second run overwrites the backup with the patched content, so the
      original content is lost whenever it did not start with the stanza. */
  lemma PatchTwiceLong(files: map<string, string>, conf: string, home: string)
    requires conf in files
    requires !AlreadyPatched(files[conf], home)
    requires |files[conf]| > |NewConfig(home)|
    ensures var once := PatchFiles(files, conf, home);
      var twice := PatchFiles(once, conf, home);
      && twice[conf] == once[conf]
      && twice[Backup(conf)] == once[conf]
      && (files[conf][..|NewConfig(home)|] != NewConfig(home) ==> twice[Backup(conf)] != files[conf])
  {
    var s := NewConfig(home);
    var once := PatchFiles(files, conf, home);
    LongContentNeverPatched(files[conf], home);
    assert once[conf] == s + files[conf][|s|..];
    assert once[conf][..|s|] == s;
    assert Overwrite(once[conf], s) == once[conf];
  }

  // ---------------------------------------------------------------------
  // Download and extraction progress

  function Len(chunk: seq<byte>): nat
  {
    |chunk|
  }

  function Size(e: Entry): nat
  {
    e.compressSize
  }

  /** All chunks, one after another. */
  function Concat(chunks: seq<seq<byte>>): (r: seq<byte>)
    ensures |r| == SumOf(chunks, Len)
    decreases |chunks|
  {
    if |chunks| == 0 then [] else Concat(chunks[..|chunks| - 1]) + chunks[|chunks| - 1]
  }

  /** The progress value set after each chunk: bytes received so far over the declared length. */
  function DownloadEvents(chunks: seq<seq<byte>>, totLen: int): seq<Progress>
  {
    seq(|chunks|, k requires 0 <= k < |chunks| => Progress(SumOf(chunks[..k + 1], Len), totLen))
  }

  /** The names of the archive entries in `infolist()` order. */
  function Names(archive: seq<Entry>): seq<string>
  {
    seq(|archive|, k requires 0 <= k < |archive| => archive[k].name)
  }

  /** The progress value set after each entry: compressed bytes so far over
      the length of the whole downloaded buffer. */
  function ExtractEvents(archive: seq<Entry>, totSize: int): seq<Progress>
  {
    seq(|archive|, k requires 0 <= k < |archive| => Progress(SumOf(archive[..k + 1], Size), totSize))
  }

  /** Download progress never goes down and always has the declared length as denominator. */
  lemma DownloadProgressMonotone(chunks: seq<seq<byte>>, totLen: int, i: nat, j: nat)
    requires i <= j < |chunks|
    ensures var ev := DownloadEvents(chunks, totLen);
      ev[i].done <= ev[j].done && ev[i].total == ev[j].total == totLen
  {
    SumOfPrefixMonotone(chunks, Len, i + 1, j + 1);
  }

  /** When the chunks add up to the declared length, every progress value
      lies between 0 and 1 and the last one is exactly 1. */
  lemma DownloadProgressComplete(chunks: seq<seq<byte>>, totLen: int)
    requires |chunks| > 0
    requires SumOf(chunks, Len) == totLen
    ensures var ev := DownloadEvents(chunks, totLen);
      && ev[|chunks| - 1].done == ev[|chunks| - 1].total
      && forall k :: 0 <= k < |chunks| ==> 0 <= ev[k].done <= ev[k].total
  {
    var ev := DownloadEvents(chunks, totLen);
    assert chunks[..|chunks|] == chunks;
    forall k | 0 <= k < |chunks| ensures 0 <= ev[k].done <= ev[k].total {
      SumOfPrefixMonotone(chunks, Len, k + 1, |chunks|);
    }
  }

  /** Extraction progress never goes down and always has the buffer length as denominator. */
  lemma ExtractProgressMonotone(archive: seq<Entry>, totSize: int, i: nat, j: nat)
    requires i <= j < |archive|
    ensures var ev := ExtractEvents(archive, totSize);
      ev[i].done <= ev[j].done && ev[i].total == ev[j].total == totSize
  {
    SumOfPrefixMonotone(archive, Size, i + 1, j + 1);
  }

  /** After the last entry the numerator is the total compressed size of
      the archive, and no earlier value exceeds it. */
  lemma ExtractProgressComplete(archive: seq<Entry>, totSize: int)
    requires |archive| > 0
    ensures var ev := ExtractEvents(archive, totSize);
      ev[|archive| - 1].done == SumOf(archive, Size) &&
      forall k :: 0 <= k < |archive| ==> 0 <= ev[k].done <= SumOf(archive, Size)
  {
    var ev := ExtractEvents(archive, totSize);
    assert archive[..|archive|] == archive;
    forall k | 0 <= k < |archive| ensures 0 <= ev[k].done <= SumOf(archive, Size) {
      SumOfPrefixMonotone(archive, Size, k + 1, |archive|);
    }
  }

  // ---------------------------------------------------------------------
  // The installer's state and its three steps

  class Installer {
    /** The downloaded archive; set to empty once, when the installer is built. */
    var turboFile: seq<byte>
    /** The directories that exist. */
    var dirs: set<string>
    /** The files that exist, with their text. */
    var files: map<string, string>
    /** The names of the archive entries written into the work directory, in order. */
    var extracted: seq<string>
    /** The paths written to, in the order of the writes. */
    var writes: seq<string>
    /** The messages added to the window. */
    var notices: seq<string>

    constructor (dirs0: set<string>, files0: map<string, string>)
      ensures turboFile == [] && dirs == dirs0 && files == files0
      ensures extracted == [] && writes == [] && notices == []
    {
      turboFile := [];
      dirs := dirs0;
      files := files0;
      extracted := [];
      writes := [];
      notices := [];
    }

    /** Streams the response body into `turboFile`. The buffer is appended
        to, never reset, so a second download follows the first. */
    method DownloadTurbo(contentLength: Option<int>, chunks: seq<seq<byte>>) returns (r: Outcome<seq<Progress>>)
      modifies this`turboFile
      ensures contentLength.None? ==> r == Failed(MissingContentLength) && turboFile == old(turboFile)
      ensures contentLength == Some(0) && |chunks| > 0 ==>
        r == Failed(ZeroDivision) && turboFile == old(turboFile)
      ensures contentLength.Some? && (contentLength.value != 0 || |chunks| == 0) ==>
        && r == Done(DownloadEvents(chunks, contentLength.value))
        && turboFile == old(turboFile) + Concat(chunks)
    {
      if contentLength.None? {
        return Failed(MissingContentLength);
      }
      var totLen := contentLength.value;
      var recvdLen := 0;
      var events: seq<Progress> := [];
      var i := 0;
      while i < |chunks|
        invariant 0 <= i <= |chunks|
        invariant totLen == 0 ==> i == 0
        invariant recvdLen == SumOf(chunks[..i], Len)
        invariant events == DownloadEvents(chunks, totLen)[..i]
        invariant turboFile == old(turboFile) + Concat(chunks[..i])
      {
        var data := chunks[i];
        recvdLen := recvdLen + |data|;
        if totLen == 0 {
          return Failed(ZeroDivision);
        }
        SumOfStep(chunks, Len, i);
        events := events + [Progress(recvdLen, totLen)];
        assert chunks[..i + 1][..i] == chunks[..i];
        turboFile := turboFile + data;
        i := i + 1;
      }
      assert chunks[..i] == chunks;
      assert DownloadEvents(chunks, totLen)[..i] == DownloadEvents(chunks, totLen);
      return Done(events);
    }

    /** Creates the work directory and extracts every entry into it, or
        does nothing at all when the directory already exists. */
    method ExtractTurbo(home: string, archive: Option<seq<Entry>>) returns (r: ExtractOutcome)
      modifies this`dirs, this`extracted
      ensures WorkDir(home) in old(dirs) ==>
        r == AlreadyExists && dirs == old(dirs) && extracted == old(extracted)
      ensures WorkDir(home) !in old(dirs) && DocumentsDir(home) !in old(dirs) ==>
        r == ExtractFailed(MissingParentDir) && dirs == old(dirs) && extracted == old(extracted)
      ensures WorkDir(home) !in old(dirs) && DocumentsDir(home) in old(dirs) ==>
        && dirs == old(dirs) + {WorkDir(home)}
        && (archive.None? ==> r == ExtractFailed(CorruptArchive) && extracted == old(extracted))
        && (archive.Some? ==>
              && r == Extracted(ExtractEvents(archive.value, |turboFile|))
              && extracted == old(extracted) + Names(archive.value))
    {
      var workdir := WorkDir(home);
      if workdir in dirs {
        return AlreadyExists;
      }
      if DocumentsDir(home) !in dirs {
        return ExtractFailed(MissingParentDir);
      }
      dirs := dirs + {workdir};
      if archive.None? {
        return ExtractFailed(CorruptArchive);
      }
      var entries := archive.value;
      var extractedSize := 0;
      var totSize := |turboFile|;
      var events: seq<Progress> := [];
      var i := 0;
      while i < |entries|
        invariant 0 <= i <= |entries|
        invariant dirs == old(dirs) + {workdir}
        invariant extractedSize == SumOf(entries[..i], Size)
        invariant events == ExtractEvents(entries, totSize)[..i]
        invariant extracted == old(extracted) + Names(entries)[..i]
      {
        var info := entries[i];
        extracted := extracted + [info.name];
        extractedSize := extractedSize + info.compressSize;
        SumOfStep(entries, Size, i);
        events := events + [Progress(extractedSize, totSize)];
        i := i + 1;
      }
      assert Names(entries)[..i] == Names(entries);
      assert ExtractEvents(entries, totSize)[..i] == ExtractEvents(entries, totSize);
      return Extracted(events);
    }

    /** Backs up the DOSBox configuration and writes the stanza over its
        start, unless its last five lines already are the stanza. */
    method WriteDosboxConf(home: string, localAppData: string, matches: seq<string>) returns (r: PatchOutcome)
      modifies this`files, this`writes, this`notices
      ensures notices == old(notices) +
        (if DosboxDir(localAppData) in dirs then [] else ["Please install dosbox, then try again..."])
      ensures |matches| == 0 ==>
        r == PatchFailed(NoConfigMatch) && files == old(files) && writes == old(writes)
      ensures |matches| > 0 && matches[0] !in old(files) ==>
        r == PatchFailed(ConfigNotFound) && files == old(files) && writes == old(writes)
      ensures |matches| > 0 && matches[0] in old(files) ==>
        var conf := matches[0];
        && files == PatchFiles(old(files), conf, home)
        && (AlreadyPatched(old(files)[conf], home) ==> r == AlreadyApplied && writes == old(writes))
        && (!AlreadyPatched(old(files)[conf], home) ==>
              r == Applied && writes == old(writes) + [Backup(conf), conf])
    {
      if DosboxDir(localAppData) !in dirs {
        notices := notices + ["Please install dosbox, then try again..."];
      }
      if |matches| == 0 {
        return PatchFailed(NoConfigMatch);
      }
      var conf := matches[0];
      if conf !in files {
        return PatchFailed(ConfigNotFound);
      }
      var oldConf := files[conf];
      if AlreadyPatched(oldConf, home) {
        return AlreadyApplied;
      }
      files := files[Backup(conf) := oldConf];
      writes := writes + [Backup(conf)];
      files := files[conf := Overwrite(files[conf], NewConfig(home))];
      writes := writes + [conf];
      return Applied;
    }
  }
}
