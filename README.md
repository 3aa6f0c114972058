# Turbo C++ installer: a Dafny model of its three installation steps

`install_turbo.py` installs Turbo C++ for DOSBox in three steps, run one after another:

1. **download**: stream `TURBOC3.zip` into the in-memory buffer `turbo_file`, and show received bytes over the declared content length;
2. **extract**: create `<home>\Documents\TURBOC3_extract_dir`. If it already exists, stop and do nothing. Otherwise extract every archive entry in `infolist()` order, and show the compressed bytes so far over the buffer length;
3. **patch DOSBox**: find the first `dosbox*.conf` under `%LOCALAPPDATA%\DOSBox`. If its last five lines are not already the auto-start stanza, copy it to `<conf>.bak` and write the stanza over it.

This model keeps the installer's state in the class `InstallTurbo.Installer`:

- `turboFile` holds the downloaded bytes.
- `dirs` is the set of existing directories.
- `files` maps each file path to its text.
- `extracted` lists the names of the entries written, in order.
- `writes` lists the paths written, in write order.
- `notices` holds the messages added to the window.

Each step is a method of that class. Its postcondition ties the new state to a specification function of the inputs and the old state (`Concat`, `DownloadEvents`, `Names`, `ExtractEvents`, `PatchFiles`), and the lemmas state the properties of those functions.

The configuration is opened in `"r+"` mode and rewritten with `seek(0)` and `write`. There is no `truncate`, so the model gives the new content as `Overwrite(old, stanza)`. That is the stanza followed by whatever of the old content lies past the stanza's length. This has consequences:

- With a newline-free home path, the patch is idempotent when the old content is no longer than the stanza (`ShortContentPatched`, `PatchTwiceShort`).
- When the old content is longer than the stanza and does not already pass the check, the patched content does not pass it either. A real `dosbox*.conf` is such a file. So the check fails on every later run, and each run rewrites `.bak` with the already-patched content (`LongContentNeverPatched`, `PatchTwiceLong`).

Helper modules:

- `Lines` models Python's `str.split`, `str.join` and the slice `xs[-5:]`. It includes the split/join round trips.
- `Sums` models running totals. The same totals serve the download byte counter and the extraction size counter.

Where a step can fail, the model returns a `Failure` value instead of a precondition. That covers:

- a missing content-length header;
- a chunk arriving while the declared length is 0;
- a missing `Documents` directory;
- an unreadable archive;
- an empty glob result;
- a configuration path that is not a file.

Some behaviour of the code is worth stating plainly:

- the configuration is not truncated before the stanza is written;
- a missing DOSBox directory only adds a notice and does not stop the step;
- the download chunk size `tot_len // 100` is not clamped;
- the first glob match is taken in whatever order `glob` returns.

## Model

| member | source | states |
|---|---|---|
| Lines.Split | install_turbo.py:198 | `split("\n")` always yields at least one piece, and no piece contains a newline |
| Lines.LastN | install_turbo.py:198 | `[-5:]` yields the last five lines, or every line when there are fewer, in their original positions |
| InstallTurbo.Overwrite | install_turbo.py:210-222 | writing the stanza at offset 0 without truncating gives length max(old, stanza); each position holds the stanza's character below the stanza's length and the old character past it |
| InstallTurbo.PatchFiles | install_turbo.py:196-222 | if the last five lines are the stanza, the file system is unchanged; otherwise `.bak` holds exactly the old content, the config holds `Overwrite(old, stanza)`, and every other file is unchanged |
| InstallTurbo.NewConfigIsJoinedStanza | install_turbo.py:201-221 | the text written (lines 215-221) is the five compared lines (lines 201-207) joined by newlines |
| InstallTurbo.NewConfigSplits | install_turbo.py:201-221 | with a newline-free home path, splitting the written text on newlines gives back exactly the five compared lines |
| InstallTurbo.NewlineInHomeNeverPatched | install_turbo.py:198-207 | if the home path contains a newline, no content ever passes the already-run check |
| InstallTurbo.PatchedEndsWithStanza | install_turbo.py:197-208 | passing the check implies that the home path has no newline and the content ends with the stanza, either as the whole file or right after a newline |
| InstallTurbo.EndsWithStanzaPatched | install_turbo.py:197-208 | conversely, content ending with the stanza (whole file or after a newline) passes the check when the home path has no newline |
| InstallTurbo.ShortContentPatched | install_turbo.py:198-222 | with a newline-free home path, content no longer than the stanza is patched into exactly the stanza, which then passes the check |
| InstallTurbo.StanzaNewlineFollower | install_turbo.py:215-221 | inside the written stanza, a newline is never the last character and is never followed by `[` |
| InstallTurbo.LongContentNeverPatched | install_turbo.py:198-222 | content longer than the stanza that fails the check is patched into content that fails it too, so every later run rewrites the file |
| InstallTurbo.PatchTwiceShort | install_turbo.py:196-222 | with a newline-free home path and content no longer than the stanza, patching twice leaves the file system exactly as patching once does |
| InstallTurbo.PatchTwiceLong | install_turbo.py:196-222 | for content longer than the stanza that fails the check, a second run leaves the config as it was but overwrites `.bak` with the patched content, losing the original whenever it did not start with the stanza |
| InstallTurbo.Concat | install_turbo.py:128 | the concatenated buffer's length is the sum of the chunk lengths |
| InstallTurbo.DownloadProgressMonotone | install_turbo.py:122-127 | the numerator (bytes received) never decreases from chunk to chunk, over one shared denominator, the declared content length; so received/total never decreases when that length is positive |
| InstallTurbo.DownloadProgressComplete | install_turbo.py:122-127 | when the chunks add up to the declared length, every progress value lies in [0, 1] and the last one equals 1 |
| InstallTurbo.ExtractProgressMonotone | install_turbo.py:156-176 | extracted size never decreases from entry to entry, and its denominator is always the buffer length |
| InstallTurbo.ExtractProgressComplete | install_turbo.py:156-176 | after the last entry the extracted size is the sum of all compressed sizes in `infolist()` order, and no earlier value exceeds it |
| InstallTurbo.Installer.constructor | install_turbo.py:64 | the download buffer starts empty; nothing has been extracted or written |
| InstallTurbo.Installer.DownloadTurbo | install_turbo.py:120-128 | a missing length header or a zero length with any chunk fails and leaves the buffer unchanged; otherwise the buffer becomes the old buffer followed by all chunks, and the progress values are the running totals over the declared length |
| InstallTurbo.Installer.ExtractTurbo | install_turbo.py:135-176 | an existing work directory means nothing changes; a missing `Documents` fails with nothing changed; otherwise the directory is created first, then every entry is extracted exactly once in archive order with progress = running compressed size over buffer length, or the step fails on an unreadable archive after the directory was created |
| InstallTurbo.Installer.WriteDosboxConf | install_turbo.py:189-222 | a missing DOSBox directory only adds a notice; no glob match or a missing file fails with no write; otherwise the file system becomes `PatchFiles(old, conf, home)`, and on a rewrite the backup is written before the config |

## Left out

- The Flet user interface: widgets, the progress bar, log lines (`do_log`, `reset_logs`, `update_async`), opacity and visibility. The notice about a missing DOSBox directory is kept as a string appended to `notices`.
- `start` (install_turbo.py:76-98): it only resets the UI and runs the three steps in order. An uncaught exception stops the later steps. It is not modelled, because apart from the UI it is just the three calls.
- `main.py`: it only sets up the window.
- Networking (`requests.get`, `iter_content`): the parsed content-length header and the received chunks are inputs. The chunk size `tot_len // 100` goes to the library and has no effect on the model.
- `zipfile`: the archive is the list of `(name, compress_size)` entries `infolist()` returns, or `None` when the buffer is not a readable zip. Nothing ties these entries to the bytes in `turboFile`. Extraction of an entry is recorded as its name appended to `extracted`, and zipfile's path sanitising is not modelled.
- Float progress and `round(extracted_size / tot_size, 1)`: progress is kept as an integer pair (done, total) and never divided.
- `os.environ["LOCALAPPDATA"]`, `Path.home()` and `glob.glob` are inputs: the home path, the local application-data path and the list of glob matches. A missing `LOCALAPPDATA` (a `KeyError`) is not modelled.
- `os.path.join` is modelled only for a relative second part without a drive.
- Text-mode newline translation on Windows (`\r\n` on disk): a file is modelled as its decoded text.
- InstallTurbo.Overwrite: counts offsets in decoded characters. On Windows the stanza takes 4 more bytes on disk (each `\n` becomes `\r\n`) and the write works in bytes, so the surviving tail starts at a different index and a `\r\n` pair may be split; this is not modelled.
- I/O errors beyond those named above (permissions, a full disk, partially extracted files) are not modelled.
- asyncio scheduling: the steps run one after another and nothing runs concurrently with them.
