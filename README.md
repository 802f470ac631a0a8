# Urgent restart required checker: the Ubuntu detector, in Dafny

This project models the Ubuntu part of the checker, `src/checker/depends/ubuntu.rs`, and proves what it
computes. The checker reads `/var/run/reboot-required.pkgs`. It looks up each listed package's installed
version in the output of `dpkg -s`. It then walks the package's `apt changelog` output and collects the
changelog headers that carry an urgency other than low or medium and that come before the header naming
the installed version.

The outside world is given as captured values:

- `Ubuntu.CommandOutput` is what running `dpkg -s NAME` or `apt changelog NAME` gave. Either the command
  could not be started, or its stdout was not UTF-8, or it is the stdout as text.
- `Ubuntu.FileState` is a file the checker opens. Either the open failed with an `ErrorKind`, or the file
  opened and reading it to a string failed (`None`) or gave its content.
- The per-name command outputs are functions `string -> CommandOutput`. The version lookup and the
  per-package classification used by the aggregation loops are functions as well.

Modules:

- `Wrappers`: Rust's `Option` and `Result`, plus `Prefixed`. `Prefixed` prepends to a successful sequence
  and passes an error through.
- `RustText`: the Rust `str` behaviour the source relies on. This covers `starts_with`, `contains`,
  `lines`, `split_whitespace` and `join`. It also covers the index where a `skip_while`/`take_while`
  adaptor stops (`SkipWhile`).
- `Ubuntu`: the datatypes `PkgInfo`, `Changelog` and `UpdateInfo`, and every operation of the file. The
  three loops of the source are methods with loop invariants: the changelog loop, the loop over the
  reboot-required lines and the aggregation loop. Each method is proved equal to a function of its inputs.
  Version extraction and the distribution test are functions. `is_debian` is the predicate `IsDebian`,
  whose meaning is part of `IsUbuntu`'s contract.
- `ChangelogFacts`: a second description of the changelog loop, used for its lemmas. It computes the headers
  the shared iterator pulls (`Pulled`), cuts them at the first header naming the installed version
  (`UntilInstalled`), and keeps the urgent ones (`Retained`).

Two iterator quirks of `get_urgent_update_info` are modelled as the code has them:

- The `skip_while` built on line 73 is dropped without being used. So the first output line is the first
  header.
- `take_while` consumes the first line that fails its predicate and drops it. That line never becomes
  content or a header, even when it names the installed version (`UrgentKeptOtherDropped`).

Three choices of the code that a reader might expect otherwise:

- The first per-package error (version lookup or changelog) aborts the whole result. A broken package is
  not skipped.
- Blank lines of the reboot-required file are kept as package names and looked up like any other line.
- A header is any line the iterator pulls after the previous body and its consumed line. Headers are not
  recognised by their shape.

## Model

| member | source | states |
|---|---|---|
| `RustText.StartsWith` | src/checker/depends/ubuntu.rs:81 | `starts_with`: the pattern is a prefix of the text; the definition is the contract |
| `RustText.Contains` | src/checker/depends/ubuntu.rs:76 | `contains` as a left-to-right search; the definition is the contract, and `ContainsIffOccurs` is its independent meaning |
| `RustText.Join` | src/checker/depends/ubuntu.rs:84 | `join`: the parts with the separator between neighbours; the definition is the contract |
| `Ubuntu.IsDebian` | src/checker/depends/ubuntu.rs:158-163 | `/etc/debian_version` opens; the definition is the contract, and its meaning is part of `IsUbuntu`'s contract |
| `Ubuntu.KindName` | src/checker/depends/ubuntu.rs:112 | the `Debug` name of an error kind; the definition is the contract |
| `Ubuntu.IsUrgent` | src/checker/depends/ubuntu.rs:86-87 | a header has `urgency=` and neither `urgency=low` nor `urgency=medium`; the definition is the contract |
| `Ubuntu.ContentAt` | src/checker/depends/ubuntu.rs:80-84 | a header's content is its body lines joined by `\n`; the definition is the contract |
| `Ubuntu.ScanFrom` | src/checker/depends/ubuntu.rs:75-93 | from any iterator position, no more entries than remaining lines; its full meaning is `ChangelogFacts.ScanIsRetainedBeforeInstalled` |
| `Ubuntu.Scan` | src/checker/depends/ubuntu.rs:72-93 | no more entries than lines of output; which entries they are is `ChangelogFacts.EntriesComeFromUrgentHeaders` and `ChangelogFacts.RetainedIffUrgent` |
| `Ubuntu.ProbeFrom` | src/checker/depends/ubuntu.rs:116-122 | the loop over the reboot-required names; the definition is the contract, and `ProbeFromMeaning` states what it computes |
| `Ubuntu.UpdatesFrom` | src/checker/depends/ubuntu.rs:39-44 | the loop over the packages; the definition is the contract, `UpdatesFromMeaning` states what it computes, and `GetUrgentUpdates` is proved to compute it |
| `RustText.SkipWhile` | src/checker/depends/ubuntu.rs:80-81 | the index found is the first one at or after the start that fails the predicate; every element before it satisfies the predicate |
| `RustText.ContainsIffOccurs` | src/checker/depends/ubuntu.rs:154 | `contains` holds exactly when the pattern occurs at some index of the text |
| `RustText.SplitWhitespace` | src/checker/depends/ubuntu.rs:143 | every token is non-empty and holds no Unicode whitespace |
| `RustText.SplitWhitespaceOfJoin` | src/checker/depends/ubuntu.rs:143 | the tokens are cut exactly at the whitespace: non-empty words without whitespace, joined by a space, split back into exactly those words |
| `RustText.SplitWord` | src/checker/depends/ubuntu.rs:143 | a word followed by nothing or by whitespace is split off whole as the first token |
| `RustText.SplitWhitespaceKeepsText` | src/checker/depends/ubuntu.rs:143 | concatenating the tokens gives the text with all whitespace removed, so nothing else is lost |
| `RustText.Lines` | src/checker/depends/ubuntu.rs:72 | no line contains `\n`; the empty text has no lines, and any other text has at least one |
| `RustText.LinesOfUnlines` | src/checker/depends/ubuntu.rs:117 | text made of `\n`-terminated lines splits back into exactly those lines, blank and repeated lines included |
| `Ubuntu.ContainsUbuntu` | src/checker/depends/ubuntu.rs:151-156 | true exactly when the file was read and `Ubuntu` occurs in its content; a read failure gives false |
| `Ubuntu.IsUbuntu` | src/checker/depends/ubuntu.rs:23-32 | true exactly when `/etc/debian_version` opens, `/etc/lsb-release` opens and reads, and its content contains `Ubuntu` |
| `Ubuntu.BodyEnd` | src/checker/depends/ubuntu.rs:80-81 | the body of a header is the run of following lines that start with the package name; the line where the body ends does not start with it |
| `Ubuntu.NextHeader` | src/checker/depends/ubuntu.rs:80-84 | the next header is the line right after the one that stopped `take_while`, which was consumed; when the body runs to the end of the output, the iterator is exhausted |
| `Ubuntu.TakeBody` | src/checker/depends/ubuntu.rs:80-84 | the lines `take_while` yields are the header's body, and the iterator afterwards stands past the consumed line |
| `Ubuntu.UrgentUpdateInfo` | src/checker/depends/ubuntu.rs:53-98 | a launch failure and a non-UTF-8 output give their own errors; otherwise `None` exactly when no entry is kept, and any `Some` holds the input `PkgInfo` and a non-empty list of the kept entries |
| `Ubuntu.GetUrgentUpdateInfo` | src/checker/depends/ubuntu.rs:53-99 | the loop over the shared line iterator gives exactly `UrgentUpdateInfo` |
| `Ubuntu.VersionFromDpkg` | src/checker/depends/ubuntu.rs:140-148 | "Cannot find" exactly when no line mentions `Version`; "Cannot extract" exactly when every token of the first such line mentions `Version`; otherwise the first token of that line not mentioning `Version`, which is non-empty and has no whitespace |
| `Ubuntu.GetPkgVersion` | src/checker/depends/ubuntu.rs:127-149 | a launch failure and a non-UTF-8 output give their own errors; otherwise the result is read from the lines of the output; a version is always non-empty and free of whitespace |
| `Ubuntu.ProbeFromMeaning` | src/checker/depends/ubuntu.rs:116-124 | the lookups succeed exactly when every name's lookup does; then there is one record per name, in order, each with its name and version; otherwise the error is the first failing name's error |
| `Ubuntu.RebootRequiredPkgs` | src/checker/depends/ubuntu.rs:101-124 | a missing file gives an empty list; any other open error gives the kind's name; a read failure gives its own error; a readable file gives one lookup per line |
| `Ubuntu.RebootRequiredTwoLines` | src/checker/depends/ubuntu.rs:117-121 | a file listing `pkg-a` and `pkg-b` gives those two packages, in file order, with their versions |
| `Ubuntu.GetRebootRequiredPkgs` | src/checker/depends/ubuntu.rs:101-125 | the method with its loop over the lines gives exactly `RebootRequiredPkgs` |
| `Ubuntu.UpdatesFromMeaning` | src/checker/depends/ubuntu.rs:39-44 | the loop succeeds exactly when every package's classification does; an error is the first failing package's error; nothing is collected exactly when every package gave `None`; every collected update comes from some package's `Some`, and every package's `Some` is collected |
| `Ubuntu.UrgentUpdates` | src/checker/depends/ubuntu.rs:36-51 | a list error is returned unchanged; otherwise the loop's error is returned unchanged, or `None` exactly when nothing was collected, else `Some` of the collected updates |
| `Ubuntu.UrgentUpdatesMeaning` | src/checker/depends/ubuntu.rs:36-50 | the result is `Ok(None)` exactly when the list was read and every package gave `None`; an error is the list's error or some package's error, unchanged |
| `Ubuntu.GetUrgentUpdates` | src/checker/depends/ubuntu.rs:36-51 | the method with its loop over the packages gives exactly `UrgentUpdates` |
| `ChangelogFacts.Pulled` | src/checker/depends/ubuntu.rs:72-84 | the pulled headers start at the first line; each next header comes right after the previous header's body and consumed line; the last one reaches the end of the output |
| `ChangelogFacts.UntilInstalled` | src/checker/depends/ubuntu.rs:75-78 | the headers kept for the scan are a prefix of the pulled ones; none of them names the installed version, and the first header left out does |
| `ChangelogFacts.Retained` | src/checker/depends/ubuntu.rs:86-92 | no more entries than headers; every entry is an urgent header with its content, and every urgent header gives its entry |
| `ChangelogFacts.EntryOf` | src/checker/depends/ubuntu.rs:86-92 | the entry one header contributes; the definition is the contract |
| `ChangelogFacts.RetainedCons` | src/checker/depends/ubuntu.rs:86-92 | a header in front contributes its own entry in front of the others' |
| `ChangelogFacts.RetainedOne` | src/checker/depends/ubuntu.rs:86-92 | one header gives exactly its own entry when urgent and nothing when not |
| `ChangelogFacts.RetainedAppend` | src/checker/depends/ubuntu.rs:75-92 | the entries of two runs of headers are those of the first run followed by those of the second; with `RetainedOne`, entries keep their headers' order and each header gives at most one |
| `ChangelogFacts.ScanIsRetainedBeforeInstalled` | src/checker/depends/ubuntu.rs:72-93 | the loop's entries are exactly the urgent headers, in order, among the pulled headers before the first one naming the installed version |
| `ChangelogFacts.PulledIncreasing` | src/checker/depends/ubuntu.rs:75-84 | a later pulled header lies at or after the point where an earlier header's body and consumed line end |
| `ChangelogFacts.ConsumedLineDiscarded` | src/checker/depends/ubuntu.rs:80-84 | the line that stops `take_while` does not start with the package name, is not a pulled header, and is in no header's body |
| `ChangelogFacts.ScanStopsAtInstalled` | src/checker/depends/ubuntu.rs:75-78 | once a pulled header names the installed version, changing the lines after it does not change the result |
| `ChangelogFacts.RetainedIffUrgent` | src/checker/depends/ubuntu.rs:86-92 | a header pulled before the stop is kept, with the header line verbatim and its content, exactly when it has `urgency=` and neither `urgency=low` nor `urgency=medium` |
| `ChangelogFacts.EntriesComeFromUrgentHeaders` | src/checker/depends/ubuntu.rs:86-92 | every kept entry is an urgent header to the letter, pulled before the stop and not naming the installed version, and its content is the join of that header's body |
| `ChangelogFacts.NoneIffNoUrgentHeader` | src/checker/depends/ubuntu.rs:94-98 | nothing is kept, so the answer is `None`, exactly when no header pulled before the stop is urgent |
| `ChangelogFacts.UrgentKeptOtherDropped` | src/checker/depends/ubuntu.rs:75-92 | with an urgent and a non-urgent header, only the urgent one is kept, with its body as content; the line consumed by the last `take_while` is never read as a header |
| `ChangelogFacts.InstalledNewestKeepsNothing` | src/checker/depends/ubuntu.rs:75-78 | for any output whose first line names the installed version, nothing is kept, whatever follows |

## Left out

- Running `apt` and `dpkg` and opening files are operating-system I/O. Their results enter the model as
  `CommandOutput` and `FileState` values.
- UTF-8 decoding of command output is left out. An undecodable output is the `NotUtf8` case with the
  source's error message. A file that cannot be read to a string, for an I/O fault or for invalid UTF-8,
  is `Opened(None)`.
- `std::io::ErrorKind` is reduced to `NotFound` and other kinds. An other kind carries the name its `Debug`
  format prints.
- `lines()` is modelled as the current Rust standard library defines it. A `\r` is removed only before a
  `\n`. Older releases also removed a final `\r` that had no `\n` after it.
- The distribution dispatch and printing in `src/checker/depends/mod.rs` are glue. So is the boolean mapping
  in `src/checker/mod.rs`. Neither is part of this model.
- Debian version ordering is not modelled. The source compares versions only by substring containment.
- `Ubuntu.UpdatesFromMeaning`: states membership of the updates in both directions, but not their order.
  Their order is fixed by the definition of `UpdatesFrom`, which `GetUrgentUpdates` is proved to compute.
