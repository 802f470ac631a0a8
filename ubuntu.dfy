/**
 * The Ubuntu checker: which packages listed in the reboot-required file have
 * a pending changelog entry of high (or any non-low, non-medium) urgency that
 * is newer than the installed version.
 *
 * The outside world enters as captured values: the output of `apt changelog`
 * and `dpkg -s` for a package name (`CommandOutput`) and the state of the
 * files the checker opens (`FileState`).
 */
module Ubuntu {
  import opened Wrappers
  import opened RustText

  datatype PkgInfo = PkgInfo(name: string, currentVersion: string)

  /** One retained changelog entry: its header line and its body lines joined by `\n`. */
  datatype Changelog = Changelog(version: string, content: string)

  datatype UpdateInfo = UpdateInfo(pkgInfo: PkgInfo, changeLogs: seq<Changelog>)

  /** What running a command gave: it could not be started, its stdout was not UTF-8, or its stdout as text. */
  datatype CommandOutput = LaunchFailed | NotUtf8 | Stdout(text: string)

  /** The kinds of `std::io::Error` the checker distinguishes; the others carry their `Debug` name. */
  datatype ErrorKind = NotFound | OtherKind(debugName: string)

  /** A file the checker opens: the open failed, or it opened and reading it to a string failed (`None`) or gave its content. */
  datatype FileState = OpenFailed(kind: ErrorKind) | Opened(read: Option<string>)

  function KindName(k: ErrorKind): string {
    match k
    case NotFound => "NotFound"
    case OtherKind(n) => n
  }

  const Utf8Error := "Cannot convert output into utf8 format"
  const AptLaunchError := "Cannot execute apt command."
  const ReadError := "Cannot read content from"

  function DpkgLaunchError(name: string): string { "Cannot get " + name + "'s version" }
  function VersionNotFound(name: string): string { "Cannot find " + name + "'s version from dpkg" }
  function VersionNotExtracted(name: string): string { "Cannot extract " + name + "'s version from dpkg" }

  // ---------------------------------------------------------------------------
  // Distribution detection

  /** `is_debian`: `/etc/debian_version` can be opened. */
  predicate IsDebian(debianVersion: FileState) {
    debianVersion.Opened?
  }

  /** `contains_ubuntu`: the opened file reads as text containing `Ubuntu`; a read error counts as no. */
  function ContainsUbuntu(read: Option<string>): (r: bool)
    ensures r <==> read.Some? && exists i: nat :: OccursAt(read.value, "Ubuntu", i)
  {
    match read
    case None => false
    case Some(content) =>
      ContainsIffOccurs(content, "Ubuntu");
      Contains(content, "Ubuntu")
  }

  /** `is_ubuntu`: Debian, and `/etc/lsb-release` opens, reads and mentions `Ubuntu`. */
  function IsUbuntu(debianVersion: FileState, lsbRelease: FileState): (r: bool)
    ensures r <==> debianVersion.Opened? && lsbRelease.Opened? && lsbRelease.read.Some?
                   && exists i: nat :: OccursAt(lsbRelease.read.value, "Ubuntu", i)
  {
    if !IsDebian(debianVersion) then false
    else
      match lsbRelease
      case OpenFailed(_) => false
      case Opened(read) => ContainsUbuntu(read)
  }

  // ---------------------------------------------------------------------------
  // Changelog urgency selection

  /** A header is kept when it carries an `urgency=` mark that is neither low nor medium. */
  predicate IsUrgent(header: string) {
    Contains(header, "urgency=") && !Contains(header, "urgency=low") && !Contains(header, "urgency=medium")
  }

  /**
   * For the header pulled at index `h`: the index of the first following line
   * that does not start with the package name, where `take_while` stops.
   */
  function BodyEnd(lines: seq<string>, name: string, h: nat): (e: nat)
    requires h < |lines|
    ensures h < e <= |lines|
    ensures forall j :: h < j < e ==> StartsWith(lines[j], name)
    ensures e < |lines| ==> !StartsWith(lines[e], name)
  {
    SkipWhile(lines, l => StartsWith(l, name), h + 1)
  }

  /** Where the next header is pulled: `take_while` also consumed the line that stopped it. */
  function NextHeader(lines: seq<string>, name: string, h: nat): (n: nat)
    requires h < |lines|
    ensures h < n <= |lines|
    ensures BodyEnd(lines, name, h) < |lines| ==> n == BodyEnd(lines, name, h) + 1
    ensures BodyEnd(lines, name, h) == |lines| ==> n == |lines|
  {
    var e := BodyEnd(lines, name, h);
    if e < |lines| then e + 1 else e
  }

  /** The content recorded for the header at `h`: its body lines joined by `\n`. */
  function ContentAt(lines: seq<string>, name: string, h: nat): string
    requires h < |lines|
  {
    Join(lines[h + 1..BodyEnd(lines, name, h)], "\n")
  }

  /**
   * The changelog entries the loop of `get_urgent_update_info` pushes once
   * the line iterator stands at index `i`: pull a header, stop if it mentions
   * the installed version, otherwise take its body and keep it if urgent.
   */
  function ScanFrom(lines: seq<string>, name: string, cur: string, i: nat): (r: seq<Changelog>)
    requires i <= |lines|
    ensures |r| <= |lines| - i
    decreases |lines| - i
  {
    if i == |lines| || Contains(lines[i], cur) then []
    else
      (if IsUrgent(lines[i]) then [Changelog(lines[i], ContentAt(lines, name, i))] else [])
      + ScanFrom(lines, name, cur, NextHeader(lines, name, i))
  }

  /** The changelog entries kept for `pkg` from the lines of its `apt changelog` output. */
  function Scan(lines: seq<string>, pkg: PkgInfo): (r: seq<Changelog>)
    ensures |r| <= |lines|
  {
    ScanFrom(lines, pkg.name, pkg.currentVersion, 0)
  }

  /** `get_urgent_update_info` as a function of the captured `apt changelog` output. */
  function UrgentUpdateInfo(pkg: PkgInfo, apt: CommandOutput): (r: Result<Option<UpdateInfo>, string>)
    ensures apt.LaunchFailed? ==> r == Err(AptLaunchError)
    ensures apt.NotUtf8? ==> r == Err(Utf8Error)
    ensures apt.Stdout? ==> r.Ok?
    ensures apt.Stdout? ==> (r.value.None? <==> Scan(Lines(apt.text), pkg) == [])
    ensures r.Ok? && r.value.Some? ==>
              r.value.value.pkgInfo == pkg && r.value.value.changeLogs != []
              && r.value.value.changeLogs == Scan(Lines(apt.text), pkg)
  {
    match apt
    case LaunchFailed => Err(AptLaunchError)
    case NotUtf8 => Err(Utf8Error)
    case Stdout(text) =>
      var logs := Scan(Lines(text), pkg);
      Ok(if logs == [] then None else Some(UpdateInfo(pkg, logs)))
  }

  /**
   * The `take_while` on the shared iterator after the header at `h`: the body
   * lines it yields, and where the iterator stands afterwards, past the line
   * that stopped it.
   */
  method TakeBody(lines: seq<string>, name: string, h: nat) returns (body: seq<string>, next: nat)
    requires h < |lines|
    ensures body == lines[h + 1..BodyEnd(lines, name, h)]
    ensures next == NextHeader(lines, name, h)
  {
    next := h + 1;
    body := [];
    while next < |lines| && StartsWith(lines[next], name)
      invariant h < next <= |lines|
      invariant body == lines[h + 1..next]
      invariant SkipWhile(lines, l => StartsWith(l, name), next) == BodyEnd(lines, name, h)
      decreases |lines| - next
    {
      body := body + [lines[next]];
      next := next + 1;
    }
    assert next == BodyEnd(lines, name, h);
    if next < |lines| {
      next := next + 1;
    }
  }

  /** `get_urgent_update_info`, with its loop over one shared line iterator. */
  method GetUrgentUpdateInfo(pkgInfo: PkgInfo, apt: CommandOutput) returns (r: Result<Option<UpdateInfo>, string>)
    ensures r == UrgentUpdateInfo(pkgInfo, apt)
  {
    if apt.LaunchFailed? {
      return Err(AptLaunchError);
    }
    if apt.NotUtf8? {
      return Err(Utf8Error);
    }
    var lines := Lines(apt.text);
    var name, cur := pkgInfo.name, pkgInfo.currentVersion;
    var changeLogs: seq<Changelog> := [];
    // The `skip_while` adaptor built on the iterator is dropped unused, so
    // the first line is the first header.
    var i := 0;
    while i < |lines|
      invariant 0 <= i <= |lines|
      invariant changeLogs + ScanFrom(lines, name, cur, i) == Scan(lines, pkgInfo)
      decreases |lines| - i
    {
      var version := lines[i];
      if Contains(version, cur) {
        assert changeLogs == Scan(lines, pkgInfo);
        break;
      }
      var body, next := TakeBody(lines, name, i);
      var content := Join(body, "\n");
      ghost var pushed := if IsUrgent(version) then [Changelog(version, content)] else [];
      assert ScanFrom(lines, name, cur, i) == pushed + ScanFrom(lines, name, cur, next);
      assert changeLogs + pushed + ScanFrom(lines, name, cur, next) == Scan(lines, pkgInfo);
      if IsUrgent(version) {
        changeLogs := changeLogs + [Changelog(version, content)];
      }
      i := next;
    }
    assert changeLogs == Scan(lines, pkgInfo);
    r := Ok(if changeLogs == [] then None else Some(UpdateInfo(pkgInfo, changeLogs)));
  }

  // ---------------------------------------------------------------------------
  // Installed version from `dpkg -s`

  /** `j` is the first line mentioning `Version`. */
  ghost predicate IsFirstVersionLine(lines: seq<string>, j: nat) {
    j < |lines| && Contains(lines[j], "Version")
    && forall j' :: 0 <= j' < j ==> !Contains(lines[j'], "Version")
  }

  /** `v` is the first token not mentioning `Version`. */
  ghost predicate IsVersionToken(tokens: seq<string>, v: string) {
    exists t :: 0 <= t < |tokens| && tokens[t] == v && !Contains(v, "Version")
                && forall t' :: 0 <= t' < t ==> Contains(tokens[t'], "Version")
  }

  /**
   * The version `get_pkg_version` reads from the lines of `dpkg -s` output:
   * on the first line mentioning `Version`, the first whitespace-separated
   * token that does not mention it.
   */
  function VersionFromDpkg(name: string, lines: seq<string>): (r: Result<string, string>)
    ensures r.Ok? || r == Err(VersionNotFound(name)) || r == Err(VersionNotExtracted(name))
    ensures r == Err(VersionNotFound(name)) <==> forall j :: 0 <= j < |lines| ==> !Contains(lines[j], "Version")
    ensures forall j: nat :: IsFirstVersionLine(lines, j) ==>
              (r == Err(VersionNotExtracted(name)) <==>
                 forall t :: 0 <= t < |SplitWhitespace(lines[j])| ==> Contains(SplitWhitespace(lines[j])[t], "Version"))
    ensures forall j: nat :: IsFirstVersionLine(lines, j) && r.Ok? ==> IsVersionToken(SplitWhitespace(lines[j]), r.value)
    ensures r.Ok? ==> r.value != [] && NoWhitespace(r.value) && !Contains(r.value, "Version")
  {
    var k := SkipWhile(lines, l => !Contains(l, "Version"), 0);
    assert (VersionNotFound(name))[7] == 'f' && (VersionNotExtracted(name))[7] == 'e';
    if k == |lines| then Err(VersionNotFound(name))
    else
      var tokens := SplitWhitespace(lines[k]);
      var t := SkipWhile(tokens, tok => Contains(tok, "Version"), 0);
      assert forall j: nat :: IsFirstVersionLine(lines, j) ==> j == k;
      if t == |tokens| then Err(VersionNotExtracted(name))
      else
        assert IsVersionToken(tokens, tokens[t]);
        Ok(tokens[t])
  }

  /** `get_pkg_version`: run `dpkg -s name` (its captured output given) and read the installed version. */
  function GetPkgVersion(name: string, dpkg: CommandOutput): (r: Result<string, string>)
    ensures dpkg.LaunchFailed? ==> r == Err(DpkgLaunchError(name))
    ensures dpkg.NotUtf8? ==> r == Err(Utf8Error)
    ensures dpkg.Stdout? ==> r == VersionFromDpkg(name, Lines(dpkg.text))
    ensures r.Ok? ==> dpkg.Stdout? && r.value != [] && NoWhitespace(r.value)
  {
    match dpkg
    case LaunchFailed => Err(DpkgLaunchError(name))
    case NotUtf8 => Err(Utf8Error)
    case Stdout(text) => VersionFromDpkg(name, Lines(text))
  }

  // ---------------------------------------------------------------------------
  // Packages listed in /var/run/reboot-required.pkgs

  /** The version lookup `get_reboot_required_pkgs` performs per name, given the captured `dpkg -s` output per name. */
  function VersionLookup(dpkg: string -> CommandOutput): string -> Result<string, string> {
    name => GetPkgVersion(name, dpkg(name))
  }

  /**
   * The loop of `get_reboot_required_pkgs` from name `i` on, for any version
   * lookup `probe`: one record per name, the first failed lookup aborting.
   */
  function ProbeFrom(names: seq<string>, probe: string -> Result<string, string>, i: nat): Result<seq<PkgInfo>, string>
    requires i <= |names|
    decreases |names| - i
  {
    if i == |names| then Ok([])
    else
      match probe(names[i])
      case Err(e) => Err(e)
      case Ok(v) => Prefixed([PkgInfo(names[i], v)], ProbeFrom(names, probe, i + 1))
  }

  /** The records are the names in order, each with its looked-up version; otherwise the first lookup error. */
  lemma {:induction false} ProbeFromMeaning(names: seq<string>, probe: string -> Result<string, string>, i: nat)
    requires i <= |names|
    ensures ProbeFrom(names, probe, i).Ok? <==> forall j :: i <= j < |names| ==> probe(names[j]).Ok?
    ensures ProbeFrom(names, probe, i).Ok? ==>
              var ps := ProbeFrom(names, probe, i).value;
              |ps| == |names| - i
              && forall j :: i <= j < |names| ==> ps[j - i] == PkgInfo(names[j], probe(names[j]).value)
    ensures ProbeFrom(names, probe, i).Err? ==>
              exists j :: i <= j < |names| && probe(names[j]) == Err(ProbeFrom(names, probe, i).error)
                          && forall j' :: i <= j' < j ==> probe(names[j']).Ok?
    decreases |names| - i
  {
    if i < |names| {
      ProbeFromMeaning(names, probe, i + 1);
    }
  }

  /** `get_reboot_required_pkgs` as a function of the file's state and of the version lookup. */
  function RebootRequiredPkgs(file: FileState, probe: string -> Result<string, string>): (r: Result<seq<PkgInfo>, string>)
    ensures file == OpenFailed(NotFound) ==> r == Ok([])
    ensures file.OpenFailed? && file.kind != NotFound ==> r == Err(KindName(file.kind))
    ensures file == Opened(None) ==> r == Err(ReadError)
    ensures file.Opened? && file.read.Some? ==> r == ProbeFrom(Lines(file.read.value), probe, 0)
  {
    match file
    case OpenFailed(NotFound) => Ok([])
    case OpenFailed(kind) => Err(KindName(kind))
    case Opened(None) => Err(ReadError)
    case Opened(Some(text)) => ProbeFrom(Lines(text), probe, 0)
  }

  /** A two-line file gives the two packages, in file order. */
  lemma RebootRequiredTwoLines(probe: string -> Result<string, string>)
    requires probe("pkg-a") == Ok("1.0") && probe("pkg-b") == Ok("2.0")
    ensures RebootRequiredPkgs(Opened(Some("pkg-a\npkg-b\n")), probe)
            == Ok([PkgInfo("pkg-a", "1.0"), PkgInfo("pkg-b", "2.0")])
  {
    var names := ["pkg-a", "pkg-b"];
    assert Unlines(names[1..]) == "pkg-b\n";
    assert Unlines(names) == "pkg-a\npkg-b\n";
    assert '\n' !in names[0] && '\n' !in names[1];
    LinesOfUnlines(names);
    var a, b := PkgInfo("pkg-a", "1.0"), PkgInfo("pkg-b", "2.0");
    assert probe(names[1]) == Ok("2.0");
    assert ProbeFrom(names, probe, 1) == Prefixed([b], Ok([]));
    assert [b] + [] == [b];
    assert probe(names[0]) == Ok("1.0");
    assert ProbeFrom(names, probe, 0) == Prefixed([a], Ok([b]));
    assert [a] + [b] == [a, b];
  }

  /** `get_reboot_required_pkgs`, the loop pushing one record per line. */
  method GetRebootRequiredPkgs(file: FileState, probe: string -> Result<string, string>) returns (r: Result<seq<PkgInfo>, string>)
    ensures r == RebootRequiredPkgs(file, probe)
  {
    match file {
      case OpenFailed(kind) =>
        if kind == NotFound {
          return Ok([]);
        }
        return Err(KindName(kind));
      case Opened(read) =>
        if read.None? {
          return Err(ReadError);
        }
    }
    var names := Lines(file.read.value);
    var pkgInfos: seq<PkgInfo> := [];
    PrefixedNothing(ProbeFrom(names, probe, 0));
    for i := 0 to |names|
      invariant Prefixed(pkgInfos, ProbeFrom(names, probe, i)) == ProbeFrom(names, probe, 0)
    {
      var version := probe(names[i]);
      if version.Err? {
        return Err(version.error);
      }
      PrefixedTwice(pkgInfos, [PkgInfo(names[i], version.value)], ProbeFrom(names, probe, i + 1));
      pkgInfos := pkgInfos + [PkgInfo(names[i], version.value)];
    }
    assert pkgInfos + [] == pkgInfos;
    r := Ok(pkgInfos);
  }

  // ---------------------------------------------------------------------------
  // Aggregation

  /** The per-package classification `get_urgent_updates` performs, given the captured `apt changelog` output per name. */
  function Classifier(apt: string -> CommandOutput): PkgInfo -> Result<Option<UpdateInfo>, string> {
    (p: PkgInfo) => UrgentUpdateInfo(p, apt(p.name))
  }

  /**
   * The loop of `get_urgent_updates` from package `i` on, for any per-package
   * classification: keep each `Some`, in package order, the first error aborting.
   */
  function UpdatesFrom(pkgs: seq<PkgInfo>, classify: PkgInfo -> Result<Option<UpdateInfo>, string>, i: nat)
    : Result<seq<UpdateInfo>, string>
    requires i <= |pkgs|
    decreases |pkgs| - i
  {
    if i == |pkgs| then Ok([])
    else
      match classify(pkgs[i])
      case Err(e) => Err(e)
      case Ok(None) => UpdatesFrom(pkgs, classify, i + 1)
      case Ok(Some(u)) => Prefixed([u], UpdatesFrom(pkgs, classify, i + 1))
  }

  /**
   * The updates are exactly the `Some` results, none of them lost and none
   * invented; nothing is collected only when every package gave `None`; an
   * error is the first package's error.
   */
  lemma {:induction false} UpdatesFromMeaning(pkgs: seq<PkgInfo>, classify: PkgInfo -> Result<Option<UpdateInfo>, string>, i: nat)
    requires i <= |pkgs|
    ensures UpdatesFrom(pkgs, classify, i).Ok? <==> forall j :: i <= j < |pkgs| ==> classify(pkgs[j]).Ok?
    ensures UpdatesFrom(pkgs, classify, i).Err? ==>
              exists j :: i <= j < |pkgs| && classify(pkgs[j]) == Err(UpdatesFrom(pkgs, classify, i).error)
                          && forall j' :: i <= j' < j ==> classify(pkgs[j']).Ok?
    ensures UpdatesFrom(pkgs, classify, i).Ok? ==>
              var us := UpdatesFrom(pkgs, classify, i).value;
              (us == [] <==> forall j :: i <= j < |pkgs| ==> classify(pkgs[j]) == Ok(None))
              && (forall k :: 0 <= k < |us| ==> exists j :: i <= j < |pkgs| && classify(pkgs[j]) == Ok(Some(us[k])))
              && (forall j :: i <= j < |pkgs| && classify(pkgs[j]).Ok? && classify(pkgs[j]).value.Some? ==>
                    classify(pkgs[j]).value.value in us)
    decreases |pkgs| - i
  {
    if i < |pkgs| {
      UpdatesFromMeaning(pkgs, classify, i + 1);
    }
  }

  /** `get_urgent_updates` as a function of the reboot-required file, the version lookup and the classification. */
  function UrgentUpdates(rebootRequired: FileState, probe: string -> Result<string, string>,
                         classify: PkgInfo -> Result<Option<UpdateInfo>, string>)
    : (r: Result<Option<seq<UpdateInfo>>, string>)
    ensures RebootRequiredPkgs(rebootRequired, probe).Err? ==> r == Err(RebootRequiredPkgs(rebootRequired, probe).error)
    ensures RebootRequiredPkgs(rebootRequired, probe).Ok? ==>
              var u := UpdatesFrom(RebootRequiredPkgs(rebootRequired, probe).value, classify, 0);
              (u.Err? ==> r == Err(u.error))
              && (u.Ok? ==> r.Ok? && (r.value.None? <==> u.value == []))
              && (r.Ok? && r.value.Some? ==> r.value.value == u.value)
  {
    match RebootRequiredPkgs(rebootRequired, probe)
    case Err(e) => Err(e)
    case Ok(pkgs) =>
      match UpdatesFrom(pkgs, classify, 0)
      case Err(e) => Err(e)
      case Ok(us) => Ok(if us == [] then None else Some(us))
  }

  /**
   * `get_urgent_updates` answers `Ok(None)` exactly when the package list was
   * read and every package gave `None`; an error is the list's error or the
   * first package's error, unchanged.
   */
  lemma UrgentUpdatesMeaning(rebootRequired: FileState, probe: string -> Result<string, string>,
                             classify: PkgInfo -> Result<Option<UpdateInfo>, string>)
    ensures UrgentUpdates(rebootRequired, probe, classify) == Ok(None) <==>
              RebootRequiredPkgs(rebootRequired, probe).Ok?
              && forall j :: 0 <= j < |RebootRequiredPkgs(rebootRequired, probe).value| ==>
                   classify(RebootRequiredPkgs(rebootRequired, probe).value[j]) == Ok(None)
    ensures UrgentUpdates(rebootRequired, probe, classify).Err? ==>
              RebootRequiredPkgs(rebootRequired, probe) == Err(UrgentUpdates(rebootRequired, probe, classify).error)
              || exists j :: 0 <= j < |RebootRequiredPkgs(rebootRequired, probe).value|
                   && classify(RebootRequiredPkgs(rebootRequired, probe).value[j]) == Err(UrgentUpdates(rebootRequired, probe, classify).error)
  {
    var pkgs := RebootRequiredPkgs(rebootRequired, probe);
    if pkgs.Ok? {
      UpdatesFromMeaning(pkgs.value, classify, 0);
    }
  }

  /** `get_urgent_updates`, the loop over the reboot-required packages. */
  method GetUrgentUpdates(rebootRequired: FileState, dpkg: string -> CommandOutput, apt: string -> CommandOutput)
    returns (r: Result<Option<seq<UpdateInfo>>, string>)
    ensures r == UrgentUpdates(rebootRequired, VersionLookup(dpkg), Classifier(apt))
  {
    var pkgs := GetRebootRequiredPkgs(rebootRequired, VersionLookup(dpkg));
    if pkgs.Err? {
      return Err(pkgs.error);
    }
    var updateInfos: seq<UpdateInfo> := [];
    PrefixedNothing(UpdatesFrom(pkgs.value, Classifier(apt), 0));
    for i := 0 to |pkgs.value|
      invariant Prefixed(updateInfos, UpdatesFrom(pkgs.value, Classifier(apt), i)) == UpdatesFrom(pkgs.value, Classifier(apt), 0)
    {
      var pkgInfo := pkgs.value[i];
      var info := GetUrgentUpdateInfo(pkgInfo, apt(pkgInfo.name));
      assert info == Classifier(apt)(pkgInfo);
      if info.Err? {
        return Err(info.error);
      }
      if info.value.Some? {
        PrefixedTwice(updateInfos, [info.value.value], UpdatesFrom(pkgs.value, Classifier(apt), i + 1));
        updateInfos := updateInfos + [info.value.value];
      }
    }
    assert updateInfos + [] == updateInfos;
    r := Ok(if updateInfos == [] then None else Some(updateInfos));
  }
}
