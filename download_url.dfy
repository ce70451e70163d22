/**
 * Naming of VS Code build artifacts: the artifact name formed from its properties and checked
 * against the list of published names, the `commit_artifact_stability` text of an artifact
 * reference, the update-service URL that describes it, and the current platform's os and arch.
 */
module DownloadUrl {
  import opened Wrappers

  datatype ArtifactType = Desktop | Cli | Server
  datatype Arch = X64 | Arm64 | Armhf
  datatype Os = Linux | LinuxDeb | LinuxRpm | LinuxSnap | Darwin | Win32 | Alpine
  /** `web` only for servers, `user` and `archive` only for Windows desktop builds. */
  datatype Flavor = Web | User | Archive
  datatype Stability = Stable | Insider

  datatype ArtifactProps = ArtifactProps(kind: ArtifactType, arch: Arch, os: Os, flavor: Option<Flavor>)

  /** A checked artifact name together with the properties it was built from. */
  datatype VsCodeArtifactName = VsCodeArtifactName(name: string, props: ArtifactProps)

  datatype ArtifactRef = ArtifactRef(commit: string, artifact: VsCodeArtifactName, stability: Stability)

  function TypeText(t: ArtifactType): string {
    match t
    case Desktop => "desktop"
    case Cli => "cli"
    case Server => "server"
  }

  function ArchText(a: Arch): string {
    match a
    case X64 => "x64"
    case Arm64 => "arm64"
    case Armhf => "armhf"
  }

  function OsText(o: Os): string {
    match o
    case Linux => "linux"
    case LinuxDeb => "linux-deb"
    case LinuxRpm => "linux-rpm"
    case LinuxSnap => "linux-snap"
    case Darwin => "darwin"
    case Win32 => "win32"
    case Alpine => "alpine"
  }

  function FlavorText(f: Flavor): string {
    match f
    case Web => "web"
    case User => "user"
    case Archive => "archive"
  }

  function StabilityText(s: Stability): string {
    match s
    case Stable => "stable"
    case Insider => "insider"
  }

  /** The published artifact names, in the source's order (held in four parts to keep proofs about them small). */
  const ValidNames: seq<string> := ValidNames0 + ValidNames1 + ValidNames2 + ValidNames3

  const ValidNames0: seq<string> := [
    "cli-alpine-arm64", "cli-linux-x64", "cli-alpine-x64", "cli-linux-arm64",
    "cli-linux-armhf", "web-standalone", "server-linux-alpine", "server-alpine-arm64",
    "cli-win32-x64", "cli-win32-arm64", "server-linux-alpine-web", "server-alpine-arm64-web"
  ]

  const ValidNames1: seq<string> := [
    "cli-darwin-x64", "cli-darwin-arm64", "server-linux-arm64", "server-linux-arm64-web",
    "server-linux-armhf-web", "linux-arm64", "linux-armhf", "linux-deb-arm64",
    "linux-deb-armhf", "server-linux-armhf", "linux-rpm-armhf", "linux-rpm-arm64"
  ]

  const ValidNames2: seq<string> := [
    "server-darwin-arm64", "win32-arm64-archive", "server-darwin-arm64-web", "server-win32-arm64",
    "server-darwin-web", "darwin-arm64", "server-darwin", "darwin",
    "server-win32-arm64-web", "linux-x64", "win32-arm64", "server-linux-x64"
  ]

  const ValidNames3: seq<string> := [
    "win32-arm64-user", "server-linux-x64-web", "linux-deb-x64", "linux-rpm-x64",
    "darwin-universal", "win32-x64-archive", "server-win32-x64", "win32-x64",
    "server-win32-x64-web", "linux-snap-x64", "win32-x64-user"
  ]

  /** Desktop builds carry no type prefix; the others are prefixed by their type and a dash. */
  function TypePrefix(t: ArtifactType): string {
    if t == Desktop then "" else TypeText(t) + "-"
  }

  function FlavorSuffix(f: Option<Flavor>): string {
    match f
    case Some(v) => "-" + FlavorText(v)
    case None => ""
  }

  /** The name `build` forms before it is checked. */
  function FormName(p: ArtifactProps): string {
    TypePrefix(p.kind) + OsText(p.os) + "-" + ArchText(p.arch) + FlavorSuffix(p.flavor)
  }

  /** `VsCodeArtifactName.build`: the formed name if it is published, the source's error otherwise. */
  function Build(p: ArtifactProps): (r: Result<VsCodeArtifactName>)
    ensures r.Success? <==> FormName(p) in ValidNames
    ensures r.Success? ==> r.value.name in ValidNames && r.value.name == FormName(p) && r.value.props == p
    ensures r.Failure? ==> r.error == "Invalid artifact name: " + FormName(p)
  {
    var name := FormName(p);
    if name in ValidNames then Success(VsCodeArtifactName(name, p))
    else Failure("Invalid artifact name: " + name)
  }

  function NameToString(n: VsCodeArtifactName): string {
    n.name
  }

  /** `ArtifactRef.toString`. */
  function RefToString(r: ArtifactRef): string {
    r.commit + "_" + NameToString(r.artifact) + "_" + StabilityText(r.stability)
  }

  const UpdateServiceVersions: string := "https://update.code.visualstudio.com/api/versions/commit:"

  /** `ArtifactRef.getDownloadInfoUrl`. */
  function GetDownloadInfoUrl(r: ArtifactRef): string {
    UpdateServiceVersions + r.commit + "/" + NameToString(r.artifact) + "/" + StabilityText(r.stability)
  }

  /** `getArch` as a function of the platform's `process.arch`. */
  function GetArch(processArch: string): (a: Arch)
    ensures a == Arm64 <==> processArch == "arm64"
    ensures a == X64 <==> processArch != "arm64"
  {
    if processArch == "arm64" then Arm64 else X64
  }

  /** `getOs` as a function of the platform's `process.platform`. */
  function GetOs(platform: string): (r: Result<Os>)
    ensures r.Success? <==> platform in {"win32", "darwin", "linux"}
    ensures r.Success? ==> OsText(r.value) == platform
    ensures r.Failure? ==> r.error == "Unsupported platform: " + platform
  {
    if platform == "win32" then Success(Win32)
    else if platform == "darwin" then Success(Darwin)
    else if platform == "linux" then Success(Linux)
    else Failure("Unsupported platform: " + platform)
  }

  // ---------------------------------------------------------------------------------------
  // Reading a formed name back

  predicate StartsWith(s: string, w: string) {
    |s| >= |w| && s[..|w|] == w
  }

  predicate EndsWith(s: string, w: string) {
    |s| >= |w| && s[|s| - |w|..] == w
  }

  /** The type from the prefix; no os text starts with `cli-` or `server-`. */
  function SplitType(name: string): (ArtifactType, string) {
    if StartsWith(name, "cli-") then (Cli, name[4..])
    else if StartsWith(name, "server-") then (Server, name[7..])
    else (Desktop, name)
  }

  /** The flavor from the suffix; arch texts end in `4` or `f`, so no flavor suffix overlaps them. */
  function SplitFlavor(s: string): (string, Option<Flavor>) {
    if EndsWith(s, "-web") then (s[..|s| - 4], Some(Web))
    else if EndsWith(s, "-user") then (s[..|s| - 5], Some(User))
    else if EndsWith(s, "-archive") then (s[..|s| - 8], Some(Archive))
    else (s, None)
  }

  function SplitArch(s: string): Option<(string, Arch)> {
    if EndsWith(s, "-x64") then Some((s[..|s| - 4], X64))
    else if EndsWith(s, "-arm64") then Some((s[..|s| - 6], Arm64))
    else if EndsWith(s, "-armhf") then Some((s[..|s| - 6], Armhf))
    else None
  }

  function ParseOs(s: string): Option<Os> {
    if s == "linux" then Some(Linux)
    else if s == "linux-deb" then Some(LinuxDeb)
    else if s == "linux-rpm" then Some(LinuxRpm)
    else if s == "linux-snap" then Some(LinuxSnap)
    else if s == "darwin" then Some(Darwin)
    else if s == "win32" then Some(Win32)
    else if s == "alpine" then Some(Alpine)
    else None
  }

  function ParseOsArch(kind: ArtifactType, body: string, flavor: Option<Flavor>): Option<ArtifactProps> {
    match SplitArch(body)
    case None => None
    case Some((osText, arch)) =>
      match ParseOs(osText)
      case None => None
      case Some(os) => Some(ArtifactProps(kind, arch, os, flavor))
  }

  /** The properties a name was formed from, if any. */
  function ParseName(name: string): Option<ArtifactProps> {
    var (kind, rest) := SplitType(name);
    var (body, flavor) := SplitFlavor(rest);
    ParseOsArch(kind, body, flavor)
  }

  lemma OsTextShape(o: Os)
    ensures |OsText(o)| > 0 && OsText(o)[0] in "ldwa"
    ensures ParseOs(OsText(o)) == Some(o)
  {
  }

  lemma ArchTextShape(a: Arch)
    ensures |ArchText(a)| > 0 && ArchText(a)[|ArchText(a)| - 1] in "4f"
  {
  }

  lemma PrefixSlices(w: string, x: string)
    ensures StartsWith(w + x, w) && (w + x)[|w|..] == x
  {
    assert (w + x)[..|w|] == w;
  }

  lemma SuffixSlices(y: string, w: string)
    ensures EndsWith(y + w, w) && (y + w)[..|y + w| - |w|] == y
  {
    assert (y + w)[|y + w| - |w|..] == w;
  }

  /** One differing character rules a prefix out. */
  lemma NotStartsWith(s: string, w: string, k: nat)
    requires k < |w| && k < |s| && s[k] != w[k]
    ensures !StartsWith(s, w)
  {
    if |s| >= |w| {
      assert s[..|w|][k] == s[k];
    }
  }

  /** One differing character, counted from the end, rules a suffix out. */
  lemma NotEndsWith(s: string, w: string, k: nat)
    requires 0 < k <= |w| && k <= |s| && s[|s| - k] != w[|w| - k]
    ensures !EndsWith(s, w)
  {
    if |s| >= |w| {
      assert s[|s| - |w|..][|w| - k] == s[|s| - k];
    }
  }

  lemma SplitTypeOfPrefix(t: ArtifactType, x: string)
    requires |x| > 0 && x[0] in "ldwa"
    ensures SplitType(TypePrefix(t) + x) == (t, x)
  {
    var n := TypePrefix(t) + x;
    if t == Cli {
      PrefixSlices("cli-", x);
    } else if t == Server {
      PrefixSlices("server-", x);
      NotStartsWith(n, "cli-", 0);
    } else {
      assert n == x;
      NotStartsWith(n, "cli-", 0);
      NotStartsWith(n, "server-", 0);
    }
  }

  lemma SplitFlavorNone(y: string)
    requires |y| > 0 && y[|y| - 1] in "4f"
    ensures SplitFlavor(y) == (y, None)
  {
    if |y| >= 4 {
      NotEndsWith(y, "-web", 1);
      NotEndsWith(y, "-user", 1);
      NotEndsWith(y, "-archive", 1);
    }
  }

  lemma SplitFlavorOfSuffix(y: string, f: Option<Flavor>)
    requires |y| > 0 && y[|y| - 1] in "4f"
    ensures SplitFlavor(y + FlavorSuffix(f)) == (y, f)
  {
    match f {
      case Some(Web) =>
        assert y + FlavorSuffix(f) == y + "-web";
        SplitFlavorWeb(y);
      case Some(User) =>
        assert y + FlavorSuffix(f) == y + "-user";
        SplitFlavorUser(y);
      case Some(Archive) =>
        assert y + FlavorSuffix(f) == y + "-archive";
        SplitFlavorArchive(y);
      case None =>
        assert y + FlavorSuffix(f) == y;
        SplitFlavorNone(y);
    }
  }

  lemma SplitFlavorWeb(y: string)
    ensures SplitFlavor(y + "-web") == (y, Some(Web))
  {
    SuffixSlices(y, "-web");
  }

  lemma SplitFlavorUser(y: string)
    ensures SplitFlavor(y + "-user") == (y, Some(User))
  {
    SuffixSlices(y, "-user");
    NotEndsWith(y + "-user", "-web", 1);
  }

  lemma SplitFlavorArchive(y: string)
    ensures SplitFlavor(y + "-archive") == (y, Some(Archive))
  {
    SuffixSlices(y, "-archive");
    NotEndsWith(y + "-archive", "-web", 1);
    NotEndsWith(y + "-archive", "-user", 1);
  }

  lemma SplitArchOfSuffix(z: string, a: Arch)
    ensures SplitArch(z + "-" + ArchText(a)) == Some((z, a))
  {
    match a {
      case X64 =>
        assert z + "-" + ArchText(a) == z + "-x64";
        SplitArchX64(z);
      case Arm64 =>
        assert z + "-" + ArchText(a) == z + "-arm64";
        SplitArchArm64(z);
      case Armhf =>
        assert z + "-" + ArchText(a) == z + "-armhf";
        SplitArchArmhf(z);
    }
  }

  lemma SplitArchX64(z: string)
    ensures SplitArch(z + "-x64") == Some((z, X64))
  {
    SuffixSlices(z, "-x64");
  }

  lemma SplitArchArm64(z: string)
    ensures SplitArch(z + "-arm64") == Some((z, Arm64))
  {
    SuffixSlices(z, "-arm64");
    NotEndsWith(z + "-arm64", "-x64", 3);
  }

  lemma SplitArchArmhf(z: string)
    ensures SplitArch(z + "-armhf") == Some((z, Armhf))
  {
    SuffixSlices(z, "-armhf");
    NotEndsWith(z + "-armhf", "-x64", 1);
    NotEndsWith(z + "-armhf", "-arm64", 1);
  }

  /** The formed name determines the properties: ParseName inverts FormName. */
  lemma ParseFormName(p: ArtifactProps)
    ensures ParseName(FormName(p)) == Some(p)
  {
    var osArch := OsText(p.os) + "-" + ArchText(p.arch);
    var x := osArch + FlavorSuffix(p.flavor);
    assert FormName(p) == TypePrefix(p.kind) + x;
    OsTextShape(p.os);
    ArchTextShape(p.arch);
    assert x[0] == OsText(p.os)[0];
    SplitTypeOfPrefix(p.kind, x);
    assert SplitType(FormName(p)) == (p.kind, x);
    assert osArch[|osArch| - 1] == ArchText(p.arch)[|ArchText(p.arch)| - 1];
    SplitFlavorOfSuffix(osArch, p.flavor);
    assert SplitFlavor(x) == (osArch, p.flavor);
    SplitArchOfSuffix(OsText(p.os), p.arch);
    assert ParseOsArch(p.kind, osArch, p.flavor) == Some(p);
  }

  /** Two different sets of properties never form the same name. */
  lemma FormNameInjective(p: ArtifactProps, q: ArtifactProps)
    requires FormName(p) == FormName(q)
    ensures p == q
  {
    ParseFormName(p);
    ParseFormName(q);
  }

  /** A successfully built name is the one formed from its props, and only those props build it. */
  lemma BuildDeterminesProps(p: ArtifactProps, q: ArtifactProps)
    requires Build(p).Success? && Build(q).Success?
    requires Build(p).value.name == Build(q).value.name
    ensures p == q
  {
    FormNameInjective(p, q);
  }

  /** A name that does not parse is never formed. */
  lemma UnparsedNeverFormed(p: ArtifactProps, name: string)
    requires ParseName(name) == None
    ensures FormName(p) != name
  {
    ParseFormName(p);
  }

  /** Neither `darwin` nor `server-darwin` ends in an arch. */
  lemma DarwinNamesUnparsed()
    ensures ParseName("darwin") == None && ParseName("server-darwin") == None
  {
    NotStartsWith("darwin", "cli-", 0);
    NotStartsWith("darwin", "server-", 0);
    PrefixSlices("server-", "darwin");
    NotEndsWith("darwin", "-web", 1);
    NotEndsWith("darwin", "-user", 1);
    NotEndsWith("darwin", "-archive", 1);
    NotEndsWith("darwin", "-x64", 1);
    NotEndsWith("darwin", "-arm64", 1);
    NotEndsWith("darwin", "-armhf", 1);
  }

  /**
   * The published names for the Intel-mac desktop build and server carry no arch, so `build`
   * can never return them, while the names it forms for those builds are rejected.
   */
  lemma DarwinX64Unbuildable(p: ArtifactProps)
    ensures FormName(p) != "darwin" && FormName(p) != "server-darwin"
  {
    DarwinNamesUnparsed();
    UnparsedNeverFormed(p, "darwin");
    UnparsedNeverFormed(p, "server-darwin");
  }

  /** The desktop build for Intel macs is rejected. */
  lemma BuildRejectsDarwinX64()
    ensures Build(ArtifactProps(Desktop, X64, Darwin, None)) == Failure("Invalid artifact name: darwin-x64")
  {
    assert FormName(ArtifactProps(Desktop, X64, Darwin, None)) == "darwin-x64";
    DarwinX64Unpublished();
  }

  lemma DarwinX64Unpublished()
    ensures "darwin-x64" !in ValidNames
  {
    assert "darwin-x64" !in ValidNames0 && "darwin-x64" !in ValidNames1;
    assert "darwin-x64" !in ValidNames2 && "darwin-x64" !in ValidNames3;
  }

  /** The Windows x64 user installer is accepted. */
  lemma BuildAcceptsWin32UserInstaller()
    ensures Build(ArtifactProps(Desktop, X64, Win32, Some(User))) ==
            Success(VsCodeArtifactName("win32-x64-user", ArtifactProps(Desktop, X64, Win32, Some(User))))
  {
    assert FormName(ArtifactProps(Desktop, X64, Win32, Some(User))) == "win32-x64-user";
    assert ValidNames3[10] == "win32-x64-user";
  }

  // ---------------------------------------------------------------------------------------
  // Reading a reference back

  predicate NoChar(s: string, c: char) {
    forall i :: 0 <= i < |s| ==> s[i] != c
  }

  /** In `a + [sep] + b` with no separator in `a`, the first separator is at index `|a|`. */
  lemma FirstSeparator(a: string, b: string, sep: char)
    requires NoChar(a, sep)
    ensures (a + [sep] + b)[|a|] == sep
    ensures forall i :: 0 <= i < |a| ==> (a + [sep] + b)[i] != sep
  {
  }

  /** Splitting at the first separator: the part before it cannot contain the separator. */
  lemma SplitAtSeparator(a: string, b: string, c: string, d: string, sep: char)
    requires NoChar(a, sep) && NoChar(c, sep)
    requires a + [sep] + b == c + [sep] + d
    ensures a == c && b == d
  {
    var s := a + [sep] + b;
    FirstSeparator(a, b, sep);
    FirstSeparator(c, d, sep);
    assert |a| == |c|;
    assert a == s[..|a|] && c == s[..|c|];
    assert b == s[|a| + 1..] && d == (c + [sep] + d)[|c| + 1..];
  }

  lemma StabilityTextInjective(s: Stability, t: Stability)
    requires StabilityText(s) == StabilityText(t)
    ensures s == t
  {
  }

  /** Commit hashes and artifact names contain neither separator. */
  predicate WellFormedRef(r: ArtifactRef) {
    && NoChar(r.commit, '/') && NoChar(r.commit, '_')
    && NoChar(r.artifact.name, '/') && NoChar(r.artifact.name, '_')
  }

  lemma Regroup(a: string, b: string, c: string, d: string, sep: char)
    ensures a + b + [sep] + c + [sep] + d == a + (b + [sep] + (c + [sep] + d))
  {
  }

  /** The download-info URL identifies the commit, the artifact name and the stability. */
  lemma DownloadInfoUrlInjective(r: ArtifactRef, s: ArtifactRef)
    requires WellFormedRef(r) && WellFormedRef(s)
    requires GetDownloadInfoUrl(r) == GetDownloadInfoUrl(s)
    ensures r.commit == s.commit && r.artifact.name == s.artifact.name && r.stability == s.stability
  {
    var u := UpdateServiceVersions;
    var tailR := r.artifact.name + "/" + StabilityText(r.stability);
    var tailS := s.artifact.name + "/" + StabilityText(s.stability);
    var restR := r.commit + ['/'] + tailR;
    var restS := s.commit + ['/'] + tailS;
    Regroup(u, r.commit, r.artifact.name, StabilityText(r.stability), '/');
    Regroup(u, s.commit, s.artifact.name, StabilityText(s.stability), '/');
    PrefixSlices(u, restR);
    PrefixSlices(u, restS);
    SplitAtSeparator(r.commit, tailR, s.commit, tailS, '/');
    SplitAtSeparator(r.artifact.name, StabilityText(r.stability), s.artifact.name, StabilityText(s.stability), '/');
    StabilityTextInjective(r.stability, s.stability);
  }

  /** The `commit_artifact_stability` text identifies the reference in the same way. */
  lemma RefToStringInjective(r: ArtifactRef, s: ArtifactRef)
    requires WellFormedRef(r) && WellFormedRef(s)
    requires RefToString(r) == RefToString(s)
    ensures r.commit == s.commit && r.artifact.name == s.artifact.name && r.stability == s.stability
  {
    var tailR := r.artifact.name + "_" + StabilityText(r.stability);
    var tailS := s.artifact.name + "_" + StabilityText(s.stability);
    assert RefToString(r) == r.commit + ['_'] + tailR;
    assert RefToString(s) == s.commit + ['_'] + tailS;
    SplitAtSeparator(r.commit, tailR, s.commit, tailS, '_');
    SplitAtSeparator(r.artifact.name, StabilityText(r.stability), s.artifact.name, StabilityText(s.stability), '_');
    StabilityTextInjective(r.stability, s.stability);
  }

  /** The supported platforms read back to the os whose text they are. */
  lemma GetOsRoundTrip(o: Os)
    requires o in {Win32, Darwin, Linux}
    ensures GetOs(OsText(o)) == Success(o)
  {
  }
}
