/**
 * The static class `LibreOffice`: platform dispatch of discovery, derivation of the
 * `soffice` path, the two compute-once cells, and the construction of the conversion
 * process request.
 */
module LibreOfficeSmith {
  import opened Wrappers
  import opened Strings
  import opened Platform
  import opened Paths
  import opened RegistrySearch
  import opened BundleSearch

  /** What discovery reads from the machine: the registry and the tree under `/Applications`. */
  datatype Host = Host(registry: Registry, applications: Dir)

  const ValidExtensions: seq<string> := [
    ".txt", ".html",
    ".doc", ".docs", ".xls", ".xlsx", ".ppt", ".pptx",
    ".odt", ".ods", ".odp", ".odg", ".odc", ".odf", ".odi"
  ]

  const WindowsProgram := "program\\soffice"
  const MacProgram := "Contents/MacOS/soffice"
  const ConvertFlags := "-norestore -nologo -nofirststartwizard -headless -convert-to pdf "
  const DefaultOutputDirectory := "./"

  /** The supported extensions are distinct and each is what `Path.GetExtension` can return, on every platform. */
  lemma SupportedFileKindsWellFormed(os: OS)
    ensures forall i, j :: 0 <= i < j < |ValidExtensions| ==> ValidExtensions[i] != ValidExtensions[j]
    ensures forall i :: 0 <= i < |ValidExtensions| ==> IsExtensionShaped(os, ValidExtensions[i])
  {
  }

  /** The installLocation factory: registry search with fallback, bundle search, or NotSupported. */
  function InstallLocationOf(os: OS, host: Host): (r: Result<Option<string>>)
    ensures r.Err? <==> os == Linux || os == Other
    ensures os == Linux ==> r == Err(NotSupported(LinuxMessage))
    ensures os == Other ==> r == Err(NotSupported(OnlySupportedMessage))
    ensures os == MacOS ==> r == Ok(Find(host.applications))
    ensures os == Windows ==> r == Ok(WindowsInstallLocation(host.registry))
  {
    match os
    case Windows => Ok(WindowsInstallLocation(host.registry))
    case MacOS => Ok(Find(host.applications))
    case Linux => Err(NotSupported(LinuxMessage))
    case Other => Err(NotSupported(OnlySupportedMessage))
  }

  /**
   * The programPath factory, given the outcome of reading InstallLocation. The OS test comes
   * first, so on an unknown OS the location is not read; an exception from reading it propagates.
   */
  function ProgramPathFrom(os: OS, location: Result<Option<string>>): (r: Result<string>)
    ensures os == Other ==> r == Err(NotSupported(OnlySupportedMessage))
    ensures os != Other && location.Err? ==> r == Err(location.error)
    ensures r.Ok? ==> location.Ok? && location.value.Some? && StartsWith(r.value, location.value.value)
  {
    if os == Other then Err(NotSupported(OnlySupportedMessage))
    else match location
      case Err(e) => Err(e)
      case Ok(None) => Err(FileNotFound(NotInstalledMessage))
      case Ok(Some(loc)) =>
        match os
        case Windows => Ok(Combine(os, loc, WindowsProgram))
        case MacOS => Ok(Combine(os, loc, MacProgram))
        case Linux => Err(NotSupported(LinuxMessage))
        case Other => Err(InvalidOperation(""))
  }

  /** The program path of a process whose cells are filled from `host`. */
  function ProgramPathOf(os: OS, host: Host): Result<string> {
    ProgramPathFrom(os, InstallLocationOf(os, host))
  }

  /** `Exists`: whether InstallLocation is non-null; an exception from reading it propagates. */
  function ExistsFrom(location: Result<Option<string>>): (r: Result<bool>)
    ensures r.Ok? <==> location.Ok?
    ensures r.Ok? ==> (r.value <==> location.value.Some?)
    ensures r.Err? ==> r.error == location.error
  {
    match location
    case Err(e) => Err(e)
    case Ok(loc) => Ok(loc.Some?)
  }

  /** On macOS, Exists is true exactly when some directory the search visits ends in "LibreOffice.app". */
  lemma ExistsOnMacOS(host: Host)
    ensures var listing := Listing(host.applications);
      ExistsFrom(InstallLocationOf(MacOS, host)) == Ok(true)
      <==> exists k :: 0 <= k < |listing| && EndsWith(listing[k], BundleName)
    ensures ExistsFrom(InstallLocationOf(MacOS, host)).Ok?
  {
    FindIsFirstInPreOrder(host.applications);
  }

  /**
   * On Windows, Exists is false exactly when neither root key yields a location, and when it
   * is true some matching sub-key of one of the two roots records an InstallLocation.
   */
  lemma ExistsOnWindows(host: Host)
    ensures var reg := host.registry;
      ExistsFrom(InstallLocationOf(Windows, host)) == Ok(false)
      <==> Lookup(reg, UninstallKey).None? && Lookup(reg, UninstallKey86).None?
    ensures var reg := host.registry;
      ExistsFrom(InstallLocationOf(Windows, host)) == Ok(true) ==>
        exists root :: (
          (root == UninstallKey || root == UninstallKey86) && root in reg
          && exists j :: 0 <= j < |reg[root]| && IsLibreOffice(reg[root][j]) && reg[root][j].installLocation.Some?)
  {
    if ExistsFrom(InstallLocationOf(Windows, host)) == Ok(true) {
      WindowsFoundInARoot(host.registry);
    }
  }

  /** On Linux or an unknown OS both lookups fail with NotSupported, never with absent or FileNotFound. */
  lemma UnsupportedPlatform(os: OS, host: Host)
    requires os == Linux || os == Other
    ensures InstallLocationOf(os, host).Err? && InstallLocationOf(os, host).error.NotSupported?
    ensures ProgramPathOf(os, host).Err? && ProgramPathOf(os, host).error.NotSupported?
    ensures ExistsFrom(InstallLocationOf(os, host)).Err?
  {
  }

  /** On Windows and macOS the program path fails, with FileNotFound, exactly when the location is absent. */
  lemma NotInstalledExactlyWhenAbsent(os: OS, host: Host)
    requires os == Windows || os == MacOS
    ensures ProgramPathOf(os, host).Err? <==> InstallLocationOf(os, host) == Ok(None)
    ensures ProgramPathOf(os, host).Err? ==> ProgramPathOf(os, host) == Err(FileNotFound(NotInstalledMessage))
    ensures ProgramPathOf(os, host).Ok? <==> ExistsFrom(InstallLocationOf(os, host)) == Ok(true)
  {
  }

  /** The program path is the install location with the platform's relative `soffice` path appended. */
  lemma ProgramPathSuffix(os: OS, host: Host)
    requires InstallLocationOf(os, host).Ok? && InstallLocationOf(os, host).value.Some?
    ensures var loc := InstallLocationOf(os, host).value.value;
      ProgramPathOf(os, host) == Ok(Combine(os, loc, if os == Windows then WindowsProgram else MacProgram))
    ensures StartsWith(ProgramPathOf(os, host).value, InstallLocationOf(os, host).value.value)
    ensures os == Windows ==> EndsWith(ProgramPathOf(os, host).value, WindowsProgram)
    ensures os == MacOS ==> EndsWith(ProgramPathOf(os, host).value, MacProgram)
  {
  }

  /** The macOS bundle in `/Applications` gives `/Applications/LibreOffice.app/Contents/MacOS/soffice`. */
  lemma MacProgramPathExample(host: Host)
    requires InstallLocationOf(MacOS, host) == Ok(Some("/Applications/LibreOffice.app"))
    ensures ProgramPathOf(MacOS, host) == Ok("/Applications/LibreOffice.app/Contents/MacOS/soffice")
  {
    var loc := "/Applications/LibreOffice.app";
    assert loc[|loc| - 1] == 'p' && MacProgram[0] == 'C';
    assert loc + ['/'] + MacProgram == "/Applications/LibreOffice.app/Contents/MacOS/soffice";
  }

  /** What is handed to `Process`: FileName, Arguments and WorkingDirectory. */
  datatype StartInfo = StartInfo(fileName: string, arguments: string, workingDirectory: string)

  /** The extension test of ConvertToPdfAsync: exact, case-sensitive membership. */
  predicate IsSupported(os: OS, source: string): (b: bool)
    ensures b <==> exists i :: 0 <= i < |ValidExtensions| && Extension(os, source) == ValidExtensions[i]
    ensures b ==> IsExtensionShaped(os, Extension(os, source)) && EndsWith(source, Extension(os, source))
  {
    Extension(os, source) in ValidExtensions
  }

  /** The argument string: the fixed flags and the quoted absolute source path. */
  function Arguments(src: string): (r: string)
    ensures StartsWith(r, ConvertFlags + "\"") && EndsWith(r, "\"")
    ensures |r| == |ConvertFlags| + |src| + 2
  {
    ConvertFlags + "\"" + src + "\""
  }

  /** Reads the source path back out of an argument string. */
  function QuotedSource(arguments: string): Option<string> {
    var prefix := ConvertFlags + "\"";
    if |arguments| > |prefix| && StartsWith(arguments, prefix) && arguments[|arguments| - 1] == '"' then
      Some(arguments[|prefix|..|arguments| - 1])
    else
      None
  }

  /**
   * The source path is recovered from the argument string, so distinct sources give distinct
   * arguments. This is a fact about the string only: an embedded `"` is not escaped, and the
   * converter's own command-line parsing would split the path there.
   */
  lemma ArgumentsRoundTrip(src: string)
    ensures QuotedSource(Arguments(src)) == Some(src)
  {
  }

  /**
   * ConvertToPdfAsync up to spawning, given the outcome of reading ProgramPath and the
   * `Path.GetFullPath` of the process.
   */
  function ConvertRequest(os: OS, source: string, outputDirectory: string, fullPath: string -> string,
                          programPath: Result<string>): (r: Result<StartInfo>)
    ensures !IsSupported(os, source) ==> r == Err(NotSupported(UnsupportedTypeMessage(Extension(os, source))))
    ensures IsSupported(os, source) && programPath.Err? ==> r == Err(programPath.error)
    ensures r.Ok? <==> IsSupported(os, source) && programPath.Ok?
    ensures r.Ok? ==> r.value.fileName == programPath.value
                      && r.value.arguments == Arguments(fullPath(source))
                      && QuotedSource(r.value.arguments) == Some(fullPath(source))
                      && r.value.workingDirectory == fullPath(outputDirectory)
  {
    if !IsSupported(os, source) then
      Err(NotSupported(UnsupportedTypeMessage(Extension(os, source))))
    else
      match programPath
      case Err(e) => Err(e)
      case Ok(p) =>
        ArgumentsRoundTrip(fullPath(source));
        Ok(StartInfo(p, Arguments(fullPath(source)), fullPath(outputDirectory)))
  }

  /** An unsupported extension is reported whatever the program path would be: it takes precedence over FileNotFound. */
  lemma ValidationPrecedence(os: OS, source: string, outputDirectory: string, fullPath: string -> string,
                             p1: Result<string>, p2: Result<string>)
    requires !IsSupported(os, source)
    ensures ConvertRequest(os, source, outputDirectory, fullPath, p1)
         == ConvertRequest(os, source, outputDirectory, fullPath, p2)
  {
  }

  /** Every file whose name ends in a supported extension reaches the spawn step once the program path is known. */
  lemma SupportedExtensionReachesSpawn(os: OS, stem: string, i: nat, outputDirectory: string,
                                       fullPath: string -> string, program: string)
    requires i < |ValidExtensions|
    ensures ConvertRequest(os, stem + ValidExtensions[i], outputDirectory, fullPath, Ok(program))
         == Ok(StartInfo(program, Arguments(fullPath(stem + ValidExtensions[i])), fullPath(outputDirectory)))
  {
    SupportedFileKindsWellFormed(os);
    ExtensionOfAppended(os, stem, ValidExtensions[i]);
  }

  /** The list has ".docs" and not ".docx", so a ".docx" file is rejected. */
  lemma DocxRejected(os: OS, outputDirectory: string, fullPath: string -> string, program: Result<string>)
    ensures ConvertRequest(os, "report.docx", outputDirectory, fullPath, program)
         == Err(NotSupported(UnsupportedTypeMessage(".docx")))
  {
    ExtensionOfAppended(os, "report", ".docx");
    assert "report" + ".docx" == "report.docx";
    assert forall i :: 0 <= i < |ValidExtensions| ==> ValidExtensions[i] != ".docx" by {
      forall i | 0 <= i < |ValidExtensions| ensures ValidExtensions[i] != ".docx" {
        assert |ValidExtensions[i]| != 5 || ValidExtensions[i][1] != 'd' || ValidExtensions[i][4] != 'x';
      }
    }
  }

  /** The comparison is case-sensitive, so an upper-case ".DOC" is rejected. */
  lemma UpperCaseRejected(os: OS, outputDirectory: string, fullPath: string -> string, program: Result<string>)
    ensures ConvertRequest(os, "REPORT.DOC", outputDirectory, fullPath, program)
         == Err(NotSupported(UnsupportedTypeMessage(".DOC")))
  {
    ExtensionOfAppended(os, "REPORT", ".DOC");
    assert "REPORT" + ".DOC" == "REPORT.DOC";
    assert forall i :: 0 <= i < |ValidExtensions| ==> ValidExtensions[i] != ".DOC" by {
      forall i | 0 <= i < |ValidExtensions| ensures ValidExtensions[i] != ".DOC" {
        assert ValidExtensions[i][1] != 'D';
      }
    }
  }

  /** The installLocation factory as `LibreOffice.cs` runs it: two registry searches, or the bundle walk. */
  method FindInstallLocation(os: OS, host: Host) returns (r: Result<Option<string>>)
    ensures r == InstallLocationOf(os, host)
  {
    if os == Windows {
      var dir := FindInstallDirectoryInner(os, host.registry, UninstallKey);
      if dir.None? {
        dir := FindInstallDirectoryInner(os, host.registry, UninstallKey86);
      }
      return Ok(dir);
    }
    if os == MacOS {
      var app := FindLibreOfficeApp(host.applications);
      return Ok(app);
    }
    if os == Linux {
      return Err(NotSupported(LinuxMessage));
    }
    return Err(NotSupported(OnlySupportedMessage));
  }

  /**
   * The process-wide state: the two `Lazy` cells, each empty until first read and then holding
   * the factory's value or the exception it threw. The host is read from the argument of the
   * call that first runs a factory; later calls see the cached outcome whatever the host then is.
   */
  class LibreOffice {
    const os: OS
    var installLocation: Option<Result<Option<string>>>
    var programPath: Option<Result<string>>
    ghost var installSearches: nat
    ghost var programDerivations: nat

    ghost predicate Valid()
      reads this
    {
      installSearches == (if installLocation.Some? then 1 else 0)
      && programDerivations == (if programPath.Some? then 1 else 0)
      && (programPath.Some? && os == Other ==> programPath.value == Err(NotSupported(OnlySupportedMessage)))
      && (programPath.Some? && os != Other ==>
            installLocation.Some? && programPath.value == ProgramPathFrom(os, installLocation.value))
    }

    /** What reading InstallLocation yields now: the cached outcome, or the factory run on `host`. */
    ghost function InstallValue(host: Host): Result<Option<string>>
      reads this
    {
      if installLocation.Some? then installLocation.value else InstallLocationOf(os, host)
    }

    /** What reading ProgramPath yields now. */
    ghost function ProgramValue(host: Host): Result<string>
      reads this
    {
      if programPath.Some? then programPath.value else ProgramPathFrom(os, InstallValue(host))
    }

    constructor (os: OS)
      ensures Valid() && this.os == os
      ensures installLocation == None && programPath == None
    {
      this.os := os;
      installLocation := None;
      programPath := None;
      installSearches := 0;
      programDerivations := 0;
    }

    /** `InstallLocation`: runs the search on the first read only; every later read returns that outcome. */
    method InstallLocation(host: Host) returns (r: Result<Option<string>>)
      requires Valid()
      modifies this
      ensures Valid()
      ensures r == old(InstallValue(host))
      ensures installLocation == Some(r) && programPath == old(programPath)
      ensures installSearches == 1
    {
      if installLocation.None? {
        var location := FindInstallLocation(os, host);
        installLocation := Some(location);
        installSearches := installSearches + 1;
      }
      r := installLocation.value;
    }

    /** `ProgramPath`: derives the path on the first read only; reads InstallLocation unless the OS is unknown. */
    method ProgramPath(host: Host) returns (r: Result<string>)
      requires Valid()
      modifies this
      ensures Valid()
      ensures r == old(ProgramValue(host))
      ensures programPath == Some(r)
      ensures installLocation == if os == Other then old(installLocation) else Some(old(InstallValue(host)))
      ensures installSearches <= 1 && programDerivations == 1
    {
      if programPath.None? {
        var path;
        if os == Other {
          path := Err(NotSupported(OnlySupportedMessage));
        } else {
          var location := InstallLocation(host);
          path := ProgramPathFrom(os, location);
        }
        programPath := Some(path);
        programDerivations := programDerivations + 1;
      }
      r := programPath.value;
    }

    /** `Exists`: whether InstallLocation is non-null; it reads, and so fills, the install cell. */
    method Exists(host: Host) returns (r: Result<bool>)
      requires Valid()
      modifies this
      ensures Valid()
      ensures r == ExistsFrom(old(InstallValue(host)))
      ensures installLocation == Some(old(InstallValue(host))) && programPath == old(programPath)
    {
      var location := InstallLocation(host);
      r := ExistsFrom(location);
    }

    /**
     * `ConvertToPdfAsync` up to `process.Start()`: the extension test first, then ProgramPath,
     * then the process request. A rejected extension leaves both cells untouched.
     */
    method ConvertToPdf(host: Host, fullPath: string -> string, source: string,
                        outputDirectory: string := DefaultOutputDirectory)
      returns (r: Result<StartInfo>)
      requires Valid()
      modifies this
      ensures Valid()
      ensures r == ConvertRequest(os, source, outputDirectory, fullPath, old(ProgramValue(host)))
      ensures !IsSupported(os, source) ==> unchanged(this)
      ensures IsSupported(os, source) ==> programPath == Some(old(ProgramValue(host)))
      ensures IsSupported(os, source) ==>
        installLocation == if os == Other then old(installLocation) else Some(old(InstallValue(host)))
    {
      var extension := Extension(os, source);
      if extension !in ValidExtensions {
        return Err(NotSupported(UnsupportedTypeMessage(extension)));
      }
      var libreoffice := ProgramPath(host);
      if libreoffice.Err? {
        return Err(libreoffice.error);
      }
      var src := fullPath(source);
      var working := fullPath(outputDirectory);
      r := Ok(StartInfo(libreoffice.value, Arguments(src), working));
    }
  }

  /**
   * Two reads of Exists in one process agree even when the machine changes in between
   * (LibreOffice installed after the first read): the first outcome, absent included, is kept.
   */
  method ExistsIsStable(os: OS, first: Host, later: Host) returns (before: Result<bool>, after: Result<bool>)
    ensures before == after
    ensures before == ExistsFrom(InstallLocationOf(os, first))
  {
    var office := new LibreOffice(os);
    before := office.Exists(first);
    after := office.Exists(later);
  }

  /** Two reads of ProgramPath agree, and a later InstallLocation read matches what the path was derived from. */
  method ProgramPathIsStable(os: OS, first: Host, later: Host)
    returns (before: Result<string>, after: Result<string>, location: Result<Option<string>>)
    ensures before == after && before == ProgramPathOf(os, first)
    ensures os != Other ==> location == InstallLocationOf(os, first)
    ensures os == Other ==> location == InstallLocationOf(os, later)
  {
    var office := new LibreOffice(os);
    before := office.ProgramPath(first);
    after := office.ProgramPath(later);
    location := office.InstallLocation(later);
  }

  /**
   * A conversion with a supported extension fills the install cell on a known OS, so a later
   * Exists reports the machine as it was at the conversion; otherwise the later read searches.
   */
  method ExistsAfterConversion(os: OS, first: Host, later: Host, fullPath: string -> string, source: string)
    returns (converted: Result<StartInfo>, installed: Result<bool>)
    ensures converted == ConvertRequest(os, source, DefaultOutputDirectory, fullPath, ProgramPathOf(os, first))
    ensures IsSupported(os, source) && os != Other ==> installed == ExistsFrom(InstallLocationOf(os, first))
    ensures !IsSupported(os, source) || os == Other ==> installed == ExistsFrom(InstallLocationOf(os, later))
  {
    var office := new LibreOffice(os);
    converted := office.ConvertToPdf(first, fullPath, source);
    installed := office.Exists(later);
  }
}
