# LibreOfficeSmith locator and converter, modelled in Dafny

LibreOfficeSmith turns office documents into PDF by running LibreOffice's `soffice` headless.
Its static class `LibreOffice` has two jobs. It finds the LibreOffice installation: on Windows
from the uninstall-registration keys of the registry, on macOS by walking `/Applications` for
`LibreOffice.app`. It then derives the `soffice` path and memoises both results in `Lazy`
cells. `ConvertToPdfAsync` checks the file extension against a fixed list, builds the command
line and starts the process in the output directory.

The model puts plain data where the code uses the operating system:
- the OS family is a parameter (`Platform.OS`: Windows, MacOS, Linux, Other);
- the registry is a map from root-key path to its sub-keys in enumeration order;
- `/Applications` is a finite tree of `Dir(path, children)`;
- `Path.GetFullPath` is a function supplied by the caller;
- the process is the `StartInfo` record of FileName, Arguments and WorkingDirectory.

The two `Lazy` cells are fields of the class `LibreOfficeSmith.LibreOffice`. Each stays empty
until its first read, and then holds the factory's value or the exception the factory threw. A
`Lazy<T>` built from a factory in the default thread-safety mode caches exceptions as well as
values, so the model caches both. The machine (`Host`) is an argument of every read. That makes
it visible that only the first read searches: an absent (`null`) location found then is kept
even if LibreOffice is installed later (`ExistsIsStable`).

Modules: `Wrappers` (Option), `Strings` (ordinal prefix/suffix tests), `Platform` (OS, exception
kinds and messages), `Paths` (`Path.Combine`, `Path.GetExtension`), `RegistrySearch` (Windows
strategy), `BundleSearch` (macOS strategy), `LibreOfficeSmith` (dispatch, the cells and the
conversion request).

Behaviour of the code worth noting:
- missing program path: the code throws `FileNotFoundException` ("LibreOffice is not installed");
- Linux: the code throws `NotSupportedException`, and `Exists` then throws too;
- a cached absent location is never retried;
- the extension list holds ".docs", not ".docx", so `report.docx` is rejected (`DocxRejected`);
- on an OS outside Windows, macOS and Linux, reading `ProgramPath` throws before
  `InstallLocation` is read, so the install cell stays empty.

## Model

| member | source | states |
|---|---|---|
| Platform.UnsupportedTypeMessage | src/LibreOfficeSmith.Csharp/LibreOffice.cs:139 | the unsupported-type message names the offending extension |
| Paths.Combine | src/LibreOfficeSmith.Csharp/LibreOffice.cs:43-46 | the joined path starts with the install location and ends with the relative program path |
| Paths.Extension | src/LibreOfficeSmith.Csharp/LibreOffice.cs:138 | the extension is empty, or a dot and at least one character with no further dot or separator, and a suffix of the path |
| Paths.ExtensionOfAppended | src/LibreOfficeSmith.Csharp/LibreOffice.cs:138 | any path ending in an extension-shaped suffix has exactly that suffix as its extension |
| Paths.ExtensionIsTail | src/LibreOfficeSmith.Csharp/LibreOffice.cs:138 | a non-empty extension is extension-shaped and the path is its stem followed by it |
| RegistrySearch.DisplayNameTakesPrecedence | src/LibreOfficeSmith.Csharp/LibreOffice.cs:93-98 | a sub-key with a DisplayName is matched by it whatever its key name, and only a sub-key without one is matched by its key name |
| RegistrySearch.FirstMatch | src/LibreOfficeSmith.Csharp/LibreOffice.cs:89-101 | a location found by the sub-key scan is the InstallLocation of some matching sub-key |
| RegistrySearch.Lookup | src/LibreOfficeSmith.Csharp/LibreOffice.cs:86-103 | a location found under a root key comes from a matching sub-key of that existing root key |
| RegistrySearch.WindowsInstallLocation | src/LibreOfficeSmith.Csharp/LibreOffice.cs:60-66 | a location from the primary root is the result; the result is absent exactly when both roots yield absent, and otherwise comes from one of them |
| RegistrySearch.FindInstallDirectoryInner | src/LibreOfficeSmith.Csharp/LibreOffice.cs:81-104 | the loop with early return yields the first-match search of the root key on Windows, and absent elsewhere |
| RegistrySearch.FirstMatchIsFirst | src/LibreOfficeSmith.Csharp/LibreOffice.cs:89-101 | the result is the InstallLocation, possibly absent, of the first sub-key whose name starts with "LibreOffice" |
| RegistrySearch.LaterKeysIgnored | src/LibreOfficeSmith.Csharp/LibreOffice.cs:97-100 | sub-keys after a matching one never change the result |
| RegistrySearch.NoMatchIsAbsent | src/LibreOfficeSmith.Csharp/LibreOffice.cs:89-103 | with no matching sub-key the result is absent |
| RegistrySearch.FoundIsFirstMatch | src/LibreOfficeSmith.Csharp/LibreOffice.cs:89-101 | a found location is that of a matching sub-key with no match before it |
| RegistrySearch.LookupNotFound | src/LibreOfficeSmith.Csharp/LibreOffice.cs:86-103 | a missing root key, or one with no matching sub-key, yields absent |
| RegistrySearch.PrimaryWins | src/LibreOfficeSmith.Csharp/LibreOffice.cs:62-65 | when the primary root yields a location, the WOW6432Node root's contents do not matter |
| RegistrySearch.FallbackToWow | src/LibreOfficeSmith.Csharp/LibreOffice.cs:62-65 | when the primary root is missing, has no match, or its first match lacks InstallLocation, the result is exactly the WOW6432Node root's |
| RegistrySearch.WindowsFoundInARoot | src/LibreOfficeSmith.Csharp/LibreOffice.cs:60-66 | a Windows location found is the InstallLocation of a matching sub-key under one of the two roots |
| BundleSearch.FindFrom | src/LibreOfficeSmith.Csharp/LibreOffice.cs:109-121 | any path the bundle search returns ends with "LibreOffice.app" |
| BundleSearch.Find | src/LibreOfficeSmith.Csharp/LibreOffice.cs:107-122 | a path found below the root ends with "LibreOffice.app", and a root without sub-directories yields absent |
| BundleSearch.FindLibreOfficeApp | src/LibreOfficeSmith.Csharp/LibreOffice.cs:107-122 | the recursive loop with early returns computes the bundle search |
| BundleSearch.FindFromIsFirstInListing | src/LibreOfficeSmith.Csharp/LibreOffice.cs:109-121 | the search equals the first "LibreOffice.app" of the pre-order listing that does not descend below ".app" directories |
| BundleSearch.FindIsFirstInPreOrder | src/LibreOfficeSmith.Csharp/LibreOffice.cs:109-121 | the result is absent exactly when no listed directory matches, and otherwise it is the first listed match |
| BundleSearch.NoDescentIntoApps | src/LibreOfficeSmith.Csharp/LibreOffice.cs:114-119 | deleting the contents of every ".app" directory does not change the result |
| LibreOfficeSmith.SupportedFileKindsWellFormed | src/LibreOfficeSmith.Csharp/LibreOffice.cs:17-28 | the fifteen supported extensions are distinct and each is extension-shaped |
| LibreOfficeSmith.InstallLocationOf | src/LibreOfficeSmith.Csharp/LibreOffice.cs:58-79 | discovery fails, with NotSupported, exactly on Linux and unknown OSes; on Windows it is the two-root registry search with fallback, and on macOS the bundle search |
| LibreOfficeSmith.FindInstallLocation | src/LibreOfficeSmith.Csharp/LibreOffice.cs:58-79 | the factory method, with its two registry searches or its bundle walk, computes the discovery outcome |
| LibreOfficeSmith.ProgramPathFrom | src/LibreOfficeSmith.Csharp/LibreOffice.cs:34-52 | an unknown OS fails before the location is read; an exception from the location propagates; a path is only derived from a present location and starts with it |
| LibreOfficeSmith.ExistsFrom | src/LibreOfficeSmith.Csharp/LibreOffice.cs:128 | Exists is true exactly when the location is present, and it throws the same exception when reading the location throws |
| LibreOfficeSmith.ExistsOnMacOS | src/LibreOfficeSmith.Csharp/LibreOffice.cs:68-71 | on macOS Exists does not throw, and is true exactly when some directory the search visits ends in "LibreOffice.app" |
| LibreOfficeSmith.ExistsOnWindows | src/LibreOfficeSmith.Csharp/LibreOffice.cs:60-66 | on Windows Exists is false exactly when neither root yields a location, and when true some matching sub-key of one root records an InstallLocation |
| LibreOfficeSmith.UnsupportedPlatform | src/LibreOfficeSmith.Csharp/LibreOffice.cs:36-78 | on Linux or an unknown OS the location and program path fail with NotSupported, never absent, and Exists throws |
| LibreOfficeSmith.NotInstalledExactlyWhenAbsent | src/LibreOfficeSmith.Csharp/LibreOffice.cs:39-40 | on Windows and macOS the program path fails, with FileNotFound, exactly when the location is absent |
| LibreOfficeSmith.ProgramPathSuffix | src/LibreOfficeSmith.Csharp/LibreOffice.cs:42-46 | the program path is the location joined with `program\soffice` on Windows and `Contents/MacOS/soffice` on macOS |
| LibreOfficeSmith.MacProgramPathExample | src/LibreOfficeSmith.Csharp/LibreOffice.cs:45-46 | `/Applications/LibreOffice.app` gives `/Applications/LibreOffice.app/Contents/MacOS/soffice` |
| LibreOfficeSmith.IsSupported | src/LibreOfficeSmith.Csharp/LibreOffice.cs:138 | a source is supported exactly when its extension equals one of the listed extensions; that extension is then extension-shaped and ends the path |
| LibreOfficeSmith.Arguments | src/LibreOfficeSmith.Csharp/LibreOffice.cs:147 | the argument string starts with the fixed flags and an opening quote, ends with a quote, and is two characters longer than flags and path |
| LibreOfficeSmith.ArgumentsRoundTrip | src/LibreOfficeSmith.Csharp/LibreOffice.cs:147 | the quoted source path is recovered from the argument string |
| LibreOfficeSmith.ConvertRequest | src/LibreOfficeSmith.Csharp/LibreOffice.cs:136-148 | an unsupported extension is rejected before the program path; a program-path exception propagates; otherwise the request has the program, the fixed arguments with the quoted absolute source, and the absolute output directory |
| LibreOfficeSmith.ValidationPrecedence | src/LibreOfficeSmith.Csharp/LibreOffice.cs:138-141 | for an unsupported extension the outcome does not depend on the program path at all |
| LibreOfficeSmith.SupportedExtensionReachesSpawn | src/LibreOfficeSmith.Csharp/LibreOffice.cs:138-148 | every file named with a supported extension reaches the process request once the program path is known |
| LibreOfficeSmith.DocxRejected | src/LibreOfficeSmith.Csharp/LibreOffice.cs:17-22 | `report.docx` is rejected as unsupported, because the list has ".docs" |
| LibreOfficeSmith.UpperCaseRejected | src/LibreOfficeSmith.Csharp/LibreOffice.cs:138-139 | the comparison is case-sensitive: `REPORT.DOC` is rejected |
| LibreOfficeSmith.LibreOffice.constructor | src/LibreOfficeSmith.Csharp/LibreOffice.cs:34-58 | both lazy cells start empty |
| LibreOfficeSmith.LibreOffice.InstallLocation | src/LibreOfficeSmith.Csharp/LibreOffice.cs:57-58 | the first read runs the search and caches its outcome, absent or exception included; later reads return it unchanged, with one search in all |
| LibreOfficeSmith.LibreOffice.ProgramPath | src/LibreOfficeSmith.Csharp/LibreOffice.cs:33-52 | the first read derives and caches the path, reading the install cell unless the OS is unknown; later reads return it unchanged |
| LibreOfficeSmith.LibreOffice.Exists | src/LibreOfficeSmith.Csharp/LibreOffice.cs:128 | Exists reports presence of the cached or freshly searched location and fills the install cell |
| LibreOfficeSmith.LibreOffice.ConvertToPdf | src/LibreOfficeSmith.Csharp/LibreOffice.cs:136-148 | the result is the conversion request for the program path as read; a rejected extension leaves both cells untouched, and an accepted one leaves both cells filled as a ProgramPath read does |
| LibreOfficeSmith.ExistsIsStable | src/LibreOfficeSmith.Csharp/LibreOffice.cs:57-58 | two reads of Exists agree even when the machine changes between them, and both report the first machine |
| LibreOfficeSmith.ExistsAfterConversion | src/LibreOfficeSmith.Csharp/LibreOffice.cs:128-141 | after a conversion with a supported extension on a known OS, Exists reports the machine as it was at the conversion; otherwise the later read searches |
| LibreOfficeSmith.ProgramPathIsStable | src/LibreOfficeSmith.Csharp/LibreOffice.cs:33-58 | two reads of ProgramPath agree, and InstallLocation afterwards is the outcome the path was derived from |

## Left out

- Registry access (`Registry.LocalMachine.OpenSubKey`, `GetValue`): replaced by a map from root-key path to sub-keys. A sub-key that vanishes between enumeration and opening, which throws a NullReferenceException, is not modelled. Registry values are taken to be strings, so `ToString()` is the identity.
- `Directory.EnumerateDirectories`: replaced by the `Dir` tree of `/Applications`. Its exceptions are not modelled: a missing directory, or one that cannot be read. The root directory's own name is never tested, as in the code.
- `RegistrySearch.AppName`, `BundleSearch.FindFrom`: `StartsWith` and `EndsWith` with a string argument compare culture-sensitively in .NET. The model compares ordinally, so ignorable characters are not accounted for.
- `Paths.Combine`: a rooted second argument is not treated specially. Both arguments the code passes are fixed relative paths.
- `Paths.Extension`: `Path.GetExtension` of a null path is not modelled. The separators are `/`, plus `\` on Windows.
- `Path.GetFullPath`: a function supplied by the caller, since it depends on the working directory and OS path rules. Its exceptions (an empty or invalid path) are not modelled.
- `OperatingSystem.IsWindows/IsMacOS/IsLinux`: replaced by the fixed field `LibreOffice.os`.
- Process creation, `Start`, `WaitForExitAsync`, disposal and the async machinery: I/O and scheduling. `ConvertToPdf` stops at the `StartInfo` it would start. The converter's exit code is never inspected by the code, so it has no counterpart.
- The thread safety of `Lazy<T>` under concurrent first reads: concurrency is not modelled; the cells are written sequentially.
- The unreachable branches of the `programPath` factory (the Linux throw at lines 48-49 and the InvalidOperationException at line 51) are kept in `ProgramPathFrom`, but the location that discovery yields never leads there (`UnsupportedPlatform`).
- The argument string does not escape a `"` inside the source path (line 147). `ArgumentsRoundTrip` is a fact about the string only; how the converter would split such a path is not modelled.
- `SupportedFileKinds` is the constant `ValidExtensions`; the array it exposes could be mutated by callers, which is not modelled.
