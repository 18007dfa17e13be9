/** The host operating-system family, the exceptions the locator throws, and their messages. */
module Platform {

  /** The result of the `OperatingSystem.Is*` tests: exactly one family holds per process. */
  datatype OS = Windows | MacOS | Linux | Other

  /** The exception kinds thrown by the locator and the converter, each with its message. */
  datatype Error =
    | NotSupported(message: string)
    | FileNotFound(message: string)
    | InvalidOperation(message: string)

  /** A value or the exception thrown instead of it. */
  datatype Result<+T> = Ok(value: T) | Err(error: Error)

  const OnlySupportedMessage := "Only Linux, Windows, and MacOS are supported."
  const LinuxMessage := "Linux OS is not yet supported."
  const NotInstalledMessage := "LibreOffice is not installed"

  /** The message of the exception for an unrecognised extension; it names the extension. */
  function UnsupportedTypeMessage(extension: string): (m: string)
    ensures |m| > |extension| + 1 && m[1..|extension| + 1] == extension
  {
    "'" + extension + "' is not supported."
  }
}
