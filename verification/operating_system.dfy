/** `getOperatingSystem` of `src/helpers/getOperatingSystem.ts`: the platform and the
    architecture Node reports are parameters. */
module OperatingSystem {
  import opened Wrappers

  function NotRecognized(platform: string, arch: string): string {
    "Operating System not recognized! Got platform: " + platform + ", with architecture: " + arch
  }

  /** The `switch`: `darwin` always gives a name; `win32` without `x64` falls through
      into the `linux` case, and both fall through into the throwing default. */
  function GetOperatingSystem(platform: string, arch: string): (r: Result<string>)
    ensures r.Err? ==> r.error == Thrown(NotRecognized(platform, arch))
  {
    if platform == "darwin" then
      (if arch == "arm64" then Ok("macos-m1-64") else Ok("macos64"))
    else if platform == "win32" && arch == "x64" then Ok("win64")
    else if (platform == "win32" || platform == "linux") && arch == "x64" then Ok("linux64")
    else Err(Thrown(NotRecognized(platform, arch)))
  }

  /** The supported combinations, as a table of their own. */
  function Table(platform: string, arch: string): Option<string> {
    match (platform, arch)
    case ("darwin", "arm64") => Some("macos-m1-64")
    case ("darwin", _) => Some("macos64")
    case ("win32", "x64") => Some("win64")
    case ("linux", "x64") => Some("linux64")
    case _ => None
  }

  /** The function answers exactly the table and throws exactly off it: in particular
      `win32` on another architecture and `linux` on anything but `x64` throw. */
  lemma GetOperatingSystemIsTable(platform: string, arch: string)
    ensures GetOperatingSystem(platform, arch).Ok? <==> Table(platform, arch).Some?
    ensures GetOperatingSystem(platform, arch).Ok? ==> GetOperatingSystem(platform, arch).value == Table(platform, arch).value
    ensures platform == "win32" && arch != "x64" ==> GetOperatingSystem(platform, arch).Err?
    ensures platform == "linux" && arch != "x64" ==> GetOperatingSystem(platform, arch).Err?
    ensures platform != "darwin" && platform != "win32" && platform != "linux" ==> GetOperatingSystem(platform, arch).Err?
  {
  }

  /** Each name belongs to one platform. */
  lemma NamesIdentifyPlatform(p1: string, a1: string, p2: string, a2: string)
    requires GetOperatingSystem(p1, a1).Ok? && GetOperatingSystem(p2, a2).Ok?
    requires GetOperatingSystem(p1, a1) == GetOperatingSystem(p2, a2)
    ensures p1 == p2
  {
  }
}
