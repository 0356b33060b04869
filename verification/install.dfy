/**
 * The pip command line for installing a package, as `build_install_command`
 * assembles it: the fixed prefix, the optional `--user` and `--upgrade`
 * switches in that order, and the package argument last, pinned with
 * `==version` when a version was typed.
 */
module Install {
  import opened Text
  import opened Wrappers
  import opened Packages

  /** `[sys.executable, "-m", "pip", "install"]`, with the interpreter path as a parameter. */
  function Prefix(exe: string): seq<string> {
    [exe, "-m", "pip", "install"]
  }

  /** The package argument: the name, pinned with `==` to the stripped version when there is one. */
  function PackageArg(name: string, versionText: string): (a: string)
    ensures |name| <= |a| && a[..|name|] == name
    ensures a == name <==> Strip(versionText) == []
  {
    var v := Strip(versionText);
    if v == [] then name else name + Sep + v
  }

  /** A pinned argument reads back, in freeze format, as the name and the stripped version. */
  lemma PackageArgRoundTrip(name: string, versionText: string)
    requires '=' !in name
    requires Strip(versionText) != []
    ensures ParseLine(PackageArg(name, versionText)) == Some(Package(Strip(name), Strip(versionText)))
  {
    ParsePinned(name, Strip(versionText));
    StripIdempotent(versionText);
  }

  /** A blank version leaves the name as it is, and a name without `=` then carries no pin. */
  lemma PackageArgUnpinned(name: string, versionText: string)
    requires '=' !in name
    requires Strip(versionText) == []
    ensures PackageArg(name, versionText) == name
    ensures ParseLine(PackageArg(name, versionText)).None?
  {
    forall i: nat | i <= |name|
      ensures !OccursAt(name, Sep, i)
    {
      if i + 2 <= |name| {
        assert name[i..i + 2][0] == name[i];
      }
    }
  }

  /** The command `build_install_command` returns. */
  function InstallCommand(exe: string, name: string, versionText: string, user: bool, upgrade: bool): (cmd: seq<string>)
    ensures |cmd| == 5 + (if user then 1 else 0) + (if upgrade then 1 else 0)
    ensures cmd[..4] == Prefix(exe)
    ensures cmd[|cmd| - 1] == PackageArg(name, versionText)
    ensures user <==> "--user" in cmd[4..|cmd| - 1]
    ensures upgrade <==> "--upgrade" in cmd[4..|cmd| - 1]
    ensures forall k :: 4 <= k < |cmd| - 1 ==> cmd[k] in {"--user", "--upgrade"}
    ensures user && upgrade ==> cmd[4] == "--user" && cmd[5] == "--upgrade"
  {
    var switches := (if user then ["--user"] else []) + (if upgrade then ["--upgrade"] else []);
    var cmd := Prefix(exe) + switches + [PackageArg(name, versionText)];
    assert cmd[4..|cmd| - 1] == switches;
    cmd
  }

  /** `build_install_command`, appending to the command list step by step. */
  method BuildInstallCommand(exe: string, pkgName: string, versionText: string, user: bool, upgrade: bool)
    returns (cmd: seq<string>)
    ensures cmd == InstallCommand(exe, pkgName, versionText, user, upgrade)
  {
    cmd := [exe, "-m", "pip", "install"];
    var arg := pkgName;
    var v := Strip(versionText);
    if v != [] {
      arg := arg + "==" + v;
    }
    if user {
      cmd := cmd + ["--user"];
    }
    if upgrade {
      cmd := cmd + ["--upgrade"];
    }
    cmd := cmd + [arg];
  }

  /** The command `install_package` actually runs: it never calls `build_install_command`. */
  function InstallPackageCommand(exe: string, name: string): (cmd: seq<string>)
    ensures |cmd| == 5 && cmd[..4] == Prefix(exe) && cmd[4] == name
  {
    Prefix(exe) + [name]
  }

  /**
   * The command `install_package` runs differs from the one the install
   * options describe whenever a version is typed or a switch is ticked:
   * those inputs never reach pip.
   */
  lemma InstallIgnoresOptions(exe: string, name: string, versionText: string, user: bool, upgrade: bool)
    ensures InstallPackageCommand(exe, name) == InstallCommand(exe, name, versionText, user, upgrade)
      <==> !user && !upgrade && Strip(versionText) == []
  {
    var built := InstallCommand(exe, name, versionText, user, upgrade);
    if !user && !upgrade {
      if Strip(versionText) == [] {
        assert built == Prefix(exe) + [name];
      } else {
        assert |built[4]| > |name|;
      }
    }
  }
}
