/**
 * The main window's non-visual state: the stored and the displayed package
 * lists, the packages selected for removal, and the `installing` flag that
 * keeps at most one install or uninstall in flight. Subprocesses are
 * replaced by their observable results: whether pip answers at all, the
 * lines it prints and its exit codes.
 */
module Session {
  import opened Wrappers
  import opened Text
  import opened Packages
  import opened Errors
  import opened Install

  /** How `install_package` ends. */
  datatype InstallOutcome = PipMissing | Installed | Failed(reason: string)

  /** All the text pip printed, line after line. */
  function Concat(lines: seq<string>): string {
    if lines == [] then [] else Concat(lines[..|lines| - 1]) + lines[|lines| - 1]
  }

  /**
   * `install_package` as written: once the `readline` loop has run to the
   * end of the stream, `process.stdout.read()` returns the empty string,
   * and that is what gets classified.
   */
  function InstallOutcomeAsWritten(pipAvailable: bool, exitCode: int, streamed: seq<string>): (r: InstallOutcome)
    ensures r.PipMissing? <==> !pipAvailable
    ensures r.Installed? <==> pipAvailable && exitCode == 0
  {
    if !pipAvailable then PipMissing
    else if exitCode == 0 then Installed
    else Failed(ParseError(""))
  }

  /** Every failed install is reported as an unknown error, whatever pip printed. */
  lemma AsWrittenAlwaysUnknown(pipAvailable: bool, exitCode: int, streamed: seq<string>)
    ensures InstallOutcomeAsWritten(pipAvailable, exitCode, streamed).Failed? ==>
      InstallOutcomeAsWritten(pipAvailable, exitCode, streamed).reason == UnknownMessage
  {
    EmptyOutputUnknown();
  }

  /**
   * The outcome with the classification applied to what pip printed. The
   * exit code alone decides between success and failure; the message only
   * annotates a failure.
   */
  function InstallOutcomeOf(pipAvailable: bool, exitCode: int, streamed: seq<string>): (r: InstallOutcome)
    ensures r.PipMissing? <==> !pipAvailable
    ensures r.Installed? <==> pipAvailable && exitCode == 0
    ensures r.Failed? ==> r.reason == ParseError(Concat(streamed))
  {
    if !pipAvailable then PipMissing
    else if exitCode == 0 then Installed
    else Failed(ParseError(Concat(streamed)))
  }

  /**
   * Whenever pip printed a recognised failure signature, the code as
   * written loses it: its message differs from the classified one.
   */
  lemma AsWrittenLosesSignature(exitCode: int, streamed: seq<string>)
    requires exitCode != 0
    requires Classify(Concat(streamed)).Some?
    ensures InstallOutcomeAsWritten(true, exitCode, streamed) != InstallOutcomeOf(true, exitCode, streamed)
  {
    EmptyOutputUnknown();
    MessagesDistinct(Classify(Concat(streamed)).value, Classify(Concat(streamed)).value);
  }

  /** The index of the first non-zero exit code, or the number of codes when all are zero. */
  function FirstFailure(codes: seq<int>): (k: nat)
    ensures k <= |codes|
    ensures forall j :: 0 <= j < k ==> codes[j] == 0
    ensures k < |codes| ==> codes[k] != 0
  {
    if codes == [] || codes[0] != 0 then 0 else 1 + FirstFailure(codes[1..])
  }

  /** How many packages an uninstall batch runs: up to and including the first failure. */
  function Attempts(codes: seq<int>): nat {
    var f := FirstFailure(codes);
    if f < |codes| then f + 1 else |codes|
  }

  /**
   * Package `k` is attempted exactly when every package before it exited
   * with 0; nothing after the first failure is attempted.
   */
  lemma AttemptedIff(codes: seq<int>, k: nat)
    requires k < |codes|
    ensures k < Attempts(codes) <==> forall j :: 0 <= j < k ==> codes[j] == 0
    ensures Attempts(codes) <= |codes|
  {
    var f := FirstFailure(codes);
    if f < k {
      assert codes[f] != 0;
    }
  }

  /**
   * The names `on_package_select` collects: the first value of every
   * selected row that has values, in selection order.
   */
  function SelectedNames(rows: seq<seq<string>>): (r: seq<string>)
    ensures |r| <= |rows|
    ensures forall v :: v in r ==> exists i :: 0 <= i < |rows| && rows[i] != [] && rows[i][0] == v
    ensures (forall i :: 0 <= i < |rows| ==> rows[i] != []) ==>
      |r| == |rows| && forall i :: 0 <= i < |rows| ==> r[i] == rows[i][0]
  {
    if rows == [] then []
    else
      var init := SelectedNames(rows[..|rows| - 1]);
      var last := rows[|rows| - 1];
      if last == [] then init else init + [last[0]]
  }

  /**
   * Selecting rows one after another collects their names in order: every
   * row with values contributes its first value, a row without none.
   */
  lemma {:induction false} SelectedNamesAppend(a: seq<seq<string>>, b: seq<seq<string>>)
    ensures SelectedNames(a + b) == SelectedNames(a) + SelectedNames(b)
  {
    if b == [] {
      assert a + b == a;
    } else {
      var init := b[..|b| - 1];
      SelectedNamesAppend(a, init);
      assert (a + b)[..|a + b| - 1] == a + init;
      assert (a + b)[|a + b| - 1] == b[|b| - 1];
    }
  }

  /** The main window of the package manager, without its widgets. */
  class Gui {
    var installing: bool
    var selectedPackages: seq<string>
    var installedPackages: seq<Package>
    var displayed: seq<Package>

    constructor ()
      ensures !installing && selectedPackages == [] && installedPackages == [] && displayed == []
    {
      installing := false;
      selectedPackages := [];
      installedPackages := [];
      displayed := [];
    }

    /** `on_package_select`: the selection becomes the names of the selected rows. */
    method SelectPackages(rows: seq<seq<string>>)
      modifies this`selectedPackages
      ensures selectedPackages == SelectedNames(rows)
    {
      selectedPackages := [];
      var i := 0;
      while i < |rows|
        invariant 0 <= i <= |rows|
        invariant selectedPackages == SelectedNames(rows[..i])
      {
        assert rows[..i + 1][..i] == rows[..i];
        if rows[i] != [] {
          selectedPackages := selectedPackages + [rows[i][0]];
        }
        i := i + 1;
      }
      assert rows[..i] == rows;
    }

    /** `update_package_list`: the table shows the rows sorted by lower-cased name. */
    method UpdatePackageList(packages: seq<Package>)
      modifies this`displayed
      ensures displayed == SortByName(packages)
    {
      displayed := SortByName(packages);
    }

    /**
     * `load_installed_packages`: stores the records of the freeze output
     * and shows them sorted; the busy flag and the selection are untouched.
     */
    method LoadInstalledPackages(listing: string)
      modifies this`installedPackages, this`displayed
      ensures installedPackages == ParseLines(SplitLines(listing))
      ensures displayed == SortByName(installedPackages)
    {
      var packages := ParseFreeze(listing);
      installedPackages := packages;
      UpdatePackageList(packages);
    }

    /** `filter_packages`: the table shows the stored rows the entry selects, sorted. */
    method FilterPackages(entry: string)
      modifies this`displayed
      ensures displayed == SortByName(Filter(installedPackages, entry))
    {
      var query := Lower(Strip(entry));
      if query == [] {
        UpdatePackageList(installedPackages);
        return;
      }
      UpdatePackageList(Matching(installedPackages, query));
    }

    /**
     * `start_install_thread`: refused while busy, and for a blank name;
     * otherwise raises the busy flag and hands over the stripped name.
     */
    method StartInstall(entry: string) returns (started: Option<string>)
      modifies this`installing
      ensures old(installing) ==> started.None? && installing
      ensures !old(installing) ==> started == (if Strip(entry) == [] then None else Some(Strip(entry)))
      ensures installing == (old(installing) || started.Some?)
    {
      if installing {
        return None;
      }
      var name := Strip(entry);
      if name == [] {
        return None;
      }
      installing := true;
      started := Some(name);
    }

    /**
     * `install_package`, with the install options passed on to pip through
     * `build_install_command` and the failure classified on what pip
     * printed. The busy flag is cleared on every path.
     */
    method InstallPackage(exe: string, pkgName: string, versionText: string, user: bool, upgrade: bool,
                          pipAvailable: bool, streamed: seq<string>, exitCode: int)
      returns (cmd: Option<seq<string>>, outcome: InstallOutcome)
      modifies this`installing
      ensures !installing
      ensures cmd.Some? <==> pipAvailable
      ensures cmd.Some? ==> cmd.value == InstallCommand(exe, pkgName, versionText, user, upgrade)
      ensures outcome == InstallOutcomeOf(pipAvailable, exitCode, streamed)
    {
      if !pipAvailable {
        cmd, outcome := None, PipMissing;
      } else {
        var c := BuildInstallCommand(exe, pkgName, versionText, user, upgrade);
        cmd := Some(c);
        if exitCode == 0 {
          outcome := Installed;
        } else {
          outcome := Failed(ParseError(Concat(streamed)));
        }
      }
      installing := false;
    }

    /**
     * `start_uninstall_thread`: nothing to remove, a busy window or a
     * declined confirmation leave everything as it was; otherwise the busy
     * flag goes up.
     */
    method StartUninstall(confirmed: bool) returns (started: bool)
      modifies this`installing
      ensures started == (selectedPackages != [] && !old(installing) && confirmed)
      ensures installing == (old(installing) || started)
    {
      if selectedPackages == [] {
        return false;
      }
      if installing {
        return false;
      }
      if !confirmed {
        return false;
      }
      installing := true;
      started := true;
    }

    /**
     * `uninstall_packages`: removes the selected packages one at a time,
     * in order, stopping at the first non-zero exit code (`exitCodes[k]` is
     * what pip returns for package `k`). A complete batch reloads the list
     * from `listingAfter`; the busy flag is cleared either way.
     */
    method UninstallPackages(exitCodes: seq<int>, listingAfter: string)
      returns (attempted: seq<string>, failed: Option<string>)
      requires |exitCodes| == |selectedPackages|
      modifies this`installing, this`installedPackages, this`displayed
      ensures !installing
      ensures attempted == selectedPackages[..Attempts(exitCodes)]
      ensures failed == if FirstFailure(exitCodes) < |exitCodes|
        then Some(selectedPackages[FirstFailure(exitCodes)]) else None
      ensures failed.None? ==>
        (installedPackages == ParseLines(SplitLines(listingAfter)) && displayed == SortByName(installedPackages))
      ensures failed.Some? ==> installedPackages == old(installedPackages) && displayed == old(displayed)
    {
      attempted, failed := [], None;
      var i := 0;
      while i < |selectedPackages| && failed.None?
        invariant 0 <= i <= |selectedPackages|
        invariant attempted == selectedPackages[..i]
        invariant failed.None? ==> forall j :: 0 <= j < i ==> exitCodes[j] == 0
        invariant failed.Some? ==> 0 < i && FirstFailure(exitCodes) == i - 1 && failed.value == selectedPackages[i - 1]
        invariant installedPackages == old(installedPackages) && displayed == old(displayed)
      {
        var pkg := selectedPackages[i];
        attempted := attempted + [pkg];
        if exitCodes[i] != 0 {
          failed := Some(pkg);
        }
        i := i + 1;
      }
      if failed.None? {
        LoadInstalledPackages(listingAfter);
      }
      installing := false;
    }
  }
}
