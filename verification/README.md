# pip manager GUI — a Dafny model of its non-visual logic

The program is a Tkinter front end for `pip`: it lists the installed
packages, searches them, installs and uninstalls packages through pip
subprocesses, and switches the package index mirror by editing pip's
configuration file. This project models the sequential logic inside that
GUI, with pip's processes and the file system replaced by their
observable results:

- `wrappers.dfy` — `Option` and `Result`.
- `text.dfy` (module `Text`) — the Python string operations the program
  relies on: `str.strip()`, `str.lower()`, the `in` test, the first
  occurrence of a separator, and `str.split('\n')`.
- `packages.dfy` (module `Packages`) — the installed-package list: parsing
  `pip list --format=freeze` output into `(name, version)` records, the
  case-insensitive display order, and the search filter.
- `errors.dfy` (module `Errors`) — `parse_error`: four failure signatures
  tried in a fixed order, first match wins, "未知错误" when none matches.
- `install.dfy` (module `Install`) — `build_install_command` and the
  command `install_package` really runs.
- `mirror.dfy` (module `Mirror`) — the `PIP_CONFIGS` registry,
  `get_current_source`, and the `SourceSwitcher` dialog's `set_source`,
  `restore_default` and `backup_config`. The configuration file is an
  `Option<map<section, map<key, value>>>` (`None`: no file) and the `.bak`
  backup is another such value.
- `session.dfy` (module `Session`) — the main window's state (`installing`,
  `selected_packages`, `installed_packages`, the rows on display) as class
  `Gui`, with the start guards, the install outcome, and the sequential
  uninstall batch that stops at the first non-zero exit code.

Behaviours of the code that the model keeps:

- Configuration parse errors: `get_current_source` reads the file before
  its `try` (pip_manager_tools.py:108-109), so a malformed file is not
  silently treated as "default". The model keeps the file as a map, so
  malformed files do not arise in it.
- The list refresh after an uninstall batch happens only when every
  package was removed (pip_manager_tools.py:728). After a partial failure
  the stored and displayed lists keep their old contents.
- Install options: as written, `install_package` runs its own command, so
  the version pin and the `--user`/`--upgrade` switches do not reach pip,
  and it classifies an output it has already read to the end. The
  as-written behaviour is `Install.InstallPackageCommand` and
  `Session.InstallOutcomeAsWritten`; `Session.Gui.InstallPackage` is the
  corrected `install_package`, which runs the command
  `build_install_command` returns and classifies what pip printed (see
  Findings).
- Custom mirror URLs: `cfg.set` applies ConfigParser's interpolation check,
  so a custom URL with a `%` that is neither `%%` nor a `%(name)s`
  reference (a percent-encoded password, say) is refused with an error
  after the backup has been written, and the file is left as it was.

## Model

| member | source | states |
|---|---|---|
| Text.Strip | pip_manager_tools.py:627-628 | the result is a slice of the input with no whitespace at either end; everything cut away is whitespace; it is empty exactly when the input is all whitespace |
| Text.StripTrimmed | pip_manager_tools.py:628 | a string with no whitespace at either end strips to itself |
| Text.StripIdempotent | pip_manager_tools.py:468-469 | stripping twice is stripping once |
| Text.Lower | pip_manager_tools.py:651 | same length, each character lower-cased |
| Text.Find | pip_manager_tools.py:626-627 | present exactly when the pattern occurs; then it is an occurrence and none occurs earlier |
| Text.SplitLines | pip_manager_tools.py:625 | at least one piece, no piece holds a newline, joining the pieces with newlines gives the text back |
| Text.SplitJoinLines | pip_manager_tools.py:625 | splitting newline-free pieces joined with newlines gives the same pieces back |
| Packages.ParseLine | pip_manager_tools.py:626-628 | a line yields a record exactly when it contains `==` |
| Packages.ParseLineAtFirstSep | pip_manager_tools.py:627-628 | the name is the stripped text before the first `==`, the version the stripped rest |
| Packages.ParsePinned | pip_manager_tools.py:627-628 | `name==rest` with no `=` in the name parses to the stripped name and stripped rest, even when the rest contains `==` |
| Packages.ParseOneLine | pip_manager_tools.py:626-628 | one line gives its record if it contains `==`, and nothing otherwise |
| Packages.ParseLinesAppend | pip_manager_tools.py:625-628 | the records of concatenated line lists are the concatenated records, so records keep line order |
| Packages.ParseLinesLength | pip_manager_tools.py:625-628 | the number of records is the number of lines containing `==`, at most the number of lines |
| Packages.ParseFreeze | pip_manager_tools.py:624-628 | the append loop yields exactly the parse of the split output |
| Packages.LexLeTotal | pip_manager_tools.py:631 | any two strings are comparable under Python's string order |
| Packages.LexLeTrans | pip_manager_tools.py:631 | Python's string order is transitive |
| Packages.InsertPermutes | pip_manager_tools.py:645 | inserting a row adds exactly that row |
| Packages.InsertSorted | pip_manager_tools.py:645 | inserting into a list sorted by lower-cased name keeps it sorted |
| Packages.SortByName | pip_manager_tools.py:645 | the displayed rows are a permutation of the input, non-decreasing by lower-cased name |
| Packages.Query | pip_manager_tools.py:651 | the query is no longer than the entry; it is empty exactly when the entry is all whitespace; otherwise it neither starts nor ends with whitespace |
| Packages.Matching | pip_manager_tools.py:655-659 | a row is kept exactly when it is stored and its lower-cased name contains the query; no row is added |
| Packages.MatchingAppend | pip_manager_tools.py:655-659 | the filter distributes over concatenation, so kept rows stay in their original order |
| Packages.MatchingAll | pip_manager_tools.py:655-659 | when every row matches, the filter returns the list unchanged |
| Packages.Filter | pip_manager_tools.py:649-660 | an empty stripped, lower-cased query gives the stored list; otherwise exactly the matching stored rows; always a sub-multiset |
| Packages.FilterIdempotent | pip_manager_tools.py:649-660 | filtering the filtered list with the same entry changes nothing |
| Packages.EmptyQueryShowsAll | pip_manager_tools.py:645-653 | a blank search shows every stored row, sorted by lower-cased name |
| Errors.MessagesDistinct | pip_manager_tools.py:578-586 | the four messages are distinct and none is the unknown message |
| Errors.FirstMatchFrom | pip_manager_tools.py:577-584 | the first matching signature from a position on, and none before it matches |
| Errors.Classify | pip_manager_tools.py:571-586 | no kind exactly when no signature matches; otherwise the kind of a matching signature with no earlier match |
| Errors.ParseError | pip_manager_tools.py:569-586 | the result is one of the four signature messages or "未知错误"; which one is fixed by the first-match and unknown lemmas below |
| Errors.ParseErrorFirstMatch | pip_manager_tools.py:569-586 | the message of signature i is returned exactly when it matches and no earlier one does |
| Errors.NotFoundBeforePermission | pip_manager_tools.py:571-576 | output matching both the not-found and the permission signature gives the not-found message |
| Errors.UnknownIffNoMatch | pip_manager_tools.py:577-586 | "未知错误" is returned exactly when no signature matches |
| Errors.EmptyOutputUnknown | pip_manager_tools.py:571-586 | empty output is classified as unknown |
| Install.InstallCommand | pip_manager_tools.py:463-478 | length 5 plus the set switches; the fixed prefix first; the package argument last; `--user` and `--upgrade` present exactly when set, `--user` first |
| Install.BuildInstallCommand | pip_manager_tools.py:463-478 | the appends build exactly that command |
| Install.PackageArg | pip_manager_tools.py:467-469 | the argument starts with the name; it is the bare name exactly when the version entry is blank |
| Install.PackageArgRoundTrip | pip_manager_tools.py:467-469 | a pinned argument parses back to the stripped name and stripped version |
| Install.PackageArgUnpinned | pip_manager_tools.py:467-469 | a blank version leaves the bare name, with no `==` |
| Install.InstallPackageCommand | pip_manager_tools.py:514 | the command `install_package` runs: the prefix and the name only |
| Install.InstallIgnoresOptions | pip_manager_tools.py:514 | that command equals the built one exactly when no switch is set and no version is typed |
| Mirror.RegistryDistinct | pip_manager_tools.py:17-24 | registry URLs and ids are pairwise distinct, no id is `custom`, every host is set |
| Mirror.Lookup | pip_manager_tools.py:112-114 | the first registry entry, from a position on, whose key (the URL for `get_current_source`, the id for `PIP_CONFIGS.get` at line 144) has the value, or no entry has it |
| Mirror.CurrentSource | pip_manager_tools.py:102-117 | `default` without a file or `global.index-url`; otherwise a registry id exactly when its URL is configured, `custom` exactly when no registry URL is |
| Mirror.SourceSwitcher.Current | pip_manager_tools.py:119-121 | the id the dialog shows is `default` without a file, and `default` when the configured URL is the default registry URL |
| Mirror.DropEscapesKeepsPlain | pip_manager_tools.py:156 | the `%%` removal leaves a value without `%` as it is |
| Mirror.DropReferencesKeepsPlain | pip_manager_tools.py:156 | the `%(name)s` removal leaves a value without `%` as it is |
| Mirror.SetAllowed | pip_manager_tools.py:156 | `cfg.set` accepts every value without a `%` |
| Mirror.DropEscapesPrefix | pip_manager_tools.py:156 | text before the first `%` is kept as it is by the `%%` removal |
| Mirror.DropReferencesPrefix | pip_manager_tools.py:156 | text before the first `%` is kept as it is by the `%(name)s` removal |
| Mirror.PercentRefused | pip_manager_tools.py:156 | a first `%` followed by a character other than `%` and `(` (a percent-encoded character) makes `cfg.set` refuse the value, whatever follows |
| Mirror.PercentAtEndRefused | pip_manager_tools.py:156 | a value whose only `%` is its last character is refused |
| Mirror.EscapeAllowed | pip_manager_tools.py:156 | a `%%` escape between text without `%` is accepted |
| Mirror.ReferenceLengthOf | pip_manager_tools.py:156 | `%(`, a non-empty name without `)`, then `)s` is recognised as one reference of exactly that length |
| Mirror.ReferenceAllowed | pip_manager_tools.py:156 | a `%(name)s` reference with a non-empty name between text without `%` is accepted |
| Mirror.Resolve | pip_manager_tools.py:136-146 | `custom` needs a non-empty URL and has no trusted host; any other id must name a registry entry, else it is refused |
| Mirror.Patched | pip_manager_tools.py:149-160 | `global.index-url` set, `trusted-host` set to the profile's host or removed when it has none, all other sections and keys unchanged |
| Mirror.ApplyBuiltinThenCurrent | pip_manager_tools.py:155-160 | after writing a built-in profile the switcher reports that profile |
| Mirror.ApplyCustomThenCurrent | pip_manager_tools.py:138-160 | after writing a custom URL it reports `custom` exactly when the URL is not a registry URL, else that registry id |
| Mirror.SourceSwitcher.constructor | pip_manager_tools.py:69-72 | the dialog starts from the given file and backup |
| Mirror.SourceSwitcher.BackupConfig | pip_manager_tools.py:94-100 | the backup becomes the file's contents when the file exists, and is kept otherwise |
| Mirror.SourceSwitcher.SetSource | pip_manager_tools.py:125-172 | the backup is written first; a refused selection, or a custom URL `cfg.set` rejects, leaves the file unchanged and reports the error; otherwise the file becomes the patched configuration |
| Mirror.SourceSwitcher.WriteProfile | pip_manager_tools.py:149-163 | the file becomes its old contents (or an empty configuration) patched with the profile |
| Mirror.SourceSwitcher.RestoreDefault | pip_manager_tools.py:174-185 | an existing file is backed up and removed, then `default` is reported; without a file nothing changes |
| Session.InstallOutcomeAsWritten | pip_manager_tools.py:536-542 | as written: `PipMissing` exactly when pip is unavailable, `Installed` exactly when pip ran and exited with 0 |
| Session.AsWrittenAlwaysUnknown | pip_manager_tools.py:536-542 | as written, every failed install is reported as an unknown error |
| Session.AsWrittenLosesSignature | pip_manager_tools.py:536-542 | as written, any recognised failure signature in pip's output is lost |
| Session.InstallOutcomeOf | pip_manager_tools.py:536-542 | the exit code alone decides success; a failure carries the classification of everything pip printed |
| Session.FirstFailure | pip_manager_tools.py:702-724 | every code before it is zero, and the code at it is non-zero when it is in range |
| Session.AttemptedIff | pip_manager_tools.py:702-724 | package k is attempted exactly when all earlier packages exited with 0 |
| Session.Gui.constructor | pip_manager_tools.py:276-294 | not busy, nothing selected, no packages stored or shown |
| Session.SelectedNames | pip_manager_tools.py:455-461 | the names come from selected rows that have values; when every row has values, they are the rows' first values, in order |
| Session.SelectedNamesAppend | pip_manager_tools.py:457-461 | the names of a selection split in two are the names of the first part followed by those of the second, so every row with values contributes its name, in order |
| Session.Gui.SelectPackages | pip_manager_tools.py:455-461 | the append loop leaves exactly the names of the selected rows as the selection |
| Session.Gui.UpdatePackageList | pip_manager_tools.py:642-647 | the table shows the given rows sorted by lower-cased name |
| Session.Gui.LoadInstalledPackages | pip_manager_tools.py:612-640 | the stored list is the parse of the freeze output, shown sorted |
| Session.Gui.FilterPackages | pip_manager_tools.py:649-660 | the table shows the filtered stored rows, sorted |
| Session.Gui.StartInstall | pip_manager_tools.py:480-493 | refused while busy or for a blank name, with nothing changed; otherwise busy with the stripped name |
| Session.Gui.InstallPackage | pip_manager_tools.py:505-553 | the busy flag is cleared on every path; the outcome is the corrected install outcome; pip gets the built command |
| Session.Gui.StartUninstall | pip_manager_tools.py:670-688 | starts exactly when something is selected, nothing is running and the user confirmed; otherwise nothing changes |
| Session.Gui.UninstallPackages | pip_manager_tools.py:699-737 | packages are attempted in order up to and including the first failure; the failing package is reported; a complete batch reloads the list; the busy flag ends cleared |

## Left out

- The Tkinter window, widgets, `Tooltip`, styles, progress bar, message boxes, status-bar texts, `DISPLAY_NAMES` and the label text `update_current_source` sets: presentation only.
- Subprocesses: `check_pip_available` becomes the `pipAvailable` input, the streamed lines and exit codes are inputs, and a failure to launch pip (the "发生意外错误" path) is not modelled.
- The progress bar being started before the input checks of `start_install_thread` and `start_uninstall_thread`: it has no effect on the state modelled.
- A failing `pip list` call in `load_installed_packages` (an error dialog only): the freeze output is an input.
- Threads, `after`/`after_cancel` debouncing of the search box, and `on_closing` process termination: concurrency and timing. The list reload after an uninstall batch, run on its own thread in the program, happens at once in the model.
- The INI text format and ConfigParser's behaviour beyond get/set/remove: the `DEFAULT` section, stripping of values when the file is read back, lower-casing of option names, section order. A custom URL with surrounding whitespace may therefore read back differently from what the model says.
- Mirror.CurrentSource: compares the stored value as it is, whereas `cfg.get` expands `%%` and `%(name)s` when it reads; the two differ only for stored values holding a `%`.
- Mirror.SourceSwitcher.SetSource: applies ConfigParser's `%` check to the custom URL only. The built-in URLs and hosts hold no `%`, so the check cannot refuse them, but the model does not prove this about the registry's literals.
- `get_config_path`, `os.makedirs`, `shutil.copyfile`, `os.remove` and their failures (the program's error dialogs for file-system errors).
- Text.Lower: lower-cases ASCII letters only, whereas Python's `str.lower()` covers all of Unicode.
- Errors.Classify: the regular expressions are case-insensitive literal tests with ASCII-only lowering, and `\w` is ASCII letters, digits and `_`, whereas Python's `re` uses Unicode for both.
- Packages.SortByName: does not state that rows with equal lower-cased names keep their input order (Python's sort is stable).

## Findings

| source | as written | input that shows it | evidently intended | confidence | as-written member | corrected member |
|---|---|---|---|---|---|---|
| pip_manager_tools.py:541 | classifies `process.stdout.read()` after the `readline` loop has already consumed the stream to its end, so the text classified is always empty | pip exits with 1 after printing `ERROR: Could not find a version that satisfies the requirement foo`; the user is told "未知错误" instead of "包不存在或名称错误" | classify the output pip printed | high, not executed | Session.AsWrittenLosesSignature | Session.InstallOutcomeOf |
| pip_manager_tools.py:514 | `install_package` builds `[exe, "-m", "pip", "install", name]` itself; `build_install_command` is never called, so the version entry and the `--user`/`--upgrade` check boxes (pip_manager_tools.py:344-355) have no effect | version `1.0` typed and `--user` ticked: pip still runs `install name` | run the command `build_install_command` returns | medium, not executed | Install.InstallIgnoresOptions | Session.Gui.InstallPackage |
