# rEFInd installer scripts, modelled in Dafny

The scripts install and upgrade the rEFInd boot loader on Arch Linux.

- `src/install_sb_refind.py` installs it with Secure Boot: shim, local keys and a signed kernel.
- `src/install_refind.py` installs it without Secure Boot.
- `src/files/update_refind.py` is the pacman hook that reinstalls it after an upgrade.

Each script runs a fixed sequence of stages, and every stage shells out to a tool. Between those calls sit small pieces of text processing and control flow, and those are what this project models and proves things about:

- the `efibootmgr` entry parser;
- the `lsblk` device-path derivation;
- the root-identifier scans over `lsblk` and `/etc/fstab`;
- the interactive ESP choice;
- the two configuration renderers;
- the package-check loops;
- the kernel-signing verdict;
- each `main` as a stage machine with exit codes and a mount state.

## How the model is built

- **Tools become inputs.** Every command the scripts run is replaced by what it answered, collected in `Shell.Host`: command outputs as strings, exit statuses as booleans, file tests as booleans, and the integers typed at the prompt as a sequence.
- **Effects are recorded.** Every external effect becomes an `Action`. A run produces a `World`: whether the ESP is still mounted, the actions in order, and the contents of the files the scripts write.
- **Each `main` is a method.** It returns an `Outcome`: `Exit(code)`, or `Crash(error)` for a Python exception nobody catches (the interpreter then exits with status 1).
- **Python semantics are written out.** This covers `split`, `split()` with its whitespace set, `strip(chars)`, `replace`, `list.remove`, negative indexing and `str.format`. A lookup that can fail on some input is `Raised(IndexError)`, not a precondition. The one precondition of this kind is on `BootEntries.FindEsp`: it reads `refind_data[0]` only after `main` has returned on an empty or missing entry list, so it requires a non-empty list. `list.remove` appears only behind an `if x in l` guard, so its ValueError cannot arise and is not modelled.
- **Loops stay loops.** Each loop of the source is a method with a `while` or `for` loop, proved against a function that states what the loop computes. For the loops that accumulate, stop early or raise, that function is recursive. For `delete_entries` it is the sequence of delete commands, one per entry:
  - `get_refind_data`, `find_root_guids` and `find_root_uuid`;
  - the prompt loop of `detect_esp`;
  - `check_packages` and `delete_entries`.
- **`ENTRY_DATA` is an array.** `add_archlinux_entry` edits it in place, then joins it.

Modules follow the source:

- `Python` and `PyText`: runtime and string behaviour.
- `Shell`: host, actions and world, plus `mount_esp`, `unmount_esp` and `refind_install`.
- `BootEntries`: `get_refind_data`, `find_esp` and `delete_entries`, which are shared by two scripts.
- `RootIds`, `EspChoice` and `LoaderConfig`.
- `Packages`: the three `check_packages`.
- `InstallSbRefind`, `InstallRefind` and `UpdateRefind`: one `main` each.

### Where the code does less than it appears to promise (the model follows the code)

- **The ESP is not always unmounted.** Mounting it for the duration of the install would unmount it on every path. In the code, exits 4 and 5 of install_sb_refind.py, exit 4 of the other two scripts, and any exception raised after the mount all leave it mounted. The `Run` methods state exactly when `mounted` is still true at the end.
- **The ESP choice is not range-checked.** A 1-based choice would be checked against the range 1..n. The code only re-prompts while the answer exceeds the count. An answer of 0 or a negative answer selects through Python negative indexing, and one at or below `-n` raises IndexError.
- **Failed deletes are silent.** A failed `efibootmgr --delete-bootnum` raises no warning: `delete_entries` ignores exit statuses and reports nothing.
- **`find_esp` never fails.** Nothing checks that exactly one device matches. An empty partition UUID makes the command `grep` with no argument, which prints nothing on standard output. The result is then just `/dev/`.
- **`find_root_uuid` keeps only part of the first word.** It returns `split("=")[1]`: the text between the first and the second `=`, not everything after the first `=`.
  - With no root line in fstab, `root_uuid` is never assigned. The function then raises UnboundLocalError instead of returning None.
- **`add_archlinux_entry` cannot write without microcode.** When neither microcode image exists, the branch reads the never-assigned `REFIND_ENTRY` and raises UnboundLocalError. Nothing is appended, and install_sb_refind.py ends with the ESP mounted.
- **Glyphs can survive in the device path.** Removing `├─`, then `└─`, left to right, can create a new pair: `├└──` becomes `├─`. So "the device path contains no glyph pair" does not hold for every input. The model proves two other things:
  - the exact result for the rows `lsblk` prints (an optional glyph, the name, a space);
  - every character that is not a glyph is kept, in order.
- **Boot numbers that start or end with `B` lose a digit.** `strip("Boot")` strips the characters B, o and t from both ends of the token. A number that starts with the hexadecimal digit `B` loses it whether or not the entry is active: `BootB001*` gives `001`. An inactive number that ends with `B` loses that digit too: `Boot000B` gives `000`. In both cases the delete command names the wrong entry.

## Model

| member | source | states |
|---|---|---|
| Python.PyIndex | src/install_refind.py:55-56 | `s[k]` succeeds exactly when `-len(s) <= k < len(s)`; a negative index counts from the end; otherwise IndexError |
| Python.FirstIndex | src/install_sb_refind.py:61-62 | the position of the first occurrence; it equals the length exactly when the element is absent, and no earlier position holds it |
| Python.RemoveFirstShape | src/install_sb_refind.py:61-62 | `if x in l: l.remove(x)` leaves the list alone when `x` is absent; otherwise it deletes exactly the first occurrence, keeps the rest in order and shortens the list by one |
| Python.RemoveFirstOfLast | src/install_sb_refind.py:60-62 | when the only empty piece is the last one, removing it leaves exactly the other pieces |
| PyText.Split | src/install_sb_refind.py:60 | `split(sep)` yields at least one piece, and no piece holds the separator |
| PyText.JoinSplit | src/install_sb_refind.py:60 | joining the pieces of a split with the separator gives back the text |
| PyText.SplitJoin | src/install_sb_refind.py:238 | splitting a join gives back the parts when none holds the separator |
| PyText.SplitAround | src/install_sb_refind.py:60 | a separator splits a text into the pieces before it and the pieces after it |
| PyText.FirstFieldIsPrefix | src/install_sb_refind.py:72 | `split(" ")[0]` is the longest space-free prefix of the line |
| PyText.FirstFieldBefore | src/install_sb_refind.py:72 | the first field of `a + sep + b` is `a` when `a` holds no separator |
| PyText.Words | src/install_sb_refind.py:190-192 | the words of `split()` are non-empty and hold no whitespace |
| PyText.LeadingWordOfWordThen | src/install_sb_refind.py:190-192 | a whitespace-free run followed by whitespace or by the end of the text is exactly the first word |
| PyText.WordsOfWord | src/install_sb_refind.py:190-192 | a non-empty text without whitespace splits into the one word that is the whole text |
| PyText.WordsAtSpace | src/install_sb_refind.py:190-192 | splitting at any whitespace character gives the words before it followed by the words after it; with `WordsOfWord` and the empty text this fixes `split()` on every text |
| PyText.WordsHaveNoNewline | src/install_sb_refind.py:189-190 | no word of `split()` holds a newline |
| PyText.LStripShape | src/install_sb_refind.py:72 | `lstrip(cs)` leaves a suffix that is empty or starts outside `cs`, and only characters of `cs` were removed |
| PyText.RStripShape | src/install_sb_refind.py:72 | `rstrip(cs)` leaves a prefix that is empty or ends outside `cs`, and only characters of `cs` were removed |
| PyText.StripIsTrim | src/install_sb_refind.py:72 | `strip(cs)` is a slice of the text left once characters of `cs` were removed from both ends, and it starts and ends outside `cs` |
| PyText.LStripPrefix | src/install_sb_refind.py:72 | a prefix made only of stripped characters does not change what lstrip leaves |
| PyText.RStripSuffix | src/install_sb_refind.py:72 | a suffix made only of stripped characters does not change what rstrip leaves |
| PyText.StripKeeps | src/install_sb_refind.py:72 | a text that starts and ends outside `cs` is left unchanged by strip |
| PyText.ContainsMiddle | src/install_sb_refind.py:80 | a text contains whatever is spliced into it, in the sense of Python's `in` |
| PyText.RemoveAll | src/install_sb_refind.py:83 | `replace(p, "")` never makes the text longer |
| PyText.RemoveAllKeepsOthers | src/install_sb_refind.py:83 | `replace(p, "")` keeps every character that is not one of the pattern's, in order |
| PyText.RemoveAllAbsent | src/install_sb_refind.py:83 | a text without the pattern's first character is left unchanged |
| PyText.RemoveAllLeading | src/install_sb_refind.py:83 | a leading occurrence is cut, and the scan goes on after it |
| PyText.GrepLines | src/install_sb_refind.py:59 | the lines grep reads hold no newline |
| PyText.Matching | src/install_sb_refind.py:59 | grep keeps only input lines that contain the pattern, and never more lines than it read |
| PyText.MatchingKeeps | src/install_sb_refind.py:59 | every input line that contains the pattern is kept; with `Matching`, a line is in grep's output exactly when it contains the pattern |
| PyText.MatchingAppend | src/install_sb_refind.py:59 | grep filters line by line: the output for two blocks of lines is the output for the first followed by the output for the second, so input order is kept |
| PyText.GrepOneLine | src/install_sb_refind.py:80-82 | a single line that contains the pattern passes through grep unchanged |
| PyText.SplitUnlines | src/install_sb_refind.py:59-60 | grep output split on newlines gives its lines and one empty piece after the last newline |
| PyText.GrepThenSplitLines | src/install_sb_refind.py:59-62 | after grep, the split holds the matching lines and one final empty piece; no matching line is empty |
| Shell.Overwrite | src/install_refind.py:133-134 | a file opened with "w" holds exactly the new text; every other file is unchanged |
| Shell.Append | src/install_sb_refind.py:241-242 | a file opened with "a" holds its old text followed by the new text (an absent file starts empty); every other file is unchanged |
| Shell.RepeatedWrites | src/install_refind.py:133-134 | overwriting twice with the same text equals overwriting once; appending twice leaves two copies |
| Shell.MountEsp | src/install_refind.py:59-76 | succeeds exactly when `mount` does, and only then is the ESP mounted; `mkdir /boot/efi` runs only where the script checks for it and the directory is missing; then exactly one mount of the given device |
| Shell.UnmountEsp | src/install_sb_refind.py:114-118 | one `umount -R`; the ESP stays mounted only if that command fails; files unchanged |
| Shell.RefindInstall | src/install_sb_refind.py:120-130 | reports exactly the tool's success; one refind-install command (with or without shim); mount state and files unchanged |
| Shell.MountActionsView | src/install_sb_refind.py:95-112 | the commands of `mount_esp` mount its device exactly once, unmount nothing and delete no boot entry |
| BootEntries.ParseAllShape | src/install_sb_refind.py:70-75 | the parse succeeds exactly when every line has at least three comma fields; a failure is always IndexError; on success there is one entry per line, in order |
| BootEntries.RefindDataShape | src/install_sb_refind.py:56-75 | None exactly when no line remains; IndexError exactly when some line has fewer than two commas; otherwise a non-empty list with one entry per line, in order: the stripped first token and comma field 2 |
| BootEntries.ListingLinesAreLoaderLines | src/install_sb_refind.py:59-62 | the lines left to parse are exactly the `efibootmgr` lines that contain "rEFInd", in order |
| BootEntries.GetRefindData | src/install_sb_refind.py:56-75 | the method (early return, then the loop) computes `RefindData` |
| BootEntries.ParseLines | src/install_sb_refind.py:70-75 | the append loop builds exactly the parse of every line, and raises at the first short line |
| BootEntries.BootNumberOfWellFormed | src/install_sb_refind.py:72 | the token `Boot` + number + optional `*` yields the number, when the number's first and last characters are not B, o, t or `*` |
| BootEntries.InactiveNumberLosesTrailingB | src/install_sb_refind.py:72 | for a token without `*`, the boot number never ends in B, o or t |
| BootEntries.ActiveEntryNumber | src/install_sb_refind.py:72 | `Boot0001* rEFInd Boot Manager` gives `0001` |
| BootEntries.InactiveNumberDropsB | src/install_sb_refind.py:72 | an inactive token `Boot` + number + `B` yields the number without its final B |
| BootEntries.InactiveEntryNumberQuirk | src/install_sb_refind.py:72 | `Boot000B  rEFInd Boot Manager` gives `000` |
| BootEntries.LeadingBDropped | src/install_sb_refind.py:72 | a token `Boot` + `B` + number + optional `*` yields the number without its leading B, for active and inactive entries alike |
| BootEntries.ActiveLeadingBQuirk | src/install_sb_refind.py:72 | the active entry `BootB001* rEFInd Boot Manager` gives `001` |
| BootEntries.DevicePath | src/install_sb_refind.py:83 | the device path always starts with `/dev/` |
| BootEntries.DevicePathOfTreeRow | src/install_sb_refind.py:83 | a row made of an optional `├─` or `└─`, the device name and a space gives `/dev/` + the name |
| BootEntries.DevicePathKeepsName | src/install_sb_refind.py:83 | after `/dev/`, the path keeps every non-glyph character of the first token, in order |
| BootEntries.ResolveChildPartition | src/install_sb_refind.py:77-86 | `find_esp` on the child row `└─NAME  PARTUUID` gives `/dev/NAME` |
| BootEntries.DeleteActionsView | src/install_sb_refind.py:88-93 | the delete commands name the entries' boot numbers, in list order, and mount or unmount nothing |
| BootEntries.DeleteAppend | src/files/update_refind.py:63-68 | appending the delete commands to a trace adds exactly the entries' boot numbers to its deletions |
| BootEntries.DeleteEntries | src/files/update_refind.py:63-68 | exactly one delete per entry, in list order, whatever each returns; mount state and files unchanged |
| RootIds.LastRootLine | src/install_sb_refind.py:189-192 | it is a line with a `/` word, and no later line has one |
| RootIds.ScanGuidsRaised | src/install_sb_refind.py:189-192 | the loop raises, always IndexError, exactly when some root line has fewer than four words |
| RootIds.ScanGuidsValue | src/install_sb_refind.py:186-192 | a finished loop holds words 2 and 3 of the last root line, or the initial empty pair when there is no root line |
| RootIds.RootGuidsShape | src/install_sb_refind.py:182-200 | IndexError exactly when a root line is short; None exactly when the loop completes without a root line; otherwise words 2 and 3 of the last root line |
| RootIds.FindRootGuids | src/install_sb_refind.py:182-200 | the method (reassigning loop, then the emptiness check) computes `RootGuids` |
| RootIds.ScanUuidRaised | src/install_refind.py:103-105 | the loop raises, always IndexError, exactly when some root line's first word has no `=` |
| RootIds.ScanUuidValue | src/install_refind.py:103-105 | a finished loop leaves the variable unassigned exactly when there is no root line; otherwise it holds piece 1 of the `=`-split first word of the last root line |
| RootIds.RootUuidShape | src/install_refind.py:97-112 | IndexError exactly when a root line's first word lacks `=`; UnboundLocalError when there is no root line; otherwise piece 1 of the last root line, with None for an empty piece |
| RootIds.FindRootUuid | src/install_refind.py:97-112 | the method computes `RootUuid` |
| EspChoice.EspCandidates | src/install_refind.py:39-42 | one candidate per line left after the first empty piece is removed |
| EspChoice.CandidatesOfDisk | src/install_refind.py:35-42 | the candidates are, in order, the space-free first fields of exactly the `fdisk` lines that mention "EFI System" |
| EspChoice.FirstAtMost | src/install_refind.py:51-53 | the index of the first answer not above the count; every earlier answer is above it |
| EspChoice.ChooseEspCases | src/install_refind.py:44-56 | no candidate gives IndexError; one candidate is returned without a question; with several: answers above the count are asked again; running out raises EOFError; 1..n picks that candidate; 0 picks the last; at or below -n gives IndexError; a returned value is always a candidate |
| EspChoice.AskChoice | src/install_refind.py:51-53 | the prompt loop returns the first answer not above the count, and the number of answers read, or EOFError once the answers run out |
| EspChoice.PickEsp | src/install_refind.py:44-56 | the method (question only for several candidates, then `esp_entries[choice - 1]`) computes `ChooseEsp` |
| EspChoice.DetectEsp | src/install_refind.py:33-56 | `detect_esp` returns or raises what `ChooseEsp` gives for the listing's candidates |
| LoaderConfig.OptionLinesAreLines | src/install_refind.py:115-119 | with a newline-free UUID and microcode argument, none of the three option lines holds a newline |
| LoaderConfig.RefindLinuxConfLines | src/install_refind.py:115-119 | the rendered file read back line by line is an empty line, the three option lines and an empty final piece |
| LoaderConfig.OptionLinesCarryUuid | src/install_refind.py:116-130 | all three option lines carry `rw root=UUID=` + the UUID; the first two carry the microcode argument |
| LoaderConfig.UpdateRefindLinuxConf | src/install_refind.py:114-136 | the file is overwritten with the template rendered with the Intel image if present, else the AMD image, else nothing; one write action; mount state unchanged |
| LoaderConfig.RefindLinuxConfIdempotent | src/install_refind.py:133-134 | running the renderer again with the same inputs leaves the same file |
| LoaderConfig.MenuEntryLines | src/install_sb_refind.py:204-235 | the edited template has 18 lines: line 4 holds the partition GUID, line 7 the UUID and microcode argument, every other line is the template's |
| LoaderConfig.TemplateLinesAreLines | src/install_sb_refind.py:204-222 | no template line outside the two edited ones holds a newline |
| LoaderConfig.MenuEntryRoundTrip | src/install_sb_refind.py:224-238 | the appended text split on newlines gives back the 18 lines; it starts with a newline and ends with `}` |
| LoaderConfig.AddArchLinuxEntry | src/install_sb_refind.py:203-244 | Intel before AMD; with neither image it raises UnboundLocalError and nothing is written; otherwise the joined entry is appended to refind.conf with one write action |
| LoaderConfig.ArchLinuxEntryAccumulates | src/install_sb_refind.py:238-242 | appending is not idempotent: a second run leaves two entries, the second on a line of its own |
| Packages.FirstUnavailable | src/install_refind.py:14-27 | the first package the loop cannot get past: every earlier one is installed or installable, and that one is neither |
| Packages.CheckAllFailureSticks | src/install_refind.py:24-27 | once the loop has returned False, later packages change neither the verdict nor the commands |
| Packages.StepQueries | src/install_refind.py:15-27 | one iteration queries its package exactly once, and goes on exactly when the package is installed or installable |
| Packages.CheckAllStopsAtFirstFailure | src/install_refind.py:14-30 | the loop returns True exactly when every package is available; it queries the packages in order up to and including the first unavailable one, and never a later one |
| Packages.CheckAllCommands | src/install_refind.py:14-27 | every command of the loop is a query, or the install of a package that is neither installed nor refused |
| Packages.CheckOne | src/install_refind.py:15-27 | one iteration: a query; an install only when the package is missing; goes on exactly when the package is available |
| Packages.CheckEach | src/install_refind.py:14-30 | the loop with its early return computes `CheckAll`: verdict and commands |
| Packages.SbPackageCheckOk | src/install_sb_refind.py:16-54 | True exactly when refind, mokutil and sbsigntools are available and shim-signed is installed or its AUR build succeeds; the database sync comes first; shim-signed is queried only once the three are available, and built only when it is missing; nothing is mounted or deleted |
| Packages.CheckSbPackages | src/install_sb_refind.py:16-54 | the method runs exactly the commands of `SbPackageCheck` and returns its verdict |
| Packages.InstallerPackageCheckOk | src/install_refind.py:6-30 | True exactly when refind and efibootmgr are available; the sync comes first; when refind is unavailable, efibootmgr is never queried |
| Packages.CheckInstallerPackages | src/install_refind.py:6-30 | the method runs exactly the commands of `InstallerPackageCheck` and returns its verdict |
| Packages.UpdaterPackageCheckOk | src/files/update_refind.py:4-29 | True exactly when refind, mokutil and sbsigntools are available and shim-signed is installed; shim-signed is never installed or built; there is no database sync; no mount point is created |
| Packages.CheckUpdaterPackages | src/files/update_refind.py:4-29 | the method runs exactly the commands of `UpdaterPackageCheck` and returns its verdict |
| InstallSbRefind.SignLinuxKernel | src/install_sb_refind.py:132-151 | backup, sign and verify run in that order; the verdict is True exactly when `sbverify` printed something, whatever `sbsign` returned |
| InstallSbRefind.PackagePhaseQuiet | src/install_sb_refind.py:252-261 | the commands before `get_refind_data` mount, unmount and delete nothing |
| InstallSbRefind.Run | src/install_sb_refind.py:247-303 | each exit code 0-6 and each crash holds exactly under its stage condition. The ESP is mounted at the end exactly when the mount succeeded and the run did not reach a successful unmount. It is mounted once, only when entries were found. Entries are deleted only after a successful mount. It is unmounted only after the menu entry is written. The script itself changes refind.conf only by appending that entry. Exit 0 runs exactly the success command sequence |
| InstallSbRefind.Locate | src/install_sb_refind.py:263-303 | the same, from `get_refind_data` on |
| InstallSbRefind.Install | src/install_sb_refind.py:269-303 | from `find_esp` on: exit 3 exactly when the mount fails; deletions only after it succeeds |
| InstallSbRefind.Deploy | src/install_sb_refind.py:275-303 | with the ESP mounted: the deletes, then refind-install, which is the only cause of exit 4 |
| InstallSbRefind.Finish | src/install_sb_refind.py:281-303 | exit 5 exactly when no root GUIDs are found; a crash on a short root line or without microcode; otherwise the entry is appended and the run goes on |
| InstallSbRefind.Conclude | src/install_sb_refind.py:289-303 | one unmount, then the signing; exit 6 exactly when `sbverify` printed nothing; exit 0 after the hook files are deployed |
| InstallRefind.Run | src/install_refind.py:138-167 | exit 1 for packages, 2 for an empty root UUID, 3 for the mount, 4 for refind-install, 0 otherwise, each exactly under its condition. The ESP choice and fstab failures crash before anything is mounted. Exit 4 leaves the ESP mounted. Success unmounts exactly once and overwrites refind_linux.conf. Nothing is deleted |
| InstallRefind.Locate | src/install_refind.py:147-167 | the same, from `detect_esp` on: the root UUID is resolved before the mount |
| InstallRefind.Install | src/install_refind.py:154-167 | from the mount on: the mount, refind-install, the configuration write and one unmount, in that order |
| UpdateRefind.Run | src/files/update_refind.py:103-133 | exit 1 for packages, 2 for no entry, 3 for the mount, 4 for refind-install, 0 otherwise, each exactly under its condition. A short entry line crashes. Entries are deleted only after a successful mount. Exit 4 leaves the ESP mounted. Success unmounts exactly once. On no path is the mount point created. No file is written |
| UpdateRefind.Locate | src/files/update_refind.py:112-133 | the same, from `get_refind_data` on |
| UpdateRefind.Upgrade | src/files/update_refind.py:118-133 | from `find_esp` on: on every path, including the failed mount and the failed install, it creates no mount point; exit 3 exactly when the mount fails |
| UpdateRefind.Replace | src/files/update_refind.py:124-133 | with the ESP mounted: one delete per entry, refind-install with shim, and the unmount only when it succeeds; no mount point is created |

## Left out

- Tools are not modelled. Each command's output or exit status is an input (`Shell.Host`), and its effect is an `Action` in the trace. What `pacman`, `git`/`makepkg`, `efibootmgr`, `lsblk`, `fdisk`, `mount`, `refind-install`, `sbsign` and `sbverify` do inside is out of scope. In particular, `World.files` holds only the files the scripts write themselves; what `refind-install` writes on the ESP (including its own refind.conf) is not recorded.
- `check_secureboot` is one `QuerySecureBoot` action. Its result only chooses log messages.
- `copy_files` is one `CopyHookFiles` action. It has no decision that affects the outcome.
- Logging and `logging.basicConfig` are left out, and so are the messages `main` prints at the end.
- The exit status of `sbsign` is an input (`signOk`) that the model never consults, as the script never does.
- `int(input(...))` is modelled by the sequence of integers typed. A `ValueError` from input that is not a number is not modelled.
- Errors from `open()` are not modelled: a missing `/etc/fstab`, or an unwritable `refind.conf` or `refind_linux.conf`.
- Reading `/etc/fstab` is not an action in the trace. Its contents are an input.
- `grep` is modelled as a fixed-substring line filter. Regular-expression metacharacters in a pattern are not modelled, and neither is shell word splitting of an unquoted pattern.
- `split()` uses Python's whitespace set as listed in `PyText.IsSpace`. Other Unicode whitespace is not modelled.
- EspChoice.DetectEsp: the number of answers read is returned, but the `World` does not record the prompts or the list printed before them.
- InstallSbRefind.Run: it gives the complete command sequence only for exit 0. For the other outcomes it states the mounts, unmounts and deletions in the trace, not every command.
- InstallRefind.Run: as with `InstallSbRefind.Run`, the complete command sequence is stated only for exit 0.
- UpdateRefind.Run: as with `InstallSbRefind.Run`, the complete command sequence is stated only for exit 0. The other exits are described by the views and by the clause that the mount point is never created.
- BootEntries.DevicePath: "no tree glyph remains in the path" is not proved, because it is false (`├└──` becomes `├─`). `DevicePathOfTreeRow` and `DevicePathKeepsName` state what does hold.
