/** `main` of install_sb_refind.py: the Secure Boot installer. Its stages run
    in a fixed order (packages, boot entries, mount, delete entries,
    refind-install, root identifiers, menu entry, unmount, kernel signing,
    hook files) and the first that fails ends the run with its exit code. */
module InstallSbRefind {
  import opened Python
  import opened Shell
  import opened BootEntries
  import opened RootIds
  import opened LoaderConfig
  import opened Packages

  const SigningActions: seq<Action> := [BackupKernel, SignKernel, VerifyKernel]

  /** `sign_linux_kernel`: the kernel is backed up, signed and verified; the
      verdict is whether `sbverify --list` printed anything, whatever
      `sbsign` returned. */
  method SignLinuxKernel(host: Host, w: World) returns (ok: bool, w': World)
    ensures ok <==> host.verifyOutput != ""
    ensures w'.trace == w.trace + SigningActions
    ensures w'.mounted == w.mounted && w'.files == w.files
  {
    w' := w.(trace := w.trace + SigningActions);
    ok := host.verifyOutput != "";
  }

  // ---------------------------------------------------------------------------
  // How far a run gets on a given host

  /** What `efibootmgr | grep rEFInd` prints on this host. */
  function Listing(host: Host): string
  {
    BootListing(host.efibootmgr)
  }

  predicate PackagesReady(host: Host)
  {
    SbPackageCheck(host).0
  }

  /** The packages are in place and `get_refind_data` found entries. */
  predicate EntriesFound(host: Host)
  {
    PackagesReady(host) && EntriesParsed(host)
  }

  /** `get_refind_data` returned a list of entries. */
  predicate EntriesParsed(host: Host)
  {
    RefindData(Listing(host)).Ok? && RefindData(Listing(host)).value.Some?
  }

  function Entries(host: Host): (es: seq<BootEntry>)
    requires EntriesParsed(host)
    ensures |es| > 0
  {
    RefindDataShape(Listing(host));
    RefindData(Listing(host)).value.value
  }

  /** The ESP device `find_esp` derives on this host. */
  function Esp(host: Host): string
    requires EntriesParsed(host)
  {
    FindEsp(Entries(host), host.partitions)
  }

  predicate EspMounted(host: Host)
  {
    EntriesFound(host) && host.mountOk
  }

  predicate RefindInstalled(host: Host)
  {
    EspMounted(host) && host.installOk
  }

  /** `find_root_guids` found both identifiers. */
  predicate GuidsFound(host: Host)
  {
    RootGuids(host.rootIds).Ok? && RootGuids(host.rootIds).value.Some?
  }

  predicate HasMicrocode(host: Host)
  {
    host.intelUcode || host.amdUcode
  }

  /** rEFInd is installed and `find_root_guids` found both identifiers. */
  predicate RootFound(host: Host)
  {
    RefindInstalled(host) && GuidsFound(host)
  }

  /** The menu entry was appended: a microcode image exists. */
  predicate EntryAdded(host: Host)
  {
    RootFound(host) && HasMicrocode(host)
  }

  /** The menu entry `add_archlinux_entry` appends on this host. */
  function RootEntry(host: Host): string
    requires GuidsFound(host) && HasMicrocode(host)
  {
    var ids := RootGuids(host.rootIds).value.value;
    MenuEntry(ids.1, ids.0, MicrocodeInitrd(FoundMicrocode(host)))
  }

  /** Every command of a run that gets to `exit(0)`, in order. */
  function SuccessTrace(host: Host): seq<Action>
    requires EntriesFound(host)
  {
    [QuerySecureBoot] + SbPackageCheck(host).1 + [ListBootEntries]
    + [ListPartitions(Entries(host)[0].partUuid)] + MountActions(host, Esp(host), true)
    + DeleteActions(Entries(host)) + [RunRefindInstall(true)]
    + [ListRootIds] + [WriteFile(RefindConfPath, true)] + [Unmount] + SigningActions + [CopyHookFiles]
  }

  // ---------------------------------------------------------------------------
  // main

  /** `main`, from an unmounted ESP. Exit code 1 is for packages, 2 for no
      rEFInd entry, 3 for the mount, 4 for refind-install, 5 for the root
      identifiers and 6 for the signature; a malformed boot entry, a short
      root line or a missing microcode image raises. The ESP is mounted once,
      only when entries were found, and unmounted only once the menu entry
      is written: exits 4 and 5 and the exceptions after the mount leave it
      mounted. Boot entries are deleted only after a successful mount, and
      refind.conf is changed only by the appended menu entry. */
  method Run(host: Host) returns (outcome: Outcome, w: World)
    ensures outcome == Exit(1) <==> !PackagesReady(host)
    ensures outcome == Exit(2) <==> PackagesReady(host) && RefindData(Listing(host)) == Ok(None)
    ensures outcome == Exit(3) <==> EntriesFound(host) && !host.mountOk
    ensures outcome == Exit(4) <==> EspMounted(host) && !host.installOk
    ensures outcome == Exit(5) <==> RefindInstalled(host) && RootGuids(host.rootIds) == Ok(None)
    ensures outcome == Exit(6) <==> EntryAdded(host) && host.verifyOutput == ""
    ensures outcome == Exit(0) <==> EntryAdded(host) && host.verifyOutput != ""
    ensures outcome.Exit? ==> 0 <= outcome.code <= 6
    ensures outcome.Crash? <==>
      || (PackagesReady(host) && RefindData(Listing(host)).Raised?)
      || (RefindInstalled(host) && RootGuids(host.rootIds).Raised?)
      || (RootFound(host) && !host.intelUcode && !host.amdUcode)
    ensures w.mounted <==> EspMounted(host) && (!EntryAdded(host) || !host.unmountOk)
    ensures Mounts(w.trace) == (if EntriesFound(host) then [Esp(host)] else [])
    ensures Deletions(w.trace) == (if EspMounted(host) then BootNumbers(Entries(host)) else [])
    ensures Unmounts(w.trace) == (if EntryAdded(host) then 1 else 0)
    ensures w.files == (if EntryAdded(host) then Append(host.files, RefindConfPath, RootEntry(host)) else host.files)
    ensures outcome == Exit(0) ==> w.trace == SuccessTrace(host)
  {
    w := World(false, [QuerySecureBoot], host.files);
    var ok;
    ok, w := CheckSbPackages(host, w);
    PackagePhaseQuiet(host);
    if !ok {
      return Exit(1), w;
    }
    outcome, w := Locate(host, w);
  }

  /** Once the packages are in place: `get_refind_data`, then the stages
      from `find_esp` on. */
  method Locate(host: Host, w0: World) returns (outcome: Outcome, w: World)
    requires PackagesReady(host)
    requires w0 == World(false, [QuerySecureBoot] + SbPackageCheck(host).1, host.files)
    requires Mounts(w0.trace) == [] && Unmounts(w0.trace) == 0 && Deletions(w0.trace) == []
    ensures outcome == Exit(2) <==> PackagesReady(host) && RefindData(Listing(host)) == Ok(None)
    ensures outcome == Exit(3) <==> EntriesFound(host) && !host.mountOk
    ensures outcome == Exit(4) <==> EspMounted(host) && !host.installOk
    ensures outcome == Exit(5) <==> RefindInstalled(host) && RootGuids(host.rootIds) == Ok(None)
    ensures outcome == Exit(6) <==> EntryAdded(host) && host.verifyOutput == ""
    ensures outcome == Exit(0) <==> EntryAdded(host) && host.verifyOutput != ""
    ensures outcome.Exit? ==> 0 <= outcome.code <= 6
    ensures outcome.Crash? <==>
      || (PackagesReady(host) && RefindData(Listing(host)).Raised?)
      || (RefindInstalled(host) && RootGuids(host.rootIds).Raised?)
      || (RootFound(host) && !host.intelUcode && !host.amdUcode)
    ensures w.mounted <==> EspMounted(host) && (!EntryAdded(host) || !host.unmountOk)
    ensures Mounts(w.trace) == (if EntriesFound(host) then [Esp(host)] else [])
    ensures Deletions(w.trace) == (if EspMounted(host) then BootNumbers(Entries(host)) else [])
    ensures Unmounts(w.trace) == (if EntryAdded(host) then 1 else 0)
    ensures w.files == (if EntryAdded(host) then Append(host.files, RefindConfPath, RootEntry(host)) else host.files)
    ensures outcome == Exit(0) ==> w.trace == SuccessTrace(host)
  {
    var w1 := w0.(trace := w0.trace + [ListBootEntries]);
    assert Mounts(w1.trace) == [] && Unmounts(w1.trace) == 0 && Deletions(w1.trace) == [] by {
      QuietAppend(w0.trace, [ListBootEntries]);
    }
    var rd := GetRefindData(Listing(host));
    if rd.Raised? {
      return Crash(rd.error), w1;
    }
    if rd.value.None? {
      return Exit(2), w1;
    }
    assert |rd.value.value| > 0 by {
      RefindDataShape(Listing(host));
    }
    outcome, w := Install(host, w1, rd.value.value);
  }

  /** The commands up to the package check touch neither the ESP nor the
      boot entries. */
  lemma PackagePhaseQuiet(host: Host)
    ensures var t := [QuerySecureBoot] + SbPackageCheck(host).1;
      Mounts(t) == [] && Unmounts(t) == 0 && Deletions(t) == []
  {
    SbPackageCheckOk(host);
    QuietViews([QuerySecureBoot] + SbPackageCheck(host).1);
  }

  /** The ESP is mounted and refind-install succeeded. */
  predicate Installed(host: Host)
  {
    host.mountOk && host.installOk
  }

  /** The stages from `find_esp` on, once entries were found. */
  method Install(host: Host, w0: World, entries: seq<BootEntry>) returns (outcome: Outcome, w: World)
    requires |entries| > 0 && !w0.mounted
    ensures outcome == Exit(3) <==> !host.mountOk
    ensures outcome == Exit(4) <==> host.mountOk && !host.installOk
    ensures outcome == Exit(5) <==> Installed(host) && RootGuids(host.rootIds) == Ok(None)
    ensures outcome == Exit(6) <==> Installed(host) && GuidsFound(host) && HasMicrocode(host) && host.verifyOutput == ""
    ensures outcome == Exit(0) <==> Installed(host) && GuidsFound(host) && HasMicrocode(host) && host.verifyOutput != ""
    ensures outcome.Exit? ==> 0 <= outcome.code <= 6 && outcome.code != 1 && outcome.code != 2
    ensures outcome.Crash? <==>
      Installed(host) && (RootGuids(host.rootIds).Raised? || (GuidsFound(host) && !HasMicrocode(host)))
    ensures w.mounted <==>
      host.mountOk && (!(Installed(host) && GuidsFound(host) && HasMicrocode(host)) || !host.unmountOk)
    ensures Mounts(w.trace) == Mounts(w0.trace) + [FindEsp(entries, host.partitions)]
    ensures Deletions(w.trace) == Deletions(w0.trace) + (if host.mountOk then BootNumbers(entries) else [])
    ensures Unmounts(w.trace) ==
      Unmounts(w0.trace) + (if Installed(host) && GuidsFound(host) && HasMicrocode(host) then 1 else 0)
    ensures w.files == (if Installed(host) && GuidsFound(host) && HasMicrocode(host)
                        then Append(w0.files, RefindConfPath, RootEntry(host)) else w0.files)
    ensures outcome == Exit(0) ==>
      w.trace == w0.trace + [ListPartitions(entries[0].partUuid)] + MountActions(host, FindEsp(entries, host.partitions), true)
        + DeleteActions(entries) + [RunRefindInstall(true)]
        + [ListRootIds] + [WriteFile(RefindConfPath, true)] + [Unmount] + SigningActions + [CopyHookFiles]
  {
    var espPart := FindEsp(entries, host.partitions);
    var w1 := w0.(trace := w0.trace + [ListPartitions(entries[0].partUuid)]);
    var ok, w2 := MountEsp(host, w1, espPart, true);
    assert Mounts(w2.trace) == Mounts(w0.trace) + [espPart]
        && Unmounts(w2.trace) == Unmounts(w0.trace) && Deletions(w2.trace) == Deletions(w0.trace) by {
      QuietAppend(w0.trace, [ListPartitions(entries[0].partUuid)]);
      MountAppend(host, w1.trace, espPart, true);
    }
    if !ok {
      return Exit(3), w2;
    }
    outcome, w := Deploy(host, w2, entries);
  }

  /** With the ESP mounted: delete the old entries, run refind-install, and
      go on with the stages after it. */
  method Deploy(host: Host, w0: World, entries: seq<BootEntry>) returns (outcome: Outcome, w: World)
    requires w0.mounted
    ensures outcome == Exit(4) <==> !host.installOk
    ensures outcome == Exit(5) <==> host.installOk && RootGuids(host.rootIds) == Ok(None)
    ensures outcome == Exit(6) <==> host.installOk && GuidsFound(host) && HasMicrocode(host) && host.verifyOutput == ""
    ensures outcome == Exit(0) <==> host.installOk && GuidsFound(host) && HasMicrocode(host) && host.verifyOutput != ""
    ensures outcome.Exit? ==> outcome.code == 0 || 4 <= outcome.code <= 6
    ensures outcome.Crash? <==>
      host.installOk && (RootGuids(host.rootIds).Raised? || (GuidsFound(host) && !HasMicrocode(host)))
    ensures w.mounted <==> !(host.installOk && GuidsFound(host) && HasMicrocode(host)) || !host.unmountOk
    ensures Mounts(w.trace) == Mounts(w0.trace)
    ensures Deletions(w.trace) == Deletions(w0.trace) + BootNumbers(entries)
    ensures Unmounts(w.trace) ==
      Unmounts(w0.trace) + (if host.installOk && GuidsFound(host) && HasMicrocode(host) then 1 else 0)
    ensures w.files == (if host.installOk && GuidsFound(host) && HasMicrocode(host)
                        then Append(w0.files, RefindConfPath, RootEntry(host)) else w0.files)
    ensures outcome == Exit(0) ==>
      w.trace == w0.trace + DeleteActions(entries) + [RunRefindInstall(true)]
        + [ListRootIds] + [WriteFile(RefindConfPath, true)] + [Unmount] + SigningActions + [CopyHookFiles]
  {
    var w1 := DeleteEntries(w0, entries);
    var ok, w2 := RefindInstall(host, w1, true);
    assert Mounts(w2.trace) == Mounts(w0.trace) && Unmounts(w2.trace) == Unmounts(w0.trace)
        && Deletions(w2.trace) == Deletions(w0.trace) + BootNumbers(entries) by {
      DeleteAppend(w0.trace, entries);
      QuietAppend(w1.trace, [RunRefindInstall(true)]);
    }
    if !ok {
      return Exit(4), w2;
    }
    outcome, w := Finish(host, w2);
  }

  /** The stages after refind-install: root identifiers, then the menu
      entry and what follows it. */
  method Finish(host: Host, w0: World) returns (outcome: Outcome, w: World)
    requires w0.mounted
    ensures outcome == Exit(5) <==> RootGuids(host.rootIds) == Ok(None)
    ensures outcome == Exit(6) <==> GuidsFound(host) && HasMicrocode(host) && host.verifyOutput == ""
    ensures outcome == Exit(0) <==> GuidsFound(host) && HasMicrocode(host) && host.verifyOutput != ""
    ensures outcome.Exit? ==> outcome.code == 0 || outcome.code == 5 || outcome.code == 6
    ensures outcome.Crash? <==>
      RootGuids(host.rootIds).Raised? || (GuidsFound(host) && !HasMicrocode(host))
    ensures w.mounted <==> !(GuidsFound(host) && HasMicrocode(host)) || !host.unmountOk
    ensures Mounts(w.trace) == Mounts(w0.trace) && Deletions(w.trace) == Deletions(w0.trace)
    ensures Unmounts(w.trace) == Unmounts(w0.trace) + (if GuidsFound(host) && HasMicrocode(host) then 1 else 0)
    ensures w.files == (if GuidsFound(host) && HasMicrocode(host)
                        then Append(w0.files, RefindConfPath, RootEntry(host)) else w0.files)
    ensures outcome == Exit(0) ==>
      w.trace == w0.trace + [ListRootIds] + [WriteFile(RefindConfPath, true)] + [Unmount] + SigningActions + [CopyHookFiles]
  {
    var w1 := w0.(trace := w0.trace + [ListRootIds]);
    assert Mounts(w1.trace) == Mounts(w0.trace) && Unmounts(w1.trace) == Unmounts(w0.trace)
        && Deletions(w1.trace) == Deletions(w0.trace) by {
      QuietAppend(w0.trace, [ListRootIds]);
    }
    var guids := FindRootGuids(host.rootIds);
    if guids.Raised? {
      return Crash(guids.error), w1;
    }
    if guids.value.None? {
      return Exit(5), w1;
    }
    var added, w2 := AddArchLinuxEntry(host, w1, guids.value.value.0, guids.value.value.1);
    if added.Raised? {
      return Crash(added.error), w2;
    }
    assert Mounts(w2.trace) == Mounts(w0.trace) && Unmounts(w2.trace) == Unmounts(w0.trace)
        && Deletions(w2.trace) == Deletions(w0.trace) by {
      QuietAppend(w1.trace, [WriteFile(RefindConfPath, true)]);
    }
    outcome, w := Conclude(host, w2);
  }

  /** After the menu entry: unmount, sign the kernel, deploy the hooks. */
  method Conclude(host: Host, w0: World) returns (outcome: Outcome, w: World)
    ensures outcome == (if host.verifyOutput != "" then Exit(0) else Exit(6))
    ensures w.mounted == (w0.mounted && !host.unmountOk)
    ensures Mounts(w.trace) == Mounts(w0.trace) && Deletions(w.trace) == Deletions(w0.trace)
    ensures Unmounts(w.trace) == Unmounts(w0.trace) + 1
    ensures w.files == w0.files
    ensures outcome == Exit(0) ==> w.trace == w0.trace + [Unmount] + SigningActions + [CopyHookFiles]
  {
    var w1 := UnmountEsp(host, w0);
    var signed, w2 := SignLinuxKernel(host, w1);
    assert Mounts(w2.trace) == Mounts(w0.trace) && Unmounts(w2.trace) == Unmounts(w0.trace) + 1
        && Deletions(w2.trace) == Deletions(w0.trace) by {
      UnmountAppend(w0.trace);
      QuietAppend(w1.trace, SigningActions);
    }
    if !signed {
      return Exit(6), w2;
    }
    w := w2.(trace := w2.trace + [CopyHookFiles]);
    assert Mounts(w.trace) == Mounts(w2.trace) && Unmounts(w.trace) == Unmounts(w2.trace)
        && Deletions(w.trace) == Deletions(w2.trace) by {
      QuietAppend(w2.trace, [CopyHookFiles]);
    }
    outcome := Exit(0);
  }
}
