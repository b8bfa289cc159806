/** `main` of install_refind.py: the installer without Secure Boot. Its
    stages are the package check, the choice of ESP, the root UUID from
    fstab, the mount, refind-install, the refind_linux.conf update and the
    unmount; the first that fails ends the run with its exit code. */
module InstallRefind {
  import opened Python
  import opened Shell
  import opened EspChoice
  import opened RootIds
  import opened LoaderConfig
  import opened Packages

  // ---------------------------------------------------------------------------
  // How far a run gets on a given host

  predicate PackagesReady(host: Host)
  {
    InstallerPackageCheck(host).0
  }

  /** What `detect_esp` returns or raises on this host. */
  function EspPick(host: Host): Result<string>
  {
    ChooseEsp(EspCandidates(EspListing(host.fdiskList)), host.choices).0
  }

  /** The packages are in place and `detect_esp` returned a partition. */
  predicate EspChosen(host: Host)
  {
    PackagesReady(host) && EspPick(host).Ok?
  }

  /** `find_root_uuid` found a non-empty UUID. */
  predicate UuidFound(host: Host)
  {
    RootUuid(host.fstab).Ok? && RootUuid(host.fstab).value.Some?
  }

  /** The stages before the mount all succeeded. */
  predicate ReadyToMount(host: Host)
  {
    EspChosen(host) && UuidFound(host)
  }

  /** The run reaches `exit(0)`. */
  predicate Succeeds(host: Host)
  {
    ReadyToMount(host) && host.mountOk && host.installOk
  }

  /** refind_linux.conf as this host's run writes it. */
  function ConfText(host: Host): string
    requires UuidFound(host)
  {
    RefindLinuxConf(RootUuid(host.fstab).value.value, MicrocodeInitrd(FoundMicrocode(host)))
  }

  /** Every command of a run that gets to `exit(0)`, in order. */
  function SuccessTrace(host: Host): seq<Action>
    requires EspChosen(host)
  {
    InstallerPackageCheck(host).1 + [ListEspCandidates] + MountActions(host, EspPick(host).value, true)
    + [RunRefindInstall(false)] + [WriteFile(RefindLinuxConfPath, false)] + [Unmount]
  }

  // ---------------------------------------------------------------------------
  // main

  /** `main`, from an unmounted ESP. Exit code 1 is for packages, 2 for an
      empty root UUID, 3 for the mount and 4 for refind-install; no
      candidate partition, running out of answers at the prompt, a bad fstab
      root line or no fstab root line at all raise. The root UUID is
      resolved before anything is mounted; exit 4 leaves the ESP mounted; a
      successful run unmounts it exactly once. Nothing is deleted, and
      refind_linux.conf is written only on a successful run. */
  method Run(host: Host) returns (outcome: Outcome, w: World)
    ensures outcome == Exit(1) <==> !PackagesReady(host)
    ensures outcome == Exit(2) <==> EspChosen(host) && RootUuid(host.fstab) == Ok(None)
    ensures outcome == Exit(3) <==> ReadyToMount(host) && !host.mountOk
    ensures outcome == Exit(4) <==> ReadyToMount(host) && host.mountOk && !host.installOk
    ensures outcome == Exit(0) <==> Succeeds(host)
    ensures outcome.Exit? ==> 0 <= outcome.code <= 4
    ensures outcome.Crash? <==>
      || (PackagesReady(host) && EspPick(host).Raised?)
      || (EspChosen(host) && RootUuid(host.fstab).Raised?)
    ensures w.mounted <==> ReadyToMount(host) && host.mountOk && (!host.installOk || !host.unmountOk)
    ensures Mounts(w.trace) == (if ReadyToMount(host) then [EspPick(host).value] else [])
    ensures Deletions(w.trace) == []
    ensures Unmounts(w.trace) == (if Succeeds(host) then 1 else 0)
    ensures w.files == (if Succeeds(host) then Overwrite(host.files, RefindLinuxConfPath, ConfText(host)) else host.files)
    ensures outcome == Exit(0) ==> w.trace == SuccessTrace(host)
  {
    var ok;
    ok, w := CheckInstallerPackages(host, World(false, [], host.files));
    assert w.trace == InstallerPackageCheck(host).1;
    assert Mounts(w.trace) == [] && Unmounts(w.trace) == 0 && Deletions(w.trace) == [] by {
      InstallerPackageCheckOk(host);
      QuietViews(w.trace);
    }
    if !ok {
      return Exit(1), w;
    }
    outcome, w := Locate(host, w);
  }

  /** Once the packages are in place: `detect_esp`, `find_root_uuid`, then
      the stages from the mount on. */
  method Locate(host: Host, w0: World) returns (outcome: Outcome, w: World)
    requires PackagesReady(host)
    requires w0 == World(false, InstallerPackageCheck(host).1, host.files)
    requires Mounts(w0.trace) == [] && Unmounts(w0.trace) == 0 && Deletions(w0.trace) == []
    ensures outcome == Exit(2) <==> EspChosen(host) && RootUuid(host.fstab) == Ok(None)
    ensures outcome == Exit(3) <==> ReadyToMount(host) && !host.mountOk
    ensures outcome == Exit(4) <==> ReadyToMount(host) && host.mountOk && !host.installOk
    ensures outcome == Exit(0) <==> Succeeds(host)
    ensures outcome.Exit? ==> 0 <= outcome.code <= 4 && outcome.code != 1
    ensures outcome.Crash? <==> EspPick(host).Raised? || (EspChosen(host) && RootUuid(host.fstab).Raised?)
    ensures w.mounted <==> ReadyToMount(host) && host.mountOk && (!host.installOk || !host.unmountOk)
    ensures Mounts(w.trace) == (if ReadyToMount(host) then [EspPick(host).value] else [])
    ensures Deletions(w.trace) == []
    ensures Unmounts(w.trace) == (if Succeeds(host) then 1 else 0)
    ensures w.files == (if Succeeds(host) then Overwrite(host.files, RefindLinuxConfPath, ConfText(host)) else host.files)
    ensures outcome == Exit(0) ==> w.trace == SuccessTrace(host)
  {
    var w1 := w0.(trace := w0.trace + [ListEspCandidates]);
    assert Mounts(w1.trace) == [] && Unmounts(w1.trace) == 0 && Deletions(w1.trace) == [] by {
      QuietAppend(w0.trace, [ListEspCandidates]);
    }
    var espPart, prompts := DetectEsp(EspListing(host.fdiskList), host.choices);
    if espPart.Raised? {
      return Crash(espPart.error), w1;
    }
    var rootUuid := FindRootUuid(host.fstab);
    if rootUuid.Raised? {
      return Crash(rootUuid.error), w1;
    }
    if rootUuid.value.None? {
      return Exit(2), w1;
    }
    outcome, w := Install(host, w1, espPart.value, rootUuid.value.value);
  }

  /** From the mount on: mount, refind-install, refind_linux.conf, unmount. */
  method Install(host: Host, w0: World, espPart: string, rootUuid: string) returns (outcome: Outcome, w: World)
    requires !w0.mounted
    ensures outcome == Exit(3) <==> !host.mountOk
    ensures outcome == Exit(4) <==> host.mountOk && !host.installOk
    ensures outcome == Exit(0) <==> host.mountOk && host.installOk
    ensures outcome.Exit?
    ensures w.mounted <==> host.mountOk && (!host.installOk || !host.unmountOk)
    ensures Mounts(w.trace) == Mounts(w0.trace) + [espPart]
    ensures Deletions(w.trace) == Deletions(w0.trace)
    ensures Unmounts(w.trace) == Unmounts(w0.trace) + (if host.mountOk && host.installOk then 1 else 0)
    ensures w.files == (if host.mountOk && host.installOk
                        then Overwrite(w0.files, RefindLinuxConfPath,
                                       RefindLinuxConf(rootUuid, MicrocodeInitrd(FoundMicrocode(host))))
                        else w0.files)
    ensures outcome == Exit(0) ==>
      w.trace == w0.trace + MountActions(host, espPart, true)
        + [RunRefindInstall(false)] + [WriteFile(RefindLinuxConfPath, false)] + [Unmount]
  {
    var ok, w1 := MountEsp(host, w0, espPart, true);
    assert Mounts(w1.trace) == Mounts(w0.trace) + [espPart]
        && Unmounts(w1.trace) == Unmounts(w0.trace) && Deletions(w1.trace) == Deletions(w0.trace) by {
      MountAppend(host, w0.trace, espPart, true);
    }
    if !ok {
      return Exit(3), w1;
    }
    var w2;
    ok, w2 := RefindInstall(host, w1, false);
    assert Mounts(w2.trace) == Mounts(w1.trace) && Unmounts(w2.trace) == Unmounts(w1.trace)
        && Deletions(w2.trace) == Deletions(w1.trace) by {
      QuietAppend(w1.trace, [RunRefindInstall(false)]);
    }
    if !ok {
      return Exit(4), w2;
    }
    var w3 := UpdateRefindLinuxConf(host, w2, rootUuid);
    w := UnmountEsp(host, w3);
    assert Mounts(w.trace) == Mounts(w2.trace) && Unmounts(w.trace) == Unmounts(w2.trace) + 1
        && Deletions(w.trace) == Deletions(w2.trace) by {
      QuietAppend(w2.trace, [WriteFile(RefindLinuxConfPath, false)]);
      UnmountAppend(w3.trace);
    }
    outcome := Exit(0);
  }
}
