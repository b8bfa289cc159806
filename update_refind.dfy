/** `main` of files/update_refind.py, the upgrade hook: the package check,
    the rEFInd boot entries, the mount, the deletion of the old entries,
    refind-install with shim, and the unmount. The first stage that fails
    ends the run with its exit code. */
module UpdateRefind {
  import opened Python
  import opened Shell
  import opened BootEntries
  import opened Packages

  // ---------------------------------------------------------------------------
  // How far a run gets on a given host

  /** What `efibootmgr | grep rEFInd` prints on this host. */
  function Listing(host: Host): string
  {
    BootListing(host.efibootmgr)
  }

  predicate PackagesReady(host: Host)
  {
    UpdaterPackageCheck(host).0
  }

  /** The packages are in place and `get_refind_data` found entries. */
  predicate EntriesFound(host: Host)
  {
    PackagesReady(host) && EntriesParsed(host)
  }

  /** `get_refind_data` returned a list of entries. */
  predicate EntriesParsed(host: Host)
  {
    RefindData(Listing(host)).Ok? && RefindData(Listing(host)).value.Some?
  }

  function Entries(host: Host): (es: seq<BootEntry>)
    requires EntriesParsed(host)
    ensures |es| > 0
  {
    RefindDataShape(Listing(host));
    RefindData(Listing(host)).value.value
  }

  /** The ESP device `find_esp` derives on this host. */
  function Esp(host: Host): string
    requires EntriesParsed(host)
  {
    FindEsp(Entries(host), host.partitions)
  }

  predicate EspMounted(host: Host)
  {
    EntriesFound(host) && host.mountOk
  }

  /** The run reaches `exit(0)`. */
  predicate Succeeds(host: Host)
  {
    EspMounted(host) && host.installOk
  }

  /** Every command of a run that gets to `exit(0)`, in order. */
  function SuccessTrace(host: Host): seq<Action>
    requires EntriesFound(host)
  {
    UpdaterPackageCheck(host).1 + [ListBootEntries]
    + [ListPartitions(Entries(host)[0].partUuid)] + MountActions(host, Esp(host), false)
    + DeleteActions(Entries(host)) + [RunRefindInstall(true)] + [Unmount]
  }

  // ---------------------------------------------------------------------------
  // main

  /** `main`, from an unmounted ESP. Exit code 1 is for packages, 2 for no
      rEFInd entry, 3 for the mount and 4 for refind-install; a malformed
      entry line raises. Entries are deleted only after a successful mount,
      exit 4 leaves the ESP mounted, and a successful run unmounts it
      exactly once. No file is written. */
  method Run(host: Host) returns (outcome: Outcome, w: World)
    ensures outcome == Exit(1) <==> !PackagesReady(host)
    ensures outcome == Exit(2) <==> PackagesReady(host) && RefindData(Listing(host)) == Ok(None)
    ensures outcome == Exit(3) <==> EntriesFound(host) && !host.mountOk
    ensures outcome == Exit(4) <==> EspMounted(host) && !host.installOk
    ensures outcome == Exit(0) <==> Succeeds(host)
    ensures outcome.Exit? ==> 0 <= outcome.code <= 4
    ensures outcome.Crash? <==> PackagesReady(host) && RefindData(Listing(host)).Raised?
    ensures w.mounted <==> EspMounted(host) && (!host.installOk || !host.unmountOk)
    ensures Mounts(w.trace) == (if EntriesFound(host) then [Esp(host)] else [])
    ensures Deletions(w.trace) == (if EspMounted(host) then BootNumbers(Entries(host)) else [])
    ensures Unmounts(w.trace) == (if Succeeds(host) then 1 else 0)
    ensures w.files == host.files
    ensures MakeMountPoint !in w.trace
    ensures outcome == Exit(0) ==> w.trace == SuccessTrace(host)
  {
    var ok;
    ok, w := CheckUpdaterPackages(host, World(false, [], host.files));
    assert w.trace == UpdaterPackageCheck(host).1;
    assert Mounts(w.trace) == [] && Unmounts(w.trace) == 0 && Deletions(w.trace) == []
        && MakeMountPoint !in w.trace by {
      UpdaterPackageCheckOk(host);
      QuietViews(w.trace);
    }
    if !ok {
      return Exit(1), w;
    }
    outcome, w := Locate(host, w);
  }

  /** Once the packages are in place: `get_refind_data`, then the stages
      from `find_esp` on. */
  method Locate(host: Host, w0: World) returns (outcome: Outcome, w: World)
    requires PackagesReady(host)
    requires w0 == World(false, UpdaterPackageCheck(host).1, host.files)
    requires Mounts(w0.trace) == [] && Unmounts(w0.trace) == 0 && Deletions(w0.trace) == []
    requires MakeMountPoint !in w0.trace
    ensures outcome == Exit(2) <==> RefindData(Listing(host)) == Ok(None)
    ensures outcome == Exit(3) <==> EntriesFound(host) && !host.mountOk
    ensures outcome == Exit(4) <==> EspMounted(host) && !host.installOk
    ensures outcome == Exit(0) <==> Succeeds(host)
    ensures outcome.Exit? ==> 0 <= outcome.code <= 4 && outcome.code != 1
    ensures outcome.Crash? <==> RefindData(Listing(host)).Raised?
    ensures w.mounted <==> EspMounted(host) && (!host.installOk || !host.unmountOk)
    ensures Mounts(w.trace) == (if EntriesFound(host) then [Esp(host)] else [])
    ensures Deletions(w.trace) == (if EspMounted(host) then BootNumbers(Entries(host)) else [])
    ensures Unmounts(w.trace) == (if Succeeds(host) then 1 else 0)
    ensures w.files == host.files
    ensures MakeMountPoint !in w.trace
    ensures outcome == Exit(0) ==> w.trace == SuccessTrace(host)
  {
    var w1 := w0.(trace := w0.trace + [ListBootEntries]);
    assert Mounts(w1.trace) == [] && Unmounts(w1.trace) == 0 && Deletions(w1.trace) == [] by {
      QuietAppend(w0.trace, [ListBootEntries]);
    }
    assert MakeMountPoint !in w1.trace;
    var rd := GetRefindData(Listing(host));
    if rd.Raised? {
      return Crash(rd.error), w1;
    }
    if rd.value.None? {
      return Exit(2), w1;
    }
    assert |rd.value.value| > 0 by {
      RefindDataShape(Listing(host));
    }
    outcome, w := Upgrade(host, w1, rd.value.value);
  }

  /** From `find_esp` on: mount without creating the mount point, then
      the stages that need the ESP. */
  method Upgrade(host: Host, w0: World, entries: seq<BootEntry>) returns (outcome: Outcome, w: World)
    requires |entries| > 0 && !w0.mounted
    ensures outcome == Exit(3) <==> !host.mountOk
    ensures outcome == Exit(4) <==> host.mountOk && !host.installOk
    ensures outcome == Exit(0) <==> host.mountOk && host.installOk
    ensures outcome.Exit?
    ensures w.mounted <==> host.mountOk && (!host.installOk || !host.unmountOk)
    ensures Mounts(w.trace) == Mounts(w0.trace) + [FindEsp(entries, host.partitions)]
    ensures Deletions(w.trace) == Deletions(w0.trace) + (if host.mountOk then BootNumbers(entries) else [])
    ensures Unmounts(w.trace) == Unmounts(w0.trace) + (if host.mountOk && host.installOk then 1 else 0)
    ensures w.files == w0.files
    ensures MakeMountPoint in w.trace <==> MakeMountPoint in w0.trace
    ensures outcome == Exit(0) ==>
      w.trace == w0.trace + [ListPartitions(entries[0].partUuid)] + MountActions(host, FindEsp(entries, host.partitions), false)
        + DeleteActions(entries) + [RunRefindInstall(true)] + [Unmount]
  {
    var espPart := FindEsp(entries, host.partitions);
    var w1 := w0.(trace := w0.trace + [ListPartitions(entries[0].partUuid)]);
    var ok, w2 := MountEsp(host, w1, espPart, false);
    assert Mounts(w2.trace) == Mounts(w0.trace) + [espPart]
        && Unmounts(w2.trace) == Unmounts(w0.trace) && Deletions(w2.trace) == Deletions(w0.trace) by {
      QuietAppend(w0.trace, [ListPartitions(entries[0].partUuid)]);
      MountAppend(host, w1.trace, espPart, false);
    }
    assert MakeMountPoint in w2.trace <==> MakeMountPoint in w0.trace by {
      assert MountActions(host, espPart, false) == [Mount(espPart)];
      assert w2.trace == w0.trace + [ListPartitions(entries[0].partUuid)] + [Mount(espPart)];
    }
    if !ok {
      return Exit(3), w2;
    }
    outcome, w := Replace(host, w2, entries);
  }

  /** With the ESP mounted: delete the old entries, run refind-install with
      shim, unmount. */
  method Replace(host: Host, w0: World, entries: seq<BootEntry>) returns (outcome: Outcome, w: World)
    requires w0.mounted
    ensures outcome == (if host.installOk then Exit(0) else Exit(4))
    ensures w.mounted <==> !host.installOk || !host.unmountOk
    ensures Mounts(w.trace) == Mounts(w0.trace)
    ensures Deletions(w.trace) == Deletions(w0.trace) + BootNumbers(entries)
    ensures Unmounts(w.trace) == Unmounts(w0.trace) + (if host.installOk then 1 else 0)
    ensures w.files == w0.files
    ensures MakeMountPoint in w.trace <==> MakeMountPoint in w0.trace
    ensures outcome == Exit(0) ==>
      w.trace == w0.trace + DeleteActions(entries) + [RunRefindInstall(true)] + [Unmount]
  {
    var w1 := DeleteEntries(w0, entries);
    var ok, w2 := RefindInstall(host, w1, true);
    assert Mounts(w2.trace) == Mounts(w0.trace) && Unmounts(w2.trace) == Unmounts(w0.trace)
        && Deletions(w2.trace) == Deletions(w0.trace) + BootNumbers(entries) by {
      DeleteAppend(w0.trace, entries);
      QuietAppend(w1.trace, [RunRefindInstall(true)]);
    }
    assert MakeMountPoint in w2.trace <==> MakeMountPoint in w0.trace by {
      var ds := DeleteActions(entries);
      assert forall i :: 0 <= i < |ds| ==> ds[i] != MakeMountPoint;
      assert MakeMountPoint !in ds;
      assert w2.trace == w0.trace + ds + [RunRefindInstall(true)];
    }
    if !ok {
      return Exit(4), w2;
    }
    w := UnmountEsp(host, w2);
    assert Mounts(w.trace) == Mounts(w2.trace) && Unmounts(w.trace) == Unmounts(w2.trace) + 1
        && Deletions(w.trace) == Deletions(w2.trace) by {
      UnmountAppend(w2.trace);
    }
    outcome := Exit(0);
  }
}
