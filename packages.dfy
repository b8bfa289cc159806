/** The three `check_packages` functions. Each walks a fixed list of
    packages, asks `pacman -Q` about each, installs a missing one with
    `pacman -S`, and gives up at the first package it cannot get. */
module Packages {
  import opened Shell

  /** A package the loop gets past: installed already, or missing and
      installable (packages in `refuse` are reported instead of installed). */
  predicate Available(host: Host, name: string, refuse: set<string>)
  {
    name in host.installed || (name !in refuse && name in host.installable)
  }

  /** One iteration of the loop: the commands it runs and whether it
      goes on to the next package. */
  function PackageStep(host: Host, name: string, refuse: set<string>): (bool, seq<Action>)
  {
    if name in host.installed then (true, [QueryPackage(name)])
    else if name in refuse then (false, [QueryPackage(name)])
    else (name in host.installable, [QueryPackage(name), InstallPackage(name)])
  }

  /** The loop over `names`: whether it reaches its end, and the commands
      it ran; it stops after the first step that fails. */
  function CheckAll(host: Host, names: seq<string>, refuse: set<string>): (bool, seq<Action>)
    decreases |names|
  {
    if names == [] then (true, [])
    else
      var done := CheckAll(host, names[..|names| - 1], refuse);
      if !done.0 then done
      else
        var last := PackageStep(host, names[|names| - 1], refuse);
        (last.0, done.1 + last.1)
  }

  /** The position of the first package the loop cannot get past
      (|names| when there is none). */
  function FirstUnavailable(host: Host, names: seq<string>, refuse: set<string>): (k: nat)
    ensures k <= |names|
    ensures k < |names| ==> !Available(host, names[k], refuse)
    ensures forall j :: 0 <= j < k ==> Available(host, names[j], refuse)
    decreases |names|
  {
    if names == [] then 0
    else
      var n := |names|;
      var k := FirstUnavailable(host, names[..n - 1], refuse);
      if k < n - 1 then k
      else if Available(host, names[n - 1], refuse) then n
      else n - 1
  }

  /** The packages `pacman -Q` was asked about, in order. */
  function Queries(t: seq<Action>): seq<string>
    decreases |t|
  {
    if t == [] then [] else (if t[0].QueryPackage? then [t[0].name] else []) + Queries(t[1..])
  }

  lemma {:induction false} QueriesAppend(a: seq<Action>, b: seq<Action>)
    ensures Queries(a + b) == Queries(a) + Queries(b)
    decreases |a|
  {
    if a == [] {
      assert a + b == b;
    } else {
      assert (a + b)[0] == a[0];
      assert (a + b)[1..] == a[1..] + b;
      QueriesAppend(a[1..], b);
    }
  }

  /** Every query in a trace shows up in its `Queries` view. */
  lemma {:induction false} QueriesHas(t: seq<Action>, i: nat)
    requires i < |t| && t[i].QueryPackage?
    ensures t[i].name in Queries(t)
    decreases |t|
  {
    if i > 0 {
      QueriesHas(t[1..], i - 1);
    }
  }

  /** Once the loop has stopped, the packages after it change nothing. */
  lemma {:induction false} CheckAllFailureSticks(host: Host, names: seq<string>, refuse: set<string>, i: nat)
    requires i <= |names| && !CheckAll(host, names[..i], refuse).0
    ensures CheckAll(host, names, refuse) == CheckAll(host, names[..i], refuse)
    decreases |names|
  {
    if i < |names| {
      assert names[..|names| - 1][..i] == names[..i];
      CheckAllFailureSticks(host, names[..|names| - 1], refuse, i);
    } else {
      assert names[..i] == names;
    }
  }

  /** One step asks about its package once, and goes on exactly when the
      package is available. */
  lemma StepQueries(host: Host, name: string, refuse: set<string>)
    ensures PackageStep(host, name, refuse).0 == Available(host, name, refuse)
    ensures Queries(PackageStep(host, name, refuse).1) == [name]
  {
    var t := PackageStep(host, name, refuse).1;
    assert t == [t[0]] + t[1..];
    QueriesAppend([t[0]], t[1..]);
  }

  /** The loop succeeds exactly when every package is available; it asks
      about the packages up to and including the first unavailable one,
      in order, and never about a later one. */
  lemma {:induction false} CheckAllStopsAtFirstFailure(host: Host, names: seq<string>, refuse: set<string>)
    ensures var k := FirstUnavailable(host, names, refuse);
      && (CheckAll(host, names, refuse).0 <==> k == |names|)
      && Queries(CheckAll(host, names, refuse).1) == names[..if k == |names| then k else k + 1]
    decreases |names|
  {
    if names != [] {
      var n := |names|;
      var init := names[..n - 1];
      CheckAllStopsAtFirstFailure(host, init, refuse);
      var k' := FirstUnavailable(host, init, refuse);
      if k' < n - 1 {
        assert names[..k' + 1] == init[..k' + 1];
      } else {
        var done := CheckAll(host, init, refuse);
        var last := PackageStep(host, names[n - 1], refuse);
        QueriesAppend(done.1, last.1);
        StepQueries(host, names[n - 1], refuse);
        assert init + [names[n - 1]] == names;
        assert init == names[..n - 1];
      }
    }
  }

  /** What makes a command of the loop: a query, or the install of a
      package that is neither installed nor refused. */
  predicate LoopCommand(host: Host, a: Action, refuse: set<string>)
  {
    a.QueryPackage? || (a.InstallPackage? && a.name !in host.installed && a.name !in refuse)
  }

  /** Every command the loop runs is a query or the install of a package
      that is neither installed nor refused. */
  lemma {:induction false} CheckAllCommands(host: Host, names: seq<string>, refuse: set<string>)
    ensures forall a :: a in CheckAll(host, names, refuse).1 ==> LoopCommand(host, a, refuse)
    decreases |names|
  {
    if names != [] {
      var t := CheckAll(host, names, refuse).1;
      var done := CheckAll(host, names[..|names| - 1], refuse);
      CheckAllCommands(host, names[..|names| - 1], refuse);
      if done.0 {
        var last := PackageStep(host, names[|names| - 1], refuse);
        assert forall a :: a in last.1 ==> LoopCommand(host, a, refuse);
        assert t == done.1 + last.1;
      } else {
        assert t == done.1;
      }
    }
  }

  /** While the loop goes on, one more package adds one step. */
  lemma CheckAllNext(host: Host, names: seq<string>, refuse: set<string>, i: nat)
    requires i < |names| && CheckAll(host, names[..i], refuse).0
    ensures var step := PackageStep(host, names[i], refuse);
      CheckAll(host, names[..i + 1], refuse) == (step.0, CheckAll(host, names[..i], refuse).1 + step.1)
  {
    assert names[..i + 1][..i] == names[..i];
  }

  /** The body of the loop for one package: query it, and install it if
      it is missing and not refused. */
  method CheckOne(host: Host, w: World, name: string, refuse: set<string>) returns (ok: bool, w': World)
    ensures ok == PackageStep(host, name, refuse).0 == Available(host, name, refuse)
    ensures w'.trace == w.trace + PackageStep(host, name, refuse).1
    ensures w'.mounted == w.mounted && w'.files == w.files
  {
    w' := w.(trace := w.trace + [QueryPackage(name)]);
    if name in host.installed {
      return true, w';
    }
    if name in refuse {
      return false, w';
    }
    w' := w'.(trace := w'.trace + [InstallPackage(name)]);
    ok := name in host.installable;
  }

  /** The loop, with its early return. */
  method CheckEach(host: Host, w: World, names: seq<string>, refuse: set<string>) returns (ok: bool, w': World)
    ensures ok == CheckAll(host, names, refuse).0
    ensures w'.trace == w.trace + CheckAll(host, names, refuse).1
    ensures w'.mounted == w.mounted && w'.files == w.files
  {
    w' := w;
    for i := 0 to |names|
      invariant CheckAll(host, names[..i], refuse).0
      invariant w'.trace == w.trace + CheckAll(host, names[..i], refuse).1
      invariant w'.mounted == w.mounted && w'.files == w.files
    {
      CheckAllNext(host, names, refuse, i);
      var found;
      ghost var before := w'.trace;
      found, w' := CheckOne(host, w', names[i], refuse);
      assert w'.trace == w.trace + CheckAll(host, names[..i + 1], refuse).1 by {
        assert w'.trace == before + PackageStep(host, names[i], refuse).1;
      }
      if !found {
        CheckAllFailureSticks(host, names, refuse, i + 1);
        return false, w';
      }
    }
    assert names[..|names|] == names;
    ok := true;
  }

  // ---------------------------------------------------------------------------
  // install_sb_refind.py

  const ShimPackage: string := "shim-signed"
  const SbPackages: seq<string> := ["refind", "mokutil", "sbsigntools"]

  /** What `check_packages` of install_sb_refind.py runs and returns: the
      database is refreshed, the three packages are checked, and a missing
      shim-signed is built from the AUR. */
  function SbPackageCheck(host: Host): (bool, seq<Action>)
  {
    var main := CheckAll(host, SbPackages, {});
    if !main.0 then (false, [SyncPackageDb] + main.1)
    else if ShimPackage in host.installed then (true, [SyncPackageDb] + main.1 + [QueryPackage(ShimPackage)])
    else (host.aurBuildOk, [SyncPackageDb] + main.1 + [QueryPackage(ShimPackage), BuildFromAur(ShimPackage)])
  }

  /** The check passes exactly when refind, mokutil and sbsigntools can be
      had and shim-signed is installed or its AUR build succeeds; shim-signed
      is looked at only once the other three are in place, and is built
      only when it is missing. */
  lemma SbPackageCheckOk(host: Host)
    ensures SbPackageCheck(host).0 <==>
      && (forall i :: 0 <= i < |SbPackages| ==> Available(host, SbPackages[i], {}))
      && (ShimPackage in host.installed || host.aurBuildOk)
    ensures SbPackageCheck(host).1[0] == SyncPackageDb
    ensures QueryPackage(ShimPackage) in SbPackageCheck(host).1 ==>
      forall i :: 0 <= i < |SbPackages| ==> Available(host, SbPackages[i], {})
    ensures BuildFromAur(ShimPackage) in SbPackageCheck(host).1 ==> ShimPackage !in host.installed
    ensures forall a :: a in SbPackageCheck(host).1 ==> Quiet(a)
  {
    var main := CheckAll(host, SbPackages, {});
    CheckAllStopsAtFirstFailure(host, SbPackages, {});
    CheckAllCommands(host, SbPackages, {});
    if !main.0 {
      forall i | 0 <= i < |main.1| && main.1[i].QueryPackage?
        ensures main.1[i].name != ShimPackage
      {
        QueriesHas(main.1, i);
      }
    }
  }

  /** `check_packages` of install_sb_refind.py. */
  method CheckSbPackages(host: Host, w: World) returns (ok: bool, w': World)
    ensures ok == SbPackageCheck(host).0
    ensures w'.trace == w.trace + SbPackageCheck(host).1
    ensures w'.mounted == w.mounted && w'.files == w.files
  {
    w' := w.(trace := w.trace + [SyncPackageDb]);
    ok, w' := CheckEach(host, w', SbPackages, {});
    if !ok {
      return;
    }
    w' := w'.(trace := w'.trace + [QueryPackage(ShimPackage)]);
    if ShimPackage !in host.installed {
      w' := w'.(trace := w'.trace + [BuildFromAur(ShimPackage)]);
      ok := host.aurBuildOk;
    }
  }

  // ---------------------------------------------------------------------------
  // install_refind.py

  const InstallerPackages: seq<string> := ["refind", "efibootmgr"]

  /** What `check_packages` of install_refind.py runs and returns. */
  function InstallerPackageCheck(host: Host): (bool, seq<Action>)
  {
    var main := CheckAll(host, InstallerPackages, {});
    (main.0, [SyncPackageDb] + main.1)
  }

  /** The check passes exactly when refind and efibootmgr can be had; when
      refind cannot, efibootmgr is never asked about. */
  lemma InstallerPackageCheckOk(host: Host)
    ensures InstallerPackageCheck(host).0 <==>
      Available(host, "refind", {}) && Available(host, "efibootmgr", {})
    ensures InstallerPackageCheck(host).1[0] == SyncPackageDb
    ensures !Available(host, "refind", {}) ==>
      Queries(InstallerPackageCheck(host).1[1..]) == ["refind"]
    ensures forall a :: a in InstallerPackageCheck(host).1 ==> Quiet(a)
  {
    var main := CheckAll(host, InstallerPackages, {});
    CheckAllStopsAtFirstFailure(host, InstallerPackages, {});
    CheckAllCommands(host, InstallerPackages, {});
    assert InstallerPackageCheck(host).1[1..] == main.1;
    var k := FirstUnavailable(host, InstallerPackages, {});
    assert InstallerPackages[0] == "refind" && InstallerPackages[1] == "efibootmgr";
    if k < 2 {
      assert k == 0 || k == 1;
    } else {
      assert Available(host, InstallerPackages[0], {}) && Available(host, InstallerPackages[1], {});
    }
  }

  /** `check_packages` of install_refind.py. */
  method CheckInstallerPackages(host: Host, w: World) returns (ok: bool, w': World)
    ensures ok == InstallerPackageCheck(host).0
    ensures w'.trace == w.trace + InstallerPackageCheck(host).1
    ensures w'.mounted == w.mounted && w'.files == w.files
  {
    w' := w.(trace := w.trace + [SyncPackageDb]);
    ok, w' := CheckEach(host, w', InstallerPackages, {});
  }

  // ---------------------------------------------------------------------------
  // files/update_refind.py

  const UpdaterPackages: seq<string> := ["refind", "mokutil", "sbsigntools", "shim-signed"]

  /** What `check_packages` of update_refind.py runs and returns: no
      database refresh, and a missing shim-signed is reported, not installed. */
  function UpdaterPackageCheck(host: Host): (bool, seq<Action>)
  {
    CheckAll(host, UpdaterPackages, {ShimPackage})
  }

  /** The check passes exactly when refind, mokutil and sbsigntools can be
      had and shim-signed is already installed. It never installs or builds
      shim-signed, never refreshes the package database and creates no mount
      point. */
  lemma UpdaterPackageCheckOk(host: Host)
    ensures UpdaterPackageCheck(host).0 <==>
      && Available(host, "refind", {}) && Available(host, "mokutil", {}) && Available(host, "sbsigntools", {})
      && ShimPackage in host.installed
    ensures InstallPackage(ShimPackage) !in UpdaterPackageCheck(host).1
    ensures BuildFromAur(ShimPackage) !in UpdaterPackageCheck(host).1
    ensures SyncPackageDb !in UpdaterPackageCheck(host).1
    ensures MakeMountPoint !in UpdaterPackageCheck(host).1
    ensures forall a :: a in UpdaterPackageCheck(host).1 ==> Quiet(a)
  {
    CheckAllStopsAtFirstFailure(host, UpdaterPackages, {ShimPackage});
    CheckAllCommands(host, UpdaterPackages, {ShimPackage});
    var k := FirstUnavailable(host, UpdaterPackages, {ShimPackage});
    assert UpdaterPackages == ["refind", "mokutil", "sbsigntools", ShimPackage];
    if k < 4 {
      assert k == 0 || k == 1 || k == 2 || k == 3;
      assert !Available(host, UpdaterPackages[k], {ShimPackage});
    } else {
      assert forall j :: 0 <= j < 4 ==> Available(host, UpdaterPackages[j], {ShimPackage});
      assert Available(host, UpdaterPackages[0], {ShimPackage});
      assert Available(host, UpdaterPackages[1], {ShimPackage});
      assert Available(host, UpdaterPackages[2], {ShimPackage});
      assert Available(host, UpdaterPackages[3], {ShimPackage});
    }
  }

  /** `check_packages` of update_refind.py. */
  method CheckUpdaterPackages(host: Host, w: World) returns (ok: bool, w': World)
    ensures ok == UpdaterPackageCheck(host).0
    ensures w'.trace == w.trace + UpdaterPackageCheck(host).1
    ensures w'.mounted == w.mounted && w'.files == w.files
  {
    ok, w' := CheckEach(host, w, UpdaterPackages, {ShimPackage});
  }
}
