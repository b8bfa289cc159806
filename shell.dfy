/** The machine the scripts act on. Every shell command the scripts run is
    replaced by what it returned (`Host`); every external effect is recorded,
    in order, in a `World` together with the ESP's mount state and the
    contents of the files the scripts write. */
module Shell {

  /** What the tools on the host answer. The scripts only read these. */
  datatype Host = Host(
    installed: set<string>,     // packages for which `pacman -Q` succeeds
    installable: set<string>,   // packages for which `yes | pacman -S` succeeds
    aurBuildOk: bool,           // the `git clone … && makepkg -si …` chain for shim-signed succeeds
    efibootmgr: string,         // standard output of `efibootmgr`
    partitions: string,         // standard output of `lsblk --output NAME,PARTUUID`
    fdiskList: string,          // standard output of `fdisk --list`
    choices: seq<int>,          // the integers typed at the `Enter choice:` prompt, in order
    fstab: string,              // contents of /etc/fstab
    rootIds: string,            // standard output of `lsblk -o NAME,MOUNTPOINT,UUID,PARTUUID`
    mountPointExists: bool,     // /boot/efi is a directory
    mountOk: bool,              // `mount DEVICE /boot/efi` succeeds
    unmountOk: bool,            // `umount -R /boot/efi` succeeds
    installOk: bool,            // `refind-install …` succeeds
    intelUcode: bool,           // /boot/intel-ucode.img is a file
    amdUcode: bool,             // /boot/amd-ucode.img is a file
    signOk: bool,               // `sbsign …` succeeds (never consulted by the scripts)
    verifyOutput: string,       // standard output of `sbverify --list /boot/vmlinuz-linux`
    files: map<string, string>  // file contents before the run
  )

  /** One external effect, in the order the scripts cause them. */
  datatype Action =
    | QuerySecureBoot                     // mokutil --sb-state
    | SyncPackageDb                       // pacman -Sy
    | QueryPackage(name: string)          // pacman -Q NAME
    | InstallPackage(name: string)        // yes | pacman -S NAME
    | BuildFromAur(name: string)          // git clone … NAME.git && makepkg -si …
    | ListBootEntries                     // efibootmgr | grep rEFInd
    | ListPartitions(pattern: string)     // lsblk --output NAME,PARTUUID | grep PATTERN
    | ListEspCandidates                   // fdisk --list | grep 'EFI System'
    | MakeMountPoint                      // mkdir /boot/efi
    | Mount(device: string)               // mount DEVICE /boot/efi
    | DeleteBootEntry(bootNumber: string) // efibootmgr --delete-bootnum --bootnum N
    | RunRefindInstall(withShim: bool)    // refind-install, plus `--shim …/shimx64.efi --localkeys` when withShim
    | ListRootIds                         // lsblk -o NAME,MOUNTPOINT,UUID,PARTUUID
    | WriteFile(path: string, append: bool)
    | Unmount                             // umount -R /boot/efi
    | BackupKernel                        // cp /boot/vmlinuz-linux /boot/vmlinuz-linux-unsigned
    | SignKernel                          // sbsign … --output /boot/vmlinuz-linux /boot/vmlinuz-linux
    | VerifyKernel                        // sbverify --list /boot/vmlinuz-linux
    | CopyHookFiles                       // the cp/chmod/mkdir steps that deploy the hooks

  /** The state a run leaves behind. */
  datatype World = World(mounted: bool, trace: seq<Action>, files: map<string, string>)

  /** Nothing has happened yet, and the ESP is not mounted. */
  function Start(host: Host): World
  {
    World(false, [], host.files)
  }

  const MountPoint: string := "/boot/efi"

  /** A file opened with "w": its old content is discarded. */
  function Overwrite(files: map<string, string>, path: string, text: string): (r: map<string, string>)
    ensures path in r && r[path] == text
    ensures forall p :: p in files && p != path ==> p in r && r[p] == files[p]
    ensures r.Keys == files.Keys + {path}
  {
    files[path := text]
  }

  /** A file opened with "a": the text goes after what is there (an absent file starts empty). */
  function Append(files: map<string, string>, path: string, text: string): (r: map<string, string>)
    ensures path in r && r[path] == (if path in files then files[path] else "") + text
    ensures forall p :: p in files && p != path ==> p in r && r[p] == files[p]
    ensures r.Keys == files.Keys + {path}
  {
    files[path := (if path in files then files[path] else "") + text]
  }

  /** Overwriting twice with the same text is the same as once; appending
      twice leaves two copies. */
  lemma RepeatedWrites(files: map<string, string>, path: string, text: string)
    ensures Overwrite(Overwrite(files, path, text), path, text) == Overwrite(files, path, text)
    ensures Append(Append(files, path, text), path, text)[path] ==
            (if path in files then files[path] else "") + text + text
  {
  }

  /** The commands `mount_esp` runs: the mount point is created when missing
      (only where the script checks for it), then the device is mounted on it. */
  function MountActions(host: Host, device: string, createMountPoint: bool): seq<Action>
  {
    (if createMountPoint && !host.mountPointExists then [MakeMountPoint] else []) + [Mount(device)]
  }

  /** `mount_esp`: reports whether `mount` succeeded; only then is the ESP mounted. */
  method MountEsp(host: Host, w: World, device: string, createMountPoint: bool) returns (ok: bool, w': World)
    ensures ok == host.mountOk
    ensures w'.mounted == (w.mounted || host.mountOk)
    ensures w'.trace == w.trace + MountActions(host, device, createMountPoint)
    ensures w'.files == w.files
  {
    var actions: seq<Action> := [];
    if createMountPoint && !host.mountPointExists {
      actions := actions + [MakeMountPoint];
    }
    actions := actions + [Mount(device)];
    ok := host.mountOk;
    w' := w.(mounted := w.mounted || ok, trace := w.trace + actions);
  }

  /** `unmount_esp`: `umount -R` is issued and its status ignored; the ESP
      stays mounted only when the command failed. */
  method UnmountEsp(host: Host, w: World) returns (w': World)
    ensures w'.mounted == (w.mounted && !host.unmountOk)
    ensures w'.trace == w.trace + [Unmount]
    ensures w'.files == w.files
  {
    w' := w.(mounted := w.mounted && !host.unmountOk, trace := w.trace + [Unmount]);
  }

  /** `refind_install`: reports whether `refind-install` succeeded. */
  method RefindInstall(host: Host, w: World, withShim: bool) returns (ok: bool, w': World)
    ensures ok == host.installOk
    ensures w'.trace == w.trace + [RunRefindInstall(withShim)]
    ensures w'.mounted == w.mounted && w'.files == w.files
  {
    w' := w.(trace := w.trace + [RunRefindInstall(withShim)]);
    ok := host.installOk;
  }

  // ---------------------------------------------------------------------------
  // What a trace says about the ESP

  /** The devices mounted, in order. */
  function Mounts(t: seq<Action>): seq<string>
    decreases |t|
  {
    if t == [] then [] else (if t[0].Mount? then [t[0].device] else []) + Mounts(t[1..])
  }

  /** How many times `umount -R /boot/efi` ran. */
  function Unmounts(t: seq<Action>): nat
    decreases |t|
  {
    if t == [] then 0 else (if t[0].Unmount? then 1 else 0) + Unmounts(t[1..])
  }

  /** The boot numbers passed to `efibootmgr --delete-bootnum`, in order. */
  function Deletions(t: seq<Action>): seq<string>
    decreases |t|
  {
    if t == [] then [] else (if t[0].DeleteBootEntry? then [t[0].bootNumber] else []) + Deletions(t[1..])
  }

  /** A command that neither mounts, unmounts nor deletes a boot entry. */
  predicate Quiet(a: Action)
  {
    !a.Mount? && !a.Unmount? && !a.DeleteBootEntry?
  }

  /** A trace of quiet commands is empty in all three views. */
  lemma {:induction false} QuietViews(t: seq<Action>)
    requires forall a :: a in t ==> Quiet(a)
    ensures Mounts(t) == [] && Unmounts(t) == 0 && Deletions(t) == []
    decreases |t|
  {
    if t != [] {
      assert t[0] in t;
      QuietViews(t[1..]);
    }
  }

  /** Quiet commands leave the three views as they were. */
  lemma QuietAppend(t: seq<Action>, extra: seq<Action>)
    requires forall a :: a in extra ==> Quiet(a)
    ensures Mounts(t + extra) == Mounts(t)
    ensures Unmounts(t + extra) == Unmounts(t)
    ensures Deletions(t + extra) == Deletions(t)
  {
    ViewsAppend(t, extra);
    QuietViews(extra);
  }

  /** One more `umount -R` counts once and changes nothing else. */
  lemma UnmountAppend(t: seq<Action>)
    ensures Mounts(t + [Unmount]) == Mounts(t)
    ensures Unmounts(t + [Unmount]) == Unmounts(t) + 1
    ensures Deletions(t + [Unmount]) == Deletions(t)
  {
    ViewsAppend(t, [Unmount]);
    assert [Unmount][1..] == [];
  }

  /** `mount_esp` mounts its device once, and nothing else. */
  lemma MountActionsView(host: Host, device: string, createMountPoint: bool)
    ensures Mounts(MountActions(host, device, createMountPoint)) == [device]
    ensures Unmounts(MountActions(host, device, createMountPoint)) == 0
    ensures Deletions(MountActions(host, device, createMountPoint)) == []
  {
    var pre: seq<Action> := if createMountPoint && !host.mountPointExists then [MakeMountPoint] else [];
    ViewsAppend(pre, [Mount(device)]);
    QuietViews(pre);
    assert [Mount(device)][1..] == [];
  }

  /** Appending what `mount_esp` runs adds its device to the mounts and
      changes nothing else. */
  lemma MountAppend(host: Host, t: seq<Action>, device: string, createMountPoint: bool)
    ensures Mounts(t + MountActions(host, device, createMountPoint)) == Mounts(t) + [device]
    ensures Unmounts(t + MountActions(host, device, createMountPoint)) == Unmounts(t)
    ensures Deletions(t + MountActions(host, device, createMountPoint)) == Deletions(t)
  {
    ViewsAppend(t, MountActions(host, device, createMountPoint));
    MountActionsView(host, device, createMountPoint);
  }

  /** The three views of a trace distribute over concatenation. */
  lemma {:induction false} ViewsAppend(a: seq<Action>, b: seq<Action>)
    ensures Mounts(a + b) == Mounts(a) + Mounts(b)
    ensures Unmounts(a + b) == Unmounts(a) + Unmounts(b)
    ensures Deletions(a + b) == Deletions(a) + Deletions(b)
    decreases |a|
  {
    if a == [] {
      assert a + b == b;
    } else {
      assert (a + b)[0] == a[0];
      assert (a + b)[1..] == a[1..] + b;
      ViewsAppend(a[1..], b);
    }
  }
}
