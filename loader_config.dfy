/** The two configuration renderers: `update_refind_linux_conf` of
    install_refind.py (the kernel options file, overwritten) and
    `add_archlinux_entry` of install_sb_refind.py (a menu entry appended to
    rEFInd's own configuration). Both look for an Intel microcode image
    before an AMD one. */
module LoaderConfig {
  import opened Python
  import opened PyText
  import opened Shell

  /** The microcode image the renderers found in /boot. */
  datatype Microcode = IntelUcode | AmdUcode | NoUcode

  /** `path.isfile("/boot/intel-ucode.img")` is asked first, AMD only when
      it fails. */
  function FoundMicrocode(host: Host): Microcode
  {
    if host.intelUcode then IntelUcode else if host.amdUcode then AmdUcode else NoUcode
  }

  const IntelInitrd: string := "initrd=/boot/intel-ucode.img"
  const AmdInitrd: string := "initrd=/boot/amd-ucode.img"

  /** The value substituted for `{microcode_initrd}`. */
  function MicrocodeInitrd(m: Microcode): string
  {
    match m
    case IntelUcode => IntelInitrd
    case AmdUcode => AmdInitrd
    case NoUcode => ""
  }

  // ---------------------------------------------------------------------------
  // update_refind_linux_conf

  const RefindLinuxConfPath: string := "/boot/refind_linux.conf"

  /** The pieces of the three boot option lines of the template. */
  const StandardTitle: string := "\"Boot with standard options\"  \""
  const SingleUserTitle: string := "\"Boot to single-user mode\"    \""
  const MinimalTitle: string := "\"Boot with minimal options\"   \""
  const RootOption: string := "rw root=UUID="
  const InitramfsOption: string := " initrd=/boot/initramfs-linux.img "

  /** The option lines with `{uuid}` and `{microcode_initrd}` substituted. */
  function StandardLine(uuid: string, initrd: string): string
  {
    StandardTitle + RootOption + uuid + InitramfsOption + initrd + "\""
  }

  function SingleUserLine(uuid: string, initrd: string): string
  {
    SingleUserTitle + RootOption + uuid + InitramfsOption + initrd + " single\""
  }

  function MinimalLine(uuid: string): string
  {
    MinimalTitle + RootOption + uuid + "\""
  }

  /** The rendered triple-quoted template: it opens and closes with a newline. */
  function RefindLinuxConf(uuid: string, initrd: string): string
  {
    "\n" + StandardLine(uuid, initrd) + "\n" + SingleUserLine(uuid, initrd) + "\n" + MinimalLine(uuid) + "\n"
  }

  /** A newline is in none of six pieces, so not in their concatenation. */
  lemma NoNewlineInPieces(a: string, b: string, c: string, d: string, e: string, f: string)
    requires '\n' !in a && '\n' !in b && '\n' !in c && '\n' !in d && '\n' !in e && '\n' !in f
    ensures '\n' !in a + b + c + d + e + f
    ensures '\n' !in a + b + c + f
  {
    AbsentFromConcat('\n', a, b);
    AbsentFromConcat('\n', a + b, c);
    AbsentFromConcat('\n', a + b + c, d);
    AbsentFromConcat('\n', a + b + c + d, e);
    AbsentFromConcat('\n', a + b + c + d + e, f);
    AbsentFromConcat('\n', a + b + c, f);
  }

  /** The fixed pieces of the option lines hold no newline. */
  lemma OptionPiecesAreLines()
    ensures '\n' !in RootOption && '\n' !in InitramfsOption
    ensures '\n' !in "\"" && '\n' !in " single\""
  {
  }

  /** No option line contains a newline of its own. */
  lemma OptionLinesAreLines(uuid: string, initrd: string)
    requires '\n' !in uuid && '\n' !in initrd
    ensures '\n' !in StandardLine(uuid, initrd)
    ensures '\n' !in SingleUserLine(uuid, initrd)
    ensures '\n' !in MinimalLine(uuid)
  {
    OptionPiecesAreLines();
    assert '\n' !in StandardTitle;
    NoNewlineInPieces(StandardTitle, RootOption, uuid, InitramfsOption, initrd, "\"");
    assert '\n' !in SingleUserTitle;
    NoNewlineInPieces(SingleUserTitle, RootOption, uuid, InitramfsOption, initrd, " single\"");
    assert '\n' !in MinimalTitle;
    NoNewlineInPieces(MinimalTitle, RootOption, uuid, InitramfsOption, initrd, "\"");
  }

  /** The framed text regrouped from the right, one line at a time. */
  lemma FramedFromRight(l1: string, l2: string, l3: string)
    ensures "\n" + l1 + "\n" + l2 + "\n" + l3 + "\n"
            == "" + ['\n'] + (l1 + ['\n'] + (l2 + ['\n'] + (l3 + ['\n'] + "")))
  {
  }

  /** Three newline-free lines, each preceded by a newline and the last
      followed by one, split into an empty line, the three lines and an empty
      piece. */
  lemma SplitFramedLines(l1: string, l2: string, l3: string)
    requires '\n' !in l1 && '\n' !in l2 && '\n' !in l3
    ensures Split("\n" + l1 + "\n" + l2 + "\n" + l3 + "\n", '\n') == ["", l1, l2, l3, ""]
  {
    var t3 := l3 + ['\n'] + "";
    var t2 := l2 + ['\n'] + t3;
    var t1 := l1 + ['\n'] + t2;
    var t0 := "" + ['\n'] + t1;
    assert "\n" + l1 + "\n" + l2 + "\n" + l3 + "\n" == t0 by {
      FramedFromRight(l1, l2, l3);
    }
    assert Split(t3, '\n') == [l3, ""] by {
      SplitLineThen(l3, '\n', "");
    }
    assert Split(t2, '\n') == [l2, l3, ""] by {
      SplitLineThen(l2, '\n', t3);
    }
    assert Split(t1, '\n') == [l1, l2, l3, ""] by {
      SplitLineThen(l1, '\n', t2);
    }
    assert Split(t0, '\n') == ["", l1, l2, l3, ""] by {
      SplitLineThen("", '\n', t1);
    }
  }

  /** Read back line by line, the file is an empty line, the three option
      lines and the empty piece after the final newline. */
  lemma RefindLinuxConfLines(uuid: string, initrd: string)
    requires '\n' !in uuid && '\n' !in initrd
    ensures Split(RefindLinuxConf(uuid, initrd), '\n') ==
            ["", StandardLine(uuid, initrd), SingleUserLine(uuid, initrd), MinimalLine(uuid), ""]
  {
    OptionLinesAreLines(uuid, initrd);
    SplitFramedLines(StandardLine(uuid, initrd), SingleUserLine(uuid, initrd), MinimalLine(uuid));
  }

  /** Where the pieces of an option line can be found in it. */
  lemma PiecesWithin(title: string, option: string, uuid: string, initramfs: string, initrd: string, tail: string)
    ensures Contains(title + option + uuid + initramfs + initrd + tail, option + uuid)
    ensures Contains(title + option + uuid + initramfs + initrd + tail, initrd)
    ensures Contains(title + option + uuid + tail, option + uuid)
  {
    ContainsMiddle(title, option + uuid, initramfs + initrd + tail);
    assert title + (option + uuid) + (initramfs + initrd + tail) == title + option + uuid + initramfs + initrd + tail;
    ContainsMiddle(title + option + uuid + initramfs, initrd, tail);
    ContainsMiddle(title, option + uuid, tail);
    assert title + (option + uuid) + tail == title + option + uuid + tail;
  }

  /** The root UUID is substituted into all three option lines, the
      microcode argument into the first two (the third line takes none). */
  lemma OptionLinesCarryUuid(uuid: string, initrd: string)
    ensures Contains(StandardLine(uuid, initrd), RootOption + uuid)
    ensures Contains(SingleUserLine(uuid, initrd), RootOption + uuid)
    ensures Contains(MinimalLine(uuid), RootOption + uuid)
    ensures Contains(StandardLine(uuid, initrd), initrd) && Contains(SingleUserLine(uuid, initrd), initrd)
  {
    PiecesWithin(StandardTitle, RootOption, uuid, InitramfsOption, initrd, "\"");
    PiecesWithin(SingleUserTitle, RootOption, uuid, InitramfsOption, initrd, " single\"");
    PiecesWithin(MinimalTitle, RootOption, uuid, InitramfsOption, initrd, "\"");
  }

  /** `update_refind_linux_conf`: the rendered template replaces whatever
      /boot/refind_linux.conf held, so the file depends on the inputs only. */
  method UpdateRefindLinuxConf(host: Host, w: World, rootUuid: string) returns (w': World)
    ensures w'.files == Overwrite(w.files, RefindLinuxConfPath,
                                  RefindLinuxConf(rootUuid, MicrocodeInitrd(FoundMicrocode(host))))
    ensures w'.trace == w.trace + [WriteFile(RefindLinuxConfPath, false)]
    ensures w'.mounted == w.mounted
  {
    var entry: string;
    if host.intelUcode {
      entry := RefindLinuxConf(rootUuid, IntelInitrd);
    } else if host.amdUcode {
      entry := RefindLinuxConf(rootUuid, AmdInitrd);
    } else {
      entry := RefindLinuxConf(rootUuid, "");
    }
    w' := w.(files := Overwrite(w.files, RefindLinuxConfPath, entry),
             trace := w.trace + [WriteFile(RefindLinuxConfPath, false)]);
  }

  /** Running the renderer again with the same inputs leaves the same file:
      overwriting makes it idempotent. */
  lemma RefindLinuxConfIdempotent(files: map<string, string>, uuid: string, initrd: string)
    ensures var once := Overwrite(files, RefindLinuxConfPath, RefindLinuxConf(uuid, initrd));
      Overwrite(once, RefindLinuxConfPath, RefindLinuxConf(uuid, initrd)) == once
  {
    RepeatedWrites(files, RefindLinuxConfPath, RefindLinuxConf(uuid, initrd));
  }

  // ---------------------------------------------------------------------------
  // add_archlinux_entry

  const RefindConfPath: string := "/boot/efi/EFI/refind/refind.conf"

  /** `ENTRY_DATA` as written: lines 4 and 7 hold the placeholders. The
      longest lines (8, 9, 11 and 15) are spelled as two pieces each, short
      enough for the verifier to see that neither holds a newline. */
  const MenuTemplate: seq<string> := [
    "",
    "   menuentry \"Arch Linux\" {",
    "   icon     \\EFI\\refind\\icons\\os_arch.png",
    "   ostype   Linux",
    "   volume   {partition_guid}",
    "   loader   /boot/vmlinuz-linux",
    "   initrd   /boot/initramfs-linux.img",
    "   options  \"rw root=UUID={uuid} {microcode_initrd}\"",
    "   submenuentry " + "\"Boot using fallback initramfs\" {",
    "       initrd " + "/boot/initramfs-linux-fallback.img",
    "       }",
    "   submenuentry " + "\"Boot to Single-User Mode\" {",
    "       add_options \"single\"",
    "       }",
    "   submenuentry \"Boot to terminal\" {",
    "       add_options " + "\"systemd.unit=multi-user.target\"",
    "       }",
    "   }"
  ]

  /** Line 4 with `{partition_guid}` substituted. */
  function VolumeLine(guid: string): string
  {
    "   volume   " + guid
  }

  /** Line 7 with `{uuid}` and `{microcode_initrd}` substituted. */
  function OptionsLine(uuid: string, initrd: string): string
  {
    "   options  \"rw root=UUID=" + uuid + " " + initrd + "\""
  }

  /** The template after the two in-place substitutions. */
  function MenuEntryLines(guid: string, uuid: string, initrd: string): (ls: seq<string>)
    ensures |ls| == |MenuTemplate| == 18
    ensures ls[4] == VolumeLine(guid) && ls[7] == OptionsLine(uuid, initrd)
    ensures forall i :: 0 <= i < 18 && i != 4 && i != 7 ==> ls[i] == MenuTemplate[i]
  {
    MenuTemplate[4 := VolumeLine(guid)][7 := OptionsLine(uuid, initrd)]
  }

  /** `"\n".join(ENTRY_DATA)`. */
  function MenuEntry(guid: string, uuid: string, initrd: string): string
  {
    Join(MenuEntryLines(guid, uuid, initrd), '\n')
  }

  /** Reading the appended text back line by line recovers the eighteen lines:
      it starts with a newline (the first line is empty), ends without one,
      and carries the partition GUID and the root UUID on their own lines. */
  lemma MenuEntryRoundTrip(guid: string, uuid: string, initrd: string)
    requires '\n' !in guid && '\n' !in uuid && '\n' !in initrd
    ensures Split(MenuEntry(guid, uuid, initrd), '\n') == MenuEntryLines(guid, uuid, initrd)
    ensures MenuEntry(guid, uuid, initrd)[0] == '\n'
    ensures MenuEntry(guid, uuid, initrd)[|MenuEntry(guid, uuid, initrd)| - 1] == '}'
  {
    var ls := MenuEntryLines(guid, uuid, initrd);
    TemplateLinesAreLines();
    assert '\n' !in "   volume   " && '\n' !in "   options  \"rw root=UUID=" && '\n' !in " " && '\n' !in "\"";
    AbsentFromConcat('\n', "   volume   ", guid);
    AbsentFromConcat('\n', "   options  \"rw root=UUID=", uuid);
    AbsentFromConcat('\n', "   options  \"rw root=UUID=" + uuid, " ");
    AbsentFromConcat('\n', "   options  \"rw root=UUID=" + uuid + " ", initrd);
    AbsentFromConcat('\n', "   options  \"rw root=UUID=" + uuid + " " + initrd, "\"");
    assert forall i :: 0 <= i < |ls| ==> '\n' !in ls[i];
    SplitJoin(ls, '\n');
    assert ls[0] == "";
    assert MenuEntry(guid, uuid, initrd) == "" + "\n" + Join(ls[1..], '\n');
    JoinEndsWithLast(ls, '\n');
  }

  /** Template lines 0, 1 and 3 hold no newline. */
  lemma TemplateLinesAreLines0()
    ensures '\n' !in MenuTemplate[0] && '\n' !in MenuTemplate[1] && '\n' !in MenuTemplate[3]
  {
  }

  /** Template lines 5 and 6 hold no newline. */
  lemma TemplateLinesAreLines1()
    ensures '\n' !in MenuTemplate[5] && '\n' !in MenuTemplate[6]
  {
  }

  /** Template line 2 (the icon) holds no newline. */
  lemma TemplateLinesAreLines2()
    ensures '\n' !in MenuTemplate[2]
  {
  }

  /** Template line 8 holds no newline. */
  lemma TemplateLinesAreLines3()
    ensures '\n' !in MenuTemplate[8]
  {
    AbsentFromConcat('\n', "   submenuentry ", "\"Boot using fallback initramfs\" {");
  }

  /** Template line 9 holds no newline. */
  lemma TemplateLinesAreLines4()
    ensures '\n' !in MenuTemplate[9]
  {
    AbsentFromConcat('\n', "       initrd ", "/boot/initramfs-linux-fallback.img");
  }

  /** The short template lines from 10 on hold no newline. */
  lemma TemplateLinesAreLines5()
    ensures forall i :: i in {10, 12, 13, 14, 16, 17} ==> '\n' !in MenuTemplate[i]
  {
    assert '\n' !in MenuTemplate[10];
    assert '\n' !in MenuTemplate[12];
    assert '\n' !in MenuTemplate[13];
    assert '\n' !in MenuTemplate[14];
    assert '\n' !in MenuTemplate[16];
    assert '\n' !in MenuTemplate[17];
  }

  /** Template line 11 holds no newline. */
  lemma TemplateLinesAreLines6()
    ensures '\n' !in MenuTemplate[11]
  {
    AbsentFromConcat('\n', "   submenuentry ", "\"Boot to Single-User Mode\" {");
  }

  /** Template line 15 holds no newline. */
  lemma TemplateLinesAreLines7()
    ensures '\n' !in MenuTemplate[15]
  {
    AbsentFromConcat('\n', "       add_options ", "\"systemd.unit=multi-user.target\"");
  }

  /** No template line that is kept holds a newline. */
  lemma TemplateLinesAreLines()
    ensures forall i :: 0 <= i < |MenuTemplate| && i != 4 && i != 7 ==> '\n' !in MenuTemplate[i]
  {
    TemplateLinesAreLines0();
    TemplateLinesAreLines1();
    TemplateLinesAreLines2();
    TemplateLinesAreLines3();
    TemplateLinesAreLines4();
    TemplateLinesAreLines5();
    TemplateLinesAreLines6();
    TemplateLinesAreLines7();
  }

  /** A join ends with its last part. */
  lemma {:induction false} JoinEndsWithLast(parts: seq<string>, sep: char)
    requires |parts| >= 1 && parts[|parts| - 1] != ""
    ensures var j := Join(parts, sep);
      |j| >= |parts[|parts| - 1]| && j[|j| - |parts[|parts| - 1]|..] == parts[|parts| - 1]
    decreases |parts|
  {
    if |parts| > 1 {
      JoinEndsWithLast(parts[1..], sep);
      var rest := Join(parts[1..], sep);
      assert Join(parts, sep) == (parts[0] + [sep]) + rest;
    }
  }

  /** What `add_archlinux_entry` appends, or the exception it raises: with no
      microcode image the branch reads the never-assigned `REFIND_ENTRY`. */
  function ArchLinuxEntry(host: Host, uuid: string, guid: string): Result<string>
  {
    match FoundMicrocode(host)
    case NoUcode => Raised(UnboundLocalError)
    case m => Ok(MenuEntry(guid, uuid, MicrocodeInitrd(m)))
  }

  /** `add_archlinux_entry`: `ENTRY_DATA` is an array whose lines 4 and 7
      are replaced in place; the joined text is appended to refind.conf,
      unless there is no microcode image, in which case nothing is written. */
  method AddArchLinuxEntry(host: Host, w: World, rootUuid: string, rootPartitionGuid: string)
    returns (r: Result<()>, w': World)
    ensures r.Raised? <==> !host.intelUcode && !host.amdUcode
    ensures r.Raised? ==> r.error == UnboundLocalError && w' == w
    ensures r.Ok? ==>
      && ArchLinuxEntry(host, rootUuid, rootPartitionGuid).Ok?
      && w'.files == Append(w.files, RefindConfPath, ArchLinuxEntry(host, rootUuid, rootPartitionGuid).value)
      && w'.trace == w.trace + [WriteFile(RefindConfPath, true)]
      && w'.mounted == w.mounted
  {
    var entryData := new string[18](i requires 0 <= i < 18 => MenuTemplate[i]);
    entryData[4] := VolumeLine(rootPartitionGuid);
    var initrd: string;
    if host.intelUcode {
      initrd := IntelInitrd;
    } else if host.amdUcode {
      initrd := AmdInitrd;
    } else {
      entryData[7] := OptionsLine(rootUuid, "");
      return Raised(UnboundLocalError), w;
    }
    entryData[7] := OptionsLine(rootUuid, initrd);
    assert entryData[..] == MenuEntryLines(rootPartitionGuid, rootUuid, initrd);
    var refindEntry := Join(entryData[..], '\n');
    w' := w.(files := Append(w.files, RefindConfPath, refindEntry),
             trace := w.trace + [WriteFile(RefindConfPath, true)]);
    r := Ok(());
  }

  /** Appending is not idempotent: a second run leaves two menu entries,
      the second starting on a line of its own. */
  lemma ArchLinuxEntryAccumulates(files: map<string, string>, guid: string, uuid: string, initrd: string)
    requires '\n' !in guid && '\n' !in uuid && '\n' !in initrd
    ensures var e := MenuEntry(guid, uuid, initrd);
            var twice := Append(Append(files, RefindConfPath, e), RefindConfPath, e);
      && twice[RefindConfPath] == (if RefindConfPath in files then files[RefindConfPath] else "") + e + e
      && e[0] == '\n'
  {
    RepeatedWrites(files, RefindConfPath, MenuEntry(guid, uuid, initrd));
    MenuEntryRoundTrip(guid, uuid, initrd);
  }
}
