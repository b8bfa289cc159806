/** The firmware boot-entry registry as the installers read it:
    `get_refind_data` (the same code in install_sb_refind.py and
    files/update_refind.py), `find_esp` and `delete_entries`. */
module BootEntries {
  import opened Python
  import opened PyText
  import opened Shell

  /** One rEFInd entry of `efibootmgr`: its boot number and the PARTUUID of
      the partition it boots from. */
  datatype BootEntry = BootEntry(bootNumber: string, partUuid: string)

  /** The characters `str.strip("Boot")` removes: any of B, o, t, in any order. */
  const BootChars: set<char> := {'B', 'o', 't'}

  /** The loader name the entry listing is filtered on. */
  const LoaderName: string := "rEFInd"

  /** What `efibootmgr | grep rEFInd` prints. */
  function BootListing(efibootmgr: string): string
  {
    Grep(efibootmgr, LoaderName)
  }

  /** The boot number of an entry line: the first space-separated token,
      stripped of B/o/t characters at both ends, then of `*` at both ends. */
  function BootNumber(line: string): string
  {
    Strip(Strip(FirstField(line, ' '), BootChars), {'*'})
  }

  /** One entry line: `(boot number, line.split(",")[2])`; a line with fewer
      than two commas raises IndexError. */
  function ParseEntry(line: string): Result<BootEntry>
  {
    var fields := Split(line, ',');
    if |fields| < 3 then Raised(IndexError) else Ok(BootEntry(BootNumber(line), fields[2]))
  }

  /** The listing split on newlines, with the first empty piece removed. */
  function EntryLines(listing: string): seq<string>
  {
    RemoveFirst(Split(listing, '\n'), "")
  }

  /** Every line parsed in order; the first line that raises stops the parse. */
  function ParseAll(lines: seq<string>): Result<seq<BootEntry>>
    decreases |lines|
  {
    if lines == [] then Ok([])
    else
      match ParseEntry(lines[0])
      case Raised(e) => Raised(e)
      case Ok(entry) => Prepend([entry], ParseAll(lines[1..]))
  }

  /** Puts `done` in front of a parse result that succeeded. */
  function Prepend(done: seq<BootEntry>, r: Result<seq<BootEntry>>): Result<seq<BootEntry>>
  {
    if r.Ok? then Ok(done + r.value) else r
  }

  /** The parse from line `i` on: line `i`, then the rest. */
  lemma ParseAllFrom(lines: seq<string>, i: nat)
    requires i < |lines|
    ensures ParseAll(lines[i..]) ==
      (if ParseEntry(lines[i]).Raised? then Raised(IndexError)
       else Prepend([ParseEntry(lines[i]).value], ParseAll(lines[i + 1..])))
  {
    assert lines[i..][0] == lines[i] && lines[i..][1..] == lines[i + 1..];
  }

  lemma PrependTwice(a: seq<BootEntry>, b: seq<BootEntry>, r: Result<seq<BootEntry>>)
    ensures Prepend(a, Prepend(b, r)) == Prepend(a + b, r)
  {
    if r.Ok? {
      assert a + (b + r.value) == (a + b) + r.value;
    }
  }

  /** `get_refind_data`: None when no line is left, otherwise one entry per line. */
  function RefindData(listing: string): Result<Option<seq<BootEntry>>>
  {
    var lines := EntryLines(listing);
    if lines == [] then Ok(None)
    else
      match ParseAll(lines)
      case Raised(e) => Raised(e)
      case Ok(entries) => Ok(Some(entries))
  }

  /** The parse succeeds exactly when every line parses, and then yields
      one entry per line, in order. */
  lemma {:induction false} ParseAllShape(lines: seq<string>)
    ensures ParseAll(lines).Ok? <==> forall i :: 0 <= i < |lines| ==> ParseEntry(lines[i]).Ok?
    ensures ParseAll(lines).Raised? ==> ParseAll(lines).error == IndexError
    ensures ParseAll(lines).Ok? ==>
      var es := ParseAll(lines).value;
      |es| == |lines| && forall i :: 0 <= i < |lines| ==> ParseEntry(lines[i]) == Ok(es[i])
    decreases |lines|
  {
    if lines != [] {
      var tail := lines[1..];
      ParseAllShape(tail);
      assert forall i :: 1 <= i < |lines| ==> lines[i] == tail[i - 1];
      match ParseEntry(lines[0])
      case Raised(e) =>
      case Ok(entry) =>
        if ParseAll(tail).Ok? {
          var es := ParseAll(lines).value;
          assert es == [entry] + ParseAll(tail).value;
        }
    }
  }

  /** `get_refind_data` as a whole: None exactly when no line remains, an
      IndexError exactly when some line has fewer than two commas, and
      otherwise a non-empty list with one entry per remaining line. */
  lemma RefindDataShape(listing: string)
    ensures var lines := EntryLines(listing); var r := RefindData(listing);
      && (r == Ok(None) <==> lines == [])
      && (r.Raised? <==> exists i :: 0 <= i < |lines| && |Split(lines[i], ',')| < 3)
      && (r.Raised? ==> r.error == IndexError)
      && (r.Ok? && r.value.Some? ==>
            && |r.value.value| == |lines| > 0
            && forall i :: 0 <= i < |lines| ==>
                 r.value.value[i] == BootEntry(BootNumber(lines[i]), Split(lines[i], ',')[2]))
  {
    var lines := EntryLines(listing);
    ParseAllShape(lines);
    assert forall i :: 0 <= i < |lines| ==> (ParseEntry(lines[i]).Ok? <==> |Split(lines[i], ',')| >= 3);
  }

  /** After grep, the lines left to parse are exactly the `efibootmgr` lines
      that mention rEFInd: the only empty piece is the one after the final
      newline, and that is the one removed. */
  lemma ListingLinesAreLoaderLines(efibootmgr: string)
    ensures EntryLines(BootListing(efibootmgr)) == Matching(GrepLines(efibootmgr), LoaderName)
  {
    var ls := Matching(GrepLines(efibootmgr), LoaderName);
    GrepThenSplitLines(efibootmgr, LoaderName);
    RemoveFirstOfLast(ls, "");
  }

  /** `get_refind_data`: the early return on an empty listing, then the
      loop over the lines. */
  method GetRefindData(listing: string) returns (r: Result<Option<seq<BootEntry>>>)
    ensures r == RefindData(listing)
  {
    var lines := EntryLines(listing);
    if lines == [] {
      return Ok(None);
    }
    var parsed := ParseLines(lines);
    if parsed.Raised? {
      return Raised(parsed.error);
    }
    return Ok(Some(parsed.value));
  }

  /** The loop of `get_refind_data` that appends one pair per line; the
      first line with fewer than two commas raises. */
  method ParseLines(lines: seq<string>) returns (r: Result<seq<BootEntry>>)
    ensures r == ParseAll(lines)
  {
    var data: seq<BootEntry> := [];
    var i := 0;
    assert lines[i..] == lines;
    assert ParseAll(lines).Ok? ==> data + ParseAll(lines).value == ParseAll(lines).value;
    while i < |lines|
      invariant 0 <= i <= |lines|
      invariant ParseAll(lines) == Prepend(data, ParseAll(lines[i..]))
    {
      var entry := ParseEntry(lines[i]);
      ParseAllFrom(lines, i);
      if entry.Raised? {
        return Raised(IndexError);
      }
      PrependTwice(data, [entry.value], ParseAll(lines[i + 1..]));
      data := data + [entry.value];
      i := i + 1;
    }
    assert lines[i..] == [];
    assert data + [] == data;
    return Ok(data);
  }

  // ---------------------------------------------------------------------------
  // Boot numbers

  /** A well-formed entry token `Boot` + number + optional `*` yields the
      number, provided the number neither starts nor ends with one of the
      stripped characters. */
  lemma BootNumberOfWellFormed(number: string, marker: string, rest: string)
    requires number != [] && ' ' !in number
    requires number[0] !in BootChars + {'*'} && number[|number| - 1] !in BootChars + {'*'}
    requires marker == "*" || marker == ""
    requires rest == [] || rest[0] == ' '
    ensures BootNumber("Boot" + number + marker + rest) == number
  {
    var token := "Boot" + number + marker;
    assert ' ' !in token;
    if rest == [] {
      SplitWithoutSep(token, ' ');
      assert token + rest == token;
    } else {
      FirstFieldBefore(token, ' ', rest[1..]);
      assert token + rest == token + [' '] + rest[1..];
    }
    assert FirstField(token + rest, ' ') == token;
    assert token == "Boot" + (number + marker);
    LStripPrefix("Boot", number + marker, BootChars);
    assert LStrip(number + marker, BootChars) == number + marker;
    StripKeeps(number + marker, BootChars);
    assert Strip(token, BootChars) == number + marker;
    if marker == "*" {
      RStripSuffix(number, "*", {'*'});
      StripKeeps(number, {'*'});
      assert LStrip(number + marker, {'*'}) == number + marker;
    } else {
      assert number + marker == number;
      StripKeeps(number, {'*'});
    }
  }

  /** An inactive entry (no `*` in its token) never gets a boot number that
      ends in B, o or t: a trailing `B` of a hexadecimal number is lost. */
  lemma InactiveNumberLosesTrailingB(line: string)
    requires '*' !in FirstField(line, ' ')
    ensures var n := BootNumber(line); n == [] || n[|n| - 1] !in BootChars
  {
    var inner := Strip(FirstField(line, ' '), BootChars);
    var token := FirstField(line, ' ');
    StripIsTrim(token, BootChars);
    var i, j :| TrimmedTo(token, BootChars, i, j) && inner == token[i..j];
    assert '*' !in inner;
    StripKeeps(inner, {'*'});
  }

  /** The description that follows the token on an entry line. */
  const Description: string := " rEFInd Boot Manager"

  /** An active entry: `Boot0001*` gives `0001`. */
  lemma ActiveEntryNumber()
    ensures BootNumber("Boot0001*" + Description) == "0001"
  {
    BootNumberOfWellFormed("0001", "*", Description);
    assert "Boot0001*" == "Boot" + "0001" + "*";
  }

  /** An inactive entry whose hexadecimal number ends in `B`: the token
      `Boot` + number + `B` yields the number without its `B`. */
  lemma InactiveNumberDropsB(number: string, rest: string)
    requires number != [] && ' ' !in number
    requires number[0] !in BootChars + {'*'} && number[|number| - 1] !in BootChars + {'*'}
    requires rest == [] || rest[0] == ' '
    ensures BootNumber("Boot" + number + "B" + rest) == number
  {
    var token := "Boot" + number + "B";
    assert ' ' !in token;
    if rest == [] {
      SplitWithoutSep(token, ' ');
      assert token + rest == token;
    } else {
      FirstFieldBefore(token, ' ', rest[1..]);
      assert token + rest == token + [' '] + rest[1..];
    }
    assert token == "Boot" + (number + "B");
    LStripPrefix("Boot", number + "B", BootChars);
    StripKeeps(number + "B", {'*'});
    assert LStrip(number + "B", BootChars) == number + "B";
    RStripSuffix(number, "B", BootChars);
    StripKeeps(number, BootChars);
    StripKeeps(number, {'*'});
  }

  /** Any entry, active or not, whose hexadecimal number starts with `B`:
      the token `Boot` + `B` + number + optional `*` yields the number
      without its leading `B`. */
  lemma LeadingBDropped(number: string, marker: string, rest: string)
    requires number != [] && ' ' !in number
    requires number[0] !in BootChars + {'*'} && number[|number| - 1] !in BootChars + {'*'}
    requires marker == "*" || marker == ""
    requires rest == [] || rest[0] == ' '
    ensures BootNumber("Boot" + "B" + number + marker + rest) == number
  {
    var token := "BootB" + number + marker;
    assert "Boot" + "B" + number + marker + rest == token + rest;
    assert ' ' !in token;
    if rest == [] {
      SplitWithoutSep(token, ' ');
      assert token + rest == token;
    } else {
      FirstFieldBefore(token, ' ', rest[1..]);
      assert token + rest == token + [' '] + rest[1..];
    }
    assert token == "BootB" + (number + marker);
    LStripPrefix("BootB", number + marker, BootChars);
    assert LStrip(number + marker, BootChars) == number + marker;
    StripKeeps(number + marker, BootChars);
    if marker == "*" {
      RStripSuffix(number, "*", {'*'});
      StripKeeps(number, {'*'});
      assert LStrip(number + marker, {'*'}) == number + marker;
    } else {
      assert number + marker == number;
      StripKeeps(number, {'*'});
    }
  }

  /** The active entry `BootB001*` gives `001`, so the delete command later
      names Boot0001 instead. */
  lemma ActiveLeadingBQuirk()
    ensures BootNumber("BootB001*" + Description) == "001"
  {
    LeadingBDropped("001", "*", Description);
    assert "BootB001*" + Description == "Boot" + "B" + "001" + "*" + Description;
  }

  /** The inactive entry `Boot000B` gives `000`, so the delete command
      later names Boot0000 instead. */
  lemma InactiveEntryNumberQuirk()
    ensures BootNumber("Boot000B " + Description) == "000"
  {
    InactiveNumberDropsB("000", " " + Description);
    assert "Boot000B " + Description == "Boot" + "000" + "B" + (" " + Description);
  }

  // ---------------------------------------------------------------------------
  // find_esp

  const TeeGlyph: string := "\U{251C}\U{2500}"     // "├─"
  const CornerGlyph: string := "\U{2514}\U{2500}"  // "└─"
  const GlyphChars: set<char> := {'\U{251C}', '\U{2514}', '\U{2500}'}

  /** `lsblk --output NAME,PARTUUID | grep PATTERN`: an empty pattern leaves
      `grep` without an argument, which prints nothing on standard output. */
  function PartitionListing(partitions: string, pattern: string): string
  {
    if pattern == "" then "" else Grep(partitions, pattern)
  }

  /** `"/dev/" + listing.split(" ")[0].replace("├─", "").replace("└─", "")`. */
  function DevicePath(listing: string): (r: string)
    ensures |r| >= 5 && r[..5] == "/dev/"
  {
    "/dev/" + RemoveAll(RemoveAll(FirstField(listing, ' '), TeeGlyph), CornerGlyph)
  }

  /** `find_esp`: the device of the partition whose PARTUUID is the first entry's. */
  function FindEsp(entries: seq<BootEntry>, partitions: string): string
    requires |entries| > 0
  {
    DevicePath(PartitionListing(partitions, entries[0].partUuid))
  }

  /** A tree row of lsblk: an optional tree glyph, the device name, a space.
      The device path is `/dev/` and the bare name. */
  lemma DevicePathOfTreeRow(glyph: string, name: string, rest: string)
    requires glyph == "" || glyph == TeeGlyph || glyph == CornerGlyph
    requires ' ' !in name && '\U{251C}' !in name && '\U{2514}' !in name
    ensures DevicePath(glyph + name + " " + rest) == "/dev/" + name
  {
    assert ' ' !in glyph + name;
    FirstFieldBefore(glyph + name, ' ', rest);
    assert glyph + name + " " + rest == (glyph + name) + [' '] + rest;
    RemoveAllAbsent(name, TeeGlyph);
    RemoveAllAbsent(name, CornerGlyph);
    if glyph == TeeGlyph {
      RemoveAllLeading(TeeGlyph, name);
    } else if glyph == CornerGlyph {
      RemoveAllAbsent(CornerGlyph + name, TeeGlyph);
      RemoveAllLeading(CornerGlyph, name);
    } else {
      assert glyph + name == name;
    }
  }

  /** Whatever the token, removing the glyph pairs keeps every other
      character of the first token, in order. */
  lemma DevicePathKeepsName(listing: string)
    ensures var token := FirstField(listing, ' ');
      Without(DevicePath(listing)[5..], GlyphChars) == Without(token, GlyphChars)
  {
    var token := FirstField(listing, ' ');
    var once := RemoveAll(token, TeeGlyph);
    RemoveAllKeepsOthers(token, TeeGlyph, GlyphChars);
    RemoveAllKeepsOthers(once, CornerGlyph, GlyphChars);
    assert DevicePath(listing)[5..] == RemoveAll(once, CornerGlyph);
  }

  /** Resolving a PARTUUID against a listing with a single child row yields
      the child's device node, glyph removed. */
  lemma ResolveChildPartition(name: string, partUuid: string)
    requires name != [] && partUuid != []
    requires ' ' !in name && '\n' !in name && '\U{251C}' !in name && '\U{2514}' !in name
    requires '\n' !in partUuid
    ensures FindEsp([BootEntry("0001", partUuid)], CornerGlyph + name + "  " + partUuid + "\n")
            == "/dev/" + name
  {
    var row := CornerGlyph + name + "  " + partUuid;
    AbsentFromConcat('\n', CornerGlyph + name + "  ", partUuid);
    ContainsMiddle(CornerGlyph + name + "  ", partUuid, "");
    assert CornerGlyph + name + "  " + partUuid + "" == row;
    GrepOneLine(row, partUuid);
    assert row + "\n" == CornerGlyph + name + " " + (" " + partUuid + "\n");
    DevicePathOfTreeRow(CornerGlyph, name, " " + partUuid + "\n");
  }

  // ---------------------------------------------------------------------------
  // delete_entries

  /** One `efibootmgr --delete-bootnum` per entry, in list order. */
  function DeleteActions(entries: seq<BootEntry>): (r: seq<Action>)
    ensures |r| == |entries|
    ensures forall i :: 0 <= i < |entries| ==> r[i] == DeleteBootEntry(entries[i].bootNumber)
  {
    seq(|entries|, i requires 0 <= i < |entries| => DeleteBootEntry(entries[i].bootNumber))
  }

  /** The boot numbers of the entries, in order. */
  function BootNumbers(entries: seq<BootEntry>): (r: seq<string>)
    ensures |r| == |entries|
    ensures forall i :: 0 <= i < |entries| ==> r[i] == entries[i].bootNumber
  {
    seq(|entries|, i requires 0 <= i < |entries| => entries[i].bootNumber)
  }

  /** The deletions issued are exactly the entries' boot numbers, and the
      delete commands neither mount nor unmount anything. */
  lemma {:induction false} DeleteActionsView(entries: seq<BootEntry>)
    ensures Deletions(DeleteActions(entries)) == BootNumbers(entries)
    ensures Mounts(DeleteActions(entries)) == [] && Unmounts(DeleteActions(entries)) == 0
    decreases |entries|
  {
    if entries != [] {
      DeleteActionsView(entries[1..]);
      assert DeleteActions(entries) == [DeleteBootEntry(entries[0].bootNumber)] + DeleteActions(entries[1..]);
      ViewsAppend([DeleteBootEntry(entries[0].bootNumber)], DeleteActions(entries[1..]));
      assert BootNumbers(entries) == [entries[0].bootNumber] + BootNumbers(entries[1..]);
    }
  }

  /** Appending the delete commands adds the entries' boot numbers to the
      deletions and changes nothing else. */
  lemma DeleteAppend(t: seq<Action>, entries: seq<BootEntry>)
    ensures Deletions(t + DeleteActions(entries)) == Deletions(t) + BootNumbers(entries)
    ensures Mounts(t + DeleteActions(entries)) == Mounts(t)
    ensures Unmounts(t + DeleteActions(entries)) == Unmounts(t)
  {
    ViewsAppend(t, DeleteActions(entries));
    DeleteActionsView(entries);
  }

  /** `delete_entries`: one delete command per entry, in list order, whatever
      each command returns; the mount state and the files are untouched. */
  method DeleteEntries(w: World, entries: seq<BootEntry>) returns (w': World)
    ensures w'.trace == w.trace + DeleteActions(entries)
    ensures w'.mounted == w.mounted && w'.files == w.files
  {
    w' := w;
    for i := 0 to |entries|
      invariant w'.trace == w.trace + DeleteActions(entries[..i])
      invariant w'.mounted == w.mounted && w'.files == w.files
    {
      assert DeleteActions(entries[..i + 1]) == DeleteActions(entries[..i]) + [DeleteBootEntry(entries[i].bootNumber)];
      w' := w'.(trace := w'.trace + [DeleteBootEntry(entries[i].bootNumber)]);
    }
    assert entries[..|entries|] == entries;
  }
}
