/** Finding the root file system's identifiers: `find_root_guids` reads
    `lsblk -o NAME,MOUNTPOINT,UUID,PARTUUID`, `find_root_uuid` reads
    /etc/fstab. Both keep the LAST line that has a `/` word. */
module RootIds {
  import opened Python
  import opened PyText

  /** A line one of whose whitespace-separated words is exactly `/`. */
  predicate IsRootLine(line: string)
  {
    "/" in Words(line)
  }

  /** The index of the last root line, when there is one. */
  function LastRootLine(lines: seq<string>): (k: nat)
    requires exists i :: 0 <= i < |lines| && IsRootLine(lines[i])
    ensures k < |lines| && IsRootLine(lines[k])
    ensures forall j :: k < j < |lines| ==> !IsRootLine(lines[j])
    decreases |lines|
  {
    if IsRootLine(lines[|lines| - 1]) then |lines| - 1
    else
      var init := lines[..|lines| - 1];
      assert exists i :: 0 <= i < |init| && IsRootLine(init[i]) by {
        var i :| 0 <= i < |lines| && IsRootLine(lines[i]);
        assert i < |lines| - 1 && init[i] == lines[i];
      }
      LastRootLine(init)
  }

  // ---------------------------------------------------------------------------
  // find_root_guids

  /** One pass of the loop of `find_root_guids` over `line`, given the
      (UUID, PARTUUID) pair assigned so far. */
  function GuidStep(acc: (string, string), line: string): Result<(string, string)>
  {
    var w := Words(line);
    if "/" !in w then Ok(acc)
    else if |w| < 4 then Raised(IndexError)
    else Ok((w[2], w[3]))
  }

  /** The loop of `find_root_guids` over `lines`, starting from `("", "")`. */
  function ScanGuids(lines: seq<string>): Result<(string, string)>
    decreases |lines|
  {
    if lines == [] then Ok(("", ""))
    else
      match ScanGuids(lines[..|lines| - 1])
      case Raised(e) => Raised(e)
      case Ok(acc) => GuidStep(acc, lines[|lines| - 1])
  }

  /** `find_root_guids`: None when either identifier is empty after the loop. */
  function RootGuids(lsblk: string): Result<Option<(string, string)>>
  {
    match ScanGuids(Split(lsblk, '\n'))
    case Raised(e) => Raised(e)
    case Ok(ids) => if ids.0 == "" || ids.1 == "" then Ok(None) else Ok(Some(ids))
  }

  /** A root line too short for `line.split()[3]`. */
  predicate ShortRootLine(line: string)
  {
    IsRootLine(line) && |Words(line)| < 4
  }

  /** The loop raises, always IndexError, exactly when some root line has
      fewer than four words. */
  lemma {:induction false} ScanGuidsRaised(lines: seq<string>)
    ensures ScanGuids(lines).Raised? <==> exists i :: 0 <= i < |lines| && ShortRootLine(lines[i])
    ensures ScanGuids(lines).Raised? ==> ScanGuids(lines).error == IndexError
    decreases |lines|
  {
    if lines != [] {
      var init := lines[..|lines| - 1];
      ScanGuidsRaised(init);
      if exists i :: 0 <= i < |init| && ShortRootLine(init[i]) {
        var i :| 0 <= i < |init| && ShortRootLine(init[i]);
        assert lines[i] == init[i];
      }
      if exists i :: 0 <= i < |lines| && ShortRootLine(lines[i]) {
        var i :| 0 <= i < |lines| && ShortRootLine(lines[i]);
        if i < |init| {
          assert init[i] == lines[i];
        }
      }
    }
  }

  /** When the loop completes it holds words 2 and 3 of the last root line,
      or the initial empty pair when there is no root line. */
  lemma {:induction false} ScanGuidsValue(lines: seq<string>)
    requires ScanGuids(lines).Ok?
    ensures (forall i :: 0 <= i < |lines| ==> !IsRootLine(lines[i])) ==> ScanGuids(lines).value == ("", "")
    ensures (exists i :: 0 <= i < |lines| && IsRootLine(lines[i])) ==>
      var w := Words(lines[LastRootLine(lines)]);
      |w| >= 4 && ScanGuids(lines).value == (w[2], w[3])
    decreases |lines|
  {
    if lines != [] {
      var init := lines[..|lines| - 1];
      ScanGuidsValue(init);
      assert forall i :: 0 <= i < |init| ==> init[i] == lines[i];
      if !IsRootLine(lines[|lines| - 1]) && exists i :: 0 <= i < |lines| && IsRootLine(lines[i]) {
        var i :| 0 <= i < |lines| && IsRootLine(lines[i]);
        assert i < |init| && IsRootLine(init[i]);
      }
    }
  }

  /** `find_root_guids` as a whole: an IndexError exactly when a root line is
      short; None exactly when there is no root line (words are never empty,
      so an assigned identifier is never empty); otherwise the UUID and
      PARTUUID columns of the last root line. */
  lemma RootGuidsShape(lsblk: string)
    ensures RootGuids(lsblk).Raised? <==>
      exists i :: 0 <= i < |Split(lsblk, '\n')| && ShortRootLine(Split(lsblk, '\n')[i])
    ensures RootGuids(lsblk).Raised? ==> RootGuids(lsblk).error == IndexError
    ensures RootGuids(lsblk) == Ok(None) <==>
      ScanGuids(Split(lsblk, '\n')).Ok? && forall i :: 0 <= i < |Split(lsblk, '\n')| ==> !IsRootLine(Split(lsblk, '\n')[i])
    ensures var lines := Split(lsblk, '\n');
      RootGuids(lsblk).Ok? && (exists i :: 0 <= i < |lines| && IsRootLine(lines[i])) ==>
        var w := Words(lines[LastRootLine(lines)]);
        |w| >= 4 && RootGuids(lsblk) == Ok(Some((w[2], w[3])))
  {
    var lines := Split(lsblk, '\n');
    ScanGuidsRaised(lines);
    assert RootGuids(lsblk).Raised? == ScanGuids(lines).Raised?;
    if ScanGuids(lines).Ok? {
      ScanGuidsValue(lines);
      if exists i :: 0 <= i < |lines| && IsRootLine(lines[i]) {
        var w := Words(lines[LastRootLine(lines)]);
        assert w[2] != "" && w[3] != "";
      }
    }
  }

  /** `find_root_guids`: the loop that reassigns both identifiers on every
      root line, then the emptiness check. */
  method FindRootGuids(lsblk: string) returns (r: Result<Option<(string, string)>>)
    ensures r == RootGuids(lsblk)
  {
    var lines := Split(lsblk, '\n');
    var rootUuid, rootPartGuid := "", "";
    var i := 0;
    while i < |lines|
      invariant 0 <= i <= |lines|
      invariant ScanGuids(lines[..i]) == Ok((rootUuid, rootPartGuid))
    {
      assert lines[..i + 1][..i] == lines[..i];
      var w := Words(lines[i]);
      if "/" in w {
        if |w| < 4 {
          assert ShortRootLine(lines[i]);
          ScanGuidsRaised(lines);
          return Raised(IndexError);
        }
        rootUuid, rootPartGuid := w[2], w[3];
      }
      i := i + 1;
    }
    assert lines[..i] == lines;
    if rootUuid == "" || rootPartGuid == "" {
      return Ok(None);
    }
    return Ok(Some((rootUuid, rootPartGuid)));
  }

  // ---------------------------------------------------------------------------
  // find_root_uuid

  /** One pass of the loop of `find_root_uuid`: on a root line the first
      word is split on `=` and its second piece taken; `None` stands for the
      variable not yet assigned. */
  function UuidStep(acc: Option<string>, line: string): Result<Option<string>>
  {
    var w := Words(line);
    if "/" !in w then Ok(acc)
    else
      var pieces := Split(w[0], '=');
      if |pieces| < 2 then Raised(IndexError) else Ok(Some(pieces[1]))
  }

  /** The loop of `find_root_uuid` over `lines`. */
  function ScanUuid(lines: seq<string>): Result<Option<string>>
    decreases |lines|
  {
    if lines == [] then Ok(None)
    else
      match ScanUuid(lines[..|lines| - 1])
      case Raised(e) => Raised(e)
      case Ok(acc) => UuidStep(acc, lines[|lines| - 1])
  }

  /** `find_root_uuid`: reading the never-assigned variable raises
      UnboundLocalError; an empty UUID gives None. */
  function RootUuid(fstab: string): Result<Option<string>>
  {
    match ScanUuid(Split(fstab, '\n'))
    case Raised(e) => Raised(e)
    case Ok(None) => Raised(UnboundLocalError)
    case Ok(Some(u)) => if u == "" then Ok(None) else Ok(Some(u))
  }

  /** A root line whose first word has no `=`, so `split("=")[1]` fails. */
  predicate BadRootLine(line: string)
  {
    IsRootLine(line) && |Split(Words(line)[0], '=')| < 2
  }

  /** The loop raises, always IndexError, exactly when some root line's
      first word has no `=`. */
  lemma {:induction false} ScanUuidRaised(lines: seq<string>)
    ensures ScanUuid(lines).Raised? <==> exists i :: 0 <= i < |lines| && BadRootLine(lines[i])
    ensures ScanUuid(lines).Raised? ==> ScanUuid(lines).error == IndexError
    decreases |lines|
  {
    if lines != [] {
      var init := lines[..|lines| - 1];
      ScanUuidRaised(init);
      if exists i :: 0 <= i < |init| && BadRootLine(init[i]) {
        var i :| 0 <= i < |init| && BadRootLine(init[i]);
        assert lines[i] == init[i];
      }
      if exists i :: 0 <= i < |lines| && BadRootLine(lines[i]) {
        var i :| 0 <= i < |lines| && BadRootLine(lines[i]);
        if i < |init| {
          assert init[i] == lines[i];
        }
      }
    }
  }

  /** When the loop completes the variable is unassigned exactly when there
      is no root line, and otherwise holds the text between the first and the
      second `=` of the last root line's first word. */
  lemma {:induction false} ScanUuidValue(lines: seq<string>)
    requires ScanUuid(lines).Ok?
    ensures ScanUuid(lines).value.None? <==> forall i :: 0 <= i < |lines| ==> !IsRootLine(lines[i])
    ensures (exists i :: 0 <= i < |lines| && IsRootLine(lines[i])) ==>
      var pieces := Split(Words(lines[LastRootLine(lines)])[0], '=');
      |pieces| >= 2 && ScanUuid(lines).value == Some(pieces[1])
    decreases |lines|
  {
    if lines != [] {
      var init := lines[..|lines| - 1];
      ScanUuidValue(init);
      assert forall i :: 0 <= i < |init| ==> init[i] == lines[i];
      if !IsRootLine(lines[|lines| - 1]) && exists i :: 0 <= i < |lines| && IsRootLine(lines[i]) {
        var i :| 0 <= i < |lines| && IsRootLine(lines[i]);
        assert i < |init| && IsRootLine(init[i]);
      }
    }
  }

  /** `find_root_uuid` as a whole: an IndexError exactly when a root line's
      first word lacks `=`; otherwise, with no root line at all it raises
      UnboundLocalError rather than returning None, and with one it returns
      the field of the last root line, None when that field is empty. */
  lemma RootUuidShape(fstab: string)
    ensures RootUuid(fstab) == Raised(IndexError) <==>
      exists i :: 0 <= i < |Split(fstab, '\n')| && BadRootLine(Split(fstab, '\n')[i])
    ensures var lines := Split(fstab, '\n');
      (forall i :: 0 <= i < |lines| ==> !IsRootLine(lines[i])) ==> RootUuid(fstab) == Raised(UnboundLocalError)
    ensures var lines := Split(fstab, '\n');
      (forall i :: 0 <= i < |lines| ==> !BadRootLine(lines[i])) && (exists i :: 0 <= i < |lines| && IsRootLine(lines[i])) ==>
        var pieces := Split(Words(lines[LastRootLine(lines)])[0], '=');
        |pieces| >= 2 && RootUuid(fstab) == (if pieces[1] == "" then Ok(None) else Ok(Some(pieces[1])))
  {
    var lines := Split(fstab, '\n');
    ScanUuidRaised(lines);
    assert (RootUuid(fstab) == Raised(IndexError)) == ScanUuid(lines).Raised?;
    if ScanUuid(lines).Ok? {
      ScanUuidValue(lines);
    } else {
      var i :| 0 <= i < |lines| && BadRootLine(lines[i]);
      assert IsRootLine(lines[i]);
    }
  }

  /** `find_root_uuid`: the loop that reassigns the UUID on every root line. */
  method FindRootUuid(fstab: string) returns (r: Result<Option<string>>)
    ensures r == RootUuid(fstab)
  {
    var lines := Split(fstab, '\n');
    var rootUuid: Option<string> := None;
    var i := 0;
    while i < |lines|
      invariant 0 <= i <= |lines|
      invariant ScanUuid(lines[..i]) == Ok(rootUuid)
    {
      assert lines[..i + 1][..i] == lines[..i];
      var w := Words(lines[i]);
      if "/" in w {
        var pieces := Split(w[0], '=');
        if |pieces| < 2 {
          assert BadRootLine(lines[i]);
          ScanUuidRaised(lines);
          return Raised(IndexError);
        }
        rootUuid := Some(pieces[1]);
      }
      i := i + 1;
    }
    assert lines[..i] == lines;
    if rootUuid.None? {
      return Raised(UnboundLocalError);
    }
    if rootUuid.value == "" {
      return Ok(None);
    }
    return Ok(Some(rootUuid.value));
  }
}
