// Exporting the mod list to the clipboard in the text format RimSort
// reads: a two-line header, a blank line, then one line per mod with
// its name, its package ID and, when known, its Workshop address. The
// mods come from the caller or are listed from the mods folder; the
// mod scanner's listing and details lookup are parameters.

module ExportHandlers {
  import opened Common
  import opened FileSystem
  import opened ModQuery
  import opened AccessCheck
  import opened WorkshopClient
  import opened Services
  import opened CommandTypes

  /** The name a mod is exported under: its Workshop title, else its folder, else its ID. */
  function ExportName(m: ScannedMod): string
  {
    if m.details.Some? then m.details.value.title
    else if m.folder.Some? then m.folder.value
    else m.modId
  }

  /**
   * The address a mod is exported with: the details' own address, else
   * the page of its published ID; a mod without details gets the page
   * of its ID unless it is a local mod or has no ID.
   */
  function ExportUrl(m: ScannedMod): (url: string)
    ensures url == "" <==>
              if m.details.Some? then m.details.value.workshopFileUrl == "" && m.details.value.publishedfileid == ""
              else m.nonSteamMod || m.modId == ""
    ensures url != "" && m.details.None? ==> url == WorkshopPageUrl(m.modId)
    ensures url != "" && m.details.Some? ==>
              url == m.details.value.workshopFileUrl || url == WorkshopPageUrl(m.details.value.publishedfileid)
  {
    if m.details.Some? then
      var d := m.details.value;
      if d.workshopFileUrl != "" then d.workshopFileUrl
      else if d.publishedfileid != "" then WorkshopPageUrl(d.publishedfileid)
      else ""
    else if !m.nonSteamMod && m.modId != "" then WorkshopPageUrl(m.modId)
    else ""
  }

  /** `{name} [{package_id}]`, followed by `[{url}]` when there is an address. */
  function ExportLine(m: ScannedMod): string
  {
    var url := ExportUrl(m);
    if url == "" then ExportName(m) + " [" + m.modId + "]"
    else ExportName(m) + " [" + m.modId + "][" + url + "]"
  }

  function ExportLines(mods: seq<ScannedMod>): (lines: seq<string>)
    ensures |lines| == |mods|
  {
    seq(|mods|, i requires 0 <= i < |mods| => ExportLine(mods[i]))
  }

  const HeaderTitle := "Created with Rimworld Workshop Downloader "
  const HeaderCount := "Total # of mods: "

  function ExportHeader(version: string, count: nat): string
  {
    (HeaderTitle + version) + "\n" + (HeaderCount + NatToString(count)) + "\n\n"
  }

  /** The whole exported text. */
  function ExportText(version: string, mods: seq<ScannedMod>): string
  {
    ExportHeader(version, |mods|) + JoinWith(ExportLines(mods), "\n")
  }

  /** The lines of the list, built one mod at a time, joined by newlines after the header. */
  method FormatExport(version: string, mods: seq<ScannedMod>) returns (text: string)
    ensures text == ExportText(version, mods)
  {
    var header := (HeaderTitle + version) + "\n" + (HeaderCount + NatToString(|mods|)) + "\n\n";
    var lines: seq<string> := [];
    var i := 0;
    while i < |mods|
      invariant i <= |mods|
      invariant lines == ExportLines(mods[..i])
    {
      var m := mods[i];
      var name := if m.details.Some? then m.details.value.title
                  else if m.folder.Some? then m.folder.value
                  else m.modId;
      var url := ExportUrl(m);
      var line := if url == "" then name + " [" + m.modId + "]" else name + " [" + m.modId + "][" + url + "]";
      assert name == ExportName(m);
      assert line == ExportLine(m);
      ExportLinesStep(mods, i);
      lines := lines + [line];
      i := i + 1;
    }
    assert mods[..|mods|] == mods;
    text := header + JoinWith(lines, "\n");
  }

  lemma ExportLinesStep(mods: seq<ScannedMod>, i: nat)
    requires i < |mods|
    ensures ExportLines(mods[..i + 1]) == ExportLines(mods[..i]) + [ExportLine(mods[i])]
  {
    var a := ExportLines(mods[..i + 1]);
    var b := ExportLines(mods[..i]) + [ExportLine(mods[i])];
    assert |a| == |b|;
    forall k | 0 <= k < |a|
      ensures a[k] == b[k]
    {
      assert mods[..i + 1][k] == if k < i then mods[..i][k] else mods[i];
    }
  }

  /** A mod whose name, ID and address are free of newlines. */
  predicate OneLine(m: ScannedMod)
  {
    '\n' !in ExportName(m) && '\n' !in m.modId && '\n' !in ExportUrl(m)
  }

  lemma ExportLineHasNoNewline(m: ScannedMod)
    requires OneLine(m)
    ensures '\n' !in ExportLine(m)
  {
  }

  lemma HeaderHasNoNewline(version: string)
    requires '\n' !in version
    ensures '\n' !in HeaderTitle + version && '\n' !in HeaderCount
  {
    assert forall i :: 0 <= i < |HeaderTitle| ==> HeaderTitle[i] != '\n';
    assert forall i :: 0 <= i < |HeaderCount| ==> HeaderCount[i] != '\n';
  }

  lemma DigitsHaveNoNewline(n: nat)
    ensures '\n' !in NatToString(n)
  {
  }

  /** Splitting past two single-line pieces and an empty one. */
  lemma ThreeLines(l1: string, l2: string, body: string)
    requires '\n' !in l1 && '\n' !in l2
    ensures SplitOn(l1 + "\n" + l2 + "\n\n" + body, '\n') == [l1, l2, ""] + SplitOn(body, '\n')
  {
    var t3 := "" + ['\n'] + body;
    var t2 := l2 + ['\n'] + t3;
    var t1 := l1 + ['\n'] + t2;
    assert l1 + "\n" + l2 + "\n\n" + body == t1;
    SplitPiece("", body, '\n');
    SplitPiece(l2, t3, '\n');
    SplitPiece(l1, t2, '\n');
    assert SplitOn(t1, '\n') == [l1] + ([l2] + ([""] + SplitOn(body, '\n')));
  }

  /** Splitting the list of mods back gives one line per mod. */
  lemma BodyLines(mods: seq<ScannedMod>)
    requires forall i :: 0 <= i < |mods| ==> OneLine(mods[i])
    ensures SplitOn(JoinWith(ExportLines(mods), "\n"), '\n') == if mods == [] then [""] else ExportLines(mods)
  {
    var lines := ExportLines(mods);
    if mods != [] {
      forall i | 0 <= i < |lines|
        ensures '\n' !in lines[i]
      {
        ExportLineHasNoNewline(mods[i]);
      }
      assert "\n" == ['\n'];
      SplitJoin(lines, '\n');
    }
  }

  /**
   * Reading the export back line by line gives the title line, the
   * count line, a blank line and then exactly one line per mod, in
   * order (as long as the version and every field are single-line).
   */
  lemma ExportTextLines(version: string, mods: seq<ScannedMod>)
    requires '\n' !in version && forall i :: 0 <= i < |mods| ==> OneLine(mods[i])
    ensures SplitOn(ExportText(version, mods), '\n') ==
              [HeaderTitle + version, HeaderCount + NatToString(|mods|), ""] +
              (if mods == [] then [""] else ExportLines(mods))
  {
    var l1 := HeaderTitle + version;
    var l2 := HeaderCount + NatToString(|mods|);
    var body := JoinWith(ExportLines(mods), "\n");
    assert ExportText(version, mods) == l1 + "\n" + l2 + "\n\n" + body;
    HeaderHasNoNewline(version);
    DigitsHaveNoNewline(|mods|);
    ThreeLines(l1, l2, body);
    BodyLines(mods);
  }

  /** Where the mods to export come from, and what the mod scanner answers. */
  datatype ExportSource = ExportSource(mods: Option<seq<ScannedMod>>, modsPath: Option<Path>, pathText: string,
                                       listed: Result<seq<ScannedMod>, string>,
                                       detailed: seq<ScannedMod> -> Result<seq<ScannedMod>, string>)

  const NoExportSource := "Either mods or mods_path must be provided"

  /**
   * `export_mods_to_clipboard`. `perms` is what the platform allows on
   * the mods folder, `version` the program's version and `clipboardOk`
   * whether the clipboard accepts the text. `copied` is the text handed
   * to the clipboard, if the command got that far.
   */
  method ExportModsToClipboard(fs: Fs, src: ExportSource, perms: Permissions, version: string, clipboardOk: bool)
    returns (r: Result<(), CommandError>, copied: Option<string>, event: Option<AccessEvent>)
    requires fs.Valid()
    modifies fs
    ensures fs.Valid()
    ensures src.mods.Some? ==>
              && fs.tree == old(fs.tree) && event == None
              && copied == Some(ExportText(version, src.mods.value))
              && (r.Ok? <==> clipboardOk)
    ensures src.mods.None? && src.modsPath.None? ==>
              r == Err(Message(NoExportSource)) && copied == None && fs.tree == old(fs.tree)
    ensures src.mods.None? && src.modsPath.Some? && !IsDir(old(fs.tree), src.modsPath.value) ==>
              r == Err(Message(ValidateModsPath(old(fs.tree), src.modsPath.value).error)) && copied == None
              && fs.tree == old(fs.tree)
    ensures src.mods.None? && src.modsPath.Some? && IsDir(old(fs.tree), src.modsPath.value) ==>
              var path := src.modsPath.value;
              var c := AccessSpec(old(fs.tree), path, perms);
              && fs.tree == c.tree
              && (c.result.Err? && !c.result.error.canRead ==> r == Err(Denied(NoReadAccess(c.result.error))) && copied == None)
              && (c.result.Ok? || c.result.error.canRead ==>
                    (src.listed.Err? ==> r == Err(Message("Failed to list installed mods: " + src.listed.error)) && copied == None)
                    && (src.listed.Ok? && src.detailed(src.listed.value).Err? ==>
                          r == Err(Message("Failed to update mod details: " + src.detailed(src.listed.value).error)) && copied == None)
                    && (src.listed.Ok? && src.detailed(src.listed.value).Ok? ==>
                          copied == Some(ExportText(version, src.detailed(src.listed.value).value)) && (r.Ok? <==> clipboardOk)))
    ensures r.Err? && copied.Some? ==> r.error == Message("Failed to copy to clipboard")
  {
    event := None;
    var mods: seq<ScannedMod>;
    if src.mods.Some? {
      mods := src.mods.value;
    } else if src.modsPath.Some? {
      var path := ValidateModsPath(fs.tree, src.modsPath.value);
      if path.Err? {
        return Err(Message(path.error)), None, None;
      }
      var access;
      access, event := CheckDirectoryAccessWithWarning(fs, path.value, src.pathText, perms);
      if access.Err? {
        return Err(Denied(access.error)), None, event;
      }
      if src.listed.Err? {
        return Err(Message("Failed to list installed mods: " + src.listed.error)), None, event;
      }
      var detailed := src.detailed(src.listed.value);
      if detailed.Err? {
        return Err(Message("Failed to update mod details: " + detailed.error)), None, event;
      }
      mods := detailed.value;
    } else {
      return Err(Message(NoExportSource)), None, None;
    }
    var text := FormatExport(version, mods);
    copied := Some(text);
    if !clipboardOk {
      return Err(Message("Failed to copy to clipboard")), copied, event;
    }
    r := Ok(());
  }
}
