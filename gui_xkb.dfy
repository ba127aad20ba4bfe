/** keymapper/gui/xkb.py: finding the display server's id of the mapping
    device and assembling the setxkbmap call that applies a symbols file to
    it. The outputs of `xinput list --name-only` and `--id-only` are
    parameters (none when the call fails); starting setxkbmap is returned as
    its argument vector. */
module GuiXkb {
  import opened Wrappers
  import opened Text

  const SYMBOLS_DIR := "/usr/share/X11/xkb/symbols/"

  /** Python's `zip(names, ids)`: as long as the shorter list, pairing equal
      positions. */
  function Zip(names: seq<string>, ids: seq<string>): (pairs: seq<(string, string)>)
    ensures |pairs| == if |names| <= |ids| then |names| else |ids|
    ensures forall i :: 0 <= i < |pairs| ==> pairs[i] == (names[i], ids[i])
  {
    var n := if |names| <= |ids| then |names| else |ids|;
    seq(n, i requires 0 <= i < n => (names[i], ids[i]))
  }

  /** The id of the first pair whose name is `target`, none if no name is. */
  function FirstMatchingId(pairs: seq<(string, string)>, target: string): (r: Option<string>)
    ensures r.None? <==> forall i :: 0 <= i < |pairs| ==> pairs[i].0 != target
    ensures r.Some? ==> exists i :: && 0 <= i < |pairs| && pairs[i] == (target, r.value)
                                     && forall j :: 0 <= j < i ==> pairs[j].0 != target
    decreases |pairs|
  {
    if |pairs| == 0 then None
    else if pairs[0].0 == target then Some(pairs[0].1)
    else
      var r := FirstMatchingId(pairs[1..], target);
      assert forall i :: 1 <= i < |pairs| ==> pairs[i] == pairs[1..][i - 1];
      r
  }

  /** The device id for `mappedName` from the two `xinput` outputs, each split
      at newlines: none when either query failed. An id found is one of the
      listed ids, and the mapped name is one of the listed names. */
  function DeviceId(namesOutput: Option<string>, idsOutput: Option<string>, mappedName: string): (r: Option<string>)
    ensures r.Some? ==> && namesOutput.Some? && idsOutput.Some?
                        && mappedName in SplitOn(namesOutput.value, '\n')
                        && r.value in SplitOn(idsOutput.value, '\n')
  {
    if namesOutput.None? || idsOutput.None? then None
    else
      var names := SplitOn(namesOutput.value, '\n');
      var ids := SplitOn(idsOutput.value, '\n');
      ZipMatchMeaning(names, ids, mappedName);
      FirstMatchingId(Zip(names, ids), mappedName)
  }

  /** `get_device_id(device)`, with `mappedName` standing for
      `get_mapping_device_name(device)`: none if either `xinput` call failed
      or no listed name (paired with an id) is `mappedName`; otherwise the
      id listed at the first position holding that name. */
  method GetDeviceId(namesOutput: Option<string>, idsOutput: Option<string>, mappedName: string)
    returns (deviceId: Option<string>)
    ensures deviceId == DeviceId(namesOutput, idsOutput, mappedName)
  {
    if namesOutput.None? || idsOutput.None? {
      return None;
    }
    var names := SplitOn(namesOutput.value, '\n');
    var ids := SplitOn(idsOutput.value, '\n');
    var pairs := Zip(names, ids);
    var i := 0;
    while i < |pairs|
      invariant 0 <= i <= |pairs|
      invariant FirstMatchingId(pairs[i..], mappedName) == FirstMatchingId(pairs, mappedName)
    {
      var (name, id) := pairs[i];
      if name == mappedName {
        return Some(id);
      }
      assert pairs[i..][1..] == pairs[i + 1..];
      i := i + 1;
    }
    return None;
  }

  /** Over zipped lists, the id found is the one at the first position whose
      name is `target` and which has an id; there is none exactly when no such
      position exists. */
  lemma ZipMatchMeaning(names: seq<string>, ids: seq<string>, target: string)
    ensures var r := FirstMatchingId(Zip(names, ids), target);
            && (r.None? <==> forall i :: 0 <= i < |names| && i < |ids| ==> names[i] != target)
            && (r.Some? ==> exists i :: && 0 <= i < |names| && i < |ids|
                                       && names[i] == target && ids[i] == r.value
                                       && forall j :: 0 <= j < i ==> names[j] != target)
  {
    var pairs := Zip(names, ids);
    var r := FirstMatchingId(pairs, target);
    if r.Some? {
      var i :| && 0 <= i < |pairs| && pairs[i] == (target, r.value)
               && forall j :: 0 <= j < i ==> pairs[j].0 != target;
      assert names[i] == target && ids[i] == r.value;
    } else {
      forall i | 0 <= i < |names| && i < |ids| ensures names[i] != target {
        assert pairs[i] == (names[i], ids[i]);
      }
    }
  }

  /** When both queries succeed, the id found is the one listed at the first
      position whose name is the mapped name and which has an id; there is
      none exactly when no such position exists. */
  lemma DeviceIdMeaning(namesText: string, idsText: string, mappedName: string)
    ensures var names := SplitOn(namesText, '\n');
            var ids := SplitOn(idsText, '\n');
            var r := DeviceId(Some(namesText), Some(idsText), mappedName);
            && (r.None? <==> forall i :: 0 <= i < |names| && i < |ids| ==> names[i] != mappedName)
            && (r.Some? ==> exists i :: && 0 <= i < |names| && i < |ids|
                                       && names[i] == mappedName && ids[i] == r.value
                                       && forall j :: 0 <= j < i ==> names[j] != mappedName)
  {
    ZipMatchMeaning(SplitOn(namesText, '\n'), SplitOn(idsText, '\n'), mappedName);
  }

  /** Names listed beyond the last id never match: `zip` drops them. */
  lemma {:induction false} UnpairedNamesIgnored(names: seq<string>, extra: seq<string>, ids: seq<string>, target: string)
    requires |ids| <= |names|
    ensures FirstMatchingId(Zip(names + extra, ids), target) == FirstMatchingId(Zip(names, ids), target)
  {
    assert Zip(names + extra, ids) == Zip(names, ids);
  }

  /** What `apply_xkb_config(device)` ends in. */
  datatype ApplyOutcome =
    | Disabled                       // the configuration does not ask for xkb configs
    | MissingSymbolsFile(path: string)
    | DeviceNotFound
    | Launched(argv: seq<string>)    // `subprocess.Popen(argv)`

  /** `/usr/share/X11/xkb/symbols/{name}` */
  function SymbolsPath(name: string): (path: string)
    ensures |path| == |SYMBOLS_DIR| + |name|
    ensures path[..|SYMBOLS_DIR|] == SYMBOLS_DIR && path[|SYMBOLS_DIR|..] == name
  {
    SYMBOLS_DIR + name
  }

  /** `apply_xkb_config(device)`: `enabled` is the configuration's
      `generate_xkb_config` flag, `symbolsName` stands for
      `get_xkb_symbols_name(device)` and `existingFiles` for the paths that
      exist. Nothing happens when disabled or when the symbols file is
      missing; otherwise setxkbmap is started for the symbols and the device
      id, once an id is found. */
  method ApplyXkbConfig(enabled: bool, symbolsName: string, existingFiles: set<string>,
                        namesOutput: Option<string>, idsOutput: Option<string>, mappedName: string)
    returns (outcome: ApplyOutcome)
    ensures !enabled ==> outcome == Disabled
    ensures enabled && SymbolsPath(symbolsName) !in existingFiles ==>
              outcome == MissingSymbolsFile(SymbolsPath(symbolsName))
    ensures enabled && SymbolsPath(symbolsName) in existingFiles ==>
              match DeviceId(namesOutput, idsOutput, mappedName)
              case None => outcome == DeviceNotFound
              case Some(id) => outcome == Launched(["setxkbmap", "-keycodes", "key-mapper-keycodes",
                                                    "-symbols", symbolsName, "-device", id])
  {
    if !enabled {
      return Disabled;
    }
    var path := SymbolsPath(symbolsName);
    if path !in existingFiles {
      return MissingSymbolsFile(path);
    }
    var deviceId := GetDeviceId(namesOutput, idsOutput, mappedName);
    if deviceId.None? {
      return DeviceNotFound;
    }
    var cmd := ["setxkbmap", "-keycodes", "key-mapper-keycodes", "-symbols", symbolsName, "-device", deviceId.value];
    return Launched(cmd);
  }
}
