/** keymapper/state.py: the host-layout registry. `xmodmap -pke` output is
    parsed into a name -> keycode dict, and `SystemMapping` keeps that dict
    together with the evdev key and button names, the keycodes the host
    layout occupies, and the keycodes it has handed out to characters the
    host layout does not know.

    The allocator is modelled as the source writes it: a fresh code is NOT
    added to the occupied set, so two unknown characters can be given the
    same code (see `AllocationsCollide`, and `AllocateReserving` for the
    corrected allocator). */
module State {
  import opened Wrappers
  import opened Text
  import opened OrderedDict

  /** X keycodes are evdev keycodes plus 8. */
  const XKB_KEYCODE_OFFSET := 8

  /** The sentinel that means "inject nothing" (defined in keymapper/mapping.py). */
  const DISABLE_NAME := "disable"
  const DISABLE_CODE := -1

  /** The allocator scans `range(1, 256)`. */
  const MIN_FREE_CODE := 1
  const MAX_FREE_CODE := 255

  // ---------------------------------------------------------------------
  // xmodmap_to_dict
  // ---------------------------------------------------------------------

  /** One match of `(\d+) = (.+)\n` in the `xmodmap -pke` text: the keycode
      digits and the symbol list after ` = `. */
  datatype XmodmapLine = XmodmapLine(digits: string, symbols: string)

  /** What the regex captures and what `names.split()[0]` can handle: a digit
      run, and a symbol list that is not all whitespace (for one that is,
      Python raises IndexError, which nothing catches). */
  predicate WellFormedLine(l: XmodmapLine)
  {
    IsDigits(l.digits) && HasToken(l.symbols)
  }

  predicate WellFormedLines(lines: seq<XmodmapLine>)
  {
    forall i :: 0 <= i < |lines| ==> WellFormedLine(lines[i])
  }

  /** The first symbol of the line, lower-cased (the whole text is lower-cased
      before matching). */
  function LineName(l: XmodmapLine): string
  {
    FirstToken(Lower(l.symbols))
  }

  /** The line's keycode in evdev numbering. */
  function LineCode(l: XmodmapLine): int
    requires WellFormedLine(l)
  {
    DecimalValue(l.digits) - XKB_KEYCODE_OFFSET
  }

  /** The assignment one line performs: none for a `nosymbol` line. */
  function HostWrite(l: XmodmapLine): Write
    requires WellFormedLine(l)
  {
    if LineName(l) == "nosymbol" then None else Some((LineName(l), LineCode(l)))
  }

  function HostWrites(lines: seq<XmodmapLine>): seq<Write>
    requires WellFormedLines(lines)
  {
    seq(|lines|, i requires 0 <= i < |lines| => HostWrite(lines[i]))
  }

  lemma HostWritesPrefix(lines: seq<XmodmapLine>, i: nat)
    requires WellFormedLines(lines) && i < |lines|
    ensures HostWrites(lines[..i + 1]) == HostWrites(lines[..i]) + [HostWrite(lines[i])]
  {
    var a := HostWrites(lines[..i + 1]);
    var b := HostWrites(lines[..i]) + [HostWrite(lines[i])];
    forall j | 0 <= j < |a| ensures a[j] == b[j] {
      assert lines[..i + 1][j] == lines[j];
      if j < i {
        assert lines[..i][j] == lines[j];
      }
    }
  }

  /** The dict `xmodmap_to_dict` builds from its matches. */
  function XmodmapDict(lines: seq<XmodmapLine>): (d: Dict)
    requires WellFormedLines(lines)
    ensures d.Valid()
  {
    Assign(Empty(), HostWrites(lines))
  }

  /** `xmodmap_to_dict`: one assignment per match, in order. */
  method XmodmapToDict(lines: seq<XmodmapLine>) returns (d: Dict)
    requires WellFormedLines(lines)
    ensures d == XmodmapDict(lines)
  {
    d := Empty();
    for i := 0 to |lines|
      invariant d == Assign(Empty(), HostWrites(lines[..i]))
    {
      var l := lines[i];
      var name := LineName(l);
      HostWritesPrefix(lines, i);
      AssignSnoc(Empty(), HostWrites(lines[..i]), HostWrite(l));
      if name != "nosymbol" {
        d := d.Put(name, LineCode(l));
      }
    }
    assert lines[..|lines|] == lines;
  }

  /** Every entry of the parsed dict is the first symbol of some line, never
      `nosymbol`, and maps to the keycode minus 8 of the LAST line naming it;
      every named line has an entry. */
  lemma XmodmapDictEntries(lines: seq<XmodmapLine>)
    requires WellFormedLines(lines)
    ensures forall k :: k in XmodmapDict(lines).values <==>
              k != "nosymbol" && exists i :: 0 <= i < |lines| && LineName(lines[i]) == k
    ensures forall i ::
              (&& 0 <= i < |lines| && LineName(lines[i]) != "nosymbol"
               && forall j :: i < j < |lines| ==> LineName(lines[j]) != LineName(lines[i])) ==>
              XmodmapDict(lines).values[LineName(lines[i])] == LineCode(lines[i])
  {
    var ws := HostWrites(lines);
    forall k
      ensures k in XmodmapDict(lines).values <==>
                k != "nosymbol" && exists i :: 0 <= i < |lines| && LineName(lines[i]) == k
      ensures forall i ::
                (&& 0 <= i < |lines| && LineName(lines[i]) == k && k != "nosymbol"
                 && forall j :: i < j < |lines| ==> LineName(lines[j]) != k) ==>
                XmodmapDict(lines).values[k] == LineCode(lines[i])
    {
      assert forall i :: 0 <= i < |lines| ==>
        (Writes(ws[i], k) <==> LineName(lines[i]) == k && k != "nosymbol");
      AssignLookup(Empty(), ws, k);
    }
  }

  /** The names of the parsed dict are lower-case, non-empty and hold no
      whitespace. */
  lemma XmodmapNamesAreLowerCase(lines: seq<XmodmapLine>)
    requires WellFormedLines(lines)
    ensures forall k :: k in XmodmapDict(lines).values ==>
              IsLowerCase(k) && |k| > 0 && forall t :: 0 <= t < |k| ==> !IsSpace(k[t])
  {
    XmodmapDictEntries(lines);
    forall i | 0 <= i < |lines|
      ensures IsLowerCase(LineName(lines[i])) && |LineName(lines[i])| > 0
    {
      var s := lines[i].symbols;
      LowerIsLowerCase(s);
      FirstTokenOfLowerCase(Lower(s));
      var t :| 0 <= t < |s| && !IsSpace(s[t]);
      assert Lower(s)[t] == LowerChar(s[t]);
      assert !IsSpace(Lower(s)[t]);
    }
  }

  // ---------------------------------------------------------------------
  // The allocator, as a function of the registry's state
  // ---------------------------------------------------------------------

  /** The state of a `SystemMapping`: `_mapping`, `_allocated_unknowns` and
      `_occupied_keycodes`. */
  datatype Registry = Registry(mapping: Dict, allocations: Dict, occupied: set<int>) {
    /** Allocated codes always lie in range(1, 256). */
    ghost predicate Valid()
    {
      && mapping.Valid()
      && allocations.Valid()
      && forall k :: k in allocations.values ==> MIN_FREE_CODE <= allocations.values[k] <= MAX_FREE_CODE
    }
  }

  /** The first code in `lo..255` that is not occupied. */
  function FreeFrom(occupied: set<int>, lo: int): (r: Option<int>)
    requires MIN_FREE_CODE <= lo <= MAX_FREE_CODE + 1
    ensures r.Some? ==> lo <= r.value <= MAX_FREE_CODE && r.value !in occupied
    ensures r.Some? ==> forall c :: lo <= c < r.value ==> c in occupied
    ensures r.None? ==> forall c :: lo <= c <= MAX_FREE_CODE ==> c in occupied
    decreases MAX_FREE_CODE + 1 - lo
  {
    if lo > MAX_FREE_CODE then None
    else if lo !in occupied then Some(lo)
    else FreeFrom(occupied, lo + 1)
  }

  /** The smallest code of range(1, 256) outside `occupied`; none when all 255
      are occupied. */
  function SmallestFree(occupied: set<int>): (r: Option<int>)
    ensures r.Some? ==> MIN_FREE_CODE <= r.value <= MAX_FREE_CODE && r.value !in occupied
    ensures r.Some? ==> forall c :: MIN_FREE_CODE <= c < r.value ==> c in occupied
    ensures r.None? <==> forall c :: MIN_FREE_CODE <= c <= MAX_FREE_CODE ==> c in occupied
  {
    FreeFrom(occupied, MIN_FREE_CODE)
  }

  /** The first unoccupied code of the scan is the smallest free one. */
  lemma SmallestFreeIs(occupied: set<int>, code: int)
    requires MIN_FREE_CODE <= code <= MAX_FREE_CODE && code !in occupied
    requires forall x :: MIN_FREE_CODE <= x < code ==> x in occupied
    ensures SmallestFree(occupied) == Some(code)
  {
    var r := SmallestFree(occupied);
    assert r.Some? ==> !(r.value < code) && !(code < r.value);
  }

  /** The registry answers `c` with `code`: from `_mapping` when `c` is a
      name there (a host name, a lower-cased KEY / BTN name or `disable`),
      otherwise from the allocations. */
  ghost predicate Known(r: Registry, c: string, code: int)
  {
    if c in r.mapping.values then r.mapping.values[c] == code
    else c in r.allocations.values && r.allocations.values[c] == code
  }

  /** `get_or_allocate(character)` as written: the new state and the result.
      It never changes `_mapping` or `_occupied_keycodes`, changes nothing when
      it fails, and afterwards the character is known with the code returned. */
  function Allocate(r: Registry, character: string): (res: (Registry, Option<int>))
    requires r.Valid()
    ensures res.0.Valid()
    ensures res.0.mapping == r.mapping && res.0.occupied == r.occupied
    ensures res.1.None? ==> res.0 == r
    ensures res.1.Some? ==> Known(res.0, Lower(character), res.1.value)
  {
    var c := Lower(character);
    if c in r.mapping.values then (r, Some(r.mapping.values[c]))
    else if c in r.allocations.values then (r, Some(r.allocations.values[c]))
    else match SmallestFree(r.occupied)
      case None => (r, None)
      case Some(code) => (r.(allocations := r.allocations.Put(c, code)), Some(code))
  }

  /** The four outcomes of `get_or_allocate`: the code of a name in
      `_mapping` is returned and nothing changes; a remembered allocation is returned and nothing
      changes; otherwise the smallest unoccupied code in 1..255 is recorded
      for the character and returned, leaving `_mapping` and
      `_occupied_keycodes` as they were; or, when all 255 are occupied, none
      is returned and nothing changes. */
  lemma AllocateOutcomes(r: Registry, character: string)
    requires r.Valid()
    ensures var c := Lower(character);
            var (after, code) := Allocate(r, character);
            && (c in r.mapping.values ==> after == r && code == Some(r.mapping.values[c]))
            && (c !in r.mapping.values && c in r.allocations.values ==>
                  after == r && code == Some(r.allocations.values[c]))
            && (c !in r.mapping.values && c !in r.allocations.values && code.Some? ==>
                  && MIN_FREE_CODE <= code.value <= MAX_FREE_CODE
                  && code.value !in r.occupied
                  && (forall x :: MIN_FREE_CODE <= x < code.value ==> x in r.occupied)
                  && after.allocations.values == r.allocations.values[c := code.value]
                  && after.allocations.keys == r.allocations.keys + [c]
                  && after.mapping == r.mapping && after.occupied == r.occupied)
            && (c !in r.mapping.values && c !in r.allocations.values && code.None? <==>
                  c !in r.mapping.values && c !in r.allocations.values &&
                  forall x :: MIN_FREE_CODE <= x <= MAX_FREE_CODE ==> x in r.occupied)
            && (code.None? ==> after == r)
  {
  }

  /** Asking again for the same character returns the same code and changes
      nothing more. */
  lemma AllocateIdempotent(r: Registry, character: string)
    requires r.Valid()
    ensures var (after, code) := Allocate(r, character);
            Allocate(after, character) == (after, code)
  {
  }

  /** The character is lower-cased first, so its case never matters. */
  lemma AllocateIgnoresCase(r: Registry, character: string)
    requires r.Valid()
    ensures Allocate(r, character) == Allocate(r, Lower(character))
  {
    LowerIdempotent(character);
  }

  /** AS WRITTEN: two different characters, neither of them a name in
      `_mapping` (a host name, a lower-cased KEY / BTN name or `disable`) nor
      allocated, asked for one after the other while a code is free, receive
      the SAME code, because the first allocation does not occupy its code. */
  lemma AllocationsCollide(r: Registry, a: string, b: string)
    requires r.Valid()
    requires Lower(a) != Lower(b)
    requires Lower(a) !in r.mapping.values && Lower(a) !in r.allocations.values
    requires Lower(b) !in r.mapping.values && Lower(b) !in r.allocations.values
    requires SmallestFree(r.occupied).Some?
    ensures var (afterA, codeA) := Allocate(r, a);
            var (_, codeB) := Allocate(afterA, b);
            codeA.Some? && codeB == codeA
  {
    var (afterA, codeA) := Allocate(r, a);
    assert Lower(b) !in afterA.allocations.values;
  }

  /** No two characters share an allocated code. */
  ghost predicate DistinctCodes(d: Dict)
  {
    forall k1, k2 :: k1 in d.values && k2 in d.values && k1 != k2 ==> d.values[k1] != d.values[k2]
  }

  /** Every allocated code is occupied. */
  ghost predicate Reserved(r: Registry)
  {
    forall k :: k in r.allocations.values ==> r.allocations.values[k] in r.occupied
  }

  /** The allocator as intended: like `Allocate`, but a fresh code is also
      added to the occupied set, and no other code is. */
  function AllocateReserving(r: Registry, character: string): (res: (Registry, Option<int>))
    requires r.Valid()
    ensures res.0.Valid()
    ensures res.0.mapping == r.mapping && r.occupied <= res.0.occupied
    ensures res.1.None? ==> res.0 == r
    ensures res.1.Some? ==> Known(res.0, Lower(character), res.1.value)
    ensures res.1.Some? ==> res.0.occupied <= r.occupied + {res.1.value}
    ensures Lower(character) !in r.mapping.values && Lower(character) !in r.allocations.values && res.1.Some? ==>
              res.1.value in res.0.occupied
  {
    var c := Lower(character);
    if c in r.mapping.values then (r, Some(r.mapping.values[c]))
    else if c in r.allocations.values then (r, Some(r.allocations.values[c]))
    else match SmallestFree(r.occupied)
      case None => (r, None)
      case Some(code) =>
        (r.(allocations := r.allocations.Put(c, code), occupied := r.occupied + {code}), Some(code))
  }

  /** With the corrected allocator, allocated codes stay pairwise distinct and
      reserved, so distinct unknown characters always get distinct codes. */
  lemma ReservingKeepsCodesDistinct(r: Registry, character: string)
    requires r.Valid() && Reserved(r) && DistinctCodes(r.allocations)
    ensures var (after, _) := AllocateReserving(r, character);
            Reserved(after) && DistinctCodes(after.allocations)
  {
    var c := Lower(character);
    var (after, code) := AllocateReserving(r, character);
    if c !in r.mapping.values && c !in r.allocations.values && code.Some? {
      assert after.allocations.values == r.allocations.values[c := code.value];
      forall k | k in r.allocations.values
        ensures r.allocations.values[k] != code.value
      {
        assert r.allocations.values[k] in r.occupied;
      }
    }
  }

  /** The corrected allocator also answers repeated requests identically. */
  lemma ReservingIdempotent(r: Registry, character: string)
    requires r.Valid()
    ensures var (after, code) := AllocateReserving(r, character);
            AllocateReserving(after, character) == (after, code)
  {
  }

  // ---------------------------------------------------------------------
  // populate
  // ---------------------------------------------------------------------

  /** The evdev names `populate` takes over: those starting KEY or BTN. */
  predicate IsKeyOrButton(name: string)
  {
    StartsWith(name, "KEY") || StartsWith(name, "BTN")
  }

  function EvdevWrite(e: (string, int)): Write
  {
    if IsKeyOrButton(e.0) then Some((Lower(e.0), e.1)) else None
  }

  function EvdevWrites(ecodes: seq<(string, int)>): seq<Write>
  {
    seq(|ecodes|, i requires 0 <= i < |ecodes| => EvdevWrite(ecodes[i]))
  }

  lemma EvdevWritesPrefix(ecodes: seq<(string, int)>, i: nat)
    requires i < |ecodes|
    ensures EvdevWrites(ecodes[..i + 1]) == EvdevWrites(ecodes[..i]) + [EvdevWrite(ecodes[i])]
  {
    var a := EvdevWrites(ecodes[..i + 1]);
    var b := EvdevWrites(ecodes[..i]) + [EvdevWrite(ecodes[i])];
    forall j | 0 <= j < |a| ensures a[j] == b[j] {
      assert ecodes[..i + 1][j] == ecodes[j];
      if j < i {
        assert ecodes[..i][j] == ecodes[j];
      }
    }
  }

  /** The host query's output is either missing (the query failed) or a list
      of well-formed matches. */
  predicate WellFormedQuery(hostQuery: Option<seq<XmodmapLine>>)
  {
    hostQuery.Some? ==> WellFormedLines(hostQuery.value)
  }

  /** The host part: empty when the query failed. */
  function HostDict(hostQuery: Option<seq<XmodmapLine>>): (d: Dict)
    requires WellFormedQuery(hostQuery)
    ensures d.Valid()
  {
    if hostQuery.Some? then XmodmapDict(hostQuery.value) else Empty()
  }

  /** The codes `populate` adds to `_occupied_keycodes`: those of the parsed
      host dict, one per name. The keycode of a `nosymbol` line, or of a line
      whose name a later line repeats, is not among them. */
  function HostCodes(hostQuery: Option<seq<XmodmapLine>>): set<int>
    requires WellFormedQuery(hostQuery)
  {
    HostDict(hostQuery).values.Values
  }

  /** `_mapping` after `populate`: cleared, updated with the host dict, then
      every KEY / BTN name lower-cased, then the disable sentinel. */
  function PopulatedMapping(hostQuery: Option<seq<XmodmapLine>>, ecodes: seq<(string, int)>): (d: Dict)
    requires WellFormedQuery(hostQuery)
    ensures d.Valid()
  {
    MappingBeforeDisable(hostQuery, ecodes).Put(Lower(DISABLE_NAME), DISABLE_CODE)
  }

  lemma DisableNameIsLowerCase()
    ensures Lower(DISABLE_NAME) == DISABLE_NAME
  {
    assert |Lower(DISABLE_NAME)| == |DISABLE_NAME| == 7;
    forall i | 0 <= i < 7
      ensures Lower(DISABLE_NAME)[i] == DISABLE_NAME[i]
    {
      assert Lower(DISABLE_NAME)[i] == LowerChar(DISABLE_NAME[i]);
    }
  }

  /** Entry `e` of the evdev table sets the name `k`. */
  predicate SetsName(e: (string, int), k: string)
  {
    IsKeyOrButton(e.0) && Lower(e.0) == k
  }

  /** `_mapping` after `populate`, before the disable sentinel is set. */
  function MappingBeforeDisable(hostQuery: Option<seq<XmodmapLine>>, ecodes: seq<(string, int)>): (d: Dict)
    requires WellFormedQuery(hostQuery)
    ensures d.Valid()
  {
    Assign(Merge(Empty(), HostDict(hostQuery)), EvdevWrites(ecodes))
  }

  lemma EvdevWritesName(ecodes: seq<(string, int)>, k: string)
    ensures forall i :: 0 <= i < |ecodes| ==> (Writes(EvdevWrites(ecodes)[i], k) <==> SetsName(ecodes[i], k))
  {
  }

  /** Setting the sentinel last touches no other name. */
  lemma PopulatedBelowDisable(hostQuery: Option<seq<XmodmapLine>>, ecodes: seq<(string, int)>, k: string)
    requires WellFormedQuery(hostQuery) && k != DISABLE_NAME
    ensures var m := PopulatedMapping(hostQuery, ecodes).values;
            var before := MappingBeforeDisable(hostQuery, ecodes).values;
            (k in m <==> k in before) && (k in before ==> m[k] == before[k])
  {
    DisableNameIsLowerCase();
  }

  /** After `populate` the host names keep the first positions of `_mapping`,
      in the host dict's order, ahead of every KEY / BTN name that is new. */
  lemma PopulatedHostOrder(hostQuery: Option<seq<XmodmapLine>>, ecodes: seq<(string, int)>)
    requires WellFormedQuery(hostQuery)
    ensures HostDict(hostQuery).keys <= PopulatedMapping(hostQuery, ecodes).keys
  {
    MergeIntoEmpty(HostDict(hostQuery));
    AssignKeepsOrder(Merge(Empty(), HostDict(hostQuery)), EvdevWrites(ecodes));
  }

  /** After `populate` the disable sentinel maps to its code. */
  lemma PopulatedDisable(hostQuery: Option<seq<XmodmapLine>>, ecodes: seq<(string, int)>)
    requires WellFormedQuery(hostQuery)
    ensures DISABLE_NAME in PopulatedMapping(hostQuery, ecodes).values
    ensures PopulatedMapping(hostQuery, ecodes).values[DISABLE_NAME] == DISABLE_CODE
  {
    DisableNameIsLowerCase();
  }

  /** After `populate` the names besides the sentinel are exactly the host
      names and the lower-cased KEY / BTN names; a failed query contributes
      no host names. */
  lemma PopulatedNames(hostQuery: Option<seq<XmodmapLine>>, ecodes: seq<(string, int)>, k: string)
    requires WellFormedQuery(hostQuery) && k != DISABLE_NAME
    ensures k in PopulatedMapping(hostQuery, ecodes).values <==>
              k in HostDict(hostQuery).values || exists i :: 0 <= i < |ecodes| && SetsName(ecodes[i], k)
    ensures hostQuery.None? ==> HostDict(hostQuery).values == map[]
  {
    PopulatedBelowDisable(hostQuery, ecodes, k);
    MergeValues(Empty(), HostDict(hostQuery));
    EvdevWritesName(ecodes, k);
    AssignMembership(Merge(Empty(), HostDict(hostQuery)), EvdevWrites(ecodes), k);
  }

  /** A KEY / BTN name takes the code of its last occurrence in the evdev
      table, overriding the host layout. */
  lemma PopulatedEvdevWins(hostQuery: Option<seq<XmodmapLine>>, ecodes: seq<(string, int)>, k: string, i: int)
    requires WellFormedQuery(hostQuery) && k != DISABLE_NAME
    requires 0 <= i < |ecodes| && SetsName(ecodes[i], k)
    requires forall j :: i < j < |ecodes| ==> !SetsName(ecodes[j], k)
    ensures k in PopulatedMapping(hostQuery, ecodes).values
    ensures PopulatedMapping(hostQuery, ecodes).values[k] == ecodes[i].1
  {
    PopulatedBelowDisable(hostQuery, ecodes, k);
    EvdevWritesName(ecodes, k);
    AssignLastWrite(Merge(Empty(), HostDict(hostQuery)), EvdevWrites(ecodes), k, i);
  }

  /** A host name that no KEY / BTN name overrides keeps its host code. */
  lemma PopulatedHostKept(hostQuery: Option<seq<XmodmapLine>>, ecodes: seq<(string, int)>, k: string)
    requires WellFormedQuery(hostQuery) && k != DISABLE_NAME
    requires k in HostDict(hostQuery).values
    requires forall i :: 0 <= i < |ecodes| ==> !SetsName(ecodes[i], k)
    ensures k in PopulatedMapping(hostQuery, ecodes).values
    ensures PopulatedMapping(hostQuery, ecodes).values[k] == HostDict(hostQuery).values[k]
  {
    PopulatedBelowDisable(hostQuery, ecodes, k);
    MergeValues(Empty(), HostDict(hostQuery));
    EvdevWritesName(ecodes, k);
    AssignUntouched(Merge(Empty(), HostDict(hostQuery)), EvdevWrites(ecodes), k);
  }

  // ---------------------------------------------------------------------
  // SystemMapping
  // ---------------------------------------------------------------------

  /** The registry object. The host-query output and the evdev name table are
      passed in; `hostQuery == None` stands for the query raising
      CalledProcessError or FileNotFoundError. */
  class SystemMapping {
    var mapping: Dict               // _mapping: name -> code
    var allocatedUnknowns: Dict     // _allocated_unknowns: name -> code
    var occupiedKeycodes: set<int>  // _occupied_keycodes

    function Snapshot(): Registry
      reads this
    {
      Registry(mapping, allocatedUnknowns, occupiedKeycodes)
    }

    ghost predicate Valid()
      reads this
    {
      Snapshot().Valid()
    }

    /** `SystemMapping()`: empty state, then `populate`. */
    constructor (hostQuery: Option<seq<XmodmapLine>>, ecodes: seq<(string, int)>)
      requires WellFormedQuery(hostQuery)
      ensures Valid()
      ensures mapping == PopulatedMapping(hostQuery, ecodes)
      ensures allocatedUnknowns == Empty()
      ensures occupiedKeycodes == HostCodes(hostQuery)
    {
      mapping := Empty();
      allocatedUnknowns := Empty();
      occupiedKeycodes := {};
      new;
      Populate(hostQuery, ecodes);
    }

    /** `populate`: rebuilds `_mapping`, adds the parsed host dict's codes (one
        per name) to the occupied set (which is never emptied) and keeps the
        allocations. */
    method Populate(hostQuery: Option<seq<XmodmapLine>>, ecodes: seq<(string, int)>)
      requires Valid() && WellFormedQuery(hostQuery)
      modifies this`mapping, this`occupiedKeycodes
      ensures Valid()
      ensures mapping == PopulatedMapping(hostQuery, ecodes)
      ensures occupiedKeycodes == old(occupiedKeycodes) + HostCodes(hostQuery)
      ensures allocatedUnknowns == old(allocatedUnknowns)
    {
      Clear();
      var host := Empty();
      if hostQuery.Some? {
        host := XmodmapToDict(hostQuery.value);
        Occupy(host);
      }
      assert host == HostDict(hostQuery);
      Update(host);
      SetKeysAndButtons(ecodes);
      Set(DISABLE_NAME, DISABLE_CODE);
    }

    /** The loop of `populate` that adds every code of the parsed host dict
        to `_occupied_keycodes`. */
    method Occupy(host: Dict)
      requires Valid() && host.Valid()
      modifies this`occupiedKeycodes
      ensures Valid()
      ensures occupiedKeycodes == old(occupiedKeycodes) + host.values.Values
      ensures mapping == old(mapping) && allocatedUnknowns == old(allocatedUnknowns)
    {
      var j := 0;
      while j < |host.keys|
        invariant 0 <= j <= |host.keys|
        invariant forall x :: x in occupiedKeycodes <==>
                    x in old(occupiedKeycodes) || exists t :: 0 <= t < j && host.values[host.keys[t]] == x
      {
        occupiedKeycodes := occupiedKeycodes + {host.values[host.keys[j]]};
        j := j + 1;
      }
      assert j == |host.keys|;
      forall x
        ensures x in occupiedKeycodes <==> x in old(occupiedKeycodes) + host.values.Values
      {
        if x in host.values.Values {
          var k :| k in host.values && host.values[k] == x;
          var t := IndexOf(host.keys, k);
          assert host.values[host.keys[t]] == x;
        }
        if x in occupiedKeycodes && x !in old(occupiedKeycodes) {
          var t :| 0 <= t < |host.keys| && host.values[host.keys[t]] == x;
          assert host.keys[t] in host.values;
        }
      }
    }

    /** The loop of `populate` that sets every KEY / BTN name of the evdev
        table. */
    method SetKeysAndButtons(ecodes: seq<(string, int)>)
      requires Valid()
      modifies this`mapping
      ensures Valid()
      ensures mapping == Assign(old(mapping), EvdevWrites(ecodes))
      ensures occupiedKeycodes == old(occupiedKeycodes) && allocatedUnknowns == old(allocatedUnknowns)
    {
      for i := 0 to |ecodes|
        invariant Valid()
        invariant mapping == Assign(old(mapping), EvdevWrites(ecodes[..i]))
      {
        EvdevWritesPrefix(ecodes, i);
        AssignSnoc(old(mapping), EvdevWrites(ecodes[..i]), EvdevWrite(ecodes[i]));
        var (name, code) := ecodes[i];
        if IsKeyOrButton(name) {
          Set(name, code);
        }
      }
      assert ecodes[..|ecodes|] == ecodes;
    }

    /** `update(mapping)`: a plain dict update, names taken as given. */
    method Update(m: Dict)
      requires Valid() && m.Valid()
      modifies this`mapping
      ensures Valid()
      ensures mapping == Merge(old(mapping), m)
      ensures mapping.values == old(mapping).values + m.values
      ensures allocatedUnknowns == old(allocatedUnknowns) && occupiedKeycodes == old(occupiedKeycodes)
    {
      MergeValues(mapping, m);
      mapping := Merge(mapping, m);
    }

    /** `_set(name, code)`: the name is lower-cased first. */
    method Set(name: string, code: int)
      requires Valid()
      modifies this`mapping
      ensures Valid()
      ensures mapping == old(mapping).Put(Lower(name), code)
      ensures Get(name) == Some(code)
      ensures allocatedUnknowns == old(allocatedUnknowns) && occupiedKeycodes == old(occupiedKeycodes)
    {
      mapping := mapping.Put(Lower(name), code);
    }

    /** `get(name)`: a lookup of the lower-cased name, none when `_mapping`
        does not hold it. */
    function Get(name: string): (r: Option<int>)
      reads this
      ensures r.Some? <==> Lower(name) in mapping.values
      ensures r.Some? ==> r.value == mapping.values[Lower(name)]
    {
      mapping.Get(Lower(name))
    }

    /** `get_key(code)`: the first name in insertion order that maps to
        `code`, or none. */
    method GetKey(code: int) returns (name: Option<string>)
      requires Valid()
      ensures name.None? <==> forall i :: 0 <= i < |mapping.keys| ==> mapping.values[mapping.keys[i]] != code
      ensures name.Some? ==> exists i :: 0 <= i < |mapping.keys| && mapping.keys[i] == name.value &&
                               mapping.values[name.value] == code &&
                               forall j :: 0 <= j < i ==> mapping.values[mapping.keys[j]] != code
    {
      var i := 0;
      while i < |mapping.keys|
        invariant 0 <= i <= |mapping.keys|
        invariant forall j :: 0 <= j < i ==> mapping.values[mapping.keys[j]] != code
      {
        if mapping.values[mapping.keys[i]] == code {
          return Some(mapping.keys[i]);
        }
        i := i + 1;
      }
      return None;
    }

    /** `get_or_allocate(character)`, as written. */
    method GetOrAllocate(character: string) returns (code: Option<int>)
      requires Valid()
      modifies this`allocatedUnknowns
      ensures Valid()
      ensures (Snapshot(), code) == Allocate(old(Snapshot()), character)
    {
      var c := Lower(character);
      if c in mapping.values {
        return Some(mapping.values[c]);
      }
      var i := 0;
      while i < |allocatedUnknowns.keys|
        invariant 0 <= i <= |allocatedUnknowns.keys|
        invariant forall j :: 0 <= j < i ==> allocatedUnknowns.keys[j] != c
      {
        if allocatedUnknowns.keys[i] == c {
          return Some(allocatedUnknowns.values[c]);
        }
        i := i + 1;
      }
      var candidate := MIN_FREE_CODE;
      while candidate <= MAX_FREE_CODE
        invariant MIN_FREE_CODE <= candidate <= MAX_FREE_CODE + 1
        invariant forall x :: MIN_FREE_CODE <= x < candidate ==> x in occupiedKeycodes
      {
        if candidate !in occupiedKeycodes {
          SmallestFreeIs(occupiedKeycodes, candidate);
          allocatedUnknowns := allocatedUnknowns.Put(c, candidate);
          return Some(candidate);
        }
        candidate := candidate + 1;
      }
      return None;
    }

    /** `clear()`: deletes every name of `_mapping`, one at a time, from a
        copy of its key list; the allocations and the occupied codes stay. */
    method Clear()
      requires Valid()
      modifies this`mapping
      ensures Valid()
      ensures mapping == Empty()
      ensures allocatedUnknowns == old(allocatedUnknowns) && occupiedKeycodes == old(occupiedKeycodes)
    {
      var keys := mapping.keys;
      for i := 0 to |keys|
        invariant mapping.Valid() && mapping.keys == keys[i..]
      {
        var key := keys[i];
        ClearStep(mapping, keys, i);
        mapping := mapping.Remove(key);
      }
      assert mapping.values == map[];
    }

    /** `get_unknown_mappings()`: the allocations, name -> code, every code in
        range(1, 256). */
    function GetUnknownMappings(): (d: Dict)
      reads this
      requires Valid()
      ensures d.Valid()
      ensures forall k :: k in d.values ==> MIN_FREE_CODE <= d.values[k] <= MAX_FREE_CODE
    {
      allocatedUnknowns
    }
  }

  /** One step of `clear`: the next key of the copied list is the first key
      left, and deleting it leaves the rest of the list. */
  lemma ClearStep(d: Dict, keys: seq<string>, i: nat)
    requires d.Valid() && i < |keys| && d.keys == keys[i..]
    ensures keys[i] in d.values
    ensures d.Remove(keys[i]).keys == keys[i + 1..]
  {
    assert d.keys[0] == keys[i] && keys[i..][1..] == keys[i + 1..];
  }

  /** `get(n)` and `get(lower(n))` always agree. */
  lemma GetIgnoresCase(sm: SystemMapping, name: string)
    ensures sm.Get(name) == sm.Get(Lower(name))
  {
    LowerIdempotent(name);
  }
}
