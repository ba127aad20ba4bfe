# key-mapper keycode machinery, modelled in Dafny

key-mapper maps the keys of one input device to other keys, macros or
characters. To inject a character the host keyboard layout does not know, it
needs three things:

- **The host-layout registry** (`keymapper/state.py`). `xmodmap_to_dict`
  parses the output of `xmodmap -pke` into a dict from name to evdev keycode.
  `SystemMapping` keeps that dict together with the evdev `KEY*`/`BTN*` names,
  the keycodes it treats as occupied (those of the parsed host dict, one per
  name), and the keycodes it has handed out to unknown characters. `get_or_allocate` is the allocator.
- **The xkb symbols file** (`keymapper/injection/xkb.py`). It gets one
  `key <N> { [ name ] };` line per allocated character and is written under a
  random Base16 file name in `/tmp/key-mapper`.
- **The setxkbmap call** (`keymapper/gui/xkb.py`). It finds the mapping
  device's id in the `xinput` listing and builds the `setxkbmap` command that
  applies the symbols to that one device.

The model has one module per part: `State` (`state.dfy`), `InjectionXkb`
(`injection_xkb.dfy`) and `GuiXkb` (`gui_xkb.dfy`). Supporting modules:

- `Text` (`text.dfy`): the Python string builtins the code uses.
- `OrderedDict` (`ordered_dict.dfy`): an insertion-ordered dict, as Python's is.
  `get_key` and the symbols file depend on that order.
- `Base16` (`base16.dfy`): section 8 of RFC 4648.
- `Wrappers` (`wrappers.dfy`): `Option` and `Result`.

`SystemMapping` is a class whose methods update its three fields in place.
Two methods are tied to pure functions of the whole registry (`Registry`):

- `GetOrAllocate` returns what `Allocate` returns and leaves the state
  `Allocate` leaves.
- `Populate` leaves `PopulatedMapping`.

The lemmas relate successive calls through those functions. `GetKey` changes
nothing. The other methods (`Occupy`, `SetKeysAndButtons`, `Update`, `Set`,
`Clear`) each state the new value of the one field they change and that the
other fields are unchanged.

The allocator is modelled as the code is written: a freshly allocated code is
not marked occupied. The corrected allocator is a separate function, and both
versions appear under Findings.

Environment inputs are parameters:

- the output of `xmodmap -pke`, already matched into lines;
- the evdev name table;
- the `xinput` outputs;
- the set of existing paths;
- the random bytes drawn.

Writing the file and starting setxkbmap are returned as values: the file's
path and contents, and the command's argument vector.

## Model

| member | source | states |
|---|---|---|
| State.XmodmapToDict | keymapper/state.py:40-66 | The loop over the matched lines builds exactly the dict `XmodmapDict`: one assignment of first-symbol name to keycode per line, in line order, skipping `nosymbol` lines. |
| State.XmodmapDictEntries | keymapper/state.py:48-63 | A name has an entry if and only if it is the lower-cased first symbol of some line and is not `nosymbol`. Its code is the keycode minus 8 of the LAST line naming it, so later lines overwrite earlier ones. |
| State.XmodmapNamesAreLowerCase | keymapper/state.py:48-57 | Every parsed name is lower-case, non-empty and contains no whitespace. |
| State.SmallestFree | keymapper/state.py:179-185 | Returns the smallest code in 1..255 that is not occupied. Returns none exactly when all 255 codes are occupied. |
| State.Allocate | keymapper/state.py:168-191 | `get_or_allocate` as a function of the registry. It never changes `_mapping` or `_occupied_keycodes`. It changes nothing when it returns none. When it returns a code, the character is afterwards known with that code: from `_mapping` if it is a name in `_mapping` (a host name, a lower-cased `KEY*`/`BTN*` name or `disable`), otherwise from the allocations. |
| State.AllocateOutcomes | keymapper/state.py:168-191 | Covers all four outcomes of `get_or_allocate`. (1) A name in `_mapping` (a host name, a lower-cased `KEY*`/`BTN*` name or `disable`) returns its code and changes nothing. (2) A character allocated earlier returns the same code and changes nothing. (3) Otherwise the smallest unoccupied code is returned and appended to the allocations; `_mapping` and `_occupied_keycodes` are unchanged. (4) When all 255 codes are occupied, it returns none and changes nothing. |
| State.AllocateIdempotent | keymapper/state.py:168-191 | Asking again for the same character returns the same code and leaves the state as the first call left it. |
| State.AllocateIgnoresCase | keymapper/state.py:168 | A character and its lower-cased form get the same result and the same new state. |
| State.AllocationsCollide | keymapper/state.py:179-189 | As written, take two characters that differ after lower-casing, neither of which is a name in `_mapping` (a host name, a lower-cased `KEY*`/`BTN*` name or `disable`) or already allocated. If some code in 1..255 is free, asking for one and then the other gives both the same code. |
| State.AllocateReserving | keymapper/state.py:179-189 | The corrected allocator. Like `Allocate`, it never changes `_mapping`, changes nothing when it returns none, and leaves the character known with the code returned. It adds at most the returned code to `_occupied_keycodes`, and it always adds a freshly allocated code. |
| State.ReservingKeepsCodesDistinct | keymapper/state.py:179-189 | The corrected allocator keeps every allocated code reserved and keeps allocated codes pairwise distinct. |
| State.ReservingIdempotent | keymapper/state.py:168-191 | The corrected allocator also answers a repeated request with the same code and the same state. |
| State.PopulatedHostOrder | keymapper/state.py:90-125 | After `populate`, the host names hold the first positions of `_mapping`, in the host dict's order. So `get_key` scans them before any `KEY*`/`BTN*` name that is not a host name. |
| State.PopulatedDisable | keymapper/state.py:125 | After `populate`, the name `disable` maps to its code. |
| State.PopulatedNames | keymapper/state.py:90-125 | After `populate`, the names other than `disable` are exactly the host names plus the lower-cased `KEY*`/`BTN*` names. A failed query leaves the host part empty. |
| State.PopulatedEvdevWins | keymapper/state.py:119-123 | After `populate`, a `KEY*`/`BTN*` name has the code of its last occurrence in the evdev table, even over a host code. |
| State.PopulatedHostKept | keymapper/state.py:91-123 | After `populate`, a host name that no evdev name overrides keeps its host code. |
| State.SystemMapping.constructor | keymapper/state.py:71-81 | Builds empty state and then populates it. The result is the populated mapping, no allocations, and as occupied exactly the codes of the parsed host dict, one per name. |
| State.SystemMapping.Populate | keymapper/state.py:87-125 | `_mapping` becomes `PopulatedMapping`. Only the codes of the parsed host dict, one per name, are added to `_occupied_keycodes`. The allocations are unchanged. |
| State.SystemMapping.Occupy | keymapper/state.py:99-100 | `_occupied_keycodes` grows by exactly the codes of the parsed host dict, one per name. Nothing else changes. |
| State.SystemMapping.SetKeysAndButtons | keymapper/state.py:121-123 | `_mapping` receives one lower-cased assignment per `KEY*`/`BTN*` name of the evdev table, in table order. Nothing else changes. |
| State.SystemMapping.Update | keymapper/state.py:127-135 | `_mapping` becomes the map union, with the argument winning on shared names. Nothing else changes. |
| State.SystemMapping.Set | keymapper/state.py:137-139 | Stores the code under the lower-cased name, so `Get(name)` then returns it. Nothing else changes. |
| State.SystemMapping.Get | keymapper/state.py:141-143 | Returns the code stored under the lower-cased name, and none exactly when `_mapping` does not hold that name. |
| State.GetIgnoresCase | keymapper/state.py:137-143 | `get(n)` and `get(lower(n))` always agree. |
| State.SystemMapping.GetKey | keymapper/state.py:145-151 | Returns the first name in insertion order whose code is `c`. Returns none if and only if no name has code `c`. Changes nothing. |
| State.SystemMapping.GetOrAllocate | keymapper/state.py:153-191 | The returned code and the new state are those of `Allocate` on the old state. |
| State.SystemMapping.Clear | keymapper/state.py:193-197 | `_mapping` becomes empty. `_allocated_unknowns` and `_occupied_keycodes` are unchanged. |
| State.SystemMapping.GetUnknownMappings | keymapper/state.py:199-207 | Returns the allocations. Every allocated code lies in 1..255. |
| Base16.Encode | keymapper/injection/xkb.py:92 | The output is twice as long as the input and uses only the upper-case Base16 alphabet. |
| Base16.DecodeEncode | keymapper/injection/xkb.py:92 | Decoding the Base16 spelling of bytes gives the bytes back. |
| Base16.EncodeDecode | keymapper/injection/xkb.py:92 | Every text that decodes re-encodes to itself. |
| InjectionXkb.RandomPath | keymapper/injection/xkb.py:88-93 | The path is `/tmp/key-mapper/` followed by exactly 10 upper-case hexadecimal digits, and those digits decode back to the 5 bytes drawn. |
| InjectionXkb.RandomPathInjective | keymapper/injection/xkb.py:88-93 | Two draws give the same path only if they are the same draw. |
| InjectionXkb.FindFreePath | keymapper/injection/xkb.py:120-122 | Returns the first drawn path that does not exist. Returns none if and only if every drawn path exists. |
| InjectionXkb.SymbolLine | keymapper/injection/xkb.py:85 | `LINE_TEMPLATE` with the xkb keycode (the code plus 8) and the name. The line holds a newline only if the name does. `InjectionXkb.SymbolLineRoundTrip` reads it back. |
| InjectionXkb.SymbolLineRoundTrip | keymapper/injection/xkb.py:85 | Reading `key <N> { [ name ] };` gives back the code N - 8 and the name, for every code whose keycode is not negative. |
| InjectionXkb.SymbolLineInjective | keymapper/injection/xkb.py:85 | Different (code, name) entries give different key lines, for codes whose xkb keycode (the code plus 8) is not negative. |
| InjectionXkb.SymbolsText | keymapper/injection/xkb.py:78-83 | `SYMBOLS_TEMPLATE` filled with a locale and a body. The text starts with the `default xkb_symbols "basic" {` line. The `name[Group1] = "key-mapper";` line follows the include line. The text ends with `};` and a newline. |
| InjectionXkb.SymbolsFileSplit | keymapper/injection/xkb.py:78-83 | When neither the locale nor any key line holds a newline: split at newlines, the file consists of the header line, the include of the locale, the name line, one indented line per key line (one line of bare indentation when there are none), the closing brace, and a final empty piece. |
| InjectionXkb.SymbolLinesAsWritten | keymapper/injection/xkb.py:114-116 | As written, rendering succeeds if and only if there are no unknown mappings. Otherwise it raises a TypeError. Python's message names no character; the model's failure carries the first allocated name, the one used as a number. |
| InjectionXkb.AllocationBreaksSymbols | keymapper/injection/xkb.py:114-116 | As written, rendering raises after any successful allocation for a character that is not a name in `_mapping`. So every later generation that gets past the early return of lines 111-112 fails. |
| InjectionXkb.UnknownEntries | keymapper/injection/xkb.py:115 | The intended unpacking, in insertion order. An entry (code, name) is listed exactly when the unknown mappings map that name to that code, and no name is listed twice. |
| InjectionXkb.UnknownLinesRoundTrip | keymapper/injection/xkb.py:114-116 | There is one key line per allocation, in allocation order. Each line reads back as its character and the code allocated for it. |
| InjectionXkb.GeneratedFileLines | keymapper/injection/xkb.py:114-128 | When no allocated name holds a newline, the file generated from the unknown mappings, split at newlines, has the fixed header with `include "de"`, then one indented key line per allocation, then the closing brace. |
| InjectionXkb.GenerateXkbConfig | keymapper/injection/xkb.py:96-130 | Returns none if and only if the context has no macros and no key mappings. Otherwise it writes the symbols text for locale `de`, with the key lines joined by a newline and four spaces, to the first free path drawn. |
| GuiXkb.FirstMatchingId | keymapper/gui/xkb.py:56-62 | Returns the id of the first pair whose name matches, so later duplicates are ignored. Returns none if and only if no pair's name matches. |
| GuiXkb.ZipMatchMeaning | keymapper/gui/xkb.py:56-62 | Over `zip(names, ids)`, the id found is the one at the first position whose name matches and which has an id. There is none if and only if no such position exists. |
| GuiXkb.DeviceId | keymapper/gui/xkb.py:45-62 | `get_device_id` as a function of the two `xinput` outputs. An id found means both queries succeeded, the mapped name is among the listed names, and the id is among the listed ids. |
| GuiXkb.GetDeviceId | keymapper/gui/xkb.py:35-64 | The loop returns `DeviceId`. The result is none when either `xinput` query failed, and otherwise the first match over the lines of both outputs. |
| GuiXkb.DeviceIdMeaning | keymapper/gui/xkb.py:47-62 | When both queries succeed, the id is the one at the first position of the split outputs whose name matches and which has an id. There is none if and only if no such position exists. |
| GuiXkb.UnpairedNamesIgnored | keymapper/gui/xkb.py:56 | Names listed beyond the last id cannot match. |
| GuiXkb.ApplyXkbConfig | keymapper/gui/xkb.py:67-110 | Does nothing when the setting is off. Does nothing when the symbols file `/usr/share/X11/xkb/symbols/<name>` is missing, without looking up the device. Does nothing when no id is found. Otherwise it runs exactly `setxkbmap -keycodes key-mapper-keycodes -symbols <name> -device <id>`. |

## Left out

- Process and file I/O are parameters or results, not effects:
  - the `xmodmap`, `xinput` and `setxkbmap` processes;
  - `os.path.exists`, `touch`, `open`/`write`;
  - the copy of the xmodmap output written under a non-root user (state.py:102-113);
  - `time.sleep`;
  - logging.
- The existence check and the later write are not atomic in the source. The model sees one fixed set of existing paths.
- InjectionXkb.GenerateXkbConfig: returns the path and the contents instead of writing the file.
- InjectionXkb.GenerateXkbConfig: follows the intended reading of lines 115-116, since the code as written raises (see Findings and `InjectionXkb.SymbolLinesAsWritten`).
- InjectionXkb.FindFreePath: the unbounded retry loop runs over a finite sequence of 5-byte draws standing for `random.randbytes(5)`. When every one of them exists it reports `NoFreePath`, which the source never does.
- `re.findall` is not modelled as a regex engine. `xmodmap_to_dict` takes the matched lines: a digit run and a symbol list.
- State.WellFormedLine: a symbol list that is all whitespace makes `names.split()[0]` raise IndexError, uncaught. That case is excluded by the precondition.
- Text.Lower: `str.lower` is modelled on ASCII letters only. Non-ASCII case mappings are not.
- Text.IsDigits: `\d` in a str pattern and `int()` accept every Unicode decimal digit. The model accepts ASCII digits only.
- State.SystemMapping.GetUnknownMappings: the source returns the live `_allocated_unknowns` dict, so a caller could change the registry through it. The model returns the value. No caller in the modelled code changes it.
- The values of `DISABLE_NAME` and `DISABLE_CODE` ("disable" and -1) are assumed. keymapper/mapping.py is not part of this model.
- `evdev.ecodes.ecodes` is a parameter: a sequence of (name, code) pairs in the table's order.
- `get_mapping_device_name` is not modelled; its result is a parameter.
- `custom_mapping.get('generate_xkb_config')` is reduced to a boolean parameter (its truthiness).
- `get_xkb_symbols_name` is not defined in keymapper/injection/xkb.py at this version, so keymapper/gui/xkb.py:32 would fail to import. The symbols name is a parameter.
- `get_device_id` model: a `FileNotFoundError` from a missing `xinput` is not caught by the source and is not modelled. A failed query only stands for `CalledProcessError`.
- `list_names` (state.py:83-85) only exposes the keys of `_mapping` and is not modelled separately.
- These are not modelled:
  - the module-level singletons `system_mapping` and `custom_mapping`;
  - keymapper/xkb.py, an abandoned stub superseded by keymapper/injection/xkb.py;
  - `apply_xkb_config` in keymapper/injection/xkb.py, whose body is `pass`;
  - the EventProducer.

## Findings

| source | as written | input that shows it | evidently intended | confidence | as-written member | corrected member |
|---|---|---|---|---|---|---|
| keymapper/state.py:179-189 | A fresh code is recorded in `_allocated_unknowns` but never added to `_occupied_keycodes`, so the next scan finds the same code free again. | On a registry where neither `odiaeresis` nor `adiaeresis` is in `_mapping` or already allocated, and some code in 1..255 is free (a US layout, say), `get_or_allocate("odiaeresis")` then `get_or_allocate("adiaeresis")`: both return the same code. | A code handed out is reserved, so distinct unknown characters get distinct codes. | high; not executed | State.AllocationsCollide | State.ReservingKeepsCodesDistinct |
| keymapper/injection/xkb.py:115-116 | The items of the name-to-code dict are unpacked as `(code, character)`, so `code + XKB_KEYCODE_OFFSET` adds 8 to a name. | Unknown mappings `{"odiaeresis": 1}`: `"odiaeresis" + 8` raises TypeError. So after an allocation, every generation for a context with a macro or a key mapping fails. | Unpack as `(character, code)` and render `key <code + 8> { [ character ] };`. | high; not executed | InjectionXkb.AllocationBreaksSymbols | InjectionXkb.UnknownLinesRoundTrip |

`SystemMapping.GetOrAllocate` keeps the allocator as written, so that the
class matches the code. `State.AllocateReserving` is the corrected
definition, and its invariant is proved beside it. `InjectionXkb.GenerateXkbConfig`
renders through the corrected `InjectionXkb.UnknownEntries`.
