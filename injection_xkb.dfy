/** keymapper/injection/xkb.py: writing the xkb symbols file that gives the
    codes allocated for unknown characters a meaning, under a random name in
    /tmp/key-mapper. */
module InjectionXkb {
  import opened Wrappers
  import opened Text
  import opened OrderedDict
  import opened Base16
  import State

  const TMP_FOLDER := "/tmp/key-mapper"
  const SYMBOLS_LOCALE := "de"
  const INDENT := "    "
  /** What `generate_xkb_config` puts between two key lines. */
  const LINE_SEPARATOR := "\n    "

  // The fixed parts of LINE_TEMPLATE, around the keycode and the name.
  const LINE_OPEN := "key <"
  const LINE_MIDDLE := "> { [ "
  const LINE_CLOSE := " ] };"

  // The lines of SYMBOLS_TEMPLATE around the locale and the key lines.
  const HEADER_LINE := "default xkb_symbols \"basic\" {"
  const NAME_LINE := "    name[Group1] = \"key-mapper\";"
  const CLOSING_LINE := "};"

  function IncludeLine(locale: string): string
  {
    INDENT + "include \"" + locale + "\""
  }

  /** `SYMBOLS_TEMPLATE % (locale, body)`. Whatever the locale and the body,
      the text opens with the `xkb_symbols "basic"` header line, carries the
      `name[Group1]` line right after the include line, and ends with the
      closing brace and a newline. */
  function SymbolsText(locale: string, body: string): (t: string)
    ensures StartsWith(t, HEADER_LINE + "\n")
    ensures var n := |HEADER_LINE| + 1 + |IncludeLine(locale)| + 1;
            n + |NAME_LINE| <= |t| && t[n..n + |NAME_LINE|] == NAME_LINE
    ensures |t| >= |CLOSING_LINE| + 2 && t[|t| - |CLOSING_LINE| - 2..] == "\n" + CLOSING_LINE + "\n"
  {
    var first := HEADER_LINE + "\n";
    var second := IncludeLine(locale) + "\n";
    var middle := "\n" + INDENT + body;
    var last := "\n" + CLOSING_LINE + "\n";
    FiveParts(first, second, NAME_LINE, middle, last);
    first + second + NAME_LINE + middle + last
  }

  /** Where each of five concatenated pieces sits. */
  lemma FiveParts(a: string, b: string, c: string, d: string, e: string)
    ensures var t := a + b + c + d + e;
            && t[..|a|] == a
            && t[|a| + |b|..|a| + |b| + |c|] == c
            && t[|t| - |e|..] == e
  {
    var t := a + b + c + d + e;
    assert t == a + (b + c + d + e);
    assert t == (a + b) + (c + (d + e));
    assert t == (a + b + c + d) + e;
  }

  /** `LINE_TEMPLATE % (code + XKB_KEYCODE_OFFSET, name)`: the xkb keycode is
      the evdev code plus 8. The line holds a newline only if the name does. */
  function SymbolLine(code: int, name: string): (line: string)
    ensures '\n' !in name ==> '\n' !in line
  {
    LINE_OPEN + IntToDecimal(code + State.XKB_KEYCODE_OFFSET) + LINE_MIDDLE + name + LINE_CLOSE
  }

  /** One key line per (code, name) entry, in order. */
  function SymbolLines(entries: seq<(int, string)>): (lines: seq<string>)
  {
    seq(|entries|, i requires 0 <= i < |entries| => SymbolLine(entries[i].0, entries[i].1))
  }

  lemma SymbolLinesPrefix(entries: seq<(int, string)>, i: nat)
    requires i < |entries|
    ensures SymbolLines(entries[..i + 1]) == SymbolLines(entries[..i]) + [SymbolLine(entries[i].0, entries[i].1)]
  {
    var a := SymbolLines(entries[..i + 1]);
    var b := SymbolLines(entries[..i]) + [SymbolLine(entries[i].0, entries[i].1)];
    forall j | 0 <= j < |a| ensures a[j] == b[j] {
      assert entries[..i + 1][j] == entries[j];
      if j < i {
        assert entries[..i][j] == entries[j];
      }
    }
  }

  // ---------------------------------------------------------------------
  // Reading a key line back
  // ---------------------------------------------------------------------

  /** The index of the first non-digit at or after `i`. */
  function DigitsEnd(s: string, i: nat): (j: nat)
    requires i <= |s|
    ensures i <= j <= |s|
    ensures forall k :: i <= k < j ==> IsDigit(s[k])
    ensures j < |s| ==> !IsDigit(s[j])
    decreases |s| - i
  {
    if i < |s| && IsDigit(s[i]) then DigitsEnd(s, i + 1) else i
  }

  /** This model's own reader of `key <N> { [ NAME ] };` lines (not xkb's
      parser): the evdev code N - 8 and the name; none for any other line. It
      serves as the inverse of `SymbolLine`. */
  function ParseSymbolLine(line: string): Option<(int, string)>
  {
    if !StartsWith(line, LINE_OPEN) then None
    else
      var rest := line[|LINE_OPEN|..];
      var n := DigitsEnd(rest, 0);
      if n == 0 then None
      else
        var tail := rest[n..];
        if |tail| < |LINE_MIDDLE| + |LINE_CLOSE| then None
        else if tail[..|LINE_MIDDLE|] != LINE_MIDDLE || tail[|tail| - |LINE_CLOSE|..] != LINE_CLOSE then None
        else
          assert forall k :: 0 <= k < n ==> rest[..n][k] == rest[k];
          Some((DecimalValue(rest[..n]) - State.XKB_KEYCODE_OFFSET, tail[|LINE_MIDDLE|..|tail| - |LINE_CLOSE|]))
  }

  /** A key line reads back as the code and name it was written from, for
      every code whose xkb keycode is not negative and every name. */
  lemma SymbolLineRoundTrip(code: int, name: string)
    requires code + State.XKB_KEYCODE_OFFSET >= 0
    ensures ParseSymbolLine(SymbolLine(code, name)) == Some((code, name))
  {
    var digits := NatToDecimal(code + State.XKB_KEYCODE_OFFSET);
    var after := LINE_MIDDLE + name + LINE_CLOSE;
    var line := SymbolLine(code, name);
    assert line == LINE_OPEN + (digits + after);
    assert line[..|LINE_OPEN|] == LINE_OPEN;
    var rest := line[|LINE_OPEN|..];
    assert rest == digits + after;
    var n := DigitsEnd(rest, 0);
    assert rest[|digits|] == '>';
    assert n == |digits|;
    assert rest[..n] == digits;
    DecimalRoundTrip(code + State.XKB_KEYCODE_OFFSET);
    var tail := rest[n..];
    assert tail == after;
    assert tail[..|LINE_MIDDLE|] == LINE_MIDDLE;
    assert tail[|tail| - |LINE_CLOSE|..] == LINE_CLOSE;
    assert tail[|LINE_MIDDLE|..|tail| - |LINE_CLOSE|] == name;
  }

  /** Different entries give different key lines. */
  lemma SymbolLineInjective(c1: int, n1: string, c2: int, n2: string)
    requires c1 + State.XKB_KEYCODE_OFFSET >= 0 && c2 + State.XKB_KEYCODE_OFFSET >= 0
    requires SymbolLine(c1, n1) == SymbolLine(c2, n2)
    ensures c1 == c2 && n1 == n2
  {
    SymbolLineRoundTrip(c1, n1);
    SymbolLineRoundTrip(c2, n2);
  }

  // ---------------------------------------------------------------------
  // The symbols file, line by line
  // ---------------------------------------------------------------------

  /** The body as it appears in the file: each key line indented on a line of
      its own, or one line of bare indentation when there are none. */
  function BodyLines(lines: seq<string>): (body: seq<string>)
  {
    if |lines| == 0 then [INDENT]
    else seq(|lines|, i requires 0 <= i < |lines| => INDENT + lines[i])
  }

  /** The lines of the symbols file for `locale` and these key lines. */
  function FileLines(locale: string, lines: seq<string>): seq<string>
  {
    [HEADER_LINE, IncludeLine(locale), NAME_LINE] + BodyLines(lines) + [CLOSING_LINE, ""]
  }

  lemma {:induction false} IndentedJoin(lines: seq<string>)
    ensures INDENT + Join(lines, LINE_SEPARATOR) == Join(BodyLines(lines), "\n")
    decreases |lines|
  {
    if |lines| >= 2 {
      var body := BodyLines(lines);
      var rest := Join(lines[1..], LINE_SEPARATOR);
      IndentedJoin(lines[1..]);
      assert body[0] == INDENT + lines[0];
      assert body[1..] == BodyLines(lines[1..]);
      assert Join(body, "\n") == body[0] + "\n" + Join(body[1..], "\n");
      assert LINE_SEPARATOR == "\n" + INDENT;
      Regroup(INDENT, lines[0], rest);
    }
  }

  /** Moving an indentation across a separator that ends with it. */
  lemma Regroup(indent: string, first: string, rest: string)
    ensures indent + (first + ("\n" + indent) + rest) == (indent + first) + "\n" + (indent + rest)
  {
  }

  lemma SymbolsTextLines(locale: string, lines: seq<string>)
    ensures SymbolsText(locale, Join(lines, LINE_SEPARATOR)) == Join(FileLines(locale, lines), "\n")
  {
    var head := [HEADER_LINE, IncludeLine(locale), NAME_LINE];
    var body := BodyLines(lines);
    var tail := [CLOSING_LINE, ""];
    JoinAppend(head, body, "\n");
    JoinAppend(head + body, tail, "\n");
    IndentedJoin(lines);
    assert head[1..] == [IncludeLine(locale), NAME_LINE];
    assert head[1..][1..] == [NAME_LINE];
    assert Join(head[1..], "\n") == IncludeLine(locale) + "\n" + NAME_LINE;
    assert Join(head, "\n") == HEADER_LINE + "\n" + IncludeLine(locale) + "\n" + NAME_LINE;
    assert tail[1..] == [""];
    assert Join(tail, "\n") == CLOSING_LINE + "\n";
    var j := Join(lines, LINE_SEPARATOR);
    assert SymbolsText(locale, j) ==
           (HEADER_LINE + "\n") + (IncludeLine(locale) + "\n") + NAME_LINE + ("\n" + INDENT + j) + ("\n" + CLOSING_LINE + "\n");
    assert "\n" + INDENT + j == "\n" + (INDENT + j);
    RegroupLines(HEADER_LINE, IncludeLine(locale), NAME_LINE, INDENT + j, CLOSING_LINE);
  }

  /** The template's pieces regrouped as lines joined by newlines. */
  lemma RegroupLines(a: string, b: string, c: string, d: string, e: string)
    ensures (a + "\n") + (b + "\n") + c + ("\n" + d) + ("\n" + e + "\n") ==
            (a + "\n" + b + "\n" + c) + "\n" + d + "\n" + (e + "\n")
  {
  }

  /** Split at its newlines, the symbols file is exactly the header, the
      include of the locale, the name line, one indented line per key line and
      the closing brace, as long as neither the locale nor a key line holds a
      newline itself. */
  lemma SymbolsFileSplit(locale: string, lines: seq<string>)
    requires '\n' !in locale
    requires forall i :: 0 <= i < |lines| ==> '\n' !in lines[i]
    ensures SplitOn(SymbolsText(locale, Join(lines, LINE_SEPARATOR)), '\n') == FileLines(locale, lines)
  {
    SymbolsTextLines(locale, lines);
    FileLinesHaveNoNewline(locale, lines);
    SplitJoin(FileLines(locale, lines), '\n');
  }

  lemma FileLinesHaveNoNewline(locale: string, lines: seq<string>)
    requires '\n' !in locale
    requires forall i :: 0 <= i < |lines| ==> '\n' !in lines[i]
    ensures forall i :: 0 <= i < |FileLines(locale, lines)| ==> '\n' !in FileLines(locale, lines)[i]
  {
    var head := [HEADER_LINE, IncludeLine(locale), NAME_LINE];
    var body := BodyLines(lines);
    var tail := [CLOSING_LINE, ""];
    assert forall i :: 0 <= i < |head| ==> '\n' !in head[i];
    assert forall i :: 0 <= i < |body| ==> '\n' !in body[i] by {
      forall i | 0 <= i < |body| ensures '\n' !in body[i] {
        if |lines| > 0 {
          assert body[i] == INDENT + lines[i];
        }
      }
    }
    assert forall i :: 0 <= i < |tail| ==> '\n' !in tail[i];
    var all := FileLines(locale, lines);
    assert all == head + body + tail;
    forall i | 0 <= i < |all| ensures '\n' !in all[i] {
      if i < 3 {
        assert all[i] == head[i];
      } else if i < 3 + |body| {
        assert all[i] == body[i - 3];
      } else {
        assert all[i] == tail[i - 3 - |body|];
      }
    }
  }

  // ---------------------------------------------------------------------
  // The unknown mappings as key lines
  // ---------------------------------------------------------------------

  /** AS WRITTEN (lines 115-116): `items()` of the unknown mappings yields
      (name, code) pairs, but they are unpacked as (code, character), so
      `code + XKB_KEYCODE_OFFSET` adds an int to a name and raises TypeError
      on the first entry; only an empty dict gets through. Python's message
      ("can only concatenate str (not "int") to str") names no character; the
      model's `Failure` carries the first key, the name that was used as a
      number, to mark which entry fails. */
  function SymbolLinesAsWritten(unknowns: Dict): (r: Result<seq<string>, string>)
    requires unknowns.Valid()
    ensures r.Success? <==> |unknowns.values| == 0
    ensures r.Failure? ==> r.error in unknowns.values
  {
    if |unknowns.keys| == 0 then Success([])
    else
      assert unknowns.keys[0] in unknowns.values;
      Failure(unknowns.keys[0])
  }

  /** As written, once a code has been allocated for a character that is
      not a name in `_mapping`, rendering the unknown mappings raises. So every later
      `generate_xkb_config` that gets past the early return for a context with
      no macros and no key mappings (lines 111-112) fails. */
  lemma AllocationBreaksSymbols(r: State.Registry, character: string)
    requires r.Valid()
    requires Lower(character) !in r.mapping.values
    requires State.Allocate(r, character).1.Some?
    ensures SymbolLinesAsWritten(State.Allocate(r, character).0.allocations).Failure?
  {
    var after := State.Allocate(r, character).0;
    assert Lower(character) in after.allocations.values;
  }

  /** The intended reading of lines 115-116: each (name, code) item becomes
      the entry (code, name), in insertion order. An entry is listed exactly
      when the dict maps its name to its code, and no name is listed twice. */
  function UnknownEntries(unknowns: Dict): (entries: seq<(int, string)>)
    requires unknowns.Valid()
    ensures |entries| == |unknowns.keys|
    ensures forall i :: 0 <= i < |entries| ==>
              entries[i].1 == unknowns.keys[i] && entries[i].0 == unknowns.values[unknowns.keys[i]]
    ensures forall e :: e in entries <==> e.1 in unknowns.values && unknowns.values[e.1] == e.0
    ensures forall i, j :: 0 <= i < j < |entries| ==> entries[i].1 != entries[j].1
  {
    var entries := seq(|unknowns.keys|, i requires 0 <= i < |unknowns.keys| =>
      (unknowns.values[unknowns.keys[i]], unknowns.keys[i]));
    forall e: (int, string) | e.1 in unknowns.values && unknowns.values[e.1] == e.0 ensures e in entries {
      var i := IndexOf(unknowns.keys, e.1);
      assert entries[i] == e;
    }
    entries
  }

  /** The unknown mappings of a registry become one key line each, in
      allocation order, and every key line reads back as its name and the
      code allocated for it. */
  lemma UnknownLinesRoundTrip(r: State.Registry)
    requires r.Valid()
    ensures var lines := SymbolLines(UnknownEntries(r.allocations));
            && |lines| == |r.allocations.keys|
            && forall i :: 0 <= i < |lines| ==>
                 ParseSymbolLine(lines[i]) == Some((r.allocations.values[r.allocations.keys[i]], r.allocations.keys[i]))
  {
    var entries := UnknownEntries(r.allocations);
    var lines := SymbolLines(entries);
    forall i | 0 <= i < |lines|
      ensures ParseSymbolLine(lines[i]) == Some((r.allocations.values[r.allocations.keys[i]], r.allocations.keys[i]))
    {
      var k := r.allocations.keys[i];
      assert k in r.allocations.values;
      SymbolLineRoundTrip(r.allocations.values[k], k);
    }
  }

  /** The file generated from a registry's unknown mappings, split at its
      newlines, is the fixed header, one indented key line per allocation and
      the closing brace, provided no allocated name holds a newline. */
  lemma GeneratedFileLines(r: State.Registry)
    requires r.Valid()
    requires forall k :: k in r.allocations.values ==> '\n' !in k
    ensures var lines := SymbolLines(UnknownEntries(r.allocations));
            SplitOn(SymbolsText(SYMBOLS_LOCALE, Join(lines, LINE_SEPARATOR)), '\n') == FileLines(SYMBOLS_LOCALE, lines)
  {
    var entries := UnknownEntries(r.allocations);
    var lines := SymbolLines(entries);
    forall i | 0 <= i < |lines|
      ensures '\n' !in lines[i]
    {
      assert r.allocations.keys[i] in r.allocations.values;
    }
    SymbolsFileSplit(SYMBOLS_LOCALE, lines);
  }

  // ---------------------------------------------------------------------
  // random_path and generate_xkb_config
  // ---------------------------------------------------------------------

  /** The outcome of `random.randbytes(5)`. */
  type Draw = s: seq<byte> | |s| == 5 witness [0, 0, 0, 0, 0]

  /** `random_path()` for the bytes `draw`: the bytes' Base16 spelling inside
      /tmp/key-mapper; the file name decodes back to the bytes. */
  function RandomPath(draw: Draw): (path: string)
    ensures |path| == |TMP_FOLDER| + 1 + 10
    ensures path[..|TMP_FOLDER| + 1] == TMP_FOLDER + "/"
    ensures forall i :: |TMP_FOLDER| + 1 <= i < |path| ==> IsBase16Digit(path[i])
    ensures Decode(path[|TMP_FOLDER| + 1..]) == Some(draw)
  {
    DecodeEncode(draw);
    var path := TMP_FOLDER + "/" + Encode(draw);
    assert path[|TMP_FOLDER| + 1..] == Encode(draw);
    path
  }

  /** Different draws never give the same path. */
  lemma RandomPathInjective(a: Draw, b: Draw)
    ensures RandomPath(a) == RandomPath(b) <==> a == b
  {
  }

  /** Every path drawn is taken. */
  predicate AllTaken(draws: seq<Draw>, existing: set<string>)
  {
    forall i :: 0 <= i < |draws| ==> RandomPath(draws[i]) in existing
  }

  /** Draw `i` is the first whose path is free. */
  predicate FirstFreeAt(draws: seq<Draw>, existing: set<string>, i: int)
  {
    && 0 <= i < |draws|
    && RandomPath(draws[i]) !in existing
    && forall j :: 0 <= j < i ==> RandomPath(draws[j]) in existing
  }

  /** The retry loop of lines 120-122: draw a random path, and draw again for
      as long as the drawn path exists. The draws come from the finite sequence
      `draws` and `existing` holds the paths that exist. The result is the first
      free path drawn, or none if every draw is taken. */
  method FindFreePath(draws: seq<Draw>, existing: set<string>) returns (path: Option<string>)
    ensures path.None? <==> AllTaken(draws, existing)
    ensures path.Some? ==> exists i :: FirstFreeAt(draws, existing, i) && path.value == RandomPath(draws[i])
  {
    if |draws| == 0 {
      return None;
    }
    var i := 0;
    var candidate := RandomPath(draws[0]);
    while candidate in existing
      invariant 0 <= i < |draws|
      invariant candidate == RandomPath(draws[i])
      invariant forall j :: 0 <= j < i ==> RandomPath(draws[j]) in existing
      decreases |draws| - i
    {
      if i + 1 == |draws| {
        return None;
      }
      i := i + 1;
      candidate := RandomPath(draws[i]);
    }
    assert FirstFreeAt(draws, existing, i);
    return Some(candidate);
  }

  /** The sizes of the injection context's `macros` and `key_to_code`. */
  datatype Context = Context(macroCount: nat, keyToCodeCount: nat)

  /** What `generate_xkb_config` does: returns None when there is nothing to
      inject, otherwise writes `contents` to the fresh `path` and returns it. */
  datatype Generated = NothingToInject | Written(path: string, contents: string) | NoFreePath

  /** `generate_xkb_config(context)`, reading lines 115-116 as intended
      (`UnknownEntries`), with the unknown mappings `unknowns`: nothing when
      the context has neither macros nor key mappings; otherwise the symbols
      file for locale "de" holding one key line per unknown mapping, under the
      first free path drawn. */
  method GenerateXkbConfig(context: Context, unknowns: Dict, draws: seq<Draw>, existing: set<string>)
    returns (result: Generated)
    requires unknowns.Valid()
    ensures result.NothingToInject? <==> context.macroCount == 0 && context.keyToCodeCount == 0
    ensures result.NoFreePath? <==> !result.NothingToInject? && AllTaken(draws, existing)
    ensures result.Written? ==>
              && (exists i :: FirstFreeAt(draws, existing, i) && result.path == RandomPath(draws[i]))
              && result.contents == SymbolsText(SYMBOLS_LOCALE, Join(SymbolLines(UnknownEntries(unknowns)), LINE_SEPARATOR))
  {
    if context.macroCount == 0 && context.keyToCodeCount == 0 {
      return NothingToInject;
    }
    var entries := UnknownEntries(unknowns);
    var symbols: seq<string> := [];
    for i := 0 to |unknowns.keys|
      invariant symbols == SymbolLines(entries[..i])
    {
      var character := unknowns.keys[i];
      SymbolLinesPrefix(entries, i);
      symbols := symbols + [SymbolLine(unknowns.values[character], character)];
    }
    assert entries[..|unknowns.keys|] == entries;
    var path := FindFreePath(draws, existing);
    if path.None? {
      return NoFreePath;
    }
    var symbolsText := Join(symbols, LINE_SEPARATOR);
    return Written(path.value, SymbolsText(SYMBOLS_LOCALE, symbolsText));
  }
}
