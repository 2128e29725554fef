/**
 * The sync configuration: a line-oriented `key=value` text read on top of
 * `DEFAULTS` into an insertion-ordered dict of typed values, and the
 * serialiser that writes such a dict back as text.
 *
 * Locating the file (explicit path, `AGENTFLOW_CONFIG` from `.env`, or
 * `config.txt`) and the file I/O itself are outside the model: loading takes
 * what reading the file produced, saving returns the text it writes.
 */
module ConfigSync {
  import opened Wrappers
  import opened Text

  datatype Value = IntVal(i: int) | BoolVal(b: bool) | StrVal(s: string) | ListVal(items: seq<string>)

  /** A Python dict from keys to values, in insertion order. */
  type Dict = seq<(string, Value)>

  /** `d.get(k)`. */
  function Get(d: Dict, k: string): Option<Value> {
    if d == [] then None else if d[0].0 == k then Some(d[0].1) else Get(d[1..], k)
  }

  /** `d[k] = v`: replaces the value in place when `k` is present, appends otherwise. */
  function Set(d: Dict, k: string, v: Value): (r: Dict)
    ensures forall k' :: Get(r, k') == if k' == k then Some(v) else Get(d, k')
  {
    if d == [] then [(k, v)]
    else if d[0].0 == k then
      assert ([(k, v)] + d[1..])[1..] == d[1..];
      [(k, v)] + d[1..]
    else
      var r := [d[0]] + Set(d[1..], k, v);
      assert r[1..] == Set(d[1..], k, v);
      r
  }

  predicate DistinctKeys(d: Dict) {
    forall i, j :: 0 <= i < j < |d| ==> d[i].0 != d[j].0
  }

  const DefaultIgnorePatterns: seq<string> :=
    [".git", "__pycache__", ".venv", ".idea", ".vscode", "node_modules", "*.pyc"]

  /** `DEFAULTS`. */
  const Defaults: Dict := [
    ("window_width", IntVal(800)),
    ("window_height", IntVal(480)),
    ("ignore_patterns", ListVal(DefaultIgnorePatterns)),
    ("backup_mode", StrVal("timestamped")),
    ("preserve_mtime", BoolVal(true)),
    ("dry_run", BoolVal(false)),
    ("root_allowlist", ListVal([])),
    ("folders_faves", ListVal([]))
  ]

  const IntKeys: set<string> := {"window_width", "window_height"}
  const BoolKeys: set<string> := {"preserve_mtime", "dry_run"}
  const ListKeys: set<string> := {"ignore_patterns", "root_allowlist", "folders_faves"}

  const TrueWords: set<string> := {"1", "true", "yes", "y", "on"}

  /** `_to_bool`: the trimmed, lower-cased text is one of the true words. */
  function ToBool(v: string): bool {
    Lower(Strip(v)) in TrueWords
  }

  /** `bool(x)` for a value that may be absent (`None`). */
  function Truthy(v: Option<Value>): bool {
    match v
    case None => false
    case Some(IntVal(i)) => i != 0
    case Some(BoolVal(b)) => b
    case Some(StrVal(s)) => s != ""
    case Some(ListVal(items)) => items != []
  }

  /** `[p.strip() for p in parts if p.strip()]`. */
  function Items(parts: seq<string>): (r: seq<string>)
    ensures forall i :: 0 <= i < |r| ==> r[i] != "" && Trimmed(r[i])
  {
    if parts == [] then []
    else
      var p := Strip(parts[0]);
      (if p != "" then [p] else []) + Items(parts[1..])
  }

  /** The list a comma-separated value parses to. */
  function ListItems(val: string): seq<string> {
    Items(Split(val, ','))
  }

  /** A line that is blank, a comment, or has no `=`: it assigns nothing. */
  predicate Ignorable(raw: string) {
    Strip(raw) == "" || Strip(raw)[0] == '#' || '=' !in Strip(raw)
  }

  /** The stripped text before the first `=`. */
  function LineKey(line: string): string
    requires '=' in line
  {
    Strip(line[..IndexOf(line, '=')])
  }

  /** The stripped text after the first `=`. */
  function LineValue(line: string): string
    requires '=' in line
  {
    Strip(line[IndexOf(line, '=') + 1..])
  }

  /**
   * The value a key's text parses to: window sizes must be positive
   * integers (otherwise the line is dropped), flags go through `_to_bool`,
   * list keys split at commas, and everything else stays text.
   */
  function TypedValue(key: string, val: string): Option<Value> {
    if key in IntKeys then
      var n := ParseInt(val);
      if n.Some? && n.value > 0 then Some(IntVal(n.value)) else None
    else if key in BoolKeys then Some(BoolVal(ToBool(val)))
    else if key in ListKeys then Some(ListVal(ListItems(val)))
    else Some(StrVal(val))
  }

  /** What one line of the file assigns, if anything. */
  function ParseLine(raw: string): (r: Option<(string, Value)>)
    ensures Ignorable(raw) ==> r == None
    ensures r.Some? ==> r.value.0 == LineKey(Strip(raw)) && Some(r.value.1) == TypedValue(LineKey(Strip(raw)), LineValue(Strip(raw)))
    ensures !Ignorable(raw) && TypedValue(LineKey(Strip(raw)), LineValue(Strip(raw))).Some? ==> r.Some?
  {
    if Ignorable(raw) then None
    else
      var line := Strip(raw);
      var key := LineKey(line);
      match TypedValue(key, LineValue(line))
      case Some(v) => Some((key, v))
      case None => None
  }

  /** The effect of one line on the dict being loaded. */
  function ApplyLine(d: Dict, raw: string): Dict {
    match ParseLine(raw)
    case None => d
    case Some((k, v)) => Set(d, k, v)
  }

  /** The dict after the lines, in file order. */
  function ApplyLines(d: Dict, lines: seq<string>): Dict {
    if lines == [] then d else ApplyLine(ApplyLines(d, lines[..|lines| - 1]), lines[|lines| - 1])
  }

  lemma ApplyLinesStep(d: Dict, lines: seq<string>, i: nat)
    requires i < |lines|
    ensures ApplyLines(d, lines[..i + 1]) == ApplyLine(ApplyLines(d, lines[..i]), lines[i])
  {
    assert lines[..i + 1][..i] == lines[..i];
  }

  /** Text-mode reading turns `\r\n` and a lone `\r` into `\n`. */
  function UniversalNewlines(t: string): string {
    if t == "" then ""
    else if t[0] == '\r' then
      if |t| > 1 && t[1] == '\n' then "\n" + UniversalNewlines(t[2..]) else "\n" + UniversalNewlines(t[1..])
    else [t[0]] + UniversalNewlines(t[1..])
  }

  /**
   * The lines iterating over the file yields, without their terminators; a
   * trailing empty piece is a blank line and assigns nothing.
   */
  function Lines(text: string): seq<string> {
    Split(UniversalNewlines(text), '\n')
  }

  predicate PositiveIntLike(v: Option<Value>) {
    v.Some? && ((v.value.IntVal? && v.value.i > 0) || (v.value.BoolVal? && v.value.b))
  }

  /**
   * The final validation: a window size that is not a positive int goes back
   * to its default (a Python bool counts as an int), a list key that does not
   * hold a list gets the default list, and `preserve_mtime`/`dry_run` become
   * `bool(value)`.
   */
  function Normalize(d: Dict): Dict {
    var d1 := if PositiveIntLike(Get(d, "window_width")) then d else Set(d, "window_width", IntVal(800));
    var d2 := if PositiveIntLike(Get(d1, "window_height")) then d1 else Set(d1, "window_height", IntVal(480));
    var d3 := if ListAt(d2, "ignore_patterns") then d2 else Set(d2, "ignore_patterns", ListVal(DefaultIgnorePatterns));
    var d4 := if ListAt(d3, "root_allowlist") then d3 else Set(d3, "root_allowlist", ListVal([]));
    var d5 := if ListAt(d4, "folders_faves") then d4 else Set(d4, "folders_faves", ListVal([]));
    var d6 := if BoolAt(d5, "preserve_mtime") then d5 else Set(d5, "preserve_mtime", BoolVal(Truthy(Get(d5, "preserve_mtime"))));
    if BoolAt(d6, "dry_run") then d6 else Set(d6, "dry_run", BoolVal(Truthy(Get(d6, "dry_run"))))
  }

  /** What `load_config` is given: no file, a file read to the end, or a read that failed after some lines. */
  datatype ConfigSource = Missing | Readable(text: string) | ReadFails(linesRead: seq<string>)

  /** What `load_config` returns. */
  function LoadSpec(src: ConfigSource): Dict {
    match src
    case Missing => Defaults
    case ReadFails(ls) => ApplyLines(Defaults, ls)
    case Readable(text) => Normalize(ApplyLines(Defaults, Lines(text)))
  }

  /** `load_config`. */
  method LoadConfig(src: ConfigSource) returns (config: Dict)
    ensures config == LoadSpec(src)
    ensures src.Missing? ==> config == Defaults
  {
    config := Defaults;
    if src.Missing? {
      return;
    }
    var lines := if src.Readable? then Lines(src.text) else src.linesRead;
    var i := 0;
    while i < |lines|
      invariant 0 <= i <= |lines|
      invariant config == ApplyLines(Defaults, lines[..i])
    {
      ApplyLinesStep(Defaults, lines, i);
      var parsed := ParseLine(lines[i]);
      if parsed.Some? {
        config := Set(config, parsed.value.0, parsed.value.1);
      }
      i := i + 1;
    }
    assert lines[..i] == lines;
    if src.Readable? {
      config := Normalize(config);
    }
  }

  // ---------------------------------------------------------------- loaded configs are typed

  predicate PositiveIntAt(d: Dict, k: string) {
    Get(d, k).Some? && Get(d, k).value.IntVal? && Get(d, k).value.i > 0
  }

  predicate BoolAt(d: Dict, k: string) {
    Get(d, k).Some? && Get(d, k).value.BoolVal?
  }

  predicate ListAt(d: Dict, k: string) {
    Get(d, k).Some? && Get(d, k).value.ListVal?
  }

  /** Window sizes are positive ints, the two flags bools, the three list keys lists. */
  predicate Typed(d: Dict) {
    && PositiveIntAt(d, "window_width") && PositiveIntAt(d, "window_height")
    && BoolAt(d, "preserve_mtime") && BoolAt(d, "dry_run")
    && ListAt(d, "ignore_patterns") && ListAt(d, "root_allowlist") && ListAt(d, "folders_faves")
  }

  lemma {:induction false} GetAt(d: Dict, i: int, k: string)
    requires 0 <= i < |d| && d[i].0 == k
    requires forall j :: 0 <= j < i ==> d[j].0 != k
    ensures Get(d, k) == Some(d[i].1)
  {
    if i > 0 {
      GetAt(d[1..], i - 1, k);
    }
  }

  lemma DefaultsTyped()
    ensures Typed(Defaults)
  {
    GetAt(Defaults, 1, "window_height");
    GetAt(Defaults, 2, "ignore_patterns");
    GetAt(Defaults, 4, "preserve_mtime");
    GetAt(Defaults, 5, "dry_run");
    GetAt(Defaults, 6, "root_allowlist");
    GetAt(Defaults, 7, "folders_faves");
  }

  /** The type a known key must hold; a value of any type fits another key. */
  predicate Fits(k: string, v: Value) {
    if k in IntKeys then v.IntVal? && v.i > 0
    else if k in BoolKeys then v.BoolVal?
    else if k in ListKeys then v.ListVal?
    else true
  }

  /** Assigning a value that fits its key keeps a dict typed. */
  lemma SetKeepsTyped(d: Dict, k: string, v: Value)
    requires Typed(d) && Fits(k, v)
    ensures Typed(Set(d, k, v))
  {
  }

  /** What a line parses to fits its key: a window size is a positive int, a flag a bool, a list key a list. */
  lemma ParsedLineFits(raw: string)
    requires ParseLine(raw).Some?
    ensures Fits(ParseLine(raw).value.0, ParseLine(raw).value.1)
  {
  }

  lemma {:induction false} ApplyLinesKeepsTyped(d: Dict, lines: seq<string>)
    requires Typed(d)
    ensures Typed(ApplyLines(d, lines))
  {
    if lines != [] {
      var pre, raw := lines[..|lines| - 1], lines[|lines| - 1];
      ApplyLinesKeepsTyped(d, pre);
      var d' := ApplyLines(d, pre);
      if ParseLine(raw).Some? {
        ParsedLineFits(raw);
        SetKeepsTyped(d', ParseLine(raw).value.0, ParseLine(raw).value.1);
      }
    }
  }

  /** The final validation changes nothing in a dict that is already typed. */
  lemma NormalizeKeepsTyped(d: Dict)
    requires Typed(d)
    ensures Normalize(d) == d
  {
  }

  /**
   * Whatever `load_config` reads, the window sizes come back as positive ints,
   * the flags as bools and the list keys as lists.
   */
  lemma LoadedConfigIsTyped(src: ConfigSource)
    ensures Typed(LoadSpec(src))
  {
    DefaultsTyped();
    match src
    case Missing =>
    case ReadFails(ls) => ApplyLinesKeepsTyped(Defaults, ls);
    case Readable(text) =>
      ApplyLinesKeepsTyped(Defaults, Lines(text));
      NormalizeKeepsTyped(ApplyLines(Defaults, Lines(text)));
  }

  // ---------------------------------------------------------------- line semantics

  /** The value the last line assigning `k` gives it, if any line does. */
  function LastAssigned(lines: seq<string>, k: string): Option<Value> {
    if lines == [] then None
    else
      var p := ParseLine(lines[|lines| - 1]);
      if p.Some? && p.value.0 == k then Some(p.value.1) else LastAssigned(lines[..|lines| - 1], k)
  }

  /**
   * Later lines override earlier ones: a key ends up with the value of the
   * last line that assigns it, and keeps its earlier value when none does.
   */
  lemma {:induction false} LastLineWins(d: Dict, lines: seq<string>, k: string)
    ensures Get(ApplyLines(d, lines), k) == if LastAssigned(lines, k).Some? then LastAssigned(lines, k) else Get(d, k)
  {
    if lines != [] {
      LastLineWins(d, lines[..|lines| - 1], k);
    }
  }

  /** Blank lines, comments and lines without `=` change nothing. */
  lemma {:induction false} IgnorableLinesChangeNothing(d: Dict, lines: seq<string>)
    requires forall i :: 0 <= i < |lines| ==> Ignorable(lines[i])
    ensures ApplyLines(d, lines) == d
  {
    if lines != [] {
      IgnorableLinesChangeNothing(d, lines[..|lines| - 1]);
    }
  }

  /** `_to_bool` looks only at the trimmed, lower-cased text. */
  lemma ToBoolIgnoresCaseAndSpace(v: string)
    ensures ToBool(v) == ToBool(Lower(Strip(v)))
  {
    NormalFormIsFixed(v);
  }

  /** Stripping and lower-casing a second time changes nothing. */
  lemma NormalFormIsFixed(v: string)
    ensures Lower(Strip(Lower(Strip(v)))) == Lower(Strip(v))
  {
    var t := Lower(Strip(v));
    LowerKeepsTrimmed(Strip(v));
    assert Strip(t) == t;
    LowerTwice(Strip(v));
  }

  // ---------------------------------------------------------------- save_config

  /** How `save_config` renders a value: bools first, then ints, lists joined with ", ", strings as they are. */
  function RenderValue(v: Value): string {
    match v
    case BoolVal(b) => if b then "true" else "false"
    case IntVal(i) => IntText(i)
    case ListVal(items) => Join(items, ", ")
    case StrVal(s) => s
  }

  function EntryLine(e: (string, Value)): string {
    e.0 + "=" + RenderValue(e.1)
  }

  /** The text `save_config` writes: one `key=value` line per entry, in dict order. */
  function ConfigText(d: Dict): string {
    if d == [] then "" else ConfigText(d[..|d| - 1]) + EntryLine(d[|d| - 1]) + "\n"
  }

  /** `save_config`'s loop over the entries. */
  method SaveConfig(d: Dict) returns (text: string)
    ensures text == ConfigText(d)
  {
    text := "";
    var i := 0;
    while i < |d|
      invariant 0 <= i <= |d|
      invariant text == ConfigText(d[..i])
    {
      assert d[..i + 1][..i] == d[..i];
      var (key, val) := d[i];
      var sval: string;
      match val {
        case BoolVal(b) => sval := if b then "true" else "false";
        case IntVal(n) => sval := IntText(n);
        case ListVal(items) => sval := Join(items, ", ");
        case StrVal(s) => sval := s;
      }
      var line := key + "=" + sval;
      assert line == EntryLine(d[i]);
      text := text + line + "\n";
      i := i + 1;
    }
    assert d[..i] == d;
  }

  function EntryLines(d: Dict): (r: seq<string>)
    ensures |r| == |d|
  {
    if d == [] then [] else EntryLines(d[..|d| - 1]) + [EntryLine(d[|d| - 1])]
  }

  /** The written text splits back into exactly the entry lines (then an empty tail). */
  lemma {:induction false} SplitConfigText(d: Dict, tail: string)
    requires forall i :: 0 <= i < |d| ==> NoLineBreak(EntryLine(d[i]))
    ensures Split(ConfigText(d) + tail, '\n') == EntryLines(d) + Split(tail, '\n')
  {
    if d == [] {
      assert ConfigText(d) + tail == tail;
    } else {
      var pre, e := d[..|d| - 1], d[|d| - 1];
      assert ConfigText(d) + tail == (ConfigText(pre) + EntryLine(e)) + ['\n'] + tail;
      SplitConcat(ConfigText(pre) + EntryLine(e), '\n', tail);
      SplitConfigText(pre, EntryLine(e));
      SplitNone(EntryLine(e), '\n');
    }
  }

  lemma {:induction false} ConfigTextHasNoCR(d: Dict)
    requires forall i :: 0 <= i < |d| ==> NoLineBreak(EntryLine(d[i]))
    ensures '\r' !in ConfigText(d)
  {
    if d != [] {
      ConfigTextHasNoCR(d[..|d| - 1]);
    }
  }

  lemma {:induction false} UniversalNewlinesWithoutCR(t: string)
    requires '\r' !in t
    ensures UniversalNewlines(t) == t
  {
    if t != "" {
      UniversalNewlinesWithoutCR(t[1..]);
    }
  }

  /** `save_config` writes one line per entry, in dict order, that reading gives back. */
  lemma SavedLines(d: Dict)
    requires forall i :: 0 <= i < |d| ==> NoLineBreak(EntryLine(d[i]))
    ensures Lines(ConfigText(d)) == EntryLines(d) + [""]
  {
    ConfigTextHasNoCR(d);
    UniversalNewlinesWithoutCR(ConfigText(d));
    SplitConfigText(d, "");
    assert ConfigText(d) + "" == ConfigText(d);
  }

  // ---------------------------------------------------------------- round trip

  predicate KeyOk(k: string) {
    k != "" && Trimmed(k) && '=' !in k && k[0] != '#' && NoLineBreak(k)
  }

  predicate ItemOk(x: string) {
    x != "" && Trimmed(x) && ',' !in x && NoLineBreak(x)
  }

  /**
   * An entry `load_config` reads back as it was written: a well-formed key,
   * and a value of the type its key parses to, written without line breaks,
   * surrounding whitespace, or (in list items) commas.
   */
  predicate Saveable(k: string, v: Value) {
    && KeyOk(k)
    && if k in IntKeys then v.IntVal? && v.i > 0
       else if k in BoolKeys then v.BoolVal?
       else if k in ListKeys then v.ListVal? && forall x :: x in v.items ==> ItemOk(x)
       else v.StrVal? && Trimmed(v.s) && NoLineBreak(v.s)
  }

  /** `d` with the entries of `c` assigned in order. */
  function Overlay(d: Dict, c: Dict): Dict {
    if c == [] then d else Set(Overlay(d, c[..|c| - 1]), c[|c| - 1].0, c[|c| - 1].1)
  }

  /** Joining list items with ", " and splitting at "," gives back the items. */
  lemma ListItemsOfJoin(items: seq<string>, pad: string)
    requires pad == "" || pad == " "
    requires items != [] || pad == ""
    requires forall x :: x in items ==> ItemOk(x)
    ensures Items(Split(pad + Join(items, ", "), ',')) == items
  {
    if items == [] {
      assert pad + Join(items, ", ") == "";
      assert Split("", ',') == [""];
    } else {
      SplitOfJoin(items, pad);
      ItemsOfPadded(items, pad);
    }
  }

  /** The pieces `", ".join(items)` splits into at the commas: each item but the first keeps its leading space. */
  function Padded(items: seq<string>, pad: string): seq<string>
    requires items != []
  {
    [pad + items[0]] + (if |items| == 1 then [] else Padded(items[1..], " "))
  }

  lemma {:induction false} SplitOfJoin(items: seq<string>, pad: string)
    requires pad == "" || pad == " "
    requires items != [] && forall x :: x in items ==> ItemOk(x)
    ensures Split(pad + Join(items, ", "), ',') == Padded(items, pad)
  {
    assert items[0] in items;
    PaddedItem(items[0], pad);
    JoinSplitsAtFirst(items, pad);
    if |items| > 1 {
      assert forall y :: y in items[1..] ==> y in items;
      SplitOfJoin(items[1..], " ");
    }
  }

  lemma {:induction false} ItemsOfPadded(items: seq<string>, pad: string)
    requires pad == "" || pad == " "
    requires items != [] && forall x :: x in items ==> ItemOk(x)
    ensures Items(Padded(items, pad)) == items
  {
    var x := items[0];
    assert x in items;
    var tail := if |items| == 1 then [] else Padded(items[1..], " ");
    PaddedFirstItem(x, pad, tail);
    if |items| > 1 {
      assert forall y :: y in items[1..] ==> y in items;
      ItemsOfPadded(items[1..], " ");
    }
    HeadTail(items);
  }

  lemma HeadTail<T>(s: seq<T>)
    requires s != []
    ensures s == [s[0]] + s[1..]
  {
  }

  /** A padded first item strips back to itself ahead of the rest's items. */
  lemma PaddedFirstItem(x: string, pad: string, tail: seq<string>)
    requires pad == "" || pad == " "
    requires ItemOk(x)
    ensures Items([pad + x] + tail) == [x] + Items(tail)
  {
    PaddedItem(x, pad);
    ItemsCons(pad + x, tail);
  }

  /** The joined text splits off its first item, padded, before the rest. */
  lemma JoinSplitsAtFirst(items: seq<string>, pad: string)
    requires items != [] && ',' !in pad + items[0]
    ensures Split(pad + Join(items, ", "), ',')
      == [pad + items[0]] + (if |items| == 1 then [] else Split(" " + Join(items[1..], ", "), ','))
  {
    var x := items[0];
    if |items| == 1 {
      assert pad + Join(items, ", ") == pad + x;
      SplitNone(pad + x, ',');
    } else {
      var more := " " + Join(items[1..], ", ");
      assert pad + Join(items, ", ") == (pad + x) + [','] + more;
      SplitAt(pad + x, ',', more);
    }
  }

  /** An item with an optional leading space strips back to itself and holds no comma. */
  lemma PaddedItem(x: string, pad: string)
    requires pad == "" || pad == " "
    requires ItemOk(x)
    ensures Strip(pad + x) == x && ',' !in pad + x
  {
    if pad == " " {
      StripOfSpacePrefixed(x);
    } else {
      assert pad + x == x;
    }
  }

  lemma ItemsCons(p: string, rest: seq<string>)
    ensures Items([p] + rest) == (if Strip(p) != "" then [Strip(p)] else []) + Items(rest)
  {
    assert ([p] + rest)[0] == p && ([p] + rest)[1..] == rest;
  }

  lemma ToBoolOfRendered(b: bool)
    ensures ToBool(RenderValue(BoolVal(b))) == b
  {
    if b {
      LowerOfLiteral("true");
    } else {
      LowerOfLiteral("false");
    }
  }

  /** A word of lower-case letters is its own normal form. */
  lemma LowerOfLiteral(w: string)
    requires w == "true" || w == "false"
    ensures Lower(Strip(w)) == w
  {
    assert Strip(w) == w by {
      assert Trimmed(w);
    }
    LowerOfLetters(w);
  }

  lemma LowerOfLetters(w: string)
    requires forall i :: 0 <= i < |w| ==> 'a' <= w[i] <= 'z'
    ensures Lower(w) == w
  {
    var l := Lower(w);
    assert forall i :: 0 <= i < |w| ==> l[i] == w[i];
  }

  /** The rendered value of a saveable entry is trimmed and free of line breaks. */
  lemma RenderedValueShape(k: string, v: Value)
    requires Saveable(k, v)
    ensures Trimmed(RenderValue(v)) && NoLineBreak(RenderValue(v))
  {
    match v
    case IntVal(n) => NatTextShape(n);
    case BoolVal(b) =>
    case StrVal(s) =>
    case ListVal(items) => JoinedItemsShape(items);
  }

  lemma NatTextShape(n: nat)
    ensures Trimmed(IntText(n)) && NoLineBreak(IntText(n))
  {
    var t := NatText(n);
    assert IsDigit(t[0]) && IsDigit(t[|t| - 1]);
    assert forall i :: 0 <= i < |t| ==> IsDigit(t[i]);
  }

  lemma JoinedItemsShape(items: seq<string>)
    requires forall x :: x in items ==> ItemOk(x)
    ensures Trimmed(Join(items, ", ")) && NoLineBreak(Join(items, ", "))
  {
    assert forall i :: 0 <= i < |items| ==> items[i] in items;
    JoinTrimmed(items, ", ");
    JoinAvoids(items, ", ", '\n');
    JoinAvoids(items, ", ", '\r');
  }

  /** `key=value` splits back at its first `=` into the key and the value. */
  lemma EntryLineParts(k: string, r: string)
    requires KeyOk(k) && Trimmed(r)
    ensures !Ignorable(k + "=" + r)
    ensures LineKey(Strip(k + "=" + r)) == k && LineValue(Strip(k + "=" + r)) == r
  {
    var line := k + "=" + r;
    JoinedTrimmed(k, r);
    SplitAtFirstEquals(k, r, line);
    assert line[0] == k[0];
    TrimmedLineParts(line, k, r);
  }

  lemma TrimmedLineParts(line: string, k: string, r: string)
    requires Trimmed(line) && Trimmed(k) && Trimmed(r) && k != "" && k[0] != '#'
    requires '=' in line && IndexOf(line, '=') == |k| && line[..|k|] == k && line[|k| + 1..] == r
    ensures !Ignorable(line)
    ensures LineKey(Strip(line)) == k && LineValue(Strip(line)) == r
  {
    assert line[0] == k[0];
  }

  lemma JoinedTrimmed(k: string, r: string)
    requires k != "" && Trimmed(k) && Trimmed(r)
    ensures Trimmed(k + "=" + r)
  {
    var line := k + "=" + r;
    assert line[0] == k[0];
    if r != [] {
      assert line[|line| - 1] == r[|r| - 1];
    } else {
      assert line[|line| - 1] == '=';
    }
  }

  lemma SplitAtFirstEquals(k: string, r: string, line: string)
    requires '=' !in k && line == k + "=" + r
    ensures '=' in line && IndexOf(line, '=') == |k| && line[..|k|] == k && line[|k| + 1..] == r
  {
    assert line[|k|] == '=';
    assert line[..|k|] == k;
    assert line[|k| + 1..] == r;
    IndexOfFirst(line, '=', |k|);
  }

  lemma IndexOfFirst(s: string, c: char, i: nat)
    requires i < |s| && s[i] == c && c !in s[..i]
    ensures IndexOf(s, c) == i
  {
  }

  /** Each line `save_config` writes for a saveable entry parses back to that entry. */
  lemma ParseEntryLine(k: string, v: Value)
    requires Saveable(k, v)
    ensures ParseLine(EntryLine((k, v))) == Some((k, v))
  {
    var r := RenderValue(v);
    RenderedValueShape(k, v);
    EntryLineParts(k, r);
    assert EntryLine((k, v)) == k + "=" + r;
    TypedValueOfRendered(k, v);
  }

  /** The rendered value parses back, under its key, to the value itself. */
  lemma TypedValueOfRendered(k: string, v: Value)
    requires Saveable(k, v)
    ensures TypedValue(k, RenderValue(v)) == Some(v)
  {
    if k in IntKeys {
      ParseIntOfNatText(v.i);
    } else if k in BoolKeys {
      ToBoolOfRendered(v.b);
    } else if k in ListKeys {
      ListItemsOfJoin(v.items, "");
      assert "" + Join(v.items, ", ") == Join(v.items, ", ");
    }
  }

  lemma {:induction false} ApplyEntryLines(d: Dict, c: Dict)
    requires forall i :: 0 <= i < |c| ==> Saveable(c[i].0, c[i].1)
    ensures ApplyLines(d, EntryLines(c)) == Overlay(d, c)
  {
    if c != [] {
      var pre := c[..|c| - 1];
      ApplyEntryLines(d, pre);
      var ls := EntryLines(c);
      assert ls[..|ls| - 1] == EntryLines(pre);
      ParseEntryLine(c[|c| - 1].0, c[|c| - 1].1);
    }
  }

  lemma {:induction false} OverlayKeepsTyped(d: Dict, c: Dict)
    requires Typed(d)
    requires forall i :: 0 <= i < |c| ==> Saveable(c[i].0, c[i].1)
    ensures Typed(Overlay(d, c))
  {
    if c != [] {
      var pre, e := c[..|c| - 1], c[|c| - 1];
      OverlayKeepsTyped(d, pre);
      assert Saveable(e.0, e.1);
      SetKeepsTyped(Overlay(d, pre), e.0, e.1);
    }
  }

  /**
   * Round trip: loading the text `save_config` writes for a dict of saveable
   * entries gives `DEFAULTS` with those entries assigned in order.
   */
  lemma SaveThenLoad(c: Dict)
    requires forall i :: 0 <= i < |c| ==> Saveable(c[i].0, c[i].1)
    ensures LoadSpec(Readable(ConfigText(c))) == Overlay(Defaults, c)
  {
    var loaded := ApplyLines(Defaults, Lines(ConfigText(c)));
    assert loaded == Overlay(Defaults, c) by {
      SavedEntriesApply(c);
    }
    DefaultsTyped();
    OverlayKeepsTyped(Defaults, c);
    NormalizeKeepsTyped(Overlay(Defaults, c));
  }

  lemma SavedEntriesApply(c: Dict)
    requires forall i :: 0 <= i < |c| ==> Saveable(c[i].0, c[i].1)
    ensures ApplyLines(Defaults, Lines(ConfigText(c))) == Overlay(Defaults, c)
  {
    EntryLinesUnbroken(c);
    SavedLines(c);
    BlankLastLine(Defaults, EntryLines(c));
    ApplyEntryLines(Defaults, c);
  }

  lemma EntryLinesUnbroken(c: Dict)
    requires forall i :: 0 <= i < |c| ==> Saveable(c[i].0, c[i].1)
    ensures forall i :: 0 <= i < |c| ==> NoLineBreak(EntryLine(c[i]))
  {
    forall i | 0 <= i < |c|
      ensures NoLineBreak(EntryLine(c[i]))
    {
      RenderedValueShape(c[i].0, c[i].1);
    }
  }

  /** A blank last line assigns nothing. */
  lemma BlankLastLine(d: Dict, ls: seq<string>)
    ensures ApplyLines(d, ls + [""]) == ApplyLines(d, ls)
  {
    assert (ls + [""])[..|ls|] == ls;
    assert Ignorable("");
  }

  /** The value of the last entry of `c` with key `k`. */
  function LastGet(c: Dict, k: string): Option<Value> {
    if c == [] then None
    else if c[|c| - 1].0 == k then Some(c[|c| - 1].1)
    else LastGet(c[..|c| - 1], k)
  }

  lemma {:induction false} GetOverlay(d: Dict, c: Dict, k: string)
    ensures Get(Overlay(d, c), k) == if LastGet(c, k).Some? then LastGet(c, k) else Get(d, k)
  {
    if c != [] {
      GetOverlay(d, c[..|c| - 1], k);
    }
  }

  lemma {:induction false} LastGetOfDistinct(c: Dict, k: string)
    requires DistinctKeys(c)
    ensures LastGet(c, k) == Get(c, k)
  {
    if c != [] {
      var pre := c[..|c| - 1];
      LastGetOfDistinct(pre, k);
      GetOfSnoc(pre, c[|c| - 1], k);
      assert pre + [c[|c| - 1]] == c;
      if c[|c| - 1].0 == k {
        GetAbsent(pre, k);
      }
    }
  }

  lemma {:induction false} GetOfSnoc(d: Dict, e: (string, Value), k: string)
    ensures Get(d + [e], k) == if Get(d, k).Some? then Get(d, k) else if e.0 == k then Some(e.1) else None
  {
    if d != [] {
      assert (d + [e])[1..] == d[1..] + [e];
      GetOfSnoc(d[1..], e, k);
    }
  }

  lemma {:induction false} GetAbsent(d: Dict, k: string)
    requires forall i :: 0 <= i < |d| ==> d[i].0 != k
    ensures Get(d, k) == None
  {
    if d != [] {
      GetAbsent(d[1..], k);
    }
  }

  /**
   * Round trip, key by key: after saving a dict of saveable entries and
   * loading it again, every key it holds has its value and every other key
   * its default.
   */
  lemma SaveThenLoadGet(c: Dict, k: string)
    requires DistinctKeys(c)
    requires forall i :: 0 <= i < |c| ==> Saveable(c[i].0, c[i].1)
    ensures Get(LoadSpec(Readable(ConfigText(c))), k) == if Get(c, k).Some? then Get(c, k) else Get(Defaults, k)
  {
    SaveThenLoad(c);
    GetOverlay(Defaults, c, k);
    LastGetOfDistinct(c, k);
  }
}
