/**
 * The line-driven parser of the audit exception list, and a printer it undoes.
 */
module AuditParser {
  import opened Prelude

  type Dict = map<string, string>

  // ------------------------------------------------------------------ Python strings

  /** The characters `str.strip` removes. */
  predicate IsSpace(c: char) {
    || '\t' <= c <= '\r' || '\U{1C}' <= c <= ' ' || c == '\U{85}' || c == '\U{A0}' || c == '\U{1680}'
    || '\U{2000}' <= c <= '\U{200A}' || c == '\U{2028}' || c == '\U{2029}' || c == '\U{202F}' || c == '\U{205F}' || c == '\U{3000}'
  }

  function StripLeft(s: string): string {
    if s != "" && IsSpace(s[0]) then StripLeft(s[1..]) else s
  }

  function StripRight(s: string): string {
    if s != "" && IsSpace(s[|s| - 1]) then StripRight(s[..|s| - 1]) else s
  }

  function Strip(s: string): string {
    StripRight(StripLeft(s))
  }

  /** The 29 characters that `str.isspace` accepts. */
  const SPACES := "\t\n\U{0B}\U{0C}\r\U{1C}\U{1D}\U{1E}\U{1F} \U{85}\U{A0}\U{1680}\U{2000}\U{2001}\U{2002}\U{2003}\U{2004}\U{2005}\U{2006}\U{2007}\U{2008}\U{2009}\U{200A}\U{2028}\U{2029}\U{202F}\U{205F}\U{3000}"

  /** Neither end is a space: `strip` leaves it alone. */
  predicate Trimmed(s: string) {
    s == "" || (!IsSpace(s[0]) && !IsSpace(s[|s| - 1]))
  }

  /** The index of the first colon, or the length. */
  function Colon(s: string): (k: nat)
    ensures k <= |s| && ':' !in s[..k] && (k < |s| ==> s[k] == ':')
  {
    if s == "" || s[0] == ':' then 0
    else
      var k := Colon(s[1..]);
      assert s[..k + 1] == [s[0]] + s[1..][..k];
      1 + k
  }

  /** `value[1:-1]` when the value is quoted; a lone quote becomes empty. */
  function Unquote(v: string): string {
    if v != "" && v[0] == v[|v| - 1] && (v[0] == '"' || v[0] == '\'') then
      if |v| == 1 then "" else v[1..|v| - 1]
    else v
  }

  /** `split_kv`; None stands for the ValueError of a line without a colon. */
  function SplitKV(line: string): Option<(string, string)> {
    var k := Colon(line);
    if k == |line| then None else Some((Strip(line[..k]), Unquote(Strip(line[k + 1..]))))
  }

  // ------------------------------------------------------------------ the parser

  /** The finished entries and the one being filled (None before the first item line). */
  datatype State = State(entries: seq<Dict>, current: Option<Dict>)

  predicate Ignored(line: string) {
    line == "" || line[0] == '#' || "version:" <= line || "exceptions:" <= line
  }

  predicate IsItem(line: string) {
    !Ignored(line) && "- " <= line
  }

  function Flushed(s: State): seq<Dict> {
    if s.current.Some? && s.current.value != map[] then s.entries + [s.current.value] else s.entries
  }

  /** One iteration of the loop over the file; None is the ValueError. */
  function Step(s: State, raw: string): Option<State> {
    var line := Strip(raw);
    if Ignored(line) then Some(s)
    else if "- " <= line then
      var rest := Strip(line[2..]);
      if rest == "" then Some(State(Flushed(s), Some(map[])))
      else match SplitKV(rest)
        case None => None
        case Some(kv) => Some(State(Flushed(s), Some(map[kv.0 := kv.1])))
    else if s.current.Some? && ':' in line then
      match SplitKV(line)
      case None => None
      case Some(kv) => Some(s.(current := Some(s.current.value[kv.0 := kv.1])))
    else Some(s)
  }

  function Steps(s: State, lines: seq<string>): Option<State>
    decreases |lines|
  {
    if lines == [] then Some(s)
    else match Step(s, lines[0])
      case None => None
      case Some(s') => Steps(s', lines[1..])
  }

  const START := State([], None)

  function Parse(lines: seq<string>): Option<seq<Dict>> {
    match Steps(START, lines)
    case None => None
    case Some(s) => Some(Flushed(s))
  }

  /** `parse_exceptions` over the lines of the file. */
  method ParseExceptions(lines: seq<string>) returns (r: Option<seq<Dict>>)
    ensures r == Parse(lines)
  {
    var entries: seq<Dict>, current: Option<Dict> := [], None;
    var i := 0;
    while i < |lines|
      invariant 0 <= i <= |lines|
      invariant Steps(START, lines) == Steps(State(entries, current), lines[i..])
    {
      var line := Strip(lines[i]);
      ghost var before := State(entries, current);
      assert lines[i..][1..] == lines[i + 1..];
      i := i + 1;
      if Ignored(line) {
        continue;
      }
      if "- " <= line {
        if current.Some? && current.value != map[] {
          entries := entries + [current.value];
        }
        current := Some(map[]);
        line := Strip(line[2..]);
        if line != "" {
          var kv := SplitKV(line);
          if kv.None? {
            return None;
          }
          current := Some(map[kv.value.0 := kv.value.1]);
        }
        continue;
      }
      if current.Some? && ':' in line {
        var kv := SplitKV(line);
        if kv.None? {
          return None;
        }
        current := Some(current.value[kv.value.0 := kv.value.1]);
      }
    }
    assert lines[i..] == [];
    if current.Some? && current.value != map[] {
      entries := entries + [current.value];
    }
    r := Some(entries);
  }

  // ------------------------------------------------------------------ facts about strip

  lemma {:induction false} StripLeftEnds(s: string)
    ensures var t := StripLeft(s); t == "" || !IsSpace(t[0])
    ensures var t := StripLeft(s); t != "" ==> s != "" && t[|t| - 1] == s[|s| - 1]
  {
    if s != "" && IsSpace(s[0]) {
      StripLeftEnds(s[1..]);
    }
  }

  lemma {:induction false} StripRightEnds(s: string)
    ensures var t := StripRight(s); t <= s && (t == "" || !IsSpace(t[|t| - 1]))
  {
    if s != "" && IsSpace(s[|s| - 1]) {
      StripRightEnds(s[..|s| - 1]);
    }
  }

  lemma StripTrims(s: string)
    ensures Trimmed(Strip(s))
  {
    StripLeftEnds(s);
    StripRightEnds(StripLeft(s));
  }

  lemma StripFixed(s: string)
    requires Trimmed(s)
    ensures Strip(s) == s
  {
  }

  /** A trimmed text behind leading spaces comes out unchanged. */
  lemma {:induction false} StripIndent(pad: string, s: string)
    requires Trimmed(s) && forall c :: c in pad ==> IsSpace(c)
    ensures Strip(pad + s) == s
  {
    if pad == "" {
      assert pad + s == s;
      StripFixed(s);
    } else {
      assert (pad + s)[1..] == pad[1..] + s;
      assert (pad + s)[0] == pad[0];
      StripIndent(pad[1..], s);
    }
  }

  /** Stripping removes spaces only, and all of them at both ends. */
  lemma StripIs(s: string) returns (lo: nat, hi: nat)
    ensures lo <= hi <= |s| && Strip(s) == s[lo..hi] && Trimmed(Strip(s))
    ensures forall i :: 0 <= i < lo || hi <= i < |s| ==> IsSpace(s[i])
  {
    StripTrims(s);
    lo := StripLeftIs(s);
    var n := StripRightIs(s[lo..]);
    hi := lo + n;
    assert forall i :: hi <= i < |s| ==> s[i] == s[lo..][i - lo];
  }

  lemma {:induction false} StripLeftIs(s: string) returns (lo: nat)
    ensures lo <= |s| && StripLeft(s) == s[lo..] && forall i :: 0 <= i < lo ==> IsSpace(s[i])
  {
    if s == "" || !IsSpace(s[0]) {
      lo := 0;
    } else {
      lo := StripLeftIs(s[1..]);
      assert s[1..][lo..] == s[lo + 1..] && forall i :: 1 <= i <= lo ==> s[i] == s[1..][i - 1];
      lo := lo + 1;
    }
  }

  lemma {:induction false} StripRightIs(s: string) returns (hi: nat)
    ensures hi <= |s| && StripRight(s) == s[..hi] && forall i :: hi <= i < |s| ==> IsSpace(s[i])
  {
    if s == "" || !IsSpace(s[|s| - 1]) {
      hi := |s|;
      assert s[..|s|] == s;
    } else {
      hi := StripRightIs(s[..|s| - 1]);
      assert s[..|s| - 1][..hi] == s[..hi] && forall i :: 0 <= i < |s| - 1 ==> s[..|s| - 1][i] == s[i];
    }
  }

  lemma SpacesAre(c: char)
    ensures IsSpace(c) <==> c in SPACES
  {
  }

  // ------------------------------------------------------------------ one entry per item

  function CountItems(lines: seq<string>): nat {
    if lines == [] then 0 else (if IsItem(Strip(lines[0])) then 1 else 0) + CountItems(lines[1..])
  }

  /** The item lines whose text has no colon: exactly what makes the parser raise. */
  predicate Malformed(raw: string) {
    IsItem(Strip(raw)) && ':' !in Strip(raw)
  }

  lemma ItemHasText(raw: string)
    requires IsItem(Strip(raw))
    ensures Strip(Strip(raw)[2..]) != ""
    ensures SplitKV(Strip(Strip(raw)[2..])).None? <==> Malformed(raw)
  {
    var line := Strip(raw);
    StripTrims(raw);
    assert line[1] == ' ' && IsSpace(line[1]) && |line| > 2;
    StripKeepsColon(line[2..]);
    assert line == line[..2] + line[2..] && line[0] == '-' && line[1] == ' ';
    KeepsLast(line[2..]);
    var k := Colon(Strip(line[2..]));
    assert k < |Strip(line[2..])| <==> ':' in Strip(line[2..]) by {
      assert Strip(line[2..])[..k] + Strip(line[2..])[k..] == Strip(line[2..]);
    }
  }

  /** Text that ends in a non-space does not strip to nothing. */
  lemma {:induction false} KeepsLast(s: string)
    requires s != "" && !IsSpace(s[|s| - 1])
    ensures Strip(s) != ""
  {
    if IsSpace(s[0]) {
      KeepsLast(s[1..]);
    }
  }

  lemma {:induction false} StripKeepsColon(s: string)
    ensures ':' in Strip(s) <==> ':' in s
  {
    StripLeftKeepsColon(s);
    StripRightKeepsColon(StripLeft(s));
  }

  lemma {:induction false} StripLeftKeepsColon(s: string)
    ensures ':' in StripLeft(s) <==> ':' in s
  {
    if s != "" && IsSpace(s[0]) {
      StripLeftKeepsColon(s[1..]);
      assert s == [s[0]] + s[1..];
    }
  }

  lemma {:induction false} StripRightKeepsColon(s: string)
    ensures ':' in StripRight(s) <==> ':' in s
  {
    if s != "" && IsSpace(s[|s| - 1]) {
      StripRightKeepsColon(s[..|s| - 1]);
      assert s == s[..|s| - 1] + [s[|s| - 1]];
    }
  }

  /** What holds between iterations: no entry is empty, neither a finished one nor the one being filled. */
  ghost predicate Filled(s: State) {
    s.current != Some(map[]) && forall e :: e in s.entries ==> e != map[]
  }

  lemma StepCounts(s: State, raw: string)
    requires Filled(s)
    ensures Step(s, raw).None? <==> Malformed(raw)
    ensures Step(s, raw).Some? ==>
              var s' := Step(s, raw).value;
              Filled(s') && |Flushed(s')| == |Flushed(s)| + (if IsItem(Strip(raw)) then 1 else 0)
  {
    if IsItem(Strip(raw)) {
      ItemStepCounts(s, raw);
    } else {
      OtherStepCounts(s, raw);
    }
  }

  lemma ItemStepCounts(s: State, raw: string)
    requires Filled(s) && IsItem(Strip(raw))
    ensures Step(s, raw).None? <==> Malformed(raw)
    ensures Step(s, raw).Some? ==> Filled(Step(s, raw).value) && |Flushed(Step(s, raw).value)| == |Flushed(s)| + 1
  {
    ItemHasText(raw);
    var kv := SplitKV(Strip(Strip(raw)[2..]));
    if kv.Some? {
      assert kv.value.0 in map[kv.value.0 := kv.value.1];
    }
  }

  lemma OtherStepCounts(s: State, raw: string)
    requires Filled(s) && !IsItem(Strip(raw))
    ensures Step(s, raw).Some? && Filled(Step(s, raw).value) && |Flushed(Step(s, raw).value)| == |Flushed(s)|
  {
    var line := Strip(raw);
    if !Ignored(line) && s.current.Some? && ':' in line {
      var k := Colon(line);
      assert line == line[..k] + line[k..];
      var kv := SplitKV(line);
      assert kv.value.0 in s.current.value[kv.value.0 := kv.value.1];
    }
  }

  lemma {:induction false} StepsCount(s: State, lines: seq<string>)
    requires Filled(s)
    ensures Steps(s, lines).None? <==> exists raw :: raw in lines && Malformed(raw)
    ensures Steps(s, lines).Some? ==>
              var s' := Steps(s, lines).value;
              Filled(s') && |Flushed(s')| == |Flushed(s)| + CountItems(lines)
    decreases |lines|
  {
    if lines == [] {
    } else {
      assert lines == [lines[0]] + lines[1..];
      StepCounts(s, lines[0]);
      if Step(s, lines[0]).Some? {
        StepsCount(Step(s, lines[0]).value, lines[1..]);
      }
    }
  }

  /**
   * The parser raises exactly when some item line has no colon; otherwise it returns
   * exactly one entry per line that starts an item, each with at least one field.
   */
  lemma OneEntryPerItem(lines: seq<string>)
    ensures Parse(lines).None? <==> exists raw :: raw in lines && Malformed(raw)
    ensures Parse(lines).Some? ==> |Parse(lines).value| == CountItems(lines) && forall e :: e in Parse(lines).value ==> e != map[]
  {
    StepsCount(START, lines);
  }

  // ------------------------------------------------------------------ printing and parsing back

  /** How a value is written: as it is, or between quotes. */
  datatype Style = Plain | Single | Double

  datatype Field = Field(key: string, value: string, style: Style)

  function PrintValue(f: Field): string {
    match f.style
    case Plain => f.value
    case Single => ['\''] + f.value + ['\'']
    case Double => ['"'] + f.value + ['"']
  }

  /** What follows the colon. */
  function AfterColon(f: Field): string {
    if PrintValue(f) == "" then "" else " " + PrintValue(f)
  }

  /** `key: value`, `key: 'value'` or `key: "value"` */
  function PrintField(f: Field): string {
    f.key + ":" + AfterColon(f)
  }

  function PrintRest(fs: seq<Field>): seq<string> {
    if fs == [] then [] else ["  " + PrintField(fs[0])] + PrintRest(fs[1..])
  }

  /** An entry as an item line for its first field and an indented line for each other one. */
  function PrintEntry(fs: seq<Field>): seq<string> {
    if fs == [] then [] else ["- " + PrintField(fs[0])] + PrintRest(fs[1..])
  }

  function Print(es: seq<seq<Field>>): seq<string> {
    if es == [] then [] else PrintEntry(es[0]) + Print(es[1..])
  }

  /** The dict these fields build one after the other. */
  function Built(d: Dict, fs: seq<Field>): Dict
    decreases |fs|
  {
    if fs == [] then d else Built(d[fs[0].key := fs[0].value], fs[1..])
  }

  predicate PlainKey(k: string) {
    Trimmed(k) && ':' !in k
  }

  /** A key that may stand at the start of a line: not a comment, an item or a header. */
  predicate LineKey(k: string) {
    PlainKey(k) && (k == "" || k[0] != '#') && !("- " <= k) && k != "version" && k != "exceptions"
  }

  /** A value that opens and closes with the same quote. */
  predicate LooksQuoted(v: string) {
    v != "" && v[0] == v[|v| - 1] && v[0] in {'"', '\''}
  }

  /** A value may be written as it is if it is trimmed and does not look quoted; any value may be quoted either way. */
  predicate Fits(f: Field) {
    PlainKey(f.key) && (f.style.Plain? ==> Trimmed(f.value) && !LooksQuoted(f.value))
  }

  /** A first field needs a plain key, the others one that may start a line. */
  predicate Printable(fs: seq<Field>) {
    fs != [] && (forall i :: 0 <= i < |fs| ==> Fits(fs[i])) && forall i :: 1 <= i < |fs| ==> LineKey(fs[i].key)
  }

  lemma {:induction false} ColonAt(k: string, rest: string)
    requires ':' !in k
    ensures Colon(k + ":" + rest) == |k|
  {
    var s := k + ":" + rest;
    if k != "" {
      assert s[1..] == k[1..] + ":" + rest;
      ColonAt(k[1..], rest);
    }
  }

  lemma ValueReadsBack(f: Field)
    requires Fits(f)
    ensures Strip(AfterColon(f)) == PrintValue(f) && Unquote(PrintValue(f)) == f.value
  {
    var v := PrintValue(f);
    if v != "" {
      StripIndent(" ", v);
    }
    if !f.style.Plain? {
      assert v[1..|v| - 1] == f.value;
    }
  }

  /** A lone quote counts as a quoted empty value. */
  lemma LoneQuote(q: char)
    requires q in {'"', '\''}
    ensures Unquote([q]) == ""
  {
  }

  lemma FieldSplits(f: Field)
    requires Fits(f)
    ensures SplitKV(PrintField(f)) == Some((f.key, f.value))
  {
    var line := PrintField(f);
    ColonAt(f.key, AfterColon(f));
    assert line[..|f.key|] == f.key && line[|f.key| + 1..] == AfterColon(f);
    StripFixed(f.key);
    ValueReadsBack(f);
  }

  lemma FieldTrimmed(f: Field)
    requires Fits(f)
    ensures Trimmed(PrintField(f)) && PrintField(f) != "" && !IsSpace(PrintField(f)[|PrintField(f)| - 1])
  {
    var line, v := PrintField(f), PrintValue(f);
    assert line[0] == if f.key == "" then ':' else f.key[0];
    assert line[|line| - 1] == if v == "" then ':' else v[|v| - 1];
  }

  /** A printed item line closes the entry before it and opens one with its field. */
  lemma ItemStep(s: State, f: Field)
    requires Fits(f)
    ensures Step(s, "- " + PrintField(f)) == Some(State(Flushed(s), Some(map[f.key := f.value])))
  {
    var line := "- " + PrintField(f);
    ItemLine(f);
    FieldSplits(f);
    assert Strip(Strip(line)[2..]) == PrintField(f);
  }

  lemma ItemLine(f: Field)
    requires Fits(f)
    ensures var line := "- " + PrintField(f);
            && Strip(line) == line && IsItem(line)
            && line[2..] == PrintField(f) && Strip(PrintField(f)) == PrintField(f) && PrintField(f) != ""
  {
    FieldTrimmed(f);
    StripFixed(PrintField(f));
    var line := "- " + PrintField(f);
    assert line[0] == '-' && line[|line| - 1] == PrintField(f)[|PrintField(f)| - 1];
    StripFixed(line);
  }

  /** A printed line starts with a colon-free word and a colon exactly when that word is its key. */
  lemma HeaderIsKey(w: string, k: string, rest: string)
    requires ':' !in w && ':' !in k
    ensures w + ":" <= k + ":" + rest <==> w == k
  {
    var s := k + ":" + rest;
    ColonAt(k, rest);
    if w + ":" <= s {
      assert s == w + ":" + s[|w| + 1..];
      ColonAt(w, s[|w| + 1..]);
      assert w == s[..|w|] && k == s[..|k|];
    }
  }

  lemma ItemIsKey(k: string, rest: string)
    ensures "- " <= k + ":" + rest <==> "- " <= k
  {
    var s := k + ":" + rest;
    if |k| >= 2 {
      assert s[0] == k[0] && s[1] == k[1];
    } else {
      assert s[|k|] == ':';
    }
  }

  /** A printed continuation line adds its field to the open entry. */
  lemma RestStep(s: State, f: Field)
    requires Fits(f) && LineKey(f.key) && s.current.Some?
    ensures Step(s, "  " + PrintField(f)) == Some(s.(current := Some(s.current.value[f.key := f.value])))
  {
    var line := PrintField(f);
    FieldSplits(f);
    FieldTrimmed(f);
    StripIndent("  ", line);
    assert !Ignored(line) && !("- " <= line) by { NotMarker(f); }
    assert line[|f.key|] == ':';
  }

  lemma NotMarker(f: Field)
    requires LineKey(f.key)
    ensures !Ignored(PrintField(f)) && !("- " <= PrintField(f))
  {
    var line := PrintField(f);
    HeaderIsKey("version", f.key, AfterColon(f));
    HeaderIsKey("exceptions", f.key, AfterColon(f));
    assert "version" + ":" == "version:" && "exceptions" + ":" == "exceptions:";
    ItemIsKey(f.key, AfterColon(f));
    assert line[0] == if f.key == "" then ':' else f.key[0];
  }

  lemma StepsCons(s: State, line: string, rest: seq<string>)
    ensures Steps(s, [line] + rest) == match Step(s, line) case None => None case Some(s') => Steps(s', rest)
  {
  }

  lemma {:induction false} RestSteps(s: State, fs: seq<Field>, more: seq<string>)
    requires s.current.Some? && forall i :: 0 <= i < |fs| ==> Fits(fs[i]) && LineKey(fs[i].key)
    ensures Steps(s, PrintRest(fs) + more) == Steps(s.(current := Some(Built(s.current.value, fs))), more)
    decreases |fs|
  {
    if fs == [] {
      assert PrintRest(fs) + more == more;
    } else {
      var line, rest := "  " + PrintField(fs[0]), PrintRest(fs[1..]) + more;
      assert PrintRest(fs) + more == [line] + rest;
      StepsCons(s, line, rest);
      RestStep(s, fs[0]);
      RestSteps(s.(current := Some(s.current.value[fs[0].key := fs[0].value])), fs[1..], more);
    }
  }

  function Dicts(es: seq<seq<Field>>): seq<Dict> {
    seq(|es|, i requires 0 <= i < |es| => Built(map[], es[i]))
  }

  lemma {:induction false} BuiltNotEmpty(d: Dict, fs: seq<Field>)
    requires d != map[] || fs != []
    ensures Built(d, fs) != map[]
    decreases |fs|
  {
    if fs == [] {
    } else {
      var d' := d[fs[0].key := fs[0].value];
      assert fs[0].key in d';
      BuiltNotEmpty(d', fs[1..]);
    }
  }

  /** A printed entry closes the one before it and leaves its own dict open. */
  lemma EntrySteps(s: State, e: seq<Field>, more: seq<string>)
    requires Printable(e)
    ensures Steps(s, PrintEntry(e) + more) == Steps(State(Flushed(s), Some(Built(map[], e))), more)
  {
    var item, rest := "- " + PrintField(e[0]), PrintRest(e[1..]) + more;
    assert PrintEntry(e) + more == [item] + rest;
    StepsCons(s, item, rest);
    ItemStep(s, e[0]);
    RestSteps(State(Flushed(s), Some(map[e[0].key := e[0].value])), e[1..], more);
    assert map[e[0].key := e[0].value] == map[][e[0].key := e[0].value];
  }

  lemma Regroup(a: seq<Dict>, d: Dict, b: seq<Dict>)
    ensures (a + [d]) + b == a + ([d] + b)
  {
  }

  /** The open entry is closed in front of the entries that follow. */
  lemma FlushedThen(s: State, e: seq<Field>, rest: seq<seq<Field>>)
    requires e != []
    ensures Flushed(State(Flushed(s), Some(Built(map[], e)))) + Dicts(rest) == Flushed(s) + Dicts([e] + rest)
  {
    BuiltNotEmpty(map[], e);
    assert Dicts([e] + rest) == [Built(map[], e)] + Dicts(rest);
    Regroup(Flushed(s), Built(map[], e), Dicts(rest));
  }

  lemma {:induction false} PrintedSteps(s: State, es: seq<seq<Field>>)
    requires forall e :: e in es ==> Printable(e)
    ensures Steps(s, Print(es)).Some? && Flushed(Steps(s, Print(es)).value) == Flushed(s) + Dicts(es)
    decreases |es|
  {
    if es == [] {
      assert Flushed(s) + Dicts(es) == Flushed(s);
    } else {
      assert es == [es[0]] + es[1..] && Printable(es[0]);
      EntrySteps(s, es[0], Print(es[1..]));
      PrintedSteps(State(Flushed(s), Some(Built(map[], es[0]))), es[1..]);
      FlushedThen(s, es[0], es[1..]);
    }
  }

  /** A line that says nothing: blank, a comment, a header, or text that is no item and has no colon. */
  predicate Noise(raw: string) {
    var line := Strip(raw);
    || line == "" || line[0] == '#' || "version:" <= line || "exceptions:" <= line
    || (!("- " <= line) && ':' !in line)
  }

  /** Such lines change nothing, wherever they stand. */
  lemma {:induction false} NoiseChangesNothing(s: State, lines: seq<string>)
    ensures Steps(s, lines) == Steps(s, Telling(lines))
    decreases |lines|
  {
    if lines == [] {
    } else {
      var rest := lines[1..];
      if Noise(lines[0]) {
        NoiseSteps(s, lines[0]);
        assert [] + Telling(rest) == Telling(rest);
        NoiseChangesNothing(s, rest);
      } else {
        assert ([lines[0]] + Telling(rest))[1..] == Telling(rest);
        if Step(s, lines[0]).Some? {
          NoiseChangesNothing(Step(s, lines[0]).value, rest);
        }
      }
    }
  }

  lemma NoiseSteps(s: State, raw: string)
    requires Noise(raw)
    ensures Step(s, raw) == Some(s)
  {
    if "- " <= Strip(raw) {
      assert Ignored(Strip(raw));
    }
  }

  /** The telling lines, in order. */
  function Telling(lines: seq<string>): seq<string> {
    if lines == [] then [] else (if Noise(lines[0]) then [] else [lines[0]]) + Telling(lines[1..])
  }

  /** Lines before the first item are ignored altogether. */
  lemma {:induction false} PreambleChangesNothing(before: seq<string>, lines: seq<string>)
    requires forall raw :: raw in before ==> !IsItem(Strip(raw))
    ensures Parse(before + lines) == Parse(lines)
  {
    if before == [] {
      assert before + lines == lines;
    } else {
      assert (before + lines)[1..] == before[1..] + lines && (before + lines)[0] == before[0];
      PreambleChangesNothing(before[1..], lines);
    }
  }

  /**
   * Parsing what was printed gives back the entries, with any lines that say nothing between
   * and around the printed ones.
   */
  lemma ParsePrinted(es: seq<seq<Field>>, lines: seq<string>)
    requires (forall e :: e in es ==> Printable(e)) && Telling(lines) == Print(es)
    ensures Parse(lines) == Some(Dicts(es))
  {
    NoiseChangesNothing(START, lines);
    PrintedSteps(START, es);
    assert Flushed(START) + Dicts(es) == Dicts(es);
  }

  /** The printed lines all tell something, so they are such a file by themselves. */
  lemma {:induction false} PrintedTells(es: seq<seq<Field>>)
    requires forall e :: e in es ==> Printable(e)
    ensures Telling(Print(es)) == Print(es)
    decreases |es|
  {
    if es == [] {
    } else {
      var e := es[0];
      assert e in es && forall x :: x in es[1..] ==> x in es;
      ItemTells(e[0]);
      RestTells(e[1..]);
      PrintedTells(es[1..]);
      TellingAppend(["- " + PrintField(e[0])], PrintRest(e[1..]));
      TellingAppend(PrintEntry(e), Print(es[1..]));
      assert Telling(["- " + PrintField(e[0])]) == ["- " + PrintField(e[0])];
    }
  }

  lemma ItemTells(f: Field)
    requires Fits(f)
    ensures !Noise("- " + PrintField(f))
  {
    ItemLine(f);
  }

  lemma {:induction false} RestTells(fs: seq<Field>)
    requires forall i :: 0 <= i < |fs| ==> Fits(fs[i]) && LineKey(fs[i].key)
    ensures Telling(PrintRest(fs)) == PrintRest(fs)
    decreases |fs|
  {
    if fs == [] {
    } else {
      var f := fs[0];
      FieldTrimmed(f);
      StripIndent("  ", PrintField(f));
      NotMarker(f);
      assert PrintField(f)[|f.key|] == ':';
      RestTells(fs[1..]);
    }
  }

  lemma {:induction false} TellingAppend(a: seq<string>, b: seq<string>)
    ensures Telling(a + b) == Telling(a) + Telling(b)
  {
    if a == [] {
      assert a + b == b;
    } else {
      assert (a + b)[0] == a[0] && (a + b)[1..] == a[1..] + b;
      TellingAppend(a[1..], b);
    }
  }

  // ------------------------------------------------------------------ the file as text

  /** A text-mode file ends a line at a newline or a carriage return; a pair of both adds a blank line, which is ignored. */
  predicate IsBreak(c: char) {
    c == '\n' || c == '\r'
  }

  function Lines(text: string): seq<string>
    decreases |text|
  {
    if text == "" then [] else
      var k := LineEnd(text);
      [text[..k]] + (if k == |text| then [] else Lines(text[k + 1..]))
  }

  function LineEnd(text: string): (k: nat)
    ensures k <= |text| && (k < |text| ==> IsBreak(text[k]))
  {
    if text == "" || IsBreak(text[0]) then 0 else 1 + LineEnd(text[1..])
  }

  function Text(lines: seq<string>): string {
    if lines == [] then "" else lines[0] + ['\n'] + Text(lines[1..])
  }

  predicate OneLine(s: string) {
    forall c :: c in s ==> !IsBreak(c)
  }

  lemma {:induction false} LineEndAt(line: string, rest: string)
    requires OneLine(line)
    ensures LineEnd(line + ['\n'] + rest) == |line|
  {
    var s := line + ['\n'] + rest;
    if line != "" {
      assert s[1..] == line[1..] + ['\n'] + rest;
      assert s[0] == line[0] && line[0] in line;
      LineEndAt(line[1..], rest);
    }
  }

  lemma {:induction false} LinesOfText(lines: seq<string>)
    requires forall l :: l in lines ==> OneLine(l)
    ensures Lines(Text(lines)) == lines
  {
    if lines == [] {
    } else {
      var text := Text(lines);
      LineEndAt(lines[0], Text(lines[1..]));
      assert text[..|lines[0]|] == lines[0] && text[|lines[0]| + 1..] == Text(lines[1..]);
      LinesOfText(lines[1..]);
      assert lines == [lines[0]] + lines[1..];
    }
  }

  /**
   * Round trip through the file: any list of non-empty entries, each value written plainly or
   * in either kind of quotes, with comments, blank lines and headers between them, comes back
   * from the text of the file as the same list of dicts.
   */
  lemma FileRoundTrip(es: seq<seq<Field>>, lines: seq<string>)
    requires (forall e :: e in es ==> Printable(e)) && Telling(lines) == Print(es) && forall l :: l in lines ==> OneLine(l)
    ensures Parse(Lines(Text(lines))) == Some(Dicts(es))
  {
    LinesOfText(lines);
    ParsePrinted(es, lines);
  }
}
