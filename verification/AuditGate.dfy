/**
 * The audit exception gate: findings extracted from the audit report, an index of the
 * exceptions that rejects duplicates, and a deduplicating scan. JSON decoding, date
 * parsing, lower-casing, `str` of a non-string value and today's date are parameters.
 */
module AuditGate {
  import opened Prelude
  import opened AuditParser

  // ------------------------------------------------------------------ Python values

  /** A decoded JSON value; the fields of an object keep their order and have distinct names. */
  datatype Json =
    | Null
    | Bool(b: bool)
    | Num(n: int)
    | Str(s: string)
    | Arr(items: seq<Json>)
    | Obj(fields: seq<(string, Json)>)

  /** What the model leaves to Python's libraries. */
  datatype Env = Env(lower: string -> string, show: Json -> string, parseDate: string -> Option<int>, today: int)

  predicate Truthy(j: Json) {
    match j
    case Null => false
    case Bool(b) => b
    case Num(n) => n != 0
    case Str(s) => s != ""
    case Arr(items) => items != []
    case Obj(fields) => fields != []
  }

  /** Python's `a or b or ...`. */
  function FirstTruthy(js: seq<Json>): Json
    requires js != []
  {
    if |js| == 1 || Truthy(js[0]) then js[0] else FirstTruthy(js[1..])
  }

  function Attr(fields: seq<(string, Json)>, key: string, default: Json): Json {
    if fields == [] then default
    else if fields[0].0 == key then fields[0].1
    else Attr(fields[1..], key, default)
  }

  function Get(fields: seq<(string, Json)>, key: string): Json { Attr(fields, key, Null) }

  /** `str(j)`. */
  function PyStr(env: Env, j: Json): string { if j.Str? then j.s else env.show(j) }

  // ------------------------------------------------------------------ findings

  datatype Finding = Finding(name: Json, severity: Json, advisory: Json, title: Json)

  /** `(advisory.get("cves") or [None])[0]`; None stands for the TypeError or KeyError. */
  function FirstCve(cves: Json): Option<Json> {
    if !Truthy(cves) then Some(Null)
    else match cves
      case Arr(items) => Some(items[0])
      case Str(s) => Some(Str(s[..1]))
      case _ => None
  }

  /** `str(id)`, unless there is none. */
  function IdText(env: Env, a: seq<(string, Json)>): Json {
    if Get(a, "id") != Null then Str(PyStr(env, Get(a, "id"))) else Null
  }

  /** `pick_advisory_id`; the CVE list is looked at only when nothing before it is there. */
  function PickAdvisory(env: Env, a: seq<(string, Json)>): Option<Json> {
    var stable := FirstTruthy([Get(a, "github_advisory_id"), Get(a, "url")]);
    if Truthy(stable) then Some(stable)
    else match FirstCve(Get(a, "cves"))
      case None => None
      case Some(cve) => Some(FirstTruthy([cve, IdText(env, a), Get(a, "title"), Get(a, "advisory"), Get(a, "overview")]))
  }

  /** One entry of "advisories"; None when it is not an object or its CVE list is not a list. */
  function AdvisoryFinding(env: Env, advisory: Json): Option<seq<Finding>> {
    if !advisory.Obj? then None
    else
      var a := advisory.fields;
      match PickAdvisory(env, a)
      case None => None
      case Some(id) =>
        Some([Finding(FirstTruthy([Get(a, "module_name"), Get(a, "name")]), Get(a, "severity"), id,
                      FirstTruthy([Get(a, "title"), Get(a, "advisory"), Get(a, "overview"), Get(a, "url")]))])
  }

  /** What a "via" value names: objects and strings, alone or in a list; other values name nothing. */
  function ViaSources(via: Json): seq<Json> {
    match via
    case Arr(items) => Filter(items, (item: Json) => item.Obj? || item.Str?)
    case Str(_) => [via]
    case _ => []
  }

  function IdOf(source: Json): Json {
    match source
    case Obj(v) => FirstTruthy([Get(v, "github_advisory_id"), Get(v, "url"), Get(v, "source"), Get(v, "title"), Get(v, "name")])
    case _ => source
  }

  function TitleOf(source: Json): Json {
    match source
    case Obj(v) => FirstTruthy([Get(v, "title"), Get(v, "url"), Get(v, "advisory"), Get(v, "source")])
    case _ => source
  }

  /** `"; ".join` raises on a title that is truthy and not a string. */
  predicate TitlesJoin(sources: seq<Json>) {
    forall i :: 0 <= i < |sources| && Truthy(TitleOf(sources[i])) ==> TitleOf(sources[i]).Str?
  }

  function Texts(sources: seq<Json>): seq<string>
    requires TitlesJoin(sources)
  {
    if sources == [] then []
    else
      var title := TitleOf(sources[|sources| - 1]);
      Texts(sources[..|sources| - 1]) + (if Truthy(title) then [title.s] else [])
  }

  /** `"; ".join(texts)`. */
  function Join(texts: seq<string>): string {
    if texts == [] then "" else if |texts| == 1 then texts[0] else texts[0] + "; " + Join(texts[1..])
  }

  function ViaFindings(name: string, severity: Json, sources: seq<Json>, title: string): seq<Finding> {
    if sources == [] then []
    else
      var id := IdOf(sources[|sources| - 1]);
      ViaFindings(name, severity, sources[..|sources| - 1], title) +
      (if Truthy(id) then [Finding(Str(name), severity, id, Str(title))] else [])
  }

  /** One entry of "vulnerabilities"; None for the AttributeError or the TypeError of `join`. */
  function VulnerabilityFindings(name: string, vuln: Json): Option<seq<Finding>> {
    if !vuln.Obj? then None
    else
      var sources := ViaSources(Attr(vuln.fields, "via", Arr([])));
      if !TitlesJoin(sources) then None
      else Some(ViaFindings(name, Get(vuln.fields, "severity"), sources, Join(Texts(sources))))
  }

  function OfAdvisory(env: Env): ((string, Json)) -> Option<seq<Finding>> {
    (entry: (string, Json)) => AdvisoryFinding(env, entry.1)
  }

  function OfVulnerability(): ((string, Json)) -> Option<seq<Finding>> {
    (entry: (string, Json)) => VulnerabilityFindings(entry.0, entry.1)
  }

  function Entries(j: Json): seq<(string, Json)> { if j.Obj? then j.fields else [] }

  /** `iter_vulns`; None when it raises. */
  function Findings(env: Env, audit: Json): Option<seq<Finding>> {
    if !audit.Obj? then None
    else match (Collect(Entries(Get(audit.fields, "advisories")), OfAdvisory(env)),
                Collect(Entries(Get(audit.fields, "vulnerabilities")), OfVulnerability()))
      case (Some(a), Some(v)) => Some(a + v)
      case _ => None
  }

  // ------------------------------------------------------------------ normalizers

  type Key = (string, string)

  /** `normalize_severity`; None for a truthy value that is not a string. */
  function NormSeverity(env: Env, j: Json): Option<string> {
    if !Truthy(j) then Some("") else if j.Str? then Some(env.lower(Strip(j.s))) else None
  }

  function NormPackage(env: Env, j: Json): string {
    if j == Null then "" else Strip(PyStr(env, j))
  }

  function NormAdvisory(env: Env, j: Json): string {
    if j == Null then "" else env.lower(Strip(PyStr(env, j)))
  }

  predicate High(sev: string) { sev == "high" || sev == "critical" }

  /** What the scan makes of one finding. */
  datatype Class = Raises | Skipped | NoAdvisory | Counted(key: Key, sev: string)

  function Classify(env: Env, f: Finding): Class {
    match NormSeverity(env, f.severity)
    case None => Raises
    case Some(sev) =>
      if !High(sev) || !Truthy(f.name) then Skipped
      else
        var advisory := NormAdvisory(env, f.advisory);
        if advisory == "" then NoAdvisory else Counted((NormPackage(env, f.name), advisory), sev)
  }

  /** `iter_vulns` as it runs. */
  method IterVulns(env: Env, audit: Json) returns (r: Option<seq<Finding>>)
    ensures r == Findings(env, audit)
  {
    if !audit.Obj? {
      return None;
    }
    var advisories := AdvisoryLoop(env, Entries(Get(audit.fields, "advisories")));
    if advisories.None? {
      return None;
    }
    var vulns := VulnerabilityLoop(Entries(Get(audit.fields, "vulnerabilities")));
    if vulns.None? {
      return None;
    }
    return Some(advisories.value + vulns.value);
  }

  method AdvisoryLoop(env: Env, entries: seq<(string, Json)>) returns (r: Option<seq<Finding>>)
    ensures r == Collect(entries, OfAdvisory(env))
  {
    var found: seq<Finding> := [];
    for i := 0 to |entries|
      invariant Collect(entries[..i], OfAdvisory(env)) == Some(found)
    {
      CollectSnoc(entries, OfAdvisory(env), i);
      var advisory := entries[i].1;
      if !advisory.Obj? {
        CollectStops(entries, OfAdvisory(env), i);
        return None;
      }
      var a := advisory.fields;
      var id := PickAdvisory(env, a);
      if id.None? {
        CollectStops(entries, OfAdvisory(env), i);
        return None;
      }
      var name := FirstTruthy([Get(a, "module_name"), Get(a, "name")]);
      var title := FirstTruthy([Get(a, "title"), Get(a, "advisory"), Get(a, "overview"), Get(a, "url")]);
      found := found + [Finding(name, Get(a, "severity"), id.value, title)];
    }
    assert entries[..|entries|] == entries;
    return Some(found);
  }

  method VulnerabilityLoop(entries: seq<(string, Json)>) returns (r: Option<seq<Finding>>)
    ensures r == Collect(entries, OfVulnerability())
  {
    var found: seq<Finding> := [];
    for i := 0 to |entries|
      invariant Collect(entries[..i], OfVulnerability()) == Some(found)
    {
      CollectSnoc(entries, OfVulnerability(), i);
      var fs := VulnFindings(entries[i].0, entries[i].1);
      if fs.None? {
        CollectStops(entries, OfVulnerability(), i);
        return None;
      }
      found := found + fs.value;
    }
    assert entries[..|entries|] == entries;
    return Some(found);
  }

  /** The two lists that the loop over a "via" value fills. */
  method CollectVia(via: Json) returns (advisories: seq<Json>, titles: seq<Json>)
    ensures |advisories| == |titles| == |ViaSources(via)|
    ensures forall i :: 0 <= i < |titles| ==> advisories[i] == IdOf(ViaSources(via)[i]) && titles[i] == TitleOf(ViaSources(via)[i])
  {
    advisories, titles := [], [];
    if via.Arr? {
      ghost var named := (item: Json) => item.Obj? || item.Str?;
      for i := 0 to |via.items|
        invariant |advisories| == |titles| == |Filter(via.items[..i], named)|
        invariant forall j :: 0 <= j < |titles| ==>
                    advisories[j] == IdOf(Filter(via.items[..i], named)[j]) && titles[j] == TitleOf(Filter(via.items[..i], named)[j])
      {
        FilterSnoc(via.items, named, i);
        var item := via.items[i];
        if item.Obj? {
          var v := item.fields;
          advisories := advisories + [FirstTruthy([Get(v, "github_advisory_id"), Get(v, "url"), Get(v, "source"), Get(v, "title"), Get(v, "name")])];
          titles := titles + [FirstTruthy([Get(v, "title"), Get(v, "url"), Get(v, "advisory"), Get(v, "source")])];
        } else if item.Str? {
          advisories := advisories + [item];
          titles := titles + [item];
        }
      }
      assert via.items[..|via.items|] == via.items;
    } else if via.Str? {
      advisories := [via];
      titles := [via];
    }
  }

  /** `"; ".join([t for t in titles if t])`; None when it raises. */
  method JoinTitles(titles: seq<Json>, ghost sources: seq<Json>) returns (title: Option<string>)
    requires |titles| == |sources| && forall i :: 0 <= i < |titles| ==> titles[i] == TitleOf(sources[i])
    ensures title == if TitlesJoin(sources) then Some(Join(Texts(sources))) else None
  {
    var texts: seq<string> := [];
    for i := 0 to |titles|
      invariant TitlesJoin(sources[..i]) && texts == Texts(sources[..i])
    {
      assert sources[..i + 1][..i] == sources[..i] && sources[..i + 1][i] == sources[i];
      if Truthy(titles[i]) {
        if !titles[i].Str? {
          assert !TitlesJoin(sources);
          return None;
        }
        texts := texts + [titles[i].s];
      }
    }
    assert sources[..|titles|] == sources;
    return Some(Join(texts));
  }

  /** The body of the loop over "vulnerabilities". */
  method VulnFindings(name: string, vuln: Json) returns (r: Option<seq<Finding>>)
    ensures r == VulnerabilityFindings(name, vuln)
  {
    if !vuln.Obj? {
      return None;
    }
    var severity := Get(vuln.fields, "severity");
    var via := Attr(vuln.fields, "via", Arr([]));
    var advisories, titles := CollectVia(via);
    ghost var sources := ViaSources(via);
    var title := JoinTitles(titles, sources);
    if title.None? {
      return None;
    }
    var found: seq<Finding> := [];
    for i := 0 to |advisories|
      invariant found == ViaFindings(name, severity, sources[..i], title.value)
    {
      assert sources[..i + 1][..i] == sources[..i];
      if Truthy(advisories[i]) {
        found := found + [Finding(Str(name), severity, advisories[i], Str(title.value))];
      }
    }
    assert sources[..|advisories|] == sources;
    return Some(found);
  }

  // ------------------------------------------------------------------ the exception index

  datatype Entry = Entry(severity: string, expires: int)

  /** `exc.get(field)`, with a missing field read as the empty string. */
  function Value(exc: Dict, field: string): string { if field in exc then exc[field] else "" }

  predicate Complete(exc: Dict) {
    && Value(exc, "package") != "" && Value(exc, "advisory") != "" && Value(exc, "severity") != ""
    && Value(exc, "mitigation") != "" && Value(exc, "expires_on") != ""
  }

  function KeyOf(env: Env, exc: Dict): Key {
    (Strip(Value(exc, "package")), env.lower(Strip(Value(exc, "advisory"))))
  }

  /** Complete, validly dated and with a non-empty key. */
  predicate Usable(env: Env, exc: Dict) {
    Complete(exc) && env.parseDate(Value(exc, "expires_on")).Some? && KeyOf(env, exc).0 != "" && KeyOf(env, exc).1 != ""
  }

  function EntryOf(env: Env, exc: Dict): Entry
    requires Usable(env, exc)
  {
    Entry(env.lower(Strip(Value(exc, "severity"))), env.parseDate(Value(exc, "expires_on")).value)
  }

  /** What an exception contributes to the index, if it is usable. */
  function Slot(env: Env, exc: Dict): Option<(Key, Entry)> {
    if Usable(env, exc) then Some((KeyOf(env, exc), EntryOf(env, exc))) else None
  }

  function Slots(env: Env, excs: seq<Dict>): seq<Option<(Key, Entry)>> {
    seq(|excs|, i requires 0 <= i < |excs| => Slot(env, excs[i]))
  }

  function AddSlot(index: map<Key, Entry>, errors: nat, slot: Option<(Key, Entry)>): (map<Key, Entry>, nat) {
    if slot.None? || slot.value.0 in index then (index, errors + 1) else (index[slot.value.0 := slot.value.1], errors)
  }

  /** The index and the number of exceptions that were reported instead of indexed. */
  function Indexed(slots: seq<Option<(Key, Entry)>>): (map<Key, Entry>, nat) {
    if slots == [] then (map[], 0)
    else
      var before := Indexed(slots[..|slots| - 1]);
      AddSlot(before.0, before.1, slots[|slots| - 1])
  }

  /** The checks that the first loop of `main` makes on one exception; None when it is reported. */
  method ReadException(env: Env, exc: Dict) returns (slot: Option<(Key, Entry)>)
    ensures slot == Slot(env, exc)
  {
    if !Complete(exc) {
      return None;
    }
    var date := env.parseDate(Value(exc, "expires_on"));
    if date.None? {
      return None;
    }
    var key := KeyOf(env, exc);
    if key.0 == "" || key.1 == "" {
      return None;
    }
    return Some((key, Entry(env.lower(Strip(Value(exc, "severity"))), date.value)));
  }

  lemma IndexedSnoc(slots: seq<Option<(Key, Entry)>>, i: nat, slot: Option<(Key, Entry)>)
    requires i < |slots| && slots[i] == slot
    ensures Indexed(slots[..i + 1]) == AddSlot(Indexed(slots[..i]).0, Indexed(slots[..i]).1, slot)
  {
    assert slots[..i + 1][..i] == slots[..i];
  }

  /** One iteration: the exception is indexed, or reported. */
  method IndexOne(env: Env, exc: Dict, index: map<Key, Entry>, errors: nat) returns (index': map<Key, Entry>, errors': nat)
    ensures (index', errors') == AddSlot(index, errors, Slot(env, exc))
  {
    var slot := ReadException(env, exc);
    index', errors' := index, errors;
    if slot.None? || slot.value.0 in index {
      errors' := errors + 1;
    } else {
      index' := index[slot.value.0 := slot.value.1];
    }
  }

  /** The first loop of `main`. */
  method BuildIndex(env: Env, excs: seq<Dict>) returns (index: map<Key, Entry>, errors: nat)
    ensures (index, errors) == Indexed(Slots(env, excs))
  {
    index, errors := map[], 0;
    for i := 0 to |excs|
      invariant (index, errors) == Indexed(Slots(env, excs)[..i])
    {
      IndexedSnoc(Slots(env, excs), i, Slot(env, excs[i]));
      index, errors := IndexOne(env, excs[i], index, errors);
    }
    assert Slots(env, excs)[..|excs|] == Slots(env, excs);
  }

  // ------------------------------------------------------------------ the scan

  /** What the scan collected; `errors` counts missing advisory IDs and severity mismatches. */
  datatype Report = Report(seen: set<Key>, missing: seq<Key>, expired: seq<Key>, errors: nat)

  predicate Clean(r: Report) {
    r.missing == [] && r.expired == [] && r.errors == 0
  }

  predicate Mismatch(index: map<Key, Entry>, key: Key, sev: string) {
    key in index && index[key].severity != "" && index[key].severity != sev
  }

  /** A counted finding looked up in the index. */
  function Judged(r: Report, index: map<Key, Entry>, today: int, key: Key, sev: string): Report {
    if key !in index then r.(missing := r.missing + [key])
    else
      r.(errors := r.errors + (if Mismatch(index, key, sev) then 1 else 0),
         expired := if index[key].expires < today then r.expired + [key] else r.expired)
  }

  function ScanStep(r: Report, index: map<Key, Entry>, today: int, c: Class): Report {
    match c
    case Raises => r
    case Skipped => r
    case NoAdvisory => r.(errors := r.errors + 1)
    case Counted(key, sev) => if key in r.seen then r else Judged(r.(seen := r.seen + {key}), index, today, key, sev)
  }

  const BLANK := Report({}, [], [], 0)

  function Scanned(cs: seq<Class>, index: map<Key, Entry>, today: int): Report {
    if cs == [] then BLANK else ScanStep(Scanned(cs[..|cs| - 1], index, today), index, today, cs[|cs| - 1])
  }

  function Classes(env: Env, fs: seq<Finding>): seq<Class> {
    seq(|fs|, i requires 0 <= i < |fs| => Classify(env, fs[i]))
  }

  /** The second loop of `main`; None when a severity is not a string. */
  method ScanFindings(env: Env, fs: seq<Finding>, index: map<Key, Entry>) returns (r: Option<Report>)
    ensures r == if Raises in Classes(env, fs) then None else Some(Scanned(Classes(env, fs), index, env.today))
  {
    ghost var cs := Classes(env, fs);
    var seen: set<Key>, missing: seq<Key>, expired: seq<Key>, errors := {}, [], [], 0;
    for i := 0 to |fs|
      invariant Raises !in cs[..i]
      invariant Report(seen, missing, expired, errors) == Scanned(cs[..i], index, env.today)
    {
      assert cs[..i + 1][..i] == cs[..i] && cs[..i + 1] == cs[..i] + [cs[i]];
      var sev := NormSeverity(env, fs[i].severity);
      if sev.None? {
        assert cs[i] == Raises;
        return None;
      }
      if !High(sev.value) || !Truthy(fs[i].name) {
        continue;
      }
      var advisory := NormAdvisory(env, fs[i].advisory);
      if advisory == "" {
        errors := errors + 1;
        continue;
      }
      var key := (NormPackage(env, fs[i].name), advisory);
      if key in seen {
        continue;
      }
      seen := seen + {key};
      if key !in index {
        missing := missing + [key];
        continue;
      }
      if index[key].severity != "" && index[key].severity != sev.value {
        errors := errors + 1;
      }
      if index[key].expires < env.today {
        expired := expired + [key];
      }
    }
    assert cs[..|fs|] == cs;
    return Some(Report(seen, missing, expired, errors));
  }

  // ------------------------------------------------------------------ the verdict

  datatype Exit = Validated | Rejected | Raised

  /** `main` on the decoded report and the lines of the exception file. */
  method Gate(env: Env, audit: Json, lines: seq<string>) returns (exit: Exit)
    ensures exit == Verdict(env, audit, lines)
  {
    var excs := ParseExceptions(lines);
    if excs.None? {
      return Raised;
    }
    var index, errors := BuildIndex(env, excs.value);
    var fs := IterVulns(env, audit);
    if fs.None? {
      return Raised;
    }
    var report := ScanFindings(env, fs.value, index);
    if report.None? {
      return Raised;
    }
    return if errors == 0 && Clean(report.value) then Validated else Rejected;
  }

  function Verdict(env: Env, audit: Json, lines: seq<string>): Exit {
    match (Parse(lines), Findings(env, audit))
    case (Some(excs), Some(fs)) =>
      var cs := Classes(env, fs);
      var indexed := Indexed(Slots(env, excs));
      if Raises in cs then Raised
      else if indexed.1 == 0 && Clean(Scanned(cs, indexed.0, env.today)) then Validated
      else Rejected
    case _ => Raised
  }
}
