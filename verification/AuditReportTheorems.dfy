/**
 * What the audit report means to the gate: which findings it yields, and exactly which
 * reports and exception files make the gate raise instead of deciding.
 */
module AuditReportTheorems {
  import opened Prelude
  import opened AuditParser
  import opened AuditGate
  import opened AuditGateTheorems

  // ------------------------------------------------------------------ Python values

  /** The falsy values. */
  lemma FalsyAre(j: Json)
    ensures !Truthy(j) <==> j in {Null, Bool(false), Num(0), Str(""), Arr([]), Obj([])}
  {
  }

  /** `get`: the value of the field with this name, or the default if there is none. */
  lemma {:induction false} AttrIs(fields: seq<(string, Json)>, key: string, default: Json)
    ensures (exists i :: 0 <= i < |fields| && fields[i].0 == key && Attr(fields, key, default) == fields[i].1) ||
            (Attr(fields, key, default) == default && forall i :: 0 <= i < |fields| ==> fields[i].0 != key)
  {
    if fields == [] {
    } else if fields[0].0 == key {
      assert Attr(fields, key, default) == fields[0].1;
    } else {
      AttrIs(fields[1..], key, default);
      if i :| 0 <= i < |fields[1..]| && fields[1..][i].0 == key && Attr(fields, key, default) == fields[1..][i].1 {
        assert fields[i + 1].0 == key;
      } else {
        assert forall i :: 1 <= i < |fields| ==> fields[i] == fields[1..][i - 1];
      }
    }
  }

  /** Joining one more text puts the separator before it, unless it is the first. */
  lemma {:induction false} JoinSnoc(texts: seq<string>, text: string)
    ensures Join(texts + [text]) == if texts == [] then text else Join(texts) + "; " + text
  {
    if texts == [] {
    } else {
      JoinSnoc(texts[1..], text);
      assert (texts + [text])[1..] == texts[1..] + [text];
      if |texts| > 1 {
        assert texts[0] + "; " + (Join(texts[1..]) + "; " + text) == (texts[0] + "; " + Join(texts[1..])) + "; " + text;
      } else {
        assert texts[1..] == [];
      }
    }
  }

  // ------------------------------------------------------------------ choosing among candidates

  /** `j` is the first truthy candidate, or the last one if none is truthy. */
  ghost predicate Picks(candidates: seq<Json>, j: Json) {
    exists i :: 0 <= i < |candidates| && PicksAt(candidates, j, i)
  }

  ghost predicate PicksAt(candidates: seq<Json>, j: Json, i: nat)
    requires i < |candidates|
  {
    candidates[i] == j && (Truthy(j) || i == |candidates| - 1) && forall k :: 0 <= k < i ==> !Truthy(candidates[k])
  }

  lemma {:induction false} FirstTruthyIsPicked(candidates: seq<Json>, j: Json)
    requires candidates != []
    ensures Picks(candidates, j) <==> j == FirstTruthy(candidates)
    decreases |candidates|
  {
    if |candidates| == 1 || Truthy(candidates[0]) {
      assert PicksAt(candidates, candidates[0], 0);
    } else {
      var rest := candidates[1..];
      FirstTruthyIsPicked(rest, j);
      if Picks(candidates, j) {
        var i :| 0 <= i < |candidates| && PicksAt(candidates, j, i);
        assert PicksAt(rest, j, i - 1);
      }
      if Picks(rest, j) {
        var i :| 0 <= i < |rest| && PicksAt(rest, j, i);
        assert PicksAt(candidates, j, i + 1);
      }
    }
  }

  // ------------------------------------------------------------------ "advisories"

  /** An entry that cannot be read: no object, or an ID that must come from something that is no list of CVEs. */
  predicate BadAdvisory(advisory: Json) {
    || !advisory.Obj?
    || (var a := advisory.fields;
        && !Truthy(Get(a, "github_advisory_id")) && !Truthy(Get(a, "url"))
        && Truthy(Get(a, "cves")) && !Get(a, "cves").Arr? && !Get(a, "cves").Str?)
  }

  /** The first CVE of a list, the first character of a text, or nothing. */
  function CveOf(a: seq<(string, Json)>): Json {
    match Get(a, "cves")
    case Arr(items) => if items == [] then Null else items[0]
    case Str(s) => if s == "" then Null else Str([s[0]])
    case _ => Null
  }

  /** The ID as text, if there is one. */
  function NumberOf(env: Env, a: seq<(string, Json)>): Json {
    match Get(a, "id")
    case Null => Null
    case Str(s) => Str(s)
    case other => Str(env.show(other))
  }

  /** The finding of an entry: its ID is the first that is there among seven candidates. */
  ghost predicate FromAdvisory(env: Env, advisory: Json, f: Finding) {
    && advisory.Obj?
    && var a := advisory.fields;
       && Picks([Get(a, "github_advisory_id"), Get(a, "url"), CveOf(a), NumberOf(env, a), Get(a, "title"), Get(a, "advisory"), Get(a, "overview")], f.advisory)
       && Picks([Get(a, "module_name"), Get(a, "name")], f.name)
       && Picks([Get(a, "title"), Get(a, "advisory"), Get(a, "overview"), Get(a, "url")], f.title)
       && f.severity == Get(a, "severity")
  }

  lemma ChainedChoice(a: Json, b: Json, rest: seq<Json>)
    requires rest != []
    ensures FirstTruthy([a, b] + rest) == if Truthy(FirstTruthy([a, b])) then FirstTruthy([a, b]) else FirstTruthy(rest)
  {
    assert ([a, b] + rest)[1..] == [b] + rest && ([b] + rest)[1..] == rest;
  }

  lemma CveIs(a: seq<(string, Json)>)
    ensures var cves := Get(a, "cves");
            && (FirstCve(cves).None? <==> Truthy(cves) && !cves.Arr? && !cves.Str?)
            && (FirstCve(cves).Some? ==> FirstCve(cves).value == CveOf(a))
  {
    var cves := Get(a, "cves");
    if cves.Str? && cves.s != "" {
      assert cves.s[..1] == [cves.s[0]];
    }
  }

  lemma AdvisoryExactly(env: Env, advisory: Json, f: Finding)
    ensures AdvisoryFinding(env, advisory).None? <==> BadAdvisory(advisory)
    ensures !BadAdvisory(advisory) ==> (f in AdvisoryFinding(env, advisory).value <==> FromAdvisory(env, advisory, f))
  {
    if advisory.Obj? {
      var a := advisory.fields;
      var late := [CveOf(a), NumberOf(env, a), Get(a, "title"), Get(a, "advisory"), Get(a, "overview")];
      ChainedChoice(Get(a, "github_advisory_id"), Get(a, "url"), late);
      assert NumberOf(env, a) == IdText(env, a);
      CveIs(a);
      var all := [Get(a, "github_advisory_id"), Get(a, "url"), CveOf(a), NumberOf(env, a), Get(a, "title"), Get(a, "advisory"), Get(a, "overview")];
      assert [Get(a, "github_advisory_id"), Get(a, "url")] + late == all;
      FirstTruthyIsPicked(all, f.advisory);
      FirstTruthyIsPicked([Get(a, "module_name"), Get(a, "name")], f.name);
      FirstTruthyIsPicked([Get(a, "title"), Get(a, "advisory"), Get(a, "overview"), Get(a, "url")], f.title);
    }
  }

  // ------------------------------------------------------------------ "vulnerabilities"

  /** An object whose chosen title is there and no string. */
  ghost predicate BadTitle(item: Json) {
    && item.Obj?
    && var v := item.fields;
       exists title :: Picks([Get(v, "title"), Get(v, "url"), Get(v, "advisory"), Get(v, "source")], title) && Truthy(title) && !title.Str?
  }

  /** An entry that cannot be read: no object, or a "via" list with a title that cannot be joined. */
  ghost predicate BadVulnerability(vuln: Json) {
    || !vuln.Obj?
    || (var via := Attr(vuln.fields, "via", Arr([]));
        via.Arr? && exists item :: item in via.items && BadTitle(item))
  }

  /** `item` is what "via" names, alone or in its list. */
  ghost predicate Mentions(via: Json, item: Json) {
    (item.Str? && via == item) || (via.Arr? && item in via.items && (item.Obj? || item.Str?))
  }

  ghost predicate NamesAdvisory(item: Json, j: Json) {
    if item.Obj? then
      var v := item.fields;
      Picks([Get(v, "github_advisory_id"), Get(v, "url"), Get(v, "source"), Get(v, "title"), Get(v, "name")], j)
    else j == item
  }

  /** A finding of an entry: one for each item of "via" that names an advisory, with the joined titles of all items. */
  ghost predicate FromVulnerability(name: string, vuln: Json, f: Finding) {
    && vuln.Obj? && f.name == Str(name) && f.severity == Get(vuln.fields, "severity")
    && var via := Attr(vuln.fields, "via", Arr([]));
       && TitlesJoin(ViaSources(via)) && f.title == Str(Join(Texts(ViaSources(via))))
       && Truthy(f.advisory) && exists item :: Mentions(via, item) && NamesAdvisory(item, f.advisory)
  }

  lemma SourcesAreNamed(via: Json, item: Json)
    ensures item in ViaSources(via) <==> Mentions(via, item)
  {
    if via.Arr? {
      FilterMember(via.items, (item: Json) => item.Obj? || item.Str?, item);
    }
  }

  lemma IdIsNamed(item: Json, j: Json)
    ensures NamesAdvisory(item, j) <==> j == IdOf(item)
  {
    if item.Obj? {
      var v := item.fields;
      FirstTruthyIsPicked([Get(v, "github_advisory_id"), Get(v, "url"), Get(v, "source"), Get(v, "title"), Get(v, "name")], j);
    }
  }

  lemma TitleIsBad(item: Json)
    requires item.Obj? || item.Str?
    ensures BadTitle(item) <==> Truthy(TitleOf(item)) && !TitleOf(item).Str?
  {
    if item.Obj? {
      var v := item.fields;
      var candidates := [Get(v, "title"), Get(v, "url"), Get(v, "advisory"), Get(v, "source")];
      forall title ensures Picks(candidates, title) <==> title == TitleOf(item) {
        FirstTruthyIsPicked(candidates, title);
      }
    }
  }

  /** Joining the titles fails exactly when some item has a bad one. */
  lemma TitlesFailExactlyWhen(via: Json)
    ensures !TitlesJoin(ViaSources(via)) <==> via.Arr? && exists item :: item in via.items && BadTitle(item)
  {
    var sources := ViaSources(via);
    if !TitlesJoin(sources) {
      var i :| 0 <= i < |sources| && Truthy(TitleOf(sources[i])) && !TitleOf(sources[i]).Str?;
      SourcesAreNamed(via, sources[i]);
      TitleIsBad(sources[i]);
    }
    if via.Arr? && exists item :: item in via.items && BadTitle(item) {
      var item :| item in via.items && BadTitle(item);
      SourcesAreNamed(via, item);
      TitleIsBad(item);
      var i :| 0 <= i < |sources| && sources[i] == item;
    }
  }

  lemma {:induction false} ViaFindingsAre(name: string, severity: Json, sources: seq<Json>, title: string, f: Finding)
    ensures f in ViaFindings(name, severity, sources, title) <==>
            && f.name == Str(name) && f.severity == severity && f.title == Str(title) && Truthy(f.advisory)
            && exists item :: item in sources && f.advisory == IdOf(item)
  {
    if sources == [] {
    } else {
      var before, last := sources[..|sources| - 1], sources[|sources| - 1];
      ViaFindingsAre(name, severity, before, title, f);
      assert sources == before + [last];
      assert f == Finding(f.name, f.severity, f.advisory, f.title);
    }
  }

  lemma VulnerabilityExactly(name: string, vuln: Json, f: Finding)
    ensures VulnerabilityFindings(name, vuln).None? <==> BadVulnerability(vuln)
    ensures !BadVulnerability(vuln) ==> (f in VulnerabilityFindings(name, vuln).value <==> FromVulnerability(name, vuln, f))
  {
    if vuln.Obj? {
      var via := Attr(vuln.fields, "via", Arr([]));
      TitlesFailExactlyWhen(via);
      if TitlesJoin(ViaSources(via)) {
        ViaFindingsAre(name, Get(vuln.fields, "severity"), ViaSources(via), Join(Texts(ViaSources(via))), f);
        forall item ensures item in ViaSources(via) && f.advisory == IdOf(item) <==> Mentions(via, item) && NamesAdvisory(item, f.advisory) {
          SourcesAreNamed(via, item);
          IdIsNamed(item, f.advisory);
        }
      }
    }
  }

  // ------------------------------------------------------------------ the report

  /** The report, or one of its entries, cannot be read. */
  ghost predicate Unreadable(audit: Json) {
    || !audit.Obj?
    || (exists entry :: entry in Entries(Get(audit.fields, "advisories")) && BadAdvisory(entry.1))
    || (exists entry :: entry in Entries(Get(audit.fields, "vulnerabilities")) && BadVulnerability(entry.1))
  }

  /** `f` comes from an entry of "advisories" or of "vulnerabilities". */
  ghost predicate Yields(env: Env, audit: Json, f: Finding) {
    && audit.Obj?
    && ((exists entry :: entry in Entries(Get(audit.fields, "advisories")) && FromAdvisory(env, entry.1, f)) ||
        (exists entry :: entry in Entries(Get(audit.fields, "vulnerabilities")) && FromVulnerability(entry.0, entry.1, f)))
  }

  lemma AdvisoriesExactly(env: Env, entries: seq<(string, Json)>, f: Finding)
    ensures Collect(entries, OfAdvisory(env)).None? <==> exists entry :: entry in entries && BadAdvisory(entry.1)
    ensures Collect(entries, OfAdvisory(env)).Some? ==>
              (f in Collect(entries, OfAdvisory(env)).value <==> exists entry :: entry in entries && FromAdvisory(env, entry.1, f))
  {
    CollectFacts(entries, OfAdvisory(env));
    forall entry: (string, Json)
      ensures OfAdvisory(env)(entry).None? <==> BadAdvisory(entry.1)
      ensures OfAdvisory(env)(entry).Some? ==> (f in OfAdvisory(env)(entry).value <==> FromAdvisory(env, entry.1, f))
    {
      AdvisoryExactly(env, entry.1, f);
    }
  }

  lemma VulnerabilitiesExactly(entries: seq<(string, Json)>, f: Finding)
    ensures Collect(entries, OfVulnerability()).None? <==> exists entry :: entry in entries && BadVulnerability(entry.1)
    ensures Collect(entries, OfVulnerability()).Some? ==>
              (f in Collect(entries, OfVulnerability()).value <==> exists entry :: entry in entries && FromVulnerability(entry.0, entry.1, f))
  {
    CollectFacts(entries, OfVulnerability());
    forall entry: (string, Json)
      ensures OfVulnerability()(entry).None? <==> BadVulnerability(entry.1)
      ensures OfVulnerability()(entry).Some? ==> (f in OfVulnerability()(entry).value <==> FromVulnerability(entry.0, entry.1, f))
    {
      VulnerabilityExactly(entry.0, entry.1, f);
    }
  }

  /** Reading the report raises exactly when it is unreadable; otherwise it yields exactly the findings of its entries. */
  lemma FindingsExactly(env: Env, audit: Json, f: Finding)
    ensures Findings(env, audit).None? <==> Unreadable(audit)
    ensures Findings(env, audit).Some? ==> (f in Findings(env, audit).value <==> Yields(env, audit, f))
  {
    if audit.Obj? {
      AdvisoriesExactly(env, Entries(Get(audit.fields, "advisories")), f);
      VulnerabilitiesExactly(Entries(Get(audit.fields, "vulnerabilities")), f);
    }
  }

  // ------------------------------------------------------------------ the order of the findings

  function HasTitle(): Json -> bool {
    (source: Json) => Truthy(TitleOf(source))
  }

  function HasId(): Json -> bool {
    (source: Json) => Truthy(IdOf(source))
  }

  ghost predicate TextsAt(sources: seq<Json>, ps: seq<nat>, texts: seq<string>) {
    |texts| == |ps| && forall k :: 0 <= k < |ps| ==> ps[k] < |sources| && TitleOf(sources[ps[k]]) == Str(texts[k])
  }

  lemma TextsAtOneMore(sources: seq<Json>, before: seq<nat>, texts: seq<string>, text: string)
    requires sources != [] && TextsAt(sources[..|sources| - 1], before, texts)
    ensures TextsAt(sources, before, texts)
    ensures TitleOf(sources[|sources| - 1]) == Str(text) ==> TextsAt(sources, before + [|sources| - 1], texts + [text])
  {
    assert forall k :: 0 <= k < |before| ==> sources[before[k]] == sources[..|sources| - 1][before[k]];
  }

  /** The texts that are joined are the titles that are there, in the order of the items. */
  lemma {:induction false} TextsInOrder(sources: seq<Json>) returns (ps: seq<nat>)
    requires TitlesJoin(sources)
    ensures KeptAt(sources, HasTitle(), ps) && TextsAt(sources, ps, Texts(sources))
  {
    if sources == [] {
      ps := [];
    } else {
      var init, title := sources[..|sources| - 1], TitleOf(sources[|sources| - 1]);
      ps := TextsInOrder(init);
      TextsAtOneMore(sources, ps, Texts(init), if title.Str? then title.s else "");
      ps := KeptOneMore(sources, HasTitle(), ps);
    }
  }

  ghost predicate FindingsAt(name: string, severity: Json, sources: seq<Json>, title: string, ps: seq<nat>, fs: seq<Finding>) {
    |fs| == |ps| && forall k :: 0 <= k < |ps| ==> ps[k] < |sources| && fs[k] == Finding(Str(name), severity, IdOf(sources[ps[k]]), Str(title))
  }

  lemma ViaStep(name: string, severity: Json, sources: seq<Json>, title: string, before: seq<nat>)
    requires sources != []
    requires FindingsAt(name, severity, sources[..|sources| - 1], title, before, ViaFindings(name, severity, sources[..|sources| - 1], title))
    ensures FindingsAt(name, severity, sources, title,
                       if Truthy(IdOf(sources[|sources| - 1])) then before + [|sources| - 1] else before,
                       ViaFindings(name, severity, sources, title))
  {
  }

  /** The findings of an entry come in the order of the items that name them. */
  lemma {:induction false} ViaInOrder(name: string, severity: Json, sources: seq<Json>, title: string) returns (ps: seq<nat>)
    ensures KeptAt(sources, HasId(), ps)
    ensures FindingsAt(name, severity, sources, title, ps, ViaFindings(name, severity, sources, title))
  {
    if sources == [] {
      ps := [];
    } else {
      ps := ViaInOrder(name, severity, sources[..|sources| - 1], title);
      ViaStep(name, severity, sources, title, ps);
      ps := KeptOneMore(sources, HasId(), ps);
    }
  }

  /** First the findings of "advisories" in entry order, then those of "vulnerabilities" in entry order. */
  lemma FindingsInOrder(env: Env, audit: Json) returns (n: nat, advisories: seq<nat>, vulnerabilities: seq<nat>)
    requires Findings(env, audit).Some?
    ensures var fs := Findings(env, audit).value;
            && n <= |fs|
            && OwnedBy(Entries(Get(audit.fields, "advisories")), OfAdvisory(env), fs[..n], advisories)
            && OwnedBy(Entries(Get(audit.fields, "vulnerabilities")), OfVulnerability(), fs[n..], vulnerabilities)
  {
    var a, v := Entries(Get(audit.fields, "advisories")), Entries(Get(audit.fields, "vulnerabilities"));
    advisories := CollectInOrder(a, OfAdvisory(env));
    vulnerabilities := CollectInOrder(v, OfVulnerability());
    n := |Collect(a, OfAdvisory(env)).value|;
    var fs := Findings(env, audit).value;
    assert fs[..n] == Collect(a, OfAdvisory(env)).value && fs[n..] == Collect(v, OfVulnerability()).value;
  }

  // ------------------------------------------------------------------ when the gate raises

  /** A severity that is there and no string. */
  predicate BadSeverity(f: Finding) {
    Truthy(f.severity) && !f.severity.Str?
  }

  /**
   * The gate raises if and only if an item line of the exception file has no colon, the
   * report is unreadable, or some finding has a severity that is no string.
   */
  lemma GateRaisesExactlyWhen(env: Env, audit: Json, lines: seq<string>)
    ensures Verdict(env, audit, lines) == Raised <==>
            || (exists raw :: raw in lines && Malformed(raw))
            || Unreadable(audit)
            || (exists f :: Yields(env, audit, f) && BadSeverity(f))
  {
    OneEntryPerItem(lines);
    forall f: Finding
      ensures Findings(env, audit).None? <==> Unreadable(audit)
      ensures Findings(env, audit).Some? ==> (f in Findings(env, audit).value <==> Yields(env, audit, f))
    {
      FindingsExactly(env, audit, f);
    }
    if Findings(env, audit).Some? {
      RaisingFinding(env, Findings(env, audit).value);
      assert Findings(env, audit).None? <==> Unreadable(audit) by { FindingsExactly(env, audit, Finding(Null, Null, Null, Null)); }
    } else {
      FindingsExactly(env, audit, Finding(Null, Null, Null, Null));
    }
  }

  lemma RaisingFinding(env: Env, fs: seq<Finding>)
    ensures Raises in Classes(env, fs) <==> exists f :: f in fs && BadSeverity(f)
  {
    var cs := Classes(env, fs);
    assert forall i :: 0 <= i < |fs| ==> (cs[i] == Raises <==> BadSeverity(fs[i]));
    if Raises in cs {
      var i :| 0 <= i < |cs| && cs[i] == Raises;
      assert fs[i] in fs;
    }
    if f :| f in fs && BadSeverity(f) {
      var i :| 0 <= i < |fs| && fs[i] == f;
      assert cs[i] in cs;
    }
  }

  lemma BadTitleRaises(env: Env, audit: Json, lines: seq<string>, entry: (string, Json), item: Json)
    requires audit.Obj? && entry in Entries(Get(audit.fields, "vulnerabilities"))
    requires entry.1.Obj? && Attr(entry.1.fields, "via", Arr([])).Arr? && item in Attr(entry.1.fields, "via", Arr([])).items
    requires BadTitle(item)
    ensures Verdict(env, audit, lines) == Raised
  {
    assert BadVulnerability(entry.1);
    assert Unreadable(audit);
    GateRaisesExactlyWhen(env, audit, lines);
  }

  lemma NumericSourceIsBadTitle(item: Json)
    requires item.Obj? && !Truthy(Get(item.fields, "title")) && !Truthy(Get(item.fields, "url")) && !Truthy(Get(item.fields, "advisory"))
    requires Get(item.fields, "source").Num? && Get(item.fields, "source").n != 0
    ensures BadTitle(item)
  {
    var v := item.fields;
    var candidates := [Get(v, "title"), Get(v, "url"), Get(v, "advisory"), Get(v, "source")];
    assert PicksAt(candidates, Get(v, "source"), 3);
    assert Picks(candidates, Get(v, "source"));
  }

  /**
   * A case that reports contain: advisory IDs may be numbers, titles may not, and a numeric
   * source that has to serve as both makes the gate raise, whatever the exceptions say.
   */
  lemma NumericTitleRaises(env: Env, audit: Json, lines: seq<string>, entry: (string, Json), item: Json)
    requires audit.Obj? && entry in Entries(Get(audit.fields, "vulnerabilities"))
    requires entry.1.Obj? && Attr(entry.1.fields, "via", Arr([])).Arr? && item in Attr(entry.1.fields, "via", Arr([])).items
    requires item.Obj? && !Truthy(Get(item.fields, "title")) && !Truthy(Get(item.fields, "url")) && !Truthy(Get(item.fields, "advisory"))
    requires Get(item.fields, "source").Num? && Get(item.fields, "source").n != 0
    ensures Verdict(env, audit, lines) == Raised
  {
    NumericSourceIsBadTitle(item);
    BadTitleRaises(env, audit, lines, entry, item);
  }

  // ------------------------------------------------------------------ when the gate passes

  function TextOf(env: Env, j: Json): string {
    if j.Str? then j.s else env.show(j)
  }

  function SeverityOf(env: Env, f: Finding): string
    requires f.severity.Str?
  {
    env.lower(Strip(f.severity.s))
  }

  function PackageOf(env: Env, f: Finding): string {
    Strip(TextOf(env, f.name))
  }

  function AdvisoryOf(env: Env, f: Finding): string {
    if f.advisory == Null then "" else env.lower(Strip(TextOf(env, f.advisory)))
  }

  /** A finding that needs an exception: high or critical, and with a package name. */
  ghost predicate Serious(env: Env, f: Finding) {
    && f.severity.Str? && f.severity.s != "" && (SeverityOf(env, f) == "high" || SeverityOf(env, f) == "critical")
    && Truthy(f.name)
  }

  /** Finding i is the first serious one with this package and advisory. */
  ghost predicate FirstSerious(env: Env, fs: seq<Finding>, package: string, advisory: string, i: int) {
    && 0 <= i < |fs| && Serious(env, fs[i]) && PackageOf(env, fs[i]) == package && AdvisoryOf(env, fs[i]) == advisory
    && forall j :: 0 <= j < i ==> !(Serious(env, fs[j]) && PackageOf(env, fs[j]) == package && AdvisoryOf(env, fs[j]) == advisory)
  }

  ghost predicate Filled(exc: Dict, field: string) {
    field in exc && exc[field] != ""
  }

  /** An exception with its five fields, a date, and a package and an advisory that are not blank. */
  ghost predicate WellFormed(env: Env, exc: Dict) {
    && Filled(exc, "package") && Filled(exc, "advisory") && Filled(exc, "severity") && Filled(exc, "mitigation") && Filled(exc, "expires_on")
    && env.parseDate(exc["expires_on"]).Some? && Strip(exc["package"]) != "" && env.lower(Strip(exc["advisory"])) != ""
  }

  /** The exception is for this package and advisory, has not expired, and names no severity or that of the first such finding. */
  ghost predicate Excuses(env: Env, exc: Dict, fs: seq<Finding>, package: string, advisory: string)
    requires WellFormed(env, exc)
  {
    && Strip(exc["package"]) == package && env.lower(Strip(exc["advisory"])) == advisory
    && env.parseDate(exc["expires_on"]).value >= env.today
    && var severity := env.lower(Strip(exc["severity"]));
       severity == "" || forall i :: FirstSerious(env, fs, package, advisory, i) ==> SeverityOf(env, fs[i]) == severity
  }

  ghost predicate AllWellFormed(env: Env, excs: seq<Dict>) {
    forall i :: 0 <= i < |excs| ==> WellFormed(env, excs[i])
  }

  ghost predicate NoDuplicates(env: Env, excs: seq<Dict>)
    requires AllWellFormed(env, excs)
  {
    forall i, j :: 0 <= i < j < |excs| ==>
      Strip(excs[i]["package"]) != Strip(excs[j]["package"]) ||
      env.lower(Strip(excs[i]["advisory"])) != env.lower(Strip(excs[j]["advisory"]))
  }

  /** A serious finding has an advisory, and some exception excuses it. */
  ghost predicate Excused(env: Env, excs: seq<Dict>, fs: seq<Finding>, f: Finding)
    requires AllWellFormed(env, excs)
  {
    AdvisoryOf(env, f) != "" && exists i :: 0 <= i < |excs| && Excuses(env, excs[i], fs, PackageOf(env, f), AdvisoryOf(env, f))
  }

  /**
   * The gate on its two inputs: it passes if and only if no item line lacks its colon, the
   * report is readable and all its severities are strings, every exception is well-formed and
   * no two are for the same package and advisory, and every serious finding is excused.
   */
  lemma GatePassesOnReport(env: Env, audit: Json, lines: seq<string>)
    ensures Verdict(env, audit, lines) == Validated <==>
            && (forall raw :: raw in lines ==> !Malformed(raw)) && !Unreadable(audit)
            && (forall f :: Yields(env, audit, f) ==> !BadSeverity(f))
            && Parse(lines).Some? && Findings(env, audit).Some?
            && AllWellFormed(env, Parse(lines).value) && NoDuplicates(env, Parse(lines).value)
            && forall f :: Yields(env, audit, f) && Serious(env, f) ==> Excused(env, Parse(lines).value, Findings(env, audit).value, f)
  {
    OneEntryPerItem(lines);
    FindingsExactly(env, audit, Finding(Null, Null, Null, Null));
    GatePassesExactlyWhen(env, audit, lines);
    if Parse(lines).Some? && Findings(env, audit).Some? {
      var fs := Findings(env, audit).value;
      forall f ensures f in fs <==> Yields(env, audit, f) {
        FindingsExactly(env, audit, f);
      }
      AcceptsExactlyWhen(env, Parse(lines).value, fs);
    }
  }

  lemma AcceptsExactlyWhen(env: Env, excs: seq<Dict>, fs: seq<Finding>)
    ensures (&& (forall i :: 0 <= i < |excs| ==> Usable(env, excs[i]))
             && (forall i, j :: 0 <= i < j < |excs| ==> KeyOf(env, excs[i]) != KeyOf(env, excs[j]))
             && var cs := Classes(env, fs);
                Raises !in cs && NoAdvisory !in cs && forall c :: c in cs && c.Counted? ==> Covered(env, excs, cs, c.key)) <==>
            (&& AllWellFormed(env, excs) && NoDuplicates(env, excs)
             && (forall f :: f in fs ==> !BadSeverity(f))
             && forall f :: f in fs && Serious(env, f) ==> Excused(env, excs, fs, f))
  {
    forall i | 0 <= i < |excs| ensures Usable(env, excs[i]) <==> WellFormed(env, excs[i]) {
      UsableIsWellFormed(env, excs[i]);
    }
    if AllWellFormed(env, excs) {
      KeysDiffer(env, excs);
      FindingsExcused(env, excs, fs);
    }
  }

  lemma UsableIsWellFormed(env: Env, exc: Dict)
    ensures Usable(env, exc) <==> WellFormed(env, exc)
    ensures WellFormed(env, exc) ==>
              && KeyOf(env, exc) == (Strip(exc["package"]), env.lower(Strip(exc["advisory"])))
              && EntryOf(env, exc) == Entry(env.lower(Strip(exc["severity"])), env.parseDate(exc["expires_on"]).value)
  {
  }

  lemma KeysDiffer(env: Env, excs: seq<Dict>)
    requires AllWellFormed(env, excs)
    ensures (forall i, j :: 0 <= i < j < |excs| ==> KeyOf(env, excs[i]) != KeyOf(env, excs[j])) <==> NoDuplicates(env, excs)
  {
    forall i | 0 <= i < |excs| ensures KeyOf(env, excs[i]) == (Strip(excs[i]["package"]), env.lower(Strip(excs[i]["advisory"]))) {
      UsableIsWellFormed(env, excs[i]);
    }
  }

  /** What the scan makes of a finding. */
  lemma ClassifyIs(env: Env, f: Finding)
    ensures Classify(env, f) == Raises <==> BadSeverity(f)
    ensures Classify(env, f) == NoAdvisory <==> Serious(env, f) && AdvisoryOf(env, f) == ""
    ensures Classify(env, f).Counted? <==> Serious(env, f) && AdvisoryOf(env, f) != ""
    ensures Classify(env, f).Counted? ==> Classify(env, f) == Counted((PackageOf(env, f), AdvisoryOf(env, f)), SeverityOf(env, f))
  {
  }

  lemma FindingsExcused(env: Env, excs: seq<Dict>, fs: seq<Finding>)
    requires AllWellFormed(env, excs)
    ensures (var cs := Classes(env, fs);
             Raises !in cs && NoAdvisory !in cs && forall c :: c in cs && c.Counted? ==> Covered(env, excs, cs, c.key)) <==>
            ((forall f :: f in fs ==> !BadSeverity(f)) && forall f :: f in fs && Serious(env, f) ==> Excused(env, excs, fs, f))
  {
    var cs := Classes(env, fs);
    forall i | 0 <= i < |fs|
      ensures cs[i] in cs && fs[i] in fs && (cs[i] == Raises <==> BadSeverity(fs[i]))
      ensures (cs[i] != NoAdvisory && (cs[i].Counted? ==> Covered(env, excs, cs, cs[i].key))) <==> (Serious(env, fs[i]) ==> Excused(env, excs, fs, fs[i]))
    {
      ClassifyIs(env, fs[i]);
      assert cs[i] == Classify(env, fs[i]);
      if cs[i].Counted? {
        CoveredIsExcused(env, excs, fs, cs[i].key);
      }
    }
  }

  lemma CoveredIsExcused(env: Env, excs: seq<Dict>, fs: seq<Finding>, k: Key)
    requires AllWellFormed(env, excs) && k.1 != "" && HasKey(Classes(env, fs), k)
    ensures Covered(env, excs, Classes(env, fs), k) <==> exists i :: 0 <= i < |excs| && Excuses(env, excs[i], fs, k.0, k.1)
  {
    forall i | 0 <= i < |excs| ensures Covers(env, excs[i], Classes(env, fs), k) <==> Excuses(env, excs[i], fs, k.0, k.1) {
      CoversIsExcuses(env, excs[i], fs, k);
    }
  }

  lemma CoversIsExcuses(env: Env, exc: Dict, fs: seq<Finding>, k: Key)
    requires WellFormed(env, exc) && k.1 != "" && HasKey(Classes(env, fs), k)
    ensures Covers(env, exc, Classes(env, fs), k) <==> Excuses(env, exc, fs, k.0, k.1)
  {
    UsableIsWellFormed(env, exc);
    var i := FirstSevIs(env, fs, k);
    assert forall j :: FirstSerious(env, fs, k.0, k.1, j) ==> j == i;
  }

  /** The severity that counts for a key is that of the first serious finding with it. */
  lemma FirstSevIs(env: Env, fs: seq<Finding>, k: Key) returns (i: nat)
    requires k.1 != "" && HasKey(Classes(env, fs), k)
    ensures FirstSerious(env, fs, k.0, k.1, i) && FirstSev(Classes(env, fs), k) == Some(SeverityOf(env, fs[i]))
  {
    var cs := Classes(env, fs);
    FirstSevFacts(cs, k);
    i := FirstCounted(cs, k);
    forall j | 0 <= j < |fs| ensures cs[j] == Classify(env, fs[j]) &&
      ((cs[j].Counted? && cs[j].key == k) <==> Serious(env, fs[j]) && PackageOf(env, fs[j]) == k.0 && AdvisoryOf(env, fs[j]) == k.1)
    {
      ClassifyIs(env, fs[j]);
    }
    ClassifyIs(env, fs[i]);
  }

  lemma {:induction false} FirstCounted(cs: seq<Class>, k: Key) returns (i: nat)
    requires FirstSev(cs, k).Some?
    ensures i < |cs| && cs[i] == Counted(k, FirstSev(cs, k).value) && forall j :: 0 <= j < i ==> !(cs[j].Counted? && cs[j].key == k)
  {
    var before, n := cs[..|cs| - 1], |cs| - 1;
    if FirstSev(before, k).Some? {
      i := FirstCounted(before, k);
    } else {
      i := n;
      FirstSevFacts(before, k);
      forall j | 0 <= j < n ensures !(cs[j].Counted? && cs[j].key == k) {
        assert before[j] in before;
      }
    }
  }
}
