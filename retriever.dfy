/**
 * One run of the retriever: resolve every package of the metadata, pair the
 * results with the packages in metadata order, apply the license-copying
 * rules in place, and report the packages left without a license.
 */
module Retriever {
  import opened Common
  import opened Seqs
  import opened Text
  import opened Fetch
  import opened LicenseConfig
  import opened Resolve

  function Resolutions(packages: seq<Package>, rule: RowRule, cfg: Config, env: Env, net: Url -> Http): (r: seq<Result<seq<string>>>)
    reads cfg
    ensures |r| == |packages| && forall i :: 0 <= i < |packages| ==> r[i] == PackageLicenses(packages[i], rule, cfg, env, net)
  {
    seq(|packages|, i requires 0 <= i < |packages| reads cfg => PackageLicenses(packages[i], rule, cfg, env, net))
  }

  /**
   * The fan-out over the metadata packages, joined and zipped back: one
   * entry per package, in metadata order, each with that package's texts;
   * or the error of the first package whose resolution fails.
   */
  function ResolveAll(packages: seq<Package>, rule: RowRule, cfg: Config, env: Env, net: Url -> Http): (r: Result<seq<Entry>>)
    reads cfg
    ensures r.Ok? <==> forall i :: 0 <= i < |packages| ==> PackageLicenses(packages[i], rule, cfg, env, net).Ok?
    ensures r.Ok? ==>
      && |r.value| == |packages|
      && forall i :: 0 <= i < |packages| ==> r.value[i] == Entry(packages[i], PackageLicenses(packages[i], rule, cfg, env, net).value)
    ensures r.Err? ==> exists k :: 0 <= k < |packages| && PackageLicenses(packages[k], rule, cfg, env, net) == Err(r.error)
                                   && forall i :: 0 <= i < k ==> PackageLicenses(packages[i], rule, cfg, env, net).Ok?
  {
    var rs := Resolutions(packages, rule, cfg, env, net);
    match TryJoinAll(rs)
    case Err(e) => Err(e)
    case Ok(ls) => Ok(seq(|packages|, i requires 0 <= i < |packages| => Entry(packages[i], ls[i])))
  }

  // ---- license copying ----

  predicate NoneNamed(s: seq<Entry>, name: string)
  {
    forall k :: 0 <= k < |s| ==> s[k].package.name != name
  }

  /** `iter_mut().find(..)`: the first entry with that name. */
  function FirstNamed(s: seq<Entry>, name: string): (r: Option<nat>)
    ensures r.None? <==> NoneNamed(s, name)
    ensures r.Some? ==> r.value < |s| && s[r.value].package.name == name
                        && forall k :: 0 <= k < r.value ==> s[k].package.name != name
  {
    if s == [] then None
    else if s[0].package.name == name then Some(0)
    else match FirstNamed(s[1..], name)
      case None => None
      case Some(i) => Some(i + 1)
  }

  /**
   * `filter(..).sorted_by_key(len).last()`: among the entries with that name,
   * one with the most texts, the last such one when several tie.
   */
  function MostLicensed(s: seq<Entry>, name: string): (r: Option<nat>)
    ensures r.None? <==> NoneNamed(s, name)
    ensures r.Some? ==> r.value < |s| && s[r.value].package.name == name
    ensures r.Some? ==> forall k :: 0 <= k < |s| && s[k].package.name == name ==>
                          |s[k].licenses| <= |s[r.value].licenses|
    ensures r.Some? ==> forall k :: r.value < k < |s| && s[k].package.name == name ==>
                          |s[k].licenses| < |s[r.value].licenses|
  {
    if s == [] then None
    else
      var last := |s| - 1;
      var best := MostLicensed(s[..last], name);
      assert forall k :: 0 <= k < last ==> s[..last][k] == s[k];
      if s[last].package.name == name && (best.None? || |s[best.value].licenses| <= |s[last].licenses|)
      then Some(last)
      else best
  }

  /**
   * One `copier -> copied` rule: fails when no entry is named `copied`
   * (checked first) or none is named `copier`; otherwise the first copier
   * entry receives the texts of the most-licensed copied entry, and every
   * other entry stays as it was.
   */
  function CopyLicense(s: seq<Entry>, copier: string, copied: string): (r: Result<seq<Entry>>)
    ensures NoneNamed(s, copied) ==> r == Err(CopiedCrateNotFound(copied))
    ensures !NoneNamed(s, copied) && NoneNamed(s, copier) ==> r == Err(CopierCrateNotFound(copier))
    ensures r.Ok? <==> !NoneNamed(s, copied) && !NoneNamed(s, copier)
    ensures r.Ok? ==>
      var i, j := FirstNamed(s, copier).value, MostLicensed(s, copied).value;
      && |r.value| == |s|
      && r.value[i] == Entry(s[i].package, s[j].licenses)
      && forall k :: 0 <= k < |s| && k != i ==> r.value[k] == s[k]
  {
    match MostLicensed(s, copied)
    case None => Err(CopiedCrateNotFound(copied))
    case Some(j) =>
      match FirstNamed(s, copier)
      case None => Err(CopierCrateNotFound(copier))
      case Some(i) => Ok(s[i := Entry(s[i].package, s[j].licenses)])
  }

  /**
   * The rules applied one after another; the first that fails ends the run,
   * with the error naming a crate of one of the rules.
   */
  function ApplyRules(s: seq<Entry>, rules: seq<(string, string)>): (r: Result<seq<Entry>>)
    ensures r.Err? ==>
      exists m :: 0 <= m < |rules| && (r.error == CopiedCrateNotFound(rules[m].1) || r.error == CopierCrateNotFound(rules[m].0))
    decreases |rules|
  {
    if rules == [] then Ok(s)
    else match CopyLicense(s, rules[0].0, rules[0].1)
      case Err(e) => Err(e)
      case Ok(s') =>
        var r := ApplyRules(s', rules[1..]);
        assert forall m :: 0 <= m < |rules[1..]| ==> rules[1..][m] == rules[m + 1];
        r
  }

  /**
   * A failed copy step failed at its first failing rule: the rules before it
   * all succeeded, and that rule's error on their result is the step's error.
   */
  lemma {:induction false} ApplyRulesFirstFailure(s: seq<Entry>, rules: seq<(string, string)>)
    ensures ApplyRules(s, rules).Err? ==>
      exists m, t :: 0 <= m < |rules| && ApplyRules(s, rules[..m]) == Ok(t)
                     && CopyLicense(t, rules[m].0, rules[m].1) == Err(ApplyRules(s, rules).error)
    decreases |rules|
  {
    if rules != [] && ApplyRules(s, rules).Err? {
      var c := CopyLicense(s, rules[0].0, rules[0].1);
      if c.Err? {
        assert rules[..0] == [];
        assert ApplyRules(s, rules[..0]) == Ok(s);
      } else {
        ApplyRulesFirstFailure(c.value, rules[1..]);
        var m, t :| 0 <= m < |rules[1..]| && ApplyRules(c.value, rules[1..][..m]) == Ok(t)
                    && CopyLicense(t, rules[1..][m].0, rules[1..][m].1) == Err(ApplyRules(c.value, rules[1..]).error);
        assert rules[..m + 1][0] == rules[0] && rules[..m + 1][1..] == rules[1..][..m];
        assert rules[1..][m] == rules[m + 1];
        assert ApplyRules(s, rules[..m + 1]) == Ok(t);
      }
    }
  }

  /** Copying changes texts only: the packages and their order are those of the input. */
  lemma {:induction false} ApplyRulesKeepsPackages(s: seq<Entry>, rules: seq<(string, string)>)
    ensures ApplyRules(s, rules).Ok? ==>
      var r := ApplyRules(s, rules).value;
      |r| == |s| && forall k :: 0 <= k < |s| ==> r[k].package == s[k].package
    decreases |rules|
  {
    if rules != [] {
      var c := CopyLicense(s, rules[0].0, rules[0].1);
      if c.Ok? {
        ApplyRulesKeepsPackages(c.value, rules[1..]);
      }
    }
  }

  /** An entry whose package no rule names as copier keeps its texts. */
  lemma {:induction false} ApplyRulesTouchesOnlyCopiers(s: seq<Entry>, rules: seq<(string, string)>, k: nat)
    requires k < |s|
    requires forall m :: 0 <= m < |rules| ==> rules[m].0 != s[k].package.name
    ensures ApplyRules(s, rules).Ok? ==> |ApplyRules(s, rules).value| == |s| && ApplyRules(s, rules).value[k] == s[k]
    decreases |rules|
  {
    if rules != [] {
      var c := CopyLicense(s, rules[0].0, rules[0].1);
      if c.Ok? {
        assert forall m :: 0 <= m < |rules[1..]| ==> rules[1..][m] == rules[m + 1];
        ApplyRulesTouchesOnlyCopiers(c.value, rules[1..], k);
      }
    }
  }

  /** The copy loop, overwriting one element of the entries in place per rule. */
  method CopyLicenses(entries: array<Entry>, rules: seq<(string, string)>) returns (err: Option<Error>)
    modifies entries
    ensures err.None? ==> ApplyRules(old(entries[..]), rules) == Ok(entries[..])
    ensures err.Some? ==> ApplyRules(old(entries[..]), rules) == Err(err.value)
  {
    var n := 0;
    while n < |rules|
      invariant 0 <= n <= |rules|
      invariant ApplyRules(old(entries[..]), rules) == ApplyRules(entries[..], rules[n..])
    {
      var (copier, copied) := rules[n];
      assert rules[n..][0] == rules[n] && rules[n..][1..] == rules[n + 1..];
      var j := MostLicensed(entries[..], copied);
      if j.None? {
        return Some(CopiedCrateNotFound(copied));
      }
      var i := FirstNamed(entries[..], copier);
      if i.None? {
        return Some(CopierCrateNotFound(copier));
      }
      entries[i.value] := Entry(entries[i.value].package, entries[j.value].licenses);
      n := n + 1;
    }
    assert rules[n..] == [];
    err := None;
  }

  // ---- the unlicensed report ----

  function UnlicensedFn(ignored: set<string>): Entry -> Option<Package>
  {
    (e: Entry) => if e.licenses == [] && e.package.name !in ignored then Some(e.package) else None
  }

  /** The packages left without texts whose name is not ignored, in list order. */
  function Unlicensed(s: seq<Entry>, ignored: set<string>): (r: seq<Package>)
    ensures |r| <= |s|
    ensures forall p :: p in r ==> p.name !in ignored && exists k :: 0 <= k < |s| && s[k] == Entry(p, [])
  {
    var r := FilterMap(s, UnlicensedFn(ignored));
    FilterMapImages(s, UnlicensedFn(ignored));
    r
  }

  /** `"name version"`: never empty, and it starts with the package name. */
  function Describe(p: Package): (r: string)
    ensures r != [] && IsPrefix(p.name, r) && r[|p.name|..] == " " + p.version
  {
    p.name + " " + p.version
  }

  function DescribeFn(): Package -> string
  {
    p => Describe(p)
  }

  /**
   * `"name version"` of every unlicensed package, joined by `", "`: empty
   * exactly when no package is unlicensed.
   */
  function UnlicensedReport(s: seq<Entry>, ignored: set<string>): (r: string)
    ensures r == [] <==> Unlicensed(s, ignored) == []
    ensures forall k :: 0 <= k < |Unlicensed(s, ignored)| ==> Contains(r, Describe(Unlicensed(s, ignored)[k]))
  {
    var ds := Map(Unlicensed(s, ignored), DescribeFn());
    JoinContainsAll(ds, ", ");
    if |ds| == 1 then
      assert ds[0] == Describe(Unlicensed(s, ignored)[0]);
      Join(ds, ", ")
    else
      Join(ds, ", ")
  }

  /** A package is reported exactly when some entry of it has no texts and its name is not ignored. */
  lemma UnlicensedExactly(s: seq<Entry>, ignored: set<string>, p: Package)
    ensures p in Unlicensed(s, ignored) <==>
      p.name !in ignored && exists k :: 0 <= k < |s| && s[k].package == p && s[k].licenses == []
  {
    FilterMapMember(s, UnlicensedFn(ignored), p);
    if exists k :: 0 <= k < |s| && s[k].package == p && s[k].licenses == [] {
      if p.name !in ignored {
        var k :| 0 <= k < |s| && s[k].package == p && s[k].licenses == [];
        assert UnlicensedFn(ignored)(s[k]) == Some(p);
      }
    }
  }

  /** The report keeps the order of the entries. */
  lemma UnlicensedInOrder(s: seq<Entry>, t: seq<Entry>, ignored: set<string>)
    ensures Unlicensed(s + t, ignored) == Unlicensed(s, ignored) + Unlicensed(t, ignored)
  {
    FilterMapAppend(s, t, UnlicensedFn(ignored));
  }

  /**
   * A run over that one package, not ignored: as written its entry has no
   * texts and it is reported; under the corrected rule it has the raw text
   * and the report is empty.
   */
  lemma GithubOnlyPackageReported(p: Package, cfg: Config, env: Env, net: Url -> Http,
                                  href: string, blob: Url, raw: Url, text: string)
    requires GithubOnly(p, cfg, env, net, href, blob, raw, text) && p.name !in cfg.ignoredCrates
    ensures ResolveAll([p], AsWritten, cfg, env, net) == Ok([Entry(p, [])])
    ensures Unlicensed([Entry(p, [])], cfg.ignoredCrates) == [p]
    ensures ResolveAll([p], Corrected, cfg, env, net) == Ok([Entry(p, [text])])
    ensures Unlicensed([Entry(p, [text])], cfg.ignoredCrates) == []
  {
    GithubOnlyPackage(p, cfg, env, net, href, blob, raw, text);
    assert ResolveAll([p], AsWritten, cfg, env, net).value == [Entry(p, [])];
    assert ResolveAll([p], Corrected, cfg, env, net).value == [Entry(p, [text])];
  }

  // ---- a whole run ----

  /** `order` lists the keys of the copying map once each: the map's iteration order. */
  predicate Enumerates(order: seq<string>, m: map<string, string>)
  {
    && (forall i :: 0 <= i < |order| ==> order[i] in m)
    && (forall k :: k in m ==> k in order)
    && (forall i, j :: 0 <= i < j < |order| ==> order[i] != order[j])
  }

  function CopyRules(order: seq<string>, m: map<string, string>): (r: seq<(string, string)>)
    requires forall i :: 0 <= i < |order| ==> order[i] in m
    ensures |r| == |order| && forall i :: 0 <= i < |order| ==> r[i] == (order[i], m[order[i]])
  {
    seq(|order|, i requires 0 <= i < |order| => (order[i], m[order[i]]))
  }

  /** The panic and warning message: a fixed lead-in followed by the report. */
  function NoLicenseMessage(report: string): (r: string)
    ensures IsPrefix("No licenses found for: ", r) && r[|"No licenses found for: "|..] == report
  {
    "No licenses found for: " + report
  }

  /**
   * `LicenseRetriever::async_from_config` over the given metadata packages.
   * On success the entries are the resolved ones in metadata order after the
   * copy rules, and `warning` carries the report when it is non-empty; in
   * strict mode a non-empty report is the run's error instead.
   */
  method FromConfig(packages: seq<Package>, rule: RowRule, cfg: Config, order: seq<string>, env: Env, net: Url -> Http)
    returns (r: Result<seq<Entry>>, warning: Option<string>)
    requires Enumerates(order, cfg.licenseCopyingCrates)
    ensures ResolveAll(packages, rule, cfg, env, net).Err? ==> r == Err(ResolveAll(packages, rule, cfg, env, net).error)
    ensures ResolveAll(packages, rule, cfg, env, net).Ok? ==>
      var copied := ApplyRules(ResolveAll(packages, rule, cfg, env, net).value, CopyRules(order, cfg.licenseCopyingCrates));
      && (copied.Err? ==> r == Err(copied.error))
      && (copied.Ok? ==>
            var report := UnlicensedReport(copied.value, cfg.ignoredCrates);
            && (report == [] ==> r == Ok(copied.value))
            && (report != [] && cfg.panicIfNoLicenseFound ==> r == Err(NoLicenseFound(NoLicenseMessage(report))))
            && (report != [] && !cfg.panicIfNoLicenseFound ==> r == Ok(copied.value)))
    ensures r.Ok? ==>
      && |r.value| == |packages|
      && (forall k :: 0 <= k < |packages| ==> r.value[k].package == packages[k])
      && (warning.Some? <==> Unlicensed(r.value, cfg.ignoredCrates) != [])
      && (warning.Some? ==> warning.value == NoLicenseMessage(UnlicensedReport(r.value, cfg.ignoredCrates)))
      && (cfg.panicIfNoLicenseFound ==> Unlicensed(r.value, cfg.ignoredCrates) == [])
    ensures r.Err? ==> warning.None?
  {
    warning := None;
    var resolved := ResolveAll(packages, rule, cfg, env, net);
    if resolved.Err? {
      return Err(resolved.error), None;
    }
    var entries := new Entry[|resolved.value|](i requires 0 <= i < |resolved.value| => resolved.value[i]);
    assert entries[..] == resolved.value;
    var rules := CopyRules(order, cfg.licenseCopyingCrates);
    var err := CopyLicenses(entries, rules);
    if err.Some? {
      return Err(err.value), None;
    }
    ApplyRulesKeepsPackages(resolved.value, rules);
    var licenses := entries[..];
    var report := UnlicensedReport(licenses, cfg.ignoredCrates);
    if report != [] {
      var msg := NoLicenseMessage(report);
      if cfg.panicIfNoLicenseFound {
        return Err(NoLicenseFound(msg)), None;
      }
      warning := Some(msg);
    }
    r := Ok(licenses);
  }
}
