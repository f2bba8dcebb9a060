/**
 * The per-package fallback chain: text override, URL override, the docs.rs
 * listing of the exact version, the docs.rs listing of `latest`, and the
 * GitHub home page named by the package's repository.
 */
module Resolve {
  import opened Common
  import opened Seqs
  import opened Text
  import opened Fetch
  import opened LicenseConfig

  /**
   * Try the stages in order: the first one that fails or finds something
   * decides, and when all find nothing the last (empty) answer stands.
   */
  function Fallback(stages: seq<Result<seq<string>>>): (r: Result<seq<string>>)
    requires |stages| > 0
    ensures exists k :: 0 <= k < |stages| && r == stages[k]
                        && (forall i :: 0 <= i < k ==> stages[i] == Ok([]))
                        && (k < |stages| - 1 ==> stages[k] != Ok([]))
  {
    if |stages| == 1 || stages[0] != Ok([]) then stages[0]
    else
      var r := Fallback(stages[1..]);
      assert forall i :: 1 <= i < |stages| ==> stages[1..][i - 1] == stages[i];
      r
  }

  /** The repository of a package, when it parses as a URL of the GitHub home-page shape. */
  function RepositoryHome(p: Package, env: Env): (r: Option<Url>)
    ensures r.Some? <==>
      p.repository.Some? && env.parse(p.repository.value).Some?
      && env.isGithubHomePage(env.parse(p.repository.value).value.text)
    ensures r.Some? ==> r == env.parse(p.repository.value)
  {
    match p.repository
    case None => None
    case Some(s) =>
      match env.parse(s)
      case None => None
      case Some(u) => if env.isGithubHomePage(u.text) then Some(u) else None
  }

  /**
   * The remote stages, in the order they are tried: the exact-version
   * listing, the `latest` listing, and the GitHub page only when the
   * repository is a GitHub home page.
   */
  function RemoteStages(p: Package, rule: RowRule, env: Env, net: Url -> Http): (r: seq<Result<seq<string>>>)
    ensures |r| == (if RepositoryHome(p, env).Some? then 3 else 2)
    ensures r[0] == CratesIoLicenses(p, false, env, net) && r[1] == CratesIoLicenses(p, true, env, net)
    ensures |r| == 3 ==> r[2] == GithubLicenses(rule, RepositoryHome(p, env).value, env, net)
  {
    [CratesIoLicenses(p, false, env, net), CratesIoLicenses(p, true, env, net)]
    + match RepositoryHome(p, env)
      case Some(home) => [GithubLicenses(rule, home, env, net)]
      case None => []
  }

  /**
   * `get_license_texts_from_package`, as a specification, under a GitHub row
   * rule. Without overrides the answer is one of the remote stages' answers;
   * a URL override fails exactly when one of its URLs fails.
   */
  function PackageLicenses(p: Package, rule: RowRule, cfg: Config, env: Env, net: Url -> Http): (r: Result<seq<string>>)
    reads cfg
    ensures p.name !in cfg.licenseTextOverrides && p.name !in cfg.licenseUrlOverrides ==>
      r in RemoteStages(p, rule, env, net)
    ensures p.name !in cfg.licenseTextOverrides && p.name in cfg.licenseUrlOverrides ==>
      var urls := cfg.licenseUrlOverrides[p.name];
      (r.Ok? <==> forall i :: 0 <= i < |urls| ==> net(urls[i]) != Failure)
  {
    if p.name in cfg.licenseTextOverrides then Ok(cfg.licenseTextOverrides[p.name])
    else if p.name in cfg.licenseUrlOverrides then FetchAll(cfg.licenseUrlOverrides[p.name], env, net)
    else Fallback(RemoteStages(p, rule, env, net))
  }

  /** `get_license_texts_from_package`: each later source only when the earlier ones found nothing. */
  method ResolvePackage(p: Package, rule: RowRule, cfg: Config, env: Env, net: Url -> Http) returns (r: Result<seq<string>>)
    ensures r == PackageLicenses(p, rule, cfg, env, net)
  {
    if p.name in cfg.licenseTextOverrides {
      return Ok(cfg.licenseTextOverrides[p.name]);
    }
    if p.name in cfg.licenseUrlOverrides {
      return FetchAll(cfg.licenseUrlOverrides[p.name], env, net);
    }
    FallbackOrder(p, rule, cfg, env, net);
    var licenses := CratesIoLicenses(p, false, env, net);
    if licenses.Err? {
      return licenses;
    }
    if licenses.value == [] {
      licenses := CratesIoLicenses(p, true, env, net);
      if licenses.Err? {
        return licenses;
      }
    }
    if licenses.value == [] {
      var home := RepositoryHome(p, env);
      if home.Some? {
        licenses := GithubLicenses(rule, home.value, env, net);
      }
    }
    r := licenses;
  }

  /** A text override is the answer, even when empty, and no network answer can change it. */
  lemma TextOverrideIsTerminal(p: Package, rule: RowRule, cfg: Config, env: Env, net: Url -> Http, net': Url -> Http)
    requires p.name in cfg.licenseTextOverrides
    ensures PackageLicenses(p, rule, cfg, env, net) == Ok(cfg.licenseTextOverrides[p.name])
    ensures PackageLicenses(p, rule, cfg, env, net) == PackageLicenses(p, rule, cfg, env, net')
  {
  }

  /**
   * Otherwise a URL override is the answer: the documents of its URLs in
   * order with 404s dropped, depending on no answer but those for its URLs.
   */
  lemma UrlOverrideReadsOnlyItsUrls(p: Package, rule: RowRule, cfg: Config, env: Env, net: Url -> Http, net': Url -> Http)
    requires p.name !in cfg.licenseTextOverrides && p.name in cfg.licenseUrlOverrides
    requires var urls := cfg.licenseUrlOverrides[p.name];
      forall i :: 0 <= i < |urls| ==> net(urls[i]) == net'(urls[i])
    ensures var urls := cfg.licenseUrlOverrides[p.name];
      && PackageLicenses(p, rule, cfg, env, net) == FetchAll(urls, env, net)
      && (PackageLicenses(p, rule, cfg, env, net).Ok? ==>
            PackageLicenses(p, rule, cfg, env, net).value == FilterMap(urls, DocumentFn(env, net)))
    ensures PackageLicenses(p, rule, cfg, env, net) == PackageLicenses(p, rule, cfg, env, net')
  {
    FetchAllReadsOnlyItsUrls(cfg.licenseUrlOverrides[p.name], env, net, net');
  }

  /**
   * Without overrides: the exact-version listing decides unless it found
   * nothing; then the `latest` listing decides unless it found nothing; then
   * the GitHub page is the answer if the repository is a GitHub home page,
   * and the empty list otherwise.
   */
  lemma FallbackOrder(p: Package, rule: RowRule, cfg: Config, env: Env, net: Url -> Http)
    requires p.name !in cfg.licenseTextOverrides && p.name !in cfg.licenseUrlOverrides
    ensures var exact, latest := CratesIoLicenses(p, false, env, net), CratesIoLicenses(p, true, env, net);
      var r := PackageLicenses(p, rule, cfg, env, net);
      && (exact != Ok([]) ==> r == exact)
      && (exact == Ok([]) && latest != Ok([]) ==> r == latest)
      && (exact == Ok([]) && latest == Ok([]) ==>
            r == match RepositoryHome(p, env)
                 case Some(home) => GithubLicenses(rule, home, env, net)
                 case None => Ok([]))
  {
    var stages := RemoteStages(p, rule, env, net);
    var r := Fallback(stages);
    var k :| 0 <= k < |stages| && r == stages[k]
             && (forall i :: 0 <= i < k ==> stages[i] == Ok([]))
             && (k < |stages| - 1 ==> stages[k] != Ok([]));
    if stages[0] == Ok([]) && stages[1] == Ok([]) && RepositoryHome(p, env).None? {
      assert |stages| == 2;
    }
  }

  /**
   * The listing page of a package linking one docs.rs source view, and the
   * `code` block of that view.
   */
  predicate ListingServesOneFile(p: Package, env: Env, net: Url -> Http, href: string, file: Url, code: string)
  {
    && env.parse(ListingAddress(p, false)).Some?
    && var listUrl := env.parse(ListingAddress(p, false)).value;
       && net(listUrl).Body?
       && |href| >= 2 && href[..2] == "./"
       && env.select(net(listUrl).content, "a") == Matches([Tag(Some(href), href[2..])])
       && env.join(listUrl, href[2..]) == Some(file)
       && net(file).Body? && env.isDocsRsSource(file.text)
       && env.select(net(file).content, "code") == Matches([Tag(None, code)])
  }

  /**
   * A package `foo 1.2.3` without overrides whose exact-version listing links
   * one `./LICENSE-MIT` source view resolves to that view's code block, under
   * either row rule, and the `latest` listing has no say, whatever the
   * network answers for it.
   */
  lemma ExactListingScenario(rule: RowRule, cfg: Config, env: Env, net: Url -> Http, file: Url, code: string)
    requires "foo" !in cfg.licenseTextOverrides && "foo" !in cfg.licenseUrlOverrides
    requires ListingServesOneFile(Package("foo", "1.2.3", None), env, net, "./LICENSE-MIT", file, code)
    ensures PackageLicenses(Package("foo", "1.2.3", None), rule, cfg, env, net) == Ok([code])
  {
    var p := Package("foo", "1.2.3", None);
    var listUrl := env.parse(ListingAddress(p, false)).value;
    var row := Tag(Some("./LICENSE-MIT"), "LICENSE-MIT");
    assert forall i :: 0 <= i < 13 ==> Lower("./LICENSE-MIT")[i] == "./license-mit"[i];
    assert Lower("./LICENSE-MIT") == "./license-mit";
    assert Lower("./LICENSE-MIT")[2..][..7] == "license";
    ContainsAt(Lower("./LICENSE-MIT"), "license");
    assert ListingTarget(row, listUrl, env) == Some(file);
    assert ListingTargets([row], listUrl, env) == [file];
    assert Document(file, env, net) == Some(code);
    assert FilterMap([file], DocumentFn(env, net)) == [code];
    assert CratesIoLicenses(p, false, env, net) == Ok([code]);
    FallbackOrder(p, rule, cfg, env, net);
  }

  /**
   * A package without overrides found only through a GitHub `LICENSE` row
   * linking to its blob view: both listings find nothing and the repository
   * is a GitHub home page with that one row.
   */
  predicate GithubOnly(p: Package, cfg: Config, env: Env, net: Url -> Http, href: string, blob: Url, raw: Url, text: string)
    reads cfg
  {
    && p.name !in cfg.licenseTextOverrides && p.name !in cfg.licenseUrlOverrides
    && CratesIoLicenses(p, false, env, net) == Ok([]) && CratesIoLicenses(p, true, env, net) == Ok([])
    && RepositoryHome(p, env).Some?
    && var home := RepositoryHome(p, env).value;
       && net(home).Body?
       && env.select(net(home).content, GithubFileRows) == Matches([Tag(Some(href), "LICENSE")])
       && env.join(home, href) == Some(blob)
       && env.parse(env.githubRaw("LICENSE")) == None
       && env.parse(env.githubRaw(blob.text)) == Some(raw)
       && net(raw) == Body(text) && !env.isDocsRsSource(raw.text)
  }

  /**
   * The GitHub page decides such a package. As written it resolves to no
   * texts; under the corrected rule it resolves to the raw file's text.
   */
  lemma GithubOnlyPackage(p: Package, cfg: Config, env: Env, net: Url -> Http, href: string, blob: Url, raw: Url, text: string)
    requires GithubOnly(p, cfg, env, net, href, blob, raw, text)
    ensures PackageLicenses(p, AsWritten, cfg, env, net) == Ok([])
    ensures PackageLicenses(p, Corrected, cfg, env, net) == Ok([text])
  {
    var home := RepositoryHome(p, env).value;
    GithubLicenseRow(home, env, net, href, blob, raw, text);
    FallbackOrder(p, AsWritten, cfg, env, net);
    FallbackOrder(p, Corrected, cfg, env, net);
  }
}
