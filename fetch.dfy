/**
 * The three remote lookups: one license document by URL, the license files
 * of a docs.rs source listing, and the license files of a GitHub home page.
 * A 404 is "no data", every other failure is an error of the run.
 */
module Fetch {
  import opened Common
  import opened Seqs
  import opened Text

  /** The text of a docs.rs source view: the inner text of its first `code` node, else the raw page. */
  function DocsRsCode(content: string, env: Env): (r: string)
    ensures (match env.select(content, "code")
             case Matches(ns) => |ns| > 0 && !ns[0].Dangling?
             case _ => false) ==> r == env.select(content, "code").nodes[0].inner
    ensures (match env.select(content, "code")
             case Matches(ns) => |ns| == 0 || ns[0].Dangling?
             case _ => true) ==> r == content
  {
    match env.select(content, "code")
    case Matches(ns) => if |ns| > 0 && !ns[0].Dangling? then ns[0].inner else content
    case _ => content
  }

  /** `get_license_text_from_url`: `None` on a 404, the document otherwise. */
  function LicenseText(url: Url, env: Env, net: Url -> Http): (r: Result<Option<string>>)
    ensures r.Err? <==> net(url) == Failure
    ensures r.Err? ==> r.error == Http(url)
    ensures r == Ok(None) <==> net(url) == NotFound
    ensures net(url).Body? && !env.isDocsRsSource(url.text) ==> r == Ok(Some(net(url).content))
    ensures net(url).Body? && env.isDocsRsSource(url.text) ==> r == Ok(Some(DocsRsCode(net(url).content, env)))
  {
    match net(url)
    case Failure => Err(Http(url))
    case NotFound => Ok(None)
    case Body(content) =>
      Ok(Some(if env.isDocsRsSource(url.text) then DocsRsCode(content, env) else content))
  }

  function LicenseTextFn(env: Env, net: Url -> Http): Url -> Result<Option<string>>
  {
    u => LicenseText(u, env, net)
  }

  /** The document a URL contributes when its fetch succeeds. */
  function Document(url: Url, env: Env, net: Url -> Http): Option<string>
  {
    match LicenseText(url, env, net)
    case Ok(o) => o
    case Err(_) => None
  }

  function DocumentFn(env: Env, net: Url -> Http): Url -> Option<string>
  {
    u => Document(u, env, net)
  }

  /**
   * Fetch every URL and flatten away the 404s: the documents in URL order,
   * or the error of the first URL whose fetch fails.
   */
  function FetchAll(urls: seq<Url>, env: Env, net: Url -> Http): (r: Result<seq<string>>)
    ensures r.Ok? <==> forall i :: 0 <= i < |urls| ==> net(urls[i]) != Failure
    ensures r.Ok? ==> r.value == FilterMap(urls, DocumentFn(env, net))
    ensures r.Err? ==> exists k :: 0 <= k < |urls| && net(urls[k]) == Failure && r.error == Http(urls[k])
                                   && forall i :: 0 <= i < k ==> net(urls[i]) != Failure
  {
    var fetched := Map(urls, LicenseTextFn(env, net));
    match TryJoinAll(fetched)
    case Err(e) => Err(e)
    case Ok(os) =>
      SomesOfImages(urls, os, DocumentFn(env, net));
      Ok(Somes(os))
  }

  /** The result of fetching a list of URLs depends on nothing but the answers for those URLs. */
  lemma FetchAllReadsOnlyItsUrls(urls: seq<Url>, env: Env, net: Url -> Http, net': Url -> Http)
    requires forall i :: 0 <= i < |urls| ==> net(urls[i]) == net'(urls[i])
    ensures FetchAll(urls, env, net) == FetchAll(urls, env, net')
  {
    assert Map(urls, LicenseTextFn(env, net)) == Map(urls, LicenseTextFn(env, net'));
    var r, r' := FetchAll(urls, env, net), FetchAll(urls, env, net');
    if r.Ok? {
      FilterMapSameImages(urls, DocumentFn(env, net), DocumentFn(env, net'));
    }
  }

  // ---- docs.rs source listings ----

  /**
   * The listing page of a package on docs.rs, for its version or for
   * `latest`: under the crate's name, ending in the `source/` directory.
   */
  function ListingAddress(p: Package, useLatest: bool): (r: string)
    ensures IsPrefix("https://docs.rs/crate/" + p.name + "/", r)
    ensures |r| >= 8 && r[|r| - 8..] == "/source/"
    ensures |"https://docs.rs/crate/" + p.name + "/"| <= |r| - 8
            && r[|"https://docs.rs/crate/" + p.name + "/"|..|r| - 8] == (if useLatest then "latest" else p.version)
  {
    "https://docs.rs/crate/" + p.name + "/" + (if useLatest then "latest" else p.version) + "/source/"
  }

  /** Which anchors of a listing are fetched, and from where. */
  function ListingTarget(n: Node, listUrl: Url, env: Env): (r: Option<Url>)
    ensures r.Some? <==>
      n.Tag? && n.href.Some? && IsLicenseName(n.href.value) && IsPrefix("./", n.href.value)
      && env.join(listUrl, n.href.value[2..]).Some?
    ensures r.Some? ==> r == env.join(listUrl, n.href.value[2..])
  {
    match n
    case Tag(Some(h), _) =>
      if IsLicenseName(h) then
        match StripPrefix(h, "./")
        case Some(rest) => env.join(listUrl, rest)
        case None => None
      else None
    case _ => None
  }

  function ListingTargetFn(listUrl: Url, env: Env): Node -> Option<Url>
  {
    n => ListingTarget(n, listUrl, env)
  }

  function ListingTargets(ns: seq<Node>, listUrl: Url, env: Env): seq<Url>
  {
    FilterMap(ns, ListingTargetFn(listUrl, env))
  }

  /** `get_license_texts_from_crates_io_package`. */
  function CratesIoLicenses(p: Package, useLatest: bool, env: Env, net: Url -> Http): (r: Result<seq<string>>)
    ensures env.parse(ListingAddress(p, useLatest)).None? ==> r == Err(UrlParse)
    ensures env.parse(ListingAddress(p, useLatest)).Some? ==>
      var listUrl := env.parse(ListingAddress(p, useLatest)).value;
      && (net(listUrl) == NotFound ==> r == Ok([]))
      && (net(listUrl) == Failure ==> r == Err(Http(listUrl)))
      && (net(listUrl).Body? ==>
            var page := env.select(net(listUrl).content, "a");
            && (page == Unparsable ==> r == Err(Html))
            && (page == NoMatch ==> r == Err(NotCratesIoFileList(listUrl)))
            && (page.Matches? ==> r == FetchAll(ListingTargets(page.nodes, listUrl, env), env, net)))
  {
    match env.parse(ListingAddress(p, useLatest))
    case None => Err(UrlParse)
    case Some(listUrl) =>
      match net(listUrl)
      case Failure => Err(Http(listUrl))
      case NotFound => Ok([])
      case Body(content) =>
        match env.select(content, "a")
        case Unparsable => Err(Html)
        case NoMatch => Err(NotCratesIoFileList(listUrl))
        case Matches(ns) => FetchAll(ListingTargets(ns, listUrl, env), env, net)
  }

  /**
   * A listing link is fetched exactly when its lower-cased href names a
   * license, starts with `./`, and the rest joins onto the listing URL.
   */
  lemma ListingTargetsExactly(ns: seq<Node>, listUrl: Url, env: Env, u: Url)
    ensures u in ListingTargets(ns, listUrl, env) <==>
      exists i :: 0 <= i < |ns| && ns[i].Tag? && ns[i].href.Some?
                  && IsLicenseName(ns[i].href.value) && IsPrefix("./", ns[i].href.value)
                  && env.join(listUrl, ns[i].href.value[2..]) == Some(u)
  {
    FilterMapMember(ns, ListingTargetFn(listUrl, env), u);
  }

  /** Listing links are fetched in the order the anchors appear on the page. */
  lemma ListingTargetsInOrder(ns: seq<Node>, ms: seq<Node>, listUrl: Url, env: Env)
    ensures ListingTargets(ns + ms, listUrl, env) == ListingTargets(ns, listUrl, env) + ListingTargets(ms, listUrl, env)
  {
    FilterMapAppend(ns, ms, ListingTargetFn(listUrl, env));
  }

  // ---- GitHub home pages ----

  const GithubFileRows := "a.js-navigation-open.Link--primary"

  /**
   * The blob-to-raw rewrite as the library applies it: to the anchor's inner
   * text (a file name such as `LICENSE`), not to its link target.
   */
  function GithubTargetAsWritten(n: Node, env: Env): (r: Option<Url>)
    ensures r.Some? <==> n.Tag? && IsLicenseName(n.inner) && env.parse(env.githubRaw(n.inner)).Some?
    ensures r.Some? ==> r == env.parse(env.githubRaw(n.inner))
  {
    match n
    case Tag(_, text) => if IsLicenseName(text) then env.parse(env.githubRaw(text)) else None
    case _ => None
  }

  /** The rewrite as intended: the anchor's link target, resolved against the page, made raw. */
  function GithubTarget(n: Node, pageUrl: Url, env: Env): (r: Option<Url>)
    ensures r.Some? <==>
      n.Tag? && n.href.Some? && IsLicenseName(n.inner) && env.join(pageUrl, n.href.value).Some?
      && env.parse(env.githubRaw(env.join(pageUrl, n.href.value).value.text)).Some?
    ensures r.Some? ==> r == env.parse(env.githubRaw(env.join(pageUrl, n.href.value).value.text))
  {
    match n
    case Tag(Some(h), text) =>
      if IsLicenseName(text) then
        match env.join(pageUrl, h)
        case Some(blob) => env.parse(env.githubRaw(blob.text))
        case None => None
      else None
    case _ => None
  }

  function GithubTargetAsWrittenFn(env: Env): Node -> Option<Url>
  {
    n => GithubTargetAsWritten(n, env)
  }

  function GithubTargetFn(pageUrl: Url, env: Env): Node -> Option<Url>
  {
    n => GithubTarget(n, pageUrl, env)
  }

  /** `get_license_texts_from_github_repo`, with the rule that turns a file row into a URL. */
  function GithubPage(pageUrl: Url, env: Env, net: Url -> Http, target: Node -> Option<Url>): (r: Result<seq<string>>)
    ensures net(pageUrl) == NotFound ==> r == Ok([])
    ensures net(pageUrl) == Failure ==> r == Err(Http(pageUrl))
    ensures net(pageUrl).Body? ==>
      var page := env.select(net(pageUrl).content, GithubFileRows);
      && (page == Unparsable ==> r == Err(Html))
      && (page == NoMatch ==> r == Err(NotGithubHomePage(pageUrl)))
      && (page.Matches? ==> r == FetchAll(FilterMap(page.nodes, target), env, net))
  {
    match net(pageUrl)
    case Failure => Err(Http(pageUrl))
    case NotFound => Ok([])
    case Body(content) =>
      match env.select(content, GithubFileRows)
      case Unparsable => Err(Html)
      case NoMatch => Err(NotGithubHomePage(pageUrl))
      case Matches(ns) => FetchAll(FilterMap(ns, target), env, net)
  }

  /** Which rule turns a file row into a URL: the library's as written, or the intended one. */
  datatype RowRule = AsWritten | Corrected

  function RowTarget(rule: RowRule, pageUrl: Url, env: Env): Node -> Option<Url>
  {
    match rule
    case AsWritten => GithubTargetAsWrittenFn(env)
    case Corrected => GithubTargetFn(pageUrl, env)
  }

  /** `get_license_texts_from_github_repo` under a row rule: at most one document per file row. */
  function GithubLicenses(rule: RowRule, pageUrl: Url, env: Env, net: Url -> Http): (r: Result<seq<string>>)
    ensures r.Ok? && net(pageUrl).Body? ==>
      env.select(net(pageUrl).content, GithubFileRows).Matches?
      && |r.value| <= |FilterMap(env.select(net(pageUrl).content, GithubFileRows).nodes, RowTarget(rule, pageUrl, env))|
      && |r.value| <= |env.select(net(pageUrl).content, GithubFileRows).nodes|
  {
    GithubPage(pageUrl, env, net, RowTarget(rule, pageUrl, env))
  }

  /**
   * As written, a home page whose file rows show plain file names (no
   * scheme, so the URL library rejects them) contributes nothing, whatever the
   * rows link to.
   */
  lemma GithubAsWrittenIgnoresFileRows(pageUrl: Url, env: Env, net: Url -> Http)
    requires net(pageUrl).Body?
    requires env.select(net(pageUrl).content, GithubFileRows).Matches?
    requires var ns := env.select(net(pageUrl).content, GithubFileRows).nodes;
      forall i :: 0 <= i < |ns| && ns[i].Tag? ==> env.parse(env.githubRaw(ns[i].inner)).None?
    ensures GithubLicenses(AsWritten, pageUrl, env, net) == Ok([])
  {
    var ns := env.select(net(pageUrl).content, GithubFileRows).nodes;
    FilterMapNone(ns, GithubTargetAsWrittenFn(env));
  }

  /**
   * The corrected lookup fetches exactly the rows whose text names a
   * license, from the raw form of the file they link to.
   */
  lemma GithubTargetsExactly(ns: seq<Node>, pageUrl: Url, env: Env, u: Url)
    ensures u in FilterMap(ns, GithubTargetFn(pageUrl, env)) <==>
      exists i :: 0 <= i < |ns| && ns[i].Tag? && ns[i].href.Some? && IsLicenseName(ns[i].inner)
                  && env.join(pageUrl, ns[i].href.value).Some?
                  && env.parse(env.githubRaw(env.join(pageUrl, ns[i].href.value).value.text)) == Some(u)
  {
    FilterMapMember(ns, GithubTargetFn(pageUrl, env), u);
  }

  /**
   * The same single-row page, through both rules: a `LICENSE` row linking to
   * its blob view yields nothing as written, and its raw document when corrected.
   */
  lemma GithubLicenseRow(pageUrl: Url, env: Env, net: Url -> Http, href: string, blob: Url, raw: Url, text: string)
    requires net(pageUrl).Body?
    requires env.select(net(pageUrl).content, GithubFileRows) == Matches([Tag(Some(href), "LICENSE")])
    requires env.parse(env.githubRaw("LICENSE")) == None
    requires env.join(pageUrl, href) == Some(blob) && env.parse(env.githubRaw(blob.text)) == Some(raw)
    requires net(raw) == Body(text) && !env.isDocsRsSource(raw.text)
    ensures GithubLicenses(AsWritten, pageUrl, env, net) == Ok([])
    ensures GithubLicenses(Corrected, pageUrl, env, net) == Ok([text])
  {
    var row := Tag(Some(href), "LICENSE");
    assert Lower("LICENSE") == "license";
    assert IsPrefix("license", Lower("LICENSE"));
    assert GithubTarget(row, pageUrl, env) == Some(raw);
    assert FilterMap([row], GithubTargetFn(pageUrl, env)) == [raw];
    assert FilterMap([raw], DocumentFn(env, net)) == [text];
    assert FilterMap([row], GithubTargetAsWrittenFn(env)) == [];
  }
}
