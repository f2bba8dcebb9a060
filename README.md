# license-retriever: the license-resolution logic, modelled in Dafny

license-retriever is a Rust build-time library. It finds the license texts of
every package listed in cargo metadata. This project models the resolution
logic of `src/lib.rs` and proves properties of it:

- the `Config` builder: text overrides, URL overrides, copy rules, ignored
  crates and strict mode;
- per package, a fixed fallback chain: the text override, then the URL
  override, then the docs.rs source listing of the exact version, then the
  docs.rs listing of `latest`, then the GitHub home page of the package's
  repository;
- the scraping rules for docs.rs listings and GitHub home pages: which links
  count as license files, the `./` strip, 404 as "no data", and a missing
  selector as a hard error;
- the run as a whole: results zipped back onto the metadata packages in
  order, the copy rules applied in place, and the report of unlicensed,
  non-ignored packages (a warning, or an error in strict mode).

The network is a parameter `net: Url -> Http`, where `Http` is
`NotFound | Body(s) | Failure`. The HTML parser, `Url::parse`, `Url::join`,
the three regular expressions and the GitHub blob-to-raw rewrite are
fields of the `Env` datatype. All of them are taken as given functions.
Statements of the form "no lookup is performed" are proved as independence
from `net`: two networks that agree on the URLs that matter give the same
result.

Files, one module each, in dependency order: `common.dfy` (types and
oracles), `seqs.dfy` (the iterator combinators `map`, `filter_map`,
`flatten`, `try_join_all`), `text.dfy` (lower-casing, `contains`,
`strip_prefix`, `join`), `config.dfy` (the `Config` class and its builder
methods), `fetch.dfy` (the three remote lookups), `resolve.dfy` (the
per-package fallback chain), `retriever.dfy` (the whole run).

Docs.rs links are filtered on their `href`; only hrefs starting with `./`
are kept. The run passes no manifest path to cargo metadata
(src/lib.rs:457), so `Config.manifestPath` is never read.

The GitHub lookup turns each file row into a URL by a row rule. The rule
`AsWritten` is the library's code: it rewrites the row's inner text.
`Corrected` rewrites the row's link target, which is what the rewrite is
for (see Findings). The rule is a parameter of the whole chain, from
`Fetch.GithubLicenses` through `Resolve.PackageLicenses` to
`Retriever.FromConfig`, so both runs are modelled.

## Model

| member | source | states |
|---|---|---|
| `Seqs.TryJoinAll` | src/lib.rs:359-363 | Joining fallible results succeeds iff every element succeeds. It then holds all values in order, one per input. Otherwise it holds the error of the first failing element, and every earlier element succeeded. |
| `Seqs.FilterMapAppend` | src/lib.rs:343-358 | A `filter_map` pipeline distributes over concatenation, so kept items keep their input order. |
| `Seqs.FilterMapMember` | src/lib.rs:343-358 | A value is kept iff some input element maps to it. |
| `Seqs.SomesOfImages` | src/lib.rs:359-363 | Flattening the optional results of a fan-out equals filtering the inputs by their results. |
| `Text.StripPrefix` | src/lib.rs:349 | Stripping succeeds iff `p` is a prefix. On success, `p` followed by the rest gives back the input. |
| `Text.ContainsAt` | src/lib.rs:348 | `contains(sub)` holds iff `sub` starts at some position of the string. |
| `Text.Lower` | src/lib.rs:348 | Lower-casing keeps the length. No upper-case ASCII letter is left. Upper-case letters become their lower-case forms, and every other character is kept. |
| `Text.IsLicenseNameExactly` | src/lib.rs:348 | A name passes the license test iff its lower-cased form has "license" or "licence" starting at some position. |
| `Text.Join` | src/lib.rs:490 | The joined string is empty iff there are no items, or a single empty item. |
| `Text.JoinContains` | src/lib.rs:490 | Every item occurs in the joined string. |
| `LicenseConfig.ParseAll` | src/lib.rs:264-267 | Parsing a URL list succeeds iff every URL parses. The result holds the parsed URLs in order. |
| `LicenseConfig.Config.constructor` | src/lib.rs:223-231 | The default configuration is empty and not strict. |
| `LicenseConfig.Config.PanicIfNoLicenseFound` | src/lib.rs:234-237 | Sets the strict flag. Every other field is unchanged. |
| `LicenseConfig.Config.CopyLicense` | src/lib.rs:239-243 | Maps `copier` to `copied`, replacing any earlier rule for that copier. Nothing else changes. |
| `LicenseConfig.Config.OverrideLicenseText` | src/lib.rs:245-255 | Maps the crate to the given texts. Nothing else changes. |
| `LicenseConfig.Config.OverrideLicenseUrl` | src/lib.rs:257-270 | Requires every URL to parse (the source panics otherwise). Maps the crate to the parsed URLs in order. Nothing else changes. |
| `LicenseConfig.Config.Ignore` | src/lib.rs:272-275 | Adds the crate to the ignored set. Nothing else changes. |
| `LicenseConfig.TestSuiteConfig` | tests/test.rs:6-21 | The integration test's builder chain yields strict mode, one ignored crate, no text overrides, no manifest path, and the gloo-timers URL overrides in order. The copy rules are exactly six keys, each with its source crate; the repeated `stdweb-derive` rule keeps one entry. |
| `LicenseConfig.TestCopyRulesContents` | tests/test.rs:8-20 | The test's seven `copy_license` calls leave exactly six rules, with the value of each. |
| `Fetch.DocsRsCode` | src/lib.rs:303-315 | Gives the inner text of the first `code` node when the page parses and that node resolves. Otherwise gives the raw page. |
| `Fetch.LicenseText` | src/lib.rs:288-316 | A 404 gives `Ok(None)`. A transport failure gives an `Http` error for that URL. A body gives the document. For a docs.rs source view, the document is the `code` text. |
| `Fetch.FetchAll` | src/lib.rs:357-363 | Succeeds iff no URL fails. The result holds the documents in URL order with 404s dropped. Otherwise it holds the error of the first failing URL. |
| `Fetch.FetchAllReadsOnlyItsUrls` | src/lib.rs:418-423 | The fetched texts depend only on the network's answers for the listed URLs. |
| `Fetch.ListingTarget` | src/lib.rs:346-350 | An anchor is fetched iff all of these hold: it has an `href`; the href's lower-cased form contains "license" or "licence"; it starts with `./`; the rest joins onto the listing URL. The joined URL is what gets fetched. |
| `Fetch.ListingAddress` | src/lib.rs:322-330 | The listing address lies under `https://docs.rs/crate/<name>/` and ends in `/source/`. The segment between is the package's version for the exact listing, and `latest` otherwise. |
| `Fetch.CratesIoLicenses` | src/lib.rs:318-365 | These outcomes apply in order. An unparsable listing address is a URL error. A 404 on the listing is `Ok([])`. A failure is an `Http` error. An unparsable page is an HTML error. When the anchor query returns nothing (`NoMatch`), the error is `NotCratesIoFileList`. Otherwise the result is the fetch of the license links. |
| `Fetch.ListingTargetsExactly` | src/lib.rs:343-350 | A URL is fetched from a listing iff some anchor passes all three filters and joins to it. |
| `Fetch.ListingTargetsInOrder` | src/lib.rs:343-358 | Fetched listing URLs follow anchor order. |
| `Fetch.GithubTargetAsWritten` | src/lib.rs:380-390 | As written: a file row is fetched iff its inner text names a license and the rewritten text parses as a URL. |
| `Fetch.GithubTarget` | src/lib.rs:380-390 | Corrected: a row is fetched iff all of these hold: its inner text names a license; its href joins onto the page URL; the rewritten blob URL parses. |
| `Fetch.GithubPage` | src/lib.rs:367-400 | A 404 is `Ok([])`. A failure is an `Http` error. An unparsable page is an HTML error. When the file-row query returns nothing (`NoMatch`), the error is `NotGithubHomePage`. Otherwise the result is the fetch of the selected rows. |
| `Fetch.GithubLicenses` | src/lib.rs:367-400 | Under either row rule, a successful lookup yields at most one document per file row the rule turns into a URL. So there is also at most one per node the file-row selector matches. |
| `Fetch.GithubAsWrittenIgnoresFileRows` | src/lib.rs:383-390 | As written, a page whose row texts do not parse as URLs after the rewrite yields `Ok([])`, whatever the rows link to. |
| `Fetch.GithubTargetsExactly` | src/lib.rs:380-393 | Corrected: a URL is fetched iff it is the raw form of the link of a row whose text names a license. |
| `Fetch.GithubLicenseRow` | src/lib.rs:383-390 | Takes a single `LICENSE` row linking to its blob view. The as-written lookup yields nothing. The corrected one yields the raw file's text. |
| `Resolve.Fallback` | src/lib.rs:431-450 | The answer is the first stage that failed or found something. If every earlier stage was empty, the answer is the last stage. |
| `Resolve.RepositoryHome` | src/lib.rs:441-443 | The GitHub page is consulted iff the repository is set, parses as a URL, and matches the home-page pattern. |
| `Resolve.RemoteStages` | src/lib.rs:427-450 | The remote stages in order: the exact-version listing, then the `latest` listing. A third stage, the GitHub page under the given row rule, exists iff the repository is a GitHub home page. |
| `Resolve.PackageLicenses` | src/lib.rs:402-451 | Without overrides, the answer is one of the remote stages' answers. With only a URL override, it fails iff one of the override URLs fails. |
| `Resolve.ResolvePackage` | src/lib.rs:402-451 | The step-by-step chain computes exactly the specified resolution of the package. |
| `Resolve.TextOverrideIsTerminal` | src/lib.rs:406-412 | A text override is the result, even when empty. It does not depend on the network at all. |
| `Resolve.UrlOverrideReadsOnlyItsUrls` | src/lib.rs:413-425 | Without a text override, a URL override gives the documents of its URLs in order, with 404s dropped. It depends only on the answers for those URLs. |
| `Resolve.FallbackOrder` | src/lib.rs:431-450 | A failing or non-empty exact listing decides. Otherwise a failing or non-empty `latest` listing decides. Otherwise the GitHub page decides when the repository is a GitHub home page, else the result is `Ok([])`. |
| `Resolve.ExactListingScenario` | src/lib.rs:402-451 | Takes `foo 1.2.3` with one `./LICENSE-MIT` link on its exact listing. That link is a docs.rs source view. The package resolves to the view's `code` block under either row rule, whatever the network answers for `latest`. |
| `Resolve.GithubOnlyPackage` | src/lib.rs:441-450 | Takes a package found only through a GitHub `LICENSE` row. As written it resolves to `Ok([])`; under the corrected rule, to the raw file's text. |
| `Retriever.ResolveAll` | src/lib.rs:458-468 | On success there is exactly one entry per metadata package, in metadata order, each paired with that package's texts. On failure the error comes from the first failing package. |
| `Retriever.FirstNamed` | src/lib.rs:478-481 | Gives the first entry with the name, or none iff no entry has it. |
| `Retriever.MostLicensed` | src/lib.rs:471-477 | Gives an entry with the name and the most texts; on a tie, the last of the tied entries. Gives none iff no entry has the name. |
| `Retriever.CopyLicense` | src/lib.rs:470-483 | If `copied` is missing the result is `CopiedCrateNotFound` (checked first). Otherwise, if `copier` is missing, the result is `CopierCrateNotFound`. Otherwise the first copier entry takes the most-licensed copied entry's texts, and all other entries are unchanged. |
| `Retriever.ApplyRulesKeepsPackages` | src/lib.rs:470-483 | The copy step keeps the length, the packages and their order. |
| `Retriever.ApplyRulesTouchesOnlyCopiers` | src/lib.rs:470-483 | An entry whose name no rule uses as copier keeps its texts. |
| `Retriever.ApplyRules` | src/lib.rs:470-483 | A failed copy step's error names the copied or copier crate of one of the rules. |
| `Retriever.ApplyRulesFirstFailure` | src/lib.rs:470-483 | A failed copy step failed at its first failing rule. All earlier rules succeeded, and that rule's error on their result is the step's error. |
| `Retriever.CopyLicenses` | src/lib.rs:470-483 | The in-place loop over the entries array ends in the state the rules specify, or returns the error of the first failing rule. |
| `Retriever.Unlicensed` | src/lib.rs:485-488 | The report has at most one package per entry. Every reported package is not ignored, and some entry pairs it with no texts. |
| `Retriever.UnlicensedExactly` | src/lib.rs:485-488 | A package is reported iff it is not ignored and some entry of it has no texts. |
| `Retriever.UnlicensedInOrder` | src/lib.rs:485-490 | The report follows entry order. |
| `Retriever.Describe` | src/lib.rs:489 | A package's description is its name, then a space, then its version. |
| `Retriever.UnlicensedReport` | src/lib.rs:485-491 | The joined report is empty iff no package is unlicensed. It contains the name and version of every unlicensed package. |
| `Retriever.NoLicenseMessage` | src/lib.rs:492 | The message is the fixed lead-in followed by the report, which can be read back from it. |
| `Retriever.GithubOnlyPackageReported` | src/lib.rs:456-492 | A run over that one non-ignored package reports it as unlicensed as written. Under the corrected rule, the package gets the raw text and the report is empty. |
| `Retriever.FromConfig` | src/lib.rs:456-501 | A resolution error and a copy error end the run. A non-empty report is an error in strict mode and a warning otherwise. On success the entries are in metadata order, and a warning is present iff some non-ignored package has no texts. |

## Left out

- Cargo metadata (src/lib.rs:278-286) is an external process. The package list is an input of `Retriever.FromConfig`.
- A package has only a name, a version (as its printed string) and a repository. The other cargo fields are carried along unused in the source.
- The request semaphore, the executor and the concurrent fan-outs are modelled as sequential maps that keep order. When several fetches fail, the model reports the first in list order. The source can report whichever fails first in time.
- The HTTP client is the `net` function, so a URL has one fixed answer. `get_license_text_from_url` sends a second GET after checking the first one's status. The model assumes the second GET answers as the first one did.
- `Failure` covers both transport errors and unreadable bodies. The `Http` error carries the URL but not the client's error value.
- The HTML parser and `query_selector` are the `select` oracle. Node handles that do not resolve are `Dangling`. Non-tag nodes are `Raw`.
- The `select` oracle may answer `NoMatch` for any page. In the HTML library this likely happens only for a selector string that does not parse, and the two selectors used are fixed. The model over-approximates: it can reach `NotCratesIoFileList` and `NotGithubHomePage` where the library, for a page without matching anchors, would give `Ok([])` (also covered, by `Matches([])`).
- `Url::parse`, `Url::join`, `DOCS_RS_REGEX`, `GITHUB_HOME_PAGE_REGEX` and the `GITHUB_FILE_REGEX` rewrite are oracles. The rewrite's output counts only if it parses.
- Text.Lower: lower-cases ASCII letters only. Unicode case mapping of `to_lowercase` is not modelled.
- The lossy UTF-8 reading of attribute values is not modelled. Strings are sequences of characters.
- The iteration order of `license_copying_crates` is unspecified. It is the `order` parameter of `Retriever.FromConfig`. Chained copies depend on it.
- Logging is not modelled. The strict-mode `panic!` is the error `NoLicenseFound` carrying the message. The warning is returned as a string.
- `to_bytes`, `from_bytes`, `save_in_out_dir`, the `license_retriever_data!` macro, `from_config` and `iter` (src/lib.rs:502-545) are not modelled. They are encoding, file I/O and blocking wrappers. The round trip asserted in tests/test.rs is a property of the serializer.
- The error variants `Metadata`, `Env`, `Encode`, `Decode`, `Io` and `Unknown` come only from those parts and are not produced by the model.
- src/error.rs and src/config.rs are declarations with no logic and are not part of this model.
- The GitHub row rule is a parameter of the chain: `AsWritten` is the library's code, `Corrected` the intended behaviour; see Findings.

## Findings

| source | as written | input that shows it | evidently intended | confidence | as-written member | corrected member |
|---|---|---|---|---|---|---|
| src/lib.rs:383-390 | The blob-to-raw rewrite and `Url::parse` are applied to each file row's inner text. | A GitHub home-page row `<a class="js-navigation-open Link--primary" href="/o/r/blob/main/LICENSE">LICENSE</a>`. The text `LICENSE` does not match the blob pattern and is not an absolute URL, so nothing is fetched and the lookup returns `Ok([])`. | Filter rows on their text, then rewrite the row's link target (resolved against the page URL) to its raw form and fetch that. | medium; not executed | `Fetch.GithubAsWrittenIgnoresFileRows` | `Fetch.GithubTargetsExactly` |
