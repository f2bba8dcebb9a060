/**
 * Values shared by the whole model of the license retriever: packages and
 * their resolved license texts, the error enumeration, and the oracles that
 * stand for the HTTP client, the HTML parser, the URL library and the
 * regular expressions.
 */
module Common {

  datatype Option<+T> = None | Some(value: T)

  /** An absolute URL as the URL library parsed it; `text` is its serialisation. */
  datatype Url = Url(text: string)

  /** The error enumeration of the library, one variant per way a run can fail. */
  datatype Error =
    | Http(url: Url)                       // transport failure, or a body that could not be read
    | Html                                 // the HTML parser rejected a page
    | UrlParse                             // a URL built from a package name did not parse
    | NotCratesIoFileList(listUrl: Url)    // the anchor query on a docs.rs listing gave no iterator
    | NotGithubHomePage(pageUrl: Url)      // the file-row query on a GitHub page gave no iterator
    | CopierCrateNotFound(copier: string)
    | CopiedCrateNotFound(copied: string)
    | NoLicenseFound(message: string)      // the panic of the strict mode

  datatype Result<+T> = Ok(value: T) | Err(error: Error)

  /** The answer of the network to a GET request. */
  datatype Http = NotFound | Body(content: string) | Failure

  /**
   * A node handle returned by a selector query: a handle that does not
   * resolve in the parser, an element with its `href` attribute (absent, or
   * present without a value, is `None`) and inner text, or any other node
   * with its inner text.
   */
  datatype Node = Dangling | Tag(href: Option<string>, inner: string) | Raw(inner: string)

  /** The outcome of parsing a page and querying one selector. */
  datatype Selection = Unparsable | NoMatch | Matches(nodes: seq<Node>)

  /** The pure collaborators the resolution logic consults, taken as given. */
  datatype Env = Env(
    parse: string -> Option<Url>,           // Url::parse
    join: (Url, string) -> Option<Url>,     // Url::join
    select: (string, string) -> Selection,  // tl::parse of a page, then query_selector
    isDocsRsSource: string -> bool,         // DOCS_RS_REGEX.is_match
    isGithubHomePage: string -> bool,       // GITHUB_HOME_PAGE_REGEX.is_match
    githubRaw: string -> string)            // GITHUB_FILE_REGEX.replace to the raw-content host

  /** The part of a cargo package the resolution logic looks at. */
  datatype Package = Package(name: string, version: string, repository: Option<string>)

  /** One element of the result: a package and its license texts. */
  datatype Entry = Entry(package: Package, licenses: seq<string>)
}
