/**
 * The configuration a caller builds before a run: license text and URL
 * overrides, copy rules, ignored crates and the strict-mode flag, each set by
 * one builder method that updates one field and leaves the others alone.
 */
module LicenseConfig {
  import opened Common

  /** `Url::parse` of every string, failing as a whole when one of them fails. */
  function ParseAll(urls: seq<string>, env: Env): (r: Option<seq<Url>>)
    ensures r.Some? <==> forall i :: 0 <= i < |urls| ==> env.parse(urls[i]).Some?
    ensures r.Some? ==> |r.value| == |urls| && forall i :: 0 <= i < |urls| ==> r.value[i] == env.parse(urls[i]).value
  {
    if urls == [] then Some([])
    else match env.parse(urls[0])
      case None => None
      case Some(u) =>
        match ParseAll(urls[1..], env)
        case None => None
        case Some(us) => Some([u] + us)
  }

  class Config {
    var licenseTextOverrides: map<string, seq<string>>
    var licenseUrlOverrides: map<string, seq<Url>>
    var licenseCopyingCrates: map<string, string>
    var ignoredCrates: set<string>
    var manifestPath: Option<string>
    var panicIfNoLicenseFound: bool

    /** `Config::default()`. */
    constructor ()
      ensures licenseTextOverrides == map[] && licenseUrlOverrides == map[]
      ensures licenseCopyingCrates == map[] && ignoredCrates == {}
      ensures manifestPath == None && !panicIfNoLicenseFound
    {
      licenseTextOverrides := map[];
      licenseUrlOverrides := map[];
      licenseCopyingCrates := map[];
      ignoredCrates := {};
      manifestPath := None;
      panicIfNoLicenseFound := false;
    }

    method PanicIfNoLicenseFound()
      modifies this
      ensures panicIfNoLicenseFound
      ensures licenseTextOverrides == old(licenseTextOverrides) && licenseUrlOverrides == old(licenseUrlOverrides)
      ensures licenseCopyingCrates == old(licenseCopyingCrates) && ignoredCrates == old(ignoredCrates)
      ensures manifestPath == old(manifestPath)
    {
      panicIfNoLicenseFound := true;
    }

    /** Record that `copier` takes its licenses from `copied`; a later rule for the same copier replaces it. */
    method CopyLicense(copier: string, copied: string)
      modifies this
      ensures licenseCopyingCrates == old(licenseCopyingCrates)[copier := copied]
      ensures licenseTextOverrides == old(licenseTextOverrides) && licenseUrlOverrides == old(licenseUrlOverrides)
      ensures ignoredCrates == old(ignoredCrates) && manifestPath == old(manifestPath)
      ensures panicIfNoLicenseFound == old(panicIfNoLicenseFound)
    {
      licenseCopyingCrates := licenseCopyingCrates[copier := copied];
    }

    method OverrideLicenseText(crateName: string, licenses: seq<string>)
      modifies this
      ensures licenseTextOverrides == old(licenseTextOverrides)[crateName := licenses]
      ensures licenseUrlOverrides == old(licenseUrlOverrides) && licenseCopyingCrates == old(licenseCopyingCrates)
      ensures ignoredCrates == old(ignoredCrates) && manifestPath == old(manifestPath)
      ensures panicIfNoLicenseFound == old(panicIfNoLicenseFound)
    {
      licenseTextOverrides := licenseTextOverrides[crateName := licenses];
    }

    /** The URLs are parsed when they are configured; a malformed one is a caller error. */
    method OverrideLicenseUrl(crateName: string, urls: seq<string>, env: Env)
      requires forall i :: 0 <= i < |urls| ==> env.parse(urls[i]).Some?
      modifies this
      ensures ParseAll(urls, env).Some?
      ensures licenseUrlOverrides == old(licenseUrlOverrides)[crateName := ParseAll(urls, env).value]
      ensures licenseTextOverrides == old(licenseTextOverrides) && licenseCopyingCrates == old(licenseCopyingCrates)
      ensures ignoredCrates == old(ignoredCrates) && manifestPath == old(manifestPath)
      ensures panicIfNoLicenseFound == old(panicIfNoLicenseFound)
    {
      var parsed := ParseAll(urls, env);
      licenseUrlOverrides := licenseUrlOverrides[crateName := parsed.value];
    }

    method Ignore(crateName: string)
      modifies this
      ensures ignoredCrates == old(ignoredCrates) + {crateName}
      ensures licenseTextOverrides == old(licenseTextOverrides) && licenseUrlOverrides == old(licenseUrlOverrides)
      ensures licenseCopyingCrates == old(licenseCopyingCrates) && manifestPath == old(manifestPath)
      ensures panicIfNoLicenseFound == old(panicIfNoLicenseFound)
    {
      ignoredCrates := ignoredCrates + {crateName};
    }
  }

  /**
   * The configuration the integration test builds: strict mode, six copy
   * rules (one given twice, which keeps a single entry), two URL overrides
   * for one crate and one ignored crate.
   */
  method TestSuiteConfig(env: Env) returns (c: Config)
    requires env.parse(GlooMit).Some? && env.parse(GlooApache).Some?
    ensures fresh(c)
    ensures c.panicIfNoLicenseFound && c.licenseTextOverrides == map[] && c.ignoredCrates == {"license-retriever"}
    ensures c.licenseUrlOverrides == map["gloo-timers" := [env.parse(GlooMit).value, env.parse(GlooApache).value]]
    ensures c.manifestPath == None
    ensures c.licenseCopyingCrates.Keys == {"lazy-regex-proc_macros", "stdweb-derive", "stdweb-internal-macros",
                                            "stdweb-internal-runtime", "winapi-i686-pc-windows-gnu",
                                            "winapi-x86_64-pc-windows-gnu"}
    ensures c.licenseCopyingCrates["lazy-regex-proc_macros"] == "lazy-regex"
    ensures c.licenseCopyingCrates["stdweb-derive"] == "stdweb"
    ensures c.licenseCopyingCrates["stdweb-internal-macros"] == "stdweb"
    ensures c.licenseCopyingCrates["stdweb-internal-runtime"] == "stdweb"
    ensures c.licenseCopyingCrates["winapi-i686-pc-windows-gnu"] == "winapi"
    ensures c.licenseCopyingCrates["winapi-x86_64-pc-windows-gnu"] == "winapi"
  {
    c := new Config();
    c.PanicIfNoLicenseFound();
    c.CopyLicense("lazy-regex-proc_macros", "lazy-regex");
    c.OverrideLicenseUrl("gloo-timers", [GlooMit, GlooApache], env);
    assert ParseAll([GlooMit, GlooApache], env).value == [env.parse(GlooMit).value, env.parse(GlooApache).value];
    c.CopyLicense("stdweb-derive", "stdweb");
    c.CopyLicense("stdweb-internal-macros", "stdweb");
    c.CopyLicense("stdweb-internal-runtime", "stdweb");
    c.CopyLicense("stdweb-derive", "stdweb");
    c.CopyLicense("winapi-i686-pc-windows-gnu", "winapi");
    c.CopyLicense("winapi-x86_64-pc-windows-gnu", "winapi");
    assert c.licenseCopyingCrates == TestCopyRules();
    TestCopyRulesContents();
    c.Ignore("license-retriever");
  }

  /** The copy rules of the integration test, in the order it adds them. */
  function TestCopyRules(): map<string, string>
  {
    map[]["lazy-regex-proc_macros" := "lazy-regex"]["stdweb-derive" := "stdweb"]
         ["stdweb-internal-macros" := "stdweb"]["stdweb-internal-runtime" := "stdweb"]["stdweb-derive" := "stdweb"]
         ["winapi-i686-pc-windows-gnu" := "winapi"]["winapi-x86_64-pc-windows-gnu" := "winapi"]
  }

  /** The repeated `stdweb-derive` rule leaves six rules, each mapping to its source crate. */
  lemma TestCopyRulesContents()
    ensures TestCopyRules().Keys == {"lazy-regex-proc_macros", "stdweb-derive", "stdweb-internal-macros",
                                     "stdweb-internal-runtime", "winapi-i686-pc-windows-gnu",
                                     "winapi-x86_64-pc-windows-gnu"}
    ensures TestCopyRules()["lazy-regex-proc_macros"] == "lazy-regex"
    ensures TestCopyRules()["stdweb-derive"] == "stdweb"
    ensures TestCopyRules()["stdweb-internal-macros"] == "stdweb"
    ensures TestCopyRules()["stdweb-internal-runtime"] == "stdweb"
    ensures TestCopyRules()["winapi-i686-pc-windows-gnu"] == "winapi"
    ensures TestCopyRules()["winapi-x86_64-pc-windows-gnu"] == "winapi"
  {
  }

  const GlooMit := "https://raw.githubusercontent.com/rustwasm/gloo/master/LICENSE-MIT"
  const GlooApache := "https://raw.githubusercontent.com/rustwasm/gloo/master/LICENSE-APACHE"
}
