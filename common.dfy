/** webpack.common.js: a configuration object that is built as a literal
    when the file is loaded and then extended with the pages found in the
    templates directory. The directory path (computed with `path.join`) is a
    parameter. */
module Common {
  import opened Text
  import opened Plugins
  import opened Pages
  import opened Bundler

  /** The seven plugins of the literal, in their order */
  const FixedPlugins: seq<Plugin> :=
    [ProgressBar, MiniCssExtract, Provide, HotModuleReplacement, HtmlPug, VueLoader, CopyAssets]

  /** Loading the file: the literal, then the push of one HtmlWebpackPlugin
      per page (injecting into `body`), then the merge of the page entries. */
  method Load(pagesDir: string, listing: seq<string>, existing: set<string>) returns (exports: Config)
    ensures fresh(exports)
    ensures exports.plugins == FixedPlugins + PagePlugins(pagesDir, Discover(listing), Some("body"))
    ensures exports.entry == SynthesisedEntry(Discover(listing), existing)
  {
    var pages := Discover(listing);
    exports := new Config(MainOnly(), FixedPlugins);
    exports.PushPlugins(PagePlugins(pagesDir, pages, Some("body")));
    exports.MergePageEntries(pages, existing);
  }

  /** Every template in the listing gets an entry under its key holding the
      files of that key that exist. */
  lemma EveryTemplateHasEntry(listing: seq<string>, existing: set<string>, name: string)
    requires name in listing && IsPage(name)
    ensures PageKey(name) in SynthesisedEntry(Discover(listing), existing)
    ensures SynthesisedEntry(Discover(listing), existing)[PageKey(name)] == PageEntries(PageKey(name), existing)
  {
    SynthesisedPageEntry(Discover(listing), existing, name);
  }

  /** Only `main` and the keys of templates in the listing are entries. */
  lemma OnlyTemplateKeys(listing: seq<string>, existing: set<string>, k: string)
    requires k in SynthesisedEntry(Discover(listing), existing)
    ensures k == "main" || exists name :: name in listing && IsPage(name) && PageKey(name) == k
  {
    SynthesisedKeys(Discover(listing), existing, k);
  }
}
