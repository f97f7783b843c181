/** The part of a webpack configuration object that the configuration code
    changes in place after building it: the `entry` object, which maps chunk
    names to lists of source files, and the `plugins` array. Both
    configuration files start from the same fixed `main` entry and then grow
    these two fields with the discovered pages. */
module Bundler {
  import opened Text
  import opened Plugins
  import opened Pages

  /** The fixed `main` chunk: the site-wide script and stylesheet */
  const MainEntry: seq<string> := ["./src/js/main.js", "./src/styles/main.scss"]

  /** `entry` as the configuration literal writes it, before any page */
  function MainOnly(): map<string, seq<string>> {
    map["main" := MainEntry]
  }

  class Config {
    var entry: map<string, seq<string>>
    var plugins: seq<Plugin>

    constructor (entry0: map<string, seq<string>>, plugins0: seq<Plugin>)
      ensures entry == entry0 && plugins == plugins0
    {
      entry := entry0;
      plugins := plugins0;
    }

    /** `plugins.push(...ps)`: the new plugins go after the existing ones,
        in their order. */
    method PushPlugins(ps: seq<Plugin>)
      modifies this
      ensures plugins == old(plugins) + ps
      ensures entry == old(entry)
    {
      plugins := plugins + ps;
    }

    /** `entry = Object.assign(entry, ...pages.map(page => item))`: each
        page's one-key item is built and copied onto `entry` in page order. */
    method MergePageEntries(pages: seq<string>, existing: set<string>)
      modifies this
      ensures entry == AssignAll(old(entry), PageItems(pages, existing))
      ensures plugins == old(plugins)
    {
      ghost var items := PageItems(pages, existing);
      var i := 0;
      while i < |pages|
        invariant 0 <= i <= |pages|
        invariant entry == AssignAll(old(entry), items[..i])
        invariant plugins == old(plugins)
      {
        var item := PageItem(pages[i], existing);
        assert item == items[i];
        assert items[..i + 1][..i] == items[..i];
        entry := entry[item.key := item.files];
        i := i + 1;
      }
      assert items[..|pages|] == items;
    }
  }

  // ---------------------------------------------------------------------
  // The entry object both files end up with when they add the pages.

  function SynthesisedEntry(pages: seq<string>, existing: set<string>): map<string, seq<string>> {
    AssignAll(MainOnly(), PageItems(pages, existing))
  }

  /** The entry has `main` and one key per page, and nothing else. */
  lemma SynthesisedKeys(pages: seq<string>, existing: set<string>, k: string)
    ensures k in SynthesisedEntry(pages, existing) <==>
      k == "main" || exists page :: page in pages && PageKey(page) == k
  {
    var items := PageItems(pages, existing);
    AssignAllKeys(MainOnly(), items, k);
    if exists page :: page in pages && PageKey(page) == k {
      var page :| page in pages && PageKey(page) == k;
      var i :| 0 <= i < |pages| && pages[i] == page;
      assert items[i].key == k;
    }
    if exists i :: 0 <= i < |items| && items[i].key == k {
      var i :| 0 <= i < |items| && items[i].key == k;
      assert pages[i] in pages && PageKey(pages[i]) == k;
    }
  }

  /** Every page's key maps to that page's script-then-stylesheet list.
      Pages that share a key share the list too, so which of them comes last
      does not matter; a page whose key is `main` replaces the fixed entry. */
  lemma SynthesisedPageEntry(pages: seq<string>, existing: set<string>, page: string)
    requires page in pages
    ensures PageKey(page) in SynthesisedEntry(pages, existing)
    ensures SynthesisedEntry(pages, existing)[PageKey(page)] == PageEntries(PageKey(page), existing)
  {
    var items := PageItems(pages, existing);
    var k := PageKey(page);
    var i :| 0 <= i < |pages| && pages[i] == page;
    assert items[i].key == k;
    AssignAllAgreeing(MainOnly(), items, k, PageEntries(k, existing));
  }

  /** `main` keeps its two fixed files unless some page's key is `main`. */
  lemma SynthesisedMainKept(pages: seq<string>, existing: set<string>)
    requires forall page :: page in pages ==> PageKey(page) != "main"
    ensures "main" in SynthesisedEntry(pages, existing)
    ensures SynthesisedEntry(pages, existing)["main"] == MainEntry
  {
    var items := PageItems(pages, existing);
    forall i | 0 <= i < |items| ensures items[i].key != "main" {
      assert pages[i] in pages;
    }
    AssignAllUntouched(MainOnly(), items, "main");
  }

  /** With distinct page keys, none of them `main`, there is one entry per
      page besides `main`. */
  lemma SynthesisedSize(pages: seq<string>, existing: set<string>)
    requires forall i, j :: 0 <= i < j < |pages| ==> PageKey(pages[i]) != PageKey(pages[j])
    requires forall i :: 0 <= i < |pages| ==> PageKey(pages[i]) != "main"
    ensures |SynthesisedEntry(pages, existing)| == |pages| + 1
  {
    AssignAllSize(MainOnly(), PageItems(pages, existing));
  }

  /** The page plugins go after the fixed ones, which stay as they were:
      one HtmlWebpackPlugin per page, in page order. */
  lemma PagePluginsAppended(fixed: seq<Plugin>, pagesDir: string, pages: seq<string>, inject: Option<string>)
    ensures |fixed + PagePlugins(pagesDir, pages, inject)| == |fixed| + |pages|
    ensures (fixed + PagePlugins(pagesDir, pages, inject))[..|fixed|] == fixed
    ensures forall i :: 0 <= i < |pages| ==>
      (fixed + PagePlugins(pagesDir, pages, inject))[|fixed| + i] ==
        Html(HtmlPage(pagesDir + "/" + pages[i], HtmlFilename(pages[i]), [PageKey(pages[i]), "main"], inject, false))
  {
  }
}
