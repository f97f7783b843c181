/** Page auto-discovery and the per-page values derived from it: the list of
    `.pug` templates, each page's chunk key and output file name, the list of
    source files that makes up the page's bundle entry, and the options of the
    HtmlWebpackPlugin instance that renders the page. Both configuration
    files, webpack.common.js and webpack.config.js, compute these the same
    way; the directory listing and the existence checks of Node's `fs` module
    are parameters (`listing`, `existing`). */
module Pages {
  import opened Text
  import opened Plugins

  // ---------------------------------------------------------------------
  // Discovery: `fs.readdirSync(dir).filter(fileName => fileName.endsWith('.pug'))`

  predicate IsPage(name: string) {
    EndsWith(name, ".pug")
  }

  /** The directory entries that are page templates, in listing order. */
  function Discover(listing: seq<string>): (pages: seq<string>)
    ensures |pages| <= |listing|
    ensures forall name :: name in pages <==> name in listing && IsPage(name)
  {
    if listing == [] then []
    else (if IsPage(listing[0]) then [listing[0]] else []) + Discover(listing[1..])
  }

  /** The filter keeps the listing's order: discovering in two halves of a
      listing gives the pages of the first half followed by those of the
      second. */
  lemma {:induction false} DiscoverConcat(a: seq<string>, b: seq<string>)
    ensures Discover(a + b) == Discover(a) + Discover(b)
  {
    if a == [] {
      assert a + b == b;
    } else {
      assert (a + b)[1..] == a[1..] + b;
      DiscoverConcat(a[1..], b);
    }
  }

  /** One entry is kept exactly when it names a template. */
  lemma DiscoverOne(name: string)
    ensures Discover([name]) == if IsPage(name) then [name] else []
  {
  }

  // ---------------------------------------------------------------------
  // Names derived from a page: `page.replace(/\.pug/, '')` and
  // `./${page.replace(/\.pug/, '.html')}`. The pattern has no `$` anchor
  // and no `g` flag, so only the leftmost `.pug` is affected.

  /** The chunk and entry key of a page */
  function PageKey(page: string): string {
    ReplaceFirst(page, ".pug", "")
  }

  /** The `filename` option of the page's HtmlWebpackPlugin */
  function HtmlFilename(page: string): string {
    "./" + ReplaceFirst(page, ".pug", ".html")
  }

  /** Key and file name are cut at the leftmost `.pug`, wherever it is. */
  lemma KeyAtLeftmostPug(page: string, i: nat)
    requires OccursAt(page, ".pug", i)
    requires forall j :: 0 <= j < i ==> !OccursAt(page, ".pug", j)
    ensures PageKey(page) == page[..i] + page[i + 4..]
    ensures HtmlFilename(page) == "./" + page[..i] + ".html" + page[i + 4..]
  {
  }

  /** When `.pug` occurs only as the suffix, the key is the name without it
      and the file name ends in `.html`. */
  lemma KeyOfPlainPage(page: string)
    requires IsPage(page)
    requires forall j :: 0 <= j < |page| - 4 ==> !OccursAt(page, ".pug", j)
    ensures PageKey(page) == page[..|page| - 4]
    ensures HtmlFilename(page) == "./" + page[..|page| - 4] + ".html"
  {
    var n := |page| - 4;
    assert OccursAt(page, ".pug", n);
    KeyAtLeftmostPug(page, n);
    assert page[n + 4..] == [];
  }

  /** The usual case: a template named with a dot-free stem and `.pug` has
      that stem as key and is written to the stem with `.html`. */
  lemma KeyOfDotlessStem(stem: string)
    requires '.' !in stem
    ensures PageKey(stem + ".pug") == stem
    ensures HtmlFilename(stem + ".pug") == "./" + stem + ".html"
  {
    var page := stem + ".pug";
    forall j | 0 <= j < |page| - 4 ensures !OccursAt(page, ".pug", j) {
      assert page[j] == stem[j];
      assert j + 4 <= |page| ==> page[j..j + 4][0] == page[j];
    }
    assert page[..|page| - 4] == stem;
    KeyOfPlainPage(page);
  }

  /** Every discovered page holds a `.pug`, so its key is four characters
      shorter than its name. */
  lemma KeyIsShorter(page: string)
    requires IsPage(page)
    ensures |PageKey(page)| == |page| - 4
  {
    var n := |page| - 4;
    assert OccursAt(page, ".pug", n);
    var r := FindFrom(page, ".pug", 0);
    assert r.Some?;
  }

  /** A name with an earlier `.pug` loses that one, not the suffix: the key of
      `x.pugfoo.pug` is `xfoo.pug` and its page is written to
      `./x.htmlfoo.pug`. */
  lemma EarlierPugIsReplaced()
    ensures PageKey("x.pugfoo.pug") == "xfoo.pug"
    ensures HtmlFilename("x.pugfoo.pug") == "./x.htmlfoo.pug"
  {
    var page := "x.pugfoo.pug";
    assert OccursAt(page, ".pug", 1);
    assert !OccursAt(page, ".pug", 0) by { assert page[0] != '.'; }
    KeyAtLeftmostPug(page, 1);
  }

  // ---------------------------------------------------------------------
  // A page's bundle entry: the script and the stylesheet named after its
  // key, each only when the file exists.

  function JsPath(key: string): string {
    "./src/js/pages/" + key + ".js"
  }

  function ScssPath(key: string): string {
    "./src/styles/pages/" + key + ".scss"
  }

  /** The file list of a page's entry: the script before the stylesheet,
      each present exactly when it exists, and nothing else. */
  function PageEntries(key: string, existing: set<string>): (files: seq<string>)
    ensures |files| <= 2
    ensures JsPath(key) in files <==> JsPath(key) in existing
    ensures ScssPath(key) in files <==> ScssPath(key) in existing
    ensures forall f :: f in files ==> f in existing && (f == JsPath(key) || f == ScssPath(key))
    ensures files == [] <==> JsPath(key) !in existing && ScssPath(key) !in existing
    ensures |files| == 2 ==> files == [JsPath(key), ScssPath(key)]
  {
    assert JsPath(key)[6] == 'j' && ScssPath(key)[6] == 's';
    (if JsPath(key) in existing then [JsPath(key)] else [])
      + (if ScssPath(key) in existing then [ScssPath(key)] else [])
  }

  /** The one-key object `item` that the mapping callback returns */
  datatype Item = Item(key: string, files: seq<string>)

  function ItemOf(page: string, existing: set<string>): Item {
    Item(PageKey(page), PageEntries(PageKey(page), existing))
  }

  /** The mapping callback: `item[key] = []`, then a push of the script path
      and a push of the stylesheet path, each when `fs.existsSync` finds it. */
  method PageItem(page: string, existing: set<string>) returns (item: Item)
    ensures item.key == PageKey(page)
    ensures item.files == PageEntries(item.key, existing)
  {
    var key := PageKey(page);
    var js := JsPath(key);
    var scss := ScssPath(key);
    var files: seq<string> := [];
    if js in existing {
      files := files + [js];
    }
    if scss in existing {
      files := files + [scss];
    }
    item := Item(key, files);
  }

  /** `pages.map(...)`: one item per page, in page order */
  function PageItems(pages: seq<string>, existing: set<string>): seq<Item> {
    seq(|pages|, i requires 0 <= i < |pages| => ItemOf(pages[i], existing))
  }

  // ---------------------------------------------------------------------
  // `Object.assign(target, ...items)`: the items' keys are copied onto the
  // target one item after another, so a later item overwrites an earlier
  // one with the same key, and any item overwrites the target's own value.

  function AssignAll(target: map<string, seq<string>>, items: seq<Item>): map<string, seq<string>>
    decreases |items|
  {
    if items == [] then target
    else
      var last := items[|items| - 1];
      AssignAll(target, items[..|items| - 1])[last.key := last.files]
  }

  /** The merged object has exactly the target's keys and the items' keys. */
  lemma {:induction false} AssignAllKeys(target: map<string, seq<string>>, items: seq<Item>, k: string)
    ensures k in AssignAll(target, items) <==>
      k in target || exists i :: 0 <= i < |items| && items[i].key == k
    decreases |items|
  {
    if items != [] {
      var n := |items| - 1;
      var front := items[..n];
      AssignAllKeys(target, front, k);
      if exists i :: 0 <= i < |items| && items[i].key == k {
        var i :| 0 <= i < |items| && items[i].key == k;
        if i < n {
          assert front[i].key == k;
        }
      }
      if exists i :: 0 <= i < |front| && front[i].key == k {
        var i :| 0 <= i < |front| && front[i].key == k;
        assert items[i].key == k;
      }
    }
  }

  /** Last wins: the value under an item's key is that item's list when no
      later item has the same key. */
  lemma {:induction false} AssignAllLastWins(target: map<string, seq<string>>, items: seq<Item>, i: nat)
    requires i < |items|
    requires forall j :: i < j < |items| ==> items[j].key != items[i].key
    ensures items[i].key in AssignAll(target, items)
    ensures AssignAll(target, items)[items[i].key] == items[i].files
    decreases |items|
  {
    var n := |items| - 1;
    if i < n {
      var front := items[..n];
      assert forall j :: i < j < |front| ==> front[j].key == items[j].key;
      AssignAllLastWins(target, front, i);
    }
  }

  /** A key no item carries keeps the target's value (or stays absent). */
  lemma {:induction false} AssignAllUntouched(target: map<string, seq<string>>, items: seq<Item>, k: string)
    requires forall i :: 0 <= i < |items| ==> items[i].key != k
    ensures k in AssignAll(target, items) <==> k in target
    ensures k in target ==> AssignAll(target, items)[k] == target[k]
    decreases |items|
  {
    if items != [] {
      var n := |items| - 1;
      var front := items[..n];
      assert forall i :: 0 <= i < |front| ==> front[i].key == items[i].key;
      AssignAllUntouched(target, front, k);
    }
  }

  /** When every item with key `k` carries the same list `v`, the merged
      value under `k` is `v`, regardless of which of them comes last. */
  lemma {:induction false} AssignAllAgreeing(target: map<string, seq<string>>, items: seq<Item>, k: string, v: seq<string>)
    requires exists i :: 0 <= i < |items| && items[i].key == k
    requires forall i :: 0 <= i < |items| && items[i].key == k ==> items[i].files == v
    ensures k in AssignAll(target, items) && AssignAll(target, items)[k] == v
    decreases |items|
  {
    var n := |items| - 1;
    if items[n].key != k {
      var front := items[..n];
      var i :| 0 <= i < |items| && items[i].key == k;
      assert front[i].key == k;
      assert forall j :: 0 <= j < |front| ==> front[j] == items[j];
      AssignAllAgreeing(target, front, k, v);
    }
  }

  /** With pairwise distinct item keys that the target does not have, each
      item adds one key. */
  lemma {:induction false} AssignAllSize(target: map<string, seq<string>>, items: seq<Item>)
    requires forall i, j :: 0 <= i < j < |items| ==> items[i].key != items[j].key
    requires forall i :: 0 <= i < |items| ==> items[i].key !in target
    ensures |AssignAll(target, items)| == |target| + |items|
    decreases |items|
  {
    if items != [] {
      var n := |items| - 1;
      var front := items[..n];
      assert forall i :: 0 <= i < |front| ==> front[i] == items[i];
      AssignAllSize(target, front);
      AssignAllUntouched(target, front, items[n].key);
    }
  }

  // ---------------------------------------------------------------------
  // One HtmlWebpackPlugin per page: `pages.map(page => new HtmlWebpackPlugin({...}))`

  /** The options for one page. The chunk list is always the page's key and
      `main`, whatever the page's entry holds. */
  function PageDescriptor(pagesDir: string, page: string, inject: Option<string>): HtmlPage {
    HtmlPage(pagesDir + "/" + page, HtmlFilename(page), [PageKey(page), "main"], inject, false)
  }

  function PagePlugins(pagesDir: string, pages: seq<string>, inject: Option<string>): seq<Plugin> {
    seq(|pages|, i requires 0 <= i < |pages| => Html(PageDescriptor(pagesDir, pages[i], inject)))
  }
}
