# pug-base page auto-discovery, modelled in Dafny

pug-base is a starter kit for multi-page sites: Pug templates, SCSS and Vue
components, built with webpack. Almost all of its build setup is declarative
webpack options. The one piece of logic is the page auto-discovery that both
`webpack.common.js` and `webpack.config.js` run when webpack loads them:

- list `src/pages/` and keep the `.pug` templates;
- for each page, add one HtmlWebpackPlugin that renders the template into an
  HTML file and loads the chunks `[key, 'main']`;
- for each page, add an `entry` chunk under its key that holds the page's
  script and stylesheet, each only if the file exists;
- merge those chunks into `entry` with `Object.assign`.

`webpack.config.js` also selects its settings from the `--env` value, and
both files normalise asset output names by collapsing runs of `/` and `\`.

The model has these modules:

| module | file | content |
|---|---|---|
| `Text` | text.dfy | `Option`, `endsWith`, and `replace` with an unanchored non-global pattern (leftmost match only) |
| `AssetNames` | asset_names.dfy | the `.replace(/[\\\/]+/g, '/')` step of the loaders' `name(url)` callbacks |
| `Plugins` | plugins.dfy | plugin instances; the HtmlWebpackPlugin options record |
| `Pages` | pages.dfy | discovery; page key and file name; the existence probes; the per-page item; `Object.assign` as a fold; per-page plugin options |
| `Bundler` | bundler.dfy | class `Config`, whose `entry` and `plugins` fields are changed in place; the fixed `main` entry; lemmas about the entry both files build |
| `Common` | common.dfy | loading `webpack.common.js` |
| `EnvConfig` | env_config.dfy | the mode flags, build path and `devtool` of `webpack.config.js`; building its configuration |

The filesystem is a parameter. `listing: seq<string>` is what
`fs.readdirSync` returns, in its order. `existing: set<string>` holds the
paths that `fs.existsSync` accepts. The pages directory of
`webpack.common.js` is built with `path.join`, so it is a parameter too.

Some behaviours of the code worth noting:

- Every page's descriptor has `chunks` equal to `[key, 'main']`. The code
  never drops or adds the page's own chunk based on whether its entry list
  is empty (`webpack.common.js:174`, `webpack.config.js:231`).
- The key and the HTML file name come from the leftmost `.pug` in the name,
  not the suffix. A template named `x.pugfoo.pug` gets the key `xfoo.pug`
  and is written to `./x.htmlfoo.pug` (`Pages.EarlierPugIsReplaced`).
- Keys need not be distinct. `a.pugb.pug` and `ab.pug.pug` both have the
  key `ab.pug`. A page named `main.pug` replaces the fixed `main` entry. Such
  pages have the same key and so the same file list. The merged entry is
  therefore the same whichever page comes last (`Bundler.SynthesisedPageEntry`).
- `webpack.config.js` writes the template path as
  `${PAGES_DIR}/${page}` with `PAGES_DIR = './src/pages/'`. The result
  contains `//`, and the model keeps it.
- The `plugins` literal of `webpack.config.js` has seven plugins (l.183-216).

## Model

| member | source | states |
|---|---|---|
| `Text.FindFrom` | webpack.common.js:182 | the search finds the leftmost occurrence of the pattern at or after the start, or reports that there is none |
| `Text.ReplaceAtLeftmost` | webpack.common.js:173-174 | a non-global `replace` splices the replacement in at the leftmost occurrence and keeps everything else |
| `AssetNames.NormaliseSeparators` | webpack.common.js:93-95 | the output is empty exactly when the input is, and starts with `/` exactly when the input starts with a separator |
| `AssetNames.NormalisedShape` | webpack.common.js:108-110 | the output contains no `\` and no two adjacent `/` |
| `AssetNames.RunBecomesOneSlash` | webpack.config.js:135 | a non-empty run of `/` and `\`, in any mix, becomes exactly one `/` |
| `AssetNames.NormaliseConcat` | webpack.config.js:153 | cut outside a separator run, the output is the two pieces' outputs joined, so each maximal run maps to one `/` independently of the rest |
| `AssetNames.NonSeparatorKept` | webpack.common.js:95 | a character other than `/` and `\` is copied unchanged |
| `AssetNames.NormalisedIsFixed` | webpack.common.js:110 | a string with no `\` and no doubled `/` is unchanged |
| `AssetNames.Idempotent` | webpack.config.js:135 | normalising twice is the same as normalising once |
| `AssetNames.NoSeparatorsUnchanged` | webpack.config.js:153 | a string without `/` or `\` is unchanged |
| `Pages.Discover` | webpack.common.js:13 | a name is discovered exactly when it is in the listing and ends with `.pug`; there are never more pages than entries |
| `Pages.DiscoverConcat` | webpack.config.js:22 | discovery keeps listing order: the pages of a concatenated listing are the pages of its first part followed by those of its second |
| `Pages.DiscoverOne` | webpack.common.js:13 | a one-entry listing yields that entry exactly when it ends with `.pug` |
| `Pages.KeyAtLeftmostPug` | webpack.common.js:173-174 | the key is the name with its leftmost `.pug` deleted; the file name is `./` plus the name with that `.pug` replaced by `.html` |
| `Pages.KeyOfPlainPage` | webpack.common.js:182 | when `.pug` occurs only as the suffix, the key is the name minus the suffix and the file name ends in `.html` |
| `Pages.KeyOfDotlessStem` | webpack.config.js:238 | `stem.pug` with a dot-free stem has key `stem` and file name `./stem.html` |
| `Pages.KeyIsShorter` | webpack.common.js:182 | every discovered page's key is four characters shorter than its name |
| `Pages.EarlierPugIsReplaced` | webpack.config.js:230-231 | `x.pugfoo.pug` has key `xfoo.pug` and file name `./x.htmlfoo.pug` |
| `Pages.PageEntries` | webpack.common.js:184-188 | a page's file list has at most two files. It holds the script exactly when the script exists and the stylesheet exactly when the stylesheet exists. It holds nothing else. It is empty exactly when neither exists, and the script comes first when both do |
| `Pages.PageItem` | webpack.config.js:237-245 | the callback's item has the page's key and its script-then-stylesheet list as built by the conditional pushes |
| `Pages.AssignAllKeys` | webpack.common.js:180 | after `Object.assign`, a key is present exactly when the target or some item has it |
| `Pages.AssignAllLastWins` | webpack.config.js:236 | under an item's key the merged value is that item's list when no later item has the key (last wins, over the target too) |
| `Pages.AssignAllUntouched` | webpack.common.js:180 | a key that no item carries keeps the target's value, or stays absent |
| `Pages.AssignAllAgreeing` | webpack.common.js:180-190 | if all items with a key carry the same list, the merged value under that key is that list |
| `Pages.AssignAllSize` | webpack.config.js:236-246 | with distinct item keys the target lacks, the merged object has one key per item more than the target |
| `Bundler.Config.constructor` | webpack.common.js:15-21 | the configuration object starts with the literal's entry and plugins |
| `Bundler.Config.PushPlugins` | webpack.common.js:170 | the pushed plugins follow the existing ones in order; the entry is unchanged |
| `Bundler.Config.MergePageEntries` | webpack.common.js:180-190 | the new entry is the old one with each page's item assigned in page order; the plugins are unchanged |
| `Bundler.SynthesisedKeys` | webpack.common.js:16-21 | the synthesised entry has `main` and one key per page, and no other key |
| `Bundler.SynthesisedPageEntry` | webpack.config.js:236-246 | each page's key maps to that key's script-then-stylesheet list, even when several pages share the key or the key is `main` |
| `Bundler.SynthesisedMainKept` | webpack.config.js:218-223 | `main` keeps `['./src/js/main.js', './src/styles/main.scss']` unless some page's key is `main` |
| `Bundler.SynthesisedSize` | webpack.common.js:180-189 | with distinct page keys, none of them `main`, the entry has exactly one key per page plus `main` |
| `Bundler.PagePluginsAppended` | webpack.common.js:170-178 | for any listing, including an empty one, the page plugins follow the fixed plugins, which are unchanged. There is one per page, in page order, with template `dir/page`, the derived file name, chunks `[key, 'main']`, the given `inject` and `minify: false` |
| `Common.Load` | webpack.common.js:12-190 | loading the file yields the seven fixed plugins followed by the page plugins with `inject: 'body'`, and the synthesised entry of the discovered pages |
| `Common.EveryTemplateHasEntry` | webpack.common.js:13 | every `.pug` name in the listing has an entry under its key holding its existing files |
| `Common.OnlyTemplateKeys` | webpack.common.js:180-182 | no entry key comes from anything but `main` or a `.pug` name in the listing |
| `EnvConfig.DevMode` | webpack.config.js:17 | the dev flag is truthy exactly when `env` is `'dev'` |
| `EnvConfig.ProdMode` | webpack.config.js:19 | the production flag is truthy exactly when `env` is `'production'`, and then the dev flag is not |
| `EnvConfig.BuildPath` | webpack.config.js:20 | the build path is `./` exactly in production and `./build` otherwise |
| `EnvConfig.Devtool` | webpack.config.js:32 | `devtool` is `'source-map'` exactly in dev mode and `false` otherwise |
| `EnvConfig.Build` | webpack.config.js:226-248 | in production the plugins are the seven fixed ones and the entry is only `main`. Otherwise the page plugins (without `inject`, with `minify: false`) follow the fixed ones and the entry is the synthesised one |

## Left out

- The calls to `fs.readdirSync` and `fs.existsSync` are replaced by the `listing` and `existing` parameters. A missing pages directory, which makes `readdirSync` throw, is not modelled.
- `path.join`, `path.resolve` and `path.relative` are Node library calls. Their results are parameters (the pages directory of `webpack.common.js`, the input of `AssetNames.NormaliseSeparators`). `EnvConfig.BuildPath` is the path that `output.path` resolves, not the resolved absolute path.
- The loader rules, resolve aliases, `optimization`, `devServer`, `output.filename` and `publicPath` are left out. So are the images' `limit` option and the options of every plugin except HtmlWebpackPlugin. They are fixed data that webpack interprets.
- The internals of plugin constructors are left out, and so is what webpack does with the configuration.
- Property order of JavaScript objects is not modelled; `entry` is a map. So is the special handling of keys such as `__proto__` in `item[key] = []`: all keys behave as ordinary keys.
- `EnvConfig` models `env` as a string. A non-string value compares unequal to both mode names, like any other string that is neither.
- The two `console.log` calls are left out: they print only.
- `Bundler.Config.MergePageEntries` builds each page's item and assigns it in one loop. The source maps all pages first and then assigns. Items do not depend on `entry`, so the result is the same.
- `webpack.build.js` (HTML beautifying through asynchronous file callbacks), `webpack.dev.js` (one `webpack-merge` call) and `src/js/pages/index.js` (Vue mount) have no page-discovery logic and are not part of this model.
- `config/webpack.base.conf.js` cannot be loaded as written: `env` (l.14) is undefined, so loading it throws a ReferenceError, and `ProgressBarPlugin` (l.162), `webpack` (l.179) and `conf` (l.220, l.368) are undefined too. Its filter and normaliser repeat `webpack.common.js`, so it is not part of this model.
