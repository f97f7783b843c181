/** webpack.config.js: a function from the `--env` value to a configuration
    object. The value selects development or production settings; outside
    production the pages found in `./src/pages/` are added as in
    webpack.common.js, except that their HtmlWebpackPlugin options leave
    `inject` unset. The `env` value is a string here: any value that is not
    one of the two mode names behaves like any other non-matching string. */
module EnvConfig {
  import opened Text
  import opened Plugins
  import opened Pages
  import opened Bundler

  const PagesDir := "./src/pages/"
  const PublicPath := "./"

  /** The seven plugins of the literal, in their order */
  const FixedPlugins: seq<Plugin> :=
    [ProgressBar, MiniCssExtract, CopyAssets, Provide, HtmlPug, VueLoader, RemoveEmptyScripts]

  /** A flag that holds either `env` itself or `false`; it is truthy when it
      holds a non-empty string. */
  predicate Truthy(flag: Option<string>) {
    flag.Some? && flag.value != ""
  }

  /** `env === 'dev' ? env : false` */
  function DevMode(env: string): (flag: Option<string>)
    ensures Truthy(flag) <==> env == "dev"
  {
    if env == "dev" then Some(env) else None
  }

  /** `env === 'production' ? env : false` */
  function ProdMode(env: string): (flag: Option<string>)
    ensures Truthy(flag) <==> env == "production"
    ensures Truthy(flag) ==> !Truthy(DevMode(env))
  {
    if env == "production" then Some(env) else None
  }

  /** `prodMode ? projectPublicPath : './build'`, the directory that
      `output.path` resolves */
  function BuildPath(env: string): (path: string)
    ensures path == PublicPath <==> env == "production"
    ensures path == "./build" <==> env != "production"
  {
    if Truthy(ProdMode(env)) then PublicPath else "./build"
  }

  /** `devMode ? 'source-map' : false` */
  function Devtool(env: string): (tool: Option<string>)
    ensures tool == Some("source-map") <==> env == "dev"
    ensures tool == None <==> env != "dev"
  {
    if Truthy(DevMode(env)) then Some("source-map") else None
  }

  /** The settings of the literal that depend on the mode */
  datatype Settings = Settings(buildPath: string, devtool: Option<string>)

  /** The exported function applied to `env`: the literal, and outside
      production the page plugins and page entries added to it. */
  method Build(env: string, listing: seq<string>, existing: set<string>) returns (settings: Settings, config: Config)
    ensures fresh(config)
    ensures settings == Settings(BuildPath(env), Devtool(env))
    ensures env == "production" ==> config.plugins == FixedPlugins && config.entry == MainOnly()
    ensures env != "production" ==>
      && config.plugins == FixedPlugins + PagePlugins(PagesDir, Discover(listing), None)
      && config.entry == SynthesisedEntry(Discover(listing), existing)
  {
    var prodMode := ProdMode(env);
    var pages := Discover(listing);
    settings := Settings(BuildPath(env), Devtool(env));
    config := new Config(MainOnly(), FixedPlugins);
    if !Truthy(prodMode) {
      config.PushPlugins(PagePlugins(PagesDir, pages, None));
      config.MergePageEntries(pages, existing);
    }
  }
}
