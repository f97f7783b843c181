/** The plugin instances the two configuration files put in their `plugins`
    arrays. Only the options of HtmlWebpackPlugin are computed by the
    configuration code; the other plugins are fixed constructor calls and are
    represented by their kind alone. */
module Plugins {
  import opened Text

  /** The options object passed to `new HtmlWebpackPlugin(...)` for one page.
      `inject` is absent when the call does not set it. */
  datatype HtmlPage = HtmlPage(
    template: string,
    filename: string,
    chunks: seq<string>,
    inject: Option<string>,
    minify: bool)

  datatype Plugin =
    | ProgressBar
    | MiniCssExtract
    | Provide
    | HotModuleReplacement
    | HtmlPug
    | VueLoader
    | CopyAssets
    | RemoveEmptyScripts
    | Html(page: HtmlPage)
}
