/** What the scrapers get back from the network and the HTML parser. Both stay outside
    the model: a crawl receives them as a function from URL to the parsed page. */
module Web {
  import opened Maybe

  /** A fetched page: its raw HTML, `soup.get_text()`, the text of its `<title>` if it
      has one, and the `href` of every `<a>` as `urljoin` resolves it against the page's
      URL. `urljoin` raises exactly when the splitter refuses the `href` itself, and such
      an `href` is kept as written, so the splitter refuses the link here too. */
  datatype Page = Page(html: string, text: string, title: Option<string>, links: seq<string>)
}
