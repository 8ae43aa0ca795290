/**
 * The records decoded from the news endpoint. Every field is optional because
 * the upstream service does not promise any of them; the controller never
 * looks inside an article, so they are carried around as opaque values.
 */
module Model {
  import opened Wrappers

  datatype Source = Source(id: Option<string>, name: Option<string>)

  datatype Article = Article(
    source: Option<Source>,
    author: Option<string>,
    title: Option<string>,
    description: Option<string>,
    url: Option<string>,
    urlToImage: Option<string>,
    publishedAt: Option<string>,
    content: Option<string>
  )

  /** An article with no field present (the decoder accepts `{}`). */
  const EmptyArticle: Article := Article(None, None, None, None, None, None, None, None)
}
