/** The records the modelled code exchanges: a knowledge-base entry and the shape of a web-search answer. */
module Models {
  import opened Wrappers

  /** One stored transcript segment (`PodCastKnowledgeBaseModel`). */
  datatype PodcastRecord = PodcastRecord(id: string, podcastTitle: string, content: string, timeStamp: string)

  /** One numbered web reference (`WebSearchResultRef`). */
  datatype WebSearchResultRef = WebSearchResultRef(no: int, title: string, link: string, snippet: string)

  /** The answer text with its references (`OrganicResult`); `references` may be null. */
  datatype OrganicResult = OrganicResult(answer: string, references: Option<seq<WebSearchResultRef>>)

  /** The whole web-search result (`WebSearchResult`). */
  datatype WebSearchResult = WebSearchResult(organicResult: OrganicResult)
}
