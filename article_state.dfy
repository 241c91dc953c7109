/**
 * The shared workflow state (`ArticleState`) that every agent reads and
 * updates in place, and the final-output record assembled from it.
 */
module ArticleStates {
  import opened Outcomes
  import opened CallLog
  import opened Export

  /**
   * The `export_paths` entry of the final output: absent when no export was
   * requested, the package paths on success, `None` when the export failed.
   */
  datatype ExportStatus = NotRequested | Exported(paths: ExportPaths) | ExportFailed

  /** The final-output dictionary returned to the caller. */
  datatype FinalOutput = FinalOutput(
    article: string,
    researchData: string,
    critiqueFeedback: seq<string>,
    imagePrompt: string,
    imageUrl: string,
    linkedinPost: string,
    hashtags: seq<string>,
    seoKeywords: seq<string>,
    revisionsMade: int,
    researchCalls: int,
    additionalResearchCalls: int,
    agentCallLog: LogValue,
    topic: string,
    exportPaths: ExportStatus)

  /** The workflow state; every key of the typed dictionary is a field. */
  class ArticleState {
    const topic: string
    var researchData: string
    var article: string
    var critiqueFeedback: seq<string>
    var critiquePassed: bool
    var revisionCount: int
    var maxRevisions: int
    var researchCalls: int
    var additionalResearchCalls: int
    var agentCallLog: seq<CallRecord>
    var imagePrompt: string
    var imageUrl: string
    var linkedinPost: string
    var hashtags: seq<string>
    var seoKeywords: seq<string>
    /** `None` stands for the empty dictionary the state starts with. */
    var finalOutput: Option<FinalOutput>

    /** The initial state: empty strings and lists, zero counters, the configured revision limit. */
    constructor (topic: string, maxRevisions: int)
      ensures this.topic == topic && this.maxRevisions == maxRevisions
      ensures researchData == [] && article == [] && critiqueFeedback == [] && !critiquePassed
      ensures revisionCount == 0 && researchCalls == 0 && additionalResearchCalls == 0 && agentCallLog == []
      ensures imagePrompt == [] && imageUrl == [] && linkedinPost == [] && hashtags == [] && seoKeywords == []
      ensures finalOutput == None
    {
      this.topic := topic;
      researchData := [];
      article := [];
      critiqueFeedback := [];
      critiquePassed := false;
      revisionCount := 0;
      this.maxRevisions := maxRevisions;
      researchCalls := 0;
      additionalResearchCalls := 0;
      agentCallLog := [];
      imagePrompt := [];
      imageUrl := [];
      linkedinPost := [];
      hashtags := [];
      seoKeywords := [];
      finalOutput := None;
    }

    /**
     * The final-output dictionary built from the current state, before any
     * export: `revisions_made` is the revision count, every other entry is
     * copied from the field of the same name.
     */
    function Output(): (r: FinalOutput)
      reads this
      ensures r.revisionsMade == revisionCount && r.article == article && r.topic == topic
      ensures r.researchData == researchData && r.critiqueFeedback == critiqueFeedback
      ensures r.researchCalls == researchCalls && r.additionalResearchCalls == additionalResearchCalls
      ensures r.agentCallLog == Records(agentCallLog) && r.exportPaths == NotRequested
    {
      FinalOutput(article, researchData, critiqueFeedback, imagePrompt, imageUrl, linkedinPost,
                  hashtags, seoKeywords, revisionCount, researchCalls, additionalResearchCalls,
                  Records(agentCallLog), topic, NotRequested)
    }
  }
}
