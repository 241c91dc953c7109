# LinkedIn article workflow — a Dafny model

This project models the control logic of a workflow that writes a LinkedIn
article with a chain of language-model agents:

1. research on the topic;
2. a first draft;
3. a bounded critique-and-revision loop, which may gather additional research;
4. an image prompt, a LinkedIn post, hashtags and SEO keywords;
5. assembly into one final output, optionally exported as a Word document
   and an image.

Every reply of the language model and of the image service is a parameter of
the model (`Workflow.Replies`): the critique reply and the revision made at
each revision count, the reply to each additional research call, and so on.
What is verified is the workflow's own bookkeeping and parsing. That covers:

- the revision router and its copy in the state helpers;
- the critique and SEO parsers;
- each agent's effect on the shared state;
- the append-only agent call log and its numbering;
- the two orchestrations: the sequential loop of `generate_article` and the
  edge table of the graph workflow;
- the visualisation tallies and styles;
- the runtime monitor;
- the string handling of the export.

The modules follow the repository's files:

- `Router` (`router.dfy`) holds the decision shared by the graph's
  conditional edge and the state helpers.
- `ArticleStates` (`article_state.dfy`) holds the state as a class whose
  fields the agents update in place.
- `CallLog` (`call_log.dfy`) holds the call records.
- `CritiqueAgent`, `SeoAgent`, `ResearchAgent`, `ModeratorAgent`,
  `DraftAgent`, `PostAgent` and `ImageAgent` are the agents.
- `Feedback` holds the bullet rendering of the feedback, and its round trip
  through the critique parser.
- `Workflow` is `generate_article`: its loop is a `method` proved against
  `FirstPass`, `SequentialResearch` and the call-log tallies.
- `Graph` is the edge table and the graph run, as a function.
- `WorkflowUtils` holds the state helpers, over a dictionary whose keys may
  be missing.
- `Visualization` holds the node tallies and styles.
- `RuntimeMonitoring` holds the `RuntimeMonitor` class.
- `Export` holds the file-name sanitiser, the line classifier and the
  placeholder caption.
- `Text` holds the Python string operations over `seq<char>`.

Main results:

- **Sequential loop.** `Workflow.GenerateArticle` proves that the loop makes
  `FirstPass(PassedAt(replies), 0, 3)` revisions: it stops at the first
  passing critique or after the third revision. The configured
  `max_revisions` is ignored, because the research stage overwrites it with
  3 before the loop reads it. The method also proves:
  - which article, feedback and research come out;
  - the call log has `2n + h + 6` records with ids 1..N, and the exact number
    of records for each agent.
- **Graph run.** `Graph.GraphPathValid` proves that the run follows the edge
  table from the research node to the end. It makes the same number of
  revisions as the sequential loop, with at most four critiques and at most
  three moderator runs.
- **Graph call log.** `Graph.GraphArticleLog` proves that the graph's call log
  holds only the additional research calls.
- **Graph output.** The graph's run carries the article and the critique's
  verdict and issues through its critique and moderator nodes.
  `Graph.GraphArticle` proves that it ends with the draft or the moderator's
  last revision, and with the issues of the last critique.
- **The two orchestrations agree.** `Graph.GraphMatchesSequential` proves that
  when no critique raises a research phrase, the graph and the sequential
  loop give the same article, research, feedback and counters.
- **Feedback round trip.** `Feedback.FeedbackRoundTrip` proves that the
  critique parser's line reading inverts the moderator's bullet rendering of
  the feedback. `Feedback.ReplyRoundTrip` proves the same for `ParseCritique`
  on a whole reply made of `ISSUES:` and the bullet lines, for clean issues
  that do not mention `ISSUES:`.

Two behaviours of the code worth knowing:

- **The attempt count never decides.** The router's multiple-attempts branch
  logs "Research already attempted multiple times - proceeding with
  revision" (workflow.py:593-595, utils/workflow_utils.py:75-77), yet it is
  only reached when the first branch did not choose research, and it returns
  the same `revise` label as the final `else`. So after an additional
  research call, a research phrase still leads to more research while the
  research is under 2000 characters, however many attempts were made
  (`Router.SecondResearchNeedsShortData`, `Router.ResearchCallsIrrelevant`).
- **The graph's call log.** The graph run logs only the additional research
  calls. Its agent nodes are the agents themselves, which do not log.

## Model

| member | source | states |
|---|---|---|
| CallLog.Append | workflow.py:87-102 | exactly one record is appended, numbered one past the old length, carrying the agent, call type and counter snapshot; earlier records are kept, so sequential ids stay 1..N |
| CallLog.CountAgentAppend | workflow.py:102 | appending a record adds one to its agent's count and leaves every other agent's count alone |
| CallLog.CountAfterAppend | workflow.py:87-102 | logging a call adds one record for the calling agent only |
| CallLog.CountAgentBound | workflow.py:102 | no agent has more records than the log has entries |
| ArticleStates.ArticleState.constructor | workflow.py:685-702 | the initial state: empty strings and lists, zero counters, not passed, the configured limit stored, no final output |
| ArticleStates.ArticleState.Output | workflow.py:784-798 | `revisions_made` is the revision count and every other entry is the field of the same name; no export entry yet |
| Router.Decide | workflow.py:550-598 | generate exactly when the critique passed or the revision count reached the limit; otherwise additional research exactly when a router phrase is in the lowercased feedback and (no additional research yet or research under 2000 characters); revise in every other case |
| Router.ResearchCallsIrrelevant | workflow.py:587-598 | the multiple-attempts test never changes the decision: it is the same for every number of research calls |
| Router.EmptyFeedbackRevises | workflow.py:565-598 | with revisions left and no feedback, the router revises |
| Router.InlineKeywordsAreRouterKeywords | workflow.py:738-744 | the sequential loop's 20 phrases are the router's first 20, so an inline hit is a router hit |
| Router.SecondResearchNeedsShortData | workflow.py:585-598 | after one additional research call, a phrase hit leads to more research under 2000 characters of research and to a revision from 2000 on |
| CritiqueAgent.ComprehensionLength | agents/critique_agent.py:79 | the issue comprehension has one element per kept line |
| CritiqueAgent.ComprehensionSound | agents/critique_agent.py:79 | every element of the comprehension is the cleaned form of a kept line |
| CritiqueAgent.ComprehensionComplete | agents/critique_agent.py:79 | the cleaned form of every kept line is in the comprehension |
| CritiqueAgent.IssuesFrom | agents/critique_agent.py:79 | one issue per non-blank line; each issue is a non-blank line with `-`/space and then whitespace stripped from both ends, and every non-blank line gives its issue (order and repetition: `IssuesFromAppend`, `IssuesFromLine`) |
| CritiqueAgent.ComprehensionAppend | agents/critique_agent.py:79 | the comprehension of joined lists is the join of the comprehensions, in order |
| CritiqueAgent.IssuesFromAppend | agents/critique_agent.py:79 | the issues of joined lines are those of the first lines followed by those of the rest, so issues keep the order and repetitions of their lines |
| CritiqueAgent.IssuesFromLine | agents/critique_agent.py:79 | one line gives its cleaned issue when it is not blank and nothing when it is blank |
| CritiqueAgent.DashLineGivesEmptyIssue | agents/critique_agent.py:79 | a `---` line is not blank and gives one empty issue |
| CritiqueAgent.ParseCritique | agents/critique_agent.py:69-80 | passed exactly when the reply holds `PASS: YES` and no `ISSUES:` (case-sensitive); no issues without `ISSUES:`; otherwise the issues of the lines of the issues section |
| CritiqueAgent.IssuesSectionBounds | agents/critique_agent.py:78 | the issues section is the text right after the first `ISSUES:` up to the next `ISSUES:` or the end, stripped |
| CritiqueAgent.Run | agents/critique_agent.py:68-83 | the critique node writes only `critique_passed` and `critique_feedback`, as the parser reads the reply |
| Feedback.Bullets | agents/moderator_agent.py:44 | one `- issue` line per issue, in order |
| Feedback.FeedbackText | agents/research_agent.py:58 | the joined bullet lines are empty exactly when there are no issues |
| Feedback.CleanBullet | agents/critique_agent.py:79 | the bullet line of a clean issue is kept by the critique parser and cleans back to the issue |
| Feedback.ComprehensionKeepsAll | agents/critique_agent.py:79 | a comprehension that keeps every line maps each line to its cleaned form |
| Feedback.IssuesOfBullets | agents/critique_agent.py:79 | reading the bullet lines of clean issues gives the issues back |
| Feedback.FeedbackRoundTrip | agents/moderator_agent.py:44 | the critique parser's line reading inverts the feedback rendering: splitting the text into lines and reading the issues gives the feedback back |
| Feedback.NoMarkerInJoin | agents/moderator_agent.py:44 | newline-joined lines without `ISSUES:` hold no `ISSUES:` |
| Feedback.SectionAfterMarker | agents/critique_agent.py:77-78 | after a leading `ISSUES:`, the section is the rest of the reply when the rest holds no other `ISSUES:` |
| Feedback.StripNewlineFeedback | agents/critique_agent.py:78 | stripping the feedback text after a newline gives the feedback text back |
| Feedback.ReplyRoundTrip | agents/critique_agent.py:69-80 | a reply of `ISSUES:` followed by the bullet lines of clean issues that do not mention `ISSUES:` is read as failing, with exactly those issues in order |
| DraftAgent.Run | agents/draft_agent.py:25-37 | the prompt carries the topic and the research; the reply becomes the article, nothing else changes |
| ImageAgent.ImageUrl | agents/image_agent.py:53-61 | the address on success; on failure the message wrapped in `[DALL-E Error: ` and `]` |
| ImageAgent.FailureRecognisable | agents/image_agent.py:57-61 | a failure is recognisable by the error prefix, for addresses that do not start with it |
| ImageAgent.Run | agents/image_agent.py:27-63 | the prompt quotes the first 500 characters of the article; the image prompt is stored whatever the outcome, and `image_url` records the outcome |
| ModeratorAgent.Run | agents/moderator_agent.py:28-62 | the prompt numbers the revision one past the count and carries the bullet feedback; the reply replaces the article and the count goes up by exactly one; nothing else changes |
| PostAgent.Run | agents/post_agent.py:25-37 | the prompt quotes the first 600 characters of the article; the stripped reply becomes the post |
| ResearchAgent.Run | agents/research_agent.py:28-46 | the reply replaces the research, the revision count restarts at 0, the limit becomes 3 whatever it was, one research call is counted; nothing else changes |
| SeoAgent.LineValues | agents/seo_agent.py:44 | one value per comma-separated item, in order: value k is item k of the comma split, stripped; commas + 1 values |
| SeoAgent.LineValuesStripped | agents/seo_agent.py:44 | every value is whitespace-stripped |
| SeoAgent.LineValuesOfJoin | agents/seo_agent.py:44 | stripped items without commas, joined by commas, are read back unchanged |
| SeoAgent.MarkerLineBounds | agents/seo_agent.py:43 | the marker line is the text right after the first marker up to the first newline, the next marker or the end |
| SeoAgent.MarkerValues | agents/seo_agent.py:42-48 | no values without the marker; otherwise the stripped comma-separated items of the marker line (commas + 1 of them, so never empty) |
| SeoAgent.MarkerValuesClean | agents/seo_agent.py:43-44 | every value is stripped and lies within one line |
| SeoAgent.EmptyMarkerLine | agents/seo_agent.py:43-44 | a marker followed directly by a newline gives exactly one empty value |
| SeoAgent.Run | agents/seo_agent.py:25-53 | the SEO node writes only `hashtags` and `seo_keywords`, each read independently from its marker; the prompt quotes 800 characters of the article |
| Export.DropUnsafe | utils/export_utils.py:351 | only word characters, whitespace and hyphens remain, and each remaining character comes from the input (order: `DropUnsafeAppend`, `DropUnsafeChar`) |
| Export.DropUnsafeKeeps | utils/export_utils.py:351 | a string of safe characters passes unchanged |
| Export.DropUnsafeAppend | utils/export_utils.py:351 | the filter of joined strings is the join of the filtered strings, so the kept characters stay in order |
| Export.DropUnsafeChar | utils/export_utils.py:351 | one character is kept exactly when it is a word character, whitespace or a hyphen |
| Export.CollapseSeparators | utils/export_utils.py:352 | no hyphen or whitespace remains; every character is `_` or one of the input's |
| Export.CollapseRun | utils/export_utils.py:352 | a leading maximal run of hyphens and whitespace becomes a single `_` and the rest collapses on its own |
| Export.CollapseNonSeparator | utils/export_utils.py:352 | a leading character that is not a hyphen or whitespace is kept and the rest collapses on its own; with `CollapseRun` this fixes the result on every input |
| Export.CollapseKeeps | utils/export_utils.py:352 | a string without hyphens or whitespace is left alone |
| Export.StripSafe | utils/export_utils.py:351 | stripping keeps a safe string safe |
| Export.CollapseSafe | utils/export_utils.py:351-352 | collapsing the separators of a safe string leaves only word characters |
| Export.SafeTopic | utils/export_utils.py:351-352 | the safe topic holds only word characters and is at most 50 long |
| Export.JoinPathExtension | utils/export_utils.py:357-358 | joining a relative name keeps it under the directory, and the extension can be added after joining |
| Export.CreateArticlePackage | utils/export_utils.py:336-368 | the Word and image paths share one stem under the output directory and differ only by `.docx` / `.jpg`; the directory is returned as given |
| Export.RemoveAll | utils/export_utils.py:71 | removing every `#` leaves none behind |
| Export.RemoveDoubleHash | utils/export_utils.py:68 | removing every `##` leaves no `##` behind, since the text before the first `##` cannot end in `#` |
| Export.JoinNoDoubleHash | utils/export_utils.py:68 | two texts without `##`, the first not ending in `#`, join without `##` |
| Export.ClassifyLine | utils/export_utils.py:61-76 | blank lines give no block; a `#` line gives a heading, of level 2 exactly for `##` lines; a level-2 heading's text is the stripped line with every `##` removed, then stripped, and holds no `##`; a level-1 heading's text is the stripped line with every `#` removed, then stripped, and holds no `#`; heading texts are stripped; anything else is a paragraph of the stripped line |
| Export.TripleHashHeading | utils/export_utils.py:67-69 | a `### X` line becomes a level-2 heading `# X` |
| Export.Blocks | utils/export_utils.py:59-76 | at most one block per line |
| Export.BlocksAppend | utils/export_utils.py:59-76 | the blocks keep the order of the lines: those of `a + b` are those of `a` then those of `b` |
| Export.ExportArticleContent | utils/export_utils.py:58-76 | the line loop adds exactly the blocks of the article's lines, in order |
| Export.PlaceholderCaption | utils/export_utils.py:170-190 | themes are tested in order: sustainability/carbon gives Green AI, then optimization/efficiency gives AI Optimization, then machine learning/llm gives AI Innovation; an unthemed prompt is captioned from its words |
| Export.CaptionWords | utils/export_utils.py:184-190 | the title is the first six words; the subtitle is the rest, or `Technology` for at most six words |
| Workflow.LogAgentCall | workflow.py:84-105 | one record appended, numbered one past the length, with the counter snapshot; ids stay sequential; only the caller's count grows |
| Workflow.WithAdditional | workflow.py:163-164 | the old research is always a prefix; the research is unchanged exactly when the reply is empty |
| Workflow.AdditionalResearchStep | workflow.py:159-164 | the call is counted first and logged as `additional_<new count>` under the research agent; the research grows only by a non-empty reply |
| Workflow.FirstPass | workflow.py:722-764 | the number of revisions: no verdict before it passes, and it passes unless it is the limit |
| Workflow.FirstPassUnique | workflow.py:722-764 | those properties determine the number of revisions |
| Workflow.SequentialResearch | workflow.py:746-757 | the research after `m` additional replies keeps the initial research as a prefix |
| Workflow.ResearchRound | workflow.py:746-757 | one round extends the research by the next reply exactly when the check fires |
| Workflow.InlineResearch | workflow.py:738-757 | the research check: with a 20-phrase hit, one additional research call, counted, logged and added |
| Workflow.ReviseOnce | workflow.py:732-760 | one revision: the research check, then the moderator, one revision more |
| Workflow.CritiqueRound | workflow.py:725-726 | one logged critique sets the verdict and issues of the reply at this revision count |
| Workflow.ReviseAfterCritique | workflow.py:732-760 | after a failing critique with revisions left, the round completes one more revision |
| Workflow.LoopRound | workflow.py:722-764 | the loop ends exactly on a pass or at revision 3; otherwise one more revision is made |
| Workflow.ReviseLoop | workflow.py:720-764 | the loop stops at the first passing critique or after 3 revisions, with that critique's verdict and issues and the research of the revisions made |
| Workflow.ExportOutcome | workflow.py:800-822 | no entry without export, the package paths on success, `None` when the export raised |
| Workflow.ImageStage | workflow.py:768-771 | one logged image call, then the image agent |
| Workflow.PostStage | workflow.py:773-776 | one logged post call, then the post agent |
| Workflow.SeoStage | workflow.py:778-781 | one logged SEO call, then the SEO agent |
| Workflow.ResearchAndDraft | workflow.py:704-716 | research then draft, each logged once; the limit is 3 after research |
| Workflow.SupportingContent | workflow.py:766-781 | image, post and SEO, in order, one record each |
| Workflow.SequentialTally | workflow.py:704-781 | the whole call log has ids 1..N, `2n + h + 6` records, and a fixed count per agent |
| Workflow.DraftAndRevise | workflow.py:704-764 | research, draft and the loop on a fresh state |
| Workflow.SupportAndTally | workflow.py:766-781 | the supporting stages leave the loop's fields alone and complete the call log |
| Workflow.RunStages | workflow.py:704-781 | steps 1 to 4 on a fresh state |
| Workflow.GenerateArticle | workflow.py:666-827 | revisions made = first passing critique or 3 (the configured limit is ignored); the article, feedback, research and counters that result; the call log's length, ids and per-agent counts; the supporting content; the export outcome |
| Graph.Name | workflow.py:114-122 | every node is registered under a non-empty name, and only the end marker is named `__end__` |
| Graph.Next | workflow.py:125-150 | the edge table: research, draft, critique, then by the router's answer the moderator, the additional research node or the image; additional research to moderator to critique; image, post, SEO, final assembly, end. The research node is never entered again |
| Graph.EnteredFrom | workflow.py:125-150 | the table read backwards: the critique is entered from the draft and the moderator, the moderator from additional research or a revising critique, additional research and image only from the critique on their answers, the end only from the final assembly |
| Graph.NamesDistinct | workflow.py:114-122 | the node names are pairwise different |
| Graph.CritiqueRoutesDistinct | workflow.py:132-140 | the three router labels lead from the critique to three different nodes |
| Graph.UnconditionalEdges | workflow.py:128-150 | every node other than the critique has one successor whatever the router says |
| Graph.ResearchMore | workflow.py:154-167 | the additional research node counts the call, logs it with the new count and extends the research |
| Graph.AdditionalResearchNodeStep | workflow.py:154-167 | the node's effect on the state is `ResearchMore` of the state before |
| Graph.Critiqued | agents/critique_agent.py:68-83 | the critique node sets the verdict and issues the parser reads from the critique made at the current revision count, and nothing else |
| Graph.CritiqueNodeStep | agents/critique_agent.py:68-83 | the critique agent's effect on the state is `Critiqued` of the state before |
| Graph.ModeratorNodeStep | agents/moderator_agent.py:44-60 | the moderator agent's effect on the state: the reply to the current revision replaces the article and one more revision is counted |
| Graph.FinalAssemblyNode | workflow.py:169-189 | the final output is built from the state |
| Graph.Cycle | workflow.py:132-144 | the critique/revision cycle of the graph (critique node, router, then the additional research and moderator nodes) never goes past revision 3 |
| Graph.DetourWalk | workflow.py:132-144 | a revision detour is a walk from the critique to the moderator, through the research node exactly on additional research |
| Graph.CyclePath | workflow.py:132-144 | the cycle is a walk between critiques with one critique more than revisions, one moderator per revision and one research node per additional research call |
| Graph.ResearchMoreExtends | workflow.py:159-164 | what extends the values after an additional research call extends those before it |
| Graph.CycleLog | workflow.py:154-167 | the cycle's log keeps the log before it, adds only research-agent records, one per call, keeps ids sequential and keeps the research as a prefix |
| Graph.CycleRevisions | workflow.py:550-564 | the cycle stops at the first passing critique or after revision 3, where the router generates |
| Graph.CycleOutcome | workflow.py:132-144 | the cycle ends with its starting article if it made no revision, otherwise the moderator's last revision, and with the verdict and issues of the critique at the final count |
| Graph.GraphPathValid | workflow.py:125-150 | the graph's run is a walk of the edge table from research to the end, with at most 4 critiques and 3 moderator runs, and the sequential loop's number of revisions |
| Graph.FramedWalk | workflow.py:125-150 | research, draft, a critique cycle, then image, post, SEO, final assembly and the end form a walk |
| Graph.GraphArticleLog | workflow.py:490-548 | the graph's output counts the sequential loop's revisions and one research call; its log holds only the additional research calls, numbered from 1, with no critique record |
| Graph.GraphArticle | workflow.py:490-548 | the graph's output makes the sequential loop's number of revisions, ends with the draft or the last revision and the last critique's issues, and stops before revision 3 only on a passing critique |
| Graph.CycleWithoutResearch | workflow.py:575-598 | without research phrases the cycle makes no additional research call and keeps the research and the log |
| Graph.GraphMatchesSequential | workflow.py:490-548 | without research phrases, the article, research, feedback and counters the graph's run produces are those `Workflow.GenerateArticle` states for the sequential workflow, and the graph's log is empty |
| Graph.NoInlineHits | workflow.py:738-744 | without router phrases the sequential loop finds none of its phrases either |
| WorkflowUtils.LoggedRecords | utils/workflow_utils.py:13-34 | a missing or non-list log restarts empty; one record is appended numbered one past the kept records, with the counter snapshot; prior records kept |
| WorkflowUtils.StateDict.Initial | utils/workflow_utils.py:83-102 | every key present: zero counters, not passed, empty strings and lists, the limit stored unchanged |
| WorkflowUtils.StateDict.LogAgentCall | utils/workflow_utils.py:13-34 | the log becomes `LoggedRecords` of the old one, counters read with default 0; nothing else changes |
| WorkflowUtils.StateDict.ShouldContinueRevision | utils/workflow_utils.py:37-80 | a missing `critique_passed`, `revision_count` or `max_revisions` fails in that order and only when read; otherwise the router's decision with feedback, counters and research defaulting to empty or 0 |
| WorkflowUtils.StateDict.CreateFinalOutput | utils/workflow_utils.py:105-121 | fails on the first missing required key; otherwise `revisions_made` is the count, the research counters and log default, every other entry is copied |
| WorkflowUtils.HelpersAgree | utils/workflow_utils.py:37-121 | on a full dictionary, the helpers agree with the workflow's router, final output and logger |
| WorkflowUtils.InitialState | utils/workflow_utils.py:83-102 | the initial state revises while the limit is positive, generates otherwise, and its final output is empty |
| WorkflowUtils.LogRestarts | utils/workflow_utils.py:15-18 | a missing or non-list log restarts at call id 1 |
| Visualization.NodeOf | utils/visualization_utils.py:240-257 | research records go to `additional_research` exactly when their call type mentions `additional`, else to `research`; known stems to their node; other agents nowhere |
| Visualization.NodeCallCounts | utils/visualization_utils.py:235-258 | the loop's counts are the tally of the log |
| Visualization.TallyExact | utils/visualization_utils.py:237-257 | a key is present exactly when some record is tallied under it, with that many records (at least 1), and is one of the eight nodes |
| Visualization.TallyTotal | utils/visualization_utils.py:239-257 | the counts sum to at most the log length |
| Visualization.TalliedNodesAreGraphNodes | utils/visualization_utils.py:241-257 | every tallied key names a node of the graph |
| Visualization.NodeStyleOf | utils/visualization_utils.py:48-69 | the kind and colour of each known node; other nodes keep their kind in grey; size 30 exactly for the kind `initial` |
| Visualization.DefaultSize | utils/visualization_utils.py:48-69 | with the default kind, size 30 exactly for `research` |
| Visualization.GraphNodesStyled | utils/visualization_utils.py:50-63 | every graph node but the draft has a style of its own |
| Visualization.EdgeStyleOf | utils/visualization_utils.py:71-97 | width 2 always; non-critique edges unlabelled and green; critique edges labelled `revise`, `needs research` (with counts from non-empty run data) or `pass` |
| Visualization.EdgeLabelsFollowRouter | utils/visualization_utils.py:76-91 | each critique edge is labelled with the router answer that takes it, and the labels differ |
| RuntimeMonitoring.NodeRunsTotal | monitoring/runtime_monitor.py:98-101 | the runs counted per node add up to all runs listed |
| RuntimeMonitoring.NodeRunsExtendLast | monitoring/runtime_monitor.py:35-47 | listing a run under the last execution adds one run of that node |
| RuntimeMonitoring.NodeRunsSnoc | monitoring/runtime_monitor.py:98-101 | one more execution adds its runs |
| RuntimeMonitoring.AddRuns | monitoring/runtime_monitor.py:99-101 | the inner loop adds one count per run of the execution |
| RuntimeMonitoring.NodeRunsSameLast | monitoring/runtime_monitor.py:62-74 | changing the last execution's edge records keeps the runs |
| RuntimeMonitoring.NodeRunsAppendEmpty | monitoring/runtime_monitor.py:24-29 | a new execution with no runs keeps the runs |
| RuntimeMonitoring.ListedStep | monitoring/runtime_monitor.py:49-55 | one more record under a node keeps pace with one more run |
| RuntimeMonitoring.RunLogged | monitoring/runtime_monitor.py:34-55 | logging a run under the last execution and under the node keeps the two consistent |
| RuntimeMonitoring.RuntimeMonitor.constructor | monitoring/runtime_monitor.py:16-19 | nothing logged, no current execution |
| RuntimeMonitoring.RuntimeMonitor.StartExecution | monitoring/runtime_monitor.py:21-30 | one execution with no runs and no edges appended, and made current |
| RuntimeMonitoring.RuntimeMonitor.LogNodeExecution | monitoring/runtime_monitor.py:32-57 | while tracking (id set and non-empty), one snapshot under the last execution and one record under the node; otherwise nothing changes |
| RuntimeMonitoring.RuntimeMonitor.LogConditionalEdge | monitoring/runtime_monitor.py:59-77 | while tracking, one edge record under the last execution only; otherwise nothing changes |
| RuntimeMonitoring.RuntimeMonitor.GetExecutionSummary | monitoring/runtime_monitor.py:79-85 | the first execution with a non-empty matching id; otherwise the last one, or nothing for an empty log |
| RuntimeMonitoring.RuntimeMonitor.GetNodeExecutions | monitoring/runtime_monitor.py:87-89 | the records under the node, none for an unseen node |
| RuntimeMonitoring.RuntimeMonitor.GetRuntimeStats | monitoring/runtime_monitor.py:91-107 | the message for an empty log; otherwise the number of executions, each node's run count (equal to its listed records) and the current id |

## Left out

- Language-model, image-service and HTTP calls and prompt-template files are left out. Each reply is a parameter (`Workflow.Replies`, `ImageAgent.Run`'s outcome). Only the values a prompt is filled with are returned.
- The graph engine itself (building, compiling and invoking the state graph) is left out. The graph's run is the function `Graph.Cycle` over the edge table, and its nodes are the agents.
- Clocks are left out: timestamps of call records and monitor entries are dropped, and the export timestamp is a parameter.
- Logging, printing and console output are left out.
- Configuration is left out: the export flag and output directory are parameters, and so is whether writing the package raises (`exportSucceeds`).
- Router.Decide: the feedback scan is "some item, lowercased, contains a phrase". The source scans `str(feedback).lower()`, where escapes can create a hit that no item holds. Example: an item holding a carriage return followed by `ecent developments` is shown as `\recent developments` in the list's text. No phrase contains a quote, comma or bracket, so list punctuation never makes a difference.
- Text.Lower: lowercasing, whitespace and `\w` cover ASCII only. Unicode case folding and Unicode word characters are not modelled.
- ModeratorAgent.Run: a missing required key (`critique_feedback`, `article`, `research_data`, `revision_count`) cannot arise, because the agents run on the typed state, where every key is present. The `KeyError` paths are modelled only for the dictionary helpers in `WorkflowUtils`.
- WorkflowUtils.StateDict: each key holds a value of its declared type or is missing. Only `agent_call_log` may hold something other than a list.
- Visualization.EdgeStyleOf: run data values are integers, so formatting other kinds of values is not modelled.
- RuntimeMonitoring.RuntimeMonitor.GetExecutionSummary returns the execution record as a value. The source returns the same dictionary object, so later logging changes it; the model does not.
- Dead code is left out: `_build_workflow` and `_final_assembly` (workflow.py:600-664) are never called.
- Graph rendering is left out: pyvis/NetworkX/PNG drawing and the execution graph's HTML.
- Document and image output is left out: python-docx building, PIL drawing and gradient arithmetic, and the fallback image files.
- The critique agent's prompt values are left out: the state it quotes to the model does not change the state.
- The logging helpers, the configuration module, the command-line scripts and the examples are not part of this model.
