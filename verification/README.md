# Verified models of brains: realtime resume, release site, call scanners, native journey

These Dafny modules model the parts of the repository whose correctness is hard
to see from one function at a time, and prove what its code, comments and tests
promise of them. `dafny verify dfyconfig.toml` checks the whole project.

**Realtime resume** (`Protocol`, `CursorTracker`, `TopicMap`, `RealtimeClient`,
`EventStore`, `Delivery`, `Grants`, `ResumeProof`, `CutLoss`, `ResumeLimits`,
`CutAndResume`, `Handling`, `Console`). The console holds one cursor for a
multiplexed socket. `Delivery` is the whole stream as a step system: the log,
its pruning, the bus, one connection with its catch-up batches and live queue,
the FIFO channel and the console, with a disconnect possible between any two
steps. The server in it is the one in `src/brains/api/ws.py` and
`src/brains/events/store.py`. The main results: in every run nothing the console
is owed lies at or below its cursor without having been applied; at rest
everything owed has been applied; a batch cut any number of times and resumed
ends exactly where one uninterrupted read would; while the window is not
exceeded and no reset arrives, a handler registered throughout is called once
for every applied event of its topic. In the other direction (`Grants`), only
committed events in scope on topics granted at that moment are ever written, and
none that a batch carried is written again live while it is remembered. The client is tied to that system by
`Console`: connecting, the timer, opening, subscribing, unsubscribing, arriving
frames and closing each make exactly one of its steps or none, and the system
stays reachable, so what holds in every run holds of the client.

Each topic has an *opening position*, from which its delivery has no hole. It is
set by the frame that settles the topic's batch (by the ack already, for the
first batch of a connection that is not a reset). What a cut costs is proved
exactly: once a reconnect without a reset is at rest, an event on a topic it
granted is missing if and only if it had not been applied by the cut, had been
announced by the time the reconnect was registered, and lies at or below the
cursor held at the cut - or there was no such cursor
(`CutLoss.ReconnectLosesExactly`). What is missing then stays missing through
every later connection (`CutLoss.TooLateIsForever`), and
`CutLoss.SubscribeMissesExactly` gives the condition for any single subscribe,
also one on a connection that is already live. There are four places where the
resume promise is not what one might expect:

- A topic added to a live connection is read from the cursor its subscribe was
  sent with but resumed from the cursor held when the socket drops. If live
  frames moved the cursor in between and the added batch did not arrive, events
  on the added topic are lost, which the comment at
  `frontend/src/realtime/client.ts:16-18` rules out
  (`ResumeLimits.IncrementalSubscribeCanLeaveAHole`). The cursor need not even
  move: without one, the reconnect starts at the head of the log
  (`ResumeLimits.AddedTopicWithoutCursorCanLeaveAHole`). An incremental topic is
  therefore protected from the moment its batch is closed, not from its ack.
- A console without a cursor has something to lose, which
  `frontend/src/realtime/protocol.ts:298` denies: at rest on an empty log, a cut
  under the first event on its settled topic loses that event
  (`ResumeLimits.SettledTopicWithoutCursorCanLeaveAHole`). The opening position
  of a topic that stays open moves outside a reset exactly when a covering
  subscribe is answered while no cursor is held and the log is not empty
  (`CutLoss.PositionMovesIff`).
- After a reset whose replay was truncated, the reset's own cursor is short of
  rows the batch will never carry, which happens exactly when the rows asked for
  exceed the bound (`EventStore.CursorLeavesNothingBehindIff`); the console's
  REST re-read answers for those, so the opening position of the reset's topics
  is the head of the log at that read.
- A partial batch sends its receipt only when it wrote past the reported cursor;
  otherwise the batch closes without one.

**Release site** (`Markers`, `Splice`, `Spans`, `Site`, `SiteRun`, `Pages`,
`Numerals`, `Strings`, `StableReleases`, `ReleaseNotes`, `VisibleText`,
`Highlights`, `Render`, `Reading`, `ReleaseSite`). The checks on a page accept
exactly the texts that are plain text interleaved with whole regions; the
right-to-left splice of spans collected name by name is the simultaneous
substitution of all regions. `Pages` says the same of pages written out: a page
is accepted exactly if it is text and regions with the markers it must have, and
comes out the same with each region filled with the fact of its name
(`Pages.SyncWrittenPage`). Whatever the release notes contain, the rendered text
can hold no marker; so a second run over the output is accepted and changes
nothing. `Reading` takes the tags out of the rendered text and reads its escapes
back: what remains is the tag, the date, the heading and the items of a release,
and no more. A listing is accepted exactly if no record breaks a rule, and shows
exactly its public records with a stable tag. The release-note scanner is proved
to terminate, to show nothing hidden, and - where no fence opens - to be the
removal of comments from the text, read again from each cut.

**Call scanners** (`CallScanner`, `SourceTerms`). The loops of the traceability
script run an automaton over characters; splitting conserves every text, and
arguments written as a call are read back. `SourceTerms` is the grammar of what
they read: a bracket is taken for the end of its call exactly when the text
before it is made of quoted strings, bracketed groups and plain characters
(`SourceTerms.CallClosesIff`). The element scanner counts braces inside quotes as
well, and reads an expression back exactly when all of its braces nest.

**Native journey** (`RuntimeTree`, `ProcessTree`, `SealedPlan`, `RecordChain`,
`Digest`, `Backups`). Removal of the runtime tree and of the synthetic client
configuration is all or nothing, with the exact condition under which a
validated removal completes; the single-file configuration goes back to the
backups it began with wherever its removal is not refused; a process tree is
ended in post-order; preparation and verification succeed in exactly the worlds
that answer their calls and take their writes, and from one to the other, by way
of the plan on disk, all steps come out numbered and in order
(`SealedPlan.Travel`). Two things are not as the code's surroundings assume. A
row is appended to the plan before the plan is written, so where the service may
be installed the plan on disk is the rollback's plan if and only if preparation
did not end at a write that failed (`SealedPlan.Journey.Prepare`,
`SealedPlan.FailedWriteLosesRollback`). And preparation compares only
neighbouring process ids, while the check on its record wants all of them
different: a world whose ids take turns lets it succeed and its record is
refused (`SealedPlan.PidsCanComeBack`); the record of a preparation is accepted
exactly when the world's processes were all new
(`SealedPlan.RecordShowsNewIff`).

**Companions** (`SessionScope`, `ChatDock`, `ExactDifferences`). Answers that
arrive in any order never reach another Session's thread. The manifest walk
reports nothing exactly when the two values are equal under Python's `==`, which
is identity between values whose numbers are all integers and is not in general
(`ExactDifferences.FlagPassesForCount`).

`Options` and `Sequences` hold what several modules share.

## Model

| member | source | states |
|---|---|---|
| Protocol.WindowIsRecentHistory | frontend/src/realtime/protocol.ts:231-288 | after any frames the remembered ids are the last 2048 accepted since the last clear, and a durable id is refused if and only if it is among them |
| Protocol.AppliedOncePerWindow | frontend/src/realtime/protocol.ts:261-287 | two acceptances of one id are more than a full window apart |
| Protocol.WindowHasNoRepeats | frontend/src/realtime/protocol.ts:234-288 | the list and the set of remembered ids are the same without repeats |
| Protocol.CursorIsMaximumOffer | frontend/src/realtime/protocol.ts:254-355 | the cursor is the maximum of the base left by the last reset or adopted ack and what live frames, covering batches and covering receipts offered since |
| Protocol.PartialBatchRetiresNothing | frontend/src/realtime/protocol.ts:236-254 | without a reset the cursor never moves back, and between a non-covering ack and its receipt nothing but a live frame or a covering ack moves it |
| CursorTrackers.CursorTracker.Accept | frontend/src/realtime/protocol.ts:275-288 | returns whether the frame is to be applied and leaves the filter of the value model |
| CursorTrackers.CursorTracker.ApplyAck | frontend/src/realtime/protocol.ts:306-313 | adopts an ack only where it covers the connection and no cursor is held |
| CursorTrackers.CursorTracker.ApplyReplayComplete | frontend/src/realtime/protocol.ts:335-344 | closes the batch and moves the cursor only forward, and only for a covering receipt |
| CursorTrackers.CursorTracker.ApplyReset | frontend/src/realtime/protocol.ts:350-355 | forgets what was applied and takes the server's cursor, leaving the batch state |
| TopicMaps.LinkKeepsInverse | frontend/src/realtime/protocol.ts:185-190 | a link keeps the two maps inverse if and only if it does not rename a name that is linked elsewhere |
| TopicMaps.ForgetKeepsInverse | frontend/src/realtime/protocol.ts:192-200 | a forget keeps them inverse if and only if the derived name was not the empty string |
| TopicMaps.ForgetForgetsOne | frontend/src/realtime/protocol.ts:192-200 | a forget drops exactly one name; every other stays linked to the same topic |
| TopicMaps.ForgottenOthersStayRouted | frontend/src/realtime/protocol.ts:192-200 | whoever shared the topic of a forgotten name is still routed each of its frames once |
| TopicMaps.NamesGoByWhatWasGiven | frontend/src/realtime/protocol.ts:168-200 | over every run without renames, a name is linked to what the last ack that granted it gave it since it was last forgotten, and to nothing otherwise |
| TopicMaps.MapsStayInverse | frontend/src/realtime/protocol.ts:168-224 | in every run that never renames without a forget, each derived name has exactly its non-empty preimage |
| TopicMaps.RoutedExactlyOnce | frontend/src/realtime/protocol.ts:213-218 | a linked name is listed once for frames of its own topic and never for another |
| TopicMaps.AckedNameIsRoutedOnce | frontend/src/realtime/protocol.ts:173-183 | after an ack a granted name is routed once, if and only if it is not a canonical name that an alias already holds |
| TopicMaps.TopicMap.ApplyAck | frontend/src/realtime/protocol.ts:173-183 | the mutable maps take the ack as the value model does |
| TopicMaps.TopicMap.Forget | frontend/src/realtime/protocol.ts:192-200 | exactly the forgotten name leaves the map of names, and every other name is listed for the same topics as before |
| RealtimeClients.FrameReachesHandlersOnce | frontend/src/realtime/client.ts:192-197 | a frame that is news reaches each handler under a name derived to its topic exactly once, a repeat reaches nobody |
| RealtimeClients.EveryHandlerOnce | frontend/src/realtime/client.ts:154-165 | a reset reaches every registered handler exactly once |
| RealtimeClients.WildcardHearsOnce | frontend/src/realtime/client.ts:192-197 | a handler for everything hears each frame that is news once, whatever its topic |
| RealtimeClients.RevocationReachesOnce | frontend/src/realtime/client.ts:166-183 | a revocation that leaves the credential in force reaches each handler once whose name listens to a lost topic, and no other handler of a topic |
| RealtimeClients.ForgetAllForgets | frontend/src/realtime/client.ts:176-181 | exactly the affected names are forgotten, and everyone else on the same topics goes on hearing of them once |
| RealtimeClients.RealtimeClient.Receive | frontend/src/realtime/client.ts:137-197 | one inbound frame changes tracker, routes, connection state and calls handlers as specified for its kind; a revocation ends the connection for good exactly when its reason is neither `scope_revoked` nor `revalidation_failed` |
| RealtimeClients.RealtimeClient.Connect | frontend/src/realtime/client.ts:86-98 | does nothing where a connection is open, being made or denied, otherwise starts one; where no socket can be made a timer is left, and a denied client stays denied |
| RealtimeClients.RevokedThenClosed | frontend/src/realtime/client.ts:116-121 | a client that got one of those two reasons and whose socket then closes is closed with the reconnect timer running |
| RealtimeClients.DeniedStaysDenied | frontend/src/realtime/client.ts:86-91 | a client that got any other reason, or none, stays denied through the close and every further attempt to connect |
| Consoles.Console.Connect | frontend/src/realtime/client.ts:86-98 | connecting makes no step of the stream |
| Consoles.Console.OnTimer | frontend/src/realtime/client.ts:199-205 | nor does the timer that connects again |
| Consoles.Console.OnOpen | frontend/src/realtime/client.ts:100-106 | opening the socket is the step of the stream that asks for every live topic from the cursor held |
| Consoles.Console.Subscribe | frontend/src/realtime/client.ts:228-237 | the first handler of a topic makes the step that asks for it, a further one makes none, and either connects a client that may |
| Consoles.Console.Unsubscribe | frontend/src/realtime/client.ts:239-250 | dropping the last handler of a topic makes the step that gives it up, any other none |
| Consoles.Console.Receive | frontend/src/realtime/client.ts:137-197 | an arriving frame makes the arrival step and exactly its calls, after which nothing owed is unapplied at or below the client's cursor |
| Consoles.Console.OnClose | frontend/src/realtime/client.ts:116-121 | the close of an open socket makes the disconnect step, that of one never opened none, and a timer connects again |
| Consoles.SecondConnection | frontend/src/realtime/client.ts:86-121 | from a new console through subscribing, opening, being answered, closing and the timer to an open connection that asks again for the topic |
| Handling.HandledOnce | frontend/src/realtime/client.ts:192-197 | over every run without a reset and within the window, a handler registered throughout is called for an event of its topic once if it was applied and never otherwise, so at rest once for everything owed |
| EventStore.ReplayHandsOver | src/brains/events/store.py:294-362 | from any cursor a replay carries exactly the retained in-scope rows of its topics between the two cursors, in order and within the bound, and without a gap nothing of its topics lies beyond |
| EventStore.ReplayGapIff | src/brains/events/store.py:316-362 | from any cursor there is a gap exactly when the cursor is out of range, a row after it was pruned, or more rows are wanted than fit, and with which reason; out of range nothing is carried and the cursor is the newest row |
| EventStore.ReplayCursorIsARow | src/brains/events/store.py:294-362 | without a gap the cursor is where the read began or a row of its topics |
| EventStore.CursorLeavesNothingBehindIff | src/brains/events/store.py:294-362 | the replay cursor leaves no retained row of its topics behind if and only if the rows asked for fit the bound |
| EventStore.TruncatedResetLeavesARow | src/brains/events/store.py:294-362 | a store at which a truncated reset resumes short of a row it will never carry |
| Grants.OnlyGrantedIsSent | src/brains/api/ws.py:359-385 | in every run an event frame is written only for a committed event in the connection's scope on a topic granted at that moment |
| Grants.OnlyGrantedIsRemembered | src/brains/api/ws.py:464-475 | in every run only events of granted topics are remembered as written, so a topic that comes back starts afresh |
| Grants.BatchedIsNotSentLive | src/brains/api/ws.py:366-385 | in every run an event that a batch carried is not written again from the live queue while the connection stays, the topic is held and the event is remembered |
| Grants.BatchIsWritten | src/brains/api/ws.py:740-788 | one catch-up read frame by frame: an ack naming where the read began, after a gap a reset to where it ended, its events in order marked as replayed, and a receipt exactly if it went past the ack |
| Grants.QueuedIsSentIff | src/brains/api/ws.py:372-385 | a queued frame no batch carried is written if and only if its topic is still held |
| ResumeProof.StepKeeps | src/brains/api/ws.py:716-920 | every step of server, channel, console or environment keeps the delivery invariant |
| ResumeProof.RunKeeps | src/brains/api/ws.py:575-712 | every state of every run satisfies the delivery invariant |
| ResumeProof.NoEventIsLost | frontend/src/realtime/protocol.ts:9-23 | in every run, every owed event at or below the cursor has been applied |
| ResumeProof.AtRestEverythingIsApplied | frontend/src/realtime/client.ts:16-24 | with nothing queued, in flight or unannounced, every owed event has been applied |
| CutLoss.ReconnectLosesExactly | frontend/src/realtime/client.ts:16-24 | in every run, an event on a granted topic is missing once a reconnect without a reset is at rest if and only if it was unapplied at the cut, announced by the registration, and not above the cursor held at the cut, if any was held |
| CutLoss.TooLateIsForever | frontend/src/realtime/client.ts:23-24 | such an event is never applied, on that connection or any later one, whatever else is cut or reset |
| CutLoss.SubscribeMissesExactly | src/brains/api/ws.py:740-788 | for any subscribe, first on its connection or later, an event on a topic it granted is missing at rest if and only if at the registration it was announced, neither applied nor in flight nor queued, and not above the cursor asked from, if any was |
| CutLoss.PositionMovesIff | frontend/src/realtime/protocol.ts:298-313 | outside a reset and a cut the position of a topic that stays open moves, to the head of the log, if and only if a covering subscribe is answered while no cursor is held and the log is not empty |
| ResumeLimits.IncrementalSubscribeCanLeaveAHole | frontend/src/realtime/client.ts:16-24 | a run from a subscribe to rest in which an event published after the subscribe was not applied and is passed by for good |
| ResumeLimits.AddedTopicWithoutCursorCanLeaveAHole | frontend/src/realtime/client.ts:131-133 | the same without any cursor having moved |
| ResumeLimits.SettledTopicWithoutCursorCanLeaveAHole | frontend/src/realtime/protocol.ts:298-300 | a run from rest to rest in which a console without a cursor loses the first event on its settled topic |
| ResumeLimits.RegisteredInTimeIsDelivered | src/brains/api/ws.py:740-788 | a run in which an event announced between a registration and its read is at the adopted head and still delivered |
| CutAndResume.CutAndResumeIsUninterrupted | frontend/src/realtime/protocol.ts:13-23 | any number of cuts and resumes of a covering batch ends in the tracker one uninterrupted read of the last log leaves |
| CutAndResume.CompletedAppliesExactly | frontend/src/realtime/protocol.ts:318-344 | that tracker has applied exactly the in-scope ids between the two cursors, each once |
| Markers.CheckedPageIsStructured | scripts/sync_release_site.py:254-283 | a page that passes every check is plain text interleaved with whole, disjoint regions |
| Splice.StructuredPageIsChecked | scripts/sync_release_site.py:254-283 | and every such page passes them |
| Splice.StructureIsUnique | scripts/sync_release_site.py:269-277 | there is one way to read a page as regions |
| Splice.SpansAreOrdered | scripts/sync_release_site.py:269-277 | regions of all names together are pairwise disjoint and in page order |
| Splice.RightToLeftIsSubstitution | scripts/sync_release_site.py:284-285 | splicing from the right equals replacing every region at once with all other text as it was |
| Splice.SubstitutedAgain | scripts/sync_release_site.py:284-288 | texts without a marker prefix leave a page that is structured again and that substituting again does not change |
| Splice.MovedHoldTexts | scripts/sync_release_site.py:284-285 | in the new page every region of a name holds the text given for that name |
| Spans.SortedIsReversePageOrder | scripts/sync_release_site.py:255-284 | spans collected name by name, once sorted, are the regions from last to first |
| Spans.FindText | scripts/sync_release_site.py:259-271 | the first occurrence from a position on, or -1 |
| Spans.CountTokens | scripts/sync_release_site.py:280 | the number of marker tokens on a page |
| Site.SyncPage | scripts/sync_release_site.py:254-288 | one page is refused with the reason that holds of it, or becomes the simultaneous substitution of its regions, in which every history, version, count and summary region holds that fact |
| Site.SyncedShowsFacts | scripts/sync_release_site.py:217-221 | which fact goes into the regions of which name |
| Pages.CheckedIff | scripts/sync_release_site.py:254-283 | the marker checks accept exactly the pages that can be written out as plain text and whole regions with their markers spelled in full |
| Pages.SyncedIsWritten | scripts/sync_release_site.py:284-285 | however a page is written out, the new page is the same with the new texts in its regions |
| Pages.PageOkIff | scripts/sync_release_site.py:254-283 | a page is accepted exactly when it can be written out with the markers it must and may have, by page and kind of site |
| Pages.SyncWrittenPage | scripts/sync_release_site.py:254-288 | for a page written out: accepted exactly if its markers fit, and then the same page with every region filled with the fact of its name |
| Pages.SiteOkIff | scripts/sync_release_site.py:226-290 | a site is accepted exactly if it is one page or has index and releases pages, every page read is well made, no other page carries a marker, and version and count have a place |
| Site.SyncedTwice | scripts/sync_release_site.py:254-288 | the new page is accepted with the same markers and is its own new page |
| SiteRun.SyncSite | scripts/sync_release_site.py:222-290 | the site is rendered if and only if every page and the totals are accepted, page by page as specified and with each fact in its own regions, and reports a change exactly when there is one; a refusal names the page and the reason that holds of it |
| SiteRun.RenderedShows | scripts/sync_release_site.py:217-221 | on every page of the rendered site each fact stands in the regions of its own name |
| SiteRun.SecondRunChangesNothing | scripts/sync_release_site.py:217-290 | a second run with the same facts accepts the rendered site and changes nothing |
| StableReleases.TagOfTriple | scripts/sync_release_site.py:18 | every version triple has a stable tag that reads back as it |
| StableReleases.TripleOfTag | scripts/sync_release_site.py:18 | every stable tag is the tag of its triple |
| StableReleases.TextOrderIsTimeOrder | scripts/sync_release_site.py:51-63 | comparing publication dates as texts is comparing them in time |
| StableReleases.PublishedIff | scripts/sync_release_site.py:51-57 | a publication date is accepted exactly if it is a stamp of the required shape that names a day of the calendar and a time of that day |
| StableReleases.RepositoryIff | scripts/sync_release_site.py:25-26 | a repository is accepted exactly if it is an owner and a name of the allowed characters with one slash between |
| StableReleases.ListingIsShown | scripts/sync_release_site.py:31-62 | a listing is accepted exactly if no record breaks one of the named rules, and then exactly its public records with a stable tag are shown, each as it stands |
| StableReleases.ReadIsSound | scripts/sync_release_site.py:31-60 | accepted records have distinct stable tags and dates that exist |
| StableReleases.Choose | scripts/sync_release_site.py:23-65 | accepts a listing exactly if the repository is valid, no record breaks a rule and some record is to be shown; shows exactly those records, the highest version first and the rest strictly descending by date and tag; otherwise names the rule the first offending record breaks |
| StableReleases.ChosenByVersionThenDate | scripts/sync_release_site.py:62-65 | the first release has the newest version, by major, minor and patch number, and the others go back in time and then through the tags |
| ReleaseNotes.VisibleLines | scripts/sync_release_site.py:104-138 | the scanner over all lines, with fence and comment never open together and text held back only in a comment |
| ReleaseNotes.ScanLine | scripts/sync_release_site.py:117-136 | one line, whose loop ends because the text left and the text held back shrink together |
| ReleaseNotes.FenceOpenedIff | scripts/sync_release_site.py:126-129 | a line opens a fence with exactly the run of three or more backticks or tildes that stands after at most three blanks, no backtick following a run of backticks |
| ReleaseNotes.FenceClosedIff | scripts/sync_release_site.py:111-116 | a fence is closed by exactly the lines of at most three blanks, a run of its character at least as long as the one that opened it, and blanks |
| VisibleText.NoVisibleComment | scripts/sync_release_site.py:104-138 | no visible line holds a comment opening |
| VisibleText.HiddenTextDoesNotMatter | scripts/sync_release_site.py:105-116 | lines inside a fence or comment can be exchanged without changing what is visible |
| VisibleText.VisibleIsStripped | scripts/sync_release_site.py:117-139 | where no fence opens the visible text is the text with every comment cut out |
| Highlights.ReadHighlights | scripts/sync_release_site.py:104-155 | the highlights of a list of lines |
| Highlights.HighlightsAreVisible | scripts/sync_release_site.py:139-155 | at most six items, one without a section, each non-empty, at most 500 characters and read off a visible line of the section |
| Highlights.HiddenTextIsNotRead | scripts/sync_release_site.py:105-106 | hidden text cannot select the section or become a highlight |
| Highlights.HeadingIff | scripts/sync_release_site.py:140 | the heading is two hashes, blanks, the word in any case, and blanks |
| Highlights.UnbulletedIs | scripts/sync_release_site.py:149 | what is taken off the front of an item is a bullet or a number with a dot or bracket, and one blank |
| Highlights.ItemIs | scripts/sync_release_site.py:146-152 | a line is an item exactly if it is not blank, no heading, fence or comment, and something with a word character is left of it; at most 500 characters are kept |
| Highlights.HighlightsAreFirst | scripts/sync_release_site.py:140-155 | the highlights are the first six items of the section, or the first item of the notes where there is no section |
| Render.HistoryIsTame | scripts/sync_release_site.py:158-181 | the rendered history never holds `<!` |
| Render.SummaryIsTame | scripts/sync_release_site.py:184-198 | nor does the summary |
| Reading.EscapeReadsBack | scripts/sync_release_site.py:160-195 | escaped text reads back as what it was, whatever follows it |
| Reading.ArticleSays | scripts/sync_release_site.py:168-180 | a reader of an entry of the history sees its tag, its date, whether it is the latest, its heading unless that repeats the tag, all its items, and no more |
| Reading.SummarySays | scripts/sync_release_site.py:184-199 | a reader of the summary sees the tag and date of the latest release and its first two items, and no more |
| Reading.DayIsPublished | scripts/sync_release_site.py:163-176 | the day written into an entry is the day of publication as the listing has it |
| Reading.LinesOf | scripts/sync_release_site.py:110 | a text is broken into lines at each of the line-breaking characters, a carriage return and line feed counting as one |
| StableReleases.ChosenIsUnique | scripts/sync_release_site.py:23-65 | a listing fixes the chosen releases down to their order |
| ReleaseSite.Sync | scripts/sync_release_site.py:210-311 | rendered if and only if the listing can be shown, its highest version is the project's and the site is accepted; the pages then hold the facts of the releases chosen from that listing, and a change is reported exactly when there is one |
| ReleaseSite.HistoryEntries | scripts/sync_release_site.py:158-181 | the history has an entry for each of the first six releases in order, and only the first is marked as the latest |
| ReleaseSite.RenderedFactsAreQuiet | scripts/sync_release_site.py:158-221 | nothing rendered from a listing holds a marker prefix |
| ReleaseSite.SyncTwice | scripts/sync_release_site.py:210-311 | a second run on what a run rendered, from the same listing, renders the same pages and reports no change |
| CallScanner.ArgumentList | scripts/check_traceability.py:463-488 | the text up to the bracket that closes the first level, or none |
| CallScanner.SplitTopLevel | scripts/check_traceability.py:491-524 | the stripped, non-blank pieces between top-level commas |
| CallScanner.SplitConserves | scripts/check_traceability.py:491-523 | for every text the raw pieces joined with commas are the text |
| CallScanner.CallRoundTrip | scripts/check_traceability.py:463-524 | arguments written as a call in any text are found and split again |
| CallScanner.JsxTagBody | scripts/check_traceability.py:261-290 | the attributes up to the first unquoted, unnested end of tag, and its place |
| CallScanner.TagRoundTrip | scripts/check_traceability.py:261-290 | attributes that nest and quote properly end at their own end of tag |
| CallScanner.ElementExpression | scripts/check_traceability.py:293-310 | the text up to the closing brace, or all that is left |
| CallScanner.ElementRoundTripIff | scripts/check_traceability.py:293-310 | an expression is read back if and only if all of its braces nest, quoted ones included |
| CallScanner.QuotedBraceCutsShort | scripts/check_traceability.py:293-310 | a quoted closing brace cuts the expression short |
| SourceTerms.BalancedIff | scripts/check_traceability.py:463-524 | the scanner ends where it began, never having closed more than was opened, exactly after a text of quoted strings with escapes, bracketed groups and plain characters |
| SourceTerms.CallClosesIff | scripts/check_traceability.py:463-488 | the bracket behind a text is taken for the end of its call exactly when the text is of that form |
| SourceTerms.ArgumentIff | scripts/check_traceability.py:491-524 | what comes back as one argument is stripped non-blank text of that form with no comma outside quotes and groups |
| SourceTerms.TagEndsIff | scripts/check_traceability.py:261-290 | attributes of that form, with braces alone nesting, end at the mark behind them exactly when none stands outside quotes and braces |
| RuntimeTree.Tree.RemoveRuntime | scripts/probe_native_service_lifecycle.py:1801-1889 | refused exactly when validation fails, changing nothing; completed exactly when the inventory does not contradict a control file, leaving nothing |
| RuntimeTree.ValidatesIff | scripts/probe_native_service_lifecycle.py:1801-1889 | which trees may be removed: by their folders, links, owner record, plan, files the service writes and inventory, each named |
| RuntimeTree.UnchangedExactly | scripts/probe_native_service_lifecycle.py:1836-1886 | validated files pass the check before their deletion if and only if the inventory leaves the control files out or has them as they are |
| RuntimeTree.EmptyInTurn | scripts/probe_native_service_lifecycle.py:1887-1888 | deepest first, a folder is empty in its turn exactly when what lay in it was listed |
| RuntimeTree.Tree.RemoveConfig | scripts/probe_native_service_lifecycle.py:956-1000 | for a client whose configuration is a folder: refused without change, or completed exactly when nothing original lies in a folder to delete, leaving the original snapshot |
| RuntimeTree.Tree.RemoveHomeConfig | scripts/probe_native_service_lifecycle.py:956-1000 | for the client with a single file and backups beside it: refused without change, or completed with the original snapshot, whatever backups that holds, and the rest of the home folder as it was |
| RuntimeTree.RestorableIff | scripts/probe_native_service_lifecycle.py:956-985 | which folder configurations may be removed: folders, files and originals, each named |
| RuntimeTree.HomeRestorableIff | scripts/probe_native_service_lifecycle.py:956-985 | which single-file configurations may be removed, with the names of the file and its backups written out |
| RuntimeTree.OriginalsRemainAtHome | scripts/probe_native_service_lifecycle.py:974-995 | deleting what is expected and not original leaves exactly the original file and backups |
| RuntimeTree.OnlyOriginalsKeepFolders | scripts/probe_native_service_lifecycle.py:979-1000 | once the added files are gone the folders can go if and only if nothing original lies below the root |
| ProcessTree.KillOrder | scripts/probe_native_service_lifecycle.py:1937-1964 | the recursive visit and then the root |
| ProcessTree.KillOrderIsPostOrder | scripts/probe_native_service_lifecycle.py:1947-1964 | exactly the root and its strict descendants, each once, every process before its parent, the root last |
| SealedPlan.Journey.WritePlan | scripts/probe_native_service_lifecycle.py:784-788 | a write that fails leaves the plan that was on disk |
| SealedPlan.Journey.Record | scripts/probe_native_service_lifecycle.py:812-824 | appends the next numbered row and writes the plan only while it is unsealed; the row stays in memory when that write fails |
| SealedPlan.Journey.SealPlan | scripts/probe_native_service_lifecycle.py:791-797 | seals an unsealed plan so that the digest check accepts its disk copy, if it can be written |
| SealedPlan.Journey.Prepare | scripts/probe_native_service_lifecycle.py:2174-2425 | succeeds exactly in the worlds whose calls answer, whose running services show a process and a marker, whose new pids differ from the ones they follow, and which take every write; an armed rollback finds its plan on disk exactly when it did not end at a failed write; success leaves a sealed plan of the same journey with what was measured on the way, the required steps in order and in each row what its call showed |
| SealedPlan.PreparesIff | scripts/probe_native_service_lifecycle.py:2174-2425 | which worlds let preparation succeed: every call and write by name, and a running service with another process id after each start, restart and recovery than just before |
| SealedPlan.Journey.Verify | scripts/probe_native_service_lifecycle.py:2428-2578 | succeeds exactly where the sealed plan on disk is the record's and the world answers after another boot; never touches the disk copy; success extends the recorded steps by the remaining three |
| SealedPlan.VerifiesIff | scripts/probe_native_service_lifecycle.py:2428-2578 | which worlds let verification succeed: the sealed plan of the record on disk, another boot, and every call by name |
| SealedPlan.VerifiedInOrderIff | scripts/probe_native_service_lifecycle.py:2428-2578 | verified steps are the full required order if and only if the recorded ones were the preparation's |
| SealedPlan.Travel | scripts/probe_native_service_lifecycle.py:2174-2578 | preparation and then verification from the disk copy it left: succeeds exactly where both worlds let their half succeed, with all required steps in order and the prepared ones first |
| SealedPlan.CheckSteps | scripts/verify_native_evidence.py:504-523 | accepts exactly rows numbered from 1 in the required order, passed, bound and each with the evidence its step must show |
| SealedPlan.RecordShowsNewIff | scripts/verify_native_evidence.py:712-730 | what a preparation recorded passes the check for new processes if and only if install, start, restart and recovery left four different pids and markers |
| SealedPlan.RecordsShowNewIff | scripts/verify_native_evidence.py:712-730 | the verified record passes it if and only if the process seen after the boundary was new as well |
| SealedPlan.PidsCanComeBack | scripts/probe_native_service_lifecycle.py:2339-2405 | a world of pids 7, 8, 7, 8 in which preparation succeeds and its record fails that check |
| SealedPlan.FailedWriteLosesRollback | scripts/probe_native_service_lifecycle.py:812-824 | a world in which preparation ends armed with a plan that is not the one on disk |
| SealedPlan.CheckIncarnationsIff | scripts/verify_native_evidence.py:727-730 | comparing set sizes is pairwise difference of ids and markers |
| RecordChain.VerifiedIffChained | scripts/verify_native_evidence.py:738-796 | a record set is accepted exactly when it is one preparation, at most one verification and one cleanup, linked by hashes |
| RecordChain.ThreeVerifiedIff | scripts/verify_native_evidence.py:764-795 | a preparation, a verification and a cleanup in any order are accepted exactly if they share binding, journey and plan, the verification names the preparation and begins with its steps, and the cleanup names both |
| RecordChain.TwoVerifiedIff | scripts/verify_native_evidence.py:764-795 | a preparation and a cleanup alone are accepted exactly if they share those and the cleanup names the preparation as both and found its binding |
| RecordChain.ChainIsOneJourney | scripts/verify_native_evidence.py:764-795 | a linked set is one journey under one sealed plan, verification extending preparation |
| Digest.UrlSafeIsProper | scripts/native_evidence.py:151-152 | every letter of the URL-safe alphabet is read back and the padding is none of them |
| Digest.RecordRoundTrip | scripts/native_evidence.py:151-152 | under every such alphabet and for every byte string, the stripped encoding re-padded and decoded is the string |
| Digest.RecordsAgreeIff | scripts/native_evidence.py:327-329 | recorded texts agree if and only if the digests do |
| Digest.OneOverIsRefused | scripts/native_evidence.py:151-152 | a length no encoding has is refused whatever padding is put back |
| Backups.AccountManagedBackups | scripts/native_evidence.py:498-516 | accounts for the files beyond the baseline exactly when the baseline is intact and each is a named backup of a known state |
| Backups.BackupNameIff | scripts/native_evidence.py:33 | which names are those of backups, as the expression that finds them |
| Backups.RestoresIff | scripts/native_evidence.py:498-516 | what must hold of a restored configuration, file by file |
| Backups.DeletingBackupsRestores | scripts/native_evidence.py:498-516 | an accepted configuration is the baseline and its backups, and without them the baseline |
| SessionScope.OtherSlicesStay | frontend/src/components/sessionScope.ts:59-91 | setting, updating or clearing one Session's slice changes no other |
| SessionScope.UpsertPlaces | frontend/src/components/sessionScope.ts:99-105 | an upsert replaces in place or appends, keeping ids unique |
| SessionScope.RemoveRemoves | frontend/src/components/sessionScope.ts:108-110 | removing leaves exactly the other items |
| ChatDock.UpsertedIsSortedAndUnique | frontend/src/components/ChatDock.tsx:179-187 | after an upsert the list is sorted by sequence with one row per command |
| ChatDock.UpsertsThere | frontend/src/components/ChatDock.tsx:179-187 | an upsert leaves the other rows as they stand and puts the new one behind every row it need not precede |
| ChatDock.StepKeepsIsolation | frontend/src/components/ChatDock.tsx:136-222 | every selection, send, stop, answer and frame keeps pending items with their Session and the visible thread with the selected one |
| ChatDock.RunsStayIsolated | frontend/src/components/ChatDock.tsx:136-352 | so does every interleaving of them |
| ChatDock.AnswerTouchesItsOwnSession | frontend/src/components/sessionScope.ts:45-53 | an answer changes only its own Session's pending list and, unless that Session is selected, nothing visible |
| ChatDock.ReadShowsIff | frontend/src/components/ChatDock.tsx:136-174 | in every run what was read for a selection is shown if and only if no selection was made since, not even of the same Session |
| ChatDock.SelectAsks | frontend/src/components/ChatDock.tsx:136-174 | in every run a selection empties the thread and asks for its three parts under its own number |
| ChatDock.SendSettles | frontend/src/components/ChatDock.tsx:268-310 | an accepted send removes exactly its pending item and shows its command where the Session is selected; a refused one is marked as failed |
| ChatDock.Dock.Select | frontend/src/components/ChatDock.tsx:136-174 | selection empties the thread, drops the Session's pending items and reads again |
| ChatDock.Dock.Sent | frontend/src/components/ChatDock.tsx:268-310 | the answer to a send settles the pending item and shows the command only in its own thread |
| ChatDock.Dock.Stopped | frontend/src/components/ChatDock.tsx:324-352 | the answer to a stop is announced only where its Session is still selected |
| ChatDock.Dock.OnCommand | frontend/src/components/ChatDock.tsx:201-205 | a command frame of the selected Session updates its row and one of another Session changes nothing |
| ChatDock.Dock.OnText | frontend/src/components/ChatDock.tsx:206-218 | a text frame adds its line to the transcript unless it is empty |
| ExactDifferences.Differences | scripts/check_core_surface.py:1232-1257 | reports nothing if and only if the two values are equal under `==`, however deep; counts missing and unexpected keys, reports something below every key under which the values differ, and nothing above the path given |
| ExactDifferences.EqualIffSameNormal | scripts/check_core_surface.py:1247 | two values are equal exactly when they are the same with every flag and integer written as the number it stands for |
| ExactDifferences.ContentsIff | scripts/check_core_surface.py:1248-1255 | two lists are reported as differing in contents exactly if they hold plain values only, one has an item that equals none of the other's and the values lacking can be put in order; otherwise their order is reported |
| ExactDifferences.EqualIsTransitive | scripts/check_core_surface.py:1247 | that equality is transitive across number types and nesting |
| ExactDifferences.IntegralEqualIsSame | scripts/check_core_surface.py:1247 | between values whose numbers are all integers it is identity |
| ExactDifferences.FlagPassesForCount | scripts/check_core_surface.py:1247 | two different values, a flag and a count, between which nothing is reported |

## Left out

- Realtime: WebSocket, timers, reconnect delay, JSON parsing, REST re-reads and the SSE endpoint; frames and steps only.
- Realtime: revocation and re-authorization are steps of the client model but not of the delivery system, where a connection's scope is fixed while it is open; topic names there are canonical, and renaming is treated in `TopicMaps` alone.
- Realtime: events committed by another process, which the repository documents as not announced live; the message types `resync`, `chat.send` and `ping`, which the console's resume does not use; `CursorTracker.reset()`, which nothing calls.
- Realtime: an event committed is announced before the next one commits, as in one process; event ids are unbounded integers.
- CutLoss.ReconnectLosesExactly: for a reconnect whose own read has no gap; after a reset the console re-reads over REST, which is not part of this model.
- RealtimeClients.RealtimeClient.Receive: handler calls are counted and not ordered, and the listeners for the connection state are left out.
- Consoles.Console.Receive: revocations, after which the stream of the model no longer describes the connection.
- RealtimeClients: `close()`, which nothing calls, and the length of the reconnect delay.
- CutAndResume.CutAndResumeIsUninterrupted: for a non-zero start cursor, no reset on the way and at most 2048 ids remembered and owed together, since beyond the window an id can be applied again.
- Highlights.ReadHighlights: the reduction of Markdown to text and the set of word characters are parameters.
- Render: the year of a date is padded to four digits; the platform may not pad years before 1000.
- Reading: the values of attributes, of which only the day and the name of an entry are said to be right.
- Release site: file types, links, UTF-8 decoding, reading the version and the tool count out of sources, staging and atomic replacement of files.
- StableReleases.Choose: reports which problem refused a listing but not the exception text.
- CallScanner: the regular expressions that find calls, routes and attributes; route and import comparison.
- RuntimeTree: concurrent writers, links and file modes; ownership checks outside the tree are boolean inputs; a single-file configuration that is a folder instead is refused, as it is for the empty folder list its callers pass.
- Backups: the digits of a date are the ASCII ones, also where the pattern would take any decimal digit.
- ProcessTree.KillOrder: the Windows branch, which hands the tree to a system command, and a listing that is not a forest.
- SealedPlan: the contents of each step's evidence beyond process identity; commands of the operating system are calls that fail or answer.
- SealedPlan.CheckSteps: the field checks on the evidence of one step are a parameter.
- RecordChain.VerifiedIffChained: the field checks on each single record, apart from step order and process identity.
- Digest: the decoder's leniency towards characters outside the alphabet.
- ChatDock: rendering, the inbox cards and the composer; selection is one step, and the server answers for the Session it was asked about with its rows in order.
- ExactDifferences.Differences: floating-point NaN, and the text of the reports.
- Configuration, capability, documentation and distribution checks of the repository's scripts, which are table lookups and flat field checks.
