# Verification of the translation core

A Dafny model of the parts of this repository that decide where text goes, and proofs about them. It is written in the
source's own form: objects whose methods update fields are classes, loops are loops with invariants, and each method is
proved against a specification that is stated on values.

* **Batching and the monitor.** `Batches` says what a waiting line and a greedy batch are, `BatchBounds` what the
  per-submission cap does to their number, `BatchingPools` has the pool of length buckets, `ThreadsafePools` the queue of
  models and the monitor's critical sections, and `Monitors` their effect as steps on a value. `Services` runs W workers over
  those steps in any order; `Schedules` proves what holds over all runs: conservation, determinism, acknowledgement, release.
  `Submissions` compares the blocking with the asynchronous service. `Requests` and `RequestOrder` have the countdown of a
  request and the order of its sentences, and `Translations` runs those countdowns inside the service.
* **Markup.** `HtmlParsing` and `HtmlParser` turn lexemes into spans with tag stacks; `PlainTexts` and `TagBodies` say what text
  and what tag contents come out without going through the reader's steps. `Markup` prints the difference of two stacks,
  `TokenFormatting` splices tags into a token, `WrittenMarkup` reads them back, `HtmlRestoring` walks over source and target
  tokens, `HtmlAlignment` finds the source word of each target word, `TokenSlots` names tokens by sentence and word,
  `HtmlRestore` joins them, and `Scanning` reads text and entities.
* **Sentences.** `SentenceRules` has the rules of section 5.1 of UAX #29 and the one-pass automaton, `Segmenter` the scan over
  bytes in both profiles, `TranslationProfile` what the second profile does language by language, `Sentences` the three
  splitting modes.
* **Annotated text.** `Annotation`, `TextProcessing`, `ResponseBuilding`, and `Pivot` for alignments through a pivot language;
  `PivotText` shows that what is recorded there is what `Pivot` asks for.
* **Codec.** `Utf` has UTF-8 and UTF-16. `Basics` has what several modules share.

Two conventions recur. A predicate with a partner called `Unfold...` states what its body says, but the verifier looks into it
only where the partner is mentioned. A ghost field `state` is the value a class stands for; its `Valid()` ties it to the fields.

What the source leaves to the platform is a parameter: the tokenizer is any function whose ranges tile its input, the property
table any function of scalars with the values the code names, alignment scores and translations are arbitrary, and the set of
models may be walked in any order. Floating point numbers are `real`. `SIZE_MAX` as a cap is `Unbounded`.

Where code and comment disagree the code was followed: batching_pool.cpp:130-131 claims at least W batches for S >= W
sentences, which is false (`BatchBounds.FiveOverFour`); `Submissions.AlwaysEnoughIff` says exactly when it holds.

## Model

| member | source | states |
|---|---|---|
| `Batches.TakeIsGreedy` | engine/src/translator/batching_pool.cpp:41-71 | The batch cut is the one length that takes every sentence that still fits (padded size and cap) and stops at the first that does not; the cut is unique, and not empty if the first sentence fits. |
| `Batches.BatchFitsPadded` | engine/src/translator/batching_pool.cpp:52-53 | Sentence count times the longest length of a batch stays within the word budget. |
| `Batches.DrawsConserve` | engine/src/translator/batching_pool.cpp:41-71 | Drawing until nothing is left loses, repeats and reorders no sentence. |
| `Batches.InsertionOrderIrrelevant` | engine/src/translator/batching_pool.cpp:73-98 | The waiting line depends on which sentences were put in, not on the order they were put in. |
| `BatchBounds.CountFromMidBatch` | engine/src/translator/batching_pool.cpp:100-117 | The dry run, started in the middle of a batch, counts that batch and all later ones. |
| `BatchBounds.CountIsDraws` | engine/src/translator/batching_pool.cpp:100-117 | The dry run equals the number of uncapped draws that empty the pool. |
| `BatchBounds.TakeStaysAhead` | engine/src/translator/batching_pool.cpp:41-71 | Greedy stays ahead: a fill that starts later does not end earlier. |
| `BatchBounds.SuffixNeedsNoMore` | engine/src/translator/batching_pool.cpp:41-71 | A suffix of the line needs no more uncapped batches than the line. |
| `BatchBounds.CappedLowerBound` | engine/src/translator/batching_pool.cpp:57-61 | With cap c, N batches hold at most N * c sentences. |
| `BatchBounds.CappedUpperBound` | engine/src/translator/batching_pool.cpp:57-61 | With cap c there are at most B + floor(S / c) batches, B being the uncapped count. |
| `BatchBounds.CapSpreadsSubmission` | engine/src/translator/batching_pool.cpp:57-61 | With c = ceil(S / W) as cap: ceil(S / c) <= N <= B + floor(S / c), N < 2 W, and N > W / 2 as soon as S >= W. |
| `Submissions.SubmissionSpreads` | engine/src/translator/batching_pool.cpp:119-138 | Those bounds hold of the batches to come after every submission to a drained pool that set a cap, with the cap it set. |
| `Submissions.CapOfSubmission` | engine/src/translator/batching_pool.cpp:119-138 | The same of any pool, drained or not: if nothing is new or max(W, 1) uncapped batches form, the cap in force stays; otherwise it is the c with added <= c * max(W, 1) < added + max(W, 1), where only new sentences count. |
| `Submissions.CachedChangesNothing` | engine/src/translator/batching_pool.cpp:119-138 | A submission that is all in the cache leaves the batches to come as they were, with whatever waits and whatever cap is in force. |
| `Submissions.AlwaysEnoughIff` | engine/src/translator/batching_pool.cpp:130-131 | All submissions of S sentences to W workers with a budget of L words make at least W batches if and only if (W - 1) * min(ceil(S / W), L) < S. The comment there claims it for every S >= W. |
| `BatchBounds.EnoughBatches` | engine/src/translator/batching_pool.cpp:119-138 | A line with (W - 1) * c < S makes W batches; one that fits a single padded batch makes them exactly then. |
| `BatchBounds.ShortSentences` | engine/src/translator/batching_pool.cpp:119-138 | If the whole line fits one padded batch, only the cap ends batches: N = ceil(S / c). |
| `BatchBounds.FiveOverFour` | engine/src/translator/batching_pool.cpp:130-131 | The counterexample to the comment: five short sentences for four workers make three batches. |
| `BatchingPools.BatchingPool.constructor` | engine/src/translator/batching_pool.cpp:12-28 | A new pool waits on nothing; the longest bucket fits a batch. |
| `BatchingPools.BatchingPool.FillBatch` | engine/src/translator/batching_pool.cpp:41-71 | Takes exactly the greedy prefix of the line ordered by length, request and index out of the buckets, and leaves the rest. |
| `BatchingPools.BatchingPool.GenerateBatch` | engine/src/translator/batching_pool.cpp:30-39 | The same, keeps `pending_` equal to what waits, and forgets the cap exactly when the pool is drained. |
| `BatchingPools.BatchingPool.EnqueueRequest` | engine/src/translator/batching_pool.cpp:73-98 | Inserts all fresh sentences into the order and nothing else; the returned count is theirs. |
| `BatchingPools.BatchingPool.CountBatches` | engine/src/translator/batching_pool.cpp:100-117 | Changes nothing and returns the number of draws to come if all lengths fit. |
| `BatchingPools.BatchingPool.EnqueueRequests` | engine/src/translator/batching_pool.cpp:119-138 | Inserts all requests and nothing else; the cap in force stays if nothing is new or enough batches would form for the workers. |
| `BatchingPools.BatchingPool.Clear` | engine/src/translator/batching_pool.cpp:140-146 | Nothing waits, no cap. |
| `BatchingPools.FlattenInsert` | engine/src/translator/batching_pool.cpp:85-90 | Inserting into the bucket of its length inserts a sentence into the whole order. |
| `ThreadsafePools.AggregateBatchingPool.EnqueueRequest` | engine/src/translator/aggregate_batching_pool.cpp:11-15 | Puts the request into the model's own pool and the model into the queue. |
| `ThreadsafePools.AggregateBatchingPool.EnqueueRequests` | engine/src/translator/aggregate_batching_pool.cpp:17-24 | The same in bulk; the model is queued exactly if something is new. |
| `ThreadsafePools.AggregateBatchingPool.GenerateBatch` | engine/src/translator/aggregate_batching_pool.cpp:26-40 | In whatever order the set is walked, models found drained leave the queue, and the batch is the first non-empty one; empty only if every queued model was drained. |
| `ThreadsafePools.AggregateBatchingPool.Clear` | engine/src/translator/aggregate_batching_pool.cpp:42-42 | Empties the queue and nothing else. |
| `ThreadsafePools.ThreadsafeBatchingPool.EnqueueRequest` | engine/src/translator/threadsafe_batching_pool.cpp:21-28 | The critical section is the monitor's enqueue step. |
| `ThreadsafePools.ThreadsafeBatchingPool.EnqueueRequests` | engine/src/translator/threadsafe_batching_pool.cpp:30-37 | The critical section is the monitor's bulk enqueue step. |
| `ThreadsafePools.ThreadsafeBatchingPool.GenerateBatch` | engine/src/translator/threadsafe_batching_pool.cpp:84-109 | Once its wait is over: a maintenance notice changes nothing but the epoch seen; otherwise a draw that finds work if anything is enqueued, and the end otherwise. |
| `ThreadsafePools.ThreadsafeBatchingPool.TakeBatch` | engine/src/translator/threadsafe_batching_pool.cpp:99-108 | The draw itself: the model's batch leaves its pool and the count, drained models leave the queue, and with nothing left the queue is dropped. |
| `ThreadsafePools.ThreadsafeBatchingPool.StartMaintenance` | engine/src/translator/threadsafe_batching_pool.cpp:61-73 | Starts a round unless there are no consumers or the pool is shut down; drops the queue only if nothing is enqueued. |
| `ThreadsafePools.ThreadsafeBatchingPool.AckMaintenance` | engine/src/translator/threadsafe_batching_pool.cpp:77-82 | One more acknowledgement, nothing else. |
| `ThreadsafePools.ThreadsafeBatchingPool.Shutdown` | engine/src/translator/threadsafe_batching_pool.cpp:46-53 | Sets the flag, nothing else. |
| `Monitors.EnqueueAccounted` | engine/src/translator/threadsafe_batching_pool.cpp:21-28 | Enqueueing keeps the accounting: `enqueued_` equals what waits in all pools, and every model with waiting sentences is queued; the pools gain exactly the fresh sentences. |
| `Monitors.EnqueueAllAccounted` | engine/src/translator/threadsafe_batching_pool.cpp:30-37 | The same for a bulk submission. |
| `Monitors.DrawAccounted` | engine/src/translator/threadsafe_batching_pool.cpp:99-108 | A draw keeps the accounting and moves exactly its batch out of the pools. |
| `Monitors.DrawFindsWork` | engine/src/translator/threadsafe_batching_pool.cpp:100-101 | With anything enqueued, some queued model has a batch, and every queued model without one is drained: a draw that finds work never returns 0. |
| `Monitors.MaintenanceAccounted` | engine/src/translator/threadsafe_batching_pool.cpp:66-70 | Dropping the queue in a maintenance round strands nothing. |
| `Monitors.ClearAccountedIff` | engine/src/translator/threadsafe_batching_pool.cpp:39-44 | `clear` keeps the accounting exactly when nothing is enqueued. |
| `Services.RunInv` | engine/src/translator/service.cpp:220-250 | Every state of every run keeps accounting, conservation and the ledger of acknowledgements. |
| `Services.RoundStepKeepsLedger` | engine/src/translator/threadsafe_batching_pool.cpp:92-98 | Noticing a round and acknowledging it keep the ledger. |
| `Services.BatchStepKeepsLedger` | engine/src/translator/service.cpp:228-246 | Drawing, finishing and leaving keep it too. |
| `Services.FreshIdsCanEnqueue` | engine/src/translator/service.cpp:339-357 | Ids taken from the running counter are new to every pool. |
| `Schedules.EverySentenceOnce` | engine/src/translator/threadsafe_batching_pool.cpp:84-109 | At any moment of any run each fresh sentence submitted is in one pool or in one drawn batch, once, and `enqueued_` counts those that wait. |
| `Schedules.WorkIsNeverMissed` | engine/src/translator/threadsafe_batching_pool.cpp:84-109 | Whenever sentences are pending, an idle worker that is up to date can draw a batch that is not empty. |
| `Schedules.AcknowledgementsBalance` | engine/src/translator/threadsafe_batching_pool.cpp:61-97 | From the first round on, acknowledgements given, owed and still to be noticed add up to the consumers. |
| `Schedules.NoDrawBeforeAck` | engine/src/translator/threadsafe_batching_pool.cpp:92-98 | A worker that has not acknowledged the current epoch draws nothing before it does. |
| `Schedules.RoundBarsDraws` | engine/src/translator/threadsafe_batching_pool.cpp:61-74 | Once a round starts, every worker is barred from drawing until its own acknowledgement. |
| `Schedules.ReleaseLeavesNoReference` | engine/src/translator/service.cpp:254-265 | If nothing is pending when the round starts, and nobody submits or shuts down meanwhile, then when the acknowledgements are in nothing in the service holds any model, batches in flight at the call included. |
| `Schedules.RoundAdvances` | engine/src/translator/threadsafe_batching_pool.cpp:89-98 | While a round waits, some worker has a next duty and can do it at once, whatever is queued: noticing the epoch, acknowledging it, or finishing the batch in hand first. |
| `Schedules.DutyCounts` | engine/src/translator/threadsafe_batching_pool.cpp:61-97 | A duty brings the end of the round one nearer, and no other step, a draw included, pushes it away. |
| `Schedules.RoundEnds` | engine/src/translator/threadsafe_batching_pool.cpp:61-82 | In every run from the start of a round, whatever happens in between: a fixed number of duties, three per worker at most, and all acknowledgements are in exactly when that many are done. So queued work cannot starve a release. |
| `Schedules.BatchesAreDeterministic` | engine/src/translator/threadsafe_batching_pool.cpp:30-37 | After one bulk submission to a drained service, every schedule of workers with any maintenance in between draws a prefix of one fixed sequence of batches, and all of it when nothing is left. |
| `Submissions.RequestOrderIrrelevant` | engine/src/translator/request.cpp:110-120 | A permutation of the requests of a submission leaves the same pool, cap included. |
| `Schedules.DrawUnfolds` | engine/src/translator/batching_pool.cpp:30-39 | Drawing takes the first of the batches to come. |
| `Submissions.EnqueueEach` | engine/src/translator/service.cpp:131-134 | Submitting one request after the other puts in the same sentences without a cap. |
| `Submissions.BlockingBatches` | engine/src/translator/service.cpp:123-143 | The blocking service returns the uncapped batches of its requests and leaves nothing behind. |
| `Submissions.AsyncDrawsAsBlocking` | engine/src/translator/service.cpp:339-357 | The same texts handed to both services, each with ids of its own counter: if no cap is set, every asynchronous run that has drawn them all, under any schedule and with any maintenance in between, has drawn the very batches the blocking service draws, in their order. |
| `Submissions.DrawsRenamed` | engine/src/translator/request.cpp:110-120 | A waiting line under other request ids in the same order makes the same batches under those ids. |
| `Submissions.SameTextsSameBatches` | engine/src/translator/service.cpp:339-357 | So do whole submissions: the same texts with ids of another counter make the same batches under those ids. |
| `Submissions.NoCapIff` | engine/src/translator/batching_pool.cpp:119-138 | A submission to a drained pool sets no cap exactly if nothing is new or at least as many uncapped batches as workers form; for one worker never. |
| `Requests.Request.constructor` | engine/src/translator/request.cpp:25-64 | The histories are the cache's answers as they are; the counter is the number of answers missing; it fires at once exactly if none is, and then with those answers. |
| `Requests.Request.ProcessHistory` | engine/src/translator/request.cpp:72-89 | Stores the history, then counts down; the last one fires the builder. |
| `Requests.BuilderRunsExactlyOnce` | engine/src/translator/request.cpp:72-89 | However the workers interleave and whatever the cache had, the response builder fires at most once, only with every history set, and has fired once all segments are done. |
| `Requests.FiredIsComplete` | engine/src/translator/request.cpp:72-89 | A builder that fired did so once and was given every history. |
| `Translations.BuildersFireOnce` | engine/src/translator/service.cpp:228-246 | Over whole runs of the service, where workers store histories of the batches they drew, step by step and in any interleaving: the builder of every request submitted fires at most once and with every history set, and it has fired when nothing waits and no worker is busy. |
| `Requests.StoredHistoryIsDelivered` | engine/src/translator/request.cpp:72-89 | A history once stored is still there in every later state and is the one delivered. |
| `Requests.DeliveredComesFrom` | engine/src/translator/request.cpp:47-89 | What is delivered for a segment is the cache's own answer where it had one, and otherwise the history stored for that segment in the run. |
| `Requests.ResponseCollector.Deliver` | engine/src/translator/service.cpp:58-64 | Fills one slot; the last delivery, whichever it is, completes the collector. |
| `Requests.ResponseCollector.Wait` | engine/src/translator/service.cpp:66-70 | What is handed out is complete. |
| `RequestOrder.StrictWeakIff` | engine/src/translator/request.cpp:110-120 | The comparison is a strict weak order exactly if requests that share an id have one segment each. |
| `RequestOrder.KeepsAllIff` | engine/src/translator/request.cpp:110-120 | The ordered set keeps every sentence exactly if no two requests share an id. |
| `RequestOrder.AgreesWithBatches` | engine/src/translator/request.cpp:91-94 | With distinct ids it orders by request, then by index. |
| `Markup.DiffTags` | engine/src/translator/html.cpp:102-120 | Opens what follows the longest common prefix and closes what of the old stack is an element. |
| `Markup.CommonIsLongest` | engine/src/translator/html.cpp:102-108 | The prefix kept is common and cannot be longer. |
| `Markup.EmitPlays` | engine/src/translator/html.cpp:102-120 | Printing the difference takes the open elements from those of one stack to those of the other. |
| `Markup.WalkPlays` | engine/src/translator/html.cpp:102-120 | So does any walk along stacks: it is well nested, and leaves open what its last stack holds. |
| `Markup.WalkOpens` | engine/src/translator/html.cpp:102-120 | A walk from the empty stack has opened every tag of every stack it passed. |
| `HtmlParser.ConsumeIgnoredTag` | engine/src/translator/html.cpp:247-317 | Ends behind the closing tag that brings the nesting of its own name to zero, or aborts at the end of the document; keeps attributes and raw text. |
| `HtmlParser.HTML.Parse` | engine/src/translator/html.cpp:349-509 | Accepts a token stream exactly if its tags match; then walking the differences of consecutive spans replays the start, void, comment and end events in document order, none lost, repeated or moved, the spans cover the text, and the text returned is the text lexemes in order, each behind the separator that is due (`PlainTexts.PlainTextIs`). |
| `PlainTexts.PlainTextIs` | engine/src/translator/html.cpp:375-407 | The plain text is the texts of the document in order with a separator before each: it begins with "\n\n" exactly if a tag that is neither inline nor a void end tag lies between it and the text before and what precedes has two characters and does not end in "\n\n"; it ends with a space exactly if an inline tag that is not an in-word one lies between, the option is on and the two sides continue a word; otherwise it is empty. |
| `TagBodies.IgnoredEndsAt` | engine/src/translator/html.cpp:247-317 | An ignored element ends with the first end tag of its name up to which as many of them end as begin, its own start tag included, if no error comes before; otherwise it does not end. |
| `TagBodies.IgnoredBodyIs` | engine/src/translator/html.cpp:309-316 | What is kept of it is all that stands in the document from behind its attributes to that end tag. |
| `TagBodies.BodyIs` | engine/src/translator/html.cpp:468-488 | A tag keeps all attributes that follow it, in order, and a comment or an instruction the data behind it. |
| `TagBodies.LowerIs` | engine/src/translator/html.cpp:55-60 | Names are compared letter by letter with A to Z as a to z and everything else as it is. |
| `HtmlParser.HTML.ReadText` | engine/src/translator/html.cpp:375-407 | Text follows the paragraph break or the space that is due, which get spans of their own, and gets a span with the open tags: the exact spans added. |
| `HtmlParser.HTML.ReadEmptyTag` | engine/src/translator/html.cpp:416-488 | A void element, comment or instruction gets an empty span of its own, with the open tags and itself, and leaves the stack. |
| `HtmlParser.HTML.ReadStart` | engine/src/translator/html.cpp:409-440 | The whole new state of the reader and the spans added: an element stays on the stack, an ignored one is skipped to its end, and a break becomes due; `PlainTexts.PlainTextIs` says which. |
| `HtmlParser.HTML.ReadEnd` | engine/src/translator/html.cpp:442-467 | The whole new state of the reader and the spans added: only the innermost element is closed, with an empty span if no span knows it, and a break becomes due; otherwise the document is rejected. |
| `HtmlParsing.MismatchRejects` | engine/src/translator/html.cpp:448-451 | An end tag that does not match makes the document unreadable. |
| `HtmlParsing.RecordKeeps` | engine/src/translator/html.cpp:453-457 | Recording the open tags in an empty span loses nothing, so elements without text survive. |
| `HtmlParsing.EmitPop` | engine/src/translator/html.cpp:453-459 | Once the last span knows an element, taking it off the stack adds just its closing tag. |
| `HtmlParsing.TrackedEnd` | engine/src/translator/html.cpp:505-508 | At the end the document is readable exactly if nothing is left open. |
| `TokenFormatting.EncodeEntities` | engine/src/translator/html.cpp:16-45 | Escapes character by character; everything else is copied. |
| `TokenFormatting.TokenFormatter.constructor` | engine/src/translator/html.cpp:166-170 | The encoded token: its white space, then its body, with offsets that say where. |
| `TokenFormatting.TokenFormatter.Append` | engine/src/translator/html.cpp:175-215 | Closings that come before any opening stand left of the white space, the rest right of it, then the body; the tags written so far are those of the events so far, in event order. What a tag reads like is said by `WrittenMarkup.TagsReadBack`. |
| `TokenFormatting.TokenFormatter.Open` | engine/src/translator/html.cpp:188-214 | An opening tag goes in behind everything inserted before, and nothing else changes: "<name attributes>data", "<!--data-->" or "<?data?>"; an inserted break takes one "\n\n" out of the white space. |
| `TokenFormatting.TokenFormatter.Close` | engine/src/translator/html.cpp:180-186 | "</name>" goes in left of the white space until a tag was opened, behind it from then on, and nothing else changes. |
| `TokenFormatting.TokenFormatter.Html` | engine/src/translator/html.cpp:172-172 | The result is, in this order: what the events before the first opening tag print, the white space less the breaks taken out, what the other events print, the encoded rest of the token. So tags stand in event order (what they print is read back by `WrittenMarkup.TagsReadBack`), and without them the encoded token remains, less those breaks. |
| `WrittenMarkup.TagsReadBack` | engine/src/translator/html.cpp:180-199 | A reader of "</name>", "<name attributes>data", "<!--data-->" and "<?data?>", which knows nothing of how they are written, gives back exactly the tags printed, with names, attributes and data, in order. |
| `WrittenMarkup.TagsDetermine` | engine/src/translator/html.cpp:180-199 | So texts that are printed alike have the same tags, attributes and data. |
| `WrittenMarkup.PairReadBackIff` | engine/src/translator/html.cpp:470-473 | An attribute as the parser keeps it is read back as its name and value exactly if the value holds no double quote. |
| `WrittenMarkup.PairsReadBack` | engine/src/translator/html.cpp:470-473 | So are all attributes of a tag, in order. |
| `WrittenMarkup.PairsStayInside` | engine/src/translator/html.cpp:470-473 | Attributes whose names hold neither ">" nor a double quote and whose values hold no double quote do not end their tag, whatever else they hold. |
| `TokenFormatting.BreakTaken` | engine/src/translator/html.cpp:201-208 | Where the search finds "\n\n" decides between taking it out and leaving the white space alone. |
| `TokenFormatting.EatBreakIs` | engine/src/translator/html.cpp:201-208 | What is taken out is the first "\n\n", if there is one. |
| `TokenFormatting.PrefixSpacesIs` | engine/src/translator/html.cpp:49-53 | The leading white space ends before the first character other than space, tab, line feed, vertical tab, form feed and carriage return. |
| `TokenFormatting.BreaksIs` | engine/src/translator/html.cpp:201-208 | One break is taken out, if there is one left, for each inserted break. |
| `HtmlRestoring.RestoreSource` | engine/src/translator/html.cpp:559-599 | All pieces together replay the spans; each token is mapped to the last span that begins before the token ends, the last token to the last span. |
| `HtmlRestoring.RestoreTarget` | engine/src/translator/html.cpp:601-654 | Whatever spans the tokens were mapped to, what is written is well nested from nothing open to nothing open, opens every tag of every span, each token but the last stands inside exactly the elements of its own tags, and before each token stands just what is printed along the stacks of the spans caught up with and its own. |
| `HtmlRestoring.CatchUp` | engine/src/translator/html.cpp:611-624 | The stragglers before a token's span are walked in order, those with tokens of their own left out. |
| `HtmlRestoring.PassedAreStragglers` | engine/src/translator/html.cpp:611-624 | What is walked between two spans is exactly the spans without text and those no target token is mapped to, each once and in text order. |
| `HtmlRestoring.ReachedIsFarthest` | engine/src/translator/html.cpp:604-613 | Behind n target tokens the spans are caught up with as far as the farthest of their spans. |
| `HtmlRestoring.RestoreTargetToken` | engine/src/translator/html.cpp:608-648 | One token: the stragglers before its span, then its own tags; only the last token closes all. |
| `HtmlRestore.Restore` | engine/src/translator/html.cpp:511-557 | From an accepted document: each source token replays the spans up to the last one that begins before its end, and together they spell the document's events; each target token has the span of its hard-aligned source word or gap, stands inside the tags of that span and those added for it after the parse, and the translation is well nested and opens everything the document opens. |
| `HtmlRestore.NothingLostInDocument` | engine/src/translator/html.cpp:601-654 | Opening every tag of every span is opening every tag of the document. |
| `HtmlRestore.ReplayOpensOnly` | engine/src/translator/html.cpp:102-120 | The replay opens only tags of the spans. |
| `HtmlAlignment.HardAlign` | engine/src/translator/html.cpp:752-809 | Every word, the end of sentence included, gets a source word; all words of a joined run get the one that `AlignedRunsTaken` says, whatever the scores, and a word by itself and the end of sentence their own best. |
| `HtmlAlignment.HardAlignments` | engine/src/translator/html.cpp:752-809 | The same for every sentence with the tags its words have. |
| `HtmlAlignment.RunsAgree` | engine/src/translator/html.cpp:770-802 | After the backward rewriting all words joined together share their source word. |
| `HtmlAlignment.AlignedRunsTaken` | engine/src/translator/html.cpp:770-802 | All words of a joined run get one source word: the best word of the last position k whose tags have those of the choice before k as a prefix, or whose score is no lower than the score position k - 1 has for that choice. |
| `HtmlAlignment.TakenOnce` | engine/src/translator/html.cpp:770-802 | Only one source word is that. |
| `HtmlAlignment.MoreTagsWin` | engine/src/translator/html.cpp:786-788 | A word of two tokens takes the best source word of its second whenever that has the tags of the first one's best, and perhaps more, whatever the scores. |
| `HtmlAlignment.ChoiceIsSomeBest` | engine/src/translator/html.cpp:763-802 | That source word is the best scored one of some word of the run. |
| `HtmlAlignment.SettledInRange` | engine/src/translator/html.cpp:752-809 | It is always a word of the source sentence. |
| `HtmlAlignment.CopyTagStack` | engine/src/translator/html.cpp:661-681 | Each target token gets the span of its source word, each gap the span of its gap, so the last token gets the last span. |
| `TokenSlots.EachWordTakesOver` | engine/src/translator/html.cpp:661-681 | With tokens named by sentence and word instead of numbered: word w of sentence k of the translation takes the span of word a of sentence k of the source, a being what w is aligned to. |
| `TokenSlots.GapTakesOver` | engine/src/translator/html.cpp:661-681 | The gap before a sentence takes that of the same gap in the source, and so does what follows the last sentence. |
| `TokenSlots.NamedOnce` | engine/src/translator/html.cpp:661-681 | The names are one to one. |
| `TokenSlots.AlignedByOwnTags` | engine/src/translator/html.cpp:752-769 | The tags a sentence is aligned by are those of its own source words. |
| `Scanning.Scanner.ScanBody` | engine/src/translator/xh_scanner.cpp:57-83 | At the end, at markup, or a text token that is a maximal run or one entity, and always makes progress. |
| `Scanning.Scanner.ScanEntity` | engine/src/translator/xh_scanner.cpp:244-306 | Reads a closed name and gives what it stands for, or the text as it is. |
| `Scanning.ResolvedIs` | engine/src/translator/xh_scanner.cpp:278-306 | The six entities that are known and the character each stands for; any other stands for itself. |
| `Scanning.Rescan` | engine/src/translator/xh_scanner.cpp:57-83 | Scanning an encoded text without NUL gives only text tokens that concatenate to the text. |
| `Scanning.TextIsPlain` | engine/src/translator/xh_scanner.cpp:72-83 | A run in encoded text is an unescaped piece of the original. |
| `Scanning.EntityIsEscaped` | engine/src/translator/xh_scanner.cpp:278-306 | An entity in encoded text stands for the character it was made from. |
| `SentenceRules.CutIffBreak` | native/sentence/segmenter.cpp:347-358 | The automaton's decision is that of the rules SB3 to SB998 of section 5.1 of UAX #29, for all text before and behind. |
| `SentenceRules.NextMeans` | native/sentence/segmenter.cpp:393-407 | One step with one look-ahead per terminator keeps the meaning of the state, ignored characters included. |
| `SentenceRules.ScanRefinesRules` | native/sentence/segmenter.cpp:330-411 | For every sequence of classes and every position, the one-pass decision is the rules' decision. |
| `SentenceRules.LowerFollowsIs` | native/sentence/segmenter.cpp:57-64 | The look-ahead of SB8: the first letter, separator or terminator that follows is in lower case. |
| `SentenceRules.AfterTermMore` | native/sentence/segmenter.cpp:394-404 | How one more character moves the reading "terminator, Close*, Sp*" of the text before it. |
| `Segmenter.Read` | native/sentence/segmenter.cpp:26-45 | Accepts at each place exactly a production of section 4 of RFC 3629, as the codec does. |
| `Segmenter.Validate` | native/sentence/segmenter.cpp:416-416 | Reading through succeeds exactly on valid UTF-8. |
| `Segmenter.Previous` | native/sentence/segmenter.cpp:51-55 | The start of the scalar that ends there. |
| `Segmenter.LowerAhead` | native/sentence/segmenter.cpp:57-64 | The look-ahead of rule SB8. |
| `Segmenter.Classify` | native/sentence/segmenter.cpp:338-345 | The class a profile takes a character for; paragraph separators stay what they are. |
| `Segmenter.AddCut` | native/sentence/segmenter.cpp:359-379 | Exactly where the Translation profile adds a boundary: only behind a terminator and spaces. |
| `Segmenter.DropCut` | native/sentence/segmenter.cpp:380-391 | Exactly where it takes one back: never one behind a paragraph separator. |
| `TranslationProfile.AddsInEnglish` | native/sentence/segmenter.cpp:359-379 | English: behind a terminator and spaces, before lower case behind a single period, and at a dash that goes before upper case. |
| `TranslationProfile.AddsInRussian` | native/sentence/segmenter.cpp:359-379 | Russian: those, and before a digit, "@", a quotation mark or an opening one behind a single period, before an ellipsis with upper case right behind it once there is content, and at a dialogue's dash. |
| `TranslationProfile.AddsElsewhere` | native/sentence/segmenter.cpp:359-379 | Any other language: only at a dash that goes before upper case. |
| `TranslationProfile.DropsIff` | native/sentence/segmenter.cpp:380-391 | What withdraws a boundary, and that a letter without case inside brackets does only in Chinese, Japanese and Korean. |
| `TranslationProfile.TakenFor` | native/sentence/segmenter.cpp:338-345 | Which characters are terminators in which language beyond the table, and that in a protected address none of the table's is. |
| `TranslationProfile.Remembers` | native/sentence/segmenter.cpp:392-406 | What one character changes in memory, by kinds and characters. |
| `TranslationProfile.RecallsAlways` | native/sentence/segmenter.cpp:392-406 | At every position of every valid text the memory holds the place of the last terminator before it, and whether a character of some sentence's own stands since the last boundary. |
| `Segmenter.DecideCut` | native/sentence/segmenter.cpp:346-391 | Unicode profile: the automaton's decision; Translation profile: that one with additions and withdrawals. |
| `Segmenter.Advance` | native/sentence/segmenter.cpp:394-407 | The automaton's step. |
| `Segmenter.AdvanceExtra` | native/sentence/segmenter.cpp:392-406 | What the Translation profile remembers behind a character. |
| `Segmenter.Boundaries` | native/sentence/segmenter.cpp:330-411 | Fails exactly on invalid UTF-8. The cuts are strictly increasing from 0 to the size, on scalar boundaries, and exactly the positions the profile cuts at: those of the rules, or of the Translation automaton. In both, every paragraph separator ends a sentence except CR before LF, and nothing else does but a terminator with Close, Sp and ignored characters behind it. |
| `Segmenter.ValidAtBoundary` | native/sentence/segmenter.cpp:26-55 | In valid text the places to read on from are the scalar boundaries. |
| `Sentences.Trim` | native/sentence/segmenter.cpp:65-70 | The view without the white space at both ends. |
| `Sentences.AppendTrimmed` | native/sentence/segmenter.cpp:418-418 | Adds the trimmed piece unless it is blank. |
| `Sentences.ByLines` | native/sentence/segmenter.cpp:425-436 | Lines are maximal pieces without paragraph separator, CR LF counting as one; they part there and, in paragraph mode, where each has boundaries. |
| `Sentences.SameLineIff` | native/sentence/segmenter.cpp:425-436 | Two places are on one line exactly if no CR, LF or other paragraph separator stands between them. |
| `Sentences.Unwrapping` | native/sentence/segmenter.cpp:438-461 | Paragraphs part at blank lines and nowhere before; each is split as if its line ends were spaces. |
| `Sentences.SameParagraphIff` | native/sentence/segmenter.cpp:438-461 | Two places are in one paragraph exactly if no two line feeds with only spaces, tabs and carriage returns between them lie between the places. |
| `Sentences.SentencesOf` | native/sentence/segmenter.cpp:413-463 | In all modes: ordered disjoint trimmed views that hold every non-space scalar, parted exactly at the splits of the mode; fails exactly on invalid UTF-8. |
| `Sentences.SplitsDetermine` | native/sentence/segmenter.cpp:413-463 | Given the splits there is only one such sequence of views. |
| `Sentences.HeldOnce` | native/sentence/segmenter.cpp:413-463 | No position is held twice. |
| `Sentences.SliceValid` | native/sentence/segmenter.cpp:419-423 | A piece of valid text between boundaries is valid text. |
| `Utf.AppendUtf8` | native/jni/utf_codec.h:8-13 | Appends the octets of the scalar (section 3 of RFC 3629). |
| `Utf.ToUtf8` | native/jni/utf_codec.h:14-26 | Rejects exactly texts with an unpaired surrogate (section 2 of RFC 2781); otherwise both sides encode the same scalars. |
| `Utf.ReadScalar` | native/jni/utf_codec.h:30-42 | Reads exactly what begins with a production of section 4 of RFC 3629. |
| `Utf.ToUtf16` | native/jni/utf_codec.h:27-47 | Accepts exactly the sequences of section 4 of RFC 3629; both sides encode the same scalars. |
| `Utf.ChecksAreGrammar` | native/jni/utf_codec.h:33-42 | Lead byte, continuations, minimum, surrogate and range checks together are the grammar. |
| `Utf.EncodeScalars` | native/jni/utf_codec.h:27-47 | What the grammar accepts is what its scalars encode to ... |
| `Utf.ScalarsOfEncoded` | native/jni/utf_codec.h:14-26 | ... and what scalars encode to is accepted and decodes to them. |
| `Utf.Encode8Injective` | native/jni/utf_codec.h:14-26 | Octets determine their scalars. |
| `Utf.Encode16Injective` | native/jni/utf_codec.h:27-47 | Units determine their scalars. |
| `Utf.EncodedIsPaired` | native/jni/utf_codec.h:43-45 | What is written is never an unpaired surrogate. |
| `Utf.RoundTrip8` | native/jni/utf_codec.h:14-47 | toUtf8 undoes toUtf16 on every text that is accepted. |
| `Utf.RoundTrip16` | native/jni/utf_codec.h:14-47 | toUtf16 undoes toUtf8 on every text that is accepted. |
| `Pivot.TransferThroughCharacters` | engine/src/translator/response.cpp:13-98 | For two tilings of one byte range, the target side with an end of sentence: the sweep ends with every source token finished, every entry is the share of bytes declared for it, and every row keeps its total. |
| `Pivot.Sweep` | engine/src/translator/response.cpp:20-54 | One turn moves at least one pointer and transfers just the bytes passed. |
| `Pivot.SweepEnds` | engine/src/translator/response.cpp:56-66 | When the loop ends the source side is through, and at most the target's end of sentence is left. |
| `Pivot.MustOverlap` | engine/src/translator/response.cpp:32-36 | Tokens the pointers stand at coincide or overlap in at least one byte. |
| `Pivot.SharesStochastic` | engine/src/translator/response.cpp:13-98 | The shares of each target-side token are a distribution over the source side's tokens. |
| `Pivot.RowsKeepSum` | engine/src/translator/response.cpp:77-95 | So every row keeps its total, and nonnegative rows stay nonnegative. |
| `Pivot.MixKeepsSum` | engine/src/translator/response.cpp:126-138 | Multiplying by rows that sum to one keeps a row's sum. |
| `Pivot.RemapSentence` | engine/src/translator/response.cpp:102-140 | The product of the target's alignment, carried over to the other tokens, with the source's. |
| `Pivot.RemappedStochastic` | engine/src/translator/response.cpp:126-138 | If both inputs are distributions row by row, so is the result. |
| `Pivot.RemapAlignments` | engine/src/translator/response.cpp:100-143 | The same for all sentences. |
| `PivotText.WordsTile` | engine/src/translator/response.cpp:108-120 | The words recorded for a sentence tile it, and end empty exactly if the last of them is. |
| `PivotText.ReadyToRemap` | engine/src/translator/response.cpp:100-123 | What `ProcessFromAnnotation` records for a pivot sentence with words is what remapping asks for: two tilings of one byte range, the target side with an end of sentence. |
| `Annotation.AnnotatedText.FromText` | engine/src/translator/annotation.cpp:8-11 | A text without sentences is one gap. |
| `Annotation.AnnotatedText.Word` | engine/src/translator/annotation.h:57-60 | The range of a word, and its text there. |
| `Annotation.AnnotatedText.Sentence` | engine/src/translator/annotation.h:65-70 | The range of a sentence: its words one after the other. |
| `Annotation.AnnotatedText.Gap` | engine/src/translator/annotation.h:72-75 | The range of a gap, and its text there. |
| `Annotation.AnnotatedText.AppendSentence` | engine/src/translator/annotation.cpp:13-35 | Ends the last gap and adds a sentence of these words; index vectors and text keep describing gaps and words that tile the text. |
| `Annotation.AnnotatedText.HandleEndingWhitespace` | engine/src/translator/annotation.cpp:111-135 | Adds to the last gap exactly what the language asks for. |
| `Annotation.AnnotatedText.MaybeAppendHtmlTagsFromGap` | engine/src/translator/annotation.cpp:79-109 | Only the complete tags of the gap, in order. |
| `Annotation.AnnotatedText.RecordExistingSentence` | engine/src/translator/annotation.cpp:137-162 | Breaks the last gap of a text that stays as it is into a gap, the sentence and a gap. |
| `Annotation.SentenceAdded` | engine/src/translator/annotation.cpp:13-35 | Adding a sentence leaves all sentences and gaps before it as they were. |
| `Annotation.EndingAdded` | engine/src/translator/annotation.cpp:111-135 | Ending a gap changes that gap and nothing else. |
| `Annotation.BrokenValid` | engine/src/translator/annotation.cpp:137-162 | Breaking the last gap leaves all before it as it was. |
| `Annotation.TagKept` | engine/src/translator/annotation.cpp:79-109 | A complete tag survives; what stands before it does not. |
| `Annotation.RestDropped` | engine/src/translator/annotation.cpp:79-109 | White space and an unfinished tag do not survive. |
| `Annotation.EndingIs` | engine/src/translator/annotation.cpp:44-135 | A gap with a line end stays; else tags starting with ja or zh keep its markup only, other languages keep it, and an empty gap between sentences becomes a space exactly if a language is given and text stands before it. |
| `Annotation.AnnotatedText.Apply` | engine/src/translator/annotation.h:200-231 | Builds a text from the images of all gaps and words, in order. |
| `Annotation.ApplyMaps` | engine/src/translator/annotation.h:200-231 | Without a target language each word and gap is mapped to its image, with the same sentence and word counts. |
| `Annotation.ApplyIdentity` | engine/src/translator/annotation.h:200-231 | Applying the identity gives the same annotated text. |
| `Annotation.PartsDetermine` | engine/src/translator/annotation.h:38-107 | Gaps and sentences determine the annotated text. |
| `Annotation.FinishedPlainly` | engine/src/translator/annotation.cpp:111-135 | Without a target language nothing is added to or taken from gaps. |
| `ResponseBuilding.BuildTranslatedText` | engine/src/translator/response_builder.cpp:25-69 | Either strategy appends every history as a sentence, behind the source's gap or a space. |
| `ResponseBuilding.TranslatedGap` | engine/src/translator/response_builder.cpp:25-69 | Each sentence of the translation is its history. FAITHFUL: what stands before it, and behind the last, is the source's gap there as the language has it. SPACE: one space between sentences, none in Japanese and Chinese. |
| `ResponseBuilding.BuildFaithfully` | engine/src/translator/response_builder.cpp:44-58 | FAITHFUL without a target language: every gap is the source's gap exactly if there is a sentence or the source is empty, and each sentence is its history. |
| `TextProcessing.TextProcessor.Wrap` | engine/src/translator/text_processor.cpp:190-219 | Records the words of a segment part by part, in order, each with an end of sentence: every part but the last has exactly `max-length-break` - 1 words and the last is not empty. |
| `TextProcessing.TextProcessor.Process` | engine/src/translator/text_processor.cpp:57-74 | The text stays; segment i is the recorded sentence i; the segments are, view by view, the parts `Wrap` cuts, so a view of fewer than `max-length-break` words is one segment, the tokenizer's output and the end of sentence; the recorded words are the words it found. |
| `TextProcessing.PartLength` | engine/src/translator/text_processor.cpp:190-219 | All parts but the last have `max-length-break` tokens with their end, and the last has what is left, at least one word. |
| `TextProcessing.FittingIsWhole` | engine/src/translator/text_processor.cpp:196-203 | A segment that fits is one part, an empty one none. |
| `TextProcessing.TextProcessor.ProcessFromAnnotation` | engine/src/translator/text_processor.cpp:221-253 | One segment per annotated sentence, empty ones included: what the tokenizer makes of it and an end of sentence; the recorded words are those it found, and where it found some the sentence stays where it was. |
| `TextProcessing.TextProcessor.RecordWithEnd` | engine/src/translator/text_processor.cpp:197-217 | Records words and an empty end of sentence behind the last of them, at their place; the other sentences stay where they were. |
| `ThreadsafePools.ThreadsafeBatchingPool.SetConsumerCount` | engine/src/translator/threadsafe_batching_pool.cpp:55-59 | Sets the number of consumers, nothing else. |
| `BatchingPools.BatchingPool.CapBatches` | engine/src/translator/batching_pool.cpp:132-135 | Keeps the cap in force if nothing was added or the dry run finds a batch for every worker; otherwise sets the least c with added <= c * max(W, 1). |
| `HtmlRestoring.RestoreSourceToken` | engine/src/translator/html.cpp:565-598 | Replays the spans from the one reached so far to the last one that begins before the token ends, or to the end for the last token. |
| `HtmlRestore.MapTarget` | engine/src/translator/html.cpp:511-557 | Whatever the scores, each target token gets the span of its aligned source word or gap, the last one the last span, and as tags those of that span and the ones added for it. |
| `HtmlAlignment.SettleWord` | engine/src/translator/html.cpp:770-801 | One word joined to the one before it: the choice for the run so far becomes that of all its words. |
| `TokenFormatting.TokenFormatter.TakeBreak` | engine/src/translator/html.cpp:201-208 | Takes the first "\n\n" out of the white space, if it has one. |
| `Sentences.AppendPieces` | native/sentence/segmenter.cpp:419-423 | Trims what lies between one cut and the next, parted exactly at the cuts. |
| `Sentences.AppendSplit` | native/sentence/segmenter.cpp:450-455 | Pieces of the text are cut where the same piece of the substituted text has boundaries. |
| `Sentences.Unwrap` | native/sentence/segmenter.cpp:441-442 | Line ends become spaces, every other byte stays. |
| `Utf.AppendUtf16` | native/jni/utf_codec.h:43-44 | Appends the units of the scalar (section 2.1 of RFC 2781). |
| `Pivot.Gift` | engine/src/translator/response.cpp:61-75 | The surplus of an end of sentence the source side does not have goes in equal parts to all its tokens. |
| `Annotation.AnnotatedText.constructor` | engine/src/translator/annotation.h:41-45 | An empty text is one empty gap. |
| `Annotation.AnnotatedText.NumWords` | engine/src/translator/annotation.h:50-52 | The number of words of that sentence. |
| `TokenFormatting.TurnIsFirst` | engine/src/translator/html.cpp:224-230 | The events that stand left of the white space are those before the first opening tag that shows. |

## Left out

- BatchingPools.BatchingPool.FillBatch: an assertion in the source promises a sentence that fits; bucket growth in `enqueueRequest` does not enforce it, so the lemmas on progress and on counts ask for lengths within the budget, the method itself does not.
- BatchingPools.BatchingPool.EnqueueRequest: asks for a request id that no waiting sentence has, as the service's counter provides; `RequestOrder.KeepsAllIff` says why.
- ThreadsafePools.ThreadsafeBatchingPool.GenerateBatch: the wait itself is the condition under which the method may be called; mutexes and spurious wake-ups are atomic steps.
- Schedules.BatchesAreDeterministic: runs without `clear()`, which zeroes the count and leaves sentences in the pools (`Monitors.ClearAccountedIff`).
- Schedules.ReleaseLeavesNoReference: references are those of the queue and of the workers; shared-pointer counts outside the service are the caller's.
- Requests.Request.constructor: the cache's answers are a parameter; its hashing, eviction and the key of an empty record are not modelled.
- HtmlParser.HTML.Parse: reads lexemes; scanning tags, attributes, comments and script or style data in xh_scanner.cpp is not modelled, an unquoted attribute there can run past the end of input.
- HtmlRestore.Restore: which tags `annotateTagStack` adds to which target token is given, since it depends on quality scores; they may be any tags, those made after the parse included.
- PivotText.ReadyToRemap: that the tokenizer's words are not empty is asked for; empty pivot sentences are left to the caller.
- HtmlAlignment.HardAlign: which characters end a word is a parameter of `isContinuation`; scores are reals.
- TokenFormatting.EncodeEntities: text is a sequence of characters; the code works on bytes, of which it changes only ASCII ones.
- WrittenMarkup.TagsReadBack: asks that names, attributes and data be told apart at all (`Legible`): no ">" outside quotes in attributes, no "-->" in comments, no "<" in data but that of ignored elements, which runs up to their end tag; the code writes whatever it was given.
- Scanning.Rescan: texts with a NUL character are excluded, since the scanner takes NUL for the end.
- Segmenter.Boundaries: abbreviation lists, Korean dates, protected addresses, closing quotations and Russian dialogue are functions of the text and of positions in it.
- Sentences.SentencesOf: `setCustomRules`, `load` and `primaryLanguage` only choose those functions.
- Pivot.TransferThroughCharacters: asks for at least one source token and for an end of sentence on the target side, which the caller's annotations always have; rounding of floats is not modelled.
- Annotation.AnnotatedText.Apply: `f` is a function of range and text; it cannot have effects.
- TextProcessing.TextProcessor.Process: asks for `max-length-break` of at least 2, below that wrapping does not get on; loading of vocabularies and split modes is not modelled.
- ResponseBuilding.BuildTranslatedText: quality scores and alignments of the response are copied data and not modelled.
- Neural inference, beam search, SentencePiece, shortlists, the Java and WASM bindings, YAML and file loading, CPU topology, logging, allocator purging and lifecycle tracing.
- Callback chaining in `pivot()`, the quality estimator's regression, benchmarks, scripts and smoke tools.
