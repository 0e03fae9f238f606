# Verified models of mailcli

mailcli is a command-line companion to a mail program. Its difficult parts
are not the commands but what stands behind them: HTML bodies that must be made
harmless before they become drafts, a hand-over to a mail window that must never
happen twice, batches that stop on a shared byte budget, and small files that
several processes rewrite. This project states in Dafny what those parts are for
and proves it of models that follow the Go code branch by branch.

Code that changes things in place is modelled by methods over classes and
arrays, each proved against a specification function or a stated property; what
the source promises is then proved of the specification for all inputs or for
every run.

| files | component | what is proved |
|---|---|---|
| `Html`, `SanitizeSpec`, `Diagnostics`, `DiagnosticsLaws`, `Sanitizer`, `SanitizeTheorems`, `SanitizeLaws` | draft HTML sanitizer | the in-place rewriting of the node tree leaves exactly the tree of a short recursive meaning; that tree is harmless, keeps text and order, is what one pass over the markup leaves, and sanitizing it again changes nothing; every diagnostic has its cause and every cause its diagnostic |
| `TreeWalk` | bounds on a parsed tree | the walk without a stack visits every node once in document order and accepts exactly the trees within both limits |
| `PlainTextOutput`, `PlainTextLayout`, `PlainTextBudget`, `PlainTextContent`, `PlainTextRendering`, `RenderingFacts`, `PlainTextRenderer`, `LinkTargets`, `PlainForms`, `PlainSpace`, `PlainLists`, `PlainTables` | plain-text rendering | prose and breaks are laid out the same however they are cut; the renderer with its stacks and two budgets succeeds exactly when the document fits and then gives what it would give without limits; no text and no address of the document is lost; how paragraphs, lists, tables, rules and preformatted text are written out |
| `HandoffProtocol`, `HandoffSession`, `HandoffCommand` | visible hand-off of a draft | safety over every run with crashes between any two durable writes, and an exact reported outcome |
| `Batch`, `BatchLaws`, `BatchProgress`, `BatchBudget`, `JsonStrings`, `Utf8` | concurrent batch and its byte budget | every interleaving of dispatcher, workers, cancellation and budget stop is safe, never blocks and ends, and reports each item as it finished; the budget's ledger in any order of calls |
| `AccountBindings`, `BindingLaws`, `BindingStore`, `SendSetup`, `Sorting` | account bindings | which documents are accepted; truthful publication status at every failure and crash; a merge that loses nothing and is refused exactly when outdated |
| `JsonText`, `SchemaJson`, `InputJson` | JSON scanners | an escape rewriter that keeps every value, and an exact surrogate check |
| `Links`, `LinkLaws`, `DisplayWidth`, `Table` | links and tables | links found and split in linear time, removed or shortened where they stand; widest-first shrinking, truncation, exact rows |
| `Wrappers`, `Sequences`, `Texts`, `Contexts` | shared | result types, facts about sequences, characters and their sizes, contexts |

Conventions. A caller's cancellation is a nondeterministic choice wherever the
source looks at its context, unless the context cannot be cancelled: then the
verdicts are stated both ways. File-system calls may fail at every use, unless
the store or directory is a reliable one: then success is characterised exactly.
A failed replacement of a claim leaves the old or the new content, a failed
rename of a binding file leaves the old one. Library functions that the code calls (Unicode
classes, URL and address parsing, trimming, the provider table) are function
values with the few laws that the theorems need, gathered in the predicates
`Lawful`, `HostIsPart` and `Compacts`. Strings are sequences of Unicode scalar
values except where the code works on bytes (`Utf8`, `JsonStrings`, `JsonText`,
`SchemaJson`, `InputJson`), which are modelled byte by byte.

## Model

| member | source | states |
|---|---|---|
| Html.Node.RemoveChild | internal/mail/content_sanitize.go:81-86 | removing a child leaves the other children in order and the child without a parent |
| Html.Node.InsertBefore | internal/mail/content_sanitize.go:102-111 | a detached node is inserted in front of another; its precondition makes every caller show that no node is given a new parent twice |
| Diagnostics.KeptInOrderOfFirstReport | internal/mail/content.go:203-217 | whatever is reported, what is kept is exactly that, each once, in the order of first report |
| Diagnostics.Collector.Record | internal/mail/content.go:203-217 | one report is kept unless it is already there |
| Sanitizer.HtmlAttributeValue | internal/mail/content_sanitize.go:244-251 | the first value under a key, or nothing |
| Sanitizer.RecordRemovedAttributes | internal/mail/content_sanitize.go:181-185 | the reports of all attributes, in order |
| Sanitizer.RecordDroppedResources | internal/mail/content_sanitize.go:203-220 | the remote resources that a dropped element would have fetched |
| Sanitizer.SanitizeElementAttributes | internal/mail/content_sanitize.go:143-179 | the loop computes the kept attributes and the reports, of which `LinkKeepsExactly` and `AttributeIsReported` say by place what they are; only links keep any |
| Sanitizer.SanitizeHTMLNode | internal/mail/content_sanitize.go:65-107 | one node, in place in the tree that its parent and siblings form, becomes the list of trees that is its meaning, and the diagnostics are its reports |
| Sanitizer.DropSubtree | internal/mail/content_sanitize.go:73-89 | a listed subtree disappears, or becomes the image's non-empty alternative text |
| Sanitizer.UnwrapSanitizedHTMLNode | internal/mail/content_sanitize.go:112-130 | the cleaned children of an unknown element stand directly in front of the place of the retained parent, in order; each is moved once |
| Sanitizer.SanitizeHTMLChildren | internal/mail/content_sanitize.go:132-141 | for every list of children and unless a cancellable context stops it, the children afterwards are the merged cleaned trees of all of them, in source order |
| Sanitizer.MergeHTMLTextNodes | internal/mail/content_tree.go:125-145 | runs of text siblings become one text node, everything else stays |
| Sanitizer.JoinTextRun | internal/mail/content_tree.go:133-142 | one run of text is joined into its first node |
| SanitizeTheorems.SanitizedBodyIsSafe | internal/mail/content_sanitize.go:65-179 | whatever the tree, the sanitized body has only allowed elements, attributes only on links (at most one safe href, one title, one rel) and no adjacent texts |
| SanitizeTheorems.CleanIsSafe | internal/mail/content_sanitize.go:262-279 | the same for what a single node becomes |
| SanitizeTheorems.CleanAttributesSafe | internal/mail/content_sanitize.go:143-179 | the kept attributes of a link are a safe href, a title and the rel, each at most once |
| SanitizeTheorems.SanitizingTwiceChangesNothing | internal/mail/content_sanitize.go:132-141 | sanitizing a sanitized body leaves it unchanged |
| SanitizeTheorems.CleanKeepsOrder | internal/mail/content_sanitize.go:109-141 | surviving nodes keep their document order |
| SanitizeTheorems.CleanKeepsText | internal/mail/content_sanitize.go:65-107 | the text of the result is the visible text of the source: nothing lost, invented or reordered |
| SanitizeTheorems.MergeKeepsText | internal/mail/content_tree.go:125-145 | merging text nodes changes no text |
| SanitizeLaws.LinkKeepsExactly | internal/mail/content_sanitize.go:143-179 | a link keeps its first safe href, trimmed, and its first title with its own value, by their places in the source, in front of the protective rel and nothing else |
| SanitizeLaws.SanitizingIsOnePass | internal/mail/content_sanitize.go:65-141 | the markup of the sanitized body is what one pass over the body's markup leaves: allowed tags outside dropped content stay around what stays of their content, other tags go, every character outside dropped content stays |
| DiagnosticsLaws.ReportedExactly | internal/mail/content_sanitize.go:65-220 | a diagnostic is reported if and only if a visited element causes it: a dropped element itself, an unwrapped tag, an attribute, a resource it would have fetched |
| DiagnosticsLaws.AttributeIsReported | internal/mail/content_sanitize.go:143-201 | code by code, which attribute at which place is reported: event handlers, styles, remote resources, unsafe or repeated hrefs, repeated titles, any other |
| DiagnosticsLaws.ResourceIsReported | internal/mail/content_sanitize.go:203-220 | which attributes of a dropped element are reported as remote resources or unsafe addresses |
| TreeWalk.Walk | internal/mail/content_tree.go:97-123 | the cursor over first-child, next-sibling and parent links terminates, visits the nodes of the tree in document order and tracks true depth; under a context that cannot be cancelled it accepts if and only if size and depth are within the limits, and names the right limit otherwise |
| TreeWalk.ClimbUp | internal/mail/content_tree.go:111-121 | without a child, the cursor climbs to the nearest ancestor below the root that has a next sibling, or to the end, and the depth stays that of its node |
| TreeWalk.PreorderIsExact | internal/mail/content_tree.go:97-123 | document order contains every node of the tree once and no other node |
| TreeWalk.ValidateDraftContentTree | internal/mail/content_tree.go:97-123 | a draft tree is accepted exactly within 65536 nodes and 512 levels, unless a cancellable context is cancelled |
| TreeWalk.CheckIncomingHTMLTree | internal/mail/content_incoming.go:91-116 | the same with the caller's node limit |
| PlainTextOutput.Output.Write | internal/mail/content_plaintext.go:451-480 | one token changes the writer's state as its specification says |
| PlainTextOutput.Output.WritePreserved | internal/mail/content_plaintext.go:482-493 | preformatted text is written as it is, after what is pending |
| PlainTextOutput.Output.WriteProse | internal/mail/content_plaintext.go:495-526 | prose is written character by character with pending space and breaks |
| PlainTextOutput.Output.FlushBreaks | internal/mail/content_plaintext.go:530-543 | pending breaks are written, counting the line breaks already at the end |
| PlainTextOutput.Output.WriteString | internal/mail/content_plaintext.go:545-551 | text is appended as a whole or not at all |
| PlainTextLayout.OutputIsLaidOut | internal/mail/content_plaintext.go:451-543 | for all tokens the output is their layout, a short definition on what they carry: words with one space within a line, at most two line breaks between lines counting those already written, nothing before the first word, preserved text as it is |
| PlainTextLayout.ChunkingDoesNotMatter | internal/mail/content_plaintext.go:451-526 | token sequences that carry the same characters, breaks and preserved texts give the same output, however the prose is cut |
| PlainTextLayout.LayoutKeepsVisible | internal/mail/content_plaintext.go:482-526 | a layout has every visible character, of prose and of preserved text, once and in order, and otherwise only white space |
| PlainTextLayout.ProseHasNoEdges | internal/mail/content_plaintext.go:495-543 | a layout of prose alone neither starts nor ends with white space |
| PlainTextLayout.PreservedTextIsVerbatim | internal/mail/content_plaintext.go:482-493 | preserved text stands in the output with its indentation and inner line breaks, whatever comes before and after; only a marker may lose blanks in front |
| Texts.LineEndingsAreExact | internal/mail/content_text.go:12-15 | each kind of line ending becomes one line feed, every other character stays, and parts are normalized apart unless cut between the halves of a line ending |
| PlainTextBudget.LimitedOutputIsPrefix | internal/mail/content_plaintext.go:482-562 | for all tokens, preserved ones too, the limited output is a prefix of the unlimited one and fits; writing fails exactly when the unlimited output does not fit |
| RenderingFacts.NodeRenders | internal/mail/content_plaintext.go:122-369 | whatever the node and the open stacks: rendering restores every stack and depth, adds the node's text to every open link label and its letters to what is written, in order, and its items to the innermost list |
| RenderingFacts.LinkCloses | internal/mail/content_plaintext.go:235-256 | the label of a closing link is the concatenation of the text rendered inside it, and the enclosing labels keep that text |
| PlainTextRenderer.GrowsExceeds | internal/mail/content_plaintext.go:122-125 | what has needed more than the limits allow needs more ever after, so stopping at the first failure decides as the whole rendering would |
| PlainTextRenderer.WriterExceeds | internal/mail/content_plaintext.go:451-562 | the limited writer has failed on a list of tokens exactly when their unlimited output is larger than the limit |
| PlainTextRenderer.Renderer.RenderNode | internal/mail/content_plaintext.go:122-142 | the renderer stays in step with the unlimited rendering of the node; it stops only when cancelled or when that rendering needs more than the limits allow, and restores all stacks and depths even then |
| PlainTextRenderer.Renderer.RenderElement | internal/mail/content_plaintext.go:156-203 | the same for every element |
| PlainTextRenderer.Renderer.RenderContainer | internal/mail/content_plaintext.go:167-203 | the same for elements with content |
| PlainTextRenderer.Renderer.RenderChildren | internal/mail/content_plaintext.go:226-233 | the loop over the children gives their renderings one after the other, or stops |
| PlainTextRenderer.Renderer.RenderPreformatted | internal/mail/content_plaintext.go:182-187 | the depth of preformatted text is one more inside and back afterwards, an error included |
| PlainTextRenderer.Renderer.RenderLink | internal/mail/content_plaintext.go:235-256 | without an error the label shown is the concatenation of the text inside; the link is closed in any case |
| PlainTextRenderer.Renderer.CloseShownLink | internal/mail/content_plaintext.go:242-255 | one step of the specification of which `LinkShowsTarget` says exactly when it writes the target; every enclosing link remembers the target, and the limits decide about failure |
| PlainTextRenderer.Renderer.RenderList | internal/mail/content_plaintext.go:258-265 | a list is opened and closed again around its children |
| PlainTextRenderer.Renderer.RenderListItem | internal/mail/content_plaintext.go:277-292 | an item begins with its indent and marker and advances an ordered list by one |
| PlainTextRenderer.Renderer.RenderTable | internal/mail/content_plaintext.go:294-301 | a table is opened and closed again around its children |
| PlainTextRenderer.Renderer.RenderTableRow | internal/mail/content_plaintext.go:303-319 | a row stands between bars and changes nothing below the innermost table |
| PlainTextRenderer.Renderer.RenderTableCell | internal/mail/content_plaintext.go:321-337 | a cell is divided from the one before it, and the cell depth is back afterwards |
| PlainTextRenderer.Renderer.AppendText | internal/mail/content_plaintext.go:339-369 | text that would take all labels together past the budget latches an error and changes nothing else; any other goes to every open label |
| PlainTextRenderer.Renderer.WriteText | internal/mail/content_plaintext.go:353-368 | white space that a line would start with is skipped, unless it is verbatim or the mode is the legacy one; any other text is written, with bars escaped inside a cell |
| PlainTextRenderer.Renderer.ExtendLabels | internal/mail/content_plaintext.go:343-352 | the error is latched exactly when the text times the open labels is more than what is left of four times the limit; then no label changes, otherwise all grow and the total stays within the budget |
| PlainTextRenderer.DividedCheck | internal/mail/content_plaintext.go:344-346 | the divided size check is exact: it passes if and only if the product fits |
| PlainTextContent.OutputHasEveryToken | internal/mail/content_plaintext.go:451-562 | a writer that has not failed has written every character but white space of every token, in order, and nothing else |
| PlainTextRenderer.RenderPlainText | internal/mail/content_plaintext.go:106-120 | unless it is cancelled, which only a cancellable context can be, a rendering succeeds exactly when all label bytes are within four times the limit and the unlimited output is within it; its text then is that of the unlimited rendering |
| PlainTextRenderer.PlainTextHasEveryLetter | internal/mail/content_plaintext.go:106-120 | for every tree and policy the rendering has every letter of the text outside dropped elements, in order |
| PlainTextRenderer.OnlyNewlinesAreTrimmed | internal/mail/content_plaintext.go:424-424 | the text is the output without the line breaks at its ends, and no others go |
| LinkTargets.LinkShowsTarget | internal/mail/content_plaintext.go:235-256 | the tokens of a link are those of its content, followed by one ` (target)` if and only if label and target are not empty, the label does not show the target and no labelled link inside leads to it; otherwise those of the content alone |
| LinkTargets.LinkBeforeClosing | internal/mail/content_plaintext.go:235-242 | just before it closes, a link's label is the text rendered inside it and its remembered targets are those of the labelled links inside, in order |
| LinkTargets.NodeRemembers | internal/mail/content_plaintext.go:251-255 | rendering any node leaves in every open link the targets of the labelled links inside that node, and nothing else |
| LinkTargets.LabelIsLaidOut | internal/mail/content_text.go:30-47 | a label is what the writer would make of its text as prose |
| LinkTargets.TargetIsFirstSafe | internal/mail/content_text.go:17-28 | a link's target is its first safe href, trimmed, and there is none without a safe one |
| LinkTargets.NodeShows | internal/mail/content_plaintext.go:156-256 | wherever it is in the document, each link's shown target and each image's text has its own raw token |
| LinkTargets.PlainTextShowsTargets | internal/mail/content_plaintext.go:106-120 | no address is lost: every link that shows its target has it in the final text, in parentheses |
| LinkTargets.PlainTextShowsImages | internal/mail/content_plaintext.go:156-163 | every image with an alternative text has it in the final text |
| PlainForms.BlocksAreWritten | internal/mail/content_plaintext.go:199-224 | any number of text blocks of one kind: a blank line between paragraphs, headings and quotes, a line break between other blocks and in the legacy form, whatever white space stands between them |
| PlainSpace.SpaceInStructureIsNothing | internal/mail/content_plaintext.go:127-154 | white space between whatever a list, table, row or other structural element holds changes nothing, unless it is in preformatted text or code |
| PlainForms.BreaksAreWritten | internal/mail/content_plaintext.go:171-178 | `br` starts a new line; `hr` leaves a blank line, but not in the legacy form |
| PlainForms.PreformattedIsWritten | internal/mail/content_plaintext.go:182-187 | preformatted text is written character by character as it is, but for line breaks at its ends |
| PlainForms.CodeIsWritten | internal/mail/content_plaintext.go:179-181 | so is inline code |
| PlainLists.ListsAreWritten | internal/mail/content_plaintext.go:258-292 | a list of any items, with lists below them to any depth: each item on its line, numbered from one in its own list or behind a dash, two columns further in for each level, and no blank line anywhere between |
| PlainLists.BlockListsAreWritten | internal/mail/content_plaintext.go:277-292 | a list whose items are blocks: the marker stays on the line of the text, and a blank line is between items exactly when they are paragraphs, headings or quotes and the form is not the legacy one |
| PlainLists.ItemBegins | internal/mail/content_plaintext.go:277-290 | an item begins with its number or dash, two columns further in for each list around its own, and only a numbered list counts on |
| PlainLists.ItoaIsDecimal | internal/mail/content_plaintext.go:284-284 | the number is written in decimal digits without a leading zero |
| PlainTables.TablesAreWritten | internal/mail/content_plaintext.go:294-337 | a table of any rows and cells has a row on each line, with bars around and between its cells |
| PlainTables.EscapingIsExact | internal/mail/content_plaintext.go:356-358 | no bar in a cell stands without a backslash, and leaving those backslashes out gives the cell back |
| HandoffProtocol.ValidHandoffAttempt | internal/mail/draft_handoff.go:114-150 | the validator accepts exactly the valid claims |
| HandoffProtocol.RunIsSafe | internal/mail/draft_handoff.go:389-441 | in every durable state of every run the stored claim is valid, only its own snapshots exist, and a called attempt is marked as dispatched |
| HandoffProtocol.CallIsClaimed | internal/compose/handoff_darwin.go:177-196 | native compose is called only when the stored claim already says that dispatch started |
| HandoffProtocol.NoSecondCallBeforeSettlement | internal/mail/draft_handoff.go:334-546 | between two native calls for a draft the first outcome was confirmed and its claim removed |
| HandoffProtocol.CalledNeverCanceled | internal/mail/draft_handoff.go:480-546 | a called attempt never reads prepared or canceled again |
| HandoffProtocol.ConfirmedOutcomeIsFinal | internal/mail/draft_handoff.go:552-605 | a recorded confirmed outcome never changes to another |
| HandoffProtocol.PendingUntilConfirmed | internal/mail/draft_handoff.go:501-519 | after a native call the claim stays unresolved until an outcome is confirmed |
| HandoffProtocol.GoneStaysGone | internal/mail/draft_handoff.go:164-177 | a removed claim of a used attempt never comes back |
| HandoffSession.Store.CreateClaim | internal/mail/draft_handoff.go:394-404 | creating a claim leaves none, a torn one or the whole one, and is an allowed move of the protocol |
| HandoffSession.Store.ReplaceClaim | internal/mail/draft_handoff.go:152-162 | replacing a claim leaves the old or the new one, whatever it returns, and never an invalid one |
| HandoffSession.Store.StageSnapshots | internal/mail/draft_handoff.go:405-427 | copies exist only for the stored claim |
| HandoffSession.Store.InvokeNative | internal/compose/handoff_darwin.go:194-194 | the call may be made once per attempt, under a claim that says dispatched |
| HandoffSession.CleanupTerminalHandoffAttempt | internal/mail/draft_handoff.go:204-251 | snapshots go before their claim; a failure in between leaves a claim with the same outcome |
| HandoffSession.RecoverPreparedHandoffStaging | internal/mail/draft_prune_snapshots.go:218-262 | success leaves neither claim nor snapshots; a claim that is not prepared is refused and stays as it is; no other attempt's claim appears |
| HandoffSession.BeginDraftHandoff | internal/mail/draft_handoff.go:334-443 | a session starts only from an eligible draft and no stored claim, with a fresh prepared claim and all its copies staged; an ineligible draft leaves no new claim, copy or identifier; in a reliable store it starts if and only if nothing forbids it |
| HandoffSession.ValidateDraftHandoff | internal/mail/draft_handoff.go:444-465 | a draft is eligible when neither a send nor a save was attempted, it is new, names no sender, CC or BCC, has a recipient and its attachments fit; in a reliable store exactly then, without a stored claim |
| HandoffSession.PreflightDraftAttachments | internal/mail/draft_attachments.go:169-201 | at most 100 attachments, of the sizes that were reviewed, within 512 MiB together; the loop's running remainder decides as the total does |
| HandoffSession.StartAttempt | internal/mail/draft_handoff.go:382-442 | the claim is stored before any copy is staged; on failure what is left is a prepared claim or none, and in a reliable store it succeeds |
| HandoffSession.Session.MarkDispatched | internal/mail/draft_handoff.go:480-499 | success means the stored claim says dispatched; failure may have left either claim and does not occur in a reliable store |
| HandoffSession.Session.Finish | internal/mail/draft_handoff.go:501-519 | an outcome is recorded and a confirmed one cleaned up, in a reliable store always; the lease is released in any case |
| HandoffSession.Session.CancelBeforeDispatch | internal/mail/draft_handoff.go:521-536 | an undispatched attempt is removed, or on failure left as prepared, canceled or dispatched; a dispatched one becomes unknown |
| HandoffSession.Session.Close | internal/mail/draft_handoff.go:538-546 | closing settles an open session as canceling or as an unknown outcome would, and does nothing to a closed one |
| HandoffSession.ReconcileDraftHandoff | internal/mail/draft_handoff.go:552-605 | only the named, unresolved attempt is settled, never against a recorded outcome; in a reliable store exactly those are |
| HandoffCommand.HandoffWithDispatch | internal/compose/handoff_darwin.go:143-227 | the mark comes before the call; without a call the errors say so |
| HandoffCommand.DecisionIsExact | internal/cli/draft_workflow.go:120-181 | after a native call, whatever errors were joined in whatever order: handed off exactly on a dispatched success without cancellation, not handed off exactly when the response denies dispatch or confirms failure |
| HandoffCommand.RunDraftHandoff | internal/cli/draft_workflow.go:89-181 | the reported outcome is exact for every response and cancellation timing, native compose is called only without a cancellation before it and in a reliable store always then, and the stored claim never says more than the report, without a native call either |
| Batch.SummarizeBatchResult | internal/mail/batch.go:206-221 | the counts are those of the item states and add up to the total |
| Batch.StepInv | internal/mail/batch.go:175-251 | every step of dispatcher, worker, cancellation or budget stop keeps the invariant |
| Batch.EveryRunConcludesWell | internal/mail/batch.go:143-251 | whatever the interleaving, results keep request order and ids, an item is left skipped exactly when it never ran, budget skips occur only for reads |
| Batch.NeverRunsTwice | internal/mail/batch.go:223-230 | at no moment of any run has an item been run twice |
| Batch.NoAdmissionAfterRefusal | internal/mail/batch.go:232-251 | after a result admission has returned false no other is made |
| BatchLaws.ReportedAsFinished | internal/mail/batch.go:223-251 | in every concluded run each item is reported with the result that its own execution finished with, and an item has run if and only if such a step is in the run |
| BatchLaws.ItemsAreSkippedForAReason | internal/mail/batch.go:143-251 | skipped items bear the budget's mark exactly when a budget stop occurred, and without a stop or a cancellation by the caller every item has run |
| BatchLaws.EveryResultIsOffered | internal/mail/batch.go:232-251 | an undisturbed read offers each result once and all were admitted; any other batch offers none |
| BatchLaws.NothingStartsOnceCancelled | internal/mail/batch.go:175-230 | from the moment a batch is cancelled on, no item is started |
| BatchProgress.NeverStuck | internal/mail/batch.go:175-251 | in every reachable state before the conclusion some step other than a cancellation by the caller can be taken and has an effect: channel, lock and wait group never block each other |
| BatchProgress.EveryRunIsBounded | internal/mail/batch.go:175-251 | a run whose steps all have an effect has at most 21 steps for each item and 14 more, so every batch concludes |
| Utf8.DecodeIsLocal | internal/cli/projection.go:1467-1467 | decoding a rune looks at no byte behind it |
| Utf8.EncodedDecodes | internal/cli/projection.go:1467-1467 | every scalar value is decoded from its bytes (section 3 of RFC 3629), whatever follows |
| Utf8.OnlyEncodingsDecode | internal/cli/projection.go:1467-1467 | nothing else is decoded: no overlong form, surrogate or stray byte |
| JsonStrings.JsonStringOutputBytes | internal/cli/projection.go:1449-1478 | the computed size is the length of the written-out JSON string, for every byte sequence |
| JsonStrings.EncodedStringReads | internal/cli/projection.go:1447-1478 | reading that JSON string (section 7 of RFC 8259) gives back the text, with U+FFFD for bad bytes |
| JsonStrings.OnlyEscapesTakeMore | internal/cli/projection.go:1449-1478 | a text is written as it is exactly when nothing in it must be escaped or replaced; any other takes more bytes |
| JsonStrings.SizeIsAdditiveExactlyAtBoundaries | internal/cli/projection.go:1449-1478 | sizes of two parts add up, but for one pair of quotes, exactly when the cut lies between runes; otherwise the parts are larger |
| JsonStrings.WellFormedEndsAtBoundary | internal/cli/projection.go:1449-1478 | text without bad bytes may be followed by anything |
| BatchBudget.Budget.constructor | internal/cli/batch_commands.go:38-40 | a new budget has everything remaining |
| BatchBudget.Budget.Admit | internal/cli/batch_commands.go:42-62 | what was asked for is retained as a whole or not at all, and not at all once exceeded |
| BatchBudget.Budget.AdmitResult | internal/cli/batch_commands.go:77-99 | a recorded result is admitted while the measured response fits; an encoding error is a refusal |
| BatchBudget.Budget.Result | internal/cli/batch_commands.go:64-75 | an exceeded budget reports more bytes than its limit, any other the size of what it retained |
| BatchBudget.RetainedTextsStayWithinLimit | internal/cli/batch_commands.go:26-99 | under any order of calls the encoded size of the retained texts is the limit minus what remains |
| BatchBudget.ExceededIsFinal | internal/cli/batch_commands.go:42-62 | exceeded is never cleared and nothing more is retained |
| BatchBudget.VerdictIsThatOfTheTotal | internal/cli/batch_commands.go:42-62 | unless a recorded result overflowed, the verdict depends only on the total asked for, not on the order |
| BatchBudget.ExceededExactly | internal/cli/batch_commands.go:42-99 | after any calls the budget is exceeded exactly when one of them overstepped: a text beyond what was left, or the last response with the extras of all items so far beyond the limit |
| BatchBudget.FirstOverstepIsReported | internal/cli/batch_commands.go:64-99 | the first such call decides what is reported: the response's size as it stood then, exact if no item was skipped and a lower bound otherwise, or the size of all texts asked for |
| AccountBindings.NormalizeAccountBinding | internal/mail/account_bindings.go:121-203 | the loop over the aliases computes the canonical form or the first error |
| AccountBindings.NormalizingTwiceChangesNothing | internal/mail/account_bindings.go:118-203 | a canonical binding is canonical, has the canonical id and every alias |
| BindingLaws.AcceptedExactly | internal/mail/account_bindings.go:118-203 | a binding is accepted if and only if its account, 1 to 64 distinct aliases and credential account are in order and it has two public endpoints or all addresses of one provider; its form is that of the aliases, sorted, and nothing else changes |
| AccountBindings.ValidateAccountBindingFile | internal/mail/account_bindings.go:373-407 | the loop over the bindings computes the canonical document or the first error |
| AccountBindings.ValidatedIsCanonical | internal/mail/account_bindings.go:373-407 | a document is accepted as it is exactly when it is canonical: right version, at most 128 sorted, distinct, normal bindings |
| BindingLaws.AcceptedDocuments | internal/mail/account_bindings.go:373-407 | a document is accepted if and only if it has the version, at most 128 bindings, each acceptable, and no account twice |
| AccountBindings.ValidatedBindings | internal/mail/account_bindings.go:386-404 | validation normalizes each binding, drops none and adds none |
| AccountBindings.FindAccountBinding | internal/mail/account_bindings.go:457-478 | the binding of the account in the validated document |
| AccountBindings.LookupIsMembership | internal/mail/account_bindings.go:472-476 | what is found is the one binding with that id |
| BindingStore.WriteAccountBindings | internal/mail/account_bindings.go:931-989 | an error without status means the old document, an unknown status the new one |
| BindingStore.UpdateAccountBindingsLocked | internal/mail/account_bindings.go:747-789 | the same for a whole locked update |
| BindingStore.FinishingKeepsStatus | internal/mail/account_bindings.go:610-632 | a failed lock release adds an error but keeps the status; after a success the status is complete |
| BindingStore.UpdateAccountBindings | internal/mail/account_bindings.go:582-604 | at every crash point the file is the old document, or from the rename on the new one; status none means unchanged, any other status or success means renamed; in a reliable directory it succeeds exactly when there is a document to publish |
| SendSetup.MergeSendBinding | internal/cli/send_setup.go:381-420 | the loops compute the merged document |
| SendSetup.PutKeepsOthers | internal/cli/send_setup.go:412-418 | replacing or appending one binding leaves all others |
| SendSetup.MergeIsSafe | internal/cli/send_setup.go:381-433 | whatever is stored by then, an accepted merge yields one binding for the account, leaves every other account's alone, loses no alias, adds the new one and no other, and sets the fields as planned |
| SendSetup.UnsetFieldsAreAsSeen | internal/cli/send_setup.go:224-247 | each field that was not given explicitly has the value of the snapshot, or the sender's default when there was no binding |
| SendSetup.RefusedExactlyWhenChanged | internal/cli/send_setup.go:422-433 | a setup planned on one document and merged into another is refused if and only if the account's binding appeared, went or changed in a field that the setup leaves implicit, in terms of the two bindings; otherwise it is accepted |
| SendSetup.UpToDateIsNotRefused | internal/cli/send_setup.go:381-433 | an unchanged binding never leads to a refusal, nor does a setup that gives credential and hosts itself |
| SendSetup.RepeatingChangesNothing | internal/cli/send_setup.go:372-420 | setting up again what is already set up publishes the same document |
| SendSetup.NothingElseIsAdded | internal/cli/send_setup.go:393-405 | the published aliases are those before, and the new one if there was none like it |
| SendSetup.AliasesAreNeverLost | internal/cli/send_setup.go:372-420 | over any sequence of setups with any snapshots, an alias once published stays published |
| SendSetup.UpsertSendBinding | internal/cli/send_setup.go:372-379 | whatever the file holds, missing or not yet canonical: it is unchanged, or it is the merge of the loaded document, and the reported status says which; in a reliable directory it succeeds exactly when the merge does |
| JsonText.TextIsUnambiguous | internal/cli/schema.go:329-360 | a text has at most one reading as strings and bytes outside strings |
| SchemaJson.UnescapeHTML | internal/cli/schema.go:326-361 | the loop stays inside the text and writes the rewriting of what the text reads as |
| SchemaJson.NormalizeSchemaJSON | internal/cli/schema.go:316-362 | on every compacted JSON text the result is that rewriting, on the fast path too |
| SchemaJson.FastPathAgrees | internal/cli/schema.go:364-368 | when none of the escapes occurs there is nothing to rewrite |
| SchemaJson.RewritingKeepsMeaning | internal/cli/schema.go:316-362 | every string stands where it did and decodes to what it did (section 7 of RFC 8259), and no `&`, `<` or `>` is left escaped |
| SchemaJson.OnlyListedEscapesChange | internal/cli/schema.go:316-362 | unit by unit: a listed escape becomes the character it stands for, every other unit stays |
| SchemaJson.RewritingTwiceChangesNothing | internal/cli/schema.go:316-362 | rewriting a rewritten text changes nothing |
| InputJson.ScanSurrogates | internal/cli/json_input.go:105-128 | the scan looks at no byte outside any payload and reports an escape inside it |
| InputJson.ValidateInputJSONUnicode | internal/cli/json_input.go:101-129 | a payload passes exactly when it is UTF-8 and every high-surrogate escape in a string is followed at once by a low one and no low one stands alone |
| InputJson.AcceptsExactlyPaired | internal/cli/json_input.go:101-137 | the scan against the structure of the text, with escaped quotes and backslashes |
| InputJson.PairedNeedsNoRepair | internal/cli/json_input.go:99-100 | strings pass exactly when the decoder would replace nothing in them |
| Links.SplitLinkTail | internal/mail/content_links.go:87-112 | address and tail are the match, and the balances kept up to date give the address that counting afresh gives |
| Links.AddressIsLongest | internal/mail/content_links.go:85-112 | the address is the longest beginning that ends neither in punctuation nor in an unbalanced closing bracket |
| Links.ShortenLinks | internal/mail/content_links.go:46-83 | full mode returns the body; in the other modes the slices are in range and give the reduced body |
| Links.RemovingLinksOnlyRemoves | internal/mail/content_links.go:46-83 | without links the body is a subsequence of the original |
| Links.ShowingHostsIsNoLonger | internal/mail/content_links.go:51-71 | showing hosts for long links never makes a body longer |
| Links.NoBlankRunIsLeft | internal/mail/content_links.go:82-82 | no three line breaks in a row are left |
| LinkLaws.LinksAreFound | internal/mail/content_links.go:28-44 | what is matched are links, of a scheme and all link characters behind it, and every place where a link could start lies in a match |
| LinkLaws.HostModeIsLocal | internal/mail/content_links.go:46-83 | showing hosts puts each long link's host, in angle brackets, in place of its address and leaves all other text as it is, but for blank lines |
| LinkLaws.OnlyLinksGo | internal/mail/content_links.go:46-83 | without links, the addresses go to the last character and with them only brackets directly around them; every other character stays, but for blank lines |
| LinkLaws.OnlyBlankLinesCollapse | internal/mail/content_links.go:82-82 | a run of line breaks becomes at most two and everything around it is as it is alone |
| LinkLaws.CollapsesApart | internal/mail/content_links.go:82-82 | text cut anywhere but after a line break collapses part by part |
| DisplayWidth.DisplayWidthState.Next | internal/cli/table.go:138-164 | the width of one character and the state it leaves, as specified |
| DisplayWidth.WidthIsSubadditive | internal/cli/table.go:124-164 | texts written after one another are at least as wide as the first and at most as wide as both, despite joiners and flags |
| DisplayWidth.OrdinaryWidth | internal/cli/table.go:124-164 | ordinary characters take their own columns, one after the other |
| DisplayWidth.ClusterWidth | internal/cli/table.go:138-164 | a character joined to another and a skin tone take no column of their own |
| DisplayWidth.FlagWidth | internal/cli/table.go:138-164 | the two halves of a flag take two columns together |
| DisplayWidth.MeasureText | internal/cli/table.go:124-131 | the loop computes the width of the text |
| DisplayWidth.TruncateText | internal/cli/table.go:101-122 | a text that fits is kept, any other is its longest beginning that leaves room for the ellipsis, or a row of dots, and never wider than its non-negative width |
| DisplayWidth.FittedIsDetermined | internal/cli/table.go:101-122 | those conditions leave only one result |
| Table.ShrinkTableWidths | internal/cli/table.go:74-87 | shrinking terminates, keeps every column at its floor or above, shrinks only the widest and exactly as far as needed or possible |
| Table.WidestFirstIsDetermined | internal/cli/table.go:74-87 | those conditions and the total leave only one result |
| Table.FitTableWidths | internal/cli/table.go:52-72 | fitting succeeds exactly when the available space is at least the number of columns |
| Table.WriteTableRow | internal/cli/table.go:36-50 | a row is its cells, each cut and padded to its column, with the gaps between; it is no wider than its columns and gaps |
| Table.RowIsWhole | internal/cli/table.go:36-50 | a row whose cells fit has them whole, in order |
| Table.WriteTerminalTable | internal/cli/table.go:13-34 | a table is written exactly when every column can have one character: a line for the header and each row, in the widths that shrinking determines, none wider than the terminal, and nothing is cut when everything fits |

## Left out

- HTML parsing, tokenizing and rendering, and the claim of `stableDraftContentTree` about reparsing: library code; the models start from an arbitrary tree. What the parser guarantees of text nodes is the premise `ParsedF`.
- Head diagnostics and `findHTMLElement`: searches over the parsed document before the body is sanitized.
- Sibling links: a node holds its children as a sequence and its next sibling is found in it; the library keeps doubly linked siblings.
- The key under which a diagnostic is remembered: the triple itself instead of its printed form.
- Invalid UTF-8 in HTML, plain text, links and tables: texts there are sequences of scalar values; the byte-level parts model it.
- The writer's cancellation check and its counter: cancellation is modelled where nodes are visited.
- PlainTextRenderer.PlainTextHasEveryLetter: leaves out bars and backslashes, which table cells escape; `EscapingIsExact` says how.
- `redundantLinkTarget`, which parses the address: whether a label shows a target is a function of the two texts.
- Pruning and discarding of hand-off attempts, attachment file identity, modes and owners: operating-system plumbing around the same moves.
- Trimming of attempt ids given on the command line, request building and response fields of the hand-off command: single assignments.
- Timeouts, retries and the wall clock: a time is a fresh non-zero number, a deadline is a cancellation.
- Batch request validation, which gives every batch a worker and every item an id, and the calls of single items: an item's execution is one step with any result its operation allows.
- BatchBudget.Budget.AdmitResult: takes the sizes of the projected item and of the response as given, since building them is projection code.
- 64-bit overflow of byte counters: counters are unbounded; the limits of the source keep them far below.
- The binding file's bytes: a stored document is a value or unreadable, and whether it fits the size limit is a parameter.
- Directory identity, symbolic links, modes and temporary names in the binding store: each check is a step that may fail.
- `UpsertAccountBinding`, `ResolveAccountBinding` and transport host resolution: the same update with another function, and pure look-ups.
- SendSetup.Plan: leaves out the checks that only refuse a setup before it has a plan (provider support, address syntax, alias ownership) and the keychain.
- The mutation of the caller's binding slice by a merge: documents are values here.
- JSON syntax outside strings: the scanners are proved on every text with the lexical shape of JSON strings, which includes every JSON text.
- InputJson.ValidateInputJSONUnicode: the decoder's own syntax and schema checks, which follow the scan, are not modelled.
- URL parsing: whether an address has a host is a function of the address; that a host leaves out at least the scheme is the premise `HostIsPart`.
- The terminal's width and whether a writer is one: parameters.
- The updater, the keychain bridge, the native compose code, command tables and human-readable output.
