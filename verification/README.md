# Rkernel in Dafny

Rkernel embeds the R interpreter and serves an IDE over RPC. This project models its
self-contained algorithms and protocols and proves what they are for:

- **Argument matching** (`MatchArgs`, `MatchArgsLaws`, `MatchArgsOutcome`): the three in-place passes
  over formals and arguments against the rules of section 4.3.2 of the R Language Definition.
- **Task hand-off** (`EventLoop`, `EventLoopLaws`, `BlockingQueue`, `Handshake`): the pipe-and-queue
  event loop and the compare-and-swap handshake of a call, as interleaved atomic steps of any
  number of threads.
- **Source printing** (`StringUtil`, `SourceText`, `TextBuilder`, `SourceBlocks`, `SourceMap`,
  `SourceBuilder`): the printer, its line and column counters, and the ranges it records for the
  statements of every `{` block.
- **Reading the source back** (`SourceReader`, `SourceGrammar`, `PrintedTexts`, `SourceReaderLaws`,
  `SourceRoundTrip`): a reader of R source by operator precedence, written without the printer, and
  the proof that it recovers what was printed.
- **Plots** (`PlotGeometry`, `PlotLayout`, `PolylinePreview`, `CirclePreview`, `PlotCanvas`,
  `PlotParser`, `PlotLaws`, `PlotUtil`, `PlotLines`, `PlotViewports`, `PackPoint`): the parser of two
  recordings of one plot, the affine layout it infers, the two preview simplifications and the packed
  points.
- **Debugger** (`Breakpoints`, `BreakpointRuns`, `BreakpointFiring`, `Stepping`, `Debugger`,
  `BreakableLines`): the breakpoint index, when breakpoints fire and masters wake their slaves over
  whole runs, stepping over a changing stack, and the walk that leaves one breakable statement per line.
- **REPL state** (`Repl`), **object walk** (`GraphWalk`) and **byte-level code** (`Utf8Tail`, `Base64`).

Classes and methods mirror the imperative code; functions beside them say what it computes, and
lemmas say what that means. `dafny verify dfyconfig.toml` checks everything.

Some promises turned out to hold only under a condition, which is proved exact:

- A wake-up of the event loop can be lost, and queued work can start out of order, exactly when an
  immediate task may start a nested event loop (`WakeUpGuarantee`, `OrderGuarantee`). Ordinary
  queued work always keeps its wake-up.
- The cancellation of one call can interrupt the body of another exactly when bodies may nest
  (`InterruptsStayHome`); in a single run it takes an interrupt raised while another call is the
  running one (`LeaksComeFromAway`).
- Argument matching comes out as the language definition says except where an empty tagged argument
  such as `f(x=)` leaves its formal open. `OutcomesAgreeExactly` says when success and all matched
  lists are the same: the tags clash; or no formal before `...` is bound by an empty argument only; or
  without a `...` both reject the call; or the untagged arguments are not too many for the
  language's open formals, and those behind the open formals before the first such formal are all
  empty. `PoliciesDiffer` is a call on which the outcomes differ.
- The walk over statements leaves exactly the first one of every line without a flag if and only if
  it never comes back to a line after a later one (`OneStatementPerLine`). A right assignment of a
  block does come back (`RightAssignmentReturns`).
- A printed name is read back exactly unless it is empty or looks like a number, such as `.5`, which
  the printer leaves without quotes (`NamesReadBack`).
- The last status event announces the REPL's state whenever an event loop is idle, exactly unless
  code executed silently while the REPL was busy is left by a jump from one of its prompts
  (`MainLoop`, `ClientCanBeMisled`).

## Model

| member | source | states |
|---|---|---|
| MatchArgs.MatchArgs | src/RInternals/MatchArgs.cpp:25-214 | succeeds exactly when the three rules give a matching, and then returns it; otherwise the error names a genuine conflict or exactly the unused arguments |
| MatchArgs.Workspace.ExactPass | src/RInternals/MatchArgs.cpp:49-82 | the first pass binds exactly the pairs of rule 1, or reports a formal or argument matched twice |
| MatchArgs.Workspace.PartialPass | src/RInternals/MatchArgs.cpp:84-126 | the second pass adds exactly the pairs of rule 2 |
| MatchArgs.Workspace.PositionalPass | src/RInternals/MatchArgs.cpp:128-168 | the third pass hands the untagged arguments in order to the open formals before `...` |
| MatchArgsOutcome.OutcomesAgreeExactly | src/RInternals/MatchArgs.cpp:128-211 | for all formals and arguments: the kernel and the language definition accept the same calls with the same matched lists, `...` and missing flags included, if and only if nothing moves (`NothingMoves`) |
| MatchArgsOutcome.MatchingIsUnique | src/RInternals/MatchArgs.cpp:128-211 | under either policy there is exactly one matched list: every formal holds its rank's untagged argument or its tag's value |
| MatchArgsLaws.PoliciesAgree | src/RInternals/MatchArgs.cpp:140-158 | on the internal lists only: the formals filled by position are the same under both policies if and only if none of the kernel's is bound by a tag |
| MatchArgsLaws.KernelFollowsLanguage | src/RInternals/MatchArgs.cpp:25-214 | without empty tagged arguments the outcome is the one of the language definition, for all formals and arguments |
| MatchArgsLaws.PoliciesDiffer | src/RInternals/MatchArgs.cpp:142 | a call with an empty tagged argument on which the two differ |
| MatchArgsLaws.ArgumentsAreConserved | src/RInternals/MatchArgs.cpp:170-211 | under either policy every argument lands in exactly one formal, or in order and with its tag in `...`; the kernel may lose a tagged empty argument, and only when a positional one takes its formal |
| MatchArgsLaws.AfterDotsByNameOnly | src/RInternals/MatchArgs.cpp:84-126 | a formal after `...` is bound only by its whole name |
| MatchArgsLaws.ReorderingTagged | src/RInternals/MatchArgs.cpp:25-214 | reordering tagged arguments changes neither success nor any formal outside `...` |
| EventLoop.StepKeepsInv | src/EventLoopUnix.cpp:44-121 | every atomic step of any thread keeps the protocol's invariants |
| EventLoopLaws.BreakLeavesLoop | src/EventLoopUnix.cpp:78-101 | in every run, after a task the loop returns (the outermost one polls again) if and only if a break was asked for since the wait began and since a loop was last left; otherwise it goes on with the queue, and the frames below stay as they were |
| EventLoopLaws.PipeProtocol | src/EventLoopUnix.cpp:47-53 | in every run the pipe holds at most one byte, `pipeFilled` tells which whenever the mutex is free, and the handler never reads an empty pipe |
| EventLoopLaws.WakeUpGuarantee | src/EventLoopUnix.cpp:64-121 | a blocked main thread can miss queued work in some run if and only if immediate work may start a nested loop |
| EventLoopLaws.OrdinaryQueueIsSafe | src/EventLoopUnix.cpp:64-106 | even with nesting, a blocked main thread has a byte, or one about to be written, while the ordinary queue holds work |
| EventLoopLaws.TasksAreConserved | src/EventLoopUnix.cpp:83-121 | in every run each pushed closure is waiting, in hand or started, once; immediate ones start in push order |
| EventLoopLaws.OrderGuarantee | src/EventLoopUnix.cpp:83-98 | queued work can start out of push order if and only if immediate work may start a nested loop |
| BlockingQueue.Queue.Push | src/util/BlockingQueue.h:31-38 | adds the value behind all waiting ones |
| BlockingQueue.Queue.Poll | src/util/BlockingQueue.h:49-56 | takes the value that has waited longest, or nothing when none waits |
| Handshake.ReturnMeansDone | src/RPIServiceImpl.cpp:711-761 | a call returns only after its body ran exactly once and ended; the main thread never waits for `STATE_INTERRUPTED` |
| Handshake.InterruptingIsPrivate | src/RPIServiceImpl.cpp:752-757 | `STATE_INTERRUPTING` exists only while the RPC thread holds the mutex |
| Handshake.InterruptsStayHome | src/RPIServiceImpl.cpp:721-759 | an interrupt raised by one call can be pending in another one's body if and only if bodies may nest |
| Handshake.InterruptsAreAskedFor | src/RPIServiceImpl.cpp:746-757 | in every run a call is interrupted at most once, and only after its RPC thread saw that its client had cancelled it |
| Handshake.LookingAtCall | src/RPIServiceImpl.cpp:748-759 | in every run, a look at the state leads to an interrupt exactly when the call runs, its client has cancelled it and it was not interrupted before; it returns exactly when the call is done, and otherwise waits without the mutex |
| Handshake.FinishedCallsReturn | src/RPIServiceImpl.cpp:747-760 | from every state of a run in which the task has finished, the call returns by steps of its own thread alone |
| Handshake.LeaksComeFromAway | src/RPIServiceImpl.cpp:746-757 | a run in which that happens raised an interrupt while its call was not the running one, and one raised while another body runs is seen there at once |
| StringUtil.Escape | src/util/StringUtil.h:36-73 | the escaped form of a string, character by character |
| StringUtil.EscapeInverts | src/util/StringUtil.h:36-73 | unescaping gives the string back, whatever follows it |
| StringUtil.EscapedIsOneLine | src/util/StringUtil.h:36-73 | no line break survives escaping |
| StringUtil.QuoteIfNeeded | src/util/StringUtil.h:118-135 | a name is quoted exactly when it is reserved or has a character that names may not have there |
| StringUtil.QuotedIsOneLine | src/util/StringUtil.h:118-135 | a printed name has no line break |
| SourceText.CutIsExact | src/RStuff/RUtil.h:281-297 | cutting the range between any two offsets out of a text's lines gives exactly the text between them |
| TextBuilder.EmitAppends | src/debugger/TextBuilder.cpp:59-431 | printing appends a text that depends on expression and indentation only |
| SourceBlocks.EveryBlockIsRecorded | src/debugger/TextBuilder.cpp:103-119 | for every tree, the recorded blocks are exactly the `{` calls that the printer reaches, each once and after the blocks inside it |
| SourceMap.PrintedRecordsOk | src/debugger/TextBuilder.cpp:103-119 | for every tree, each statement span recorded for a block holds what the statement prints, in order and without overlap |
| SourceMap.RecordGivesRanges | src/debugger/TextBuilder.cpp:450-470 | spans turned into lines and columns cut the same texts, and a block's ranges are in order |
| SourceBuilder.Builder.Write | src/debugger/TextBuilder.cpp:63-64 | appending keeps the counters at the end of the text and all earlier ranges right |
| SourceBuilder.Builder.NewLine | src/debugger/TextBuilder.cpp:437-444 | a new line with its indentation does the same |
| SourceBuilder.Builder.CurrentPosition | src/debugger/TextBuilder.cpp:446-448 | the position is the number of characters after the last line break |
| SourceBuilder.Builder.Build | src/debugger/TextBuilder.cpp:59-367 | `build` prints what the printer's definition says and records the ranges of every block |
| SourceBuilder.Builder.BuildBlock | src/debugger/TextBuilder.cpp:103-119 | the `{` case: one srcref for the brace and one for every statement, at the places where they were printed |
| SourceBuilder.Builder.BuildFunctionHeader | src/debugger/TextBuilder.cpp:369-386 | formals with their defaults |
| SourceBuilder.PrintWithSrcrefs | src/debugger/TextBuilder.cpp:433-482 | for every object, the text reads back as the source of the object where R's grammar has it (`IsSource`), every printed block has its entry, each recorded range cuts exactly its statement out of the final text, one range per statement, ordered and disjoint, and the whole-text range cuts all of it |
| SourceRoundTrip.PrintedReadsBack | src/debugger/TextBuilder.cpp:59-386 | every object whose source stands in R's grammar with its operators under the precedences of R, printed at any indentation in front of any separator, is read back as that source, and nothing behind it is read |
| SourceRoundTrip.PrintedMeansSource | src/debugger/TextBuilder.cpp:433-436 | a whole printed text stands for the source of what was printed |
| SourceRoundTrip.SourcePrints | src/debugger/TextBuilder.cpp:59-405 | every list, vector and closure is printed as the call of `list`, `c`, `function` and so on that makes it |
| SourceRoundTrip.NoParenthesesAdded | src/debugger/TextBuilder.cpp:143-150 | a product whose factor is a sum without parentheses prints like another expression, so the precedences are needed |
| SourceRoundTrip.NamesReadBack | src/util/StringUtil.h:118-135 | a printed name is read back exactly unless it is empty or looks like a number |
| SourceReaderLaws.ExprReads | src/debugger/TextBuilder.cpp:120-206 | for every source expression and every text that may follow it, reading in front of that text arrives at the operators behind the expression: keyword forms, unary and binary operators, calls, indexing, blocks |
| SourceReaderLaws.ItemListReads | src/debugger/TextBuilder.cpp:150-163 | named, unnamed and missing arguments come back in order, up to the closing bracket |
| SourceReaderLaws.FormalsReadBack | src/debugger/TextBuilder.cpp:369-386 | so do formals with and without defaults |
| PlotLayout.SecondIsExact | src/graphics/PlotUtil.cpp:130-138 | a coordinate or radius comes back at the second side if and only if the sides differ or it did not move |
| PlotLayout.PointIsExact | src/graphics/PlotUtil.cpp:130-149 | an extrapolated point comes back at the first size always, at the second size if and only if it is determined there |
| PlotLayout.FirstAreasAreExact | src/graphics/PlotUtil.cpp:492-502 | down a chain of free viewports the first size gives back every recorded area |
| PlotLayout.SecondAreasAreExact | src/graphics/PlotUtil.cpp:492-502 | all areas of a chain come back at the second size if and only if all their corners are determined |
| PlotLayout.LayoutIsExact | src/graphics/PlotUtil.cpp:498-502 | the same for a point in a viewport |
| PolylinePreview.DistanceIsLeast | src/graphics/PlotUtil.cpp:57-81 | the distance formula bounds the distance to every point of the line |
| PolylinePreview.DistanceIsAttained | src/graphics/PlotUtil.cpp:57-81 | and is the distance to one of them |
| PolylinePreview.BuildPreviewMask | src/graphics/PlotUtil.cpp:524-533 | the mask and count of a polyline |
| PolylinePreview.MaskBetween | src/graphics/PlotUtil.cpp:535-560 | the recursion masks exactly the points that are not kept, and returns how many are |
| PolylinePreview.KeptIsFaithful | src/graphics/PlotUtil.cpp:535-560 | kept points run from the first to the last, and what lies between two of them is near the line through them |
| PolylinePreview.PreviewIsFaithful | src/graphics/PlotUtil.cpp:524-560 | end points stay, the count is that of the unmasked points, every masked point is near the line through the visible points around it |
| CirclePreview.ThinCell | src/graphics/PlotUtil.cpp:300-315 | a circle of a cell is masked if and only if a later visible one is closer than the threshold |
| CirclePreview.CellsPartition | src/graphics/PlotUtil.cpp:285-294 | every circle falls in its own cell only, once and in order |
| CirclePreview.CellsCoverOnce | src/graphics/PlotUtil.cpp:279-298 | the cells that are thinned cover every circle exactly once |
| CirclePreview.BuildPreviewMask | src/graphics/PlotUtil.cpp:279-298 | over all cells, a circle is masked exactly when a later visible circle of its cell is too close |
| CirclePreview.VisibleKeepDistance | src/graphics/PlotUtil.cpp:300-315 | visible circles of a cell keep their distance, and its last one is visible |
| PlotCanvas.ClippingMovesAlongLine | src/graphics/PlotUtil.cpp:343-389 | an end outside the area moves along the line to the nearest point where it meets the border, other ends stay |
| PlotCanvas.ParentIsSmallest | src/graphics/PlotUtil.cpp:644-658 | the parent is a smallest registered area around the rectangle |
| PlotParser.DifferentialParser.constructor | src/graphics/PlotUtil.cpp:852-864 | the initial tables: page areas, full-screen viewport, black, white and the default font |
| PlotParser.DifferentialParser.UseColor | src/graphics/PlotUtil.cpp:696-708 | a colour gets the index it has or the next one, and the table stays the inverse of the palette |
| PlotParser.DifferentialParser.Flush | src/graphics/PlotUtil.cpp:615-626 | the current figures become a layer, in axis text a candidate with its line; no figure changes and the lists stay parallel |
| PlotParser.DifferentialParser.SwitchForOther | src/graphics/PlotUtil.cpp:213-220 | the state after other actions; no figure changes |
| PlotParser.DifferentialParser.SwitchForLine | src/graphics/PlotUtil.cpp:326-333 | a line outside all clips starts an axis and is remembered, one inside ends it; no figure changes |
| PlotParser.DifferentialParser.SwitchForText | src/graphics/PlotUtil.cpp:459-465 | a text outside all clips after axis lines starts axis text, one inside ends it; no figure changes |
| PlotParser.DifferentialParser.ExtrapolateRectangle | src/graphics/PlotUtil.cpp:440-457 | the rectangle's image; an opaque one over the whole page removes all figures before it |
| PlotParser.DifferentialParser.ExtrapolateCircles | src/graphics/PlotUtil.cpp:258-277 | look-ahead over a run of circles draws them one by one with the mask of the whole run, or fails as drawing would |
| PlotParser.DifferentialParser.UseArea | src/graphics/PlotUtil.cpp:687-694 | an area is found or registered with its viewport, the three lists growing together |
| PlotParser.DifferentialParser.Clip | src/graphics/PlotUtil.cpp:872-877 | a clip moves to the area and the suggested viewport and changes no figure |
| PlotParser.DifferentialParser.MarkAxisTextLayers | src/graphics/PlotUtil.cpp:628-637 | a layer is marked exactly when it is a candidate whose line starts on the border of an area |
| PlotParser.DifferentialParser.Parse | src/graphics/PlotUtil.cpp:866-884 | parsing fails exactly when drawing the actions one by one fails, with the same error; otherwise every action is consumed and all layers together hold what that leaves, with viewport and clipping area |
| PlotParser.DifferentialParser.BuildColors | src/graphics/PlotUtil.cpp:886-890 | the colours of the plot, each at its index |
| PlotLaws.PlotShowsImages | src/graphics/PlotUtil.cpp:449-454 | what is left are the images, in order, of all actions other than clips from the last one that covers the page |
| PlotLaws.DrawStaysSound | src/graphics/PlotUtil.cpp:644-716 | after any number of actions areas and viewports match, parents come first, figures name valid entries or -1, no colour is listed twice |
| PlotLaws.PlotNamesInk | src/graphics/PlotUtil.cpp:696-751 | in a finished plot every figure names the colours, stroke and font of its own action, and -1 exactly for transparent colours |
| PlotUtil.Extrapolate | src/graphics/PlotUtil.cpp:902-923 | the plot of two recordings: it carries an error exactly when drawing action by action fails, and is empty then; otherwise its layers show the figures from the last action that covers the page on, and every layer and figure index of it is valid |
| PlotLaws.PlotResizes | src/graphics/PlotUtil.cpp:498-522 | in a parsed plot every recorded point of a figure other than a line comes back at the first size, and at the second size if and only if it is determined |
| PlotLines.LinesResize | src/graphics/PlotUtil.cpp:326-389 | in a parsed plot the ends of a line are drawn, at the first size always and at the second if and only if determined, where they were recorded when they lie in the area or the line meets no side of it, and otherwise at the nearest point where the line meets a side |
| PlotLines.NewPagesFill | src/graphics/PlotUtil.cpp:391-394 | the rectangle of a new page fills its viewport at every size of the plot, and the page in the page's own viewport |
| PlotLines.PlotCarriesPreviews | src/graphics/PlotUtil.cpp:511-522 | every polyline of a parsed plot carries the preview of its own points, a path its winding rule and a circle the mask of its run |
| PlotViewports.ViewportsCameAbout | src/graphics/PlotUtil.cpp:644-694 | in every plot each viewport's parent is the first smallest area around it among those seen before, or the page; it is fixed exactly when it is centred between two sides of its parent and nothing else was in there, and then its ratio and offset fit both recordings |
| PlotViewports.ClipsMoveOn | src/graphics/PlotUtil.cpp:674-685 | a clip to the whole page goes on in the surrounding viewport when that one is fixed and else in the page's own, any other clip in the viewport of the requested area |
| PlotLaws.CirclesResize | src/graphics/PlotUtil.cpp:316-324 | so does the radius of a circle, with the height of its viewport |
| PackPoint.FixedPointPrecision | src/RPIServiceImpl.cpp:141-166 | unpacking is within one unit in range and saturates outside, for every format |
| PackPoint.FieldsComeBack | src/RPIServiceImpl.cpp:176-223 | a packed point fits in 64 bits, no field disturbs another one, and the mask comes back |
| PackPoint.CoordinatePrecision | src/RPIServiceImpl.cpp:168-180 | scales come back within 2^-13 and offsets within 2^-10, or the end of the range does |
| Breakpoints.ModifyStaysConsistent | src/debugger/RDebugger.cpp:73-105 | adding or changing keeps every breakpoint exactly once on its own line, and masters and slaves inverse; only the named one changes, as requested, and an unknown file changes nothing |
| Breakpoints.RemoveStaysConsistent | src/debugger/RDebugger.cpp:107-118 | removing does too, and frees exactly the slaves of the removed one |
| Breakpoints.RemoveEffect | src/debugger/RDebugger.cpp:107-118 | slaves of the removed breakpoint lose master, flag and hit; lists of slaves apart, nothing else changes |
| Breakpoints.MasterEffect | src/debugger/RDebugger.cpp:126-137 | a new master starts a new wait, the same one does not; lists of slaves apart, no other breakpoint changes |
| Breakpoints.HitEffect | src/debugger/RDebugger.cpp:302-305 | firing wakes exactly the breakpoints that have this one as master, and the breakpoint itself waits again unless it is left enabled |
| Breakpoints.MasterKeepsLinks | src/debugger/RDebugger.cpp:126-137 | a new master keeps masters and slaves inverse |
| Breakpoints.HitStaysConsistent | src/debugger/RDebugger.cpp:302-321 | firing, with removal after the hit, keeps both |
| BreakpointRuns.NextStaysConsistent | src/debugger/RDebugger.cpp:73-137 | every event of a run keeps index and links right |
| BreakpointRuns.FiresOncePerMaster | src/debugger/RDebugger.cpp:298-305 | in every run, between two firings of a slave that is not left enabled its unchanged master fires |
| BreakpointRuns.FiresAfterMaster | src/debugger/RDebugger.cpp:126-137 | a breakpoint that got a master does not fire before that master does |
| BreakpointRuns.OwnMasterNeverFires | src/debugger/RDebugger.cpp:298 | a breakpoint that was made its own master never fires |
| BreakpointFiring.FiresExactlyWhen | src/debugger/RDebugger.cpp:290-305 | in every run a breakpoint fires if and only if its line is reached with its condition true and no flag, it came there before all others that stand there, the last request to mute was none or to unmute, its last settings are enabled, and its master, if any, has fired since the wait began |
| BreakpointFiring.AloneItFires | src/debugger/RDebugger.cpp:298-305 | an enabled breakpoint without master, alone on its line, fires whenever it is reached unmuted with its condition true |
| BreakpointFiring.IsAsSet | src/debugger/RDebugger.cpp:73-105 | in every run a breakpoint has the place and settings of the last request for it, while nothing has removed it |
| BreakpointFiring.AwakeMeansWoken | src/debugger/RDebugger.cpp:302-305 | in every run a slave is awake if and only if its master has fired since it became the master and the slave has not fired since, unless it is left enabled |
| BreakpointFiring.OrderMeansTime | src/debugger/RDebugger.cpp:73-105 | in every run breakpoints stand on a line in the order in which they came there |
| Stepping.CollectStops | src/debugger/RDebugger.cpp:139-156 | the recorded depth of an environment is that of the innermost call using it, the current one left out for stepping out |
| Stepping.GetCurrentCallContext | src/RStuff/RUtil.h:417-423 | the innermost call context |
| Stepping.StaysInFrame | src/debugger/RDebugger.cpp:276-285 | for every later stack on which the starting call is live, the step test holds only in that call itself, and only for stepping over |
| Stepping.StopsInCallers | src/debugger/RDebugger.cpp:276-285 | it holds in every original caller that the stack returns to |
| Debugger.RDebugger.AddOrModifyBreakpoint | src/debugger/RDebugger.cpp:73-105 | the new table, for known and unknown files and ids |
| Debugger.RDebugger.RemoveBreakpointById | src/debugger/RDebugger.cpp:107-118 | the table without the breakpoint, all its slaves freed |
| Debugger.RDebugger.SetMasterBreakpoint | src/debugger/RDebugger.cpp:126-137 | the links after the change of master |
| Debugger.RDebugger.DebugSetMasterBreakpoint | src/debugger/DebuggerMethods.cpp:32-46 | a request naming unknown breakpoints is ignored or clears the master |
| Debugger.RDebugger.SetCommand | src/debugger/RDebugger.cpp:139-156 | the command, and for stepping over and out the contexts to stop in |
| Debugger.RDebugger.StepTest | src/debugger/RDebugger.cpp:278-284 | the test that `StaysInFrame` and `StopsInCallers` are about, in the given or the current call |
| Debugger.CommandsAskFor | src/debugger/RDebugger.cpp:256-289 | stepping into stops everywhere, stepping into the user's code in files that are not generated, running to a position on its line only |
| Debugger.RDebugger.DoStep | src/debugger/RDebugger.cpp:254-326 | whether the debugger suspends, which breakpoint fires and what firing changes |
| Debugger.RDebugger.StepFrom | src/debugger/RDebugger.cpp:139-326 | from a stepping command to any later statement: while the starting call is live the debugger suspends exactly when stepping over and back in it, or for a suspending breakpoint or a forced stop; in an original caller it always does |
| BreakableLines.PreprocessSrcrefs | src/debugger/SourceFileManager.cpp:183-238 | the flags after one walk are those of the statements it visits, in order; for new srcrefs exactly the first statement of every line is without one if and only if the walk never returns |
| BreakableLines.OneStatementPerLine | src/debugger/SourceFileManager.cpp:202-208 | for every tree with new srcrefs, exactly the first visited statement of every line stays without a flag if and only if the walk never returns to a line after a later one |
| BreakableLines.FlagsAre | src/debugger/SourceFileManager.cpp:205-208 | a srcref has a flag if and only if it was visited on the last line seen until then |
| BreakableLines.RightAssignmentReturns | src/debugger/SourceFileManager.cpp:223-230 | a tree whose walk returns to a line, so that two statements of that line stay without a flag |
| BreakableLines.IncreasingNeverReturns | src/debugger/SourceFileManager.cpp:202-208 | which is so when start lines never decrease |
| BreakableLines.WalkVisitsAll | src/debugger/SourceFileManager.cpp:188-231 | a walk over new code visits exactly the statements with a srcref of the blocks outside function definitions |
| BreakableLines.ProcessedAreCovered | src/debugger/SourceFileManager.cpp:189-222 | whatever was processed before: a block that a walk processes is part of the code, all its statements are visited, and nothing is left to process in them |
| BreakableLines.SecondWalkChangesNothing | src/debugger/SourceFileManager.cpp:188-193 | a second walk visits and flags nothing |
| Repl.Service.ExecuteCode | src/ExecuteCode.cpp:60-155 | a jump to the top level ends here; afterwards the state is as before, a REPL command leaves the client's view right exactly when it came at a prompt or debug prompt, and silent code exactly when no jump left one of its prompts |
| Repl.Service.ReadLineHandler | src/ExecuteCode.cpp:157-167 | asking for a line, with any nested work, keeps the state, and the view unless a jump leaves it |
| Repl.Service.DebugPromptHandler | src/ExecuteCode.cpp:169-178 | so does a debug prompt |
| Repl.Service.SubprocessHandler | src/Subprocess.cpp:138-164 | so does waiting for a subprocess |
| Repl.Service.RunEventLoop | src/RPIServiceImpl.cpp:738-740 | a loop keeps the state, and is left by a jump exactly when a task that does not end jumps raises one |
| Repl.Service.MainLoop | src/RPIServiceImpl.cpp:677-701 | for any number of rounds: the last status event announces the state whenever any event loop is idle, at any nesting depth, if and only if no silent code is left by a jump from a prompt; the state after each round is the prompt's |
| Repl.ClientCanBeMisled | src/ExecuteCode.cpp:157-167 | a polite run in which the client keeps a prompt that is gone |
| Repl.PromptsOnlyWhenBusy | src/ExecuteCode.cpp:157-178 | a loop in any state but busy is never left from a prompt |
| GraphWalk.SuccessorsAreFields | src/RStuff/RUtil.h:313-394 | what is looked at after an object are exactly its fields |
| GraphWalk.Walker.Walk | src/RStuff/RUtil.h:313-394 | ends on cyclic heaps; adds only what can be reached, each once, with all its successors |
| GraphWalk.WalkObjects | src/RStuff/RUtil.h:396-403 | the function is called exactly once on every object reachable through visitable objects, and on nothing else |
| Utf8Tail.FixUtf8Tail | src/util/StringUtil.h:139-154 | where the string is cut |
| Utf8Tail.Trim | src/RLoader.cpp:28-33 | short strings stay whole, longer ones are cut at the limit and repaired |
| Utf8Tail.TrimKeepsWholeCharacters | src/RLoader.cpp:28-33 | for every valid UTF-8 text and limit, trimming leaves the longest prefix of whole characters within the limit |
| Base64.Encode | src/base64/base64.cpp:62-102 | the encoded form, across the carried group and the partial last one |
| Base64.Decode | src/base64/base64.cpp:104-139 | the bytes of the base64 characters before the first other one |
| Base64.EncodedLength | src/base64/base64.cpp:62-102 | the length is four times the number of groups of three, rounded up |
| Base64.EncodedIsPadded | src/base64/base64.cpp:82-98 | base64 characters, then only padding |
| Base64.AlphabetIs | src/base64/base64.cpp:52-55 | the characters of the sextets are those of the table in RFC 4648, in order |
| Base64.DecodeInvertsEncode | src/base64/base64.cpp:62-139 | decoding gives every byte string back |

## Left out

- gRPC and protobuf messages, crash reports, signal handlers, logging and the contents of messages: foreign calls only.
- R's evaluator, garbage collector and C long jumps. Code is an abstract tree or script, environments and objects are numbers, and work handed to the event loop does not unwind; only `Repl` has jumps to the top level, and they unwind C++ frames as R does from version 3.5 on.
- The shutdown path (`terminateProceed`), the `later` hook and input handlers other than the pipe's: other activity of the event loop is one step that changes nothing.
- The Windows event loop and subprocess files: same shape with another wake-up.
- Doubles are reals and colours are integers in their 32-bit range: rounding, infinities and NaN are not modelled. Distances are compared squared. A fixed-ratio viewport recorded twice with one width has no ratio.
- CirclePreview.GridIndex: an area without width or height has one row or column; the C++ conversion is undefined there.
- PlotParser.DifferentialParser.Parse: requires a second polyline of at least two points where the first one has exactly two, as the code reads both.
- PlotLaws.PlotResizes: radii are in `CirclesResize`, lines in `LinesResize` and new pages in `NewPagesFill`. Viewports of fixed ratio lose their position and are left out of the layout claims; what makes them fixed is in `ViewportsCameAbout`.
- PlotUtil.Extrapolate: without `calculatePreviewComplexity`, `totalComplexity`, font matching and the plots for devices that fail or record too much.
- SourceRoundTrip.PrintedReadsBack: constants are read as words, so what the printer does not write down does not come back: an integer prints like the double of the same value, and negative, infinite or exponent-form numbers are no single words. Environments and other objects that print as a fixed word, primitives and `functionReplacement` words are not read. R reads `a -> b` as an assignment to `b`, so a call of `->` is not its own source. Arguments and conditions are read without a bare `=`, as in R. `IsSource` is enough for reading back; which other trees happen to read back is not said.
- EventLoopLaws.BreakLeavesLoop: the string that a break hands to the caller (`breakEventLoopValue`) is not modelled.
- `TextBuilder::addText`: a comment printed before `build` moves the line count but not `currentLineStart`, so first-line columns after it are outside the source map.
- Numbers, complex numbers and raw bytes are given as formatted words without line breaks; the printer's `functionReplacement` words likewise.
- Breakpoint conditions, evaluate-and-log, hit messages and stack printing: a condition is an arbitrary boolean given to each step.
- Breakpoints are named by their ids instead of pointers and kept as values of a map, so aliasing is not modelled.
- Debugger.RDebugger.RemoveBreakpointById: the loop at src/debugger/RDebugger.cpp:112-114 ranges over a list that its body erases from; the model detaches every slave of a snapshot of the list.
- Handling of the debug prompt inside a step (`sendDebugPrompt`): the step reports that it suspends.
- `sendExtendedPositionFlag` of the statement walk, and srcref lists shorter than their block: a block holds the pairs that are visited.
- R frees and allocates while walking objects; the heap of `GraphWalk` is fixed, and the variables of the base environment are given.
- PackPoint.PackPoint: values beyond the 64-bit integer range saturate like all others; the C++ conversion is undefined there. Fields are joined by adding, which is the same as the bitwise or of disjoint bits.
- Base64 and UTF-8 bit operations are written as divisions and remainders.
