# Model of the desktop client's protocol cores

A model, in Dafny, of the parts of the desktop client (`apps/desktop/src`) that hold no user interface: the
bridge to a screen and its reader of half-written JSON, the live view of a chat, the printers and parsers that
undo each other, the fast forms that stand for a simple description, and the small machines that must come out
right however their events interleave. `dafny verify dfyconfig.toml` checks all of it.

## What is modelled

- **Half-written JSON** (`Basics`, `CodeUnits`, `Json`, `HalfWritten`, `Cuts`, `Truncation`, `Progress`, `Fields`, `JsonPrinter`, `JsonGrammar`).
  Texts are UTF-16 code units. `Json.Parse` is the grammar of RFC 8259, sections 2 to 7; `HalfWritten` is the reader's two
  loops; `Json.Truncates` says when one value is a truncation of another: strings cut to a prefix, arrays and
  objects cut to their leading entries with only the last of them truncated in turn, numbers, literals and names
  whole or not there. `Cuts.TextTo` says, from the grammar alone, what of a text stands before a place in it.
  A text closed at any place reads as just that, so what every prefix of every text reads as is known exactly; it
  lies between what stood before its last comma and what the whole text means.
- **The bridge to a screen** (`ScreenProtocol`, `ScreenAnswers`, `ScreenBridge`, `ScreenPages`). One function, `Next`, says what
  each event does to the bridge's variables and to the log of what was posted; the class updates the same variables in place and
  each of its methods is proved to do what `Next` says. What holds over every run is proved about `Next`.
- **The live view of a chat** (`Live`, `LiveLoops`, `LiveMessages`, `LiveSteps`, `LiveRecord`, `LiveIds`). `Live.Reduce` folds one frame
  into the view. Its cases that loop over local variables are methods in `LiveLoops`, each proved to compute what
  the fold uses.
- **Printers and parsers.** `MessageRequest` (file references inside a message), `MessageSize` (which
  messages are accepted), `OutputBlocks` (fenced blocks in
  a reply), `Slides`, `SlideDecks`, `LooseText` and `SlidePages` (a page of nested sections as a deck, and one slide as a page),
  `UnifiedDiff` (the line numbers beside a unified diff, as POSIX `diff -u` prints it).
- **Fast forms.** `Fuzzy` (the tightest run of a word's letters), `CodeCache` (the size-bounded cache of
  highlighted code), `ScreenConsent` (the bounded, expiring store of agreements against their whole history).
- **Small machines and budgets.** `OutputScope` and `OutputOrder` (the versions of an output, and which is open
  beside the chat), `LiveCall` (a reply that
  may come before the id of its request is known), `DeckRead` (unpacking a presentation and keeping its slides
  within their budgets).

Classes carry the variables of the source's closures and modules; ghost fields (`log`, `recent`, `history`, `kept`)
record what happened. A class method's contract gives the whole new state as a function of the old one, and the
lemmas are about that function.

## Where the code does less than it seems to promise

Each of these is a lemma with a concrete case or an exact condition; the model keeps the code's behaviour.

- A request from a screen for a method that every object inherits, such as `toString`, takes one of the 32 slots,
  is never answered and never gives the slot back (`ScreenProtocol.RequestFate`, `LostForGood`, `ToStringIsLost`).
  The handler table is a plain object, so looking such a name up finds a function that returns no promise.
- A call whose chat exits just before listening is confirmed goes on listening for good
  (`LiveCall.StillListening`, `ExitLeavesListening`): it is settled by the exit, and listening that is confirmed
  only after that is called off by nothing.
- A removed line that starts with `-- ` and an added line that starts with `++ ` are shown as headers, and every
  number after them in the hunk is off (`UnifiedDiff.DiffIsRight`, `RemovedCommentIsMisread`).
- Two code blocks can share a cache key when one language name is the other followed by a NUL, and then the
  second is shown the first's html (`CodeCache.NamesShareKeys`, `NulConfuses`).
- Files come back out of a message only when each has a path; otherwise nothing is taken out
  (`MessageRequest.FilesComeBack`).
- A message sent without files whose text itself ends in such a block has files taken out of it
  (`MessageRequest.PlainMessageStays`, `PastedFilesAreShown`).
- A slide's page does not read back as that slide when the head or what the deck keeps outside its sections holds
  the end of a body, or when the latter opens a section: a section inside a comment can tear a tag in two that
  the page then puts together (`SlidePages.SlideReadsAlone`, `TornSlideIsLost`, `HeaderSlideIsLost`).
- A version the person picked is replaced when the later one drops out of the list and comes back
  (`OutputScope.PickedStays`, `PickIsReplaced`), and is not returned to when it drops out itself
  (`DroppedIsLost`, `DroppedForGood`).
- A request of one page that is still being worked on when the next page begins is answered to that next page,
  under an id it may use itself (`ScreenPages.AnswersAcrossPages`, `LateAnswer`).
- What is shown of half-written JSON can go away again: an object that has just opened does while its first name
  is written (`Fields.FirstNameHidesObject`), and a string does while a long escape is written (`Progress.EscapeHidesString`);
  where neither is being written it only grows (`Progress.ReadGrows`).
- With a name repeated in an object, a prefix can read as an earlier value of that name, which need be no
  truncation of the last (`Fields.FieldsComeRight`, `RepeatedNameReadsEarlier`).

## Model

| member | source | states |
|---|---|---|
| HalfWritten.Closing | apps/desktop/src/outputBridge.ts:73-88 | The loop returns exactly the closers of what is still open at the end of the text, innermost first, with the quote of an open string |
| HalfWritten.HalfWritten | apps/desktop/src/outputBridge.ts:32-70 | The saved closers are those of the prefix of length `whole`, the comma back-off ends, and the result is the first cut that parses, or nothing |
| Cuts.CompletionReads | apps/desktop/src/outputBridge.ts:62-88 | For every JSON text and every place that splits no number or literal: closed there it parses as exactly what stands before the place, and fails to parse exactly when the place is in a name or splits an escape |
| Truncation.PrefixReads | apps/desktop/src/outputBridge.ts:27-70 | For every JSON text and every prefix, exactly what is read: what stands before the last place where the prefix is whole or, when that is in a name or splits an escape, before the last comma that does neither; nothing when there is none |
| Truncation.PrefixReadsAsTruncation | apps/desktop/src/outputBridge.ts:27-70 | For every JSON text and every prefix of it: what is read, if anything, is a truncation of what the whole text means, objects taken as their members in the order written |
| Truncation.CompleteReadsExactly | apps/desktop/src/outputBridge.ts:36-64 | A complete array or object is read as exactly its value |
| Truncation.CompletionBalances | apps/desktop/src/outputBridge.ts:72-88 | A completed cut that does not end in a dangling escape leaves nothing open and ends outside any string |
| Truncation.WholeAtEnd | apps/desktop/src/outputBridge.ts:55-60 | The last place a complete array or object can be cut is its own end, with nothing open there |
| Cuts.CompletedInPrefix | apps/desktop/src/outputBridge.ts:62-64 | Completing a cut depends only on the text before it, so later pieces never change an earlier completion |
| Progress.CommaReads | apps/desktop/src/outputBridge.ts:62-70 | For every JSON text, the text before any comma between items completes to a JSON text, which means what stands before the comma |
| Progress.PrefixReadsUpToComma | apps/desktop/src/outputBridge.ts:62-70 | Once a comma between items stands before the last whole place, something is read; it holds at least what stood before the comma and is a truncation of the whole |
| Progress.StringIsShown | apps/desktop/src/outputBridge.ts:43-70 | Cut anywhere inside any string that is a value, but where an escape or a surrogate pair is split, every text reads as all that stands before the cut, and what comes last there is the string so far |
| Progress.BracketIsRead | apps/desktop/src/outputBridge.ts:55-64 | Right after any bracket outside strings all that stands is read |
| Progress.WholeIsRead | apps/desktop/src/outputBridge.ts:62-64 | What a last whole place gives goes on being read until there is another one |
| Progress.EscapeHidesString | apps/desktop/src/outputBridge.ts:52-70 | The concrete case: an array of one string is shown before a long escape in it, and nothing while that is written |
| Progress.ReadGrows | apps/desktop/src/outputBridge.ts:62-70 | Where the last whole place is neither in a name nor in an escape, nothing read before is lost |
| Fields.FieldsComeRight | apps/desktop/src/outputBridge.ts:27-70 | Under a name of the object that holds any unit but high surrogates, every prefix reads a truncation of what the whole text means there, if and only if each value of that name truncates the last one |
| Fields.CoveredReadsRight | apps/desktop/src/outputBridge.ts:27-70 | Under any name whose values all truncate the last one, every prefix reads a truncation of it |
| Fields.MembersAreRead | apps/desktop/src/outputBridge.ts:62-70 | Before every later member with such a name there is a prefix that reads as exactly the members before it |
| Fields.EarlierIsRead | apps/desktop/src/outputBridge.ts:62-70 | So some prefix has an earlier value of a repeated name, whenever such a name comes after it and no later than the next of its own |
| Fields.RepeatedNameReadsEarlier | apps/desktop/src/outputBridge.ts:62-70 | The concrete run: `{"a":true,"a":null}` cut after 12 units reads as the object with `true` under `a`, which is no truncation of null |
| Fields.FirstNameHidesObject | apps/desktop/src/outputBridge.ts:62-70 | The concrete case: after one unit `{"a":...` reads as an empty object, after three as nothing |
| Fields.PrefixReadsFields | apps/desktop/src/outputBridge.ts:27-70 | For every text in which no object repeats a name: the object read has, under each of its names, a truncation of what the whole text means there, and repeats no name either |
| Fields.TruncatesTwice | apps/desktop/src/outputBridge.ts:27-31 | A truncation of a truncation is a truncation |
| JsonPrinter.PrintParse | apps/desktop/src/messageRequest.ts:34-34 | `JSON.parse` of `JSON.stringify` is the same value, for every printable value: any code unit, lone surrogates, nesting, repeated names |
| JsonGrammar.NumbersAreNumerals | apps/desktop/src/messageRequest.ts:16-16 | What `JSON.parse` takes for a number is a sign, digits without a leading zero, a fraction and an exponent, and nothing else (RFC 8259, section 6) |
| JsonGrammar.HexDigitsAre | apps/desktop/src/messageRequest.ts:16-16 | The hexadecimal digits mean the same in both spellings |
| JsonGrammar.EscapesAre | apps/desktop/src/messageRequest.ts:16-16 | What each escape means: the eight short ones and the four hexadecimal digits; no other is read (RFC 8259, section 7) |
| MessageRequest.MarkerIsLast | apps/desktop/src/messageRequest.ts:12-16 | The marker found from the end is the one that was put there, whatever the message itself holds |
| MessageRequest.FilesComeBack | apps/desktop/src/messageRequest.ts:12-43 | For every text and every request that is accepted: the text and its files come back exactly, if and only if each file has a path; otherwise the message is left as it is |
| MessageRequest.PlainMessageStays | apps/desktop/src/messageRequest.ts:12-24 | A message sent without files is shown as it was typed, with none, if and only if it does not itself end in a block of files that reads |
| MessageRequest.PastedFilesAreShown | apps/desktop/src/messageRequest.ts:12-43 | The block of another accepted message typed at the end of one without files is taken out, and its files are shown |
| MessageSize.SizeIsEncoded | apps/desktop/src/messageRequest.ts:39-39 | The size counted is the length of the UTF-8 encoding, which gives back every code point |
| MessageSize.SizeSum | apps/desktop/src/messageRequest.ts:39-39 | Sizes add up, unless a surrogate pair is split, which can only make the parts larger |
| MessageSize.EachInItsPlace | apps/desktop/src/messageRequest.ts:27-28 | Every attachment is either one of the images or one of the files, in its order among its own kind |
| MessageSize.AcceptedExactly | apps/desktop/src/messageRequest.ts:26-43 | A message is accepted if and only if it has at most four images and sixteen attachments and its call takes, with 128 bytes, at most 16 MiB in UTF-8; sent are its text with the files in it and its images |
| MessageSize.SmallEnoughIsSent | apps/desktop/src/messageRequest.ts:38-42 | A bound a caller can check: six bytes for each unit of text and images, thirty-six for each of a file, which is printed twice, and a fixed amount for each attachment and the call |
| MessageSize.TextIsSent | apps/desktop/src/messageRequest.ts:38-42 | Any text of two million units is accepted and sent as it was typed |
| ScreenProtocol.RunOrderly | apps/desktop/src/outputBridge.ts:116-142 | Over every run, for the page since its last `ui/initialize`: nothing is told before the grace timer; pieces only before the one whole input, the one result only after it; a listening page has been told all that is known |
| ScreenProtocol.ToldIsFed | apps/desktop/src/outputBridge.ts:129-142 | What a step tells the page is the input, piece or result the host was fed, and no earlier post is taken back |
| ScreenProtocol.RunAccounted | apps/desktop/src/outputBridge.ts:143-150 | Over every run: the slots taken are the works not finished and the requests lost, at most 32; every other request has exactly one answer while the screen is open, and none has two |
| ScreenProtocol.RequestFate | apps/desktop/src/outputBridge.ts:209-213 | A request is never answered exactly when its method is an inherited property and a slot is free; it is worked on exactly when it has a handler and a slot; otherwise it is answered at once |
| ScreenProtocol.LostForGood | apps/desktop/src/outputBridge.ts:143-150 | What is lost stays lost after every event: no answer comes and the slot is not given back |
| ScreenProtocol.ToStringIsLost | apps/desktop/src/outputBridge.ts:209-213 | The concrete case: asking for `toString` posts nothing and takes a slot |
| ScreenProtocol.FinishAnswers | apps/desktop/src/outputBridge.ts:143-150 | A work that ends while the screen is open posts one answer under the request's own id and frees its slot: what a tool or a page came to as it is, an empty object for nothing or null and for a link or a message, error -32000 with at most 4000 units of the reason otherwise |
| ScreenAnswers.ToolIsCalled | apps/desktop/src/outputBridge.ts:167-170 | A `tools/call` with a free slot has the host call the named tool with its arguments, an object or none; without a name it is refused |
| ScreenAnswers.PageIsRead | apps/desktop/src/outputBridge.ts:171-174 | A `resources/read` has the host read the page at the uri, and is refused without one |
| ScreenAnswers.LinkIsOpened | apps/desktop/src/outputBridge.ts:175-179 | A `ui/open-link` has the host open the url if and only if it begins with http:// or https:// in any case |
| ScreenAnswers.MessageIsSaid | apps/desktop/src/outputBridge.ts:180-184 | A `ui/message` has the host say at most 4000 units of the text, and is refused when that is missing or all white space |
| ScreenAnswers.PageIsGreeted | apps/desktop/src/outputBridge.ts:153-165 | A `ui/initialize` is answered with the protocol version and the context, and the page is taken to have been told nothing |
| ScreenAnswers.PingIsAnswered | apps/desktop/src/outputBridge.ts:166-166 | A `ping` is answered with an empty object |
| ScreenAnswers.ModeIsTold | apps/desktop/src/outputBridge.ts:185-185 | A `ui/request-display-mode` is answered with the mode of the context, or `inline` |
| ScreenAnswers.RefusedAtOnce | apps/desktop/src/outputBridge.ts:144-144 | A method nobody handles is refused with -32601 at once, and a request beyond 32 slots with -32000 |
| ScreenAnswers.NoCallIsIgnored | apps/desktop/src/outputBridge.ts:191-212 | What is no JSON-RPC 2.0 call, or comes after closing, changes nothing |
| ScreenAnswers.ReadyPageIsTold | apps/desktop/src/outputBridge.ts:196-202 | A page that says it is ready is told nothing until the timer fires, and then exactly what is known: the input, whole once it or a result is known, and then the result |
| ScreenAnswers.FedIsTold | apps/desktop/src/outputBridge.ts:126-142 | What is fed to a listening page is told at once, exactly as far as it was not |
| ScreenAnswers.ChangeIsTold | apps/desktop/src/outputBridge.ts:221-230 | A listening page, and no other, is told of a change of context; a ready one is asked to finish up on closing |
| ScreenAnswers.WorkKept | apps/desktop/src/outputBridge.ts:143-150 | Over every run that does not end it, what is being worked on stays as it began |
| ScreenAnswers.ToolResultArrives | apps/desktop/src/outputBridge.ts:143-170 | From the call to its answer: whatever happens in between, what a tool the page called has found is posted as it is under the id of the call |
| ScreenProtocol.QuietAfterClose | apps/desktop/src/outputBridge.ts:191-230 | After `close` no event posts a notification or an answer; closing again can only repeat the request to finish up |
| ScreenPages.AnswersAcrossPages | apps/desktop/src/outputBridge.ts:153-165 | Over every run, while the screen is open: a page is posted the answer to a request of a page before it if and only if that request was being worked on as the page began and has ended since; after closing no further one |
| ScreenPages.LateAnswer | apps/desktop/src/outputBridge.ts:146-165 | Any work that is open when a page begins, and ends next, posts its answer to the new page under the id it came with |
| ScreenBridge.Bridge.constructor | apps/desktop/src/outputBridge.ts:116-124 | A new bridge has told nothing and has nothing to answer |
| ScreenBridge.Bridge.Notify | apps/desktop/src/outputBridge.ts:125-125 | Posts unless closed |
| ScreenBridge.Bridge.Tell | apps/desktop/src/outputBridge.ts:129-142 | Tells what `ScreenProtocol.Tell` says, updating `told` in place |
| ScreenBridge.Bridge.Answer | apps/desktop/src/outputBridge.ts:143-150 | Takes a slot and begins the handler's work, refuses when 32 are taken, or loses the request, as `ScreenProtocol.Request` says |
| ScreenBridge.Bridge.Receive | apps/desktop/src/outputBridge.ts:190-214 | One message from the frame does what `Next` says of it |
| ScreenBridge.Bridge.TimerFires | apps/desktop/src/outputBridge.ts:199-202 | The grace timer starts listening and tells what there is |
| ScreenBridge.Bridge.Finish | apps/desktop/src/outputBridge.ts:146-149 | The end of a work answers unless closed, and always gives the slot back |
| ScreenBridge.Bridge.Feed | apps/desktop/src/outputBridge.ts:216-219 | New input or result replaces what was fed and is told if listening |
| ScreenBridge.Bridge.Changed | apps/desktop/src/outputBridge.ts:221-223 | A change of context is told to a listening page only |
| ScreenBridge.Bridge.Close | apps/desktop/src/outputBridge.ts:225-230 | Stops the timer, asks a ready page to finish up, and closes |
| LiveMessages.MessagesConserved | apps/desktop/src/live.ts:228-249 | Over every run of recorded messages with fresh ids and frames that do not start over: each message is in exactly one of shown once, queued, or given back, and the returned texts are those of the messages no longer sent |
| LiveMessages.NothingQueuedAfter | apps/desktop/src/live.ts:698-710 | After done, cancelled, error or exit nothing is queued |
| LiveMessages.ReturnsPerText | apps/desktop/src/live.ts:614-634 | `message.returned` gives back of each text the lesser of how often it is listed and how often it is queued |
| LiveMessages.SentReduce | apps/desktop/src/live.ts:251-697 | No other frame touches the messages sent or returned |
| LiveSteps.RunningDistinct | apps/desktop/src/live.ts:466-504 | Every frame, a recovered presentation included, keeps the ids of the running steps pairwise distinct |
| LiveSteps.PlayRunningDistinct | apps/desktop/src/live.ts:466-504 | In every reachable state of every run the running steps have pairwise distinct ids |
| LiveSteps.ObservationEndsOne | apps/desktop/src/live.ts:505-546 | An observation takes one id out of the running ones, exactly when some running step is the one it is about, and otherwise none |
| LiveSteps.ObservedItems | apps/desktop/src/live.ts:505-546 | The groups after an observation are those before it with one step ended, the first it is about, or the same when it is about none |
| LiveSteps.RunningCall | apps/desktop/src/live.ts:466-504 | A call adds one running step whose id no running step has, or adds none |
| LiveSteps.RunKeeps | apps/desktop/src/live.ts:505-546 | Over every run each finished step stays at its place as it ended |
| LiveSteps.NothingOpenAfter | apps/desktop/src/live.ts:197-214 | After done, cancelled, error or exit no step runs and every reasoning has an end |
| LiveSteps.RestartTrims | apps/desktop/src/live.ts:635-644 | A retry removes the trailing prose and reasoning, all of it and nothing else |
| LiveSteps.WritingStaysBounded | apps/desktop/src/live.ts:547-556 | At most four calls are kept while written, with different ids, none over a mebibyte |
| LiveRecord.WordsConserved | apps/desktop/src/live.ts:419-465 | Over every run without a retry or a new start, the prose shown is the pieces of the reply in order, none lost or doubled, and so is the reasoning |
| LiveRecord.PieceIsWritten | apps/desktop/src/live.ts:419-442 | A piece goes to the end of the last item if that is prose, else begins prose behind everything else |
| LiveRecord.SourceIsNoted | apps/desktop/src/live.ts:423-428 | A piece without words names the source of the last prose, and changes nothing else |
| LiveRecord.ThoughtIsWritten | apps/desktop/src/live.ts:443-465 | A piece of reasoning goes to the end of the reasoning that is open and last, else begins one |
| LiveRecord.CallIsRecorded | apps/desktop/src/live.ts:466-504 | A call puts one running step with its id and tool behind all others, in the last item if that is a group; while a step of that id runs it changes nothing |
| LiveRecord.ObservationIsRecorded | apps/desktop/src/live.ts:505-546 | The first running step an observation is about ends as succeeded or failed, as the observation says, with its output and source, now; no other step and no other item changes |
| LiveRecord.EndingIsRecorded | apps/desktop/src/live.ts:187-214 | When a turn ends or the chat is gone every running step is stopped and open reasoning closed, now, and nothing else of them changes |
| LiveRecord.ScreenIsRecorded | apps/desktop/src/live.ts:569-581 | A screen goes to exactly the steps of its id, and source if it names one, in the last group that holds one |
| LiveRecord.OthersKeepSteps | apps/desktop/src/live.ts:251-697 | No other frame touches a step |
| LiveRecord.SentWaitsWhileRunning | apps/desktop/src/live.ts:228-244 | A message sent in an idle chat is shown at once; while a turn runs it waits behind those that wait |
| LiveRecord.SteeredIsShown | apps/desktop/src/live.ts:601-613 | What is steered in is the first waiting message of that text, or a new one when none waits, shown last |
| LiveRecord.AcceptedIsShown | apps/desktop/src/live.ts:390-404 | An accepted message is the first sent one of that text that is shown already, which gets its label and images, or, in an idle chat or when there is none, a new one shown last |
| LiveRecord.OpenIsAsked | apps/desktop/src/live.ts:251-400 | Over every run, the approvals and questions open are those asked and neither settled nor ended since |
| LiveRecord.StatusFollows | apps/desktop/src/live.ts:251-710 | The view is active after every frame that shows work, idle after the end of a turn, gone after an exit, and otherwise as it was |
| LiveIds.MadeIdsDiffer | apps/desktop/src/live.ts:186-187 | Over every run, recoveries included, no two items or steps of a timeline share an id the view made itself |
| LiveRecord.WrittenUntilDrawn | apps/desktop/src/live.ts:505-644 | What is written of a call stays until its screen has come, it fails, its turn ends or is tried again |
| LiveRecord.CueFollows | apps/desktop/src/live.ts:698-710 | The cue to load the transcript again comes with the end of a turn and with a rewind, and with nothing else |
| LiveRecord.InputIsWritten | apps/desktop/src/live.ts:547-556 | A piece of a call's input goes to the end of what is written of it, unless that would pass a mebibyte; the call is then the latest, and the latest three others are kept |
| LiveRecord.WithoutJoin | apps/desktop/src/live.ts:547-556 | Taking one call out leaves the others in their order |
| LiveLoops.FindLastProse | apps/desktop/src/live.ts:419-442 | The walk back finds the last prose item, or -1 |
| LiveLoops.TrimTail | apps/desktop/src/live.ts:635-644 | The pops leave what `RestartTrims` describes |
| LiveLoops.FindLastDrawn | apps/desktop/src/live.ts:569-581 | The search finds the last group with the step, or -1 |
| LiveLoops.TakeUnread | apps/desktop/src/live.ts:614-634 | The splices take the first queued message of each listed text |
| LiveLoops.ObserveGroup | apps/desktop/src/live.ts:505-546 | One group with its first matching step ended, and whether there was one |
| LiveLoops.ObserveFirst | apps/desktop/src/live.ts:505-546 | All groups with only the first match of all ended |
| OutputBlocks.UnescapeEscape | apps/desktop/src/outputBlocks.ts:26-50 | Unescaping an escaped text gives the text back, whatever it is |
| OutputBlocks.EscapedIsInert | apps/desktop/src/outputBlocks.ts:26-50 | Escaped text holds no angle bracket and no quote |
| OutputBlocks.SplitOutputs | apps/desktop/src/outputBlocks.ts:67-89 | The loop over matches gives the segments of the markup, in order |
| OutputBlocks.ShownAs | apps/desktop/src/outputBlocks.ts:52-65 | A block is a diagram or a drawing by its language, and a page only when it is html that opens, behind white space, with a doctype or an html element; the page is a deck when it has more than one slide; no other block is shown |
| OutputBlocks.ReplySplits | apps/desktop/src/outputBlocks.ts:67-89 | For every reply of prose and escaped blocks: the outputs are exactly its qualifying blocks in order, each with its original body and its place among all blocks |
| OutputBlocks.PartsAreSplit | apps/desktop/src/outputBlocks.ts:67-89 | From any place in the reply the segments are exactly the qualifying blocks and, between them, everything else as it stands, unless that is blank |
| OutputBlocks.ReplyComesBack | apps/desktop/src/outputBlocks.ts:67-89 | The segments put together again, each output as the block it came from, are the reply up to white space: no prose and no other block is lost or moved |
| Slides.ReadSections | apps/desktop/src/outputBlocks.ts:247-260 | The pass that counts open sections collects exactly the top-level sections, each up to its own closing tag, and everything outside them |
| Slides.SlidesOf | apps/desktop/src/outputBlocks.ts:239-265 | A page is a deck only when nothing loose is left outside its sections |
| SlideDecks.NestedSectionsAreSlides | apps/desktop/src/outputBlocks.ts:238-265 | For every balanced, arbitrarily nested page the slides are the outermost sections, whole and in order, and what is kept outside is the text between them |
| LooseText.LooseIsPlain | apps/desktop/src/outputBlocks.ts:261-262 | A text of comments, scripts, styles and plain pieces holds nothing loose if and only if its plain pieces are blank |
| LooseText.PageIsRead | apps/desktop/src/outputBlocks.ts:238-265 | A page put together from a head, a body tag and sections reads as just these: the head, the attributes of the body, the outermost sections and what stands between them |
| LooseText.LooseTextIsNoDeck | apps/desktop/src/outputBlocks.ts:238-265 | A page of sections with such a text around and between them is a deck of exactly these sections if and only if the plain pieces are blank, and shows no slide otherwise |
| SlideDecks.CutPageShowsPrefix | apps/desktop/src/outputBlocks.ts:239-265 | Wherever a deck's page is cut, even inside a tag or the closing body tag, what is left shows its first slides, or none |
| SlideDecks.CutAfterTagShowsClosed | apps/desktop/src/outputBlocks.ts:239-265 | Cut right after a tag, a page of nothing but sections shows every section closed by then and no other |
| SlidePages.SlideReadsAlone | apps/desktop/src/outputBlocks.ts:267-271 | For every source whose head holds no body tag and every slide of its deck: the slide's page reads back as just that slide with the same head, body and tail, if and only if head and tail hold no end of the body and the tail opens no section |
| SlidePages.TornSlideIsLost | apps/desktop/src/outputBlocks.ts:267-271 | The concrete case: a section inside a comment tears a tag in two, and the slide page puts it together, so the slide is not read back |
| SlidePages.HeaderSlideIsLost | apps/desktop/src/outputBlocks.ts:263-271 | Another: a header inside a slide is taken for the head, which then holds the end of the body |
| SlidePages.DeckParts | apps/desktop/src/outputBlocks.ts:239-265 | Every slide read from any page is one whole section on its own, and the head and body can be put back around it |
| Fuzzy.GreedyIsFirst | apps/desktop/src/fuzzy.ts:20-24 | The greedy run ends no later than any other way through the word's letters |
| Fuzzy.NoneLater | apps/desktop/src/fuzzy.ts:25-25 | A start from which the word is not found leaves nothing for any later start |
| Fuzzy.Tightest | apps/desktop/src/fuzzy.ts:14-27 | The search finds the length of the shortest window that holds the word as a subsequence, and nothing exactly when there is none |
| Fuzzy.Fit | apps/desktop/src/fuzzy.ts:5-29 | The score: the first place at a boundary, else the first place, else the shortest window if at most twice the word and one, else nothing |
| UnifiedDiff.Diff | apps/desktop/src/GitChanges.tsx:173-214 | The pass over the lines of the text labels them as the two running numbers say |
| UnifiedDiff.SplitJoined | apps/desktop/src/GitChanges.tsx:176-176 | Splitting at line ends gives back the lines a text was joined from |
| UnifiedDiff.DecimalReads | apps/desktop/src/GitChanges.tsx:177-180 | A printed line number is read back |
| UnifiedDiff.HeaderReads | apps/desktop/src/GitChanges.tsx:177-180 | A printed hunk header is read back, with a length left out when it is one |
| UnifiedDiff.ModesStandAlone | apps/desktop/src/GitChanges.tsx:183-213 | Lines such as `old mode` and `copy from`, which no header pattern names, are shown as headers all the same |
| UnifiedDiff.DiffIsRight | apps/desktop/src/GitChanges.tsx:173-214 | For the text of every printed edit script, whatever other lines stand before its hunks and whether it ends in a line end: the rows are the right ones if and only if no removed line starts with `-- ` and no added line with `++ ` |
| UnifiedDiff.LabelsAreRight | apps/desktop/src/GitChanges.tsx:173-214 | For every old and new file the script applies to, a row labelled with a line of either file shows that line |
| UnifiedDiff.RemovedCommentIsMisread | apps/desktop/src/GitChanges.tsx:184-188 | The concrete case: removing the line `-- x` is shown as a header |
| CodeCache.NamesShareKeys | apps/desktop/src/Markdown.tsx:19-19 | Two language names share a key for some texts if and only if one of them is the other followed by a NUL, whatever comes after it |
| CodeCache.NulExtends | apps/desktop/src/Markdown.tsx:19-19 | The concrete case: text `c`, NUL, `a` in language `b` shares its key with text `a` in language `b`, NUL, `c` |
| CodeCache.KeysTell | apps/desktop/src/Markdown.tsx:19-19 | Among any languages none of which so extends another, equal keys mean equal text and language |
| CodeCache.NulFreeToldApart | apps/desktop/src/Markdown.tsx:19-19 | Names without NUL are such languages |
| CodeCache.NulConfuses | apps/desktop/src/Markdown.tsx:19-27 | Where one name extends another every text is confused: of the two blocks the one that comes second is answered wrongly, if the first is held, exactly when highlighting tells them apart |
| CodeCache.EvictsNoMore | apps/desktop/src/Markdown.tsx:29-33 | Eviction drops the oldest entries, and one fewer would not have been enough |
| CodeCache.AskedKeeps | apps/desktop/src/Markdown.tsx:18-38 | Every request keeps the total within the limit, the keys distinct, and the entries those used last in the order of their last use |
| CodeCache.AskedFaithful | apps/desktop/src/Markdown.tsx:26-36 | Whatever is evicted for it, a request leaves only entries that hold what highlighting gives |
| CodeCache.MadeIsFaithful | apps/desktop/src/Markdown.tsx:19-26 | What is made for a block is right for every block that shares its key, in languages told apart |
| CodeCache.AnswersFaithfully | apps/desktop/src/Markdown.tsx:20-27 | A cached answer is the one highlighting gives |
| CodeCache.RunIsFaithful | apps/desktop/src/Markdown.tsx:18-38 | Over every run in languages told apart every block is shown what highlighting gives |
| CodeCache.Cache.MakeRoom | apps/desktop/src/Markdown.tsx:29-33 | The loop never runs on an empty map and keeps `cacheSize` the sum of key and html lengths |
| CodeCache.Cache.Renew | apps/desktop/src/Markdown.tsx:22-23 | The entry asked for becomes the newest, the others keep their order, the total stays and keys stay distinct |
| CodeCache.Cache.Hold | apps/desktop/src/Markdown.tsx:28-36 | What fits is held as the newest entry |
| CodeCache.Cache.CodeHtml | apps/desktop/src/Markdown.tsx:18-38 | Returns what highlighting gives, and holds the keys used last, in order |
| ScreenConsent.LatestFinds | apps/desktop/src/outputConsent.ts:53-56 | The last agreement of each identity says of it what the whole history does |
| ScreenConsent.PrunedRefines | apps/desktop/src/outputConsent.ts:27-31 | Pruning keeps the store the live end of the last agreements, however the clock moves on |
| ScreenConsent.AgreedRefines | apps/desktop/src/outputConsent.ts:53-56 | So does a new agreement |
| ScreenConsent.StoreAgrees | apps/desktop/src/outputConsent.ts:47-51 | The pruned store holds a scope for an identity if and only if its last agreement had that scope, is at most 90 days old, and fewer than 64 other identities were agreed to since |
| ScreenConsent.AgreedIs | apps/desktop/src/outputConsent.ts:47-51 | What the history agrees to: the last agreement for the identity was for that scope, is at most 90 days old, and fewer than 64 other identities came after it |
| ScreenConsent.Store.Prune | apps/desktop/src/outputConsent.ts:27-31 | The two loops leave no expired grant and at most 64 |
| ScreenConsent.Store.ScreenAgreed | apps/desktop/src/outputConsent.ts:47-51 | Answers what the whole history agrees to |
| ScreenConsent.Store.AgreeScreen | apps/desktop/src/outputConsent.ts:53-62 | Adds one agreement to the history the store stands for |
| OutputOrder.SortedInOrder | apps/desktop/src/OutputScope.tsx:127-127 | The sorted list is ascending in time, has the same entries, and keeps those of one time in the order they had |
| OutputOrder.ResolvesTo | apps/desktop/src/OutputScope.tsx:103-117 | An output is taken for the last saved one of its anchor, else for the last made by the same source, else for itself |
| OutputOrder.PutInPlace | apps/desktop/src/OutputScope.tsx:125-125 | An entry takes the place of the first of its anchor, or comes last when there is none |
| OutputOrder.MergedIsTimed | apps/desktop/src/OutputScope.tsx:118-126 | Each merged entry has the time of the saved record of its anchor, if there is one, else of the last entry that resolves to it |
| OutputOrder.AllInOrder | apps/desktop/src/OutputScope.tsx:118-128 | The list of all outputs is in the order of these times and, within one time, in the merged order |
| OutputOrder.LastIsNewest | apps/desktop/src/outputBlocks.ts:218-221 | The last version of a listed output is a version of it, and no listed version has a later time |
| OutputScope.AllIsProper | apps/desktop/src/OutputScope.tsx:103-128 | The merged and sorted list, whatever is saved and shown, holds each anchor once and each entry as it resolves, which is all the lemmas below need |
| OutputScope.RestsInThree | apps/desktop/src/OutputScope.tsx:129-140 | With the outputs fixed the effect comes to rest in at most three runs |
| OutputScope.ShowPins | apps/desktop/src/OutputScope.tsx:146-156 | Picking an older version puts the person on it |
| OutputScope.MadeOpens | apps/desktop/src/OutputScope.tsx:157-163 | What was made opens if and only if it may and nothing is open, or the person follows the newest and does not look at another artifact |
| OutputScope.NewChatOpensMade | apps/desktop/src/OutputScope.tsx:83-92 | A new chat shows nothing, and what is made in it opens |
| OutputScope.PickedStays | apps/desktop/src/OutputScope.tsx:113-163 | Until the person picks again, browses or changes chat, a picked older version that stays saved stays theirs, through every sequence of arriving lists and `made` calls, if and only if each list still holds a later version |
| OutputScope.DroppedIsLost | apps/desktop/src/OutputScope.tsx:129-140 | A picked version that drops out of what is saved and listed is not kept: another takes its place, or, when none does, the person counts as following the newest |
| OutputScope.DroppedForGood | apps/desktop/src/OutputScope.tsx:129-140 | In the latter case it is not the person's pick again over any lists and `made` calls that follow, though it may come back |
| OutputScope.NotOlderForgets | apps/desktop/src/OutputScope.tsx:129-140 | A list without a later version makes the person count as following the newest |
| OutputScope.FollowingMoves | apps/desktop/src/OutputScope.tsx:129-140 | Who follows the newest is taken off an older version as soon as a later one is listed |
| OutputScope.PickIsReplaced | apps/desktop/src/OutputScope.tsx:129-140 | The concrete run: the later version drops out of the list and comes back, and the picked version is replaced |
| OutputScope.GrowingKeepsOlder | apps/desktop/src/outputBlocks.ts:218-221 | An older version is still older in every list that keeps the versions it held, in order |
| OutputScope.LastForgets | apps/desktop/src/OutputScope.tsx:139-139 | On the listed version itself a list without a later one changes nothing but the choice |
| OutputScope.Scope.RunEffect | apps/desktop/src/OutputScope.tsx:129-140 | One run of the effect, in place |
| OutputScope.Scope.Settle | apps/desktop/src/OutputScope.tsx:129-140 | Runs the effect until it opens nothing else |
| OutputScope.Scope.Show | apps/desktop/src/OutputScope.tsx:146-152 | A pick, and the effect run to rest |
| OutputScope.Scope.Made | apps/desktop/src/OutputScope.tsx:157-163 | What was just made opens unless the person is elsewhere or on an older version |
| OutputScope.Scope.Browse | apps/desktop/src/OutputScope.tsx:185-185 | Closes what is open |
| LiveCall.RunCorrelated | apps/desktop/src/api.ts:367-428 | Over every interleaving: replies heard before the id is known are all kept, only replies on the call's own chat are, a reply taken is the first with its id and settles the call as it says, and listening is called off only once settled |
| LiveCall.SettlesOnce | apps/desktop/src/api.ts:375-424 | A settled call stays settled as it was, whatever comes |
| LiveCall.SettlingLetsGo | apps/desktop/src/api.ts:423-426 | As a call settles its timer is stopped, and its listening called off if it was confirmed |
| LiveCall.TakesItsFirstReply | apps/desktop/src/api.ts:380-420 | A reply taken is the first on the chat with the call's own id, heard before the id was known or after; and no such reply is passed over |
| LiveCall.SettledByReply | apps/desktop/src/api.ts:380-420 | Over every run: a call is refused by a reply heard on its chat under its id that holds an error, and answered by one that holds none; while nothing settles it no exit and, once its id is known, no such reply has come |
| LiveCall.SettledOtherwise | apps/desktop/src/api.ts:391-422 | A call settled as disconnected, unconfirmed or not sent has had an exit, its time run out after listening, or a failure |
| LiveCall.NeverEachOthers | apps/desktop/src/api.ts:381-382 | Two calls with different ids never take the same reply |
| LiveCall.StillListening | apps/desktop/src/api.ts:391-428 | Over all events in which listening is not confirmed after it was refused: the call is settled while its listening is confirmed and never called off, if and only if listening is confirmed after the chat was gone |
| LiveCall.NeverCalledOff | apps/desktop/src/api.ts:425-428 | Over every interleaving: a call is settled and has called nothing off if and only if the chat was gone, or the call failed, before listening was confirmed |
| LiveCall.ExitLeavesListening | apps/desktop/src/api.ts:391-409 | The concrete run: an exit heard just before listening is confirmed settles the call, and it listens for good |
| LiveCall.Call.OnFrame | apps/desktop/src/api.ts:393-406 | A frame settles the call, waits in the buffer, or is ignored, as `Next` says |
| LiveCall.Call.OnSent | apps/desktop/src/api.ts:419-420 | The id arrives and the buffer is gone through in order |
| LiveCall.Call.OnListening | apps/desktop/src/api.ts:408-418 | Listening is confirmed and the timer starts, if there is to be one |
| LiveCall.Call.OnTimer | apps/desktop/src/api.ts:411-418 | The time is up |
| DeckRead.Join | apps/desktop/src/outputDeckRead.ts:51-53 | The array filled chunk by chunk is the concatenation of the chunks |
| DeckRead.Collect | apps/desktop/src/outputDeckRead.ts:42-56 | The part is everything the stream gave before it ended, or nothing if that is more than allowed or the stream failed |
| DeckRead.FetchedFits | apps/desktop/src/outputDeckRead.ts:32-58 | A part that is kept is its whole stream, within its own limit and within what the 32 MiB leave |
| DeckRead.StreamComesTo | apps/desktop/src/outputDeckRead.ts:42-56 | A stream that gives more than allowed comes to nothing, however it goes on; else it is waited for while it goes on, nothing when it fails, and all its chunks when it ends |
| DeckRead.FetchedIs | apps/desktop/src/outputDeckRead.ts:32-41 | A part is refused unpacked when it is missing, when nothing is left of a limit, or when it claims more than is left; else it is what its stream comes to |
| DeckRead.Parts.Unpacked | apps/desktop/src/outputDeckRead.ts:32-58 | `used` is the total kept and at most 32 MiB; a part is refused exactly when it is missing, nothing is left of the budget, it claims or gives too much, or its stream fails; one whose stream has not ended is waited for |
| DeckRead.Parts.Part | apps/desktop/src/outputDeckRead.ts:65-78 | A part is unpacked once; asked for again it costs nothing |
| DeckRead.Parts.Gather | apps/desktop/src/outputDeckRead.ts:202-220 | What a slide is drawn from, documents and pictures, each asked for in view of what came before |
| DeckRead.ReadSlides | apps/desktop/src/outputDeckRead.ts:236-305 | The loop keeps what drawing the slides within both budgets comes to; each notice exactly when it is due |
| DeckRead.ReadDeck | apps/desktop/src/outputDeckRead.ts:222-308 | The whole reading: too many entries, no presentation, no slides, or the slides of the deck |
| DeckRead.DrawnFirstHolds | apps/desktop/src/outputDeckRead.ts:240-243 | Drawing keeps within the 32 MiB and reads just the slides the 16 MiB leave room for; whether one could be read is what the archive gave for its part |
| DeckRead.DeckFits | apps/desktop/src/outputDeckRead.ts:222-308 | For every file: as many slides as declared, at most 200, each at its own place; one is shown if and only if its part could be read within the 32 MiB and all drawn up to it fit the 16 MiB; it is drawn from its own part and from all it asks for, each as the archive gave it; neither budget is ever exceeded |
| DeckRead.WhyNoDeck | apps/desktop/src/outputDeckRead.ts:222-306 | Why there is no deck: exactly when the archive has over 20,000 entries, the presentation cannot be read, or it names no slide |
| DeckRead.ReadingEnds | apps/desktop/src/outputDeckRead.ts:222-308 | When every stream of the archive ends, reading it comes to a deck or to one of these reasons |
| DeckRead.PlaceholderNames | apps/desktop/src/outputDeckRead.ts:239-239 | A placeholder says which slide it stands for |
| DeckRead.DigitsRead | apps/desktop/src/outputDeckRead.ts:239-239 | The number in a placeholder reads as that of its slide |
| DeckRead.ShownFits | apps/desktop/src/outputDeckRead.ts:302-304 | The slides shown keep within 16 MiB and are all the readable ones until the first that does not fit |
| DeckRead.RefusedIsLast | apps/desktop/src/outputDeckRead.ts:241-241 | After the first readable slide that is refused only placeholders follow |

## Left out

- Texts: in `CodeUnits` and all JSON they are UTF-16 code units; the markup, diff, cache and search models use Dafny characters, of which the code looks only at those below 128 and at white space. `closing` goes over code points where `halfWritten` goes over code units; no unit the lexer looks at is a surrogate, so both count the same.
- JSON numbers are kept as they are written, not as floating-point values; objects are the members as written, and looking a name up takes the last.
- Fields.FieldsComeRight: is about names that hold some unit other than a high surrogate; inside any other name no string can be closed. `CoveredReadsRight` is about all names, and so is `EarlierIsRead`, where a name that can be cut stands after the earlier value.
- JsonPrinter.PrintParse: a number is any lexeme the grammar allows and is printed as it stands; `undefined` and cyclic values do not occur.
- MessageRequest: images are carried with opaque data, and the images' part of the request is not read back; a file's size in the client's own list is not modelled.
- ScreenProtocol.RunOrderly: the text of context values and of the reasons given in errors is opaque; the calls to `started` and `resized` are not recorded.
- ScreenProtocol.RunAccounted: what the host is asked to do ends at any later event with any outcome, or never; a request ends with one answer only if its work ends. Timers fire at any time after they were set.
- LiveMessages.MessagesConserved: a recovered presentation and a full rewind are excluded, because both start the timeline over; the code that then matches messages to history is not part of this model. Recorded messages have ids of their own, unlike any the view makes for itself.
- Live: fields that are only shown (activity, notices, usage, errors, the details of approvals and questions, outputs) are left out, and the frames that change nothing else are the one frame `Shown`. Ids the view makes for itself are a constructor apart from given ids, so a given id spelled like a made one does not occur.
- LiveRecord.WordsConserved: is about runs without a retry or a new start; what a retry takes away is what `LiveSteps.RestartTrims` says.
- LooseText.LooseIsPlain: scripts and styles are named in lower case there, as pages mostly write them; reading them in any case is in the model.
- OutputBlocks.ReplySplits: the fence's markup is as the renderer writes it, with the language first; prose is any text that does not itself open a fence.
- SlidePages.SlideReadsAlone: is about decks whose head holds no body tag; with one the page is opened there.
- SlideDecks.CutPageShowsPrefix: is about a page whose uncut form is a deck; a page with loose text shows no slides at all and its beginning may.
- Fuzzy: `ranked` (splitting the query, adding scores up, a stable sort) would add only easy members; a word is never empty, as splitting the query guarantees.
- Fuzzy.Fit: scores are real numbers; rounding is not modelled.
- UnifiedDiff: the colours and the sign column of a row are fixed by its kind and left out; line numbers are unbounded.
- UnifiedDiff.LabelsAreRight: the lines of the two files hold no line ends.
- CodeCache: highlighting is any function of text and language.
- ScreenConsent: approvals saved from an earlier sitting and saving them again are not modelled, so a store starts empty; the clock does not run backwards. The wording of a scope (`screenScope`, `screenReach`) is opaque.
- OutputScope: the effect runs to rest after each event, as React runs it; fetching the catalogue, the lists of stopped and online pages, `ask`, `fix` and `onAbout` are left out. `follow` does to these variables what `show` does.
- OutputScope.PickedStays: is about runs in which the picked version stays saved (`DroppedIsLost` and `DroppedForGood` say what becomes of one that does not), and the lists are as the client makes them (`AllIsProper`); a live output that is not saved may be taken over by the saved one it was written as, which has another anchor.
- LiveCall: frames hold an id, a result and an error; what they mean is opaque. Ids are numbers.
- LiveCall.StillListening: a call that fails before listening is confirmed has had listening refused, so listening is not confirmed after that.
- DeckRead: the archive is a map from paths to streams of chunks; decoding and XML parsing, where the slides are, what a slide asks for and how it is drawn are functions of the file, any functions. Styles, charts, tables and pictures' base64 are left out. Parts are unpacked one at a time, as `readDeck` awaits them.
- DeckRead.Parts.Gather: a slide asks for a bounded number of parts, any number.
- Everything drawn on screen, settings and other form pages, network, files, clipboard and saved storage are not part of this model.
