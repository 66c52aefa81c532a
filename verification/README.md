# Verification of the spored hub

`spored` is a local message hub: applications connect to it, declare what they offer, and
call each other by dotted names. These Dafny modules model its text layer, its name index
and tables, its routing of requests and responses, its pipes, its broadcasts and its
permission manager, and prove what each of them keeps over every input and every run.

`dafny verify dfyconfig.toml` checks the whole project.

## How it is built

- `Scanner` is the common theory of the scanners that cut a text at separators which only
  count in some states. The stage splitter (`PipeSplit`), the body tokeniser (`BodyTokens`),
  the loose tokeniser (`ArrayTokens`) and plain splitting (`Splitting`) are machines of this
  kind. The Go loops look one character ahead; a machine puts the decision off to the second
  character, which makes scanning a fold. Each loop is a method proved to compute what its
  machine says, and the laws (`PipeLaws`, `BodyLaws`, `ArrayLaws`) are proved on the machines.
  `PipeGrammar`, `BodyGrammar` and `ArrayGrammar` say without the machines, by a grammar that
  covers every text, where the machines cut.
- `Printing`, `Arrays`, `Framing` and `Wire` are the printers and the line reader; `FramingLaws`
  and `WireLaws` compose them with the splitter and the readers of values.
- `Names`, `Abbreviations`, `Api`, `Responses`, `Pending`, `Permissions`, `Broadcast` and `Bus`
  are the hub's tables. Each is a class whose methods update its fields, tied to a step
  function on values; one method is one locked section. The `...Laws` modules prove what
  holds over every run of those steps, mostly in terms of the history alone: who holds a
  handle, who waits for one, who was granted what, which token is still good. `RequestLaws`
  puts the tables together, and `BusRuns` follows whole runs of the bus.
- `Stages` is the stage loop of a pipe. The parser, the printing of the changed message, the bus
  and the responses are a parameter, so its laws hold for all of them; `StageRuns` says exactly
  what a run does.

Where the hub does not do what it promises, the law is stated with the exact condition under
which it does, next to a lemma with an input on which it fails:

- a name added again, as a node does at every handshake, keeps a key it contended for
  ambiguous after the other contender is gone (`ResolveExact`, `AddedTwiceStaysAmbiguous`);
- a command cannot be called by any name while the full name of another ends in its own, although
  the refusal asks for a more qualified name (`CallableExact`, `ShadowedName`);
- a second block in a message loses a newline (`MessageReadBack`, `SecondBlockLosesNewline`);
- an array item is printed without escapes but read with them, and its commas become blanks
  (`ArrayRoundTrip`, `ItemsLost`);
- a response with the handle "n/a" keeps the lock for ever (`LockLost`);
- a request that fails after its entry expired can cancel the next holder's
  (`CancelTakesOwn`, `LateCancelTakesAnother`);
- a waiter that times out can unregister another waiter of the same handle
  (`TimeOutTakesAnother`, `ReusedHandleLosesMessage`);
- a node that unregisters with another manifest than it registered with leaves commands
  that lead nowhere (`RoutableRuns`, `ChangedManifestDangles`);
- a permit can be spent on a capability that was protected after the tables were read
  (`SpentOnGuarded`, `GuardedTooLate`);
- an allowance that a loaded file lists twice survives one revoke (`RevokeTakesOne`,
  `RepeatedAllowanceSurvives`);
- a stage limit beyond 9223372036 seconds wraps around (`DurationExact`, `DurationWraps`);
- the broadcast table says nobody can be subscribed to a topic that does not resolve, but
  subscriptions outlive the topic (`SubscribersLeftBehind`, `SubscriptionsOutliveTopic`).

## Model

| member | source | states |
|---|---|---|
| PipeSplit.SplitPipe | spored/internal/message/pipe.go:115-213 | the lookahead loop returns exactly the trimmed pieces between top-level bars of the one-character-at-a-time scanner, without an empty last piece |
| PipeLaws.SplitConserves | spored/internal/message/pipe.go:115-213 | for every text, joining the untrimmed stages with bars gives it back: splitting drops separators and nothing else |
| PipeLaws.PiecesOfJoin | spored/internal/message/pipe.go:115-213 | before trimming, texts joined by bars are the pieces of the join if and only if none holds a top-level bar and all but the last close their quotes, brackets and blocks |
| PipeLaws.StagesAreTrimmedAndUncut | spored/internal/message/pipe.go:188-211 | every stage is trimmed and holds no bar at which it would be split |
| PipeLaws.SplitIdempotent | spored/internal/message/pipe.go:115-213 | for every text, a stage split again gives itself back and is never a pipe, unbalanced last stages included |
| PipeLaws.SplitUndoesJoin | spored/internal/message/pipe.go:115-213 | splitting a join with " | " gives the stages back if and only if they are trimmed, hold no top-level bar, and all but the last close their quotes, brackets and blocks (the list of one empty stage aside) |
| PipeLaws.IsPipeIsSeveralStages | spored/internal/message/pipe.go:18-23 | the quick test for a bar never changes the answer: a pipe is a text with more than one stage |
| PipeGrammar.PiecesExact | spored/internal/message/pipe.go:115-213 | every text reads as characters, quoted parts and blocks up to one left open, and its untrimmed stages are the texts between the bars outside those parts and outside all brackets and braces: every such bar cuts and no other |
| PipeGrammar.StagesExact | spored/internal/message/pipe.go:115-213 | the stages are those texts, trimmed, without an empty last one |
| PipeGrammar.FirstStage | spored/internal/message/pipe.go:143-198 | a text that closes all its brackets and braces, with no bar outside them, is the first stage of whatever follows behind a bar |
| PipeSplit.MakePipe | spored/internal/message/pipe.go:25-38 | a pipe message is made exactly for a text with more than one stage, and holds its stages |
| PipeSplit.ArgOfIndex | spored/internal/message/pipe.go:72-90 | asked for a printed index, the message answers that stage or "high index"; the bad-key and low-index errors cannot come up |
| Numbers.AtoiSprint | spored/internal/bus/pipe.go:57 | a number printed as an argument key is read back, with either sign, exactly while it fits 64 bits |
| Numbers.AtoiExact | spored/internal/message/pipe.go:81 | an argument key is a number, and which, exactly when it is a sign or none, any zeros and that number as printed, and the number fits 64 bits |
| BodyTokens.ParseBody | spored/internal/spore/meta.go:522-614 | the loop over quotes, the bracket stack and two-character brackets returns the tokens of the scanner and the text of the token under the cursor |
| BodyGrammar.TokensExact | spored/internal/spore/meta.go:522-614 | every body reads as characters, quoted parts ended by their own mark only, and three kinds of brackets that nest, the innermost closer first; its tokens are the non-empty texts between the spaces outside them |
| BodyGrammar.FirstToken | spored/internal/spore/meta.go:551-613 | a text that closes all its brackets, with no space outside quotes and brackets, is one token, and the space behind it ends it |
| BodyLaws.TokensConserve | spored/internal/spore/meta.go:522-614 | the tokens stand in the body in order, at least one character apart, and everything outside them is spaces |
| BodyLaws.TokensUncut | spored/internal/spore/meta.go:576-580 | no token is empty or holds a space outside quotes and brackets |
| BodyLaws.CursorToken | spored/internal/spore/meta.go:533-544 | the closed caret interval of at most one token holds the cursor; that token is reported, and the last one when there is none |
| BodyLaws.ParseUndoesJoin | spored/internal/spore/meta.go:522-614 | parsing a join with single spaces gives the tokens back if and only if they are non-empty, hold no top-level space, and all but the last close their quotes and brackets |
| ArrayTokens.Tokenize | spored/internal/utilities/parse/parse.go:13-119 | the nested loops return the non-empty texts between top-level blanks, or name the group left open exactly when the scanner ends inside one |
| ArrayGrammar.TokenizedExact | spored/internal/utilities/parse/parse.go:13-119 | every text reads as characters, quoted parts, objects and arrays up to their first closer and calls that nest; its tokens are the non-empty texts between the blanks outside them, and with a group left open it is refused and told which |
| ArrayLaws.TokenizedConserves | spored/internal/utilities/parse/parse.go:13-119 | on success the tokens are non-empty, hold no top-level blank, and together are the text without its top-level blanks |
| Arrays.RenderArraySlice | spored/internal/utilities/out/array.go:24-29 | the items, each in quotes, joined with a comma and a space |
| Arrays.ArrayToStrings | spored/internal/utilities/parse/parse.go:171-190 | trimming, bracket removal, comma replacement, tokenising and unquoting in that order; nothing for a text with a group left open |
| ArrayLaws.PartsOf | spored/internal/utilities/parse/parse.go:171-174 | every text is white space around a part with an optional bracket at each end, no other white space or such bracket standing there |
| ArrayLaws.ReadLoosely | spored/internal/utilities/parse/parse.go:171-190 | of any such text exactly what is between the brackets is read, with blanks for its commas; nothing of one with a group left open |
| ArrayLaws.ArrayReadBack | spored/internal/utilities/parse/parse.go:171-190 | for every list: the printed array comes apart into its items if and only if each, with blanks for commas, closes its own quotes and holds no blank outside them; then every item, empty ones included, is read in its place, decoded |
| ArrayLaws.ArrayRoundTrip | spored/internal/utilities/parse/parse.go:171-190 | for every list: printing and reading gives the list back if and only if no item holds a comma or an escape, and each closes its own quotes and holds no blank outside them |
| ArrayLaws.UnescapeFixed | spored/internal/utilities/parse/parse.go:135-166 | decoding never lengthens a text, and leaves it alone if and only if no backslash stands before one of the five characters it escapes |
| ArrayLaws.UnescapeIsPrefix | spored/internal/utilities/parse/parse.go:135-166 | a text that decodes to a shorter beginning of itself has a backslash right after that beginning, so a token cut at a closing quote cannot pass for an item |
| ArrayLaws.PlainArrayRoundTrip | spored/internal/utilities/parse/parse.go:175-181 | an array of strings without quotes and backslashes survives if and only if no item holds a comma |
| ArrayLaws.ItemsLost | spored/internal/utilities/out/object.go:70-73 | an item with a comma, a lone quote and an escape that do not survive |
| Printing.UnescapeDoubleQuoted | spored/internal/cparser/cparser.go:242-273 | the loop decodes every escape and leaves a text without backslashes alone |
| Printing.UnquotePrinted | spored/internal/utilities/out/pair.go:28-34 | unquoting the quoted form of any value gives the value back; no CR or tab is printed as such there |
| Printing.UnquoteForms | spored/internal/utilities/parse/parse.go:123-166 | in double quotes each of the five escapes is decoded, in single quotes nothing is, and a value in neither is taken as it is |
| Printing.PairIsNeutral | spored/internal/utilities/out/pair.go:23-35 | a printed pair takes the stage scanner from its neutral state back to it without a cut, whatever bars, quotes and brackets its value holds, if no line of a block value begins with ">>" |
| Framing.Connection.ReadString | spored/internal/nodes/node.go:323-330 | takes exactly the characters up to and including the next newline; without one the rest is lost and the connection is closed |
| Framing.Connection.ReadMessage | spored/internal/nodes/node.go:318-360 | reads the next message of the complete lines and leaves exactly the lines after it, or reports closed |
| FramingLaws.MessageReadBack | spored/internal/nodes/node.go:318-360 | the lines of a text are read back as that text if and only if it fits the framing: trimmed, no line ending in CR, and one line without "<<" or one block whose closing line, ">>" alone or with a space behind it, is the last and opens no other |
| FramingLaws.BlockReadBack | spored/internal/nodes/node.go:337-360 | a message of a first line and a printed block is the next message, and nothing more is taken off, if and only if it does not begin with white space and no line of the value is ">>", begins with ">> " or ends in CR |
| FramingLaws.CRLinesRead | spored/internal/nodes/node.go:331-333 | lines that end in CR and newline are read as if they ended in a newline alone |
| FramingLaws.WrittenMessage | spored/internal/nodes/node.go:318-360 | the same on the connection: a text written with a newline is the next message, and nothing more is taken off, if and only if it fits |
| FramingLaws.ReadShortens | spored/internal/nodes/node.go:318-360 | whatever the lines, a message read from them is trimmed and not empty, and uses up at least one line |
| FramingLaws.FramingRoundTrip | spored/internal/nodes/node.go:318-360 | any stream of fitting messages, with blank lines anywhere and an unfinished last line, is read as those messages in order and then closed |
| FramingLaws.SecondBlockLosesNewline | spored/internal/nodes/node.go:347-351 | a line that closes one block and opens another loses its newline, so what is read is not the message |
| Wire.ResponsesToString | spored/internal/message/spore.go:86-97 | the printed responses joined by single spaces |
| Wire.WireIsOneStage | spored/internal/message/spore.go:70-72 | a reply of pairs, flags and arrays with plain handle, subject, keys and cast is never taken for a pipe and splits to itself, whatever its values hold, if no line of a block value begins with ">>" and its arrays leave the scanner as they found it |
| Wire.ArrayIsNeutral | spored/internal/utilities/out/array.go:20-30 | a printed array takes the stage scanner from its neutral state back to it without a cut if each item, read within the printed quotes, ends within quotes and holds no bracket or single quote outside them, whatever bars it holds |
| Wire.EvenQuotesSettle | spored/internal/utilities/out/object.go:70-73 | of items without backslash, single quote and bracket, those with an even number of double quotes do |
| WireLaws.WireFramed | spored/internal/message/spore.go:70-97 | a reply fits the framing if and only if all its responses are one-line without "<<" in a value or item, or one is a block whose lines neither close it nor end in CR and no later response has a newline or "<<" |
| WireLaws.WireReadBack | spored/internal/message/spore.go:70-97 | a reply written with a newline is read back as exactly that one message under the same condition, both ways |
| WireLaws.WireEndToEnd | spored/internal/message/spore.go:70-97 | printer, framing, splitter and readers of values together: such a reply is read back whole and is one stage; every value stands in the text that was read where the scanner has just passed its key and "=", and that part of the text gives the quoted value, the block, or, just if its items are clean, the array |
| WireLaws.EndsRead | spored/internal/message/spore.go:70-72 | a reply begins with its handle and subject; behind its last response, outside everything to the stage scanner, come "ok", its cast and its capture |
| Names.SuffixesOf | spored/internal/bus/abbreviation.go:32-39 | the dot-suffixes from the last segment alone to the whole name |
| Names.SuffixesAreOwned | spored/internal/bus/abbreviation.go:29-39 | the suffixes of a name are, each once and the shorter first, exactly the keys equal to it or following one of its dots |
| Abbreviations.AbbreviationIndex.constructor | spored/internal/bus/abbreviation.go:22-27 | both maps start empty |
| Abbreviations.AbbreviationIndex.Add | spored/internal/bus/abbreviation.go:42-49 | binds every suffix of the name, in order |
| Abbreviations.AbbreviationIndex.Remove | spored/internal/bus/abbreviation.go:52-59 | unbinds every suffix of the name, in order |
| Abbreviations.AbbreviationIndex.Resolve | spored/internal/bus/abbreviation.go:64-72 | collisions first, then the unambiguous names; changes nothing |
| Abbreviations.AbbreviationIndex.Bind | spored/internal/bus/abbreviation.go:76-92 | the new state of both maps in all four cases |
| Abbreviations.AbbreviationIndex.Unbind | spored/internal/bus/abbreviation.go:96-119 | the new state of both maps, with a collision of one name left turned back into a plain entry |
| AbbreviationLaws.AddEntry | spored/internal/bus/abbreviation.go:42-49 | adding a name changes the entry of each key the name owns once, and of no other key |
| AbbreviationLaws.RemoveEntry | spored/internal/bus/abbreviation.go:52-59 | removing a name changes the entry of each key the name owns once, and of no other key |
| AbbreviationLaws.ResolveSound | spored/internal/bus/abbreviation.go:32-119 | after every run, repeated adds included: a resolved name is the only owner of the key, an ambiguous key lists exactly its owners, a miss has none |
| AbbreviationLaws.AddExact | spored/internal/bus/abbreviation.go:76-80 | adding keeps candidate lists free of repeats if and only if the name is new or none of its keys is contended |
| AbbreviationLaws.TimesDoubled | spored/internal/bus/abbreviation.go:76-119 | after every run, a key's candidate list names a registered name twice or more if and only if the name was added again while another registered name owned the key, and was not removed since |
| AbbreviationLaws.ResolveExact | spored/internal/bus/abbreviation.go:64-119 | after every run, repeated adds included: missed if and only if no owner, found if and only if one owner that was not doubled so, ambiguous if and only if two owners or a doubled one; the candidates are the owners, each once if and only if none was doubled |
| AbbreviationLaws.CarefulExact | spored/internal/bus/abbreviation.go:76-80 | the lists stay free of repeats throughout a run if and only if every name added while present is the only owner of all its keys |
| AbbreviationLaws.CarefulRuns | spored/internal/bus/abbreviation.go:76-89 | runs without repeated adds are such runs, and so is a lone name added twice |
| AbbreviationLaws.CallableExact | spored/internal/bus/abbreviation.go:64-72 | after every run, some key finds a registered name if and only if its full name does: no other registered name ends in it, and it was not doubled |
| AbbreviationLaws.ShadowedName | spored/internal/bus/abbreviation.go:64-72 | with a name registered that ends in another, every key of the other stays ambiguous |
| AbbreviationLaws.AddedTwiceStaysAmbiguous | spored/internal/bus/abbreviation.go:76-80 | for every two contenders for a free key: with one added twice and the other removed, the key has one owner but still looks ambiguous |
| AbbreviationLaws.AddedTwiceExample | spored/internal/bus/abbreviation.go:76-80 | the instance with the names a.x and b.x |
| AbbreviationLaws.RemoveUndoesAdd | spored/internal/bus/abbreviation.go:51-59 | from any reachable index, removing a name just added restores both maps exactly, candidate order included, if it was not registered before |
| NameScan.MatchCommand | spored/internal/spore/meta.go:455-486 | returns the one matching command and its manifest, or none, or a collision, of all commands in scanning order |
| NameScan.ScanAgrees | spored/internal/spore/meta.go:455-486 | over the same distinct names, after every run: a name the index finds is the one match of the scan, they miss together, candidates are the scan's matches; and the answers are the same if and only if no name was doubled at the key |
| Api.Api.Register | spored/internal/bus/api.go:39-52 | the new state of all three tables |
| Api.Api.Unregister | spored/internal/bus/api.go:54-67 | the new state of all three tables, by the manifest the node has now |
| Api.Api.FullyQualifiedRequest | spored/internal/bus/api.go:71-79 | the only name a command resolves to, or the command itself |
| ApiLaws.FullNameExact | spored/internal/bus/api.go:71-79 | after every run of registrations the full name of a command is the one registered command that owns it and was not doubled there, and without one the command itself |
| ApiLaws.FullNameStable | spored/internal/bus/api.go:71-79 | after every run of registrations a full name is its own full name |
| Api.Api.Request | spored/internal/bus/api.go:81-153 | the first failing check decides the refusal; the permission manager is asked about the resolved name, may spend a permit, and only a command that is found, permitted and taken is received |
| ApiLaws.NodesByEvents | spored/internal/bus/api.go:39-67 | after every run a node is registered if and only if its last event registers it, and as it was given there |
| ApiLaws.HomesByEvents | spored/internal/bus/api.go:39-67 | after every run a command is in the table if and only if the last event that lists it registers, and at that node |
| ApiLaws.FindExact | spored/internal/bus/api.go:86-126 | missing if and only if no registered command owns the name; ambiguous if and only if two do or one was doubled, and these are the candidates |
| ApiLaws.TablesInStep | spored/internal/bus/api.go:39-67 | after every run of registrations, whatever the manifests, index and command table hold the same names |
| ApiLaws.ResolvedIsCommand | spored/internal/bus/api.go:86-115 | a resolved name is always in the command table, and "command not found" is answered if and only if no command owns the key |
| ApiLaws.IndexFollows | spored/internal/bus/api.go:39-67 | after every run of registrations the index is what the adds and removes of the nodes' commands, in order, make of it |
| ApiLaws.ResolvesExact | spored/internal/bus/api.go:86-104 | after every run of registrations a command resolves if and only if one registered command owns it that was not doubled there |
| ApiLaws.UnregisterRoutable | spored/internal/bus/api.go:54-67 | unregistering leaves no command without its node if and only if the node's current manifest lists every command homed at it |
| ApiLaws.RoutableRuns | spored/internal/bus/api.go:39-67 | throughout a run every command's home is a registered node if and only if every node that unregisters lists, in the manifest it has then, all commands homed at it |
| ApiLaws.FixedIsThorough | spored/internal/bus/api.go:54-67 | with one manifest per node id every node that unregisters does |
| ApiLaws.ResolvedReachesNode | spored/internal/bus/api.go:81-126 | where every node that unregisters lists its own commands, both later lookups succeed for every resolved command, and "node not found" is never answered |
| ApiLaws.ChangedManifestDangles | spored/internal/bus/api.go:59-65 | a node that unregisters without its manifest leaves a command that resolves and leads nowhere |
| Responses.Responses.Request | spored/internal/bus/responses.go:49-72 | reserves the handle, or refuses it and changes nothing |
| Responses.Responses.Cancel | spored/internal/bus/responses.go:74-79 | removes the entry and nothing else |
| Responses.Responses.Response | spored/internal/bus/responses.go:81-120 | takes the entry out and names its node if registered; keeps the lock exactly for the handle "n/a" |
| ResponseLaws.TableFollowsHistory | spored/internal/bus/responses.go:49-120 | after every run a handle is in the table if and only if an accepted request holds it, with that request's actor and expiry |
| ResponseLaws.RefusedWhileHeld | spored/internal/bus/responses.go:56-64 | a request is refused if and only if a request that has not expired holds its handle |
| ResponseLaws.NodesByHistory | spored/internal/bus/responses.go:36-47 | while the lock is not lost, a node is known if and only if it was registered and not unregistered since |
| ResponseLaws.DeliveredToHolder | spored/internal/bus/responses.go:92-119 | a response goes to the actor of the request holding its handle if that node was registered and not unregistered since; a handle nobody holds is refused |
| ResponseLaws.AnsweredOnce | spored/internal/bus/responses.go:102 | no accepted request is answered or cancelled twice |
| ResponseLaws.RequestsConserved | spored/internal/bus/responses.go:49-120 | over every run: accepted = live + answered + cancelled + overwritten after expiry |
| ResponseLaws.LockLost | spored/internal/bus/responses.go:82-90 | the lock is lost if and only if a response with the handle "n/a" came in, and then every later operation blocks |
| ResponseLaws.NoHandleTold | spored/internal/bus/responses.go:82-90 | a response is refused as one without a handle if and only if its handle is "n/a" |
| Bus.Bus.Register | spored/internal/bus/bus.go:53-58 | the node is registered in the command, broadcast and response tables |
| Bus.Bus.Unregister | spored/internal/bus/bus.go:60-65 | the node is taken out of the command, broadcast and response tables |
| Bus.Bus.Request | spored/internal/bus/bus.go:98-110 | reserves, routes and gives the handle back on failure, leaving the command tables alone |
| BusRuns.Step | spored/internal/bus/bus.go:53-112 | each method of the bus takes one step of its runs |
| BusRuns.ReplyReaches | spored/internal/bus/bus.go:53-112 | over every run of nodes that come and go, requests and replies: a reply is handed to the node that asked with its handle if it joined and did not leave since, and is refused if and only if no sent request waits under the handle |
| RequestLaws.FailedRequest | spored/internal/bus/bus.go:98-110 | taken as one step, a failed request changes no live entry: a handle in use stays with its holder and no permission is asked, a routing failure leaves nothing behind |
| RequestLaws.SentRequest | spored/internal/bus/bus.go:98-110 | a request is sent if and only if its handle is free, its command resolves to a node, the manager permits that name and the node takes it; then its handle is reserved for its actor |
| RequestLaws.CancelTakesOwn | spored/internal/bus/bus.go:104-108 | with any operations between reserving and cancelling: the late cancellation takes no other request's entry if and only if every request accepted under the handle since was answered or cancelled |
| RequestLaws.LateCancelTakesAnother | spored/internal/bus/bus.go:104-108 | a request whose routing outlasts its own entry cancels the live entry of the next holder |
| RequestLaws.SentByHistory | spored/internal/bus/bus.go:98-110 | across all tables and from their histories alone: a request is sent if and only if nobody holds its handle, one registered command, not doubled there, owns its name, the history of registrations, grants and permits allows that very command to its origin, and the node takes it; it goes to the node the command is homed at |
| RequestLaws.RefusedByHistory | spored/internal/bus/api.go:81-153 | which refusal a request gets, from the histories alone: handle in use; no owner; ambiguous, with the owners as candidates; Hyphae without an answer; not permitted; not taken; the first that applies, and no other |
| RequestLaws.PermitSpentOnRequest | spored/internal/bus/api.go:138-152 | a request spends a permit if and only if its handle is free, its name means one command and the permit is what lets the request through, even when the node then does not take it |
| Pending.Pending.Await | spored/internal/utilities/await/await.go:35-41 | a new empty channel, registered under the handle in place of any other |
| Pending.Pending.Receive | spored/internal/utilities/await/await.go:78-102 | hands the message to the registered channel, which is unregistered, or reports it dropped; the send finds room |
| Pending.Pending.Resolve | spored/internal/utilities/await/await.go:104-118 | the same with a signal |
| Pending.Pending.WaitForTimeout | spored/internal/utilities/await/await.go:52-76 | takes the message, or after a positive limit unregisters the handle |
| Pending.StepValid | spored/internal/utilities/await/await.go:35-118 | every step keeps the invariant, so a send under the lock never blocks |
| PendingLaws.RunValid | spored/internal/utilities/await/await.go:35-118 | in every interleaving, reused handles included: no send blocks, each channel is sent at most one message, and only one for its own handle |
| PendingLaws.RegisteredApart | spored/internal/utilities/await/await.go:35-41 | registered channels are empty, and two handles never share one |
| PendingLaws.ReceiveReaches | spored/internal/utilities/await/await.go:78-90 | a message for a registered handle ends up in that handle's channel, and no other channel changes |
| PendingLaws.ResolveReaches | spored/internal/utilities/await/await.go:104-118 | a resolved waiter gets the signal, in its handle's channel alone |
| PendingLaws.TakenOnce | spored/internal/utilities/await/await.go:52-76 | what a waiter takes is gone from its channel, and nothing else changes |
| PendingLaws.TimeOutTakesOwn | spored/internal/utilities/await/await.go:66-69 | with distinct handles a waiter that times out takes away its own registration only |
| PendingLaws.RegisteredWhileWaiting | spored/internal/utilities/await/await.go:35-118 | over every interleaving a handle is registered if and only if some wait for it was not followed by another wait, an answer, a deletion or a timeout for it, and then with the channel of that wait |
| PendingLaws.TimeOutTakesAnother | spored/internal/utilities/await/await.go:66-69 | in general a timeout spares every other registration if and only if no later wait for the same handle is still waiting |
| PendingLaws.ReusedHandleLosesMessage | spored/internal/utilities/await/await.go:66-99 | a reused handle: the first waiter's timeout unregisters the second, and its message is dropped |
| Casts.DelegationReadBack | spored/internal/message/cast.go:15-28 | a delegated cast gives actor and origin back if and only if the actor holds no colon, and is the actor alone if and only if that is the origin |
| Stages.HandleTimeout | spored/internal/bus/pipe.go:341-359 | the limit a stage sets, or that it is invalid, and the arguments without it |
| Stages.PipeHandleUnique | spored/internal/bus/pipe.go:335-339 | different counts give different handles |
| Stages.RunStage | spored/internal/bus/pipe.go:79-299 | one turn of the loop: what is printed and sent, logged or failed, and what is handed on |
| Stages.Pipe | spored/internal/bus/pipe.go:47-301 | the loop terminates and does exactly the actions of its stages, each given what the responses before it carry |
| StageRuns.RunExact | spored/internal/bus/pipe.go:47-301 | the exact run: every stage that goes on acts, with this action; the first that does not gives the node the error its own condition names, after its request if it got to send one, and nothing happens after it |
| StageRuns.OneFault | spored/internal/bus/pipe.go:75-288 | a stage goes on if and only if no error condition applies to it, and never do two |
| StageRuns.ActsAt | spored/internal/bus/pipe.go:47-301 | a stage acts if and only if every earlier one goes on and it goes on or sends its request |
| StageLaws.AtMostOneError | spored/internal/bus/pipe.go:47-301 | for every parser, bus and responses: stages act in order, the node gets at most one error and nothing happens after it, and without one every stage acts |
| StageLaws.RequestsSent | spored/internal/bus/pipe.go:136-143 | every request carries its own arguments overridden by those of earlier responses, no timeout, its own flags and then the carried ones it lacks, and its own handle or one of the pipe; its text is how that prints and is a valid request; its limit is what the carried or else its own timeout argument says; only the last stage uses the node's own cast |
| StageLaws.CarriedArgs | spored/internal/bus/pipe.go:290-292 | a carried argument has the value of the latest earlier response that gave it, and is carried if and only if one did |
| StageLaws.CarriedFlags | spored/internal/bus/pipe.go:293-297 | the carried flags are those of the earlier responses, each once |
| StageLaws.DelegatedStage | spored/internal/bus/pipe.go:230-233 | an intermediate request is read as the pipe acting for the caller |
| StageLaws.NeverNested | spored/internal/bus/pipe.go:99-107 | over the stages of any split text the nested-pipe error never comes up |
| StageLaws.DurationExact | spored/internal/bus/pipe.go:353-358 | a limit in seconds is kept if and only if its nanoseconds fit 64 bits |
| StageLaws.DurationWraps | spored/internal/bus/pipe.go:357 | the first limit beyond comes out negative |
| Permissions.Manager.RegisterNode | spored/internal/permissions/manager.go:108-141 | the new state of all five tables; nothing for a missing manifest |
| Permissions.Manager.Grant | spored/internal/permissions/manager.go:143-152 | adds the allowance unless the node has it |
| Permissions.Manager.Revoke | spored/internal/permissions/manager.go:154-166 | takes the first such allowance out, in place |
| Permissions.Manager.RemoveNode | spored/internal/permissions/manager.go:169-175 | drops every allowance of the node |
| Permissions.Manager.RequestPermit | spored/internal/permissions/manager.go:188-226 | refuses admin and protected capabilities; else, once confirmed, issues the permit; any other outcome changes nothing |
| Permissions.Manager.MayRequestPermit | spored/internal/permissions/manager.go:189-192 | the first locked section: whether the capability is neither admin nor protected |
| Permissions.Manager.IssuePermit | spored/internal/permissions/manager.go:210-224 | the second locked section, which other operations may come before: purges exactly the expired permits and adds the new one |
| Permissions.Manager.Can | spored/internal/permissions/manager.go:327-376 | the answer of the two locked sections in the source's order of checks, and the permits left |
| Permissions.Manager.ReadTables | spored/internal/permissions/manager.go:331-337 | the first locked section: protected, admin, and allowed outright |
| Permissions.Manager.ConsumePermit | spored/internal/permissions/manager.go:378-388 | spends the permit if and only if it is for this node and capability and has not expired |
| Permissions.AnyAllows | spored/internal/permissions/manager.go:390-397 | true if and only if some allowance is one of the dot-suffixes of the capability |
| PermissionLaws.AskedByHistory | spored/internal/permissions/manager.go:188-199 | a permit may be asked for if and only if no registered manifest declares the capability admin or protected |
| PermissionLaws.UsableByHistory | spored/internal/permissions/manager.go:206-224 | over every run with a forward clock: a token can be used if and only if it was issued to that node for that capability, not spent since, and not expired |
| PermissionLaws.PermitsStay | spored/internal/permissions/manager.go:214-218 | purging never drops a permit that has not expired |
| PermissionLaws.PermitsExact | spored/internal/permissions/manager.go:210-224 | after every run the permits in the table are exactly those issued, not spent and not issued again since, and not expired when another was issued |
| PermissionLaws.SpentAsIssued | spored/internal/permissions/manager.go:378-388 | a spent token was issued before to the spender, for the capability called, and had not expired |
| PermissionLaws.SpentOnce | spored/internal/permissions/manager.go:386 | with fresh tokens, a token authorises at most one call |
| PermissionLaws.SpentWhenNeeded | spored/internal/permissions/manager.go:340-388 | with anything between reading the tables and looking at the permit: a permit is spent only if, as read, the call is denied without it and the capability is neither protected nor admin, and if, when spent, it is good; any other call spends nothing |
| PermissionLaws.AllowancesFromHistory | spored/internal/permissions/manager.go:143-175 | a node has an allowance if and only if it was granted or loaded and not withdrawn since |
| PermissionLaws.RulingFromHistory | spored/internal/permissions/manager.go:327-370 | the tables rule on every call as the history of registrations and grants does |
| PermissionLaws.CanByHistory | spored/internal/permissions/manager.go:327-388 | a call is allowed outright if and only if the history up to the reading says so, and by permit if and only if that history needs one and the longer history up to the spending has it standing |
| PermissionLaws.SpentOnGuarded | spored/internal/permissions/manager.go:331-337 | the capability a permit is spent on is protected or admin by then if and only if a node registered since the reading declares it so |
| PermissionLaws.GuardedTooLate | spored/internal/permissions/manager.go:378-388 | a run in which it is, and the call would be denied by then |
| PermissionLaws.RevokeTakesOne | spored/internal/permissions/manager.go:154-163 | after a revoke the allowance is gone if and only if it was not listed twice, as a loaded file may list it |
| PermissionLaws.RepeatedAllowanceSurvives | spored/internal/permissions/manager.go:154-163 | an allowance loaded twice is still there after a revoke |
| PermissionLaws.RevokeUndoesGrant | spored/internal/permissions/manager.go:143-166 | granting and revoking an allowance a node did not have leaves every node with the allowances it had, in order |
| Broadcast.Broadcast.Register | spored/internal/bus/broadcast.go:32-43 | the new nodes and topics; subscriptions stay |
| Broadcast.Broadcast.Unregister | spored/internal/bus/broadcast.go:45-56 | the new nodes and topics; subscriptions stay |
| Broadcast.Broadcast.Subscribe | spored/internal/bus/broadcast.go:80-91 | adds a subscription to the topic the name resolves to, or says why not |
| Broadcast.Broadcast.Unsubscribe | spored/internal/bus/broadcast.go:93-110 | takes the first subscription of the node out, in place |
| Broadcast.Broadcast.Publish | spored/internal/bus/broadcast.go:112-153 | the registered subscribers in order of subscription |
| BroadcastLaws.ReceivedPerSubscription | spored/internal/bus/broadcast.go:80-153 | after every run a published message reaches a node as often as it subscribed and did not unsubscribe, if it registered and did not unregister since, and no other node |
| BroadcastLaws.TargetsInOrder | spored/internal/bus/broadcast.go:139-147 | targets keep the order of subscription |
| BroadcastLaws.ToldByOwners | spored/internal/bus/broadcast.go:58-110 | after every run subscribing and unsubscribing are refused if and only if no announced topic owns the name, or two do or one was doubled, and then these are the candidates |
| BroadcastLaws.PublishedByOwners | spored/internal/bus/broadcast.go:112-137 | publishing is refused if and only if the topic is ambiguous so, and reaches somebody only at its one owner |
| BroadcastLaws.UnsubscribeUndoesSubscribe | spored/internal/bus/broadcast.go:80-110 | for a topic that resolves, unsubscribing right after subscribing gives the subscribers back, in order, if and only if the node was not subscribed before or had all the last places; nothing else changes |
| BroadcastLaws.SubscribersLeftBehind | spored/internal/bus/broadcast.go:45-56 | after every run nobody is subscribed behind a topic that does not resolve if and only if each topic with subscribers is covered by an announced one; a node that goes leaves it so if and only if the topics of the others cover them |
| BroadcastLaws.OnlyUnregisterLeavesBehind | spored/internal/bus/broadcast.go:32-110 | registering, subscribing and unsubscribing never leave a subscriber behind |
| BroadcastLaws.SubscriptionsOutliveTopic | spored/internal/bus/broadcast.go:127-130 | contrary to the comment there, subscribers stay when their topic stops resolving, cannot unsubscribe, and are served again once the node is back |

## Left out

- Characters: a text is a sequence of characters, and white space is the ASCII white space; Go works on bytes and also trims Unicode white space.
- The C parser behind `cparser.Parse` and `Validate` is not part of this model; `Stages` takes it as a parameter. `Stringify` prints a map in no fixed order and does not escape values, so no round trip is claimed for it: how a changed message prints is a parameter too, and what it means to the reader of the text is not modelled.
- Sockets, deadlines and read errors other than end of input: a connection is a sequence of characters.
- Files and YAML: loaded allowances are a parameter, saving always succeeds.
- Real time: clock readings are parameters. `IssuePermit` reads the clock once for the whole purge, where the hub reads it once per permit.
- Concurrency: one method is one locked section, and a mutex is always free except where a lost lock is modelled. `Api.Request` and `Bus.Request` are single steps to which Hyphae's answer and the delivery are given from outside; `CancelTakesOwn` and `LateCancelTakesAnother` look at the steps in between. The methods `Can` and `RequestPermit` of the permission manager run their two locked sections with nothing in between, and so does a request on the bus; the laws on permits take issuing and spending as steps of their own, so that anything may happen since the permit was asked for or the tables were read.
- Channels: a channel is a number and its contents a field of `Pending`; how a goroutine is woken is not modelled. That a stage whose request cannot be routed leaves its waiter registered is not modelled either.
- Slices: lists are values, so that `resolve` hands out a slice which a later `remove` changes in place is not modelled.
- WireLaws.WireFramed: a reply holds pairs, flags and arrays of strings, as the hub's own replies do; objects, which none of them has, are not modelled, and an array with a newline in an item is only covered by `FramingLaws.MessageReadBack`, which holds for every text.
- WireLaws.WireReadBack: of the same replies as `WireFramed`, and so is `WireEndToEnd`.
- Wire.WireIsOneStage: takes arrays the scanner passes over; `ArrayIsNeutral` gives a condition on each item that is enough, not the exact one: items could also balance brackets outside their quotes, or undo one another.
- Stages.Pipe: requires fewer stages than the largest 64-bit integer, as a Go slice has.
- StageLaws.NeverNested: speaks of the splitter's stages, which is what the hub passes; a list of segments from elsewhere can hold a nested pipe.
- `matchNode` and `matchTopic` scan as `matchCommand` does; the manifest of every scanned node is taken to exist.
- `hyphae`, `hub`, `pal`, `nodes` besides `readMessage`, manifest verification, the command dispatch and its help, list and state output, witness logging and message accessors: plumbing, or easy.
