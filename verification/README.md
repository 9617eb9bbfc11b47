# Verification of the terminal and its agent

The terminal is a GTK application with a helper process, the agent. This project models the parts in which the two
keep state together or take text apart that was put together elsewhere, and proves what they promise. It is written in
Dafny 4.11; `dafny verify dfyconfig.toml` checks all of it.

Code that changes things step by step is modelled as methods and classes, proved against functions on values; what the
code promises is proved about those functions. Protocols are transition systems, and their results are about every
state that any run reaches.

| files | what they are about |
|---|---|
| WaitStatus, WaitProtocol, WaitAgents | A child dies; the agent reports it in two messages and withdraws the object; the application may ask before, between or after. Whatever the interleaving, each wait returns once, and a status it returns is the true one. |
| ShellWords, EarlyOptions | Quoting words for a shell and reading them back; the rewriting of `-- command` into `-x 'command'`. |
| Environ, FdMaps | An array of `KEY=value` strings as a map; an array of descriptors that owns them. |
| Lowering, LoweringAccounts, Programs, LoweringMeaning, RunContexts | A stack of layers is folded into one command. What the command line does when executed is what the stack means, what each handler writes reads back as what it was given, and every descriptor is accounted for. |
| LinkedQueues | Insertion into an intrusive doubly linked list, and the order of layers it gives. |
| Containers, Replication, ContainerAgents, GatedListModels | A list of containers travels from a provider over the agent to the client, as one snapshot and then deltas, and on to list models. |
| Hsla | Colours between red-green-blue and hue-saturation-lightness. |
| ProxyUris, Decimals | Proxy URIs and what RFC 3986 reads in them. |
| Sessions, SessionWindows | Windows saved and opened again. |
| ParkingLots, LineReaders | Closed tabs kept for a while; a buffer read line by line. |

## What was found

Some promises hold only under a condition, which is proved exactly.

- A second wait on a process, made after the process's last message was handled while an earlier wait is there to use
  up the stored status, comes back with an error (`WaitFailsIffTooLate`, `SecondWaitCanFail`). The first wait on a
  process always returns its status.
- The agent removes by id the first container that matches. If a provider's container that leaves has the id of one of
  the agent's own, the own one goes (`SharedIdMisleads`); own containers stay exactly in runs where that does not
  happen (`OwnStayIffBenign`).
- `setenv` is map update exactly for keys without `=` (`SetIsUpdateIffKey`), and `env` runs the command exactly if its
  name does not look like an assignment (`EnvRunsIffName`).
- The words after the options of `flatpak-spawn` are the command exactly if the command does not itself begin with `-`
  (`HostReadsBack`).
- Shading twice is not always shading by the product (`ShadeTwiceIff`).
- A tab in its profile's default container, with an empty title or with a profile that is gone comes back changed;
  `LastingIff` and `WindowRoundTripIff` say exactly which tabs and windows come back as they were.

## What is assumed

- The bus is first-in-first-out in each direction, object paths are never used twice, and the agent's handler for a
  dead child runs as one callback of its main loop. The only error a ping meets is that the object is gone. The
  client asks for the list of containers once.
- The statuses of dead children are those a kernel reports: an exit code or a signal, never a stop.
- Strings are valid UTF-8. GLib's quoting, shell parsing and URI escaping follow their documentation; the shell
  follows section 2.2 of the POSIX.1-2017 Shell Command Language for the single quotes, backslashes and blanks that
  occur.
- For the meaning of a stack: environments have distinct names, none empty or beginning with `-`; a command's name
  has no `=` after its first character and no leading `-`; there is a command above every shell and every scope; a
  lower layer's own words are a program that runs what follows. Executing the command is the only thing `env`,
  `sh -c` and `systemd-run --user --scope --same-dir` do.
- Colour components are exact reals, red, green and blue within [0,1] as the type promises.
- The first page added to a tab view is selected, and a page that becomes pinned moves behind the pinned ones.
- Entries of a session dictionary have distinct keys. Titles and directories stand for the current ones, or for those
  a tab was given when there is none yet.

## Model

| member | source | states |
|---|---|---|
| WaitStatus.BothPathsAgree | src/ptyxis-application.c:1928-1993 | The code built from the Exited/Signaled arguments and the one built from the stored raw status are the same word: the raw status with the core-dump bit clear, for every status of a dead child |
| WaitStatus.CodeForgetsOnlyCore | src/ptyxis-application.c:1928-1993 | Two deaths give the same code if and only if their statuses differ at most in the core-dump bit |
| WaitProtocol.WaitsReturnTheTruth | src/ptyxis-application.c:1915-2047 | In every reachable state of every interleaving a wait has returned at most once, only after its child is gone and the final message was handled, and any code it returned is the true one |
| WaitProtocol.QuietMeansDone | src/ptyxis-application.c:1915-2047 | Once a child is gone and nothing about it is in flight, each wait on it has returned exactly once and dropped both references, and the path is in the table exactly when nobody waited |
| WaitProtocol.Progress | src/ptyxis-application.c:1965-2047 | Every step of the agent or the bus uses up work, one is enabled while work is left, and without work every dead child is quiet: runs come to rest |
| WaitProtocol.WaitFailsIffTooLate | src/ptyxis-application.c:1965-2047 | A returned wait failed if and only if, when it was made, the final message had been handled and another wait on the process existed; otherwise it returned the true status |
| WaitProtocol.SecondWaitCanFail | src/ptyxis-application.c:1986-1998 | A concrete run in which a second wait, made after all news was handled, comes back with an error |
| WaitProtocol.NewsBeforeWaitEnds | src/ptyxis-application.c:858-876 | A child that dies before anybody waits leaves its raw status in the table |
| WaitProtocol.StepInv | src/ptyxis-application.c:858-2047 | Every step keeps the invariant that ties messages in flight, table, references and results together |
| WaitProtocol.RunInv | src/ptyxis-application.c:858-2047 | The invariant holds in every reachable state |
| WaitProtocol.WaitCallbackInv | agent/ptyxis-process-impl.c:89-117 | Emitting both messages and unexporting keeps the invariant |
| WaitProtocol.HandlePingInv | agent/ptyxis-process-impl.c:260-299 | Answering a ping keeps the invariant |
| WaitProtocol.DeliverInv | src/ptyxis-application.c:1934-2002 | Handling any message keeps the invariant |
| WaitProtocol.PongsInOrder | src/ptyxis-application.c:2040-2046 | Answers to pings arrive in the order of the waits |
| WaitProtocol.RunFate | src/ptyxis-application.c:1965-2047 | What a wait will return is fixed by the state it was made in, through every later run |
| WaitProtocol.CompleteConnected | src/ptyxis-application.c:1915-1963 | The final message completes exactly the tasks that are still connected |
| WaitAgents.ProcessImpl.WaitCallback | agent/ptyxis-process-impl.c:89-117 | Sends ProcessExited, then Exited or Signaled, then takes the object off the bus: the protocol step |
| WaitAgents.ProcessImpl.HandlePing | agent/ptyxis-process-impl.c:260-299 | A ping is answered as long as the object is exported |
| WaitAgents.Application.ClientProcessExited | src/ptyxis-application.c:858-876 | Stores the raw status under the path |
| WaitAgents.Application.WaitComplete | src/ptyxis-application.c:1915-1932 | The first call returns a value and drops the keep-alive reference; later calls change nothing |
| WaitAgents.Application.ProcessExitedHandler | src/ptyxis-application.c:1934-1946 | Removes the table entry and completes one task with the exit status |
| WaitAgents.Application.ProcessSignaledHandler | src/ptyxis-application.c:1948-1963 | Removes the table entry and completes one task with the signal |
| WaitAgents.Application.DeliverFinal | src/ptyxis-application.c:1934-1963 | Running the handlers of all connected tasks is the protocol step for the final message |
| WaitAgents.Application.HasForegroundProcess | src/ptyxis-application.c:1965-2002 | The ping callback is the protocol step: looks up and removes the stored status on error, and drops its reference |
| WaitAgents.Application.WaitAsync | src/ptyxis-application.c:2004-2047 | A new task has two references and one ping on its way |
| ShellWords.ReadQuoted | agent/ptyxis-run-context.c:326-344 | A quoted word reads back as the word itself in GLib's parser and in the POSIX shell, whatever characters it has |
| ShellWords.ReadAllThen | agent/ptyxis-run-context.c:322-335 | Quoted words each followed by a space read back as those words before whatever follows |
| ShellWords.ReadJoined | agent/ptyxis-run-context.c:337-344 | Quoted words joined by single spaces read back as exactly those words |
| ShellWords.ParseQuoteAll | src/ptyxis-application.c:500-511 | Parsing the concatenated quoted words gives back any non-empty argument list |
| ShellWords.QuoteAllInjective | src/main.c:78-85 | Different argument lists are quoted into different strings |
| ShellWords.ReadFirstWord | agent/ptyxis-run-context.c:322-334 | A plain unquoted first word reads as itself, in either dialect |
| ShellWords.QuoteForm | agent/ptyxis-run-context.c:326-344 | A word without single quotes stands between two of them; a single quote in a word is written as a closing one, an escaped one and an opening one |
| ShellWords.SingleQuotesAreLiteral | agent/ptyxis-run-context.c:326-344 | Whatever stands between two single quotes reads as itself, in either dialect |
| EarlyOptions.ExecuteRoundTrip | src/main.c:58-95 | For any list after -- or -e the string placed after -x parses back to exactly that list, and nothing before the separator changes |
| EarlyOptions.RewriteInjective | src/main.c:58-95 | Two command lines with a command are rewritten alike only if they have the same options and the same command |
| EarlyOptions.SeparatorAt | src/main.c:70-74 | The separator acted on is the first -- or -e that something follows |
| EarlyOptions.NotConverted | src/main.c:70-74 | Without a command the vector is unchanged, except that a last -e becomes -- |
| EarlyOptions.TakeRest | src/main.c:76-85 | Quotes the slots after the separator into one string and empties exactly those slots |
| EarlyOptions.Convert | src/main.c:74-94 | The slots from the separator on become -x and the quoted command, and the count is right |
| EarlyOptions.CheckEarlyOpts | src/main.c:58-98 | The in-place loop leaves in the array the rewriting, and returns the decision, that WithCommand and WithoutCommand spell out option by option |
| EarlyOptions.WithCommand | src/main.c:58-95 | For any arguments without -- or -e before a -- or -e that words follow: they stay, -x and one string that parses to those words come after them, and a process of its own is wanted exactly if none of them is --tab, --new-window, --tab-with-profile or --tab-with-profile=... |
| EarlyOptions.WithoutCommand | src/main.c:58-98 | With no such word only a last -e becomes --, and a process of its own is wanted exactly if -x, --execute or --execute=... is there and none of those options is |
| Environ.EntryParts | agent/ptyxis-run-context.c:726-727 | key=value splits back into key and value for a key without = |
| Environ.MatchesIsKey | agent/ptyxis-run-context.c:693-701 | The prefix test finds exactly the entries whose name is the key |
| Environ.GetIsLookup | agent/ptyxis-run-context.c:681-704 | getenv is lookup in the map the array stands for |
| Environ.SetIsAdd | agent/ptyxis-run-context.c:706-741 | Appending and then removing fast amounts to replacing the entry in place, or adding it at the end |
| Environ.SetIsUpdate | agent/ptyxis-run-context.c:706-741 | setenv is map update and leaves every other slot alone |
| Environ.SetIsUpdateIffKey | agent/ptyxis-run-context.c:706-741 | setenv is map update if and only if the key has no = |
| Environ.UnsetIsDelete | agent/ptyxis-run-context.c:743-767 | unsetenv is map deletion and keeps keys unique |
| Environ.AddPairIsUpdate | agent/ptyxis-run-context.c:495-526 | Adding one pair is map update |
| Environ.AddIsOverlay | agent/ptyxis-run-context.c:482-527 | add_environ lays the pairs over the map, later ones winning, and ignores pairs without = |
| Environ.OverlayIsUnion | agent/ptyxis-run-context.c:482-527 | For pairs with distinct keys the overlay is the union in which the pairs win |
| Environ.SetKeepsUnique | agent/ptyxis-run-context.c:706-741 | setenv keeps keys unique |
| Environ.AddKeepsUnique | agent/ptyxis-run-context.c:482-527 | add_environ keeps keys unique |
| Environ.SortingKeepsMeaning | agent/ptyxis-run-context.c:851-880 | Sorting the entries before a handler runs keeps the map, the entries and their number |
| Environ.SortedInOrder | agent/ptyxis-run-context.c:851-880 | Sorting gives the same entries in the order of strcmp: of two, the earlier is a prefix of the later or has the smaller character where they first differ |
| FdMaps.TakeIsUpdate | agent/ptyxis-unix-fd-map.c:120-146 | Taking a descriptor is map update at the destination; the live one that was there, and only that, is closed; nothing is lost |
| FdMaps.TakeConserves | agent/ptyxis-unix-fd-map.c:120-146 | What was held plus what came in is what is held plus what was closed |
| FdMaps.TakeKeepsForm | agent/ptyxis-unix-fd-map.c:120-146 | Destinations stay distinct and keep their slots |
| FdMaps.StealKeeps | agent/ptyxis-unix-fd-map.c:148-164 | Stealing empties one slot, keeps its destination, changes no other slot, and takes exactly that descriptor, if live, out of what is held |
| FdMaps.MergeFailsIffCollision | agent/ptyxis-unix-fd-map.c:395-429 | A merge fails if and only if a destination is live in both maps |
| FdMaps.MergeStopsAtCollision | agent/ptyxis-unix-fd-map.c:395-429 | A merge takes over the items up to the first whose destination is live on both sides, or all; what it leaves behind on failure is stated slot by slot, in both maps |
| FdMaps.MergeIsOverride | agent/ptyxis-unix-fd-map.c:395-429 | A successful merge is the map union in which the other map wins, -1 included, and leaves the other map with nothing live |
| FdMaps.MergeClosesOverridden | agent/ptyxis-unix-fd-map.c:395-429 | A successful merge closes exactly the receiver's live descriptors at destinations the other map names |
| FdMaps.MergeConserves | agent/ptyxis-unix-fd-map.c:395-429 | Success or partial failure: every live descriptor of either map is in one of them afterwards or has been closed, counted with multiplicity |
| FdMaps.MergeKeepsForm | agent/ptyxis-unix-fd-map.c:395-429 | Destinations stay distinct, and both maps keep theirs in their slots |
| FdMaps.MaxDestBounds | agent/ptyxis-unix-fd-map.c:349-365 | The reported maximum is at least 2, bounds every mapped destination, and is attained when above 2 |
| FdMaps.MergeKeepsMaxDest | agent/ptyxis-unix-fd-map.c:349-429 | Merging does not change the maximum of the emptied map and does not lower the receiver's below either |
| FdMaps.UnixFdMap.TakeFd | agent/ptyxis-unix-fd-map.c:120-146 | The loop in place computes the map update, closing into the log |
| FdMaps.UnixFdMap.Steal | agent/ptyxis-unix-fd-map.c:148-164 | Returns the descriptor and destination and empties the slot |
| FdMaps.UnixFdMap.PeekForDest | agent/ptyxis-unix-fd-map.c:223-239 | Looks a destination up, -1 if absent |
| FdMaps.UnixFdMap.GetMaxDestFd | agent/ptyxis-unix-fd-map.c:349-365 | The loop computes the maximum |
| FdMaps.UnixFdMap.StealFromMap | agent/ptyxis-unix-fd-map.c:395-429 | The nested loops in place do the merge on both maps and the log, failing where it fails |
| FdMaps.UnixFdMap.Dispose | agent/ptyxis-unix-fd-map.c:55-78 | Closes exactly what is still held |
| Lowering.HandleConserves | agent/ptyxis-run-context.c:792-893 | Each handler, run and its layer freed, accounts for every descriptor of both layers |
| Lowering.LowerConserves | agent/ptyxis-run-context.c:962-970 | The whole fold, success or failure at any layer, accounts for every descriptor of the stack |
| Lowering.LowerEndsAtRoot | agent/ptyxis-run-context.c:962-970 | The fold ends with root alone on success and drops at least one layer otherwise |
| Lowering.LaunchedAreHeld | agent/ptyxis-run-context.c:979-1005 | Exactly the live items of root are handed to the launcher, at their destinations |
| LoweringAccounts.HandledIff | agent/ptyxis-run-context.c:792-893 | A handler runs through if and only if it is not the error handler, no two different directories meet at a default layer, and no destination has a live descriptor in both layers |
| LoweringAccounts.HandledDirectory | agent/ptyxis-run-context.c:310-311 | The directory below is, for a default or shell layer, the upper one if it asks for one and otherwise the lower one; for a scope the upper one; for a host layer the lower one |
| LoweringAccounts.HandledDescriptors | agent/ptyxis-unix-fd-map.c:395-429 | The descriptors below are those of both layers, the upper one's where both name a destination |
| LoweringAccounts.ShellReadsBack | agent/ptyxis-run-context.c:288-349 | The words a shell layer leaves are the lower ones and then /bin/sh in the mode asked for, with a -c text that reads as the upper command, under env and the sorted upper environment if there is one |
| LoweringAccounts.ScopeReadsBack | agent/ptyxis-run-context.c:1118-1152 | A scope layer leaves the lower words, those of systemd-run with the unit's name if that can be used, and the upper command, with the upper environment |
| LoweringAccounts.HostReadsBack | agent/ptyxis-run-context.c:1164-1221 | Reading the words a host layer leaves, for a command that does not begin like an option: the words after the options are that command, the --env words are the upper environment, --directory is the upper directory, and the forwarded numbers are exactly the live destinations from 2 up; for any other command the words after the options are never it |
| LoweringAccounts.PassedAreLive | agent/ptyxis-run-context.c:1194-1211 | The numbers passed on are exactly the live destinations from 2 up |
| Programs.OneProgram | agent/ptyxis-run-context.c:832-846 | A command line comes to at most one program that is not a wrapper |
| Programs.EnvRunsIffName | agent/ptyxis-run-context.c:832-846 | env with assignments runs the command with them laid over the environment if and only if the command's name does not look like an assignment |
| Programs.ShellRuns | agent/ptyxis-run-context.c:313-346 | sh -c with a text that reads as some words executes those words |
| Programs.ScopeSkips | agent/ptyxis-run-context.c:1136-1149 | systemd-run with --user, --scope and --same-dir among its options executes the words after them in the same environment |
| LoweringMeaning.CommandStringReads | agent/ptyxis-run-context.c:320-344 | The -c text tokenises to env, the entries and the arguments |
| LoweringMeaning.HandledByDefault | agent/ptyxis-run-context.c:792-849 | The default handler leaves a layer that stands for the upper environment laid over the lower one, the upper directory or else the lower one, the upper descriptors over the lower ones, and the upper command |
| LoweringMeaning.HandledByShell | agent/ptyxis-run-context.c:288-349 | The shell handler leaves a layer that stands, through sh -c, for the upper command under both environments, in the upper directory or else the lower one |
| LoweringMeaning.HandledByScope | agent/ptyxis-run-context.c:1118-1152 | The scope handler leaves a layer that stands for the upper command in the upper environment and directory alone |
| LoweringMeaning.HandleSucceedsIffFits | agent/ptyxis-run-context.c:792-893 | A handler succeeds if and only if directories do not conflict (default handler only) and no destination is live on both sides |
| LoweringMeaning.FoldRepresents | agent/ptyxis-run-context.c:962-970 | Each turn of the fold keeps that the top layer stands for everything lowered so far |
| LoweringMeaning.LoweringSucceedsIffFit | agent/ptyxis-run-context.c:962-970 | For every covered stack lowering succeeds if and only if the layers fit together |
| LoweringMeaning.LoweringPreservesMeaning | agent/ptyxis-run-context.c:948-1014 | For every covered stack of default, shell and scope layers the one command left in root comes to the meant command in exactly the meant environment, with the meant directory and descriptors |
| LoweringMeaning.LoweringInTerms | agent/ptyxis-run-context.c:948-1014 | The same without a calculation from layer to layer: the command left in root comes to the words of the topmost layer that has any; each variable, the directory and each descriptor are those of the topmost layer that asks for them, except that a scope hides the variables and directory of the layer directly below it |
| LoweringMeaning.LoweringLeavesRoot | agent/ptyxis-run-context.c:962-977 | Every successful lowering leaves exactly one layer |
| RunContexts.RunLayer.GetEnvVar | agent/ptyxis-run-context.c:681-704 | The loop computes getenv |
| RunContexts.RunLayer.SetEnvVar | agent/ptyxis-run-context.c:706-741 | Append, scan and fast removal compute setenv; no value means unsetenv |
| RunContexts.RunLayer.UnsetEnvVar | agent/ptyxis-run-context.c:743-767 | The scan and fast removal compute unsetenv |
| RunContexts.RunLayer.AddPairs | agent/ptyxis-run-context.c:482-527 | The nested loops compute add_environ |
| RunContexts.RunLayer.EnvironToArgv | agent/ptyxis-run-context.c:769-790 | The environment moves in front of the arguments as words of env |
| RunContexts.DefaultHandler | agent/ptyxis-run-context.c:792-849 | The code in place does what Handle says, cwd conflict and merge failure included; its directory, descriptors and success are spelled out in LoweringAccounts |
| RunContexts.BuildCommandString | agent/ptyxis-run-context.c:320-344 | The string buffer ends up as the -c text |
| RunContexts.ShellHandler | agent/ptyxis-run-context.c:288-349 | The code in place leaves what ShellReadsBack reads back and fails where HandledIff says |
| RunContexts.ScopeHandler | agent/ptyxis-run-context.c:1118-1152 | The code in place leaves what ScopeReadsBack states and fails where HandledIff says |
| RunContexts.HostHandler | agent/ptyxis-run-context.c:1164-1221 | The code in place leaves what HostReadsBack reads back, the upper command included, and fails where HandledIff says |
| RunContexts.RunContext.constructor | agent/ptyxis-run-context.c:215-230 | A context starts with the root layer and the environment of the process |
| RunContexts.RunContext.Push | agent/ptyxis-run-context.c:232-251 | Puts an empty layer on top and keeps the ledger |
| RunContexts.RunContext.PushAtBase | agent/ptyxis-run-context.c:253-272 | Puts an empty layer directly above the root, below all others, and keeps the ledger |
| RunContexts.RunContext.TakeFd | agent/ptyxis-run-context.c:665-679 | For accepted arguments the top layer's map is updated at dest with source, nothing else of any layer changes, and exactly a live descriptor that stood at dest is closed; refused arguments change nothing |
| RunContexts.RunContext.CallbackLayer | agent/ptyxis-run-context.c:861-893 | Sorting, running the handler and freeing the layer is Handle, with what was left closed |
| RunContexts.RunContext.FoldOne | agent/ptyxis-run-context.c:962-970 | One turn of the loop replaces the two top layers by the handled one and keeps the ledger |
| RunContexts.RunContext.Fold | agent/ptyxis-run-context.c:962-970 | The loop terminates and leaves what Lower says, with the ledger kept |
| RunContexts.RunContext.HandOver | agent/ptyxis-run-context.c:979-1005 | The launcher gets every live descriptor of root once; root is left with none |
| RunContexts.RunContext.SpawnWithFlags | agent/ptyxis-run-context.c:948-1014 | The whole spawn yields the lowered root or fails where lowering fails, with every descriptor accounted for |
| RunContexts.RunContext.Dispose | agent/ptyxis-run-context.c:189-205 | Frees all layers; what they held is closed and the ledger is settled |
| RunContexts.LedgerTake | agent/ptyxis-run-context.c:665-679 | Taking a descriptor keeps the ledger balanced |
| RunContexts.LedgerHandle | agent/ptyxis-run-context.c:861-893 | Handling a layer keeps the ledger balanced |
| RunContexts.LedgerLaunch | agent/ptyxis-run-context.c:979-1005 | Handing root's descriptors over keeps the ledger balanced |
| RunContexts.LedgerInsert | agent/ptyxis-run-context.c:253-272 | Inserting an empty layer anywhere keeps the ledger balanced |
| RunContexts.ExactlyOnce | agent/ptyxis-run-context.c:189-205 | Once a context is gone each distinct descriptor it took was either closed once or handed to the launcher once, never both |
| LinkedQueues.InsertedAt | agent/ptyxis-agent-compat.h:86-101 | Inserting before the i-th link is the old sequence with the new link at i; without a sibling, at the end |
| LinkedQueues.InsertThenRemove | agent/ptyxis-agent-compat.h:74-139 | Taking the inserted link out again gives the old sequence |
| LinkedQueues.LinkedAfterInsert | agent/ptyxis-agent-compat.h:86-101 | If the pointers around one position go to and from a new link and all others are as before, the result is a well-formed list |
| LinkedQueues.LinkedAfterRemove | agent/ptyxis-run-context.c:966 | If the pointers around one position pass it by, the result is a well-formed list |
| LinkedQueues.ListInsertBeforeLink | agent/ptyxis-agent-compat.h:74-116 | The pointer surgery leaves a well-formed list with the link before the sibling, and returns its head, in all four cases |
| LinkedQueues.Queue.PushHeadLink | agent/ptyxis-run-context.c:250 | The queue stays well formed with the link first |
| LinkedQueues.Queue.PushTailLink | agent/ptyxis-agent-compat.h:126-133 | The queue stays well formed with the link last |
| LinkedQueues.Queue.InsertBeforeLink | agent/ptyxis-agent-compat.h:118-139 | The queue stays well formed, head, tail and length right, with the link just before the sibling |
| LinkedQueues.Queue.Unlink | agent/ptyxis-run-context.c:966 | The queue stays well formed without the link, whose pointers are cleared |
| LinkedQueues.LayerOrder | agent/ptyxis-run-context.c:232-272 | After any series of pushes: ordinary layers newest first, then those pushed at the base with the newest directly above root, then root |
| LinkedQueues.LayerQueue.PushLayer | agent/ptyxis-run-context.c:232-251 | The new layer is on top and root stays last |
| LinkedQueues.LayerQueue.PushLayerAtBase | agent/ptyxis-run-context.c:253-272 | The new layer is directly above root and root stays last |
| Containers.MergeOrder | agent/ptyxis-container-provider.c:186-222 | After a merge: the ids the input still has in old order, then the input's other ids in first-occurrence order, duplicates dropped |
| Containers.MergeIds | agent/ptyxis-container-provider.c:186-222 | A merge keeps ids unique and leaves exactly the ids of the input |
| Containers.MergedObjects | agent/ptyxis-container-provider.c:186-222 | After a merge every container, kept or new, is the input's first object with its id |
| Containers.MergeIdempotent | agent/ptyxis-container-provider.c:186-222 | Merging the same input again changes no id |
| Containers.SurvivorIds | agent/ptyxis-container-provider.c:197-210 | Each surviving container is the first of the input with its id |
| Containers.MergeFollowed | agent/ptyxis-agent-impl.c:148-177 | If no id that leaves is one of the agent's own, following the signals takes own ids plus provider ids to own ids plus merged ids |
| Containers.SharedIdMisleads | agent/ptyxis-agent-impl.c:161-177 | Otherwise the agent can drop its own container and keep the provider's of the same name |
| Replication.OnSignalFollows | agent/ptyxis-agent-impl.c:136-242 | The exported ids change as the signals say: appended on add, first match removed |
| Replication.AnnouncedLeads | agent/ptyxis-agent-impl.c:148-242 | One announcement applied to a copy of the paths before gives the paths after |
| Replication.StepInv | agent/ptyxis-agent-impl.c:136-271 | Every step of provider, agent, channel and client keeps the invariant |
| Replication.ClientCatchesUp | src/ptyxis-client.c:198-242 | In every reachable state the next delta is in range, and applying all that is in flight in order takes the client to the agent's paths |
| Replication.PathsStayDistinct | agent/ptyxis-agent-impl.c:214-230 | No object path ever occurs twice in the agent's array |
| Replication.AgentFollowsProvider | agent/ptyxis-agent-impl.c:136-242 | Through any run in which no container leaves under one of the agent's own ids, the agent's ids are its own followed by the provider's |
| Replication.OwnStayIffBenign | agent/ptyxis-agent-impl.c:148-177 | The agent goes on exporting its own containers at their old paths exactly in those runs |
| Replication.ClientHoldsEverything | src/ptyxis-client.c:198-242 | With nothing in flight the client has one entry for every own and every provider container |
| ContainerAgents.AgentImpl.AddContainer | agent/ptyxis-agent-impl.c:214-242 | Appends the export, and announces it at its position once the list has been asked for |
| ContainerAgents.AgentImpl.ProviderRemoved | agent/ptyxis-agent-impl.c:148-177 | Removes the first element with the id and announces the position it had |
| ContainerAgents.AgentImpl.HandleListContainers | agent/ptyxis-agent-impl.c:244-271 | Replies with the paths in order and begins to announce |
| ContainerAgents.Provider.RealRemoved | agent/ptyxis-container-provider.c:63-81 | Removes the object itself at the position where it is and announces it |
| ContainerAgents.Provider.EmitAdded | agent/ptyxis-container-provider.c:144-166 | A known id changes nothing; otherwise the agent hears of it first and then the list grows |
| ContainerAgents.Provider.ReplaceOrRemove | agent/ptyxis-container-provider.c:197-210 | One turn of the reverse scan replaces the container or lets it go, with the listener right afterwards |
| ContainerAgents.Provider.ReplaceAll | agent/ptyxis-container-provider.c:197-210 | The reverse scan leaves the survivors and has sent the departures |
| ContainerAgents.Provider.AddMissing | agent/ptyxis-container-provider.c:212-221 | The second scan adds what is missing, once each |
| ContainerAgents.Provider.MergeInput | agent/ptyxis-container-provider.c:186-222 | The loops compute the merge, the agent has followed and announced every signal, listeners are told each changed position once, and one that only splices holds the new list |
| ContainerAgents.OnSignalsAppend | agent/ptyxis-agent-impl.c:136-242 | Following and announcing a series of signals composes |
| ContainerAgents.Client.AddListed | src/ptyxis-client.c:448-476 | The reply loop appends one proxy per path in order |
| ContainerAgents.Client.ContainersChanged | src/ptyxis-client.c:198-242 | Removing and inserting one by one is the splice; listeners are told its position and counts once, and a splicing one agrees |
| GatedListModels.ReplayOne | src/ptyxis-gated-list-model.c:82-95 | Replaying one more change is one more splice |
| GatedListModels.GatedListModel.NItems | src/ptyxis-gated-list-model.c:46-55 | The number of items shown: none while gated or without a model |
| GatedListModels.GatedListModel.ItemsChangedCb | src/ptyxis-gated-list-model.c:82-95 | A change of the inner model is passed on as it is, or kept back while gated; the listener holds what is shown |
| GatedListModels.GatedListModel.SetModel | src/ptyxis-gated-list-model.c:97-136 | After changing the model the replay of everything ever announced is what is shown; the whole list is announced as replaced, unless the model is the same or nothing was and is shown |
| GatedListModels.GatedListModel.SetGated | src/ptyxis-gated-list-model.c:138-166 | After opening or closing the gate the replay of everything ever announced is what is shown; the whole list is announced as replaced, unless the gate was so already or nothing was and is shown |
| Hsla.RgbRoundTrip | src/gdkhsla.c:24-165 | Red, green and blue in [0,1] come back exactly from hue, saturation and lightness |
| Hsla.HslRoundTripIff | src/gdkhsla.c:24-165 | For saturation and lightness in [0,1] the other round trip is the identity exactly for hue in [0,360) with saturation above 0 and lightness strictly between, or hue and saturation 0 |
| Hsla.HslNormalised | src/gdkhsla.c:24-165 | Any hue gives a colour in range, from which saturation, lightness and the hue up to whole turns come back; grey, black and white come back without hue |
| Hsla.HuePeriod | src/gdkhsla.c:117-164 | The colour depends on the hue only up to whole turns, forward or back |
| Hsla.FromRgbInRange | src/gdkhsla.c:24-91 | Saturation and lightness land in [0,1] and the hue in [0,360) |
| Hsla.WhatIsConverted | src/gdkhsla.c:24-91 | Lightness is halfway between the strongest and the weakest channel, saturation their distance against what the lightness leaves room for, and alpha is passed on both ways |
| Hsla.CornersOfTheCircle | src/gdkhsla.c:74-89 | Red, yellow, green, cyan, blue and magenta have the hues 0, 60, 120, 180, 240 and 300 |
| Hsla.SectorHeights | src/gdkhsla.c:74-89 | The hue found in each of the six sectors gives every channel its height back |
| Hsla.ApartFromHeights | src/gdkhsla.c:117-164 | The heights of the three channels determine the extremes and the hue |
| Hsla.ShadeByOne | src/gdkhsla.c:168-185 | Shading by 1 gives every colour back |
| Hsla.ShadeStaysInRange | src/gdkhsla.c:168-185 | Shading by any factor stays in range, also as red, green and blue |
| Hsla.ShadeTwiceIff | src/gdkhsla.c:168-185 | Shading twice is shading by the product except exactly when the first factor is clamped and the second leads back below 1 |
| Hsla.ShadeMeans | src/gdkhsla.c:168-185 | Shading leaves hue and alpha alone and multiplies lightness and saturation, cut off at 0 and 1 |
| Hsla.Hsla.InitFromRgba | src/gdkhsla.c:24-91 | The nested comparisons and sector tests compute the conversion |
| Hsla.ChannelAt | src/gdkhsla.c:119-132 | The normalising loops terminate and compute the channel |
| Hsla.Rgba.InitFromHsla | src/gdkhsla.c:93-165 | The field-by-field code computes the conversion |
| Hsla.Hsla.ShadeFrom | src/gdkhsla.c:168-185 | Hue and alpha are the source's; lightness and saturation are its own times the factor, or the nearer bound of [0,1]; also when source and target are the same |
| ProxyUris.DecodeEscape | agent/ptyxis-agent-impl.c:535-538 | Percent-decoding undoes escaping for every string |
| ProxyUris.EscapeAvoids | agent/ptyxis-agent-impl.c:535-538 | A delimiter that is not allowed never stands in an escaped part |
| ProxyUris.AuthorityRoundTrip | agent/ptyxis-agent-impl.c:540-579 | Splitting the authority (section 3.2 of RFC 3986) and decoding (section 2.1) recovers user, password, host and port, brackets and colons included |
| ProxyUris.UriRoundTrip | agent/ptyxis-agent-impl.c:540-579 | The same for the whole URI with its scheme |
| ProxyUris.SameUriIff | agent/ptyxis-agent-impl.c:540-579 | Two proxies have the same authority exactly when they agree in all that counts: a password only with a user, a port only above 0 |
| ProxyUris.AppendEscaped | agent/ptyxis-agent-impl.c:553-572 | The loop over the characters computes the escaped text |
| ProxyUris.UriBuildWithUser | agent/ptyxis-agent-impl.c:540-579 | What the result reads as: the protocol, the user, the password if there is a user, the host, the port if above 0, and brackets if and only if the host has a colon and is an IP address |
| ProxyUris.EscapedIff | agent/ptyxis-agent-impl.c:535-538 | Which characters stay as they are in a user, a password, an address and a host name, listed; all others become a percent sign and two digits, upper case |
| ProxyUris.Brackets | agent/ptyxis-agent-impl.c:564-573 | A bracket stands in the authority exactly if the host is written as a literal address |
| ProxyUris.AppendHost | agent/ptyxis-agent-impl.c:564-573 | Writes the host in brackets exactly if it has a colon and is an IP address |
| ProxyUris.AppendUserInfo | agent/ptyxis-agent-impl.c:551-562 | Writes the user and, only with a user, the password |
| Decimals.ParseDecimal | agent/ptyxis-agent-impl.c:575-576 | A number printed with %d reads back |
| Decimals.NoLeadingZero | agent/ptyxis-agent-impl.c:575-576 | No printed number but 0 itself begins with a zero |
| ParkingLots.EachLeavesOnce | src/ptyxis-parking-lot.c:53-89 | Over every run each entry ever pushed is in exactly one place once: parked, popped or forced to quit |
| ParkingLots.PoppedIsUnharmed | src/ptyxis-parking-lot.c:227-245 | A popped entry is never forced to quit, and after disposal every entry has left |
| ParkingLots.FirstInFirstOut | src/ptyxis-parking-lot.c:196-245 | Entries are popped in order of arrival, and what is still parked came later |
| ParkingLots.PopTakesOldest | src/ptyxis-parking-lot.c:227-245 | In any run a pop of a lot with something in it moves exactly one entry, the oldest parked, to the popped ones; a pop of an empty lot changes nothing |
| ParkingLots.PopTwice | src/ptyxis-parking-lot.c:227-245 | Two pops after any run take the two oldest entries, or as many as there are |
| ParkingLots.OtherSteps | src/ptyxis-parking-lot.c:53-219 | In any run a push parks a new entry last, a timer that runs out moves its entry alone to those forced to quit, and disposal moves all of them, in order |
| ParkingLots.ParkingLot.PushTab | src/ptyxis-parking-lot.c:196-219 | The new entry stands last with a timer of its own and nothing else changes; timers and entries stay one to one |
| ParkingLots.ParkingLot.Remove | src/ptyxis-parking-lot.c:53-78 | The entry is unlinked, freed and its timer cleared; a tab nobody took may quit |
| ParkingLots.ParkingLot.PopTab | src/ptyxis-parking-lot.c:227-245 | With something parked: the entry at the head is unlinked and freed, its timer is gone, its tab is returned and it joins the popped ones, and nothing is forced to quit; otherwise nothing changes |
| ParkingLots.ParkingLot.SourceFunc | src/ptyxis-parking-lot.c:181-194 | A timer's entry is in use, and exactly its tab is forced to quit |
| ParkingLots.ParkingLot.DisposeAll | src/ptyxis-parking-lot.c:80-89 | Terminates with no entry and no timer left, quitting from the head on |
| ParkingLots.TimerFires | src/ptyxis-parking-lot.c:181-194 | No timer refers to a freed entry; after it fires its entry is freed and it is gone |
| LineReaders.LinesAreSplit | src/line-reader-private.h:59-92 | The lines read are the pieces between newlines, each without one return before its newline |
| LineReaders.SplitJoins | src/line-reader-private.h:59-92 | The pieces joined again are the text |
| LineReaders.PiecesClean | src/line-reader-private.h:59-92 | No piece holds a newline and there is no empty piece at the end |
| LineReaders.Terminators | src/line-reader-private.h:76-87 | What a line skips is a newline, a return and a newline, or nothing at the end |
| LineReaders.LinesCover | src/line-reader-private.h:59-92 | Each line starts where the one before stops skipping, so slices and terminators make up the text |
| LineReaders.LineAt | src/line-reader-private.h:74-91 | A line is a slice within the buffer, and reading moves forward |
| LineReaders.ReadBeforeNewline | src/line-reader-private.h:74-87 | Anywhere in a buffer, a text that does not end in \r and has a \n after it is read in full, and reading goes on after the \n |
| LineReaders.ReadBeforeReturn | src/line-reader-private.h:79-84 | Any text without \n that has \r\n after it is read in full, further returns at its end included, and reading goes on after both |
| LineReaders.ReadAtTheEnd | src/line-reader-private.h:89-91 | The last text is read in full, a return at its end included |
| LineReaders.WrittenWithReturns | src/line-reader-private.h:59-92 | Any list of texts without \n, written with \r\n after each, is read back as it was |
| LineReaders.WrittenWithNewlines | src/line-reader-private.h:59-92 | Written with \n after each, every text is read back, in full or without the one \r it ends in |
| LineReaders.LineReader.Next | src/line-reader-private.h:59-92 | Yields the first of the lines still to come, in bounds, or says that there is none |
| LineReaders.LineReader.constructor | src/line-reader-private.h:35-57 | Starts at the beginning with the length given, or all of the text; no text means no length |
| LineReaders.ReadAll | src/line-reader-private.h:59-92 | Reading to the end terminates with every line once, in order |
| Sessions.TabBack | src/ptyxis-session.c:96-276 | A saved tab comes back with the pinned and active marks it was saved with, and as Came says, which BecomesIff spells out |
| Sessions.BecomesIff | src/ptyxis-session.c:96-276 | What becomes of a tab, field by field: a profile that does not exist becomes the default one; a container is kept exactly if it exists and is not its profile's own; an empty title or directory is dropped; a zoom outside 1 to 29 becomes 15; the size is the stored one only if sizes are restored and the window is not maximized |
| Sessions.TabBecomes | src/ptyxis-session.c:96-276 | A tab saved and restored becomes that |
| Sessions.TabFromDict | src/ptyxis-session.c:216-273 | What any dictionary gives, with keys missing, of another type or naming what does not exist: a missing, empty or unknown profile is the default one, a missing, empty or unknown container none, a missing or impossible zoom 15 |
| Sessions.SizeFromDict | src/ptyxis-session.c:228-230 | The size a dictionary gives: the initial one in a maximized window, the stored one if sizes are restored and one is stored, else the default one |
| Sessions.SavedFixed | src/ptyxis-session.c:123-129 | The keys profile, pinned, size and active are always stored, with the tab's values, and no key but eight named ones |
| Sessions.SavedOptional | src/ptyxis-session.c:127-136 | The keys zoom, window-title, cwd and container are stored exactly if the zoom is not 15, the text is not empty, and the container is not the profile's own |
| Sessions.StateKeys | src/ptyxis-session.c:30-153 | A state has a version, 1, and one dictionary per window, with its maximized flag and as many tabs as are to be saved |
| Sessions.WhatIsRestored | src/ptyxis-session.c:172-197 | Without a version or a list of windows nothing is restored; otherwise as many windows come as have a tab to bring back, whoever wrote the state |
| Sessions.LastingIff | src/ptyxis-session.c:96-276 | A tab comes back unchanged exactly if its profile exists or is the default, its title and directory are not empty strings, its container exists and is not the default, its zoom is in range and its size is restored |
| Sessions.WindowBack | src/ptyxis-session.c:49-313 | A window restored from its dictionary is what filling it in directly gives |
| Sessions.WindowKept | src/ptyxis-session.c:49-313 | With sessions restored every tab comes back as what it becomes, pinned ones first and otherwise in order; the active tab and the maximized flag are kept |
| Sessions.TargetSame | src/ptyxis-session.c:275-276 | In a window with its pinned tabs first every tab keeps its position |
| Sessions.WindowRoundTripIff | src/ptyxis-session.c:30-317 | The round trip of a window is the identity exactly if it has tabs, pinned ones first, an active one, and each tab lasts |
| Sessions.SessionRoundTripIff | src/ptyxis-session.c:30-317 | The round trip of a session is the identity exactly if that holds of every window |
| Sessions.OffEitherWay | src/ptyxis-session.c:78-226 | With restoring off the outcome is the same whether the session was saved with it on or off |
| Sessions.WindowOff | src/ptyxis-session.c:225-311 | A window then has what its pinned tabs become, in order, and one plain tab of the default profile, active unless a pinned one was; without pinned tabs it is gone |
| SessionWindows.SaveOneTab | src/ptyxis-session.c:96-137 | The builder steps give the tab's dictionary |
| SessionWindows.SaveOneWindow | src/ptyxis-session.c:55-144 | The loop over the pages gives the window's dictionary |
| SessionWindows.SessionSave | src/ptyxis-session.c:30-153 | The loop over the windows gives the state |
| SessionWindows.MakeTab | src/ptyxis-session.c:216-273 | The lookups and setters make the tab the dictionary stands for |
| SessionWindows.AddNext | src/ptyxis-session.c:253-279 | Adding, pinning and remembering the active tab keeps window and active tab right |
| SessionWindows.RestoreOne | src/ptyxis-session.c:182-313 | The loop over the tabs creates the window the dictionary stands for, or none, with the right page selected |
| SessionWindows.SessionRestore | src/ptyxis-session.c:155-317 | The loop over the windows creates those that have tabs, in order, and reports whether there is one |

## Left out

- Cancelling a wait: a cancelled ping ends the wait early and can leave its path in the table.
- Failing proxies and failing exports in the replication of containers, and clearing the lists on disposal: the code gives no clean guarantee there.
- More than one provider feeding the agent: base containers and one provider are modelled.
- D-Bus transport and GVariant encoding: channels of values stand for them.
- Signal emission and closures of GObject: connecting a handler is a field, emitting is a call.
- The order of emission when a handler of a list change changes the list again.
- Which updates of containers a podman provider notices: updates are inputs.
- What `flatpak-spawn`, `podman exec` and `distrobox enter` do: the words of a host layer are read back as the call they make (LoweringAccounts.HostReadsBack), but what happens on the other side is not part of the meaning of a stack.
- Start-up files of login and interactive shells, which could change the environment before the command runs.
- RunContexts.RunContext.SpawnWithFlags: does not model silencing of standard output and error, the terminal set-up in the child, or the launcher's own failure after it has the descriptors.
- Controlling terminals, `/proc`, resource limits and the choice of shell: foreign calls.
- GOption parsing after the rewrite of `--`, and everything else the command line can ask for.
- Rounding of floating-point numbers in Hsla, and colours outside [0,1], where the conversion can divide by zero.
- Replication.AgentFollowsProvider: one direction only for the sequence of ids; the exact condition is stated for the containers themselves (OwnStayIffBenign), since ids alone can agree by accident.
- Programs.ShellRuns: texts that read as one simple command; expansions, redirections and compound commands do not occur in quoted text.
- Which hosts the resolver library takes for IP addresses is a parameter.
- Sizes in sessions as the window manager finally grants them, and icons, titles and colours shown for tabs.
- The length of a parking timeout and the order in which timers run out; any order is covered.
- Sharing of objects between windows, tabs and profiles when a session is saved: saving reads windows as values; restoring creates objects.
- The life of a GTask as an object: a task is a value in a field of the application, with its reference count and its results.
- Widgets, dialogs, preferences, palettes, settings storage and translations.
- Integer widths: counters and sizes are unbounded except the 32-bit wait status.
