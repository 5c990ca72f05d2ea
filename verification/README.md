# Verified model of a Lua interpreter with FLTK bindings

The repository builds a stand-alone Lua interpreter with the FLTK toolkit bound into it. This
project models the parts of it that hold algorithms or long-lived state and proves what they
keep. One module models one component:

| module | component |
|---|---|
| `Bits`, `Bitlib`, `BitCalls` | the bit library: operations on 53-bit numbers carried out on 64-bit words |
| `CommandLine`, `CommandLog` | the interpreter's command line, which is walked twice, and what a run of it does |
| `Decrypt` | the in-place decoder of a frozen script |
| `LoadLine` | the reader that asks for lines until a chunk is complete |
| `Registry`, `Callbacks` | references in the Lua registry and their owners: widgets, menu items, idle functions, timeouts, two handlers |
| `Tree` | tree items in the heap: selection, walking, insertion, removal |
| `TextLines`, `Selection`, `Allocation`, `Editing`, `Buffers`, `GapBuffer`, `Sharing` | the text buffer: lines, selections, what is allocated, undo, several buffers sharing the undo record, the gap, and such buffers as objects |
| `Spinner` | the spinner's value and the number of decimals it shows |
| `FontStack` | the help viewer's saturating font stack |

Code that works by changing things in place is a method on a class or an array, proved against a
function or a plain sequence; the theorems are lemmas about that function. Run
`dafny verify dfyconfig.toml` to check everything.

## Main results

- **Bit library.** For calls nested in any way, with any number of arguments, the library computes
  what a machine with 53-bit words would (`Bitlib.RunIsMeaning`), although it works on signed 64-bit
  words, pushes unsigned numbers and reads them back signed.
- **Command line.** What the first pass accepts is exactly the set of renderings of legal command
  lines (`ParseRender`, `RenderParse`); the second pass visits the positions the first one accepted,
  meets its three assertions and stops on its bound (`RunArgs`); the whole of `pmain` produces the
  events asked for, up to the first that fails (`PMain`). In terms of the command line alone: where
  each chunk, library and script stands in the log, and when it ends in the prompt or in standard
  input (`CommandLog.Lua`, `CommandLog.LogRuns`, `CommandLog.LogScript`).
- **Frozen script.** Decoding in place equals decoding out of place, and undoes the encoding.
- **Reader.** An input falls into chunks, each the least number of lines that is complete; the
  interactive loop runs those that compile, in order, and prints or reports what comes out: its log
  falls into pieces, one for each chunk (`LoadLine.SessionPartition`, `LoadLine.Reader.Dotty`,
  `LoadLine.PieceMeans`).
- **References.** In every run of setting, adding, firing, repeating and removing, no live reference
  has two owners and nothing pending refers to a released one (`Callbacks.RunKeeps`,
  `Callbacks.OneOwner`). From registration to removal, over every run in between, the call back
  passes the function and the data that were given (`Callbacks.CallToRemoval`,
  `Callbacks.WidgetToChange`, `Callbacks.HandlerToRemoval`, `Callbacks.FocusToRemoval`). A timeout
  is pending once, once more for each time it is repeated and once less for each time it fires
  (`Callbacks.TimeoutToRemoval`); idle functions are called in turn (`Callbacks.IdlesInTurn`).
- **Tree.** Selection counts and touches exactly the subtree; `next` and `prev` walk the preorder;
  insertion and removal splice it.
- **Text buffer.** All editing is a splice of the text, wherever the gap lies (`GapBuffer`). Over
  every run of one buffer's edits one undo goes back to the text before the change under way and a
  second one forward again (`Editing.RunUndoes`). Over every run of any number of buffers, which
  share one undo record, with `text`, `copy` and `canUndo` among the steps, undo in a buffer that
  does not own the record does nothing, and in its owner leads back to a text that buffer has had
  as long as the change can be followed (`Buffers.RunUndoes`). Buffer objects that share the record
  object do what these runs say (`Sharing.Replay`, `Sharing.ReplayAndUndo`).

## Where the code and its description part

Each of these is a theorem with the exact condition and, where only some inputs fail, a lemma at one
that does.

- A lone `-` should stand for standard input. It does not when the word before it is `--` without
  ending the options, as the detached argument of the last option or the program's name
  (`CommandLine.StdinExactly`; `lua -e -- -` in `CommandLine.StdinMissed`).
- The decoder is given the length of the encoded script, not of the decoded one, so the text it
  leaves equals the script only if no byte had to be escaped (`Decrypt.CallerLength`,
  `Decrypt.CallerLengthens`). For the same reason it reads one step behind the encoding for every
  escaped byte, and stays inside the allocation exactly when the ten bytes behind the script feed
  that many steps: always for at most five, never from ten on (`Decrypt.CallerFits`,
  `Decrypt.CallerReadsPast`).
- The release test after a timeout fires never succeeds, because the field it looks at is always a
  boolean; the reference of a timeout lives until it is removed (`Callbacks.KeepsFinish`,
  `Callbacks.RunLeaves`).
- `rewind_lines` by no lines does not find the start of the line right behind a newline that opens
  the text (`TextLines.RewoundExactly`, `TextLines.RewoundTooFar`).
- A selection is not kept right when a deletion begins inside it and runs past its end
  (`Selection.DeletionTrackedExactly`, `Selection.DeletionLosesCharacter`).
- Setting the whole text should clear every selection. It clears those that lie within the old text
  (`Selection.ClearedExactly`, `Selection.NotCleared`).
- The first insertion after another buffer's deletion at the same position takes over the deleted
  text of that buffer for undo (`Editing.FirstInsertionUndone`, by steps of two buffers
  `Buffers.ForeignTextPutBack`).
- Undo after `text` or `copy` works on the new text with the old record, and leaves it alone exactly
  when the characters it replaces are the ones it puts in (`Buffers.UndoInOtherText`,
  `Buffers.SetTextCut`); the characters it would replace may not even be there
  (`Buffers.SetTextUndefined`).
- A replacement by the empty text is not undone (`Editing.BaseAfter`, `Editing.ReplacementNotUndone`).
- The header says that the allocated size is gap plus length. Over every run from the constructor
  that holds exactly when no extra size was requested, or some step replaced the whole text or
  inserted more than the gap held at that moment (`Allocation.AllocatedExactly`,
  `Buffers.AllocatedInRuns`, `Allocation.AllocatedOtherwise`).
- On the font stack, a properly nested word that overflows does not give the stack back
  (`FontStack.NestedRestores`, `FontStack.NotRestored`).
- Down undoes up on the spinner only where up does not wrap, or wraps from the bound itself
  (`Spinner.UndoneExactly`, `Spinner.NotUndone`).

## Model

| member | source | states |
|---|---|---|
| Bitlib.ToBit | bitlib-25/lbitlib.c:52-56 | the reading macro gives the signed 53-bit representative, every assignment to its scratch variable being below 2^53 in magnitude |
| Bitlib.SignedUnique | bitlib-25/lbitlib.c:52-56 | there is one number congruent to the argument modulo 2^53 in the signed range |
| Bitlib.VariadicLoop | bitlib-25/lbitlib.c:82-91 | the accumulating loop over any number of arguments, an error for none |
| Bitlib.BitsOfTruncate | bitlib-25/lbitlib.c:59-60 | masking is the residue modulo 2^53, for negative words too |
| Bitlib.BitsOfWordOp | bitlib-25/lbitlib.c:82-91 | an operator on signed 64-bit words acts on the low 53 bits as on 53-bit words |
| Bitlib.BitsOfBNot | bitlib-25/lbitlib.c:75-80 | complement of the 64-bit word, truncated, flips the 53 bits |
| Bitlib.BitsOfLShift | bitlib-25/lbitlib.c:101-107 | the left shift moves bits up and fills with zeros |
| Bitlib.BitsOfRShift | bitlib-25/lbitlib.c:93-99 | the right shift moves bits down and fills with zeros although its operand was read signed |
| Bitlib.BitsOfARShift | bitlib-25/lbitlib.c:101-107 | the arithmetic shift fills with bit 52 although its operand was pushed unsigned |
| Bitlib.RunIsMeaning | bitlib-25/lbitlib.c:52-116 | for every nesting of calls the library fails or computes exactly as a 53-bit machine |
| Bitlib.VariadicByBits | bitlib-25/lbitlib.c:111-113 | a bit of the result is set if it is set in all, some, or an odd number of the arguments |
| BitCalls.VariadicMeans | bitlib-25/lbitlib.c:111-113 | in the numbers themselves: a bit of the result of band, bor, bxor is set if it is set in all, in some, in an odd number of the arguments |
| BitCalls.VariadicOfNone | bitlib-25/lbitlib.c:82-91 | no argument, no result |
| Bitlib.VariadicUnordered | bitlib-25/lbitlib.c:82-91 | the result does not depend on the order of the arguments |
| Bitlib.VariadicNested | bitlib-25/lbitlib.c:82-91 | replacing part of the arguments by a call on that part changes nothing |
| Bitlib.LShiftIsProduct | bitlib-25/lbitlib.c:114 | x times 2^n modulo 2^53 |
| Bitlib.RShiftIsQuotient | bitlib-25/lbitlib.c:115 | the floor of x modulo 2^53 by 2^n |
| Bitlib.ARShiftIsFloor | bitlib-25/lbitlib.c:116 | the floor of the signed value by 2^n, modulo 2^53 |
| Bitlib.LShiftsCompose | bitlib-25/lbitlib.c:101-107 | shifting left by a and then b is shifting by a + b |
| Bitlib.RShiftsCompose | bitlib-25/lbitlib.c:93-99 | the same for the logical right shift |
| Bitlib.ARShiftsCompose | bitlib-25/lbitlib.c:101-107 | the same for the arithmetic right shift across an unsigned intermediate |
| Bitlib.CastIsResidue | bitlib-25/lbitlib.c:109 | cast is the residue modulo 2^53 |
| Bitlib.CastTwice | bitlib-25/lbitlib.c:109 | cast is idempotent |
| Bitlib.NotTwice | bitlib-25/lbitlib.c:109-110 | complementing twice is casting |
| Bitlib.NotIsMinus | bitlib-25/lbitlib.c:110 | the complement is -x - 1 modulo 2^53 |
| Bitlib.DeMorgan | bitlib-25/lbitlib.c:110-112 | De Morgan's laws hold across calls for any number of arguments |
| CommandLine.ParseRender | luafltk/lua.c:361-391 | reading the rendering of a legal command line gives it back: options, ending, script, arguments |
| CommandLine.RenderParse | luafltk/lua.c:361-391 | whatever is accepted is the rendering of one legal command line |
| CommandLine.CollectWord | luafltk/lua.c:363-388 | the branches of the first pass on one word, with their flags, returns and errors |
| CommandLine.CollectArgs | luafltk/lua.c:361-391 | the first pass: script index, -1 exactly for invalid lines, flags, accepted positions |
| CommandLine.FlagsMean | luafltk/lua.c:372-381 | which options set which flag; -i sets two |
| CommandLine.RunWord | luafltk/lua.c:399-417 | one turn of the second pass: what runs, which words are used, both assertions |
| CommandLine.RunArgs | luafltk/lua.c:394-420 | the second pass visits exactly what the first accepted, never the script, and without failure ends on its bound |
| CommandLine.AfterOpts | luafltk/lua.c:467 | the bound pmain passes lies right behind the words the first pass visited |
| CommandLine.GetArgs | luafltk/lua.c:114-129 | pushes the script's arguments and fills the table |
| CommandLine.ArgTableHolds | luafltk/lua.c:124-127 | the table holds argv[i] under i - n for every i and nothing else |
| CommandLine.StdinExactly | luafltk/lua.c:344-346 | when a lone dash is standard input, and where the script and its arguments stand |
| CommandLine.StdinMissed | luafltk/lua.c:344-346 | the command line `lua -e -- -` is legal, has the script `-`, and reads a file |
| CommandLine.HandleScript | luafltk/lua.c:339-354 | the script runs with its arguments and table, from a file or standard input |
| CommandLine.Interact | luafltk/lua.c:472-480 | prompt, banner or standard input at the end |
| CommandLine.OutcomeUnique | luafltk/lua.c:443-482 | what was run is determined: all that was asked for, up to the first failure |
| CommandLine.PMain | luafltk/lua.c:460-481 | the whole run: usage for an invalid line, otherwise banner, options, script, interaction in order up to the first failure |
| CommandLog.Lua | luafltk/lua.c:460-481 | a valid command line stops at the first failure; without one the prompt is reached exactly with -i, or at a terminal when nothing was asked for, and standard input is run exactly when nothing was asked for elsewhere |
| CommandLog.LuaUsage | luafltk/lua.c:461-465 | an invalid one does nothing but show the usage |
| CommandLog.LogRuns | luafltk/lua.c:466-468 | the banner first with -v or -i; then each -e and -l in its place |
| CommandLog.LogScript | luafltk/lua.c:469-470 | then the script, its file or standard input, its arguments |
| CommandLog.LogScriptTable | luafltk/lua.c:114-129 | with every word counted from it |
| CommandLog.LogEnds | luafltk/lua.c:472-480 | what comes behind them |
| CommandLog.PromptExactly | luafltk/lua.c:472-480 | when the prompt and standard input occur at all |
| CommandLog.LineShows | luafltk/lua.c:361-391 | two command lines, spelled out |
| Decrypt.KeyCycles | luafltk/lua.c:150-168 | the key at step i is 3 + i mod 5 |
| Decrypt.WrapIsMod | luafltk/lua.c:164 | adding the key wraps at 256 |
| Decrypt.Simdecrypt | luafltk/lua.c:152-171 | decoding in place equals decoding the original bytes, the read index being the write index plus the escapes seen |
| Decrypt.DecodeMeans | luafltk/lua.c:152-171 | each step: a zero stands for the byte behind it, any other byte is moved up by 3 to 7 in turn, around 256 |
| Decrypt.RoundTrip | luafltk/lua.c:152-171 | decoding as many bytes as were encoded gives them back, whatever follows |
| Decrypt.EncodeLength | luafltk/lua.c:160-165 | the encoding is longer by the number of escaped bytes |
| Decrypt.CallerFits | luafltk/lua.c:226-236 | the decoder stays inside the allocation exactly when what lies behind the script feeds a step for each escaped byte; with the ten bytes there are, always for at most five and never from ten on |
| Decrypt.CallerReadsPast | luafltk/lua.c:226-236 | ten bytes equal to their keys make it read past them |
| Decrypt.CallerLength | luafltk/lua.c:226-246 | with the length the caller passes, wherever the decoder stays inside, the text is the script exactly when no byte equals its key |
| Decrypt.CallerLengthens | luafltk/lua.c:226-246 | the script of one byte 3 becomes two bytes |
| LoadLine.Reader.PushLine | luafltk/lua.c:277-293 | one line without its newline, a leading equals sign turned into return |
| LoadLine.LineTextMeans | luafltk/lua.c:283-290 | a newline at the end makes no difference; an equals sign in front of the first line returns the rest |
| LoadLine.Reader.Incomplete | luafltk/lua.c:263-274 | asks for more exactly when the first mark is the end of a syntax error's message, and pops it |
| LoadLine.Strstr | luafltk/lua.c:267-268 | the first place of the mark in the message |
| LoadLine.AsksMeans | luafltk/lua.c:267-268 | the message ends in the mark and holds it nowhere else |
| LoadLine.Reader.JoinLines | luafltk/lua.c:306-308 | two lines are joined with a newline between them |
| LoadLine.JoinedShows | luafltk/lua.c:301-308 | a chunk of two lines, spelled out: only the first is looked at for an equals sign |
| LoadLine.Reader.LoadLine | luafltk/lua.c:296-313 | reads the least number of lines that is complete and leaves only the result, or returns -1 at the end of the input |
| LoadLine.CompleteIsMinimal | luafltk/lua.c:301-309 | a chunk is complete and no shorter prefix of it is |
| LoadLine.SessionPartition | luafltk/lua.c:316-336 | an input falls into minimal chunks in order; what is left over is incomplete however it is cut |
| LoadLine.Reader.DoCall | luafltk/lua.c:94-107 | the chunk runs and leaves its results or its error |
| LoadLine.Reader.Report | luafltk/lua.c:63-71 | an error other than nil is reported, with a text of its own when it is not a string |
| LoadLine.Reader.PrintResults | luafltk/lua.c:323-329 | results are printed, an error in `print` is reported |
| LoadLine.Reader.Dotty | luafltk/lua.c:316-332 | everything the interactive loop runs, prints and reports, chunk by chunk, whatever the chunks do |
| LoadLine.TranscriptRuns | luafltk/lua.c:316-332 | what is run are the minimal chunks that compile, in order, whatever errors occur |
| LoadLine.TextsOfSession | luafltk/lua.c:316-332 | those are the chunks of the session that compile |
| LoadLine.PieceMeans | luafltk/lua.c:316-332 | all that happens with a chunk: its message, or its run, its results printed, the errors of either |
| LoadLine.TranscriptPieces | luafltk/lua.c:316-332 | the log falls into such pieces, one for each chunk in order |
| LoadLine.Answers | luafltk/lua.c:63-71 | results are printed right behind what returned them and nothing else is; an error is reported right behind what raised it |
| Registry.LuaTable.LuaRef | lua-5.1.4/src/lauxlib.c:481-501 | taking a reference: reuse of the free list, nil kept apart |
| Registry.LuaTable.LuaUnref | lua-5.1.4/src/lauxlib.c:504-512 | releasing a reference puts it in front of the free list |
| Registry.RefIsNew | lua-5.1.4/src/lauxlib.c:481-501 | a new reference was not live, holds the value and leaves the others alone |
| Registry.UnrefReleases | lua-5.1.4/src/lauxlib.c:504-512 | releasing a live reference frees it and no other |
| Registry.UnrefExactly | lua-5.1.4/src/lauxlib.c:504-512 | the free list stays sound exactly when the released reference was live |
| Registry.ReleasedTwice | lua-5.1.4/src/lauxlib.c:481-512 | a reference released twice is handed out twice |
| Callbacks.Binding.SetWidgetCallback | libluafltk/fl_lua_misc.cpp:66-76 | releases the data held, then keeps the new, as the step function says |
| Callbacks.Binding.SetMenuItemCallback | libluafltk/fl_lua_misc.cpp:542-561 | keeps the new table, then releases the one held |
| Callbacks.Binding.AddEventHandler | libluafltk/fl_lua_misc.cpp:216-226 | takes the handler slot only when it is empty |
| Callbacks.Binding.RemoveEventHandler | libluafltk/fl_lua_misc.cpp:228-235 | releases and empties the slot |
| Callbacks.Binding.AddFocusChangingHandler | libluafltk/fl_lua_misc.cpp:465-475 | the same for the focus slot |
| Callbacks.Binding.RemoveFocusChangingHandler | libluafltk/fl_lua_misc.cpp:477-485 | the same for the focus slot |
| Callbacks.Binding.AddIdleFunction | libluafltk/fl_lua_misc.cpp:253-268 | a new table under a new reference at the end of the ring; 0 without a function |
| Callbacks.Binding.CallIdleFunction | fltk/src/Fl_add_idle.cxx:46-50 | the ring turns and the first function is called with its data |
| Callbacks.Binding.RemoveIdleFunction | libluafltk/fl_lua_misc.cpp:270-275 | whatever reference is given is taken out of the ring and released; when the ledger outlives that |
| Callbacks.Binding.RemoveFromRing | fltk/src/Fl_add_idle.cxx:101-119 | the ring goes on behind the one taken out |
| Callbacks.Binding.AddTimer | libluafltk/fl_lua_misc.cpp:298-315 | a new table under a new reference, pending; 0 without a function |
| Callbacks.Binding.RepeatTimer | libluafltk/fl_lua_misc.cpp:317-329 | marks the table and makes it pending again, if there is a table, of whatever family; when the ledger outlives that |
| Callbacks.Binding.CallTimer | libluafltk/fl_lua_misc.cpp:277-289 | no longer pending, called with the function and data of its table |
| Callbacks.Binding.FinishTimer | libluafltk/fl_lua_misc.cpp:290-296 | the release test after the call releases nothing |
| Callbacks.Binding.RemoveTimer | libluafltk/fl_lua_misc.cpp:331-335 | all pending calls of the reference are dropped, or all there are for 0, and it is released; when the ledger outlives that |
| Callbacks.StepKeeps | libluafltk/fl_lua_misc.cpp:66-335 | every step keeps the ledger of references and owners |
| Callbacks.RemoveIdleExactly | libluafltk/fl_lua_misc.cpp:270-275 | whatever reference is given, the ledger outlives the removal exactly when it is one of an idle function, spare, or negative |
| Callbacks.RemoveTimeoutExactly | libluafltk/fl_lua_misc.cpp:331-335 | the same for a timeout, 0 taken for all that are pending |
| Callbacks.RepeatExactly | libluafltk/fl_lua_misc.cpp:317-329 | repeating keeps it exactly when the reference is a timeout's or stands for no table |
| Callbacks.RunKeeps | libluafltk/fl_lua_misc.cpp:66-335 | so does every run, callbacks that change registrations while they run included |
| Callbacks.KeepsFinish | libluafltk/fl_lua_misc.cpp:290-293 | the field tested after a timeout is a boolean in every reachable state |
| Callbacks.OneOwner | libluafltk/fl_lua_misc.cpp:66-335 | a reference remembered by a widget, menu item, idle ring, timeout list or slot is live and remembered by that owner only; a live one is remembered by its owner, except those of timeouts that have run and of other users of the registry |
| Callbacks.PendingAndIdleAreTables | libluafltk/fl_lua_misc.cpp:237-335 | every pending timeout and idle function refers to a live table |
| Callbacks.StepLeaves | libluafltk/fl_lua_misc.cpp:66-335 | a step that does not give up a reference leaves it, its value and the call it stands for |
| Callbacks.RunLeaves | libluafltk/fl_lua_misc.cpp:237-335 | until it is removed a reference keeps its owner, its value and the call it stands for, however often it fires |
| Callbacks.CallSet | libluafltk/fl_lua_misc.cpp:253-315 | right after a menu item, an idle function or a timeout is registered, its new reference calls the function given with the data given |
| Callbacks.CallToRemoval | libluafltk/fl_lua_misc.cpp:237-335 | and so it does after every run up to its removal, remembered by its owner |
| Callbacks.HandlerToRemoval | libluafltk/fl_lua_misc.cpp:200-235 | a handler that finds the slot empty is the one called until it is removed |
| Callbacks.FocusToRemoval | libluafltk/fl_lua_misc.cpp:448-485 | the same for the focus slot |
| Callbacks.Binding.CallWidget | libluafltk/fl_lua_misc.cpp:51-64 | what a widget calls, and with which data |
| Callbacks.Binding.CallHandler | libluafltk/fl_lua_misc.cpp:201-214 | what the event handler calls |
| Callbacks.Binding.CallFocusHandler | libluafltk/fl_lua_misc.cpp:449-463 | what the focus handler calls |
| Callbacks.PendingCount | libluafltk/fl_lua_misc.cpp:277-335 | over every run up to its removal a timeout is pending as often as it was, plus its repetitions, minus its firings |
| Callbacks.TimeoutToRemoval | libluafltk/fl_lua_misc.cpp:298-335 | from its registration on that is once, so that it may fire until it has |
| Callbacks.AddAndFire | libluafltk/fl_lua_misc.cpp:277-315 | after any run a timeout may be added and then fire |
| Callbacks.IdlesInTurn | fltk/src/Fl_add_idle.cxx:46-50 | after n calls the next idle function is the one at place n modulo their number |
| Callbacks.WidgetCallSet | libluafltk/fl_lua_misc.cpp:51-76 | a widget calls the function it was given with the data it was given |
| Callbacks.WidgetCallStays | libluafltk/fl_lua_misc.cpp:51-76 | and goes on doing so whatever happens to all others |
| Callbacks.WidgetToChange | libluafltk/fl_lua_misc.cpp:51-76 | over every run until it is set again, a widget calls the function it was given with the data it was given |
| Callbacks.WidgetReplaced | libluafltk/fl_lua_misc.cpp:71-75 | exactly the old reference is released; new data get the same number again |
| Callbacks.MenuReplaced | libluafltk/fl_lua_misc.cpp:542-561 | exactly the old reference is released; the new table gets another number |
| Tree.Fl_Tree_Item.SelectAll | fltk/FL/Fl_Tree_Item.H:228-238 | returns how many items of the subtree were not selected, leaves all of it selected, touches nothing else |
| Tree.Fl_Tree_Item.DeselectAll | fltk/FL/Fl_Tree_Item.H:247-257 | its mirror image |
| Tree.CountSet | fltk/FL/Fl_Tree_Item.H:247-257 | what is counted are the places whose flag is set |
| Tree.CountUnset | fltk/FL/Fl_Tree_Item.H:228-238 | and those whose flag is not |
| Tree.DeselectAfterSelect | fltk/FL/Fl_Tree_Item.H:224-257 | on flags: after a selection every item counts as selected, and the two counts before it add up |
| Tree.SelectThenDeselect | fltk/FL/Fl_Tree_Item.H:224-257 | on a tree in the heap: a deselection right after a selection returns the number of items of the subtree |
| Tree.Fl_Tree_Item.FindChild | fltk/src/Fl_Tree_Item.cxx:213-220 | the first place of an item among the children, or -1 |
| Tree.Fl_Tree_Item.Next | fltk/src/Fl_Tree_Item.cxx:693-705 | the item with the next number in preorder, null at the end |
| Tree.Fl_Tree_Item.Prev | fltk/src/Fl_Tree_Item.cxx:714-727 | the item with the number before, null at the root |
| Tree.Fl_Tree_Item.LastBelow | fltk/FL/Fl_Tree.H:262-265 | the walk down the last children ends on the subtree's last item |
| Tree.Fl_Tree_Item.Insert | fltk/src/Fl_Tree_Item.cxx:284-290 | a new item at a place among the children; what results is a tree again |
| Tree.Fl_Tree_Item.ClearChildren | fltk/src/Fl_Tree_Item_Array.cxx:68-77 | every item below is deleted, each once |
| Tree.Fl_Tree_Item.RemoveChild | fltk/src/Fl_Tree_Item.cxx:311-320 | the child's subtree is deleted, nothing else; what is left is a tree |
| Tree.Layout.Nested | fltk/FL/Fl_Tree_Item.H:228-257 | subtrees contain or miss each other |
| Tree.Layout.SubtreeIsBelow | fltk/FL/Fl_Tree_Item.H:184-186 | an item's numbers are exactly those of the items from which the parent pointers lead to it |
| Tree.Grow | fltk/src/Fl_Tree_Item.cxx:284-290 | the numbering after an insertion, for every place |
| Tree.CutOut | fltk/src/Fl_Tree_Item.cxx:311-320 | the numbering after a removal, for every item but the root |
| Tree.Fl_Tree.constructor | fltk/src/Fl_Tree.cxx:80-84 | a tree begins with a root |
| Tree.Fl_Tree.Insert | fltk/src/Fl_Tree.cxx:128-130 | the new item appears in the walk behind its parent, nothing else moves |
| Tree.Fl_Tree.First | fltk/FL/Fl_Tree.H:245-247 | the first item of the walk, null for an empty tree |
| Tree.Fl_Tree.Last | fltk/FL/Fl_Tree.H:260-267 | the last item of the walk, null for an empty tree |
| Tree.Fl_Tree.WalkForward | fltk/FL/Fl_Tree.H:234-243 | the documented loop visits every item once, in order |
| Tree.Fl_Tree.WalkBackward | fltk/FL/Fl_Tree.H:248-258 | the documented loop visits every item once, in reverse |
| Tree.Fl_Tree.Clear | fltk/FL/Fl_Tree.H:198-202 | all items are deleted and the tree is empty |
| Tree.Fl_Tree.Remove | fltk/FL/Fl_Tree.H:184-195 | the subtree leaves the walk of the tree it hangs in, this one or another, and is deleted; all is for the root; 0 for null, -1 for an item without parent |
| GapBuffer.Fl_Text_Buffer.constructor | fltk/src/Fl_Text_Buffer.cxx:166-199 | an empty text, the gap and what is allocated beyond it |
| GapBuffer.Fl_Text_Buffer.Address | fltk/FL/Fl_Text_Buffer.H:254-261 | reads the character at a position, outside the gap |
| GapBuffer.Fl_Text_Buffer.TextAroundGap | fltk/FL/Fl_Text_Buffer.H:953-958 | the text is what lies before the gap followed by what lies behind it |
| GapBuffer.Fl_Text_Buffer.CopyText | fltk/src/Fl_Text_Buffer.cxx:220-226 | the whole text with its terminator |
| GapBuffer.Fl_Text_Buffer.TextRange | fltk/src/Fl_Text_Buffer.cxx:265-298 | a range of it, with the cases for bad bounds |
| GapBuffer.Fl_Text_Buffer.MoveGap | fltk/src/Fl_Text_Buffer.cxx:2009-2019 | the gap moves, the text stays |
| GapBuffer.Fl_Text_Buffer.ReallocateWithGap | fltk/src/Fl_Text_Buffer.cxx:2021-2050 | a new gap of the wanted size at the wanted place, the text stays |
| GapBuffer.Fl_Text_Buffer.OpenGap | fltk/src/Fl_Text_Buffer.cxx:1279-1287 | room at a position, and the sizes of gap and buffer with and without a reallocation |
| GapBuffer.Fl_Text_Buffer.InsertInternal | fltk/src/Fl_Text_Buffer.cxx:1275-1308 | the text is spliced, the record, the selections and the sizes follow |
| GapBuffer.Fl_Text_Buffer.RemoveInternal | fltk/src/Fl_Text_Buffer.cxx:1310-1355 | the text is spliced, the deleted characters are saved in order, the selections and the sizes follow |
| GapBuffer.Fl_Text_Buffer.Insert | fltk/src/Fl_Text_Buffer.cxx:312-327 | clamps the position |
| Editing.ClampNearest | fltk/src/Fl_Text_Buffer.cxx:312-320 | a position is clamped to the nearest one in the text |
| Editing.Larger | fltk/src/Fl_Text_Buffer.cxx:120-130 | what the buffer's own max and min are |
| GapBuffer.Fl_Text_Buffer.Replace | fltk/src/Fl_Text_Buffer.cxx:331-348 | deletes and inserts; the sizes follow both steps |
| GapBuffer.Fl_Text_Buffer.Remove | fltk/src/Fl_Text_Buffer.cxx:352-379 | swaps and clamps the bounds, does nothing for an empty range |
| GapBuffer.Fl_Text_Buffer.Undo | fltk/src/Fl_Text_Buffer.cxx:415-450 | whether something can be undone, what it does to text and sizes, also with a record that no longer fits the text, and the cursor behind the text put back |
| GapBuffer.Fl_Text_Buffer.Perform | fltk/src/Fl_Text_Buffer.cxx:312-450 | any one edit does to text, record and sizes what the step functions say, and makes nobody else the owner of the record |
| GapBuffer.Fl_Text_Buffer.SetText | fltk/src/Fl_Text_Buffer.cxx:230-260 | the text is replaced in a new buffer, the selections move as for a deletion of the old text, the undo record stays |
| GapBuffer.Fl_Text_Buffer.Copy | fltk/src/Fl_Text_Buffer.cxx:381-413 | a range of another buffer or of this one is spliced in, the undo record stays |
| Allocation.AllocatedExactly | fltk/FL/Fl_Text_Buffer.H:953-955 | over every sequence of sizes from the constructor, the allocated size is gap plus length exactly when no extra size was requested or some step reallocated |
| Allocation.AllocatedOtherwise | fltk/src/Fl_Text_Buffer.cxx:166-171 | a requested size of 1 shows until 1025 characters are inserted at once |
| GapBuffer.Fl_Text_Buffer.CountLines | fltk/src/Fl_Text_Buffer.cxx:1092-1110 | the newlines from start to end, to the end of the text for an end it does not meet |
| TextLines.NewlinesIsSize | fltk/src/Fl_Text_Buffer.cxx:1092-1110 | what is counted are the places of newlines |
| GapBuffer.Fl_Text_Buffer.SkipLines | fltk/src/Fl_Text_Buffer.cxx:1112-1135 | the start of the line n lines on, wherever the gap lies |
| GapBuffer.Fl_Text_Buffer.RewindLines | fltk/src/Fl_Text_Buffer.cxx:1137-1160 | the start of the line n lines back, wherever the gap lies |
| GapBuffer.Fl_Text_Buffer.FindcharForward | fltk/src/Fl_Text_Buffer.cxx:2083-2108 | the first occurrence from a position on |
| GapBuffer.Fl_Text_Buffer.FindcharBackward | fltk/src/Fl_Text_Buffer.cxx:2110-2135 | the last occurrence before a position |
| GapBuffer.Fl_Text_Buffer.StartOfLine | fltk/src/Fl_Text_Buffer.cxx:933-937 | the start of the line, at every position |
| GapBuffer.Fl_Text_Buffer.EndOfLine | fltk/src/Fl_Text_Buffer.cxx:939-943 | the end of the line |
| TextLines.SkipThenBack | fltk/FL/Fl_Text_Buffer.H:718-738 | skipping n lines passes n newlines and going back n lines returns to the start of the line |
| TextLines.NavigationInverts | fltk/FL/Fl_Text_Buffer.H:718-738 | the buffer's own count, skip and rewind invert each other from every line start |
| TextLines.RewoundExactly | fltk/src/Fl_Text_Buffer.cxx:1137-1141 | where rewinding goes wrong |
| TextLines.RewoundTooFar | fltk/src/Fl_Text_Buffer.cxx:1137-1141 | position 1 of the text of one newline |
| Selection.Fl_Text_Selection.Update | fltk/src/Fl_Text_Buffer.cxx:2062-2081 | how a selection moves with a change of the text |
| Selection.Fl_Text_Selection.Set | fltk/src/Fl_Text_Buffer.cxx:1784-1790 | the positions in order, whether or not they lie in the text; nothing selected when they are equal |
| Selection.InsertionTracked | fltk/src/Fl_Text_Buffer.cxx:2062-2081 | an insertion keeps exactly the selected characters, and new ones strictly inside |
| Selection.DeletionTrackedExactly | fltk/src/Fl_Text_Buffer.cxx:2075-2080 | a deletion keeps exactly the selected characters that survive, except in one case |
| Selection.DeletionKeeps | fltk/src/Fl_Text_Buffer.cxx:2062-2081 | outside the one case, which characters are selected after a deletion |
| Selection.DeletionLosesCharacter | fltk/src/Fl_Text_Buffer.cxx:2075-2080 | 2..5 selected, 3..7 deleted: the character at 2 is no longer selected |
| Selection.WithinStays | fltk/src/Fl_Text_Buffer.cxx:2062-2081 | a selection within the text stays within it |
| Selection.ClearedExactly | fltk/src/Fl_Text_Buffer.cxx:254-255 | which selections a change of the whole text clears: exactly those within the old text |
| Selection.NotCleared | fltk/src/Fl_Text_Buffer.cxx:254-255 | a selection that is not |
| Editing.InsertedRecords | fltk/src/Fl_Text_Buffer.cxx:1295-1305 | after an insertion the undo record stands for the change under way or a new one |
| Editing.RemovedRecords | fltk/src/Fl_Text_Buffer.cxx:1314-1345 | the same after a deletion |
| Editing.UndoRecords | fltk/src/Fl_Text_Buffer.cxx:415-450 | undoing swaps the two sides of the change |
| Editing.FirstInsertionUndone | fltk/src/Fl_Text_Buffer.cxx:1296-1301 | when undoing the first insertion after another buffer's edit takes it back, and what it brings in otherwise |
| Editing.FirstDeletion | fltk/src/Fl_Text_Buffer.cxx:1314-1327 | the first deletion always is |
| Editing.RunUndoes | fltk/src/Fl_Text_Buffer.cxx:312-450 | over every run of edits and undos of one buffer, undo goes back to the text before the change under way, and undoing twice changes nothing |
| Editing.BaseAfter | fltk/src/Fl_Text_Buffer.cxx:1295-1327 | which text that is after each kind of edit |
| Editing.ReplacementNotUndone | fltk/src/Fl_Text_Buffer.cxx:331-348 | replacing "ab" by nothing and undoing leaves nothing |
| Buffers.ActTracks | fltk/src/Fl_Text_Buffer.cxx:141-450 | every act of one of several buffers keeps the record sound, and in step with its owner's text where the change is followed |
| Buffers.FollowedToPast | fltk/src/Fl_Text_Buffer.cxx:141-450 | over every run, the text undo would lead to is one the owner of the record has had |
| Buffers.RunUndoes | fltk/src/Fl_Text_Buffer.cxx:141-450 | over every run, undo does nothing in a buffer that does not own the record, leads its owner back to a text it has had, and twice changes nothing |
| Buffers.FollowedOn | fltk/src/Fl_Text_Buffer.cxx:141-450 | the change stays followed by noted edits of its owner and by whatever others do without touching the record |
| Buffers.FollowedAnew | fltk/src/Fl_Text_Buffer.cxx:1295-1327 | a buffer that takes the record over has its change followed from the text before |
| Buffers.ForeignTextPutBack | fltk/src/Fl_Text_Buffer.cxx:1296-1301 | one of two buffers is given the text the other deleted |
| Buffers.UndoInOtherText | fltk/src/Fl_Text_Buffer.cxx:415-450 | after `text` or `copy`: what undo needs, what it does, and exactly when it leaves the text alone |
| Buffers.SetTextCut | fltk/src/Fl_Text_Buffer.cxx:230-260 | typing "x", setting the text to "yz" and undoing gives "z" |
| Buffers.SetTextUndefined | fltk/src/Fl_Text_Buffer.cxx:415-450 | three edits and an empty text, after which undo would replace a character that is not there |
| Buffers.AllocatedInRuns | fltk/FL/Fl_Text_Buffer.H:953-955 | over every run of several buffers, when the allocated size of one is its gap plus the length of its text |
| Sharing.Perform | fltk/src/Fl_Text_Buffer.cxx:141-457 | any act on one of several buffer objects that share the record object leaves them all showing what the act makes of the desk |
| Sharing.Replay | fltk/src/Fl_Text_Buffer.cxx:141-457 | so does any run |
| Sharing.StatesShown | fltk/src/Fl_Text_Buffer.cxx:141-147 | what each object then sees of text, flag and record is what the desk has for it |
| Sharing.ReplayAndUndo | fltk/src/Fl_Text_Buffer.cxx:415-450 | on objects: undo after any run leads the owner back to a text it has had, as long as the change is followed, and does nothing elsewhere |
| Sharing.Open | fltk/src/Fl_Text_Buffer.cxx:141-199 | new buffers share one record that no buffer owns, and begin with the sizes asked for |
| Spinner.Fl_Spinner.SbCb | fltk/FL/Fl_Spinner.H:65-98 | typed input is clamped, the buttons step and wrap |
| Spinner.TypedNearest | fltk/FL/Fl_Spinner.H:72-78 | typing leaves the value of the range nearest to what was typed |
| Spinner.StaysInRange | fltk/FL/Fl_Spinner.H:65-98 | with a step that is not negative every run stays in range |
| Spinner.UndoneExactly | fltk/FL/Fl_Spinner.H:80-94 | when the other button takes a press back |
| Spinner.NotUndone | fltk/FL/Fl_Spinner.H:80-94 | from 1 to 10 by 4: up from 8 and down again gives 10 |
| Spinner.PressesWrap | fltk/FL/Fl_Spinner.H:80-94 | any mixture of presses walks round the k + 1 values by its climb |
| Spinner.UpsWrap | fltk/FL/Fl_Spinner.H:80-86 | n presses of up from value j reach value (j + n) mod (k + 1) |
| Spinner.Precision | fltk/FL/Fl_Spinner.H:102-111 | the scan finds the fewest decimals that show the step exactly |
| Spinner.TrailingZeros | fltk/FL/Fl_Spinner.H:107-111 | digits end in k zeros exactly when their number is divisible by 10^k |
| Spinner.NumberShows | fltk/FL/Fl_Spinner.H:107-111 | the number some digits write, spelled out |
| FontStack.Fl_Help_Font_Stack.Init | fltk/FL/Fl_Help_View.H:111-116 | one entry, drawn with |
| FontStack.Fl_Help_Font_Stack.PushStyle | fltk/FL/Fl_Help_View.H:120-124 | a push that overwrites the top when the array is full |
| FontStack.Fl_Help_Font_Stack.PopStyle | fltk/FL/Fl_Help_View.H:126-130 | a pop that keeps the first entry |
| FontStack.Fl_Help_Font_Stack.Replay | fltk/FL/Fl_Help_View.H:111-130 | in every run drawing follows the top of the stack |
| FontStack.RunInRange | fltk/FL/Fl_Help_View.H:120-130 | in every run the index stays in 0..99 and the first entry in place |
| FontStack.NestedRestores | fltk/FL/Fl_Help_View.H:120-130 | a nested word restores the stack exactly when it does not overflow, or the stack held one entry |
| FontStack.NotRestored | fltk/FL/Fl_Help_View.H:120-130 | on two entries, 99 pushes and 99 pops |

## Left out

- The configuration of the bit library is the one with a 64-bit `lua_Integer`; arguments that are not integer-valued numbers, and the built-in cast, are not modelled.
- Shift counts of 64 and more, where C leaves the result open, are excluded by the type of the count.
- Reading the frozen script from its file, `LUA_INIT`, signals, the Lua compiler and virtual machine: the decoder starts from the bytes, the reader from an oracle for the compiler, and on the command line failure of a chunk is a parameter.
- The limit of 512 characters on a line read by `fgets`; in the interactive loop the program name in front of messages and the newline at the end. Running a chunk, and calling `print`, are oracles that see all that has happened before.
- Callbacks: `user_data` is taken to be set by the binding only, and a widget's data to be on top of the Lua stack. What the registry does once a free reference has been released is `Registry.UnrefExactly` and `Registry.ReleasedTwice`.
- Registry.LuaTable.LuaUnref: the reference lies below the length of the table; releasing a number beyond it leaves a hole, and Lua does not say which length a table with holes has.
- Callbacks.Binding.RemoveIdleFunction: the reference lies below the length of the registry; numbers beyond it, which the registry never gave out, are not modelled.
- Callbacks.Binding.RemoveTimer: the same.
- Callbacks.Binding.RepeatTimer: of a table that was not made by the binding only the pending call is noted, not its field.
- Callbacks: times are not modelled, so that any pending timeout may fire next; the order of timeouts is FLTK's.
- The trampolines of the help view's link and of user handlers, which leave the Lua stack as it is, and the menu functions that add and insert items.
- Labels, icons, colours, drawing and widgets of tree items; `add` by path and sorted insertion; `remove_child` by label; `select_toggle`, one assignment; `do_callback_for_item`, a save and a restore around a call that is not part of this model.
- Tree.Fl_Tree_Item.SelectAll: `was` and the layout are ghost arguments that name the flags before and the tree.
- UTF-8, tabs, display widths, rectangular selections, columns, file loading, callbacks and search in the text buffer. A text holds no NUL, so that copying a C string copies all of it.
- GapBuffer.Fl_Text_Buffer.TextRange: asks that the end is not negative when the start lies in the text; the code would then swap them and read in front of the buffer.
- GapBuffer.Fl_Text_Buffer.Replace: asks that the clamped bounds are a range of the text; with bounds out of order the code would copy a negative number of characters when undo is on, and when it is off copy nothing but take as many characters of the gap into the text as the bounds are apart.
- GapBuffer.Fl_Text_Buffer.Undo: asks the same where undo replaces text, which the text can fail to meet only after it was changed behind the record's back; `Buffers.UndoInOtherText` says exactly when.
- The doubling of the undo buffer's capacity: of the saved characters only the valid ones are kept.
- Floating-point rounding in the spinner, where values are reals, and the formatting and parsing of numbers, where the scan starts from the digits.
- Exhaustion of memory, and the widths of C integers other than where a module names them.
