# A verified model of libmagic's hard core

libmagic recognises file types. This project models the parts of it that compute something hard, and proves what
they are for:

* **Regular expressions** (`Regex*.dfy`, `Closure.dfy`). The bundled matcher compiles an extended regular expression
  in one pass into byte code, inserting and back-patching jumps, and runs the code on a backtracking machine that
  rewrites its own opcodes. `RegexSyntax` gives patterns and their language; `RegexCompile` and `RegexMachine` specify
  compiler and machine; `RegexCompiler` and `RegexMatcher` are the two as classes over a growing buffer and a failure
  stack. `RegexWear` shows that opcodes overwritten by earlier matches never change an answer. `RegexTheorems`,
  `RegexSearch` and `RegexFastSearch` hold the main results: compilation is correct, matching is sound, and exact when no
  group is repeated, every such search is leftmost however often the code has been run, and the fastmap changes nothing.
* **Magic rules** (`Softmagic*.dfy`). A flat list of entries with levels is scanned once, with a small table per level.
  `SoftmagicTree` says what the list means as a forest, `SoftmagicScan` what the scan does, `SoftmagicInterpreter` is
  the scan over its mutable table, and `SoftmagicRefine` proves that the scan is the tree's evaluation. `SoftmagicHeads`
  says when an entry matches, from the tests it is given alone; `SoftmagicActivation` and `SoftmagicLayout` say what a whole
  activation prints, in which order and with which separators, when it stops, and what it answers.
* **Compound documents** (`Cdf*.dfy`). Sector chains in untrusted tables: counted, found acyclic, and read;
  `CdfDocument` puts the parts together, from the bytes of a file to the bytes of a named stream.
* **UTF-8** (`Utf8*.dfy`), **JSON** (`Json*.dfy`), the **search test** (`StringSearch.dfy`), and the **rule database**
  (`MagicString.dfy`, `MagicRules.dfy`, `MagicLoader.dfy`, `MagicDb.dfy`).

Code that updates state in place is modelled as classes and methods with loops; each is proved against a specification
function, and the lemmas are about that function.

## Where code and expectation part

* A loop over a bracket expression whose bitmap has all 32 bytes can lose a match, because the bitmap's size in bits is
  computed in one byte. `RegexFullBitmap` proves exactly when the decision is right, and `RegexLostMatch` gives the
  patterns whose matches are lost. Patterns that pass check_regex are not affected (`RegexTheorems.AllowedIsLimited`).
* The matcher wants the longest match and does not always report it: with nothing left to try it gives up the match at
  hand for a shorter one saved before. `RegexTheorems.LongestExactly` says exactly when, and `RegexNotLongest` gives the
  patterns `x|xy`.
* The matcher can give up with next to nothing on its stack: flags of registers left active by failed attempts make the
  space asked for wrap round (`RegexOverflow.PushRefused`, `RegexWrapAround.GivesUpEarly`).
* The search test looks one place further when the library's memmem is used (`StringSearch.FastLooksFurther` compares the
  two reports).
* A string ending in two optional blanks is refused by its own text (`StringSearch.OptionalTail` says exactly when).
* Two branches of one conditional chain can both be acted on, and a branch can be passed over though its chain took none:
  `SoftmagicSiblings.BothBranches` and `PassedOverWrongly` say exactly when, and two runs show it.
* A level skipped in a rule file keeps a stale conditional: `MagicRules.StaleExactly` says exactly when, with the `else`s
  let through and the `if`s refused for it.
* A float value can be lost when a database of the other byte order is loaded (`MagicDb.FloatMoves`).
* The json recogniser reads a second document of the same kind one level less deep (`JsonTheorems.WholeIsTwo`).

Check the whole project with `dafny verify dfyconfig.toml`.

## Model

| member | source | states |
|---|---|---|
| RegexTheorems.MatchIsComplete | magic/regex.c:3655-3769 | For a pattern that check_regex lets through and that repeats no group, with groups nested in any way and repeats and alternatives inside them, the matcher halts on the compiled code and on whatever earlier matches have left of it; unless its failure stack passes the limit it reports a match at a position exactly when the pattern matches some text starting there. So entering and leaving groups never loses a match, and neither does turning maybe_pop_jump into pop_failure_jump. |
| RegexTheorems.LongestExactly | magic/regex.c:3050-3118 | On such a pattern a match that reaches the end of the text is the one reported; any other answer is the longest match exactly when the run does not end with nothing left to try at a match longer than the best one saved, which the matcher then gives up for the shorter. |
| RegexTheorems.ShortMatchIsTotal | magic/regex.c:2005-2033 | Without groups and with at most 2001 commands ahead the matcher never gives up: it reports a match exactly when there is one, and otherwise that there is none. |
| RegexTheorems.MatchIsSound | magic/regex.c:3056-3191 | With up to 255 groups nested in any way, anchors, forced loop exits and saved best matches, on code that earlier matches may have rewritten: whatever end the matcher reports, after any number of commands, the text up to it is in the pattern's language. |
| RegexTheorems.EarlierMatchesDontMatter | magic/regex.c:3655-3769 | On code that earlier starts and searches have rewritten, every match ends exactly as on the code just compiled, with any groups, and leaves code of which the same is true. |
| RegexTheorems.CompiledJumpsLand | magic/regex.c:132-155 | Compiling any pattern in scope succeeds, emits at most 12 bytes for each pattern byte, and every displacement left after all insertions and fill-ins leads to the start of an instruction or to the end of the code; that of a repeat leads to the conditional jump at the head of its loop. |
| RegexTheorems.AllowedIsLimited | magic/funcs.c:677-729 | A pattern of the characters that check_regex lets through never fills a non-negated bitmap to its last byte, which is the condition the optimisation needs. |
| RegexCompileProof.CompileCorrect | magic/regex.c:772-1771 | One-pass compilation with insertions and back-patching yields exactly the code of a node that means what the pattern's tree means, counts its groups and numbers them in the order in which they open, whatever the bytes held open for a jump contained. |
| RegexLanguage.CodeAcceptsLanguage | magic/regex.c:132-155 | The plain non-deterministic reading of compiled code reaches its end at a text position exactly when the node accepts the text up to there: both directions, for all nodes, loops and groups. |
| RegexJumps.CodeLands | magic/regex.c:1801-1838 | In the code of any node every instruction is whole, every displacement leads to an instruction start or to the end, and every repeat to the head of its loop. |
| RegexBrackets.BracketCompiles | magic/regex.c:1061-1236 | A bracket expression compiles to a set of exactly the listed characters, with ranges, a leading `]` or hyphen, a last hyphen, a listed `[`, and trailing zero bytes dropped. |
| RegexNode.NumberRoundTrip | magic/regex.c:132-155 | STORE_NUMBER and EXTRACT_NUMBER undo each other on the signed 16-bit range. |
| Closure.RepeatCollapses | magic/regex.c:922-962 | A run of repetition operators means the same as the one loop the compiler keeps for it. |
| RegexSoundness.RunOk | magic/regex.c:3387-3453 | Over every run, each configuration the machine visits, stacks or saves is reachable in the plain reading of the code it started with, although opcodes are rewritten while it runs. |
| RegexSoundness.ForcedExitSeen | magic/regex.c:3387-3453 | Leaving a loop early at stop_memory goes where the plain reading of the code can go by itself. |
| RegexSoundness.MatcherSound | magic/regex.c:3056-3191 | A match reported for the code of a node is text that the node accepts. |
| RegexCompleteness.PopLosesNothing | magic/regex.c:3655-3734 | When the character after a loop, and after any group commands there, cannot start another round, what the failure point given up could complete, to the same end or a later one, going round the loop again can complete as well. |
| RegexCompleteness.RunGood | magic/regex.c:3965-4018 | Every run keeps the last hope of a match that ends at a given place or later, is never stuck, and comes to an end within the given measure. |
| RegexCompleteness.MatcherComplete | magic/regex.c:3965-4018 | The same as MatchIsComplete for the code of any node that repeats no group, numbers its groups in order, and whose non-negated bitmaps are short. |
| RegexCompleteness.MatcherLongest | magic/regex.c:3050-3118 | The same as LongestExactly for the code of such a node. |
| RegexCompleteness.NoForcedExit | magic/regex.c:3387-3453 | On such code the forced exit of a loop at stop_memory is never taken. |
| RegexFlow.NodeFlows | magic/regex.c:3612-3652 | In code that repeats no group every jump is of one of the described shapes, forward or the closing jump of a loop over one character, and every group command names a group of the pattern and stands outside every loop. |
| RegexFullBitmap.DecisionIsRight | magic/regex.c:3708-3724 | The test made before a loop gives up its failure points is right exactly unless the set is not negated, its bitmap has all 32 bytes, and the next character is in it: the size times eight is computed in an unsigned byte. |
| RegexFullBitmap.FullBitmapLosesMatch | magic/regex.c:3708-3724 | For every full bitmap with a last byte that is not 0 and every character in it, the code of the set, starred, and that character reports no match for the character alone, which it should match. |
| RegexLostMatch.PatternLosesMatch | magic/regex.c:3708-3724 | Every pattern of a bracket expression that lists one of the last eight characters, starred, and then a character it lists, matches that character alone, and its compiled code reports no match. |
| RegexLostMatch.StarredCompiles | magic/regex.c:1061-1236 | Such a pattern compiles to exactly the code of the set with a full bitmap, starred, and the character. |
| RegexLostMatch.EveryLetterLosesMatch | magic/regex.c:3708-3724 | There is such a pattern for every character that can start a range: the range from it to the last character, starred, and the character. |
| RegexNotLongest.ShorterIsReported | magic/regex.c:3091-3102 | For any two plain characters x and y the pattern `x|xy`, on x, y and any third character, matches the first two and is reported to match the first alone. |
| RegexOverflow.PushRefused | magic/regex.c:2005-2080 | A failure point is refused only when it does not fit in the limit of the stack, or when the lowest active register is so far above the highest that the space asked for wraps round. |
| RegexOverflow.WrapsIsRefused | magic/regex.c:2147-2149 | What wraps round is always refused. |
| RegexOverflow.GivesUpDeep | magic/regex.c:2005-2033 | On the code of a pattern without groups the matcher gives up only after stacking 2000 failure points, and that only with more than 2000 commands ahead at the start. |
| RegexWrapAround.GivesUpEarly | magic/regex.c:2147-2149 | On the code of `w(a)|q(b)(c)|(d)|.(e)f?` and the two characters `we`, which it matches, the matcher gives up with an empty stack: the register flags have drifted apart and the space asked for wraps round. |
| RegexRefusals.UnclosedGroup | magic/regex.c:1754-1755 | Whatever pattern follows an open parenthesis that is not closed, it is refused as such. |
| RegexRefusals.LoneBackslash | magic/regex.c:1276 | A backslash at the end of any pattern is refused as such. |
| RegexRefusals.LoneBracket | magic/regex.c:1065 | A bracket at the end of any pattern is refused as such. |
| RegexRefusals.BackwardRange | magic/regex.c:1913-1945 | A range from a character to an earlier one, after any pattern, is refused as such. |
| RegexCompiler.Compiler.GetBufferSpace | magic/regex.c:621-624 | The buffer is doubled until the bytes fit, keeping its contents, or the pattern is too big. |
| RegexCompiler.Compiler.InsertOp1 | magic/regex.c:1801-1819 | Moves everything from the place to the end up by three, from the end, and writes the jump there: the buffer is the old one with the instruction inserted. |
| RegexCompiler.Compiler.EmitLoop | magic/regex.c:994-1050 | The code emitted for a repetition, as the specification of a wrapped expression says. |
| RegexCompiler.Compiler.HandleRepeat | magic/regex.c:922-1052 | A run of repetition operators, or a literal when nothing stands before it. |
| RegexCompiler.Compiler.SetBitAt | magic/regex.c:722-725 | Sets one bit of the bitmap in place and nothing else. |
| RegexCompiler.Compiler.HandleBracket | magic/regex.c:1061-1238 | Reads a bracket expression into a bitmap behind the code, trims it and moves past it, or reports the source's error. |
| RegexCompiler.Compiler.NormalChar | magic/regex.c:1714-1745 | Extends the open run of literals or starts a new one, by the source's test. |
| RegexCompiler.Compiler.HandleOpen | magic/regex.c:1285-1332 | Opens a group: pushes the compile stack and emits start_memory. |
| RegexCompiler.Compiler.HandleClose | magic/regex.c:1334-1401 | Closes a group: the dummy failure point, the pending jump filled in, the stack popped, the number of inner groups stored; an unmatched close is an error. |
| RegexCompiler.Compiler.HandleAlt | magic/regex.c:1404-1446 | Inserts the jump before the finished alternative, chains the previous one's jump, and leaves three bytes for its own. |
| RegexCompiler.CompilePattern | magic/regex.c:772-1771 | The whole compiler over its growing buffer computes what the specification of compilation says, for every byte string. |
| RegexCompiler.Compiler.constructor | magic/regex.c:848-883 | An empty program in a fresh buffer. |
| RegexCompiler.Compiler.Put | magic/regex.c:626-652 | Writes bytes at the end, for which there is space, and changes nothing before them. |
| RegexCompiler.Compiler.BufPush | magic/regex.c:626-632 | One byte appended, or the pattern is too big. |
| RegexCompiler.Compiler.BufPush3 | magic/regex.c:643-652 | Three bytes appended, or the pattern is too big. |
| RegexCompiler.Compiler.StoreOp1 | magic/regex.c:1776-1785 | Opcode and signed two-byte displacement over three bytes, and nothing else. |
| RegexCompiler.Compiler.InsertJumpAt | magic/regex.c:662-664 | A jump inserted before code already emitted, with the end moved past it. |
| RegexCompiler.Compiler.SetRangeAt | magic/regex.c:1913-1957 | All bits of a range, and no other, are set in the bitmap. |
| RegexCompiler.Compiler.BracketLoop | magic/regex.c:1094-1229 | The loop over the items of a bracket expression. |
| RegexCompiler.Compiler.TrimAt | magic/regex.c:1231-1236 | Drops the zero bytes at the end of the bitmap. |
| RegexCompiler.Compiler.FillFixup | magic/regex.c:1345-1356 | The pending jump past the alternatives, if any, gets its displacement. |
| RegexCompiler.Compiler.CloseAlternatives | magic/regex.c:1345-1356 | The dummy failure point and the pending jump at the end of alternatives. |
| RegexCompiler.Compiler.LeaveHole | magic/regex.c:1433-1442 | Three bytes left open at the end. |
| RegexCompiler.Compiler.HandleOne | magic/regex.c:884-1745 | One round of the main loop, as its specification says. |
| RegexMatcher.Matcher.PushPoint | magic/regex.c:2005-2125 | Pushes one failure point, doubling the stack until its items fit, or reports that the limit is passed. |
| RegexMatcher.Matcher.PopPoint | magic/regex.c:2167-2222 | Takes one failure point back into the matcher's variables. |
| RegexMatcher.Matcher.FailBack | magic/regex.c:3965-4018 | The fail label: drops points that resume at a closing jump and goes on at the next, or ends with the best match saved. |
| RegexMatcher.Matcher.EndOfPattern | magic/regex.c:3056-3118 | At the end of the pattern: saves a better match and tries the other failure points, or restores the saved best. |
| RegexMatcher.Matcher.MatchStop | magic/regex.c:3330-3453 | stop_memory, with the registers' flags and the early loop exit. |
| RegexMatcher.Matcher.MatchPop | magic/regex.c:3655-3769 | maybe_pop_jump decides and overwrites its opcode in place, then jumps. |
| RegexMatcher.Matcher.MatchAll | magic/regex.c:2837-4019 | The main loop over pattern commands computes what the specification of a run says, and leaves in the shared buffer the code that run leaves. |
| RegexMatcher.Matcher.DropPoint | magic/regex.c:3743-3762 | The stack without its top failure point; nothing is restored. |
| RegexMatcher.Matcher.MatchTest | magic/regex.c:3210-3278 | exactn, anychar, charset and the anchors: moves both cursors or fails. |
| RegexMatcher.Matcher.MatchStart | magic/regex.c:3287-3324 | start_memory and its registers' flags. |
| RegexMatcher.Matcher.CloseRegister | magic/regex.c:3340-3385 | The registers' flags at the close of a group. |
| RegexMatcher.Matcher.MatchOnFailure | magic/regex.c:3612-3652 | Pushes the jump's target as a failure point. |
| RegexMatcher.Matcher.MatchJump | magic/regex.c:3743-3776 | The jumps, with a failure point dropped first where the opcode says so. |
| RegexMatcher.Matcher.MatchDummy | magic/regex.c:3784-3802 | dummy_failure_jump and push_dummy_failure. |
| RegexMatcher.Matcher.MatchOne | magic/regex.c:3194-3963 | One pattern command, as the machine's specification says. |
| RegexWear.WearIsInvisible | magic/regex.c:3655-3769 | For the code of any node: a match on what earlier matches have left of it ends as on the compiled code, and leaves code of the same kind. |
| RegexWear.SameDecision | magic/regex.c:3674-3724 | A repeat is decided alike in the compiled code and in whatever is left of it. |
| RegexWear.ExitAlike | magic/regex.c:3387-3453 | The test for an early loop exit reads nothing that matching overwrites. |
| RegexWear.RunAlike | magic/regex.c:3965-4018 | Two runs that start alike, on code with different repeats decided, go on alike and end alike. |
| RegexSearch.Search | magic/regex.c:2583-2698 | Tries the starts from 0 on, all on the one buffer of code, until one matches or the matcher gives up; says what is in the buffer afterwards. |
| RegexSearch.SearchKeepsInUse | magic/regex.c:2626-2697 | Whatever a search finds, the code it leaves serves the next one. |
| RegexSearch.FoundIsMatch | magic/regex.c:2583-2698 | Groups or not, on code in use: what a search finds is text of the pattern's language at that start. |
| RegexSearch.SearchIsLeftmost | magic/regex.c:2583-2698 | On a pattern that repeats no group a search finds the leftmost start at which the pattern matches, reports absence only when there is none, and gives up only for the stack limit; each start runs the code as the ones before have left it. |
| RegexSearch.EverySearchIsLeftmost | magic/regex.c:2583-2698 | A pattern compiled once and searched for in any number of texts, one after the other, gives such an answer every time. |
| RegexFastmap.FastmapMarksStarts | magic/regex.c:2237-2507 | The fastmap scan ends; unless it meets the limit of its stack, which takes more than 2001 bytes of code, or reports that nothing at all can be matched, every match has a first byte and that byte is marked. |
| RegexFastmap.RunFits | magic/regex.c:2005-2033 | The scan's stack never holds more alternatives than the code has bytes, so on code of at most 2001 bytes it never meets its limit. |
| RegexFastSearch.FastCommand | magic/regex.c:2300-2500 | One command of the fastmap scan, on its map, cursor and stack. |
| RegexFastSearch.CompileFastmap | magic/regex.c:2237-2507 | The scan marks the set of bytes and reports the nullability that the specification of the scan gives, or the -2 of its stack. |
| RegexFastSearch.FastSearch | magic/regex.c:2597-2697 | The search that skips forward over unmarked bytes computes its specification, on the one buffer of code. |
| RegexFastSearch.SkippedIsNoMatch | magic/regex.c:2637-2668 | No match starts at a place the fastmap skips; for a pattern of at most 166 bytes the fastmap is always computed. |
| RegexFastSearch.FastSearchAgrees | magic/regex.c:2626-2697 | When no group is repeated, a search with the fastmap gives the same answer as one without, start and end, unless the plain search meets the stack limit, although the two try different starts and so rewrite the code at different times, and each may begin on code in use. |
| RegexFastSearch.MarkSet | magic/regex.c:2311-2341 | Marks the bytes a bitmap lets through, those past its end only when it is negated. |
| SoftmagicHeads.HeadExactly | magic/softmagic.c:239-334 | From the fetch, the comparison and the end offset alone: a top-level entry is entered exactly when it applies and can look somewhere, its test passes (without a value when negated, with one when it compares as neither 0 nor -1, for a use when the rule found something), it is no annotation, and its end is in range; the activation is over with it exactly when fetch or comparison fails altogether or it passes as an annotation. |
| SoftmagicHeads.ContExactly | magic/softmagic.c:355-482 | The same for a continuation: it matches exactly when it can look somewhere, no branch made it moot, and its test passes; the match is acted on unless it is a superseded default or an annotation; its children are entered exactly when its end is in range. |
| SoftmagicHeads.ValueDecides | magic/softmagic.c:1988-2026 | Asking for the value of any entry but an indirect one, with all that a used rule does, says missing, failed or passed as those tests define it, and puts the offset and the window back. |
| SoftmagicHeads.LooksBack | magic/softmagic.c:1563-1586 | An entry that counts from the end looks at what follows that many bytes before the end of the file, exactly when the file can be read, is tested whole, and neither it nor the part read of it is shorter. |
| SoftmagicHeads.LooksForward | magic/softmagic.c:1587-1601 | Every other entry can look: a head at its offset in what was read, a continuation there or at its distance from the end offset. |
| SoftmagicActivation.ActivationPrints | magic/softmagic.c:207-496 | A whole activation over entries that print nothing but their own descriptions prints the descriptions of exactly the heads whose tests pass and the continuations that are acted on, in the order in which they are written. |
| SoftmagicActivation.ContinuesExactly | magic/softmagic.c:484-495 | The next rule is taken up exactly when there are entries left, the activation was not left, and, unless all matches are asked for, no rule was gone through to its end with something found by then. |
| SoftmagicActivation.ActivationAnswers | magic/softmagic.c:486-497 | The result: the code with which an entry ended the activation, and otherwise 1 exactly when a description was printed. |
| SoftmagicActivation.GroupTracks | magic/softmagic.c:420-462 | In a group that is not left, something was found exactly when an entry acted on has a description, and something printed exactly when one was printed. |
| SoftmagicLayout.RuleLays | magic/softmagic.c:310-325 | What a rule prints when the activation goes on: its head's description, set apart from an earlier match, and then those of its continuations, each after a blank unless it asks for none. |
| SoftmagicLayout.HeadLays | magic/softmagic.c:2542-2579 | What a head prints by itself: a passed annotation its note, set apart from an earlier match and only when that is asked for; a passed description, set apart; anything else nothing. |
| SoftmagicLayout.GroupLays | magic/softmagic.c:430-461 | The descriptions of a group run on from what was printed before it. |
| SoftmagicRefine.EvaluateRefines | magic/softmagic.c:180-206 | The one linear scan with its per-level table, whatever the table holds at first, ends in the same state and with the same result as the recursive evaluation of the forest the levels stand for: with use, default, clear, conditionals and end-relative offsets. |
| SoftmagicRefine.GroupRefines | magic/softmagic.c:340-482 | A group of siblings scanned flat comes out as evaluated in the tree: each entry sees exactly its own parent's end offset and its own siblings' state. |
| SoftmagicRefine.TestRefines | magic/softmagic.c:355-482 | One continuation, tested from the table's slots, is tested as the tree says. |
| SoftmagicRefine.DeepSkipped | magic/softmagic.c:346-347 | Entries deeper than the current level are passed over with no effect. |
| SoftmagicTree.FlattenParse | magic/softmagic.c:180-206 | Reading the levels as a forest and writing it out in preorder gives the list back. |
| SoftmagicScan.Get | magic/softmagic.c:1636-1670 | Every call, also over cyclic use and indirect, ends with the indirect count no smaller, the name count as before, both within their limits, and the table no shorter; that the function is total shows termination. |
| SoftmagicScan.Match | magic/softmagic.c:207-496 | The same for a whole activation. |
| SoftmagicInterpreter.Interpreter.CheckMem | magic/funcs.c:624-645 | Grows the level table, keeping its contents, and resets the match state of one level. |
| SoftmagicInterpreter.Interpreter.SetOffset | magic/softmagic.c:1557-1611 | Sets where an entry looks and in which window, with the three outcomes of the source. |
| SoftmagicInterpreter.Interpreter.GetUse | magic/softmagic.c:1988-2026 | Runs a named rule; on return the caller's table is the same array with the same contents, and the offset, the end offset and the name count are as before, also when the rule nests, grows the table or fails. |
| SoftmagicInterpreter.Interpreter.GetIndirect | magic/softmagic.c:1936-1986 | Runs the whole database on the rest of the data, keeping what it printed when it matched. |
| SoftmagicInterpreter.Interpreter.MatchLists | magic/softmagic.c:1955-1963 | Runs the lists in order until one does not come to 0. |
| SoftmagicInterpreter.Interpreter.Begin | magic/softmagic.c:234-338 | A top-level entry: skipped, unreadable, over, or its continuations come next. |
| SoftmagicInterpreter.Interpreter.Continue | magic/softmagic.c:340-482 | The loop over continuations computes the scan's specification. |
| SoftmagicInterpreter.Interpreter.Match | magic/softmagic.c:207-496 | The loop over a list of entries, on the interpreter's own table and flags, computes the scan's specification. |
| SoftmagicInterpreter.Interpreter.DoAnnotate | magic/softmagic.c:2542-2579 | An annotated match ends the activation; a later one than the first prints nothing. |
| SoftmagicInterpreter.Interpreter.DoAnnounceMore | magic/softmagic.c:430-461 | The description of a matched continuation, after a separator or a blank as needed. |
| SoftmagicInterpreter.Interpreter.Get | magic/softmagic.c:1636-1670 | The counters' limits, the fetch, and what use, indirect and name do. |
| SoftmagicInterpreter.Interpreter.SaveCont | magic/softmagic.c:1613-1633 | The caller keeps its table; the named rule gets a copy of it. |
| SoftmagicInterpreter.Interpreter.DecideHead | magic/softmagic.c:268-334 | What a fetched top-level entry comes to. |
| SoftmagicInterpreter.Interpreter.Decide | magic/softmagic.c:385-482 | What a fetched continuation comes to, with the table's flags. |
| SoftmagicInterpreter.Interpreter.Try | magic/softmagic.c:355-482 | One continuation of the current level. |
| SoftmagicSiblings.StepsLinked | magic/softmagic.c:374-419 | In every group of an actual run the siblings hand their match state on from one to the next by the stated rules. |
| SoftmagicSiblings.GotMeans | magic/softmagic.c:413-419 | The got_match flag is set exactly when some earlier sibling matched and nothing cleared it since. |
| SoftmagicSiblings.DefaultActs | magic/softmagic.c:413-419 | A default that passes its test is acted on exactly when no sibling has matched since the parent, the last clear, or a match whose end was out of range. |
| SoftmagicSiblings.OthersAct | magic/softmagic.c:413-419 | Every other entry that matches is acted on. |
| SoftmagicSiblings.AtMostOneBranch | magic/softmagic.c:374-380 | After a branch that matched, no later elif or else of its chain is even tested. |
| SoftmagicSiblings.FirstBranchWins | magic/softmagic.c:374-412 | When every branch taken up is compared, a branch is passed over exactly if an earlier one of its chain matched. |
| SoftmagicSiblings.LastMeans | magic/softmagic.c:405-412 | The last_match flag is set exactly when some sibling matched with its end in range and, since then, none was compared and found different or matched without an end. |
| SoftmagicSiblings.MootMeans | magic/softmagic.c:374-380 | Exactly when an elif or else is passed over. |
| SoftmagicSiblings.BothBranches | magic/softmagic.c:463-479 | Two branches of one chain are both acted on exactly when the first one's end was out of range, none between them matched with its end in range, and the second one's test passes. |
| SoftmagicSiblings.BothBranchesRun | magic/softmagic.c:463-479 | A run with such a chain: an if that matches without an end, and then its else. |
| SoftmagicSiblings.PassedOverWrongly | magic/softmagic.c:385-391 | A branch is passed over though its chain took none exactly when the if had no value there and the outcome of an entry before the chain still stands. |
| SoftmagicSiblings.PassedOverRun | magic/softmagic.c:385-391 | A run with such a chain: an entry that matches, an if with no value at its place, and its else. |
| SoftmagicOrder.PrintedInOrder | magic/softmagic.c:430-461 | The descriptions a group of continuations prints are those of exactly the entries acted on that have one, in the order they are written: tree preorder. |
| CdfChain.CountMeaning | magic/cdf.c:558-594 | A positive count is exactly the length of a chain from the given sector that stays below the limit and within the loop limit; an end mark counts 0; everything else is an error. |
| CdfChain.CountedIsAcyclic | magic/cdf.c:558-594 | The sectors of a counted chain are pairwise distinct and below the limit, so there are no more of them than table entries. |
| CdfChain.RevisitRejected | magic/cdf.c:558-594 | Every walk that comes back to a sector it visited makes the count an error. |
| CdfChain.ChainDistinct | magic/cdf.c:558-594 | No chain that ends visits a sector twice. |
| CdfChain.CountChain | magic/cdf.c:558-594 | The counting loop over the table's bytes computes the count. |
| CdfChain.Entry | magic/cdf.c:582 | Reads one entry out of the table's bytes as a signed 32-bit number. |
| CdfChain.WordIs | magic/cdf.c:582 | A table entry reads as a number exactly when its bytes are that number's, modulo 2^32, in base 256, lowest first. |
| CdfStream.LongStreamIsChain | magic/cdf.c:596-642 | A long stream is read exactly when a chain of sectors lying in the file exists, and then is those sectors in the chain's order. |
| CdfStream.ShortStreamIsChain | magic/cdf.c:645-685 | A short stream is read exactly when its first piece is the end mark, and then is empty, or a chain of pieces lying in the root stream exists, from any first piece, and then is those pieces in the chain's order. |
| CdfStream.ShortStreamInFile | magic/cdf.c:645-683 | Each byte of a short stream is the file's byte at the place its mini sector has in the sectors of the root stream ([MS-CFB] section 2.4). |
| CdfStream.GatherByte | magic/cdf.c:427-466 | Byte o of unit i of a stream is byte o of the unit the chain names there. |
| CdfStream.ReadUnit | magic/cdf.c:427-466 | Copies one sector into its place in the buffer, or fails without touching anything else. |
| CdfStream.CopyChain | magic/cdf.c:615-636 | The reading walk over a counted chain never leaves the table, passes the buffer or meets the loop limit, and copies the chain's units in order. |
| CdfStream.ReadLongSectorChain | magic/cdf.c:596-642 | A stream of whole sectors, read into a fresh buffer, or nothing. |
| CdfStream.ReadShortSectorChain | magic/cdf.c:645-683 | A stream of pieces of the root stream, read into a fresh buffer, or nothing. |
| CdfStream.ReadSectorChain | magic/cdf.c:685-698 | A stream below the cut-off is read from the root stream when there is one, any other from the file. |
| CdfDocument.ReadUserStream | magic/cdf.c:861-894 | Opening a document and reading a stream by name: it is read exactly when the tables, the directory, the root stream and the stream's own chain can be, and the buffer then holds the bytes that follow from the file. |
| CdfDocument.StreamBytes | magic/cdf.c:861-876 | Every byte of such a stream is the byte of the file at a stated place: in the chain of sectors from the record's first one, or for a short stream in the piece of the root stream its mini chain names, which lies in the root's own chain of sectors ([MS-CFB] sections 2.3, 2.4 and 2.6). |
| CdfDocument.OpenedIs | magic/cdf.c:486-836 | A document is opened exactly when the chains of its short table, its directory and its root stream exist in the file, and then is what they hold. |
| CdfDocument.UserStreamExactly | magic/cdf.c:861-876 | A named stream is read exactly when the document opens, its directory has a stream of that name, and the first such record's own chain exists: sectors of the file, or pieces of the root stream below the cut-off. |
| CdfDocument.Open | magic/readcdf.c:581-613 | The sector table, the mini table, the directory and the root stream, read in this order, are those the file stands for. |
| CdfDocument.Find | magic/cdf.c:878-894 | The first directory record that is a stream of that name. |
| CdfTables.TableFits | magic/cdf.c:479-493 | The size checks keep every sector number of the table and their count in 32 bits, signed. |
| CdfTables.TableEntry | magic/cdf.c:471-556 | Entry r of the table's sector q is word r of the file's sector that the DIFAT lists there ([MS-CFB] sections 2.3 and 2.5). |
| CdfTables.LastWordLeadsOn | magic/cdf.c:523-544 | A master sector is words to its end: all but the last name table sectors, and the last leads to the next master sector. |
| CdfTables.RoomIsSmall | magic/cdf.c:479-493 | The size checks bound the space set aside for the table: at most twice the sector limit, and 2^27 bytes. |
| CdfTables.ReadMasterChain | magic/cdf.c:515-548 | The walk over master sectors reads exactly the table sectors they name, up to a negative entry. |
| CdfTables.ReadSat | magic/cdf.c:471-556 | The table is read exactly when all listed sectors lie in the file, and is their concatenation in DIFAT order. |
| CdfTables.ReadShortSat | magic/cdf.c:754-796 | The mini table is the sectors of its chain, in order; without one it is empty. |
| CdfTables.ShortLimit | magic/cdf.c:754-796 | The limit used for mini chains is the table's number of entries, except when it wraps to a negative one. |
| CdfTables.ReadHeaderPart | magic/cdf.c:500-508 | The table sectors listed in the header, up to a negative entry. |
| CdfTables.ReadNamed | magic/cdf.c:526-542 | The table sectors one master sector names, up to a negative entry. |
| CdfTables.ReadMaster | magic/cdf.c:514-544 | One round of the walk over master sectors. |
| CdfTables.MasterChainFits | magic/cdf.c:526-535 | The sectors named by master sectors never exceed the space set aside. |
| CdfDirectory.ReadDirectory | magic/cdf.c:701-750 | The directory is the records of the sectors of its chain, in order. |
| CdfDirectory.WrittenIsRead | magic/cdf.c:311-329 | The kind, the first sector, the size and the name of a directory record written field after field, in the order and widths of the format, are read from it. |
| CdfDirectory.ReadShortStream | magic/cdf.c:798-834 | The stream of the first root record, or an empty one when there is none or it has no sector. |
| CdfDirectory.Unpack | magic/cdf.c:736-739 | One sector's records, in order. |
| Utf8Codec.FileLooksUtf8 | magic/encoding.c:353-427 | -1 exactly when the data is not well-formed UTF-8 (RFC 3629 section 4) up to a possibly cut-off last character; otherwise ubuf holds exactly the numbers of the complete characters, and the result is 2 for a multibyte character and no odd control, 1 for neither, 0 for an odd control. |
| Utf8Codec.TablesAreTheStandard | magic/encoding.c:318-351 | The tables first and accept_ranges say exactly which first and second bytes the ABNF of RFC 3629 allows. |
| Utf8Codec.ReadTail | magic/encoding.c:378-418 | The inner loop accepts exactly the continuation bytes that complete the character, and gathers its number. |
| Utf8Codec.EncodeUtf8 | magic/ascmagic.c:339-392 | Fails exactly when a number is above 0x7fffffff or the bytes do not fit; otherwise the buffer holds exactly the encoding. |
| Utf8Codec.EncodingCarries | magic/ascmagic.c:339-392 | The encoding of any sequence of Unicode scalar values is well-formed and decodes to that sequence. |
| Utf8Codec.DecodingEncodes | magic/ascmagic.c:339-392 | Encoding what well-formed data was decoded to gives the data back. |
| Utf8Codec.CarriesIsEncoding | magic/ascmagic.c:339-392 | Bytes carry a sequence of numbers exactly when they are its encoding and the numbers are scalar values. |
| Utf8Codec.EncodedSize | magic/ascmagic.c:145-159 | The encoding of n numbers takes at most 6 n bytes. |
| Utf8Codec.Reencode | magic/ascmagic.c:145-159 | Decoding and encoding together, as the text recogniser uses them, give back the complete characters of the data and never run out of room. |
| Utf8Codec.EncodeOne | magic/ascmagic.c:345-389 | One number: the first byte and the chain of labels. |
| Utf8Codec.WholeChar | magic/encoding.c:378-418 | Bytes that continue a first byte to its announced length are one well-formed character of the gathered number. |
| Utf8Codec.ValueIsEncoded | magic/ascmagic.c:345-389 | A well-formed character is the encoding of its number. |
| Utf8Codec.EncodedIsWellFormed | magic/ascmagic.c:345-389 | The encoding of a scalar value is a well-formed character of that number. |
| Utf8.CarriesUnique | magic/encoding.c:353-427 | The numbers that bytes carry are determined by the bytes. |
| Utf8.UnfinishedIsCut | magic/encoding.c:353-427 | An unfinished character is one whose announced bytes have not all arrived. |
| JsonTheorems.WholeIsOne | magic/is_json.c:346-418 | The text comes to 1 exactly when it is one array or object with blanks around it, in the grammar of RFC 7159 extended as the code extends it, no value deeper than 250 levels. |
| JsonTheorems.WholeIsTwo | magic/is_json.c:346-418 | It comes to 2 exactly when it starts with two such documents of one kind, the second one level less deep. |
| JsonTheorems.DocumentParsed | magic/is_json.c:346-418 | A document is read to its end, and every counter is the number of values of that kind in its tree, keys not counted. |
| JsonComplete.ParseComplete | magic/is_json.c:346-418 | Every value of the grammar with blanks around it is parsed, from any place and at any level that leaves room for its depth. |
| JsonComplete.StringComplete | magic/is_json.c:126-177 | Every string of the grammar is parsed up to its closing quote. |
| JsonComplete.NumberComplete | magic/is_json.c:273-322 | Every loose number is parsed up to where it stops. |
| JsonSound.ParseSound | magic/is_json.c:346-418 | Whatever is parsed is a value of the grammar, of the counted parts, and not too deep. |
| JsonSound.StringSound | magic/is_json.c:126-177 | Whatever is parsed as a string is one. |
| JsonSound.NumberSound | magic/is_json.c:273-322 | Whatever is parsed as a number is a loose number. |
| JsonParser.ParseString | magic/is_json.c:126-177 | The cursor ends where the specification says, or the string is bad. |
| JsonParser.ParseArray | magic/is_json.c:179-214 | The items of an array, the cursor and the counters. |
| JsonParser.ParseObject | magic/is_json.c:216-270 | The members of an object, the cursor and the counters. |
| JsonParser.ParseNumber | magic/is_json.c:273-322 | The parts of a number, the cursor. |
| JsonParser.ParseConst | magic/is_json.c:325-343 | A literal; the end of the data cuts it short without an error. |
| JsonParser.Parse | magic/is_json.c:346-418 | A value with the blanks around it, counted when good. |
| JsonParser.ParseWhole | magic/is_json.c:346-418 | The whole data, from counters at zero. |
| JsonParser.ParseKey | magic/is_json.c:229-245 | A key and the colon after it. |
| JsonParser.ParseBody | magic/is_json.c:369-402 | The value that starts at the cursor, by its first byte. |
| MagicString.ShownIsRead | magic/apprentice.c:3133-3307 | For a string with no space and no backslash, reading what was printed gives back the same bytes and stops right behind them, exactly when it has at most 127 bytes. |
| MagicString.ByteRead | magic/apprentice.c:3133-3307 | Each byte alone is read back from what is printed for it, whatever comes next. |
| MagicString.SpellingRead | magic/apprentice.c:3163-3293 | Every spelling behind a backslash, a letter code, one to three octal digits, `x` with no, one or two hexadecimal digits of either case, or any other character for itself, is read as the byte it means, when what follows does not lengthen it. |
| MagicString.EverySpelling | magic/apprentice.c:3163-3293 | There are no other spellings: whatever stands behind a backslash, short of the end, is one of these. |
| MagicString.HexRead | magic/apprentice.c:3277-3290 | Every byte is read back from its two hexadecimal digits, in either case of each. |
| MagicString.SpaceRead | magic/apprentice.c:3199-3223 | A space or a backslash with a backslash before it stands for itself. |
| MagicString.SpaceCutsShort | magic/apprentice.c:3329-3384 | A space, which is printed as it is, ends the value early. |
| MagicString.ShowString | magic/apprentice.c:3329-3384 | The printer's output, byte by byte. |
| MagicString.GetString | magic/apprentice.c:3133-3307 | The reader's value, its length and the place behind it, or an error when the value is too long or ends in a backslash. |
| MagicDb.WrittenIsLoaded | magic/apprentice.c:3514-3635 | Both sets of a database of at least one entry are found again in the file written from them; an empty database is refused. |
| MagicDb.AcceptedExactly | magic/apprentice.c:3514-3579 | A file is accepted exactly when it is whole records, at least two and not too many for 32 bits, and in one byte order its first word is 0xF11E041C, its second is 21, and its third and fourth are at most the number of records and, with the header, add up to it modulo 2^32; those are then the counts. |
| MagicDb.ForeignIsLoaded | magic/apprentice.c:3688-3743 | The same for a file written on a host of the other byte order: each entry comes out swapped. |
| MagicDb.SwapTwice | magic/apprentice.c:3726-3743 | Swapping an entry twice changes nothing. |
| MagicDb.SwappedReads | magic/apprentice.c:3726-3743 | A swapped entry's numbers read as they did on the host that wrote them; its strings and single bytes are as they were. |
| MagicDb.FloatMoves | magic/apprentice.c:3726-3743 | A float's bits survive the swap of the eight-byte value exactly when its two halves hold the same. |
| MagicDb.CountsAddUp | magic/apprentice.c:3514-3579 | The counts of an accepted header are those of the entries in the file, but for one sum that wraps round. |
| MagicDb.SwapEntry | magic/apprentice.c:3726-3743 | Turns the numbers of one entry around, in place, and nothing else. |
| MagicDb.Byteswap | magic/apprentice.c:3688-3694 | Every entry from a place on, in place. |
| MagicDb.CheckBuffer | magic/apprentice.c:3514-3579 | The header's checks in their order; the number of entries of each set, and the buffer with the entries made readable where they stand. |
| MagicDb.TurnAround | magic/apprentice.c:3726-3743 | Turns a few bytes around in place. |
| MagicDb.SplitConcat | magic/apprentice.c:3580-3635 | Records written one after the other divide into the same records again. |
| MagicDb.FileParts | magic/apprentice.c:3580-3635 | Where the parts of a written file stand, and what its header says. |
| MagicRules.FileLoads | magic/apprentice.c:1335-1424 | A file of lines is read without an error exactly when a rule comes first, every line's kind may stand where it does, and every condition passes against what is remembered for its level; the rules then join the two sets in order. |
| MagicRules.UnskippedFileLoads | magic/apprentice.c:2180-2206 | When no level is skipped that is exactly when every condition fits the sibling before it. |
| MagicRules.StaleExactly | magic/apprentice.c:2187-2190 | What is remembered differs from the sibling exactly when the line before is deeper and the last line of the level lies in an earlier group. |
| MagicRules.OrphanLetThrough | magic/apprentice.c:1973-2014 | An elif or else with no branch before it in its group is let through exactly then, if that last line was an if or elif. |
| MagicRules.IfRefused | magic/apprentice.c:1973-2014 | An if that could stand where it does is refused exactly then, if what is remembered is open. |
| MagicRules.BranchHasHead | magic/apprentice.c:1973-2014 | In a file that loads and skips no level, each elif or else belongs to a chain: an earlier if of its level with only deeper lines and elifs of that level between. |
| MagicRules.SkippedLevelIsStale | magic/apprentice.c:2187-2206 | A file with such an else, which loads: only a warning is given for the level it skips. |
| MagicRules.DatabaseConserves | magic/apprentice.c:1599-1635 | From the lines of any file that loads to the two sorted and coalesced arrays no entry is lost, added or moved out of its rule, and the arrays divide into the same rules again. |
| MagicRules.RulesStayApart | magic/apprentice.c:1599-1635 | However rules are put together, they can be told apart again by their level-0 entries. |
| MagicRules.SortConserves | magic/apprentice.c:1599-1635 | Moving whole rules keeps the entries. |
| MagicRules.LoadedRuleFound | magic/apprentice.c:3818-3843 | Looking up a name in a loaded database gives the first rule of that name, whole and nothing else, or nothing when there is none. |
| MagicRules.LinesChecked | magic/apprentice.c:1973-2014 | The loader's per-level table holds for each level the condition of the last line of that level, over all lines; a line is an error exactly when it does not pass. |
| MagicRules.FindsRule | magic/apprentice.c:3818-3843 | In any list of whole rules the lookup gives the first rule of that name, whole. |
| MagicRules.LinesGrouped | magic/apprentice.c:1335-1424 | After any lines without error, the current rule is the last group of the lines and the sets hold the others in order. |
| MagicLoader.RuleLoader.CheckCond | magic/apprentice.c:1973-2014 | Updates one slot of the table or refuses. |
| MagicLoader.RuleLoader.ParseLine | magic/apprentice.c:2180-2235 | Adds a line to the current rule, asks for that rule to be closed first, or refuses the line. |
| MagicLoader.RuleLoader.AddEntry | magic/apprentice.c:1306-1330 | Moves the current rule into the set of its kind. |
| MagicLoader.RuleLoader.Load | magic/apprentice.c:1335-1424 | The loop over lines with its retry computes the specification of a file. |
| MagicLoader.Coalesce | magic/apprentice.c:1599-1635 | The rules one after the other, unless there are too many entries. |
| MagicLoader.MagicFind | magic/apprentice.c:3818-3843 | The first entry of that name in the lists, with the continuations after it. |
| MagicLoader.RuleLoader.CheckMem | magic/funcs.c:624-645 | Grows the loader's table, keeping its contents, and resets one level. |
| MagicLoader.RuleLoader.TakeLine | magic/apprentice.c:1406-1417 | One line, with the retry after the rule before it is closed. |
| StringSearch.Agree | magic/softmagic.c:2045-2120 | The two-cursor pass, for flags among c, C, W and w: equal exactly when the declarative match holds, for strings that do not end in an optional blank. |
| StringSearch.GreedyIsRight | magic/softmagic.c:2045-2120 | Taking blanks greedily never accepts too much and loses nothing: a run of k blanks stands for k or more, or for any number when optional. |
| StringSearch.OptionalTail | magic/softmagic.c:2102-2107 | A string that ends in optional blanks is accepted exactly when what comes before them fits and leaves a byte of the data, a byte that is not blank when there are two or more. |
| StringSearch.OptionalTailRefused | magic/softmagic.c:2102-2107 | Such a string can be refused by the very same text. |
| StringSearch.HitsStand | magic/softmagic.c:2344-2357 | The comparison hits only where the string stands, and everywhere it does when it does not end in an optional blank. |
| StringSearch.SearchLoop | magic/softmagic.c:2344-2357 | The least offset in the range where the comparison hits, or none. |
| StringSearch.FileSearch | magic/softmagic.c:2301-2357 | The same for the whole test, with the library search or without. |
| StringSearch.FastLooksFurther | magic/softmagic.c:2321-2341 | With and without the library search the test reports the same exactly unless the string, compared without flags, first stands right behind the range: there only the library search finds it. |
| StringSearch.FoundBehindRange | magic/softmagic.c:2321-2341 | A text where the two reports differ. |
| StringSearch.Find | magic/softmagic.c:2321-2341 | The first place where the string stands byte for byte. |

## Left out

- REG_NEWLINE, and with it the keep-string branch for `.*` before a newline (magic/regex.c:1015-1022): the syntax is fixed to the POSIX extended one, in which a dot matches a newline and that branch is not taken.
- Intervals, back-references, named character classes, and the backslash commands for words and buffers: their counters and registers are not restored on backtracking (magic/regex.c:3806-3854), so they carry no language claim; a pattern that reaches one is reported as such by the compiler's model.
- Translate tables and REG_ICASE, matching over two strings, register contents, and the best-match copy of the registers.
- RegexTheorems.MatchIsSound: takes a number of commands, because with groups the matcher may run for ever; every stop within any number of commands is covered.
- RegexTheorems.MatchIsComplete: leaves out patterns that repeat a group, where forced loop exits and register flags make the answer depend on the history; soundness covers them.
- RegexTheorems.ShortMatchIsTotal: is for patterns without groups; with groups the stack can be refused early (`RegexWrapAround.GivesUpEarly`), which takes five groups in the example.
- RegexTheorems.LongestExactly: gives its exact condition on the run, not on the pattern: which alternative is tried last, and with what saved, depends on the text.
- RegexFastSearch.FastSearchAgrees: leaves out patterns with an alternation whose last alternative is empty; there the scan reads one byte past the code (magic/regex.c:2408-2420). It is about a fastmap that has been computed, and compares with the plain search only where that one stays within the stack limit.
- RegexCompiler.Compiler.HandleAlt: the three bytes left open for a jump hold an arbitrary value, passed as a parameter.
- StringSearch.Agree: says whether the result is zero, not its sign, and leaves out the full-word flag; the data has at least as many bytes as the string, as in the search test.
- SoftmagicRefine.EvaluateRefines: leaves out rule sets with `indirect`, which runs a nested match on the caller's own table; termination, counters and the interpreter cover it.
- SoftmagicOrder.PrintedInOrder: is for entries that print nothing but their own descriptions; `use`, `name` and annotations print more.
- MagicDb.CheckBuffer: gives up where counts that only add up by wrapping round, two sets of 2^32 - 1 entries each, are to be swapped; magic/apprentice.c:3575-3577 would go past the end of the buffer there.
- CdfTables.ReadSat: reads from one byte source; pread, the file descriptor and the branch for a truncated last sector, which the size test before it makes dead, are folded into it.
- Fetching and comparing values in the rule interpreter (mcopy, mconvert, magiccheck), the end offset of a match (moffset) and FILE_DER: taken as arbitrary functions of the entry and what it can see.
- The error-event flag that turns a nested match's result into an error, printf formatting, and separators' text: output is a sequence of descriptions and of the places where separators and blanks go.
- SoftmagicActivation.ActivationPrints: is for entries other than `use`, `name` and `indirect`, which print what the rules they run print.
- Pascal strings and warnings in the escape reader; parsing of a magic line beyond its level, kind and condition; `!:` lines; the strength used for sorting, which is any permutation of rules here.
- UTF-7, UTF-16, EBCDIC and the other text tables of magic/encoding.c; the call with no output buffer.
- The property sets, summary information and time stamps of compound documents.
- Memory allocation is taken to succeed; locale, file and process handling, decompression, and the Go binding are not modelled.
- Line numbers, lengths and levels are unbounded where the source's tables could only be exhausted by memory; 16- and 32-bit wrap-around is modelled where it changes a result.
