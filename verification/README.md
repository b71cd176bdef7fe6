# Verified models of Synaxis

Dafny models of the parts of Synaxis (the X3/srvx IRC services) whose correctness is hardest to see:
the bundled GNU Rx matcher, from static analysis to leftmost-longest search; the hash trie under it;
the threaded splay dictionary; the slab allocator; argument permutation in getopt; the ChanServ user
lists; and the two base64 codecs. `dafny verify dfyconfig.toml` checks everything.

## How the parts fit together

**Rx.** `RxSyntax` gives a syntax tree two meanings. `M` is the full one, with groups that set registers,
back references that read them, anchors and counted intervals. `Rough` is the regular language an
automaton can decide. The path through the engine is then:

- `RxGroups`: what the registers hold, said of the order in which groups are closed.
- `RxAnalysis`: the length, fastmap, anchoring and "observed" analyses are sound for `M`.
- `RxNfa`, `RxBuild`, `RxThompson`: Thompson's construction, as a function, in place, and exact for `Rough`.
- `RxEclose`, `RxSuperset`: epsilon closures by marking, and hash-consed sorted state sets.
- `RxSubset`, `RxSuperEdge`, `RxBitset`: plain subset simulation, the step the engine really takes, and
  the exact condition under which the two are the same.
- `RxCache`, `RxCacheOps`, `RxSuper`: the lazily built superstate cache with its LRU and semi-free rings,
  locks, counters, same-destination rings and evictions, under one invariant that every operation keeps.
- `RxInstall`, `RxRings`: the loops that fill a transition table word by word, and the pointers of the
  circular lists, tied to the sets and sequences that the cache works on.
- `RxRun`, `RxFit`: the runners, and the fit test as a whole: acceptance is `Rough`.
- `RxSimp`: simplification to a regular over-approximation, which never loses a match.
- `RxAnswers`, `RxSpencer`: the resumable backtracking matcher gives exactly the matches, in order, puts
  registers back, and comes to an end.
- `RxPosix`: the search with its shortcuts is leftmost-longest if and only if a stated condition holds.
- `RxExamples`: inputs on which the engine departs from its intent.

**The rest.** `DoublyLinked` says what linking and unlinking do to the sequence a list stands for; the
splay dictionary's thread, the slab list and the userData lists all use it. `DictSplay` holds the order
and map facts about splay trees, and `DictNodes` the child pointers that dict_splay relinks and the
dictionary itself.

A predicate compared with `true` in a contract is taken as one fact; without the comparison each of its
conjuncts would be checked on its own at every call.

## Where the code departs from its intent

Each is a theorem, with the condition under which the intended property does hold.

- `rx_bitset_is_subset` never looks at the last word of a set, so characters from 224 up may take edges
  they should not (`RxExamples.LastWordIsNotInspected`; exact condition `RxSubset.CodeStepExact`). No match
  is ever lost by it (`RxSubset.RunInCodeRun`).
- On subjects of more than 30 characters `rx_regexec` drops an empty match when the automaton dies after
  at least one character, because `rx_advance_to_final` does not look at the state before the first one
  (`RxExamples.DropExample`). A fixed-length pattern is tried past the end of the subject
  (`RxExamples.OverrunExample`). `RxPosix.SearchExact` gives the exact condition for both; on C strings what
  lies past the end makes no difference (`RxPosix.StringDecides`).
- A back reference compared without case, under a pattern compiled with case, can be rejected by the rough
  fit test (`RxExamples.FoldedIsMatch`, `RxExamples.FoldedIsRejected`), and so can one whose comparison stops
  at a zero byte (`RxExamples.ZeroIsMatch`, `RxExamples.ZeroIsRejected`). The test keeps every comparison
  with a group if and only if the group's language is closed under comparing equal (`RxSimp.BackRefExact`),
  and `RxSimp.SimplifyKeepsMatches` asks that of the groups referred to.
- Giving back an item while the child slab is full leaves a full slab after the child
  (`AllocSlab.FullAfterChild`); the stricter order survives exactly when the child is not full
  (`AllocSlab.RelinkStrict`), and every other step keeps it. The order that does always hold is
  `AllocSlab.Ordered`.
- `overflows` in `rx/rxhash.c` answers the opposite of its name, so that the root table never holds an item of its
  own (`RxHash.RootBare`, part of the trie's invariant). The trie is a set all the same.

## Model

| member | source | states |
|---|---|---|
| RxAnalysis.FillInFastmap | rx/rxanal.c:155-240 | the map grows by exactly the entered characters, and the answer is the may-be-empty analysis |
| RxAnalysis.LenSound | rx/rxanal.c:60-140 | a known length is the length of every match, whatever the tree |
| RxAnalysis.FastmapSound | rx/rxanal.c:155-240 | when the analysis says a tree cannot be empty, every match is non-empty and starts with a mapped character, although only the left of a concatenation is visited |
| RxAnalysis.AnchoredSound | rx/rxanal.c:245-286 | every match of an anchored tree starts where '^' holds |
| RxAnalysis.UnobservedIsRegular | rx/rxanal.c:60-140 | an unobserved tree matches exactly its regular language and leaves the registers alone, so one automaton run decides it |
| RxSyntax.SameTextMeans | rx/rxstr.c:75-96 | texts compare equal when they agree, up to the case of ASCII letters where that is asked, at each place up to the first zero byte |
| RxSyntax.AnchorsMean | rx/rxstr.c:98-118 | where '^' and '$' match, with and without newlines |
| RxBuild.Nfa.BuildNfa | rx/rxnfa.c:218-394 | building in place gives the graph, start and end of the construction, null subtrees aliasing end to start |
| RxThompson.CompileExact | rx/rxnfa.c:218-394 | for every tree and span: a path from start to end reads the span if and only if the regular language holds it, intervals reading as stars |
| RxThompson.BuildComplete | rx/rxnfa.c:218-394 | whatever states the caller allocated, every word of the language is on a path |
| RxThompson.CompileLabel | rx/rxnfa.c:218-394 | states can be labelled with positions so that every edge is respected and the end carries exactly the ends of matches |
| RxEclose.EnjoinAdds | rx/rxnfa.c:594-670 | enjoining a state keeps the set strictly sorted and adds just that state |
| RxEclose.SortedUnique | rx/rxnfa.c:552-592 | strictly sorted sets with the same members are the same list |
| RxEclose.ThroughAll | rx/rxnfa.c:679-780 | the states reached through the edges of a node, avoiding marked states, are those reachable from it |
| RxEclose.Rx.EcloseNode | rx/rxnfa.c:679-780 | ends with every mark restored and the destination set grown by exactly the states reachable along unmarked paths |
| RxEclose.Rx.PossibleFutures | rx/rxnfa.c:783-805 | one sorted set, exactly the epsilon closure, memoised |
| RxSuperset.MergeIsUnion | rx/rxsuper.c:745-793 | merging a closure into a sorted set is set union and keeps it sorted |
| RxSuperset.SetsAreCanonical | rx/rxsuper.c:695-742 | equal state sets are the same hash-consed superset |
| RxSuperset.Canonical | rx/rxsuper.c:695-742 | equal lists are the same cell |
| RxSuperset.GrownKeepsLists | rx/rxsuper.c:695-742 | cells added later do not change what an older superset stands for |
| RxSuperset.SupersetTable.Cons | rx/rxsuper.c:695-742 | the cell for a state and a rest, found or made; the count of the rest goes up by two, or three when a cell is made, a new cell starts at zero and no other count changes |
| RxSuperset.SupersetTable.Union | rx/rxsuper.c:745-793 | the superset of the union, consed into the shared table |
| RxSuperset.SupersetTable.Release | rx/rxsuper.c:336-377 | exactly the supersets down the list that nobody else holds go, and the first one that stays loses one holder |
| RxSuperset.HeldOutlives | rx/rxsuper.c:336-377 | a superset that somebody holds, as a superstate holds its contents, is not freed by releasing another |
| RxBitset.Union | rx/rxbitset.c:161-176 | the members are the union, in place, also of a set with itself |
| RxBitset.Intersection | rx/rxbitset.c:178-194 | the members are the intersection, in place |
| RxBitset.Difference | rx/rxbitset.c:196-211 | the members are the difference, in place |
| RxBitset.IsEqual | rx/rxbitset.c:29-54 | the sentinel scan decides equality and leaves both sets as they were |
| RxBitset.IsSubset | rx/rxbitset.c:57-72 | true exactly when every word but the last is contained |
| RxBitset.SubsetTestOfWords | rx/rxbitset.c:57-72 | on sets of 256 characters that is inclusion of the first 224 characters |
| RxSubset.RunExact | rx/rxanal.c:372-470 | subset simulation from the closure of a state reaches exactly the states on paths reading the word |
| RxSubset.ClassOnEdge | rx/rxsuper.c:1138-1213 | the character class of a super edge lies inside each edge label or misses it, and contains its character |
| RxSubset.ClassOfMember | rx/rxsuper.c:1138-1213 | the class is the same for each of its characters |
| RxSubset.TestExact | rx/rxsuper.c:1051-1058 | when the class has an inspected character the subset test selects precisely the edges that accept the character |
| RxSubset.CodeStepExact | rx/rxsuper.c:1029-1124 | the engine's step is the simulation's step if and only if the stated condition on the character's class holds |
| RxSubset.CodeRunExact | rx/rxsuper.c:1029-1124 | over words of inspected characters the engine's run is plain subset simulation |
| RxSubset.RunInCodeRun | rx/rxsuper.c:1029-1124 | on all words the engine reaches at least what simulation reaches |
| RxSuperEdge.ComputeSuperEdge | rx/rxsuper.c:1138-1213 | computes exactly the class of the character, and whether any edge takes it |
| RxSuperEdge.SolveContents | rx/rxsuper.c:1029-1075 | the sorted union of the closures of the edges that pass the test |
| RxCache.NextCharIsStep | rx/rxsuper.c:1316-1414 | under the invariant a next-char frame leads to the superstate whose contents are the step of its source's contents |
| RxCache.SetFrames | rx/rxsuper.c:185-306 | new frames for a whole same-destination ring, in the futures and in the tables of their sources, and nowhere else |
| RxInstall.InstallTransition | rx/rxsuper.c:58-92 | the word-by-word loop, with its shortcut for empty words, enters the frame at exactly the members of the bit set |
| RxInstall.InstallPartialTransition | rx/rxsuper.c:1285-1310 | one word's members get the frame and no other entry changes |
| RxInstall.WordMembersOf | rx/rxsuper.c:1405-1412 | handed the word that holds a character, those are the members of the set that share its word |
| RxCacheOps.SleepOk | rx/rxsuper.c:185-248 | making a superstate semi-free keeps the invariant |
| RxCacheOps.WakeOk | rx/rxsuper.c:254-334 | refreshing a semi-free superstate keeps it |
| RxCacheOps.FreedOk | rx/rxsuper.c:383-516 | freeing a superstate, with its edges and the frames that led to it, keeps it |
| RxCacheOps.CreatedOk | rx/rxsuper.c:886-1019 | a new superstate keeps it |
| RxCacheOps.SolvedOk | rx/rxsuper.c:1029-1124 | connecting a future to its destination keeps it |
| RxRings.TurnRing | rx/rxsuper.c:195-201 | moving the head pointer on turns the sequence |
| RxRings.EnqueueRing | rx/rxsuper.c:987-1000 | linking before the head, or into an empty ring, appends |
| RxRings.DequeueRing | rx/rxsuper.c:203-209 | joining the neighbours of a record removes just it |
| RxRings.UnlinkRing | rx/rxsuper.c:285-290 | leaving the semi-free ring, where the one before a leaving head becomes the head |
| RxRings.TouchRing | rx/rxsuper.c:308-334 | moving a superstate in use to the favoured end, in its three cases |
| RxRings.SpliceRing | rx/rxsuper.c:1112-1122 | crossing the ends of two same-destination rings makes one ring with the futures of both |
| RxRings.RingElsewhere | rx/rxsuper.c:185-334 | a ring none of whose records is written to is as it was |
| RxSuper.CountsAgree | rx/rxsuper.c:115-129 | under the invariant, kept by creating, semi-freeing, refreshing and freeing, the counters superstates and semifree_superstates are the lengths check_cache asks for, and count the superstates and those flagged semi-free |
| RxSuper.KeepsTrans | rx/rxsuper.c:185-516 | what one operation keeps of locked superstates, a sequence of operations keeps |
| RxSuper.FreeHeadKeeps | rx/rxsuper.c:383-516 | a locked superstate is never freed and its edges stay |
| RxSuper.SuperCache.Scan | rx/rxsuper.c:185-215 | counting with the cache's counters, the scan ends within one turn of the ring, at a superstate without locks or with all of the ring locked |
| RxSuper.SuperCache.SemifreeSuperstate | rx/rxsuper.c:185-248 | keeps the invariant and every locked superstate awake; one unlocked superstate, if there is any, joins the end of the semi-free ring, else none does |
| RxSuper.SuperCache.RefreshThis | rx/rxsuper.c:308-334 | the superstate is awake afterwards, and nothing else about the cache's contents changes |
| RxSuper.SuperCache.ReallyFree | rx/rxsuper.c:383-516 | frees one semi-free superstate, never a locked one |
| RxSuper.SuperCache.Superstate | rx/rxsuper.c:886-1019 | the one superstate for a set, found, refreshed or made, whatever was evicted for it |
| RxSuper.SuperCache.SolveDestination | rx/rxsuper.c:1029-1124 | a miss on an edge without a destination is answered by a right next-char frame, the source surviving all evictions |
| RxSuper.SuperCache.HandleCacheMiss | rx/rxsuper.c:1316-1414 | a correct frame for the superstate and character, from any state of the cache |
| RxRun.System.StartSuperstate | rx/rxanal.c:292-364 | the system holds a lock on the closure of the start state |
| RxRun.System.FitP | rx/rxanal.c:372-470 | yes exactly when the run over the burst ends in the final state, from any history of misses and evictions |
| RxRun.System.AdvanceToFinal | rx/rxanal.c:566-690 | where it stops, and that nothing final came before and nothing is reachable after |
| RxFit.FitTest | rx/rxspencer.c:205-260 | the fit test answers what the engine's run says about the span |
| RxFit.FitNeverLoses | rx/rxspencer.c:205-260 | every word of the regular language passes, on all bytes |
| RxFit.FitExact | rx/rxspencer.c:205-260 | on inspected characters acceptance is the regular language |
| RxSimp.Simplify | rx/rxsimp.c:31-145 | ends although back references leave the tree, gives a tree the automaton builder takes, and leaves unobserved trees alone |
| RxSimp.Memo.SimpleRexp | rx/rxsimp.c:31-145 | the memo fields hold simplifications only, and the answer is the simplification |
| RxSimp.SimplifySame | rx/rxsimp.c:63-68 | the memo of a node does not depend on where the recursion came from |
| RxSimp.SimplifyKeepsMatches | rx/rxsimp.c:31-145 | whatever a tree matches with groups, anchors, counts and back references, its simplification accepts, when the groups it refers to are closed under comparing equal; every group recorded on the way is accepted by its own |
| RxSimp.BackRefExact | rx/rxsimp.c:31-145 | for all texts, or all without zero bytes, the simplified group accepts every span that compares equal to what the group recorded, if and only if its language is closed under that comparison |
| RxSimp.ComparableTexts | rx/rxsimp.c:31-145 | texts without zero bytes, and groups blind to case when the comparison is, are enough |
| RxSimp.NulFreeSameFits | rx/rxsimp.c:31-145 | a group without zero bytes is closed on all texts |
| RxSimp.ParsedIsResolved | rx/rxanal.c:48-60 | for every tree the parser makes, each back reference names an earlier closed group, so simplification ends |
| RxAnswers.SolsSound | rx/rxspencer.c:443-1191 | every answer is a match with those registers |
| RxAnswers.SolsComplete | rx/rxspencer.c:443-1191 | every match is an answer, intervals counting iterations through interval_x |
| RxAnswers.AnswersAreMatches | rx/rxspencer.c:443-1191 | for every tree, span and starting registers the answers are exactly the matches |
| RxAnswers.SolsAnchored | rx/rxanal.c:245-286 | an anchored tree gives no answer away from where '^' holds |
| RxAnswers.NotRejected | rx/rxspencer.c:469-538 | neither the length test nor the rough fit test rejects a match |
| RxSpencer.SolsOutside | rx/rxspencer.c:560-640 | answers change only the registers of the tree's own groups |
| RxGroups.RegistersAreLastClosings | rx/rxspencer.c:566-640 | for every tree, span and starting registers: the match leaves exactly what the closings of its groups leave, each register having the span of its group's last closing |
| RxGroups.GroupRecords | rx/rxspencer.c:566-607 | a group's register has the span its body matched, and every other register is as the body left it |
| RxGroups.LastIterationStays | rx/rxspencer.c:566-607 | after any number of iterations of a group its register has the span of the last one |
| RxGroups.StarredGroup | rx/rxspencer.c:748-955 | a starred group that matched something ends where the star ends |
| RxSpencer.Solutions.Next | rx/rxspencer.c:443-1191 | one call gives the next answer of the list and leaves it in the registers, or says no and the registers are as at the start; every call ends |
| RxSpencer.Solutions.NextParens | rx/rxspencer.c:566-640 | a group saves, sets and restores its register around its body's answers |
| RxSpencer.Solutions.NextAlt | rx/rxspencer.c:683-746 | the left answers, then the right ones |
| RxSpencer.Solutions.Search | rx/rxspencer.c:748-955 | the loop over split guesses and left answers gives the next answer and ends |
| RxSpencer.Solutions.FirstInterval | rx/rxspencer.c:958-1012 | the first tests on an interval, by the iterations made so far |
| RxSpencer.Solutions.FitStr | rx/rxspencer.c:262-335 | a string node fits exactly its own text |
| RxSpencer.Solutions.Drain | rx/rxspencer.c:443-1191 | asking until there are no more answers ends, gives the whole list, and restores the registers |
| RxPosix.Analyze | rx/rxposix.c:98-124 | the compiled pattern carries the analyses of its tree |
| RxPosix.LocalIsWhole | rx/rxposix.c:228-236 | the not_eol worked out for each candidate end gives '$' the meaning it has for the whole subject |
| RxPosix.TrySpan | rx/rxposix.c:237-258 | yes exactly when the matcher has an answer for the span, with the registers of its first; a failed try leaves the registers untouched |
| RxPosix.RegMatch | rx/rxposix.c:191-268 | the longest end in range, with the registers of the first answer and its span in register 0 |
| RxPosix.HitsAreMatches | rx/rxposix.c:191-268 | every match of a span is an answer, and on inspected characters every answer is a match |
| RxPosix.DropExact | rx/rxposix.c:318-330 | the dead-prefix test rejects exactly the starts where the automaton dies without a final state |
| RxPosix.RegExec | rx/rxposix.c:276-353 | the first start that is admitted, not dropped and matches in range, with its longest end |
| RxPosix.DroppedOnlyEmpty | rx/rxposix.c:318-330 | the dead-prefix test never loses a match that is not empty |
| RxPosix.MatchAdmitted | rx/rxposix.c:314-317 | the fastmap never rejects the start of a match |
| RxPosix.NoMatchPassedBy | rx/rxposix.c:276-353 | on all bytes: a match of the pattern is passed by only if the dead-prefix test drops its start |
| RxPosix.OverrunFound | rx/rxposix.c:218-222 | a match that memory past the end completes gets through the fastmap, the dead-prefix test and the matcher |
| RxPosix.SearchExact | rx/rxposix.c:276-353 | for every pattern and subject the search is leftmost, then longest, if and only if the leftmost start survives the dead-prefix test and, where there is no match, memory past the end completes none of a fixed-length pattern |
| RxPosix.SearchOnStrings | rx/rxposix.c:276-353 | on C strings it is, whenever the subject is short or the pattern cannot be empty, and a pattern of fixed length holds no zero byte |
| RxPosix.ReportedRegisters | rx/rxposix.c:237-258 | register 0 has the span of the match, and each other register the last closing of its group in it, or nothing |
| RxPosix.ReportedLastIteration | rx/rxposix.c:237-258 | for a pattern that repeats a group the last iteration is reported |
| RxPosix.StringDecides | rx/rxposix.c:276-353 | there the answer does not depend on what memory holds after the zero byte |
| RxExamples.LastWordIsNotInspected | rx/rxbitset.c:69-71 | the fit test of the pattern with alternatives a and \xe9b accepts a text of character 233 alone, which is not in the language |
| RxExamples.OverrunExample | rx/rxposix.c:218-222 | a two-character match is reported in a subject of one character |
| RxExamples.DropExample | rx/rxposix.c:318-330 | for (ab)? the empty match at the start of a long subject is not reported |
| RxExamples.LastIterationIsMeant | rx/rxspencer.c:566-607 | (a or b)* followed by a reference to its group matches all of "abb", through the second iteration |
| RxExamples.AnalysesOfGroups | rx/rxanal.c:31-240 | length, entered characters and the other analyses of two patterns |
| RxExamples.AnalysesOfAnchors | rx/rxanal.c:31-286 | the same for patterns with anchors, back references and options |
| RxExamples.FoldedIsMatch | rx/rxstr.c:75-96 | a back reference compared without case matches |
| RxExamples.FoldedIsRejected | rx/rxspencer.c:517-538 | and the rough fit test rejects it |
| RxExamples.ZeroIsMatch | rx/rxstr.c:75-96 | a back reference whose comparison stops at a zero byte matches |
| RxExamples.ZeroIsRejected | rx/rxspencer.c:517-538 | and the rough fit test rejects it |
| RxExamples.ZeroNotClosed | rx/rxstr.c:75-96 | because its group is not closed under comparing equal |
| RxHash.OnlyHere | rx/rxhash.c:133-170 | the walk along a hash ends in the only chain that can hold it |
| RxHash.SlotIsSum | rx/rxhash.c:116-128 | the bucket is a weighted sum of half the bytes under the level's mask |
| RxHash.AddedOk | rx/rxhash.c:272-288 | adding an item keeps the trie and makes the set larger by it |
| RxHash.DeepenedOk | rx/rxhash.c:238-270 | nesting a bucket moves its items and changes nothing else |
| RxHash.RemovedOk | rx/rxhash.c:315-323 | removing an item removes only it |
| RxHash.CutOk | rx/rxhash.c:324-335 | an empty nested table goes and its parent's bucket is a chain again |
| RxHash.HashTable.Find | rx/rxhash.c:133-170 | finds a value exactly when it is stored |
| RxHash.HashTable.Store | rx/rxhash.c:206-290 | the set grows by the value, storing twice changes nothing, depth, counts and buckets stay right, and the root keeps no item of its own |
| RxHash.HashTable.Free | rx/rxhash.c:298-338 | the set loses just that item, and no empty nested table is left |
| IrcCase.CompareZero | src/tools.c:368-377 | zero means that the strings differ in case only |
| IrcCase.CompareMeans | src/tools.c:368-377 | zero exactly when the strings have the same length and agree up to the case pairs of the P10 table |
| IrcCase.CompareTrans | src/tools.c:368-377 | the comparison is a total order on folded strings |
| DictNodes.TurnRight | src/dict-splay.c:92-97 | rotating the pointers rotates the tree they stand for, and touches no other node |
| DictNodes.HeldLinkRight | src/dict-splay.c:99-101 | linking a node to the right scratch tree and going left, with all nodes accounted for once |
| DictNodes.HeldLinkLeft | src/dict-splay.c:112-114 | the same to the left scratch tree, also when it still is the scratch node itself |
| DictNodes.HeldEnd | src/dict-splay.c:117-121 | the four assignments after the loop close both scratch trees and hang them below the root |
| DictNodes.Splay | src/dict-splay.c:74-122 | the nodes again make up a tree with the entries in the same order, the key or a neighbour of its place is at the root, and nodes outside the tree are untouched |
| DictNodes.NewRoot | src/dict-splay.c:238-255 | the splayed left subtree has no right subtree to overwrite, the rest keeps its order, and no pointer leads to the freed node |
| DictSplay.SplayEnd | src/dict-splay.c:117-121 | what was put aside lies on its side of the key, so the root is the key or next to it |
| DictSplay.FoundAtRoot | src/dict-splay.c:265-280 | after a splay the key is in the dictionary exactly when it is at the root |
| DictSplay.NothingAbove | src/dict-splay.c:241-242 | splaying for a key above all entries leaves the root without a right subtree |
| DictSplay.BeforeThreads | src/dict-splay.c:164-177 | linking a node before the root keeps the thread equal to the in-order traversal |
| DictSplay.AfterThreads | src/dict-splay.c:178-191 | the same after the root |
| DictSplay.UnthreadThreads | src/dict-splay.c:244-247 | and when a node is taken out |
| DictSplay.DictionaryInsert | src/dict-splay.c:150-218 | an entry put anywhere in a sorted list adds one binding to the map |
| DictNodes.Dict.Insert | src/dict-splay.c:150-218 | the map gets the binding, with tree, thread, order and count kept, and there is an entry for the key in any case; no key, no change |
| DictNodes.Dict.Remove | src/dict-splay.c:225-257 | true exactly when the key was there, and then the map loses it |
| DictNodes.Dict.Find | src/dict-splay.c:265-280 | found exactly when some entry's key differs from the one looked up in case at most, and then its data; the entries are unchanged and only child pointers touched |
| DictNodes.FindInAnyCase | src/dict-splay.c:150-280 | what is stored under a name is found under the name in any other case |
| DictNodes.Dict.CountIsSize | src/dict-splay.c:33-37 | count is the size of the map |
| DoublyLinked.UnlinkChained | src/alloc-slab.c:385-397 | joining the neighbours of a record takes it out of the list |
| DoublyLinked.LinkBeforeChained | src/alloc-slab.c:380-385 | linking before a record inserts there |
| DoublyLinked.LinkAfterChained | src/alloc-slab.c:314-327 | linking after a record inserts there |
| DoublyLinked.LinkFirstChained | src/chanserv.c:1343-1348 | linking at the head prepends |
| AllocSlab.RoundUpLeast | src/alloc-slab.c:243-247 | the least multiple of the page size that is not smaller |
| AllocSlab.MaskingFindsSlab | src/alloc-slab.c:366-367 | masking any item's address gives the header of the slab it was cut from |
| AllocSlab.LiveApart | src/alloc-slab.c:309-314 | no two items that are out overlap, nor does one overlap its slab's header |
| AllocSlab.LivePerSlab | src/alloc-slab.c:301-308 | live and free slots partition a slab, and `used` counts the live ones |
| AllocSlab.RelinkOrdered | src/alloc-slab.c:372-388 | moving a slab before the child keeps the order of full and other slabs |
| AllocSlab.RelinkStrict | src/alloc-slab.c:372-388 | no full slab is left after the child if and only if the child was not full |
| AllocSlab.TakeOrdered | src/alloc-slab.c:332-354 | taking an item, and moving on when that fills the child, keeps the order and the strict order |
| AllocSlab.NewOrdered | src/alloc-slab.c:292-330 | a new slab is opened only when the full child is last, and the strict order holds afterwards |
| AllocSlab.GiveOrdered | src/alloc-slab.c:361-372 | and so does giving an item back to the child or to a slab that is not full |
| AllocSlab.FullAfterChild | src/alloc-slab.c:372-388 | two full slabs on which one is left |
| AllocSlab.DropOrdered | src/alloc-slab.c:389-402 | unlinking an empty slab keeps the order, whichever slab becomes the child, and the strict order, too |
| AllocSlab.SlabSet.constructor | src/alloc-slab.c:272-284 | items are as large as asked and aligned, and fill the page up to the header |
| AllocSlab.SlabSet.Alloc | src/alloc-slab.c:287-357 | an item that was not out and now is, which overlaps no other item and no header; counts, partition and list order kept |
| AllocSlab.SlabSet.Unalloc | src/alloc-slab.c:361-410 | just that address is no longer out; counts, partition and list order kept |
| Getopt.SwapBlocks | src/getopt.c:306-311 | two equal blocks change places and nothing else moves |
| Getopt.Exchange | src/getopt.c:286-340 | in place, the result is the first part, the upper block, the lower block and the rest |
| Getopt.SelectSplits | src/getopt.c:503-549 | the partition is a permutation of the arguments |
| Getopt.Scanner.Advance | src/getopt.c:492-549 | comes to the next option with everything before it taken or left aside as it should be, or ends the scan with the stable partition of the arguments by their marks |
| Getopt.MarksMean | src/getopt.c:488-549 | what is taken begins with '-' and has more, or follows an option that takes it; what is left aside before `--` is empty, a lone '-' or does not begin with one; an option that takes an argument gets it; after `--` nothing is taken |
| Getopt.ScanAll | src/getopt.c:492-549 | whichever options take arguments, repeated calls leave the taken elements, then the others, each in order, with optind at the first of the others: taken are options, their arguments and the first `--` where an option could be, which ends the scan |
| ChanServ.OutrankedKeepsOwners | src/chanserv.c:3127-3391 | commands by rank leave the set of owners alone |
| ChanServ.StepKeepsCount | src/chanserv.c:3127-3391 | every command but giving the channel away and leaving is a ranking change, and all keep the number of owners |
| ChanServ.TransferKeepsCount | src/chanserv.c:7369-7379 | giving the channel away keeps the number of owners |
| ChanServ.Channel.Lookup | src/chanserv.c:893-955 | finds the entry of a handle and only reorders the list |
| ChanServ.Channel.AddUser | src/chanserv.c:3127-3210 | done exactly when there is room, the level is valid, the actor has an unsuspended entry above it and the handle has none; then just that entry is new |
| ChanServ.Channel.Clvl | src/chanserv.c:3212-3290 | done exactly when the actor, unsuspended, is above both levels of another user's entry; no other entry changes |
| ChanServ.Channel.DelUser | src/chanserv.c:3292-3351 | done exactly when the actor, unsuspended, is above the entry; only it goes, and a channel without users is unregistered unless protected |
| ChanServ.Channel.MDel | src/chanserv.c:3353-3391 | done exactly when the actor, unsuspended, is above a valid range; then exactly the entries in it that match go, and the channel stays |
| ChanServ.Channel.Trim | src/chanserv.c:3526-3573 | done exactly when the actor, unsuspended, is above a valid range; then exactly the idle entries in it go, or those below the actor in the form without bounds |
| ChanServ.Channel.Suspend | src/chanserv.c:7420-7474 | done exactly when the actor, unsuspended, is above an unsuspended entry and the duration is valid; the new entry in full, and no other changes |
| ChanServ.Channel.Unsuspend | src/chanserv.c:7476-7509 | done exactly when the actor, unsuspended, is above a suspended entry; the new entry in full, and no other changes |
| ChanServ.Channel.GiveOwnership | src/chanserv.c:7279-7409 | exactly when it happens and whose ownership goes: the actor's, after waiting, or else that of the one owner; one transfer to an unsuspended entry, with the old owner's new level, or nothing |
| ChanServ.Channel.DeleteMe | src/chanserv.c:7511-7542 | done exactly when the actor has an entry, is no owner and confirms; only that entry goes |
| ChanServ.Run | src/chanserv.c:3127-3391 | over every run the number of owners is constant, handles stay unique, and a channel with an owner is never emptied or unregistered |
| ChanMerge.HandleWithout | src/chanserv.c:1482-1487 | unlinking a record keeps every handle's list well formed |
| ChanMerge.DeletedTarget | src/chanserv.c:1467-1498 | deleting a target record keeps both kinds of list and all counters |
| ChanMerge.LookedTargetStays | src/chanserv.c:2886-2898 | when the target's record is chosen the source's goes |
| ChanMerge.MergeUsers | src/chanserv.c:2856-2924 | the target's list holds exactly the surviving records, the global count falls by the number of common handles, and all lists are well formed |
| ChanMerge.MergedIsUnion | src/chanserv.c:2856-2924 | the target has exactly the union of handles, and the record that stays has the higher access, or the same and was seen later, or is the target's own |
| Base64.RoundTrip | src/base64.c:66-143 | for every byte string the text is accepted and decodes to the bytes |
| Base64.LettersAreAlphabet | src/base64.c:70-72 | letters are the characters of the alphabet, in order |
| Base64.QuadIsNumber | src/base64.c:74-98 | a quad's digits of base 64 and its bytes are the same number, with padding for missing bytes |
| Base64.AcceptedIsPadded | src/base64.c:312-386 | the accepted texts are exactly whole quads of letters of which the last one or two may be padding |
| Base64.EncodeInto | src/base64.c:66-102 | a short buffer gets exactly a prefix, a longer one the text and a zero byte |
| Base64.DecodeInto | src/base64.c:312-386 | true exactly on accepted texts, and then the decoded bytes as far as they fit |
| Base64.CryptoEncode | src/crypto.c:131-155 | the same text as the other encoder, and a zero byte |
| Base64.CryptoDecode | src/crypto.c:168-190 | the bytes of the quads read before padding, the end or a full buffer, or an error |
| Base64.LooseFails | src/crypto.c:168-190 | an error exactly when a broken quad comes before the buffer is full |
| Base64.LooseAgrees | src/crypto.c:168-190 | on accepted texts the two decoders agree |
| Base64.CryptoRoundTrip | src/crypto.c:131-190 | the decoder inverts the encoder, and a short buffer gets a prefix |
| Base64.OverflowTestExact | src/base64.c:113-143 | the wrapped comparison holds exactly when the true length overflows |

## Left out

- The pattern parser and its syntax bits; models start from syntax trees as the parser makes them.
- `r_cut` nodes, side-effect edges, the context operators other than '^', '$' and back references (the
  string matcher answers "bogus" to them), syntax-only parentheses, stale automaton ids and the ring of
  automata kept for reuse. One automaton per cache is modelled.
- Stars and pluses matched by backtracking whose body can be empty: after an empty body the source searches
  the same span again. `RxAnswers.Progresses` excludes those; stars without groups are not concerned.
- Out-of-memory paths, byte counts of the superstate cache, hit and miss counters; eviction happens
  whenever the model chooses, so every budget is covered.
- The nil-set branch of `solve_destination`, which an enabled character cannot reach.
- The cache holds the contents of superstates as lists; that a held superset is not freed is proved on the
  superset table, in `RxSuperset`.
- The rings of the cache are sequences and sets there; `RxRings` ties the sequences to pointers.
- RxSuper.SuperCache.MakeRoom: how many superstates the source frees depends on the byte budget.
- RxSpencer.Solutions.Next: `final_tag` and `rx_best_end_guess`, which is compiled out, are not modelled.
- RxPosix.RegExec: start 0 only, as its one caller passes; the length handed to the dead-prefix test is
  wrong for any other start. Memory past the end as for TrySpan.
- RxPosix.SearchExact: for characters below 224, where acceptance is exact.
- RxPosix.TrySpan: the memory that trying a fixed-length pattern past the end reads has to be there
  (`string[end]` at rx/rxposix.c:228-236); what it holds is left open.
- RxPosix.RegMatch: the same.
- RxHash.HashTable.Store: equal values have equal hashes, as its callers arrange; `rx_count_hash_nodes` and
  `rx_free_hash_table` are not modelled.
- DictNodes.Dict.Insert: addresses of freed nodes are not given out again, and freeing keys and data is not
  modelled.
- AllocSlab.SlabSet.Alloc: the free list is a sequence rather than links stored in the free items; the
  reserve and unmap thresholds, `free_slab_count`, page protection, logging and large allocations are not
  modelled.
- Getopt.Scanner.Decode: what an option element means is not modelled, only whether it takes the next
  element; neither are the other orderings nor a caller that moves optind.
- ChanServ.Run: helpers, timers, XOP and FLAGS commands, replies, logging and DNR lists are not modelled;
  conditions that come from them are parameters.
- ChanMerge.MergeUsers: records are values in maps from addresses; the order in which the scratch dictionary
  is emptied is left open, and merge_bans is not modelled.
- Everything in src/crypto.c but base64, `base64_decode_alloc`, and all I/O, persistence and configuration.
