# algmatch, modelled in Dafny

This project models the core of `algmatch`, a Python library of stable-matching
algorithms, and proves properties of the model:

- the Gale–Shapley proposal loops of `SMManOptimal` and `SMWomanOptimal`
  (modules `SMEngine`, `SMRun`), with the blocking-pair check and `run` of
  `SMAbstract` in both trees of the repository (module `SMCheck`);
- the resident-proposing loop of Hospitals/Residents (`HREngine`) and its
  stability check (`HRCheck`, `HRDetour`);
- the student-proposing and lecturer-proposing loops of Student/Project
  Allocation (`SPA`, `SPAStudent`, `SPAStudentInv`, `SPALecturer`,
  `SPALecturerInv`), their blocking conditions and checks (`SPAStable`,
  `SPAStudentCheck`, `SPALecturerCheck`) and the break that reads a missing
  quota key (`SPALecturerQuota`);
- the super-stability checks with ties for SM (`SmtCheck`) and SPA (`SpastCheck`),
  the tie datatype `EntityPreferenceInstance` (`Ties`), the pure list helpers of
  the SPA-ST integer-programming solver (`SpastSolver`), and the
  strong-stability helpers of Hospitals/Residents with ties (`HRTStrong`);
- the readers: tie-token scanning (`SmtReader`, `SpastReader`), the line and
  dictionary readers of SM, HR, SR and SPA-P (`Readers`) and of SPA
  (`SPAReader`), on top of `str.split` and `int` (`Text`);
- the removal of unacceptable pairs, both the pairwise loop of
  `AbstractPreferenceInstance` and the two passes of the readers
  (`Cleaning`, `CleanReaders`);
- the mutual-attraction distance between SPA-P instances and its closed form
  for the agreement and disagreement matrices (`MutualAttraction`).

Agents are identified by strings, every dictionary of agents is a Dafny `map`,
and each Python error a procedure can raise (`IndexError` of `list[0]`,
`KeyError` of a lookup, `ValueError` of `list.remove`) is an explicit `Err`
result of type `Result` (module `Wrappers`). Python list idioms that the
library relies on — `list.remove`, `list.index`, slicing, the rank dictionary
`{x: i for i, x in enumerate(xs)}` — are defined once in module `Lists`.

`set.pop()` returns an arbitrary element: the loops pick the popped agent with
a non-deterministic choice, so every property of a loop holds for every pop
order. Where a result depends on the iteration order of a dictionary, the order
is a parameter (`order`), constrained to list every key once.

## Model

| member | source | states |
|---|---|---|
| SMEngine.Init | src/algmatch/stableMatchings/stableMarriageProblem/smManOptimal.py:13-20 | every proposer is queued, every agent unassigned, working lists are the lists as read |
| SMEngine.DeletePair | src/algmatch/stableMatchings/stableMarriageProblem/smManOptimal.py:22-24 | succeeds iff each of the pair lists the other; then both lists lose exactly one entry and no other list changes |
| SMEngine.FreeUp | src/algmatch/stableMatchings/stableMarriageProblem/smManOptimal.py:30-32 | the displaced proposer is unassigned and re-queued; nothing else changes |
| SMEngine.Engage | src/algmatch/stableMatchings/stableMarriageProblem/smManOptimal.py:26-28 | the engagement is recorded on both sides, so two unassigned agents keep the matching consistent |
| SMEngine.StepAsWritten | src/algmatch/stableMatchings/stableMarriageProblem/smManOptimal.py:35-37 | popping a proposer whose working list is empty raises IndexError |
| SMEngine.Step | src/algmatch/stableMatchings/stableMarriageProblem/smManOptimal.py:34-46 | with the guard, an exhausted proposer leaves the queue unmatched; otherwise the step is the step as written |
| SMEngine.ProposeIsProposal | src/algmatch/stableMatchings/stableMarriageProblem/smManOptimal.py:36-46 | from an invariant state a proposal never fails, and lands in the closed form: partner displaced, pair engaged, receiver's list cut at the proposer's original rank |
| SMEngine.NextInv | src/algmatch/stableMatchings/stableMarriageProblem/smManOptimal.py:22-46 | a proposal keeps the lists symmetric, the receivers' lists prefixes of the lists as read, the matching consistent, and every deleted pair dominated |
| SMEngine.NextPairs | src/algmatch/stableMatchings/stableMarriageProblem/smManOptimal.py:44-46 | every proposal deletes at least the proposing pair, so the set of listed pairs strictly shrinks |
| SMEngine.Advance | src/algmatch/stableMatchings/stableMarriageProblem/smManOptimal.py:34-46 | one iteration succeeds, keeps the invariant and strictly decreases the termination measure |
| SMEngine.SkipInv | src/algmatch/stableMatchings/stableMarriageProblem/smManOptimal.py:35-37 | dropping an exhausted proposer from the queue keeps the invariant and shrinks the queue |
| SMEngine.InitInv | src/algmatch/stableMatchings/stableMarriageProblem/smManOptimal.py:13-20 | the initial state satisfies the loop invariant on every well-formed instance |
| SMEngine.FinalStable | src/algmatch/stableMatchings/stableMarriageProblem/smManOptimal.py:34-46 | once the queue is empty no pair of the lists as read blocks the matching |
| SMEngine.Finish | src/algmatch/stableMatchings/stableMarriageProblem/smManOptimal.py:34-46 | a finished loop leaves a consistent matching of mutually acceptable pairs that is stable |
| SMEngine.Run | src/algmatch/stableMatchings/stableMarriageProblem/smManOptimal.py:34-46 | the guarded loop terminates on every pop order with an empty queue and a stable matching |
| SMEngine.RunAsWritten | src/algmatch/stableMatchings/stableMarriageProblem/smManOptimal.py:34-46 | the loop as written either raises IndexError, in which case some state satisfying the loop invariant holds a queued proposer whose list is exhausted (SMRun.CrowdedRun exhibits such a run), or matches every proposer stably |
| SMCheck.Candidates | src/algmatch/stableMatchings/stableMarriageProblem/smAbstract.py:36-42 | a single man's candidates are his whole list, a matched man's are a prefix of it; lookups that fail are KeyError |
| SMCheck.Witness | src/algmatch/stableMatchings/stableMarriageProblem/smAbstract.py:44-51 | a single woman is a witness; a matched one is a witness exactly when the man occurs in her list before her partner's rank; a missing record or rank entry is a KeyError |
| SMCheck.Scan | src/algmatch/stableMatchings/stableMarriageProblem/smAbstract.py:44-51 | true iff some candidate is a witness, false iff none is |
| SMCheck.CheckStability | src/algmatch/stableMatchings/stableMarriageProblem/smAbstract.py:35-53 | True means no man in the order has a witness, False means some man has one |
| SMCheck.CheckFlag | algmatch-FixesSMHR/src/algmatch/stableMatchings/stableMarriageProblem/smAbstract.py:33-57 | once the flag is set it stays set |
| SMCheck.ScanFlag | algmatch-FixesSMHR/src/algmatch/stableMatchings/stableMarriageProblem/smAbstract.py:42-53 | once the flag is set the inner loop stops with it set |
| SMCheck.ScanFlagIsScan | algmatch-FixesSMHR/src/algmatch/stableMatchings/stableMarriageProblem/smAbstract.py:42-53 | the flag's inner loop finds a witness exactly when the boolean inner loop does |
| SMCheck.CheckFlagIsNegation | algmatch-FixesSMHR/src/algmatch/stableMatchings/stableMarriageProblem/smAbstract.py:33-57 | the flag version fails on the same lookups as the boolean version, and sets the flag exactly when the boolean version answers False |
| SMCheck.CandidatesAsRead | src/algmatch/stableMatchings/stableMarriageProblem/smAbstract.py:36-42 | on the lists as read, a man's candidates are exactly the women he ranks above his partner |
| SMCheck.WitnessAsRead | src/algmatch/stableMatchings/stableMarriageProblem/smAbstract.py:44-51 | on the lists as read, a candidate is a witness exactly when the pair blocks |
| SMCheck.CheckAsRead | src/algmatch/stableMatchings/stableMarriageProblem/smAbstract.py:35-53 | on the lists as read, the check answers True exactly when no man in the order is in a blocking pair |
| SMRun.EmptyViews | src/algmatch/stableMatchings/stableMarriageProblem/smAbstract.py:26-29 | every man and every woman starts mapped to "" |
| SMRun.FillViews | src/algmatch/stableMatchings/stableMarriageProblem/smAbstract.py:62-66 | the view loop succeeds iff every man it visits is in the matching |
| SMRun.ViewsExact | src/algmatch/stableMatchings/stableMarriageProblem/smAbstract.py:62-66 | after the loop each man's entry is his partner or "", and each woman's entry is hers or "" |
| SMRun.ViewsAgree | src/algmatch/stableMatchings/stableMarriageProblem/smAbstract.py:62-66 | the man-sided entry of m is w iff the woman-sided entry of w is m; "" exactly for single agents |
| SMRun.Report | src/algmatch/stableMatchings/stableMarriageProblem/smAbstract.py:59-69 | "stable matching" is reported iff the check answers True |
| SMRun.CheckIsStable | src/algmatch/stableMatchings/stableMarriageProblem/smAbstract.py:35-53 | given the lists as read, the check answers True exactly when the matching is stable |
| SMRun.StableSwap | src/algmatch/stableMatchings/stableMarriageProblem/smWomanOptimal.py:34-46 | a matching is stable for the woman-proposing instance iff it is stable for the man-proposing one |
| SMRun.FinalMatching | src/algmatch/stableMatchings/stableMarriageProblem/smWomanOptimal.py:34-46 | a finished loop leaves a matching that is a matching from either side |
| SMRun.ManOptimalAsWritten | src/algmatch/stableMatchings/stableMarriageProblem/smAbstract.py:59-69 | the man-optimal run either raises IndexError or leaves a stable matching whose report is the check on the working lists |
| SMRun.ManOptimal | src/algmatch/stableMatchings/stableMarriageProblem/smManOptimal.py:34-46 | the guarded man-optimal run reports "stable" with the views of a stable matching |
| SMRun.WomanOptimalAsWritten | src/algmatch/stableMatchings/stableMarriageProblem/smWomanOptimal.py:34-46 | the woman-optimal run either raises IndexError or leaves a stable matching whose report is the check on the working lists |
| SMRun.WomanOptimal | src/algmatch/stableMatchings/stableMarriageProblem/smWomanOptimal.py:34-46 | the guarded woman-optimal run reports "stable" with the views of a matching stable for the men and women |
| SMRun.FlagViews | algmatch-FixesSMHR/src/algmatch/stableMatchings/stableMarriageProblem/smAbstract.py:67-71 | every man is mapped to his partner or "" |
| SMRun.FlagReport | algmatch-FixesSMHR/src/algmatch/stableMatchings/stableMarriageProblem/smAbstract.py:63-75 | "stable matching" is reported iff the boolean check of the main tree would answer True |
| SMRun.CrossMisreported | src/algmatch/stableMatchings/stableMarriageProblem/smAbstract.py:35-53 | on a five-agent instance every run ends stable, yet the check on the working lists answers False |
| SMRun.CrossRun | src/algmatch/stableMatchings/stableMarriageProblem/smAbstract.py:59-69 | the run as written reports "unstable", the corrected run "stable" |
| SMRun.CrowdedRun | src/algmatch/stableMatchings/stableMarriageProblem/smManOptimal.py:30-37 | with two men listing only one woman the loop as written raises IndexError; the guarded loop ends stable |
| HREngine.Init | src/algmatch/stableMatchings/hospitalResidentsProblem/hrResidentOptimal.py:14-19 | every resident is queued and unassigned, every hospital's set empty, and the working lists are the lists as read |
| HREngine.DeletePair | src/algmatch/stableMatchings/hospitalResidentsProblem/hrResidentOptimal.py:25-27 | succeeds iff each of the pair lists the other; then both lists lose one entry and no other list changes |
| HREngine.Assign | src/algmatch/stableMatchings/hospitalResidentsProblem/hrResidentOptimal.py:21-23 | the resident records the hospital and the hospital's set gains the resident; nothing else changes |
| HREngine.Break | src/algmatch/stableMatchings/hospitalResidentsProblem/hrResidentOptimal.py:29-33 | the resident is unassigned and leaves the hospital's set (KeyError when absent there), and is queued again iff its working list is non-empty |
| HREngine.MaxRanked | src/algmatch/stableMatchings/hospitalResidentsProblem/hrResidentOptimal.py:35-39 | the member chosen has the greatest rank in the set |
| HREngine.Worst | src/algmatch/stableMatchings/hospitalResidentsProblem/hrResidentOptimal.py:35-39 | an empty set is a ValueError, an unranked member a KeyError, otherwise a member of greatest rank |
| HREngine.StepAsWritten | src/algmatch/stableMatchings/hospitalResidentsProblem/hrResidentOptimal.py:45-47 | popping a resident whose working list is empty raises IndexError |
| HREngine.Step | src/algmatch/stableMatchings/hospitalResidentsProblem/hrResidentOptimal.py:44-62 | with the guard, an exhausted resident leaves the queue unassigned |
| HREngine.EvictShrinks | src/algmatch/stableMatchings/hospitalResidentsProblem/hrResidentOptimal.py:54-56 | an eviction takes exactly one resident out of the over-full hospital and touches no other hospital |
| HREngine.ProposeWithin | src/algmatch/stableMatchings/hospitalResidentsProblem/hrResidentOptimal.py:49-62 | an iteration keeps every hospital within capacity, whichever occupancy the cut reads |
| HREngine.StepAsWrittenWithin | src/algmatch/stableMatchings/hospitalResidentsProblem/hrResidentOptimal.py:44-62 | the loop as written keeps every hospital within capacity |
| HREngine.OverflowSkipsCut | src/algmatch/stableMatchings/hospitalResidentsProblem/hrResidentOptimal.py:51-62 | an iteration that evicts leaves every working list as it was: the cut reads the occupancy from before the eviction |
| HREngine.NoOverflowAgrees | src/algmatch/stableMatchings/hospitalResidentsProblem/hrResidentOptimal.py:51-62 | without an eviction, the loop as written and the corrected loop take the same step |
| HREngine.InitInv | src/algmatch/stableMatchings/hospitalResidentsProblem/hrResidentOptimal.py:14-19 | on a well-formed instance the initial state satisfies the loop invariant |
| HREngine.StepInv | src/algmatch/stableMatchings/hospitalResidentsProblem/hrResidentOptimal.py:44-62 | from every invariant state the corrected iteration succeeds, keeps lists symmetric and shrinking, the matching consistent and every hospital within capacity, and either deletes a pair or shrinks the queue |
| HREngine.Run | src/algmatch/stableMatchings/hospitalResidentsProblem/hrResidentOptimal.py:44-62 | the corrected loop terminates on every pop order with an empty queue and the invariant intact |
| HREngine.RunAsWritten | src/algmatch/stableMatchings/hospitalResidentsProblem/hrResidentOptimal.py:44-62 | whenever the loop as written finishes, the queue is empty |
| HREngine.FixpointNeverEnds | src/algmatch/stableMatchings/hospitalResidentsProblem/hrResidentOptimal.py:44-62 | a state to which its only queued resident's iteration returns is never left |
| HREngine.TrioRepeats | src/algmatch/stableMatchings/hospitalResidentsProblem/hrResidentOptimal.py:51-58 | on one hospital of capacity 1 ranking a, b, c, from a holding it and b queued, b's iteration evicts b and queues it again with the hospital still on its list: the state repeats |
| HREngine.TrioReaches | src/algmatch/stableMatchings/hospitalResidentsProblem/hrResidentOptimal.py:44-62 | popping c, b, a from the initial state reaches that repeating state |
| HREngine.TrioNeverEndsFromStart | src/algmatch/stableMatchings/hospitalResidentsProblem/hrResidentOptimal.py:44-62 | on that instance, a queue popping c, b, a first never lets the loop as written finish, whatever the fuel |
| HRCheck.Candidates | src/algmatch/stableMatchings/hospitalResidentsProblem/hrAbstract.py:50-56 | an unassigned resident's candidates are their whole working list, an assigned one's a prefix of it cut at their hospital's rank in the list as read; missing entries are KeyError |
| HRCheck.Condition | src/algmatch/stableMatchings/hospitalResidentsProblem/hrAbstract.py:31-43 | a hospital under capacity always blocks; a full one is read only when the resident and its residents are ranked, and lookups that fail are KeyError |
| HRCheck.ConditionWorst | src/algmatch/stableMatchings/hospitalResidentsProblem/hrAbstract.py:37-43 | at or over capacity the condition compares the resident with the hospital's resident of greatest rank |
| HRCheck.Scan | src/algmatch/stableMatchings/hospitalResidentsProblem/hrAbstract.py:58-60 | True only at a candidate satisfying the condition, False only when none does |
| HRCheck.CheckStability | src/algmatch/stableMatchings/hospitalResidentsProblem/hrAbstract.py:49-62 | True means no resident of the order has a candidate satisfying the condition, False means some resident has one |
| HRCheck.CandidatesAsRead | src/algmatch/stableMatchings/hospitalResidentsProblem/hrAbstract.py:50-56 | on the lists as read, a resident's candidates are exactly the hospitals they list and rank before their own |
| HRCheck.WitnessAsRead | src/algmatch/stableMatchings/hospitalResidentsProblem/hrAbstract.py:31-43 | for such a candidate the condition holds exactly when the pair blocks |
| HRCheck.ResidentAsRead | src/algmatch/stableMatchings/hospitalResidentsProblem/hrAbstract.py:50-60 | on the lists as read, the scan of one resident finds a witness exactly when they are in a blocking pair |
| HRCheck.CheckOnLists | src/algmatch/stableMatchings/hospitalResidentsProblem/hrAbstract.py:49-62 | on the lists as read, the check answers True exactly when no resident of the order is in a blocking pair |
| HRCheck.CheckIntendedIsStability | src/algmatch/stableMatchings/hospitalResidentsProblem/hrAbstract.py:49-62 | the check read against the lists as read never fails on a matching, and answers True exactly when no resident of the order is in a blocking pair |
| HRCheck.EmptySided | src/algmatch/stableMatchings/hospitalResidentsProblem/hrAbstract.py:26-29 | every resident starts mapped to "" and every hospital to an empty list |
| HRCheck.Collect | src/algmatch/stableMatchings/hospitalResidentsProblem/hrAbstract.py:71-75 | the loop succeeds iff every resident of the order has an entry in the matching and every hospital assigned to one is a key; it otherwise raises KeyError, and on success keeps the hospital keys |
| HRCheck.CollectMember | src/algmatch/stableMatchings/hospitalResidentsProblem/hrAbstract.py:71-75 | a resident is on a hospital's list exactly when they were before or is in the order and assigned to it |
| HRCheck.CollectNoDup | src/algmatch/stableMatchings/hospitalResidentsProblem/hrAbstract.py:71-75 | a hospital's list gains no repetition when the order has none |
| HRCheck.CollectResident | src/algmatch/stableMatchings/hospitalResidentsProblem/hrAbstract.py:71-74 | a resident in the order gets their hospital when assigned; every other entry is kept |
| HRCheck.Report | src/algmatch/stableMatchings/hospitalResidentsProblem/hrAbstract.py:68-78 | the verdict `run` reports is the check's answer |
| HRCheck.RunSides | src/algmatch/stableMatchings/hospitalResidentsProblem/hrAbstract.py:26-29 | on a matching, each hospital's list holds exactly the residents of the order assigned to it, each once, and each such resident's entry is their hospital or "" |
| HRDetour.DetourRuns | src/algmatch/stableMatchings/hospitalResidentsProblem/hrResidentOptimal.py:44-62 | on residents r: [h1, h2, h3], q: [h1] and hospitals of capacity 1 with h1 ranking q before r, popping r, q, r ends with r–h2 and q–h1 and r's working list [h3] |
| HRDetour.FinalCandidates | src/algmatch/stableMatchings/hospitalResidentsProblem/hrAbstract.py:50-56 | there, the check takes h3 as a hospital r would rather have |
| HRDetour.DetourMisreported | src/algmatch/stableMatchings/hospitalResidentsProblem/hrAbstract.py:49-62 | so the check as written answers False |
| HRDetour.DetourStable | src/algmatch/stableMatchings/hospitalResidentsProblem/hrAbstract.py:49-62 | yet no pair blocks that matching, and the check read against the lists as read answers True |
| HRDetour.DetourWellFormed | src/algmatch/stableMatchings/hospitalResidentsProblem/hrResidentOptimal.py:14-19 | the instance is one a cleaning reader produces |
| Ties.FromRaw | src/algmatch/stableMatchings/studentProjectAllocation/ties/entityPreferenceInstance.py:11-21 | a tuple becomes a tie whose members iterate as single entries; a string becomes a single entry |
| Ties.Eq | src/algmatch/stableMatchings/studentProjectAllocation/ties/entityPreferenceInstance.py:29-36 | a single entry equals exactly its id string, a tie equals a tuple member by member, anything else is unequal |
| Ties.EqReflexive | src/algmatch/stableMatchings/studentProjectAllocation/ties/entityPreferenceInstance.py:29-36 | an entry equals itself, its id string and the tuple of its members |
| Ties.EqEntities | src/algmatch/stableMatchings/studentProjectAllocation/ties/entityPreferenceInstance.py:29-36 | comparing two entries is symmetric structural equality |
| Ties.IsSubstring | src/algmatch/stableMatchings/studentProjectAllocation/ties/entityPreferenceInstance.py:44-45 | `t in s` on strings holds iff `t` occurs at some position of `s` |
| Ties.Contains | src/algmatch/stableMatchings/studentProjectAllocation/ties/entityPreferenceInstance.py:44-45 | on a tie, membership asks each member for equality; on a single entry it is substring search, and a non-string item is a TypeError |
| Ties.EqImpliesContains | src/algmatch/stableMatchings/studentProjectAllocation/ties/entityPreferenceInstance.py:44-45 | a single entry contains every string it equals |
| Ties.ContainsIsSubstring | src/algmatch/stableMatchings/studentProjectAllocation/ties/entityPreferenceInstance.py:44-45 | "p1" is in the single entry "p12" although the two are unequal |
| Ties.Iter | src/algmatch/stableMatchings/studentProjectAllocation/ties/entityPreferenceInstance.py:47-48 | a tie yields its members, a single entry yields its id once |
| Ties.ContainsIter | src/algmatch/stableMatchings/studentProjectAllocation/ties/entityPreferenceInstance.py:44-48 | on a tie, membership is exactly equality with one of the values iteration yields |
| Ties.Keep | src/algmatch/stableMatchings/studentProjectAllocation/ties/entityPreferenceInstance.py:50-52 | the kept members are exactly those unequal to the value |
| Ties.RemoveFromTied | src/algmatch/stableMatchings/studentProjectAllocation/ties/entityPreferenceInstance.py:50-54 | a tie loses exactly the members equal to the value; a single entry raises ValueError |
| Ties.RemoveIdIsWithout | src/algmatch/stableMatchings/studentProjectAllocation/ties/entityPreferenceInstance.py:50-54 | removing an id from a tie deletes every occurrence, keeps the order of the rest, and leaves an entry that no longer contains it |
| Ties.Ids | src/algmatch/stableMatchings/studentProjectAllocation/ties/entityPreferenceInstance.py:47-48 | the ids an entry stands for are read back from exactly what iteration yields |
| SpastReader.Wrap | src/algmatch/stableMatchings/studentProjectAllocation/ties/fileReader.py:55-56 | each group becomes an entry with the same ids, a tie exactly when the group was bracketed |
| SpastReader.ScanFromOk | src/algmatch/stableMatchings/studentProjectAllocation/ties/fileReader.py:25-53 | the scan succeeds iff no bracket opens inside an open tie and none closes outside one |
| SpastReader.ScanFromContent | src/algmatch/stableMatchings/studentProjectAllocation/ties/fileReader.py:25-53 | on success the groups list every token, with its opening or closing bracket cut off and the side's letter prefixed, in order, and the rank table maps "p" plus each cut token to its last position |
| SpastReader.ReadPreferencesRanksSpec | src/algmatch/stableMatchings/studentProjectAllocation/ties/fileReader.py:16-58 | the reader succeeds iff the brackets are balanced without nesting (an unclosed last tie is accepted); its entries list every token with the letter prefix, in order; its ranks are keyed "p" plus the token and valued by token position |
| SpastReader.UnclosedAccepted | src/algmatch/stableMatchings/studentProjectAllocation/ties/fileReader.py:25-58 | an opening bracket that is never closed is accepted as a tie |
| SpastReader.LecturerRanksAsWritten | src/algmatch/stableMatchings/studentProjectAllocation/ties/fileReader.py:53-93 | a lecturer's tie of s1 and s2 gets the rank keys p1 and p2, at positions 0 and 1 |
| SpastReader.SetIdsFacts | src/algmatch/stableMatchings/studentProjectAllocation/ties/dictionaryReader.py:31-32 | setting a tie's members to one rank adds exactly those keys and overwrites only them |
| SpastReader.TieRanksIndexed | src/algmatch/stableMatchings/studentProjectAllocation/ties/dictionaryReader.py:25-32 | the rank table built tie by tie maps every listed id to the index of the last tie listing it, and nothing else |
| SpastReader.ReadPreferencesTieRanks | src/algmatch/stableMatchings/studentProjectAllocation/ties/fileReader.py:16-58 | with ranks keyed by the listed ids and valued by tie index, the reader fails on the same entries and lists the same entries, and its ranks are the tie indices |
| SpastReader.LecturerRanksCorrected | src/algmatch/stableMatchings/studentProjectAllocation/ties/fileReader.py:53-93 | with the corrected table both members of the lecturer's tie are ranked 0 |
| SpastReader.DictEntity | src/algmatch/stableMatchings/studentProjectAllocation/ties/dictionaryReader.py:26-30 | an int becomes a single entry and a list a tie, each id prefixed with the letter |
| SpastReader.DictPrefsSpec | src/algmatch/stableMatchings/studentProjectAllocation/ties/dictionaryReader.py:21-36 | the dictionary reader's entries follow the input one for one and its ranks map each id to the index of the last tie listing it |
| SpastReader.FileAgreesWithDictionary | src/algmatch/stableMatchings/studentProjectAllocation/ties/dictionaryReader.py:21-36 | when the file and the dictionary describe the same entries, the corrected file reader builds the same list and ranks as the dictionary reader |
| SpastReader.CountContaining | src/algmatch/stableMatchings/studentProjectAllocation/ties/fileReader.py:108-118 | a student is counted for a project iff one of their entries contains the project's id |
| SpastReader.Repeat | src/algmatch/stableMatchings/studentProjectAllocation/ties/fileReader.py:111-118 | a student is appended once per entry containing the project |
| SpastReader.Projected | src/algmatch/stableMatchings/studentProjectAllocation/ties/fileReader.py:107-119 | the projected list fails with KeyError iff some listed student is unknown; otherwise it holds exactly the lecturer's students with an entry containing the project id as a substring |
| SpastReader.ProjectedIntended | src/algmatch/stableMatchings/studentProjectAllocation/ties/fileReader.py:107-119 | the intended projected list holds exactly the lecturer's students who list the project itself, once each when the lecturer lists them once |
| SpastReader.ProjectedSubstring | src/algmatch/stableMatchings/studentProjectAllocation/ties/fileReader.py:112-118 | a student listing only q is projected onto any p that is a proper substring of q, where the intended list is empty |
| SpastReader.OfferedBy | src/algmatch/stableMatchings/studentProjectAllocation/ties/fileReader.py:101-103 | a lecturer is given exactly the projects naming them |
| SpastReader.WithList | src/algmatch/stableMatchings/studentProjectAllocation/ties/fileReader.py:121-122 | storing one project's list and rank leaves every other project as it was |
| SpastReader.WithProject | src/algmatch/stableMatchings/studentProjectAllocation/ties/fileReader.py:103 | adding a project to one lecturer changes no other lecturer and no list |
| SpastReader.UpdateProjectsOk | src/algmatch/stableMatchings/studentProjectAllocation/ties/fileReader.py:100-122 | the update loop succeeds iff every project's lecturer exists and every student that lecturer lists is known |
| SpastReader.UpdateProjectsLecturer | src/algmatch/stableMatchings/studentProjectAllocation/ties/fileReader.py:101-103 | after the loop each lecturer's projects are the old ones plus exactly the projects naming them |
| SpastReader.UpdateProjectsKeep | src/algmatch/stableMatchings/studentProjectAllocation/ties/fileReader.py:100-122 | the loop changes no key set, no quota, lecturer or list of a lecturer, and no project outside the iteration |
| SpastReader.UpdateProjectsLists | src/algmatch/stableMatchings/studentProjectAllocation/ties/dictionaryReader.py:67-88 | after the loop each project's list is its projected list and its rank is the last position of each student in it |
| SpastCheck.StabilityType | src/algmatch/stableMatchings/studentProjectAllocation/ties/spastAbstract.py:29-66 | a string is accepted iff its lower case is "super" or "strong", and is stored in lower case; anything else fails the assertion |
| SpastCheck.StabilityTypeCaseInsensitive | src/algmatch/stableMatchings/studentProjectAllocation/ties/spastAbstract.py:29-66 | acceptance ignores case, and the stored type is accepted again as itself |
| SpastCheck.StabilityTypeExamples | src/algmatch/stableMatchings/studentProjectAllocation/ties/spastAbstract.py:60-66 | "Super" is stored as "super"; "weak" and a missing type fail |
| SpastCheck.MaxFirst | src/algmatch/stableMatchings/studentProjectAllocation/ties/spastAbstract.py:74-88 | `min` with key minus rank returns a member of greatest rank with no earlier member of equal rank |
| SpastCheck.Worst | src/algmatch/stableMatchings/studentProjectAllocation/ties/spastAbstract.py:68-88 | an empty set gives None, a member without a rank KeyError, otherwise the first member of greatest rank |
| SpastCheck.WorstDominates | src/algmatch/stableMatchings/studentProjectAllocation/ties/spastAbstract.py:113-130 | comparing with the worst member decides whether some member is ranked at least as low as the student |
| SpastCheck.Bi | src/algmatch/stableMatchings/studentProjectAllocation/ties/spastAbstract.py:90-99 | condition (i) is read without error iff both quotas are stored under the key read, and holds iff project and lecturer are undersubscribed |
| SpastCheck.Bii | src/algmatch/stableMatchings/studentProjectAllocation/ties/spastAbstract.py:101-119 | when condition (ii) holds the project is undersubscribed, the lecturer full, and the student is one of theirs or ranked no lower than one of theirs |
| SpastCheck.Biii | src/algmatch/stableMatchings/studentProjectAllocation/ties/spastAbstract.py:121-132 | when condition (iii) holds the project is full and ranks the student no lower than one of its students |
| SpastCheck.Conditions | src/algmatch/stableMatchings/studentProjectAllocation/ties/spastAbstract.py:159-162 | the conditions are tried in order and report a block only if one of them holds |
| SpastCheck.ConditionsIntended | src/algmatch/stableMatchings/studentProjectAllocation/ties/spastAbstract.py:90-132 | with the stored quota key and every lookup defined, the conditions decide the declared blocking relation of super-stability |
| SpastCheck.FlattenTake | src/algmatch/stableMatchings/studentProjectAllocation/ties/spastAbstract.py:152-155 | the projects visited in the first b ties are exactly those listed in one of them |
| SpastCheck.Candidates | src/algmatch/stableMatchings/studentProjectAllocation/ties/spastAbstract.py:146-157 | an unassigned student's candidates are all listed projects; a matched student's are the projects of the ties before the matched rank (through it when inclusive), minus the matched project; a matched project without a rank is a KeyError |
| SpastCheck.CandidatesIntended | src/algmatch/stableMatchings/studentProjectAllocation/ties/spastAbstract.py:146-157 | with ranks by tie index and the inclusive window, the candidates are exactly the projects super-stability considers |
| SpastCheck.ListedUpToRank | src/algmatch/stableMatchings/studentProjectAllocation/ties/spastAbstract.py:149-152 | with ranks by tie index, the ties through a project's rank are exactly those no later than a tie listing it |
| SpastCheck.Scan | src/algmatch/stableMatchings/studentProjectAllocation/ties/spastAbstract.py:154-162 | the inner loops answer True only if a condition holds for some candidate, False only if none does |
| SpastCheck.ScanIntended | src/algmatch/stableMatchings/studentProjectAllocation/ties/spastAbstract.py:154-162 | with every lookup defined, the inner loops find a block exactly when some candidate blocks |
| SpastCheck.CheckFrom | src/algmatch/stableMatchings/studentProjectAllocation/ties/spastAbstract.py:134-164 | True means no student is multiply assigned; False means some student is multiply assigned or has a candidate meeting a condition |
| SpastCheck.CheckIntended | src/algmatch/stableMatchings/studentProjectAllocation/ties/spastAbstract.py:134-164 | the corrected check answers, without error, True exactly when the matching is super-stable for the students in order |
| SpastCheck.StudentCandidates | src/algmatch/stableMatchings/studentProjectAllocation/ties/spastAbstract.py:146-157 | a student's corrected candidates exist, are exactly the considered projects, and have every lookup defined |
| SpastCheck.StudentIntended | src/algmatch/stableMatchings/studentProjectAllocation/ties/spastAbstract.py:146-162 | for one student the corrected inner loops decide whether some considered project blocks |
| SpastCheck.CapacityKeyAsWritten | src/algmatch/stableMatchings/studentProjectAllocation/ties/spastAbstract.py:91-122 | on records as the readers build them, the conditions as written raise KeyError for every project |
| SpastCheck.CapacityKeyInstance | src/algmatch/stableMatchings/studentProjectAllocation/ties/spastAbstract.py:90-164 | the check as written raises KeyError on an unassigned student, where the corrected one answers False |
| SpastCheck.MatchedTieSkipped | src/algmatch/stableMatchings/studentProjectAllocation/ties/spastAbstract.py:149-152 | a student holding one of two tied projects gets no candidates, so the check as written answers True |
| SpastCheck.TiedBlocks | src/algmatch/stableMatchings/studentProjectAllocation/ties/spastAbstract.py:150-151 | in that instance the other tied project blocks by condition (i) |
| SpastCheck.MatchedTieIntended | src/algmatch/stableMatchings/studentProjectAllocation/ties/spastAbstract.py:134-164 | the corrected check answers False on that instance |
| SpastCheck.InitialViews | src/algmatch/stableMatchings/studentProjectAllocation/ties/spastAbstract.py:48-51 | every student starts mapped to "" and every lecturer to no students |
| SpastCheck.SaveStudentSided | src/algmatch/stableMatchings/studentProjectAllocation/ties/spastAbstract.py:174-181 | saving fails iff a student is unknown (KeyError) or holds more than one project (ValueError); otherwise each student holding one project is mapped to it and every other entry is kept |
| SpastCheck.SaveLecturerSided | src/algmatch/stableMatchings/studentProjectAllocation/ties/spastAbstract.py:183-187 | iterating the lecturers, each lecturer with students is mapped to them and every other entry is kept |
| SpastCheck.Run | src/algmatch/stableMatchings/studentProjectAllocation/ties/spastAbstract.py:189-201 | a failed loop reports none; any type but "super" raises; a reported matching passed the check and its views hold each student's project and each lecturer's students |
| SpastCheck.RunAsWritten | src/algmatch/stableMatchings/studentProjectAllocation/ties/spastAbstract.py:183-192 | when the loop succeeds, `run` as written raises (AttributeError once the student view is saved), so it never reports a matching |
| SpastCheck.RunIntended | src/algmatch/stableMatchings/studentProjectAllocation/ties/spastAbstract.py:189-201 | the corrected `run` succeeds iff no student holds two projects, and reports a matching exactly when the loop succeeded and the matching is super-stable |
| SpastSolver.FirstTie | src/algmatch/stableMatchings/studentProjectAllocation/ties/spastSolver.py:77-83 | the index returned is of an entry holding the entity, and no earlier entry holds it |
| SpastSolver.FirstWithUnique | src/algmatch/stableMatchings/studentProjectAllocation/ties/spastSolver.py:80-83 | the first entry holding an entity is unique |
| SpastSolver.InStringIsSubstring | src/algmatch/stableMatchings/studentProjectAllocation/ties/spastSolver.py:80 | on a bare id string, `entity in p` searched from the front agrees with substring occurrence at some position |
| SpastSolver.Outranked | src/algmatch/stableMatchings/studentProjectAllocation/ties/spastSolver.py:77-86 | an entry is a tie (queried by membership, contributing its ids) or a bare id string (queried by substring search, contributing its characters); the helper fails with IndexError iff no entry holds the entity, and otherwise returns the items of the entries before the first one holding it, followed by that entry's items unless strict |
| SpastSolver.OutrankedStrict | src/algmatch/stableMatchings/studentProjectAllocation/ties/spastSolver.py:85 | the strict result is the non-strict result without the items of the entity's own entry, hence a prefix of it |
| SpastSolver.OutrankedHolds | src/algmatch/stableMatchings/studentProjectAllocation/ties/spastSolver.py:77-86 | on a list of ties, the non-strict result contains the entity and the strict result does not |
| SpastSolver.OutrankedAbsent | src/algmatch/stableMatchings/studentProjectAllocation/ties/spastSolver.py:80-83 | an entity held by no entry makes both modes raise IndexError |
| SpastSolver.Equal | src/algmatch/stableMatchings/studentProjectAllocation/ties/spastSolver.py:93-95 | the result is None iff no entry holds the entity, else the first entry holding it |
| SpastSolver.OutrankedEqual | src/algmatch/stableMatchings/studentProjectAllocation/ties/spastSolver.py:77-95 | the non-strict outranked entries are the strict ones followed by the items of the entry `_get_equal_entities` returns |
| SpastSolver.OfferedBy | src/algmatch/stableMatchings/studentProjectAllocation/ties/spastSolver.py:102-104 | exactly the projects whose lecturer is the given one, without repetition when the projects have none |
| SpastSolver.Keep | src/algmatch/stableMatchings/studentProjectAllocation/ties/spastSolver.py:111-113 | the list filtered to the students who find the project acceptable, in the list's order; an unknown student is a KeyError |
| SpastSolver.ProjectedList | src/algmatch/stableMatchings/studentProjectAllocation/ties/spastSolver.py:111-113 | the projected list fails iff the lecturer or a listed student is unknown, and otherwise is the lecturer's ties, flattened in order, filtered to the students who find the project acceptable |
| SpastSolver.ProjectedOutranked | src/algmatch/stableMatchings/studentProjectAllocation/ties/spastSolver.py:267 | as written, the projected list reaches the helper as bare id strings, so every element of an outranked set is a single character |
| SpastSolver.ProjectedOutrankedCorrected | src/algmatch/stableMatchings/studentProjectAllocation/ties/spastSolver.py:257-315 | the corrected T and T* of `_lambda` (line 267) and `_tau` (line 312) keep the lecturer's ties: the set exists iff the projected list does and holds the student, and then holds, in the lecturer's order, exactly the students accepting the project who are listed in a tie before the student's first tie, or in that tie too unless strict; a tie-mate, toward whom the lecturer is indifferent, is outranking only in the set that is not strict |
| SpastSolver.CorrectedKeepsList | src/algmatch/stableMatchings/studentProjectAllocation/ties/spastSolver.py:108-113 | the corrected ties, flattened, are exactly the flat list `_L_k_j` returns: the correction adds the lecturer's ties and changes no student or order |
| SpastSolver.TiedOutranked | src/algmatch/stableMatchings/studentProjectAllocation/ties/spastSolver.py:257-271 | lecturer l1 ranks s1 and s2 in one tie and both accept p1: for either student the corrected strict set is empty and the one that is not strict is [s1, s2] |
| SpastSolver.TiedAsWritten | src/algmatch/stableMatchings/studentProjectAllocation/ties/spastSolver.py:267 | on the same tie, as written, the strict set for s2 is the characters s, 1 of its tie-mate |
| SpastSolver.OwnTiesOutranked | src/algmatch/stableMatchings/studentProjectAllocation/ties/spastSolver.py:77-86 | on a list whose ids are entries of their own, the helper fails iff the entity is absent, and otherwise returns the ids before its first occurrence, followed by it unless strict |
| SpastSolver.PreferredTerms | src/algmatch/stableMatchings/studentProjectAllocation/ties/spastSolver.py:268-269 | the loop finds a term for every student of the set iff each has an entry with a variable for the project, one term per student in order; otherwise it raises KeyError |
| SpastSolver.AsWrittenLookupFails | src/algmatch/stableMatchings/studentProjectAllocation/ties/spastSolver.py:314-315 | as written, when no student id is a single character, a non-empty outranked set makes the loop raise KeyError |
| SpastSolver.CorrectedLookupOk | src/algmatch/stableMatchings/studentProjectAllocation/ties/spastSolver.py:314-315 | the corrected outranked sets never make the loop raise: it finds one term per student |
| SpastSolver.OutrankedCharacters | src/algmatch/stableMatchings/studentProjectAllocation/ties/spastSolver.py:312-315 | lecturer l1 ranks s1 then s2, both of whom find p1 acceptable: as written, the set for s2 is the characters s, 1, s, 2, and the loop raises KeyError |
| SpastSolver.OutrankedIds | src/algmatch/stableMatchings/studentProjectAllocation/ties/spastSolver.py:312-315 | on the same instance, the corrected set for s2 is [s1, s2], and the loop finds both terms |
| SpastSolver.OutrankedSubstring | src/algmatch/stableMatchings/studentProjectAllocation/ties/spastSolver.py:80 | read as strings, s1 is taken to be tied with an s12 ranked before it: the strict set is empty where the corrected one is [s12] |
| Text.Words | src/algmatch/stableMatchings/stableMarriageProblem/ties/fileReader.py:59 | `str.split()` yields non-empty words free of whitespace whose concatenation is exactly the line's non-space characters |
| Text.WordsWord | src/algmatch/stableMatchings/stableMarriageProblem/ties/fileReader.py:59 | a non-empty string free of whitespace splits into itself alone |
| Text.WordsSpace | src/algmatch/stableMatchings/stableMarriageProblem/ties/fileReader.py:59 | words are maximal runs: any whitespace character separates the words before it from those after it, so no word spans it |
| Text.WordsAppend | src/algmatch/stableMatchings/stableMarriageProblem/ties/fileReader.py:59 | no word spans the start of text beginning with whitespace: the words of the whole are those of the part before it followed by those of the rest |
| Text.ParseInt | src/algmatch/stableMatchings/stableMarriageProblem/ties/fileReader.py:59 | `int` accepts exactly an optional sign followed by digits, and an unsigned literal is non-negative |
| Text.ParseDecimal | src/algmatch/stableMatchings/stableMarriageProblem/ties/fileReader.py:59 | reading back the decimal digits of a natural number gives the number (`int(str(n)) == n`) |
| SmtReader.RegexSplit | src/algmatch/stableMatchings/stableMarriageProblem/ties/fileReader.py:21-22 | every token is a bracket or a digit run, and the tokens concatenate to exactly the line's digits and brackets |
| SmtReader.RegexSplitDigits | src/algmatch/stableMatchings/stableMarriageProblem/ties/fileReader.py:21-22 | a run of digits is matched whole, as a single token |
| SmtReader.RegexSplitAppend | src/algmatch/stableMatchings/stableMarriageProblem/ties/fileReader.py:21-22 | no token spans the start of text beginning with a non-digit: the tokens of the whole are those of the part before it followed by those of the rest |
| SmtReader.RegexSplitSep | src/algmatch/stableMatchings/stableMarriageProblem/ties/fileReader.py:21-22 | a non-digit character ends the digit run before it: a line's tokens are those before it, then its own token if it is a bracket, then those after it |
| SmtReader.Scan | src/algmatch/stableMatchings/stableMarriageProblem/ties/fileReader.py:24-46 | the scan succeeds iff bracket depth stays within 0..1 and ends at 0; every failure is one of the three tie errors; the union of the ties is the prefixed number tokens, and earlier ties are kept |
| SmtReader.ScanPreferenceTokens | src/algmatch/stableMatchings/stableMarriageProblem/ties/fileReader.py:24-46 | after the id token, the line is accepted iff its brackets are well formed, and the ties together hold exactly the prefixed numbers |
| SmtReader.ScanExample | src/algmatch/stableMatchings/stableMarriageProblem/ties/fileReader.py:29-43 | a number outside brackets is its own tie and a bracketed group is one tie, in input order |
| SmtReader.EmptyTieExample | src/algmatch/stableMatchings/stableMarriageProblem/ties/fileReader.py:33-38 | "()" appends an empty tie |
| SmtReader.TieErrorExamples | src/algmatch/stableMatchings/stableMarriageProblem/ties/fileReader.py:29-45 | a nested bracket, an unopened bracket and an unclosed tie raise their own errors |
| SmtReader.ReadSide | src/algmatch/stableMatchings/stableMarriageProblem/ties/fileReader.py:64-92 | a failing side raises only the id, repeat or tie errors |
| SmtReader.ReadSideOk | src/algmatch/stableMatchings/stableMarriageProblem/ties/fileReader.py:64-92 | a side is read iff every line has a numeric id and well-formed ties and no id is repeated or already present |
| SmtReader.ReadSideKeys | src/algmatch/stableMatchings/stableMarriageProblem/ties/fileReader.py:70-92 | the side's keys are exactly the letter-prefixed ids of its lines |
| SmtReader.ReadSideEntry | src/algmatch/stableMatchings/stableMarriageProblem/ties/fileReader.py:77-92 | each line is stored under its id with its scanned ties and an empty rank table |
| SmtReader.ReadSideKept | src/algmatch/stableMatchings/stableMarriageProblem/ties/fileReader.py:64-92 | an entry no line declares keeps its value |
| SmtReader.ReadHeader | src/algmatch/stableMatchings/stableMarriageProblem/ties/fileReader.py:58-61 | the header is accepted iff it holds exactly two integers; otherwise ParticipantQuantityError |
| SmtReader.ReadData | src/algmatch/stableMatchings/stableMarriageProblem/ties/fileReader.py:48-92 | an empty file is an IndexError, a bad header a ParticipantQuantityError, and no other error escapes besides the per-line ones |
| SmtReader.ReadDataOk | src/algmatch/stableMatchings/stableMarriageProblem/ties/fileReader.py:58-92 | with a valid header the file is read iff the men's lines `file[1:n+1]` and the women's lines `file[n+1:n+m+1]` are each accepted |
| SmtReader.ReadDataMen | src/algmatch/stableMatchings/stableMarriageProblem/ties/fileReader.py:64-78 | the men read are keyed exactly by the ids of the men's lines |
| SmtReader.ReadDataRanks | src/algmatch/stableMatchings/stableMarriageProblem/ties/fileReader.py:78-92 | every record read has an empty rank table |
| SmtReader.EmptyRanks | src/algmatch/stableMatchings/stableMarriageProblem/ties/fileReader.py:78-92 | reading lines into records with empty rank tables leaves every rank table empty |
| SmtCheck.Candidates | src/algmatch/stableMatchings/stableMarriageProblem/ties/smtAbstract.py:43-51 | a free man examines all his ties; a held partner missing from the rank table or from the tie at her rank is a KeyError, no tie an IndexError, and an empty set a TypeError |
| SmtCheck.CandidatesHeldShape | src/algmatch/stableMatchings/stableMarriageProblem/ties/smtAbstract.py:44-51 | with a rank by tie index, a held man examines the ties before his partner's and then hers without her |
| SmtCheck.CandidatesHeld | src/algmatch/stableMatchings/stableMarriageProblem/ties/smtAbstract.py:44-51 | with a rank by tie index, a held man examines exactly the other women he likes at least as much as his partner |
| SmtCheck.CandidatesFree | src/algmatch/stableMatchings/stableMarriageProblem/ties/smtAbstract.py:43-54 | a free man examines exactly the women he lists |
| SmtCheck.Witness | src/algmatch/stableMatchings/stableMarriageProblem/ties/smtAbstract.py:55-63 | the test is defined iff the woman's assignment and her fiancé's rank can be read, and an unassigned woman always answers True |
| SmtCheck.WitnessMeaning | src/algmatch/stableMatchings/stableMarriageProblem/ties/smtAbstract.py:55-63 | on a defined woman, the test says whether she is free or likes the man at least as much as her fiancé |
| SmtCheck.ScanWomen | src/algmatch/stableMatchings/stableMarriageProblem/ties/smtAbstract.py:53-63 | True only at some woman whose test is True, and False only when every test is False |
| SmtCheck.ScanWomenMeaning | src/algmatch/stableMatchings/stableMarriageProblem/ties/smtAbstract.py:53-63 | over defined women, the loops report whether some woman would take the man |
| SmtCheck.CheckMan | src/algmatch/stableMatchings/stableMarriageProblem/ties/smtAbstract.py:44 | a man without an assignment entry is a KeyError |
| SmtCheck.CheckFrom | src/algmatch/stableMatchings/stableMarriageProblem/ties/smtAbstract.py:42-64 | False only when some man finds a woman who would take him, True only when no man does |
| SmtCheck.ManCandidates | src/algmatch/stableMatchings/stableMarriageProblem/ties/smtAbstract.py:43-51 | for a defined man the examined women are exactly those he would take, and each is defined |
| SmtCheck.ManMeaning | src/algmatch/stableMatchings/stableMarriageProblem/ties/smtAbstract.py:42-63 | for a defined man the inner loops report whether he is in a blocking pair |
| SmtCheck.CheckSuperStable | src/algmatch/stableMatchings/stableMarriageProblem/ties/smtAbstract.py:40-64 | when every lookup is defined, the check returns, without error, exactly whether no man and woman each are free or like the other at least as much as their partner |
| SmtCheck.Fill | src/algmatch/stableMatchings/stableMarriageProblem/ties/smtAbstract.py:71-79 | filling a view keeps its keys and fails with KeyError iff some agent has no assignment entry |
| SmtCheck.FillAt | src/algmatch/stableMatchings/stableMarriageProblem/ties/smtAbstract.py:71-79 | after filling, a listed agent holds the copied assignment (kept when it is the empty set) and every other key keeps its value |
| SmtCheck.Run | src/algmatch/stableMatchings/stableMarriageProblem/ties/smtAbstract.py:69-85 | without a matching from the loop the result is "no super-stable matching"; with one it is always reported found, over the constructor's keys |
| SmtCheck.RunManEntry | src/algmatch/stableMatchings/stableMarriageProblem/ties/smtAbstract.py:71-74 | a man's entry is his partner, None when unassigned, and "" when the assignment is the empty set |
| SmtCheck.RunWomanEntry | src/algmatch/stableMatchings/stableMarriageProblem/ties/smtAbstract.py:76-79 | a woman's entry is her partner, None when unassigned, and "" when the assignment is the empty set |
| SmtCheck.RunSkipsCheck | src/algmatch/stableMatchings/stableMarriageProblem/ties/smtAbstract.py:81-84 | two free agents who list each other make the check return False, yet `run` reports the matching found |
| SPA.Projected | src/algmatch/stableMatchings/studentProjectAllocation/fileReader.py:49-57 | a project's list is defined iff every student on its lecturer's list has an entry (KeyError otherwise), and then holds exactly the lecturer's students who list the project |
| SPA.ProjectedIsFilter | src/algmatch/stableMatchings/studentProjectAllocation/fileReader.py:54 | the projected list is the lecturer's list filtered to the students listing the project, so it keeps the lecturer's order |
| SPA.ProjectedNoDup | src/algmatch/stableMatchings/studentProjectAllocation/dictionaryReader.py:49 | a projected list has no repetitions when the lecturer's list has none |
| SPA.ProjectFacts | src/algmatch/stableMatchings/studentProjectAllocation/dictionaryReader.py:45-52 | on a well-formed instance a project's list holds, once each, exactly the students who list the project, all of them on its lecturer's list |
| SPA.StudentFacts | src/algmatch/stableMatchings/studentProjectAllocation/dictionaryReader.py:45-52 | a project a student lists is known, so is its lecturer, and both rank the student |
| SPAStudent.Init | src/algmatch/stableMatchings/studentProjectAllocation/spaStudentOptimal.py:27-42 | every student is unassigned and queued, every working list is the list as read, and every project and lecturer is empty with no worst student |
| SPAStudent.Admit | src/algmatch/stableMatchings/studentProjectAllocation/spaStudentOptimal.py:56-76 | adding a student is defined iff there is no worst student yet or both are ranked; a pointer at the worst member stays at the worst member |
| SPAStudent.ScanBackFindsWorst | src/algmatch/stableMatchings/studentProjectAllocation/spaStudentOptimal.py:103-111 | the backward scan from a position finds the member of greatest rank among those ranked no later |
| SPAStudent.RefreshTracks | src/algmatch/stableMatchings/studentProjectAllocation/spaStudentOptimal.py:95-126 | after the worst student leaves, the pointer is moved to the worst remaining member, or cleared when the project is empty |
| SPAStudent.DeletePair | src/algmatch/stableMatchings/studentProjectAllocation/spaStudentOptimal.py:131-133 | deleting a pair succeeds iff each working list holds the other, and then removes one occurrence from each and nothing else |
| SPAStudent.Successors | src/algmatch/stableMatchings/studentProjectAllocation/spaStudentOptimal.py:162-164 | the strict successors are defined iff the worst student is ranked, and are the list as read after the worst student, restricted to the working list |
| SPAStudent.Evict | src/algmatch/stableMatchings/studentProjectAllocation/spaStudentOptimal.py:148-158 | giving up a student changes no working list and keeps the keys of `M` |
| SPAStudent.Step | src/algmatch/stableMatchings/studentProjectAllocation/spaStudentOptimal.py:187-189 | an iteration that succeeds never leaves the popped student unassigned with a non-empty list, the case whose `append` on a set raises AttributeError |
| SPAStudent.Run | src/algmatch/stableMatchings/studentProjectAllocation/spaStudentOptimal.py:140-142 | the loop stops at once when no student is queued, and ends only with no student queued |
| SPAStudentInv.InitInv | src/algmatch/stableMatchings/studentProjectAllocation/spaStudentOptimal.py:27-42 | the constructor's state satisfies the loop invariant on every well-formed instance |
| SPAStudentInv.AssignInv | src/algmatch/stableMatchings/studentProjectAllocation/spaStudentOptimal.py:144-147 | a queued student with a non-empty list is assigned to its first project without error, and at most that project or its lecturer is then one over quota |
| SPAStudentInv.BreakInv | src/algmatch/stableMatchings/studentProjectAllocation/spaStudentOptimal.py:81-126 | breaking an assignment succeeds, lowers both occupancies by one and keeps the matching consistent and both worst pointers right |
| SPAStudentInv.EvictInv | src/algmatch/stableMatchings/studentProjectAllocation/spaStudentOptimal.py:148-158 | after an assignment, the eviction succeeds and brings project and lecturer back within quota |
| SPAStudentInv.DeleteAllInv | src/algmatch/stableMatchings/studentProjectAllocation/spaStudentOptimal.py:165-169 | deleting listed pairs of unassigned students keeps the lists symmetric and shrinking, and changes nothing else |
| SPAStudentInv.ProjectCutInv | src/algmatch/stableMatchings/studentProjectAllocation/spaStudentOptimal.py:160-169 | the cut of a full project succeeds and keeps the invariant, changing only working lists |
| SPAStudentInv.LecturerCutInv | src/algmatch/stableMatchings/studentProjectAllocation/spaStudentOptimal.py:172-186 | the cut of a full lecturer succeeds and keeps the invariant, changing only working lists |
| SPAStudentInv.ProposeInv | src/algmatch/stableMatchings/studentProjectAllocation/spaStudentOptimal.py:144-186 | a proposal never raises and restores the invariant |
| SPAStudentInv.StepInv | src/algmatch/stableMatchings/studentProjectAllocation/spaStudentOptimal.py:141-189 | every iteration with a queued student succeeds, never reaching the `append` branch, and keeps the invariant |
| SPAStudentInv.RunInv | src/algmatch/stableMatchings/studentProjectAllocation/spaStudentOptimal.py:140-189 | for every pop order the loop raises nothing but the KeyError of popping an unqueued student, and ends in the invariant with nobody queued |
| SPAStable.Candidates | src/algmatch/stableMatchings/studentProjectAllocation/spaStudentOptimal.py:239-244 | an unassigned student is checked against its whole list; an assigned one against a prefix, defined iff its project is ranked |
| SPAStable.CandidatesPreferred | src/algmatch/stableMatchings/studentProjectAllocation/spaStudentOptimal.py:239-244 | on a list without repetitions the projects checked are exactly those the student prefers to its own, all its projects when unassigned |
| SPAStable.Scan | src/algmatch/stableMatchings/studentProjectAllocation/spaStudentOptimal.py:246-257 | the inner loop answers True only at a project whose tests say so, False only when all say no, and fails only where a test fails |
| SPAStable.ScanDecides | src/algmatch/stableMatchings/studentProjectAllocation/spaStudentOptimal.py:246-257 | when every test is defined the inner loop returns whether some project passes |
| SPAStable.Check | src/algmatch/stableMatchings/studentProjectAllocation/spaStudentOptimal.py:237-261 | the check answers True only with a student and candidate passing the tests, False only when none passes |
| SPAStable.CheckDecides | src/algmatch/stableMatchings/studentProjectAllocation/spaStudentOptimal.py:237-261 | with every lookup defined, the check returns whether some student has a candidate passing the tests |
| SPAStable.CheckDecidesStability | src/algmatch/stableMatchings/studentProjectAllocation/spaStudentOptimal.py:237-261 | when the candidates are the preferred projects and the tests decide blocking, the check finds a pair iff the matching is not stable |
| SPAStable.Matching | src/algmatch/stableMatchings/studentProjectAllocation/spaStudentOptimal.py:268-273 | the view is keyed by the students, holds each assigned student's project and "" for an unassigned one |
| SPAStudentCheck.Bi | src/algmatch/stableMatchings/studentProjectAllocation/spaStudentOptimal.py:195-203 | defined iff project and lecturer are known; True iff both are under quota |
| SPAStudentCheck.Bii | src/algmatch/stableMatchings/studentProjectAllocation/spaStudentOptimal.py:205-220 | True only when the project is under quota, the lecturer full, and the student held by the lecturer or ranked above the lecturer's worst student |
| SPAStudentCheck.Biii | src/algmatch/stableMatchings/studentProjectAllocation/spaStudentOptimal.py:222-231 | True only when the project is full and ranks the student above its worst student |
| SPAStudentCheck.Conditions | src/algmatch/stableMatchings/studentProjectAllocation/spaStudentOptimal.py:248-253 | the three tests are tried in order and True means one of them holds |
| SPAStudentCheck.ConditionsDecide | src/algmatch/stableMatchings/studentProjectAllocation/spaStudentOptimal.py:195-231 | with right worst pointers and exact occupancies, the three tests return exactly whether the pair blocks |
| SPAStudentCheck.PairDecided | src/algmatch/stableMatchings/studentProjectAllocation/spaStudentOptimal.py:246-253 | under the loop invariant the tests decide blocking for every project a student lists |
| SPAStudentCheck.StudentCandidatesPreferred | src/algmatch/stableMatchings/studentProjectAllocation/spaStudentOptimal.py:238-244 | under the loop invariant a student is checked against exactly the projects it prefers to its own |
| SPAStudentCheck.CheckStabilityDecides | src/algmatch/stableMatchings/studentProjectAllocation/spaStudentOptimal.py:237-261 | under the loop invariant the check raises nothing and finds a blocking pair iff the matching is not stable |
| SPAStudentCheck.RunReportsStability | src/algmatch/stableMatchings/studentProjectAllocation/spaStudentOptimal.py:264-276 | after a loop that completes, `run` reports the matching stable exactly when it is, with each student's project |
| SPALecturer.Init | src/algmatch/stableMatchings/studentProjectAllocation/spaLecturerOptimal.py:30-40 | every student unassigned, every project and lecturer empty, the lists as read, and every lecturer in dictionary order under-subscribed |
| SPALecturer.PairValid | src/algmatch/stableMatchings/studentProjectAllocation/spaLecturerOptimal.py:48-55 | the test raises KeyError exactly where its short-circuit order reaches a missing key, and is True iff the student is not on the project, the lecturer offers it and it has room |
| SPALecturer.FirstProject | src/algmatch/stableMatchings/studentProjectAllocation/spaLecturerOptimal.py:63-65 | the project found is the first on the list that forms a valid pair; none is found only when no project does |
| SPALecturer.FirstPair | src/algmatch/stableMatchings/studentProjectAllocation/spaLecturerOptimal.py:62-65 | the student found is the first on the lecturer's list with a valid project; none only when no student has one |
| SPALecturer.FoundValid | src/algmatch/stableMatchings/studentProjectAllocation/spaLecturerOptimal.py:58-65 | a pair found is valid, with the student on the lecturer's list and the project on the student's list |
| SPALecturer.NoneFound | src/algmatch/stableMatchings/studentProjectAllocation/spaLecturerOptimal.py:58-65 | when no pair is found, no listed student has a valid project on its list |
| SPALecturer.Break | src/algmatch/stableMatchings/studentProjectAllocation/spaLecturerOptimal.py:68-78 | breaking succeeds only in the corrected reading, and then only the student, its project and that project's lecturer lose the assignment |
| SPALecturer.BreakAsWrittenFails | src/algmatch/stableMatchings/studentProjectAllocation/spaLecturerOptimal.py:75 | as written, every break raises KeyError |
| SPALecturer.Assign | src/algmatch/stableMatchings/studentProjectAllocation/spaLecturerOptimal.py:81-84 | assigning succeeds iff student, project and lecturer have entries, and records the assignment on all three |
| SPALecturer.Delete | src/algmatch/stableMatchings/studentProjectAllocation/spaLecturerOptimal.py:43-45 | deleting succeeds iff each list holds the other (ValueError or KeyError otherwise), and removes one occurrence from each |
| SPALecturer.Rebuild | src/algmatch/stableMatchings/studentProjectAllocation/spaLecturerOptimal.py:116-120 | the rebuilt list is defined iff every lecturer has entries, and holds exactly the lecturers under quota |
| SPALecturer.RebuildIsFilter | src/algmatch/stableMatchings/studentProjectAllocation/spaLecturerOptimal.py:117-120 | the rebuilt list keeps dictionary order |
| SPALecturer.Run | src/algmatch/stableMatchings/studentProjectAllocation/spaLecturerOptimal.py:87-88 | the loop stops at once on an empty list and ends only with an empty list |
| SPALecturerInv.InitInv | src/algmatch/stableMatchings/studentProjectAllocation/spaLecturerOptimal.py:30-40 | the constructor's state satisfies the loop invariant on every well-formed instance |
| SPALecturerInv.FindPairOk | src/algmatch/stableMatchings/studentProjectAllocation/spaLecturerOptimal.py:58-65 | on a well-formed instance the search never raises |
| SPALecturerInv.Reassign | src/algmatch/stableMatchings/studentProjectAllocation/spaLecturerOptimal.py:99-104 | with the break corrected, moving a student to a project with room succeeds and keeps the matching consistent and within quota |
| SPALecturerInv.DeleteAllEffect | src/algmatch/stableMatchings/studentProjectAllocation/spaLecturerOptimal.py:106-109 | deleting the successors cuts the student's list just after the project and removes the student from exactly those projects' lists |
| SPALecturerInv.StudentListsAfter | src/algmatch/stableMatchings/studentProjectAllocation/spaLecturerOptimal.py:106-109 | after the cut every student's list is its list as read up to and including its project |
| SPALecturerInv.NoPairInv | src/algmatch/stableMatchings/studentProjectAllocation/spaLecturerOptimal.py:92-97 | dropping a lecturer without a valid pair keeps the invariant |
| SPALecturerInv.PairInv | src/algmatch/stableMatchings/studentProjectAllocation/spaLecturerOptimal.py:99-120 | with the break corrected, an offer never raises and keeps the invariant |
| SPALecturerInv.StepInv | src/algmatch/stableMatchings/studentProjectAllocation/spaLecturerOptimal.py:88-120 | every corrected iteration succeeds and keeps the invariant |
| SPALecturerInv.RunInv | src/algmatch/stableMatchings/studentProjectAllocation/spaLecturerOptimal.py:87-120 | the corrected loop never raises, and ends in the invariant with no under-subscribed lecturer listed |
| SPALecturerCheck.RanksAbove | src/algmatch/stableMatchings/studentProjectAllocation/spaLecturerOptimal.py:147-151 | the loop over the assigned students is defined iff all are ranked, and is True iff one is ranked after the student |
| SPALecturerCheck.Bi | src/algmatch/stableMatchings/studentProjectAllocation/spaLecturerOptimal.py:126-134 | defined iff project and lecturer are known; True iff both are under quota |
| SPALecturerCheck.Bii | src/algmatch/stableMatchings/studentProjectAllocation/spaLecturerOptimal.py:137-152 | True only when the project is under quota, the lecturer full, and the student held by the lecturer or ranked above one of its students |
| SPALecturerCheck.Biii | src/algmatch/stableMatchings/studentProjectAllocation/spaLecturerOptimal.py:155-164 | True only when the project is full and ranks the student above one of its students |
| SPALecturerCheck.Conditions | src/algmatch/stableMatchings/studentProjectAllocation/spaLecturerOptimal.py:180-187 | the three tests are tried in order and True means one of them holds |
| SPALecturerCheck.ConditionsDecide | src/algmatch/stableMatchings/studentProjectAllocation/spaLecturerOptimal.py:126-164 | with ranked members and exact occupancies, the three tests return exactly whether the pair blocks |
| SPALecturerCheck.PairDecided | src/algmatch/stableMatchings/studentProjectAllocation/spaLecturerOptimal.py:180-187 | under the loop invariant the tests decide blocking for every project a student lists |
| SPALecturerCheck.CutCandidates | src/algmatch/stableMatchings/studentProjectAllocation/spaLecturerOptimal.py:173-178 | the check slices the shortened list with the original ranks, and gets the same projects as from the list as read |
| SPALecturerCheck.StudentCandidatesPreferred | src/algmatch/stableMatchings/studentProjectAllocation/spaLecturerOptimal.py:172-178 | under the loop invariant a student is checked against exactly the projects it prefers to its own |
| SPALecturerCheck.CheckStabilityDecides | src/algmatch/stableMatchings/studentProjectAllocation/spaLecturerOptimal.py:171-195 | under the loop invariant the check raises nothing and finds a blocking pair iff the matching is not stable |
| SPALecturerCheck.RunReportsStability | src/algmatch/stableMatchings/studentProjectAllocation/spaLecturerOptimal.py:198-207 | with the break corrected, a run whose loop completes reports the matching stable exactly when it is, with each student's project |
| SPALecturerQuota.RunAsWrittenFails | src/algmatch/stableMatchings/studentProjectAllocation/spaLecturerOptimal.py:68-78 | on two lecturers whose student prefers the second lecturer's project, `run` as written raises KeyError |
| SPALecturerQuota.RunCorrected | src/algmatch/stableMatchings/studentProjectAllocation/spaLecturerOptimal.py:87-120 | with the break corrected, the loop on that instance ends after three iterations with the student on its first choice |
| SPALecturerQuota.RunCorrectedStable | src/algmatch/stableMatchings/studentProjectAllocation/spaLecturerOptimal.py:198-207 | with the break corrected, `run` on that instance reports the matching stable |
| Text.WordsUnwords | src/algmatch/stableMatchings/stableMarriageProblem/fileReader.py:26 | words joined by single spaces split back into the same words, when none is empty or holds whitespace |
| Text.ParseShow | src/algmatch/stableMatchings/stableMarriageProblem/fileReader.py:22 | `int(str(i)) == i` for every integer, negative ones included, and `str(i)` is a single word |
| Cleaning.CleanSide | src/algmatch/stableMatchings/stableMarriageProblem/dictionaryReader.py:34-40 | one pass fails with KeyError iff some list names an agent missing from the other side; otherwise each agent keeps exactly the listed agents who list it back |
| Cleaning.CleanSideSubseq | src/algmatch/stableMatchings/stableMarriageProblem/dictionaryReader.py:34-39 | a cleaned list keeps its survivors in their order as read |
| Cleaning.Clean | src/algmatch/stableMatchings/stableMarriageProblem/dictionaryReader.py:34-48 | the two passes succeed iff every listed agent on either side is known, and keep the agents of both sides |
| Cleaning.CleanSymmetric | src/algmatch/stableMatchings/stableMarriageProblem/dictionaryReader.py:34-48 | after the second pass, which reads the first pass's lists, b is on a's list iff a is on b's, and every surviving pair was listed on both sides as read |
| Cleaning.CleanKeepsMutual | src/algmatch/stableMatchings/stableMarriageProblem/dictionaryReader.py:34-48 | a pair listed on both sides survives the cleaning |
| Cleaning.CleanOrder | src/algmatch/stableMatchings/stableMarriageProblem/dictionaryReader.py:34-48 | cleaned lists are subsequences of the lists as read and stay free of repetitions |
| Cleaning.CleanIdempotent | src/algmatch/stableMatchings/stableMarriageProblem/dictionaryReader.py:34-48 | cleaning a cleaned pair of sides changes nothing |
| Cleaning.Product | src/algmatch/abstractClasses/abstractPreferenceInstance.py:49 | `product(a_side, b_side)` lists every pair of one agent from each side |
| Cleaning.CleanPair | src/algmatch/abstractClasses/abstractPreferenceInstance.py:50-57 | one iteration changes no list but those of its two agents |
| Cleaning.CleanPairMembers | src/algmatch/abstractClasses/abstractPreferenceInstance.py:50-57 | a pair not listed on both sides leaves the list that names it; a mutual pair and every other entry stay, in order |
| Cleaning.CleanPairs | src/algmatch/abstractClasses/abstractPreferenceInstance.py:49-57 | the loop over a sequence of pairs fails iff a pair names an agent missing from the sides |
| Cleaning.CleanPairsMen | src/algmatch/abstractClasses/abstractPreferenceInstance.py:49-57 | after the visited pairs, a man keeps exactly the women he lists whose pair was not visited or is mutual |
| Cleaning.CleanPairsWomen | src/algmatch/abstractClasses/abstractPreferenceInstance.py:49-57 | after the visited pairs, a woman keeps exactly the men she lists whose pair was not visited or is mutual |
| Cleaning.CleanProduct | src/algmatch/abstractClasses/abstractPreferenceInstance.py:49-57 | the loop over the product of the two sides never fails |
| Cleaning.CleanProductMen | src/algmatch/abstractClasses/abstractPreferenceInstance.py:49-57 | afterwards a man keeps exactly the women he lists who are not on the other side or list him back |
| Cleaning.CleanProductWomen | src/algmatch/abstractClasses/abstractPreferenceInstance.py:49-57 | afterwards a woman keeps exactly the men she lists who are not on the other side or list her back |
| Cleaning.CleanProductSymmetric | src/algmatch/abstractClasses/abstractPreferenceInstance.py:49-57 | afterwards b is on a's list iff a is on b's, for every a and b of the two sides |
| Cleaning.CleanProductOrder | src/algmatch/abstractClasses/abstractPreferenceInstance.py:52-57 | survivors keep their order, and lists stay free of repetitions |
| Cleaning.ProductAgreesWithPasses | src/algmatch/abstractClasses/abstractPreferenceInstance.py:49-57 | on known agents, the pairwise loop gives exactly the readers' two-pass cleaning, whatever the order of the sides |
| Cleaning.RepeatSurvives | src/algmatch/abstractClasses/abstractPreferenceInstance.py:55-57 | `list.remove` deletes one copy only, so a man listing a woman twice still lists her after the loop although she does not list him |
| Cleaning.Construct | src/algmatch/abstractClasses/abstractPreferenceInstance.py:13-25 | AssertionError unless exactly one source is given and a given file exists; a result comes from the file loader or from the dictionary loader |
| Readers.Prefixed | src/algmatch/stableMatchings/stableMarriageProblem/fileReader.py:28 | each token gains the prefix, in order |
| Readers.ParseAll | src/algmatch/stableMatchings/stableMarriageProblem/fileReader.py:22 | `map(int, ws)` succeeds iff every word is an integer literal, giving their values in order; otherwise ValueError |
| Readers.Header | src/algmatch/stableMatchings/stableMarriageProblem/fileReader.py:22 | the header unpacks iff the first line has exactly the expected number of words, all integers; otherwise ValueError |
| Readers.HeaderRoundTrip | src/algmatch/stableMatchings/stableMarriageProblem/fileReader.py:22 | a header written as integers separated by spaces reads back as those integers |
| Readers.ReadLinesOk | src/algmatch/stableMatchings/stableMarriageProblem/fileReader.py:25-31 | the loop over a section succeeds iff every line of it parses |
| Readers.ReadLinesError | src/algmatch/stableMatchings/stableMarriageProblem/fileReader.py:25-31 | a failing section raises the error of its first failing line |
| Readers.ReadLinesKeys | src/algmatch/stableMatchings/stableMarriageProblem/fileReader.py:25-31 | the keys read are exactly the ids of the section's lines |
| Readers.ReadLinesValues | src/algmatch/stableMatchings/stableMarriageProblem/fileReader.py:25-31 | every entry read is the parse of some line of the section |
| Readers.ReadLinesLast | src/algmatch/stableMatchings/stableRoommates/fileReader.py:19-25 | an id's entry is the one parsed from its last line: a later line overwrites an earlier one |
| Readers.ReadLinesOf | src/algmatch/stableMatchings/stableMarriageProblem/fileReader.py:25-31 | lines written one per key, with distinct ids, read back as the table of their keys |
| Readers.AgentLineRoundTrip | src/algmatch/stableMatchings/stableMarriageProblem/fileReader.py:26-31 | a line of an id followed by preference words reads back as that agent, its list prefixed and ranked by position |
| Readers.DictSide | src/algmatch/stableMatchings/stableRoommates/dictionaryReader.py:16-21 | each key k is read as the prefixed id with its prefixed list, ranked by position, and nothing else is read |
| Readers.SideRoundTrip | src/algmatch/stableMatchings/stableRoommates/dictionaryReader.py:16-21 | a dictionary side written as lines in any key order reads back as the dictionary reader's side |
| Readers.ReadSRFile | src/algmatch/stableMatchings/stableRoommates/fileReader.py:19-25 | the roommates file reads iff no line is empty; an empty line raises IndexError |
| Readers.SRLaterLineWins | src/algmatch/stableMatchings/stableRoommates/fileReader.py:19-25 | a roommate read from several lines keeps the list of the last |
| Readers.SRFileAgreesWithDict | src/algmatch/stableMatchings/stableRoommates/fileReader.py:19-25 | the file written from a roommates dictionary reads as the dictionary reader's result |
| Readers.ReadTwoSections | src/algmatch/stableMatchings/stableMarriageProblem/fileReader.py:19-22 | an empty file raises IndexError, and a header without exactly two integers ValueError |
| Readers.SectionSlices | src/algmatch/stableMatchings/stableMarriageProblem/fileReader.py:25-34 | the two slices the header counts delimit are exactly the two sections written after it |
| Readers.TwoSectionsRoundTrip | src/algmatch/stableMatchings/stableMarriageProblem/fileReader.py:22-40 | after a header counting two sections, each section is read from its own lines and trailing lines are ignored |
| Readers.SMFileRoundTrip | src/algmatch/stableMatchings/stableMarriageProblem/fileReader.py:22-40 | the file written from a men/women dictionary reads as the dictionary's two sides, uncleaned |
| Readers.HospitalLineRoundTrip | src/algmatch/stableMatchings/hospitalResidentsProblem/fileReader.py:34-40 | a line of id, capacity and residents reads back as that hospital |
| Readers.HospitalsSide | algmatch-HRT/src/algmatch/stableMatchings/hospitalsResidentsProblem/dictionaryReader.py:27-34 | hospitals read iff every entry has a capacity and preferences (KeyError otherwise), each under its prefixed id with its capacity and ranked list |
| Readers.ReadHRTDict | algmatch-HRT/src/algmatch/stableMatchings/hospitalsResidentsProblem/dictionaryReader.py:17-34 | the reader fails iff some hospital entry lacks a field |
| Readers.HospitalsRoundTrip | src/algmatch/stableMatchings/hospitalResidentsProblem/fileReader.py:33-40 | hospital lines written from complete entries read back as the dictionary reader's hospitals |
| Readers.HRFileAgreesWithDict | src/algmatch/stableMatchings/hospitalResidentsProblem/fileReader.py:21-40 | the file written from a residents/hospitals dictionary reads as the dictionary reader's result; neither cleans |
| Readers.Unassigned | src/algmatch/stableMatchings/studentProjectAllocation/SPA_P/fileReader.py:28 | the map's keys are exactly the listed projects, all at 0 |
| Readers.StudentLine | src/algmatch/stableMatchings/studentProjectAllocation/SPA_P/fileReader.py:24-29 | a student line reads iff it is not empty (IndexError otherwise), as its prefixed id with its prefixed list |
| Readers.ProjectLine | src/algmatch/stableMatchings/studentProjectAllocation/SPA_P/fileReader.py:31-37 | a project line reads iff it has three words and an integer second one; the error is the one Python meets first, evaluating the record before the key |
| Readers.LecturerLine | src/algmatch/stableMatchings/studentProjectAllocation/SPA_P/fileReader.py:39-46 | a lecturer line reads iff it has two words and an integer capacity; its record is the capacity, the prefixed projects, 0 and None |
| Readers.ReadSPAP | src/algmatch/stableMatchings/studentProjectAllocation/SPA_P/fileReader.py:21-22 | an empty file raises IndexError, and a header without exactly three integers ValueError |
| Readers.PSections | src/algmatch/stableMatchings/studentProjectAllocation/SPA_P/fileReader.py:24-46 | students are the lines the first count covers, projects the next, and lecturers every line that remains |
| Readers.SPAPUnassigned | src/algmatch/stableMatchings/studentProjectAllocation/SPA_P/fileReader.py:24-46 | everything read starts unassigned: every listed project at 0, all counts 0, no worst project |
| CleanReaders.CleanRead | src/algmatch/stableMatchings/stableMarriageProblem/dictionaryReader.py:34-48 | cleaning read agents fails with KeyError iff some list names an unknown agent, and keeps both sides' agents |
| CleanReaders.CleanReadMutual | src/algmatch/stableMatchings/stableMarriageProblem/dictionaryReader.py:34-48 | after cleaning, b is on a's list iff a is on b's, and every survivor was mutual as read |
| CleanReaders.CleanReadOrder | src/algmatch/stableMatchings/stableMarriageProblem/dictionaryReader.py:39-48 | cleaned lists are subsequences of the lists as read, ranked by position in the cleaned list |
| CleanReaders.CleanReadKeepsMutual | src/algmatch/stableMatchings/stableMarriageProblem/dictionaryReader.py:34-48 | a mutually listed pair survives the cleaning |
| CleanReaders.CleanReadIdempotent | src/algmatch/stableMatchings/stableMarriageProblem/dictionaryReader.py:34-48 | reading a cleaned instance again changes nothing |
| CleanReaders.CleanReadWellFormed | src/algmatch/stableMatchings/stableMarriageProblem/dictionaryReader.py:34-48 | on lists without repetitions, the cleaned instance is well formed for the Gale–Shapley loops |
| CleanReaders.SMCleanedFileAgreesWithDict | algmatch-FixesSMHR/src/algmatch/stableMatchings/stableMarriageProblem/fileReader.py:22-55 | the cleaning file reader, on the file written from a dictionary, gives the dictionary reader's result |
| CleanReaders.SMFileKeepsOneSided | src/algmatch/stableMatchings/stableMarriageProblem/fileReader.py:25-40 | a man listing a woman who does not list him keeps her in the file reader, loses her in the dictionary reader, and the file's instance is not well formed |
| CleanReaders.OneSidedNotMutual | src/algmatch/stableMatchings/stableMarriageProblem/fileReader.py:25-40 | lists as read with a one-sided listing do not form a well-formed instance |
| CleanReaders.CleanHR | algmatch-FixesSMHR/src/algmatch/stableMatchings/hospitalResidentsProblem/dictionaryReader.py:35-49 | cleaning residents and hospitals fails with KeyError iff some list names an unknown agent, and keeps both sides' agents |
| CleanReaders.CleanHRMutual | algmatch-FixesSMHR/src/algmatch/stableMatchings/hospitalResidentsProblem/dictionaryReader.py:35-49 | after cleaning, h is on r's list iff r is on h's, and every survivor was mutual as read |
| CleanReaders.CleanHROrder | algmatch-FixesSMHR/src/algmatch/stableMatchings/hospitalResidentsProblem/dictionaryReader.py:40-49 | cleaned lists are subsequences of the lists as read, ranked by position, and capacities are kept |
| CleanReaders.CleanHRWellFormed | algmatch-FixesSMHR/src/algmatch/stableMatchings/hospitalResidentsProblem/dictionaryReader.py:35-49 | on lists without repetitions and capacities of at least 1, the cleaned instance is well formed for the resident-proposing loop |
| CleanReaders.HRCleanedFileAgreesWithDict | algmatch-FixesSMHR/src/algmatch/stableMatchings/hospitalResidentsProblem/fileReader.py:21-55 | the cleaning file reader, on the file written from a dictionary, gives the cleaning dictionary reader's result |
| SPAReader.VisitOk | src/algmatch/stableMatchings/studentProjectAllocation/fileReader.py:50-57 | the update loop succeeds iff every visited project's lecturer is known and so is every student that lecturer lists; KeyError otherwise |
| SPAReader.VisitLecturers | src/algmatch/stableMatchings/studentProjectAllocation/fileReader.py:50-52 | afterwards each lecturer's project set has gained exactly the visited projects naming it, and nothing else of a lecturer changes |
| SPAReader.VisitProject | src/algmatch/stableMatchings/studentProjectAllocation/fileReader.py:53-57 | a visited project's list is its lecturer's list filtered to the students listing it, ranked by position; other projects are untouched |
| SPAReader.VisitKeys | src/algmatch/stableMatchings/studentProjectAllocation/fileReader.py:50-57 | the loop gives a list to exactly the visited projects |
| SPAReader.Assemble | src/algmatch/stableMatchings/studentProjectAllocation/dictionaryReader.py:45-52 | the instance built fails with KeyError iff some project's lecturer, or a student that lecturer lists, is unknown |
| SPAReader.VisitAnyOrderOk | src/algmatch/stableMatchings/studentProjectAllocation/dictionaryReader.py:45-52 | in every iteration order the loop succeeds iff the instance resolves |
| SPAReader.VisitAnyOrder | src/algmatch/stableMatchings/studentProjectAllocation/dictionaryReader.py:45-52 | the loop's result does not depend on the dictionary order of the projects |
| SPAReader.AssembleFacts | src/algmatch/stableMatchings/studentProjectAllocation/dictionaryReader.py:45-52 | projects keep quota and lecturer and get the lecturer's list filtered to the students listing them, ranked by position; a lecturer's projects are exactly those naming it |
| SPAReader.AssembleWellFormed | src/algmatch/stableMatchings/studentProjectAllocation/dictionaryReader.py:45-52 | on sound input the instance built is well formed for both allocation loops |
| SPAReader.ProjectLine | src/algmatch/stableMatchings/studentProjectAllocation/fileReader.py:36-38 | a project line reads with the same outcome and error as the SPA-P project line, keeping capacity and lecturer |
| SPAReader.LecturerLine | src/algmatch/stableMatchings/studentProjectAllocation/fileReader.py:41-47 | a lecturer line reads iff it has two words and an integer capacity (IndexError, then ValueError); no projects yet, list ranked by position |
| SPAReader.SPASections | src/algmatch/stableMatchings/studentProjectAllocation/fileReader.py:41 | the lecturers are read from exactly the slice after the students and projects that the third count covers |
| SPAReader.ReadSPAFile | src/algmatch/stableMatchings/studentProjectAllocation/fileReader.py:21-24 | an empty file raises IndexError, and a header without exactly three integers ValueError |
| SPAReader.ProjectsSide | src/algmatch/stableMatchings/studentProjectAllocation/dictionaryReader.py:28-34 | projects read iff every entry has a capacity and a lecturer (KeyError otherwise), each as its prefixed id with capacity and prefixed lecturer |
| SPAReader.LecturersSide | src/algmatch/stableMatchings/studentProjectAllocation/dictionaryReader.py:36-43 | lecturers read iff every entry has a capacity and preferences (KeyError otherwise), each as its prefixed id |
| SPAReader.ReadSPADict | src/algmatch/stableMatchings/studentProjectAllocation/dictionaryReader.py:28-43 | a project or lecturer entry lacking a field makes the reader raise KeyError |
| SPAReader.LecturerLinesFresh | src/algmatch/stableMatchings/studentProjectAllocation/fileReader.py:41-47 | lecturers read from lines start with no projects and with ranks by position |
| SPAReader.ReadSPAFileWellFormed | src/algmatch/stableMatchings/studentProjectAllocation/fileReader.py:24-57 | a file whose sections read and are sound gives a well-formed instance |
| SPAReader.ReadSPADictWellFormed | src/algmatch/stableMatchings/studentProjectAllocation/dictionaryReader.py:18-52 | a complete, sound dictionary gives a well-formed instance |
| HRTStrong.DominationIndex | src/algmatch/stableMatchings/hospitalResidentsProblem/ties/hrtStrongAbstract.py:56-63 | the index returned is the first tie at which the count of assigned residents seen reaches capacity; ValueError iff the count never reaches it |
| HRTStrong.SeenCounts | src/algmatch/stableMatchings/hospitalResidentsProblem/ties/hrtStrongAbstract.py:59-60 | with disjoint ties, the running count is the number of assigned residents in the ties seen so far |
| HRTStrong.FullDominates | src/algmatch/stableMatchings/hospitalResidentsProblem/ties/hrtStrongAbstract.py:56-63 | a hospital holding at least its capacity of residents from its own list has a domination index, so ValueError is left to hospitals that are not full |
| HRTStrong.RejectEachIsRejected | src/algmatch/stableMatchings/hospitalResidentsProblem/ties/hrtStrongAbstract.py:67-70 | rejecting residents one at a time, in any order, gives the same state as rejecting the set of them |
| HRTStrong.DeleteDominated | src/algmatch/stableMatchings/hospitalResidentsProblem/ties/hrtStrongAbstract.py:65-70 | ValueError iff no domination index exists; otherwise every resident of the ties after the index is rejected |
| HRTStrong.RejectedFacts | src/algmatch/stableMatchings/hospitalResidentsProblem/ties/hrtStrongAbstract.py:65-70 | ties up to the index are untouched and later ones emptied; the hospital loses exactly the rejected residents, they lose the hospital, and every other agent is unchanged |
| HRTStrong.ResetGr | src/algmatch/stableMatchings/hospitalResidentsProblem/ties/hrtStrongAbstract.py:28-31 | every resident and hospital, and nothing else, maps to the empty set |
| HRTStrong.ResetMaximumMatching | src/algmatch/stableMatchings/hospitalResidentsProblem/ties/hrtStrongAbstract.py:33-38 | residents map to None, hospitals to empty sets, and `dist` is cleared |
| HRTStrong.ResetIsEmptyMatching | src/algmatch/stableMatchings/hospitalResidentsProblem/ties/hrtStrongAbstract.py:33-38 | the reset matching is consistent and matches nobody |
| MutualAttraction.PermsOfRange | src/algmatch/stableMatchings/studentProjectAllocation/SPA_P/mutualAttraction/mutualAttraction.py:60 | `permutations(range(n))` lists exactly the rearrangements of 0..n-1 |
| MutualAttraction.PermsSound | src/algmatch/stableMatchings/studentProjectAllocation/SPA_P/mutualAttraction/mutualAttraction.py:60 | every listed permutation is a rearrangement of the input |
| MutualAttraction.PermsComplete | src/algmatch/stableMatchings/studentProjectAllocation/SPA_P/mutualAttraction/mutualAttraction.py:60 | every rearrangement of the input is listed |
| MutualAttraction.MinOf | src/algmatch/stableMatchings/studentProjectAllocation/SPA_P/mutualAttraction/mutualAttraction.py:62-69 | the running minimum is one of the costs and no greater than any |
| MutualAttraction.Distance | src/algmatch/stableMatchings/studentProjectAllocation/SPA_P/mutualAttraction/mutualAttraction.py:49-71 | AssertionError iff the shapes differ; otherwise the distance is never negative |
| MutualAttraction.DistanceIsLeast | src/algmatch/stableMatchings/studentProjectAllocation/SPA_P/mutualAttraction/mutualAttraction.py:60-71 | the distance is the cost of some row permutation and at most the cost of every one |
| MutualAttraction.DistanceSelf | src/algmatch/stableMatchings/studentProjectAllocation/SPA_P/mutualAttraction/mutualAttraction.py:49-71 | a matrix is at distance 0 from itself |
| MutualAttraction.Agreement | src/algmatch/stableMatchings/studentProjectAllocation/SPA_P/mutualAttraction/mutualAttraction.py:74-88 | n rows, each [1, ..., l] |
| MutualAttraction.Disagreement | src/algmatch/stableMatchings/studentProjectAllocation/SPA_P/mutualAttraction/mutualAttraction.py:91-105 | n rows, each [l, ..., 1] |
| MutualAttraction.OddRow | src/algmatch/stableMatchings/studentProjectAllocation/SPA_P/mutualAttraction/mutualAttraction.py:108-119 | the cost of pairing [1..l] with [l..1] is l²/2 rounded down |
| MutualAttraction.AgainstAnyPairing | src/algmatch/stableMatchings/studentProjectAllocation/SPA_P/mutualAttraction/mutualAttraction.py:63-66 | every row permutation costs the same between the agreement and disagreement matrices |
| MutualAttraction.ClosedFormIs | src/algmatch/stableMatchings/studentProjectAllocation/SPA_P/mutualAttraction/mutualAttraction.py:116-119 | both branches of the formula equal n times l²/2 rounded down |
| MutualAttraction.AgreementDisagreement | src/algmatch/stableMatchings/studentProjectAllocation/SPA_P/mutualAttraction/mutualAttraction.py:128-137 | the distance between the agreement and disagreement matrices equals the closed form for every n and l, so the assertion in `main` holds |

## Left out

- SMEngine.Run: requires a well-formed instance (lists without repetitions, mutual acceptability), which is what the cleaning readers produce; on raw lists the loop can raise the errors its `Err` results model, but the invariant is not proved for them.
- The engines of the FixesSMHR tree are not part of this model; its `SMAbstract` check and `run` are applied to the engines of the main tree.
- The strings `run` formats are reduced to the verdict and the views they print.
- HREngine.Run: requires hospitals of capacity at least 1; a hospital of capacity 0 evicts every proposer and then asks for the worst resident of an empty set, which raises ValueError in the loop as written.
- HRCheck.Condition: fails with KeyError as soon as one resident the hospital holds has no rank, where Python's loop may return True at an earlier resident in the set's iteration order, which the model does not fix.
- HREngine.Worst: among residents of equal rank `min` returns the first in the set's iteration order; the model picks one of greatest rank without saying which. On lists without repetitions ranks are distinct, so this choice never arises.
- SPAStudentInv.RunInv and SPALecturerInv.RunInv: termination is not proved; the loops run on fuel, and `None` stands for fuel that ran out.
- The student-proposing loop pops from a set: the pop order is the parameter `pop`. The lecturer-proposing loop is deterministic given the dictionary order `lorder` of the lecturers.
- SPALecturerCheck.RanksAbove: Python's loops over `M[lecturer]` and `M[project]` (lines 148 and 160) may return True before reaching an unranked student; the model raises KeyError whenever any assigned student is unranked. Under the loop invariant every assigned student is ranked, so the difference never arises there.
- SPALecturer.Break: the corrected break leaves out the insertion into the under-subscribed list at line 76, since the list is rebuilt from the occupancies at the end of the same iteration.
- SPALecturer.Step: the removal of a full lecturer at lines 113-114 is computed (its ValueError kept) and then discarded, as the rebuild that follows overwrites the list.
- SPAStudentInv.InitInv and SPALecturerInv.InitInv: the instance is assumed well formed, with quotas of at least 1 and lists without repetitions; the readers enforce neither.
- Cleaning.CleanProductSymmetric: requires lists without repetitions; `list.remove` deletes one copy only, so a repeated entry can survive the loop one-sidedly (Cleaning.RepeatSurvives shows it).
- Cleaning.ProductAgreesWithPasses: requires lists without repetitions and every listed agent known, for the same reason; the two-pass cleaning raises KeyError on an unknown agent where the pairwise loop never looks it up.
- `_general_setup_procedure` (src/algmatch/abstractClasses/abstractPreferenceInstance.py:27-30) calls `clean_unacceptable_pairs()` without the two sides its definition takes, which would raise TypeError; it and the hooks that raise NotImplementedError are not modelled, and the loop is modelled on explicit sides.
- Cleaning.Construct: `os.path.isfile` and the two loaders are parameters; opening and reading the file are not modelled.
- Files are modelled as sequences of lines. `read().splitlines()` and `readlines()` followed by `strip()` split lines at the same newlines for the files the readers expect; the further line boundaries `splitlines` knows (form feed, the Unicode separators) are not modelled.
- Text.ParseInt: accepts an optional sign followed by ASCII digits; Python's `int` also accepts underscores between digits and non-ASCII digits, which the model rejects. Surrounding whitespace never reaches it, since the words come from `split`.
- Dictionary keys and list entries are modelled by their string form, the text the readers' f-strings produce; two keys with the same string form (such as `1` and `"1"`) would merge in Python, which the model does not represent.
- Readers.HospitalsSide, SPAReader.ProjectsSide and SPAReader.LecturersSide: capacities are integers; the dictionary readers copy whatever value they are given.
- The Hospitals/Residents dictionary reader of the main tree (src/algmatch/stableMatchings/hospitalResidentsProblem/dictionaryReader.py) is not part of this model.
- HRTStrong.DeleteDominated: `_break_assignment` and `_delete_pair` are defined in a base class that is not part of this model; their evident effect is modelled (the resident leaves the hospital's tie, which stays in place even when empty, and each leaves the other's assignment). The model also requires every resident on the hospital's list to be known.
- `_get_maximum_matching_in_G_r` and `_get_critical_set` raise NotImplementedError, and `_select_maximum_matching_in_G_r` reads the keys "men" and "women" that the reset never creates; none of the three is modelled.
- MutualAttraction.Distance: matrices are rectangular integer matrices; numpy arrays of floats and `construct_mutual_attraction_matrix`, which reads them from a file, are not modelled. The running minimum starts at the first cost rather than at `float('inf')`, which is the same since the list of permutations is never empty.
- SMEngine.RunAsWritten: the state from which the IndexError is raised is described by the loop invariant; the contract does not state that it is reachable from the initial state (SMRun.CrowdedRun exhibits one run that reaches it).
- SmtCheck.Candidates: `preferred_women[-1].remove(matched_woman)` (src/algmatch/stableMatchings/stableMarriageProblem/ties/smtAbstract.py:51) removes the partner from the tie set that `original_men` itself holds, since the slice copies the list but not its sets; a second `_check_stability` on the same object then raises KeyError at that `remove`. The model is pure and leaves the stored lists as they were, so it describes the first call only.
- Text.Words: whitespace is the ASCII whitespace `str.isspace()` accepts; the other Unicode whitespace characters at which Python's `str.split()` also breaks (such as U+00A0 and U+3000) are not modelled.
- SmtReader.RegexSplit: `\d` matches the ASCII digits only; on a `str` pattern Python's `\d` also matches every other Unicode decimal digit.
- SpastSolver.OutrankedHolds: stated for lists of ties only. On bare id strings the result holds characters rather than the entity, and a longer id can hide it (SpastSolver.OutrankedCharacters and SpastSolver.OutrankedSubstring).
- SpastSolver: the Gurobi model is not modelled: the variables, the linear expressions and constraints of `_theta`, `_theta_star`, `_lambda`, `_mu` and `_tau`, and the objective. The helpers those methods call, and the lookups of `_lambda` and `_tau` on the students they return, are modelled. `_theta` (src/algmatch/stableMatchings/studentProjectAllocation/ties/spastSolver.py:124) passes the student's project-to-variable dictionary as the preference list, so `preference_list[0]` at line 77 looks up the key 0 and raises KeyError; `_blocking_pair_constraints` calls `_theta` (line 327) before `_lambda` and `_tau`, so through `solve` that KeyError is raised first. That call is not modelled. The `FileReaderIPModel` reader the solver reads with is not part of this model.

## Findings

| source | as written | input that shows it | evidently intended | confidence | as-written member | corrected member |
|---|---|---|---|---|---|---|
| src/algmatch/stableMatchings/stableMarriageProblem/smAbstract.py:35-53 | the check reads the working lists, from which the loop deleted each engaged pair, with the rank tables of the lists as read | men m1:[w1,w2,w3], m2:[w1]; women w1:[m2,m1], w2:[m1], w3:[m1]: every pop order ends with m1–w2, m2–w1, which is stable, yet m1's working list is [w3] and the check finds w3 single | the check judges the matching on the lists as read | high (proved; not executed) | SMRun.CrossRun | SMRun.ManOptimal |
| src/algmatch/stableMatchings/stableMarriageProblem/smManOptimal.py:30-37 | a displaced man is re-queued whatever is left on his list, and `list[0]` is read without a guard | men m1:[w1], m2:[w1]; women w1:[m1,m2]: the man displaced or rejected by w1 is popped with an empty list and the loop raises IndexError | a man whose list is exhausted stays single | high (proved; not executed) | SMRun.CrowdedRun | SMEngine.Run |
| src/algmatch/stableMatchings/hospitalResidentsProblem/hrResidentOptimal.py:51-62 | the test for a full hospital uses the occupancy read before the eviction, so an iteration that evicts never cuts, and the evicted resident is queued again with the hospital still at the head of its list | one hospital h of capacity 1 ranking a, b, c, each listing only h: after popping c, b, a, the queue holds only b, whose iteration evicts b and returns to the same state | the occupancy is read again after the eviction, so the cut removes the evicted resident's pair | high (proved; not executed) | HREngine.TrioNeverEndsFromStart | HREngine.Run |
| src/algmatch/stableMatchings/hospitalResidentsProblem/hrAbstract.py:49-62 | the check reads the working lists, from which the loop deleted each pair it cut, with the rank tables of the lists as read | residents r: [h1, h2, h3], q: [h1]; hospitals h1, h2, h3 of capacity 1, h1 ranking q before r: popping r, q, r ends with the stable matching r–h2, q–h1, yet r's working list is [h3] and the check finds h3 with a free place | the check judges the matching on the lists as read | high (proved; not executed) | HRDetour.DetourMisreported | HRCheck.CheckIntendedIsStability |
| src/algmatch/stableMatchings/studentProjectAllocation/ties/fileReader.py:53 | every token's rank is stored under "p" plus the token, for lecturers too, and valued by the token's position in the line rather than by its tie | a lecturer line listing the tie (1 2): the rank table is {p1: 0, p2: 1} | a student's rank table keyed by the listed ids and valued by tie index, as the dictionary reader builds it | high (proved; not executed) | SpastReader.LecturerRanksAsWritten | SpastReader.ReadPreferencesTieRanks |
| src/algmatch/stableMatchings/studentProjectAllocation/ties/fileReader.py:108-118 | `project in elt` on a single entry is substring search, and a student is appended once per matching entry | a student listing only p12 is projected onto project p1 | the lecturer's students who list the project itself, once each | high (proved; not executed) | SpastReader.ProjectedSubstring | SpastReader.ProjectedIntended |
| src/algmatch/stableMatchings/studentProjectAllocation/ties/spastAbstract.py:91-122 | the conditions read the quota under the key "capacity", which neither reader stores (they store "upper_quota") | an unassigned student listing a project: the first condition raises KeyError | the quota is read under the key the readers store | high (proved; not executed) | SpastCheck.CapacityKeyInstance | SpastCheck.CheckIntended |
| src/algmatch/stableMatchings/studentProjectAllocation/ties/spastAbstract.py:149-152 | a matched student's candidates are the ties strictly before the matched rank, so the other members of the matched tie are never examined | student s1 ties p1 and p2 and holds p1; p2 and its lecturer have free places: the check answers True, yet (s1, p2) blocks | the candidates run through the matched tie, minus the matched project | high (proved; not executed) | SpastCheck.MatchedTieSkipped | SpastCheck.MatchedTieIntended |
| src/algmatch/stableMatchings/studentProjectAllocation/ties/spastAbstract.py:183-192 | `_save_lecturer_sided` iterates `self.lecturer`, an attribute that does not exist | any instance on which the loop succeeds: `run` raises AttributeError | the lecturers' dictionary is iterated | high (proved; not executed) | SpastCheck.RunAsWritten | SpastCheck.RunIntended |
| src/algmatch/stableMatchings/studentProjectAllocation/spaLecturerOptimal.py:75 | breaking an assignment compares the occupancy with `projects[p]["lower_quota"]`, a key neither reader stores | student s1 lists p2 then p1; p1 is offered by l1 and p2 by l2, all quotas 1, both lecturers list s1: l1 assigns s1 to p1, then l2 offers p2 and the break raises KeyError | the assignment is broken without that lookup, so the student moves to the project it prefers | high (proved; not executed) | SPALecturerQuota.RunAsWrittenFails | SPALecturerQuota.RunCorrectedStable |
| src/algmatch/stableMatchings/stableMarriageProblem/fileReader.py:25-40 | the file reader stores the lists as read, without the cleaning the dictionary reader and the other tree's file reader perform | men 1: [1]; women 1: []: the file reader keeps woman 1 on man 1's list although she does not list him, the dictionary reader drops her, and the instance read is not well formed | the lists are cleaned to mutual acceptability, as the dictionary reader does | medium (proved; not executed) | CleanReaders.SMFileKeepsOneSided | CleanReaders.SMCleanedFileAgreesWithDict |
| src/algmatch/stableMatchings/studentProjectAllocation/ties/spastSolver.py:262-315 | `_L_k_j` returns a flat list of student ids, which `_lambda` and `_tau` hand to `_get_outranked_entities` as a preference list; there `entity not in p` is substring search on an id string, `+= p` appends the id's characters, and the lecturer's ties are lost | lecturer l1 ranks s1 then s2, both of whom find p1 acceptable: the set for s2 at line 312 is ['s', '1', 's', '2'] and the lookup at line 315 raises KeyError; an s12 ranked before s1 hides s1; with s1 and s2 in one tie the strict set for s2 at line 267 is ['s', '1'] where the lecturer is indifferent. This is the failure of `_lambda` and `_tau` called on their own: through `solve`, `_blocking_pair_constraints` calls `_theta` first (line 327), and its KeyError at line 77 (see "## Left out") comes before line 267 is reached | the sets are read from the lecturer's ties, each filtered to the students accepting the project: the strict set holds the students of the ties before the student's tie, the other set those of that tie too | high (proved; not executed) | SpastSolver.OutrankedCharacters | SpastSolver.ProjectedOutrankedCorrected |
